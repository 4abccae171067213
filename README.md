# Twitter timeline reader, modelled in Dafny

This project models the `Reader` class of `DanielMelzer/Twitter/Reader.class.php`. The class
fetches a Twitter user profile, by screen name or by id, and then that user's timeline. It keeps
each timeline response twice:

- raw, as decoded;
- as a list of display-ready posts. Replies are left out. Each post gets escaped and linkified
  text, hashtags taken from the tweet's own text, and a counter that falls from the profile's
  statuses count.

The model has four modules:

- `Strings` (`strings.dfy`): the ASCII character classes `\w` and `\s` and maximal runs of them.
  It also has splitting on line feeds and joining back, with both round trips proved. `MapLines`
  applies a rewrite to each line of a text.
- `Text` (`text.dfy`): the two pure text functions.
  - `processText` is `HtmlEntities`, then `LinkUrls`, then `LinkMentions`. Each regex rewrite is a
    function on one line, lifted to the text with `MapLines`. Two facts justify that. None of `.`,
    `[^\s]` and `[\w]` matches a line feed. Each pattern starts with `(.*)` and the `preg_replace` call is
    global. Together they mean a match starts at a line start, ends at that line's end, and
    happens at most once per line.
  - On a line, the groups the model substitutes are proved to be the ones PCRE's backtracking
    prefers among all matches of the pattern. `MatchesUrlPattern` and `MatchesMentionPattern`
    state the pattern independently of the rewrite.
  - `extractTags` is `ExtractTags`, a left-to-right scan. It is proved equal to an independent
    list of every tag start.
- `Query` (`query.dfy`): the `&key=value` fields the timeline request appends for its options. It
  includes a parser that reads them back, as the inverse.
- `Twitter` (`reader.dfy`): the reader itself.
  - The values, tweets, posts and profiles are datatypes.
  - `Project` is the specification of the timeline loop, with lemmas about filtering, order and
    counters.
  - The class `Reader` has the fields `options`, `user`, `rawTimeline` and `timeline`. Its
    constructor and its `RetrieveTweets`, `RetrieveUserByScreenName` and `RetrieveUserById`
    methods change those fields.
  - Its getters `GetUser`, `GetTimeline` and `GetRawTimeline` are functions that return the
    fields.

The outside world enters through a `Services` value:

- Fetching a URL and decoding the JSON give a `Reply`: no body, an object with an `error` field, or
  the decoded payload.
- `filter_var` sanitising, `urlencode(strtolower(…))`, `strtotime` and `sprintf('%.0F', …)` are
  function fields of `Services`.

A profile is either the initial one, whose id is `0`, or a fetched one. A fetched profile's id is a
string and its statuses count is an integer. `Reader.Valid` keeps this as an invariant. In
particular, once the empty-id check of `retrieveTweets` passes, the counter starts from an integer.

Where the documented behaviour and the code differ, the model follows the code:

- The URL rewrite's pattern is `(.*)(http(s)?://[^\s]+)(.*)`, because the outer parentheses are
  delimiters. Its replacement ends in `$3`, and `$3` is the optional `s` group. So the text after
  the URL on its line is dropped, and only an `s` follows the anchor when the URL is `https`. For
  the example text `... out http://example.com cc @alice`, the line becomes
  `... out <a href="http://example.com">http://example.com</a>`. The `@alice` is gone before the
  mention rewrite runs.
- Because `(.*)` is greedy, it is the last URL and the last mention of each line that are
  rewritten, not the first. This is one rewrite per line, not one per text.

## Model

| member | source | states |
|---|---|---|
| Text.EscapeChar | DanielMelzer/Twitter/Reader.class.php:272 | `&`, `<`, `>` and `"` become `&amp;`, `&lt;`, `&gt;` and `&quot;`; every other character, `'` included, stays. `EntitiesRoundTrip` proves that decoding undoes it |
| Text.HtmlEntities | DanielMelzer/Twitter/Reader.class.php:272 | the escaped text holds no `<`, `>` or `"`, and has no line feed the input lacks |
| Text.EntitiesRoundTrip | DanielMelzer/Twitter/Reader.class.php:272 | decoding the four ENT_COMPAT entities gives the input back: escaping loses nothing and `'` is kept |
| Text.LastUrl | DanielMelzer/Twitter/Reader.class.php:274 | the result is the greatest position below the bound where `http`, an optional `s`, `://` and a non-space character start; it is none exactly when there is no such position |
| Text.ChosenUrlGroupsMatch | DanielMelzer/Twitter/Reader.class.php:274 | on a line with a URL, the chosen groups are a match of the whole pattern. The line becomes the text before the URL, the anchor `<a href="U">U</a>`, and `s` for https or nothing otherwise; the text after the URL is dropped |
| Text.ChosenUrlGroupsFirst | DanielMelzer/Twitter/Reader.class.php:274 | for every match of the pattern on a line, the chosen groups come first in PCRE's order: longest `$1`, then longest `$3`, then longest `$2`. So they are the groups `preg_replace` substitutes |
| Text.UrlFreeLineUnchanged | DanielMelzer/Twitter/Reader.class.php:274 | a line without a URL start matches the pattern nowhere and stays as it is |
| Text.UrlRewriteLine | DanielMelzer/Twitter/Reader.class.php:274 | one line after the URL replace. `ChosenUrlGroupsMatch` and `ChosenUrlGroupsFirst` state that what it substitutes is the match PCRE reports, and `UrlFreeLineUnchanged` that a line without a URL is kept |
| Text.LinkUrls | DanielMelzer/Twitter/Reader.class.php:274 | the URL replace over the whole text, line by line. `LinkUrlsByLine` and `LinkUrlsWithoutUrls` state its lines |
| Text.LinkUrlsByLine | DanielMelzer/Twitter/Reader.class.php:274 | the global rewrite keeps the number of lines and rewrites each line on its own |
| Text.LinkUrlsWithoutUrls | DanielMelzer/Twitter/Reader.class.php:274 | a text with no URL on any line comes through unchanged |
| Text.LastMention | DanielMelzer/Twitter/Reader.class.php:275 | the greatest position below the bound holding `@` followed by a word character; none exactly when there is none |
| Text.ChosenMentionGroupsMatch | DanielMelzer/Twitter/Reader.class.php:275 | on a line with a mention, the chosen groups match the pattern. The line becomes the prefix up to and including `@`, the anchor to `http://twitter.com/h` with text `h`, then the rest of the line |
| Text.ChosenMentionGroupsFirst | DanielMelzer/Twitter/Reader.class.php:275 | for every match of the pattern on a line, the chosen groups have the longest prefix, then the longest handle. So they are the groups `preg_replace` substitutes |
| Text.MentionFreeLineUnchanged | DanielMelzer/Twitter/Reader.class.php:275 | a line without `@` followed by a word character matches nowhere and stays as it is |
| Text.MentionRewriteLine | DanielMelzer/Twitter/Reader.class.php:275 | one line after the mention replace. `ChosenMentionGroupsMatch` and `ChosenMentionGroupsFirst` state that it substitutes the match PCRE reports, and `MentionFreeLineUnchanged` that a line without a mention is kept |
| Text.LinkMentions | DanielMelzer/Twitter/Reader.class.php:275 | the mention replace over the whole text, line by line. `LinkMentionsByLine` and `LinkMentionsWithoutMentions` state its lines |
| Text.LinkMentionsByLine | DanielMelzer/Twitter/Reader.class.php:275 | the global mention rewrite keeps the lines and rewrites each on its own |
| Text.LinkMentionsWithoutMentions | DanielMelzer/Twitter/Reader.class.php:275 | a text with no mention on any line comes through unchanged |
| Text.ProcessText | DanielMelzer/Twitter/Reader.class.php:271-278 | the escape, then the URL replace, then the mention replace, in that order. `ProcessTextByLine` states each line of the result |
| Text.ProcessTextByLine | DanielMelzer/Twitter/Reader.class.php:271-278 | each line of the display text is the escaped line with its URL rewritten, then its mention rewritten; the line count is that of the escaped text |
| Text.TagFrom | DanielMelzer/Twitter/Reader.class.php:288 | the match at a tag start is `#` followed by a non-empty run of word characters |
| Text.ScanTags | DanielMelzer/Twitter/Reader.class.php:288 | every match the scan returns is a tag |
| Text.TagStarts | DanielMelzer/Twitter/Reader.class.php:288 | the reference list: every position where `#` and a word character start, in increasing order, and no other position |
| Text.ScanTagsAreTagStarts | DanielMelzer/Twitter/Reader.class.php:288 | the scan returns exactly one match per tag start, in order, each running to the end of its word run. Matches do not overlap |
| Text.ExtractTags | DanielMelzer/Twitter/Reader.class.php:286-295 | `$return[0]` of the `preg_match_all`, as the scan `ScanTags` from the start of the text. `ExtractTagsAreTagStarts` and `ExtractTagsEmpty` state the result |
| Text.ExtractTagsAreTagStarts | DanielMelzer/Twitter/Reader.class.php:286-295 | the hashtags are the maximal tags at every tag start of the text, left to right, duplicates kept |
| Text.ExtractTagsEmpty | DanielMelzer/Twitter/Reader.class.php:286-295 | the hashtag list is empty if and only if no `#` in the text is followed by a word character |
| Query.Field | DanielMelzer/Twitter/Reader.class.php:81 | the field of one option: `&`, the key, `=` and the value, neither encoded. `ParseQueryString` reads such fields back |
| Query.QueryString | DanielMelzer/Twitter/Reader.class.php:80-82 | the fields of all options in iteration order. `QueryStringSnoc` states the loop step and `ParseQueryString` the inverse |
| Query.QueryStringSnoc | DanielMelzer/Twitter/Reader.class.php:80-82 | appending an option appends exactly its `&key=value` field |
| Query.TakeUntil | DanielMelzer/Twitter/Reader.class.php:80-82 | the result is the longest prefix without the separator, and is followed by the separator or by nothing |
| Query.ParseQueryString | DanielMelzer/Twitter/Reader.class.php:80-82 | reading the fields back gives the options, in order, when keys hold no `&` or `=` and values no `&` |
| Twitter.TimelineLead | DanielMelzer/Twitter/Reader.class.php:78-79 | `API_URL` followed by `statuses/user_timeline.json?user_id=` and the id, as the `sprintf` prints it |
| Twitter.TimelineUrl | DanielMelzer/Twitter/Reader.class.php:78-82 | the lead followed by the query of the options. `TimelineUrlOptions` and `BuildTimelineUrl` state it |
| Twitter.TimelineUrlOptions | DanielMelzer/Twitter/Reader.class.php:78-82 | the timeline URL is `API_URL` + `statuses/user_timeline.json?user_id=` + id, followed by a query that reads back as the options, when no key holds `&` or `=` and no value holds `&` |
| Twitter.BuildTimelineUrl | DanielMelzer/Twitter/Reader.class.php:78-82 | the loop over the options builds the timeline URL |
| Twitter.ScreenNameUrl | DanielMelzer/Twitter/Reader.class.php:136-140 | `API_URL`, `users/show.json?screen_name=`, the name and `&include_entities=true`. `RetrieveUserByScreenName` requests it for the encoded sanitised name |
| Twitter.UserIdUrl | DanielMelzer/Twitter/Reader.class.php:192-196 | `API_URL`, `users/show.json?user_id=`, the id and `&include_entities=true`. `RetrieveUserById` requests it for the sanitised id |
| Twitter.IsEmpty | DanielMelzer/Twitter/Reader.class.php:74 | PHP `empty()` on a scalar: true for null, `false`, `0`, `""` and `"0"` only. `TimelineBeforeProfile` uses it to show that the initial id `0` fails the check |
| Twitter.InitialProfile | DanielMelzer/Twitter/Reader.class.php:28-44 | every profile field is the empty string except the id, which is `0`. The constructor starts from it |
| Twitter.DefaultOptions | DanielMelzer/Twitter/Reader.class.php:49-52 | `count` 20 and `include_rts` 1, in that order. The constructor keeps them when it is given no options |
| Twitter.ProfileOf | DanielMelzer/Twitter/Reader.class.php:161-177 | a fetched profile keeps the invariant: its id is a string and its statuses count an integer. Its screen name and id are the ones supplied |
| Twitter.ProjectTweet | DanielMelzer/Twitter/Reader.class.php:109-118 | the post of one tweet: `favorited`, `source` and `in_reply_to_status_id` copied, `created_at` through `strtotime`, the text through `ProcessText`, the hashtags from the unprocessed text, the id formatted, and the given counter |
| Twitter.PostsOf | DanielMelzer/Twitter/Reader.class.php:108-119 | no post for a reply, one post for any other tweet. `ProjectOriginalsOnly` and `ProjectLength` state it over a response |
| Twitter.Project | DanielMelzer/Twitter/Reader.class.php:104-121 | the posts of the loop over a response, with the counter going down by one per tweet. `ProjectAt`, `ProjectFrom` and `ProjectCounters` state which tweet and counter each post has; `AppendTimeline` is proved to build it |
| Twitter.ProjectAppend | DanielMelzer/Twitter/Reader.class.php:104-122 | processing a response in two parts gives the posts of the first part, then those of the second, numbered on from where the first part stopped |
| Twitter.ProjectSnoc | DanielMelzer/Twitter/Reader.class.php:105-122 | one more tweet adds its own posts after the earlier ones, numbered by its position |
| Twitter.ProjectLength | DanielMelzer/Twitter/Reader.class.php:105-119 | there is one post per tweet that is not a reply, so never more posts than tweets |
| Twitter.ProjectOriginalsOnly | DanielMelzer/Twitter/Reader.class.php:108-117 | every post has a null `in_reply_to_status_id` |
| Twitter.ProjectAt | DanielMelzer/Twitter/Reader.class.php:104-121 | the tweet at position `i` that is not a reply gives the post after those of the earlier non-replies. That post is the projection of that tweet with counter `statuses_count - i`, so replies use up counter values too |
| Twitter.OriginalPosition | DanielMelzer/Twitter/Reader.class.php:108 | the position of the `k`-th tweet that is not a reply lies within the response |
| Twitter.OriginalPositionCounts | DanielMelzer/Twitter/Reader.class.php:108 | the tweet at that position is not a reply, and exactly `k` earlier tweets are not replies |
| Twitter.ProjectFrom | DanielMelzer/Twitter/Reader.class.php:104-121 | every post is the projection of a tweet that is not a reply, the `k`-th post coming from the `k`-th such tweet, with its position's counter. With `ProjectAt`, the posts correspond one to one with the non-reply tweets |
| Twitter.ProjectCounters | DanielMelzer/Twitter/Reader.class.php:104-121 | the counters lie in (`statuses_count - n`, `statuses_count`] for `n` tweets and fall strictly from one post to the next |
| Twitter.Reader.constructor | DanielMelzer/Twitter/Reader.class.php:49-65 | the options are the given ones if there are any, otherwise `count=20, include_rts=1`. The profile is the initial one and both timelines are empty |
| Twitter.Reader.RetrieveTweets | DanielMelzer/Twitter/Reader.class.php:73-125 | An empty id fails with no change, and so do no body and an error object, the error giving `Twitter API: ` + message. On success, the raw timeline gains every tweet in order and the timeline gains `Project` of the tweets, seeded from the statuses count. The profile and options are unchanged |
| Twitter.Reader.AppendTimeline | DanielMelzer/Twitter/Reader.class.php:104-122 | the loop appends every tweet to the raw timeline and the projection of the tweets to the timeline, earlier entries untouched |
| Twitter.Reader.RetrieveUserByScreenName | DanielMelzer/Twitter/Reader.class.php:133-180 | the request uses the encoded sanitised name. No body or an error object fails with the profile unchanged. Otherwise the whole profile is replaced from the response, with the sanitised input as screen name and the formatted fetched id as id |
| Twitter.Reader.RetrieveUserById | DanielMelzer/Twitter/Reader.class.php:190-236 | the request uses the sanitised id. Failures leave the profile unchanged. Otherwise the whole profile is replaced, with the response's screen name and the formatted sanitised input id |
| Twitter.TimelineBeforeProfile | DanielMelzer/Twitter/Reader.class.php:41-76 | a new reader asked for the timeline fails for the missing id, and both timelines stay empty |
| Twitter.ProfileThenTimeline | DanielMelzer/Twitter/Reader.class.php:73-180 | fetching by screen name and then the timeline requests the timeline for the fetched id with the reader's options, and numbers the posts from the fetched statuses count. Each failure is reported as the step that failed |

## Left out

- cURL and `json_decode` are not modelled. A request is a function from its URL to a `Reply`. The curl handle options and a transport error are not modelled; `curl_exec` returning `false`, `""` or `"0"` is the `NoBody` case.
- Decoded timeline payloads that are neither an error object nor a list of tweets are not modelled. Examples are JSON `null`, a number, or an object without `error`, over whose properties the PHP loop would iterate.
- A profile body that `json_decode` cannot parse is not modelled. PHP decodes it to `null`, which passes the `isset($user->error)` test at lines 157 and 213. The profile is then replaced with null fields, with id `"0"` by screen name and the input id by id. In the model, `userFor` gives only no body, an error object or a decoded record with every field.
- Decoded records with missing fields are not modelled. Tweet text is always a string, and the fetched `statuses_count` is always an integer. PHP's decrement of a non-numeric counter is therefore not modelled.
- `strtotime`, `sprintf('%.0F', …)` on ids, `filter_var(…, FILTER_SANITIZE_STRING)` and `urlencode(strtolower(…))` are abstract functions of `Services`. The precision loss of formatting large ids as floats is not modelled.
- Text.HtmlEntities: models the ASCII part of `htmlentities` only (`&`, `<`, `>`, `"`). PHP's named entities for non-ASCII characters are not modelled, and neither is the empty result for invalid UTF-8.
- The regexes are modelled on characters with ASCII `\w` and `\s`. PHP code without the `u` modifier works on bytes, and a locale can widen `\w`. PCRE's backtracking limits, under which `preg_replace` returns null, are not modelled.
- `Twitter.Failure` keeps the three failure kinds and the `Twitter API: ` message of the error case. The `Exception` class, the codes 5, 2 and 3, and the fixed messages of the other two failures are not modelled.
- Options are a sequence of key and value text, with each value as `%s` prints it. A PHP array cannot repeat a key, and the model does not forbid it.
- The methods return an `Outcome` in place of `$this` for chaining, and in place of the thrown exception.
- Twitter.Reader.GetUser, Twitter.Reader.GetTimeline and Twitter.Reader.GetRawTimeline: these return their field and carry no contract of their own. `TimelineBeforeProfile` and `ProfileThenTimeline` state what they return after a fetch.
