/** The timeline reader: a user profile fetched by screen name or id, and the user's timeline
    fetched with it, kept raw and as a list of processed posts without replies. The transport and
    the JSON decoder, date parsing, id formatting, input sanitising and URL encoding are given to
    the reader as the `Services` it runs against. */
module Twitter {
  import opened Strings
  import Text
  import Query

  const ApiUrl := "http://api.twitter.com/1/"

  /** The options sent with every timeline request unless the reader is given others. */
  const DefaultOptions: seq<Query.Param> := [("count", "20"), ("include_rts", "1")]

  /** A scalar as the decoded JSON and the profile hold it. */
  datatype Value = Null | Bool(b: bool) | Int(i: int) | Str(s: string)

  /** PHP's `empty()` on a scalar. */
  predicate IsEmpty(v: Value)
  {
    match v
    case Null => true
    case Bool(b) => !b
    case Int(i) => i == 0
    case Str(s) => s == "" || s == "0"
  }

  /** One decoded tweet of the timeline response: the fields the reader uses. */
  datatype Tweet = Tweet(
    inReplyToStatusId: Value,
    favorited: Value,
    createdAt: Value,
    text: string,
    id: Value,
    source: Value)

  /** One entry of the processed timeline. */
  datatype Post = Post(
    favorited: Value,
    createdAt: Value,
    text: string,
    hashtags: seq<string>,
    counter: int,
    id: string,
    source: Value,
    inReplyToStatusId: Value)

  /** The decoded user object of a profile response: the fields the reader copies. */
  datatype UserRecord = UserRecord(
    favouritesCount: Value,
    description: Value,
    listedCount: Value,
    url: Value,
    timeZone: Value,
    lang: Value,
    createdAt: Value,
    location: Value,
    followersCount: Value,
    name: Value,
    friendsCount: Value,
    screenName: Value,
    id: Value,
    statusesCount: int,
    utcOffset: Value)

  /** The profile the reader keeps. */
  datatype Profile = Profile(
    favouritesCount: Value,
    description: Value,
    listedCount: Value,
    url: Value,
    timeZone: Value,
    lang: Value,
    createdAt: Value,
    location: Value,
    followersCount: Value,
    name: Value,
    friendsCount: Value,
    screenName: Value,
    id: Value,
    statusesCount: Value,
    utcOffset: Value)

  /** The profile before any fetch: every field the empty string except the id, which is 0. */
  const InitialProfile := Profile(
    Str(""), Str(""), Str(""), Str(""), Str(""), Str(""), Str(""), Str(""),
    Str(""), Str(""), Str(""), Str(""), Int(0), Str(""), Str(""))

  /** A profile is either the initial one or the result of a fetch: once it carries an id, its
      statuses count is a number the timeline counter can start from. */
  predicate ProfileInvariant(p: Profile)
  {
    p.id == Int(0) || (p.id.Str? && p.statusesCount.Int?)
  }

  /** What the transport and the decoder give for a request: no body (the transfer failed or the
      body is empty), a decoded object carrying an error message, or the decoded payload. */
  datatype Reply<T> = NoBody | ErrorObject(message: string) | Decoded(value: T)

  /** The collaborators the reader calls and whose work is not modelled. */
  datatype Services = Services(
    /** Fetch and decode a timeline request URL. */
    timelineFor: string -> Reply<seq<Tweet>>,
    /** Fetch and decode a profile request URL. */
    userFor: string -> Reply<UserRecord>,
    /** String sanitising of untrusted input. */
    sanitize: string -> string,
    /** Lower-casing followed by URL encoding of a screen name. */
    encodeName: string -> string,
    /** Parsing a date into seconds since the epoch. */
    toEpoch: Value -> Value,
    /** Printing an id as a number without decimals. */
    formatId: Value -> string)

  /** The three ways a request fails. */
  datatype Failure = MissingUserId | NoResponse | ApiError(message: string)

  datatype Outcome = Pass | Fail(failure: Failure)

  /** The message of the failure raised for an error object. */
  function ApiMessage(error: string): string
  {
    "Twitter API: " + error
  }

  // ---------------------------------------------------------------------------------------------
  // Request URLs

  /** The timeline URL up to the options. */
  function TimelineLead(id: string): string
  {
    ApiUrl + "statuses/user_timeline.json?user_id=" + id
  }

  /** The timeline URL: the lead, then one field per option in order. */
  function TimelineUrl(id: string, options: seq<Query.Param>): string
  {
    TimelineLead(id) + Query.QueryString(options)
  }

  /** The query of a timeline URL reads back as the options it was built from. */
  lemma TimelineUrlOptions(id: string, options: seq<Query.Param>)
    requires forall k :: 0 <= k < |options| ==> Query.Plain(options[k])
    ensures var url, lead := TimelineUrl(id, options), TimelineLead(id);
      |lead| <= |url| && url[..|lead|] == lead && Query.ParseQuery(url[|lead|..]) == options
  {
    var url, lead := TimelineUrl(id, options), TimelineLead(id);
    assert url[|lead|..] == Query.QueryString(options);
    Query.ParseQueryString(options);
  }

  /** Builds the timeline URL by appending one field per option. */
  method BuildTimelineUrl(id: string, options: seq<Query.Param>) returns (url: string)
    ensures url == TimelineUrl(id, options)
  {
    url := TimelineLead(id);
    for i := 0 to |options|
      invariant url == TimelineLead(id) + Query.QueryString(options[..i])
    {
      Query.QueryStringSnoc(options[..i], options[i]);
      assert options[..i + 1] == options[..i] + [options[i]];
      url := url + Query.Field(options[i]);
    }
    assert options[..|options|] == options;
  }

  /** The profile URL for a screen name. */
  function ScreenNameUrl(name: string): string
  {
    ApiUrl + "users/show.json?screen_name=" + name + "&include_entities=true"
  }

  /** The profile URL for a user id. */
  function UserIdUrl(id: string): string
  {
    ApiUrl + "users/show.json?user_id=" + id + "&include_entities=true"
  }

  // ---------------------------------------------------------------------------------------------
  // Profiles

  /** The profile built from a decoded user: every field copied, the creation date converted, and
      the screen name and id as the caller supplies them. */
  function ProfileOf(u: UserRecord, screenName: Value, id: string, sv: Services): (p: Profile)
    ensures ProfileInvariant(p)
    ensures p.screenName == screenName && p.id == Str(id) && p.statusesCount == Int(u.statusesCount)
  {
    Profile(
      u.favouritesCount, u.description, u.listedCount, u.url, u.timeZone, u.lang,
      sv.toEpoch(u.createdAt), u.location, u.followersCount, u.name, u.friendsCount,
      screenName, Str(id), Int(u.statusesCount), u.utcOffset)
  }

  // ---------------------------------------------------------------------------------------------
  // The processed timeline

  predicate IsReply(t: Tweet)
  {
    t.inReplyToStatusId != Null
  }

  /** The post for a tweet that is not a reply, numbered `counter`. The hashtags come from the
      tweet's own text, not from the processed text. */
  function ProjectTweet(t: Tweet, counter: int, sv: Services): Post
  {
    Post(
      t.favorited, sv.toEpoch(t.createdAt), Text.ProcessText(t.text), Text.ExtractTags(t.text),
      counter, sv.formatId(t.id), t.source, t.inReplyToStatusId)
  }

  /** `ProjectTweet` for the given services, as a function of the tweet and its number. */
  function PostFor(sv: Services): (Tweet, int) -> Post
  {
    (t: Tweet, counter: int) => ProjectTweet(t, counter, sv)
  }

  /** The posts of a response whose first tweet is numbered `counter`: each tweet takes the next
      lower number, and only the tweets that are not replies give a post, made by `post`. */
  function Project(ts: seq<Tweet>, counter: int, post: (Tweet, int) -> Post): seq<Post>
  {
    if |ts| == 0 then [] else PostsOf(ts[0], counter, post) + Project(ts[1..], counter - 1, post)
  }

  /** The posts one tweet gives: none for a reply. */
  function PostsOf(t: Tweet, counter: int, post: (Tweet, int) -> Post): seq<Post>
  {
    if IsReply(t) then [] else [post(t, counter)]
  }

  /** The number of tweets that are not replies. */
  function CountOriginals(ts: seq<Tweet>): nat
  {
    if |ts| == 0 then 0 else (if IsReply(ts[0]) then 0 else 1) + CountOriginals(ts[1..])
  }

  /** Processing a response in two parts: the second part's numbering continues where the first
      part's stops. */
  lemma {:induction false} ProjectAppend(a: seq<Tweet>, b: seq<Tweet>, counter: int, post: (Tweet, int) -> Post)
    ensures Project(a + b, counter, post) == Project(a, counter, post) + Project(b, counter - |a|, post)
  {
    if |a| == 0 {
      assert a + b == b;
    } else {
      var head := PostsOf(a[0], counter, post);
      assert (a + b)[0] == a[0];
      assert (a + b)[1..] == a[1..] + b;
      ProjectAppend(a[1..], b, counter - 1, post);
      calc {
        Project(a + b, counter, post);
        head + Project(a[1..] + b, counter - 1, post);
        head + (Project(a[1..], counter - 1, post) + Project(b, counter - |a|, post));
        (head + Project(a[1..], counter - 1, post)) + Project(b, counter - |a|, post);
      }
    }
  }

  /** One more tweet adds its own posts, numbered after the earlier tweets. */
  lemma ProjectSnoc(ts: seq<Tweet>, t: Tweet, counter: int, post: (Tweet, int) -> Post)
    ensures Project(ts + [t], counter, post) == Project(ts, counter, post) + PostsOf(t, counter - |ts|, post)
  {
    ProjectAppend(ts, [t], counter, post);
    assert Project([t], counter - |ts|, post) == PostsOf(t, counter - |ts|, post) + [];
  }

  /** The prefix of a response one tweet longer: one step of the loop over the response. */
  lemma ProjectStep(ts: seq<Tweet>, i: nat, counter: int, post: (Tweet, int) -> Post)
    requires i < |ts|
    ensures ts[..i + 1] == ts[..i] + [ts[i]]
    ensures Project(ts[..i + 1], counter, post) == Project(ts[..i], counter, post) + PostsOf(ts[i], counter - i, post)
  {
    assert ts[..i + 1] == ts[..i] + [ts[i]];
    ProjectSnoc(ts[..i], ts[i], counter, post);
  }

  /** There is one post per tweet that is not a reply, so never more posts than tweets. */
  lemma {:induction false} ProjectLength(ts: seq<Tweet>, counter: int, post: (Tweet, int) -> Post)
    ensures |Project(ts, counter, post)| == CountOriginals(ts) <= |ts|
  {
    if |ts| > 0 {
      ProjectLength(ts[1..], counter - 1, post);
    }
  }

  /** Every post of the timeline comes from a tweet that is not a reply. */
  lemma {:induction false} ProjectOriginalsOnly(ts: seq<Tweet>, counter: int, sv: Services)
    ensures forall k :: 0 <= k < |Project(ts, counter, PostFor(sv))| ==>
      Project(ts, counter, PostFor(sv))[k].inReplyToStatusId == Null
  {
    if |ts| > 0 {
      ProjectOriginalsOnly(ts[1..], counter - 1, sv);
    }
  }

  /** The tweet at position `i` that is not a reply gives the post after those of the earlier
      tweets that are not replies, and that post is numbered `counter - i`: replies use up a number
      too. */
  lemma ProjectAt(ts: seq<Tweet>, counter: int, post: (Tweet, int) -> Post, i: nat)
    requires i < |ts| && !IsReply(ts[i])
    ensures CountOriginals(ts[..i]) < |Project(ts, counter, post)|
    ensures Project(ts, counter, post)[CountOriginals(ts[..i])] == post(ts[i], counter - i)
  {
    assert ts == ts[..i] + ts[i..];
    ProjectAppend(ts[..i], ts[i..], counter, post);
    ProjectLength(ts[..i], counter, post);
    assert ts[i..][0] == ts[i];
  }

  /** Counting over a prefix of at least one tweet: the first tweet, then the rest. */
  lemma CountOriginalsPrefix(ts: seq<Tweet>, j: nat)
    requires j < |ts|
    ensures CountOriginals(ts[..j + 1]) == (if IsReply(ts[0]) then 0 else 1) + CountOriginals(ts[1..][..j])
  {
    assert ts[..j + 1][1..] == ts[1..][..j];
    assert ts[..j + 1][0] == ts[0];
  }

  /** The position of the `k`-th tweet, counting from 0, that is not a reply. */
  function OriginalPosition(ts: seq<Tweet>, k: nat): (i: nat)
    requires k < CountOriginals(ts)
    ensures i < |ts|
  {
    if !IsReply(ts[0]) && k == 0 then 0
    else 1 + OriginalPosition(ts[1..], if IsReply(ts[0]) then k else k - 1)
  }

  /** The `k`-th tweet that is not a reply is indeed not a reply, and `k` tweets before it are not
      replies either. */
  lemma {:induction false} OriginalPositionCounts(ts: seq<Tweet>, k: nat)
    requires k < CountOriginals(ts)
    ensures var i := OriginalPosition(ts, k); !IsReply(ts[i]) && CountOriginals(ts[..i]) == k
  {
    if !IsReply(ts[0]) && k == 0 {
      assert ts[..0] == [];
    } else {
      var k' := if IsReply(ts[0]) then k else k - 1;
      OriginalPositionCounts(ts[1..], k');
      var j := OriginalPosition(ts[1..], k');
      CountOriginalsPrefix(ts, j);
      assert ts[j + 1] == ts[1..][j];
    }
  }

  /** Every post of a response comes from a tweet that is not a reply: post `k` is the one of the
      `k`-th such tweet, numbered by that tweet's position. */
  lemma ProjectFrom(ts: seq<Tweet>, counter: int, post: (Tweet, int) -> Post, k: nat)
    requires k < CountOriginals(ts)
    ensures k < |Project(ts, counter, post)|
    ensures var i := OriginalPosition(ts, k);
      !IsReply(ts[i]) && CountOriginals(ts[..i]) == k
      && Project(ts, counter, post)[k] == post(ts[i], counter - i)
  {
    OriginalPositionCounts(ts, k);
    ProjectAt(ts, counter, post, OriginalPosition(ts, k));
  }

  /** The numbers of the posts of the timeline lie between `counter - |ts|` (exclusive) and
      `counter`, and fall strictly from one post to the next. */
  lemma {:induction false} ProjectCounters(ts: seq<Tweet>, counter: int, sv: Services)
    ensures forall k :: 0 <= k < |Project(ts, counter, PostFor(sv))| ==>
      counter - |ts| < Project(ts, counter, PostFor(sv))[k].counter <= counter
    ensures forall k, l :: 0 <= k < l < |Project(ts, counter, PostFor(sv))| ==>
      Project(ts, counter, PostFor(sv))[k].counter > Project(ts, counter, PostFor(sv))[l].counter
  {
    if |ts| > 0 {
      ProjectCounters(ts[1..], counter - 1, sv);
    }
  }

  // ---------------------------------------------------------------------------------------------
  // The reader

  class Reader {
    /** The options sent with the timeline request. */
    var options: seq<Query.Param>
    var user: Profile
    /** Every tweet of every timeline response, in order. */
    var rawTimeline: seq<Tweet>
    /** The processed posts of every timeline response, in order. */
    var timeline: seq<Post>

    ghost predicate Valid()
      reads this
    {
      ProfileInvariant(user)
    }

    /** A reader with the given options, or with the default ones when none are given. */
    constructor (options: seq<Query.Param>)
      ensures this.options == if |options| > 0 then options else DefaultOptions
      ensures user == InitialProfile && rawTimeline == [] && timeline == []
      ensures Valid()
    {
      this.options := DefaultOptions;
      user := InitialProfile;
      rawTimeline := [];
      timeline := [];
      new;
      if 0 < |options| {
        this.options := options;
      }
    }

    function GetUser(): Profile
      reads this
    {
      user
    }

    function GetTimeline(): seq<Post>
      reads this
    {
      timeline
    }

    function GetRawTimeline(): seq<Tweet>
      reads this
    {
      rawTimeline
    }

    /** Fetches the timeline of the current profile: every tweet is kept raw, and every tweet that
        is not a reply also as a post numbered from the profile's statuses count downwards. A
        failure leaves both timelines as they were. */
    method RetrieveTweets(sv: Services) returns (outcome: Outcome)
      requires Valid()
      modifies this`rawTimeline, this`timeline
      ensures Valid()
      ensures IsEmpty(user.id) ==>
        outcome == Fail(MissingUserId) && rawTimeline == old(rawTimeline) && timeline == old(timeline)
      ensures !IsEmpty(user.id) ==>
        match sv.timelineFor(TimelineUrl(user.id.s, options))
        case NoBody =>
          outcome == Fail(NoResponse) && rawTimeline == old(rawTimeline) && timeline == old(timeline)
        case ErrorObject(m) =>
          outcome == Fail(ApiError(ApiMessage(m)))
          && rawTimeline == old(rawTimeline) && timeline == old(timeline)
        case Decoded(tweets) =>
          outcome == Pass && rawTimeline == old(rawTimeline) + tweets
          && timeline == old(timeline) + Project(tweets, user.statusesCount.i, PostFor(sv))
    {
      if IsEmpty(user.id) {
        return Fail(MissingUserId);
      }
      var apiUrl := BuildTimelineUrl(user.id.s, options);
      var reply := sv.timelineFor(apiUrl);
      match reply {
        case NoBody =>
          return Fail(NoResponse);
        case ErrorObject(m) =>
          return Fail(ApiError(ApiMessage(m)));
        case Decoded(tweets) =>
          AppendTimeline(tweets, user.statusesCount.i, PostFor(sv));
          return Pass;
      }
    }

    /** The loop over a decoded timeline: every tweet is appended to the raw timeline, and every
        tweet that is not a reply is appended as the post `post` makes of it; the counter starts at
        `seed` and goes down by one per tweet. */
    method AppendTimeline(tweets: seq<Tweet>, seed: int, post: (Tweet, int) -> Post)
      modifies this`rawTimeline, this`timeline
      ensures rawTimeline == old(rawTimeline) + tweets
      ensures timeline == old(timeline) + Project(tweets, seed, post)
    {
      var tweetCounter := seed;
      var i := 0;
      while i < |tweets|
        invariant 0 <= i <= |tweets|
        invariant tweetCounter == seed - i
        invariant rawTimeline == old(rawTimeline) + tweets[..i]
        invariant timeline == old(timeline) + Project(tweets[..i], seed, post)
      {
        var tweet := tweets[i];
        ProjectStep(tweets, i, seed, post);
        rawTimeline := rawTimeline + [tweet];
        if tweet.inReplyToStatusId == Null {
          timeline := timeline + [post(tweet, tweetCounter)];
        }
        tweetCounter := tweetCounter - 1;
        i := i + 1;
      }
      assert tweets[..|tweets|] == tweets;
    }

    /** Fetches the profile for a screen name and, unless the fetch fails, replaces the whole
        profile; its screen name is the sanitised input and its id the fetched one. */
    method RetrieveUserByScreenName(screenName: string, sv: Services) returns (outcome: Outcome)
      requires Valid()
      modifies this`user
      ensures Valid()
      ensures var name := sv.sanitize(screenName);
        match sv.userFor(ScreenNameUrl(sv.encodeName(name)))
        case NoBody => outcome == Fail(NoResponse) && user == old(user)
        case ErrorObject(m) => outcome == Fail(ApiError(ApiMessage(m))) && user == old(user)
        case Decoded(u) => outcome == Pass && user == ProfileOf(u, Str(name), sv.formatId(u.id), sv)
    {
      var name := sv.sanitize(screenName);
      var apiUrl := ScreenNameUrl(sv.encodeName(name));
      match sv.userFor(apiUrl) {
        case NoBody =>
          return Fail(NoResponse);
        case ErrorObject(m) =>
          return Fail(ApiError(ApiMessage(m)));
        case Decoded(u) =>
          user := ProfileOf(u, Str(name), sv.formatId(u.id), sv);
          return Pass;
      }
    }

    /** Fetches the profile for a user id and, unless the fetch fails, replaces the whole profile;
        its screen name is the fetched one and its id comes from the sanitised input. */
    method RetrieveUserById(id: string, sv: Services) returns (outcome: Outcome)
      requires Valid()
      modifies this`user
      ensures Valid()
      ensures var clean := sv.sanitize(id);
        match sv.userFor(UserIdUrl(clean))
        case NoBody => outcome == Fail(NoResponse) && user == old(user)
        case ErrorObject(m) => outcome == Fail(ApiError(ApiMessage(m))) && user == old(user)
        case Decoded(u) => outcome == Pass && user == ProfileOf(u, u.screenName, sv.formatId(Str(clean)), sv)
    {
      var clean := sv.sanitize(id);
      var apiUrl := UserIdUrl(clean);
      match sv.userFor(apiUrl) {
        case NoBody =>
          return Fail(NoResponse);
        case ErrorObject(m) =>
          return Fail(ApiError(ApiMessage(m)));
        case Decoded(u) =>
          user := ProfileOf(u, u.screenName, sv.formatId(Str(clean)), sv);
          return Pass;
      }
    }
  }

  /** Asking a new reader for the timeline before any profile is fetched fails for the missing
      id, whatever the options and the services. */
  method TimelineBeforeProfile(options: seq<Query.Param>, sv: Services) returns (outcome: Outcome, raw: seq<Tweet>, posts: seq<Post>)
    ensures outcome == Fail(MissingUserId) && raw == [] && posts == []
  {
    var reader := new Reader(options);
    outcome := reader.RetrieveTweets(sv);
    raw := reader.GetRawTimeline();
    posts := reader.GetTimeline();
  }

  /** The usual use of a reader: fetch the profile for a screen name, then its timeline. The
      timeline request carries the fetched id, and the posts are numbered from the fetched
      statuses count downwards. */
  method ProfileThenTimeline(screenName: string, options: seq<Query.Param>, sv: Services)
    returns (outcome: Outcome, posts: seq<Post>)
    ensures var name := sv.sanitize(screenName);
      match sv.userFor(ScreenNameUrl(sv.encodeName(name)))
      case NoBody => outcome == Fail(NoResponse) && posts == []
      case ErrorObject(m) => outcome == Fail(ApiError(ApiMessage(m))) && posts == []
      case Decoded(u) =>
        var id := sv.formatId(u.id);
        if IsEmpty(Str(id)) then outcome == Fail(MissingUserId) && posts == []
        else
          match sv.timelineFor(TimelineUrl(id, if |options| > 0 then options else DefaultOptions))
          case NoBody => outcome == Fail(NoResponse) && posts == []
          case ErrorObject(m) => outcome == Fail(ApiError(ApiMessage(m))) && posts == []
          case Decoded(tweets) => outcome == Pass && posts == Project(tweets, u.statusesCount, PostFor(sv))
  {
    var reader := new Reader(options);
    outcome := reader.RetrieveUserByScreenName(screenName, sv);
    if outcome.Pass? {
      outcome := reader.RetrieveTweets(sv);
    }
    posts := reader.GetTimeline();
  }
}
