/** The two pure text functions of the reader: `processText` (entity escaping followed by the
    link and mention rewrites) and `extractTags`.

    Both rewrites are global `preg_replace` calls whose patterns begin with `(.*)`. None of `.`,
    `[^\s]` and `[\w]` matches a line feed, so every match lies inside one line, it starts at the start of
    that line and its last group runs to the end of the line: the replacement happens at most
    once per line, and lines are rewritten independently. Each rewrite is therefore modelled as
    a function on one line, lifted to the text with `MapLines`. On a line, the matched groups are
    the ones PCRE's backtracking finds first: the leftmost group as long as possible, then each
    following group as long as possible. */
module Text {
  import opened Strings

  // ---------------------------------------------------------------------------------------------
  // htmlentities($text, ENT_COMPAT, 'UTF-8'), ASCII part

  /** The entity for one character: `&`, `<`, `>` and the double quote are escaped, the single
      quote is left alone (ENT_COMPAT). */
  function EscapeChar(c: char): string
  {
    if c == '&' then "&amp;"
    else if c == '<' then "&lt;"
    else if c == '>' then "&gt;"
    else if c == '"' then "&quot;"
    else [c]
  }

  /** The escaped text; no markup character survives. */
  function HtmlEntities(s: string): (r: string)
    ensures '<' !in r && '>' !in r && '"' !in r
    ensures '\n' !in s ==> '\n' !in r
  {
    if |s| == 0 then "" else EscapeChar(s[0]) + HtmlEntities(s[1..])
  }

  /** Reading the four entities back: the inverse of `HtmlEntities`. */
  function DecodeEntities(t: string): string
    decreases |t|
  {
    if |t| == 0 then ""
    else if t[0] != '&' then [t[0]] + DecodeEntities(t[1..])
    else if |t| >= 5 && t[..5] == "&amp;" then "&" + DecodeEntities(t[5..])
    else if |t| >= 4 && t[..4] == "&lt;" then "<" + DecodeEntities(t[4..])
    else if |t| >= 4 && t[..4] == "&gt;" then ">" + DecodeEntities(t[4..])
    else if |t| >= 6 && t[..6] == "&quot;" then "\"" + DecodeEntities(t[6..])
    else [t[0]] + DecodeEntities(t[1..])
  }

  /** Decoding reads a leading "&amp;" back as "&". */
  lemma DecodeAmp(rest: string)
    ensures DecodeEntities("&amp;" + rest) == "&" + DecodeEntities(rest)
  {
    var t := "&amp;" + rest;
    assert t[..5] == "&amp;" && t[5..] == rest;
  }

  /** Decoding reads a leading "&lt;" back as "<". */
  lemma DecodeLt(rest: string)
    ensures DecodeEntities("&lt;" + rest) == "<" + DecodeEntities(rest)
  {
    var t := "&lt;" + rest;
    assert t[1] == 'l' != "&amp;"[1];
    assert t[..4] == "&lt;" && t[4..] == rest;
  }

  /** Decoding reads a leading "&gt;" back as ">". */
  lemma DecodeGt(rest: string)
    ensures DecodeEntities("&gt;" + rest) == ">" + DecodeEntities(rest)
  {
    var t := "&gt;" + rest;
    assert t[1] == 'g' != "&amp;"[1];
    assert t[1] != "&lt;"[1];
    assert t[..4] == "&gt;" && t[4..] == rest;
  }

  /** Decoding reads a leading "&quot;" back as the double quote. */
  lemma DecodeQuot(rest: string)
    ensures DecodeEntities("&quot;" + rest) == "\"" + DecodeEntities(rest)
  {
    var t := "&quot;" + rest;
    assert t[1] == 'q' != "&amp;"[1];
    assert t[1] != "&lt;"[1] && t[1] != "&gt;"[1];
    assert t[..6] == "&quot;" && t[6..] == rest;
  }

  /** Decoding keeps a leading character other than "&". */
  lemma DecodePlain(c: char, rest: string)
    requires c != '&'
    ensures DecodeEntities([c] + rest) == [c] + DecodeEntities(rest)
  {
    var t := [c] + rest;
    assert t[0] == c;
    assert t[1..] == rest;
  }

  /** Decoding undoes the entity of one leading character. */
  lemma DecodeEscapedChar(c: char, rest: string)
    ensures DecodeEntities(EscapeChar(c) + rest) == [c] + DecodeEntities(rest)
  {
    if c == '&' {
      DecodeAmp(rest);
    } else if c == '<' {
      DecodeLt(rest);
    } else if c == '>' {
      DecodeGt(rest);
    } else if c == '"' {
      DecodeQuot(rest);
    } else {
      DecodePlain(c, rest);
    }
  }

  /** Escaping loses nothing: decoding the entities gives back the text. */
  lemma {:induction false} EntitiesRoundTrip(s: string)
    ensures DecodeEntities(HtmlEntities(s)) == s
  {
    if |s| > 0 {
      EntitiesRoundTrip(s[1..]);
      DecodeEscapedChar(s[0], HtmlEntities(s[1..]));
      assert [s[0]] + s[1..] == s;
    }
  }

  // ---------------------------------------------------------------------------------------------
  // preg_replace('((.*)(http(s)?://[^\s]+)(.*))', '$1<a href="$2">$2</a>$3', $text)

  /** Where "://" must start after the "http" at `q`: the optional "s" is taken when present. */
  function SchemeEnd(line: string, q: nat): nat
    requires q + 4 <= |line|
  {
    if q + 4 < |line| && line[q + 4] == 's' then q + 5 else q + 4
  }

  /** A URL in the sense of the pattern starts at `q`: "http", an optional "s", "://" and at least
      one non-space character. */
  predicate UrlAt(line: string, q: nat)
  {
    && q + 4 <= |line| && line[q..q + 4] == "http"
    && SchemeEnd(line, q) + 3 < |line|
    && line[SchemeEnd(line, q)..SchemeEnd(line, q) + 3] == "://"
    && !IsSpace(line[SchemeEnd(line, q) + 3])
  }

  /** The last position below `k` at which a URL starts. */
  function LastUrl(line: string, k: nat): (r: Option<nat>)
    requires k <= |line|
    ensures r.Some? ==> r.value < k && UrlAt(line, r.value)
    ensures r.Some? ==> forall j :: r.value < j < k ==> !UrlAt(line, j)
    ensures r.None? ==> forall j :: 0 <= j < k ==> !UrlAt(line, j)
  {
    if k == 0 then None
    else if UrlAt(line, k - 1) then Some(k - 1)
    else LastUrl(line, k - 1)
  }

  /** The groups of one match: `before` is $1, `s` is $3 (the optional "s"), `tail` is what $2
      has after "://", and `after` is $4. */
  datatype UrlGroups = UrlGroups(before: string, s: string, tail: string, after: string)

  /** Group $2, the URL itself. */
  function Url(g: UrlGroups): string
  {
    "http" + g.s + "://" + g.tail
  }

  /** The pattern matches the whole line with groups `g`. */
  ghost predicate MatchesUrlPattern(line: string, g: UrlGroups)
  {
    && line == g.before + Url(g) + g.after
    && (g.s == "" || g.s == "s")
    && |g.tail| >= 1
    && (forall k :: 0 <= k < |g.tail| ==> !IsSpace(g.tail[k]))
    && '\n' !in g.before && '\n' !in g.after
  }

  /** PCRE's backtracking reaches `a` before `b`: longer $1 first, then longer $3, then longer $2. */
  predicate UrlPreferred(a: UrlGroups, b: UrlGroups)
  {
    || |a.before| > |b.before|
    || (|a.before| == |b.before| && |a.s| > |b.s|)
    || (|a.before| == |b.before| && |a.s| == |b.s| && |a.tail| >= |b.tail|)
  }

  /** The groups of the match whose "http" starts at `q`: the optional "s" taken when present and
      the non-space run taken as far as it goes. */
  function UrlGroupsAt(line: string, q: nat): UrlGroups
    requires UrlAt(line, q)
  {
    var m := SchemeEnd(line, q);
    var e := NonSpaceEnd(line, m + 3);
    UrlGroups(line[..q], line[q + 4..m], line[m + 3..e], line[e..])
  }

  /** The groups of the match PCRE reports on a line that holds a URL. */
  function ChosenUrlGroups(line: string): UrlGroups
    requires LastUrl(line, |line|).Some?
  {
    UrlGroupsAt(line, LastUrl(line, |line|).value)
  }

  function Anchor(url: string): string
  {
    "<a href=\"" + url + "\">" + url + "</a>"
  }

  /** One line after the URL rewrite: the replacement `$1<a href="$2">$2</a>$3` of the chosen
      match, which drops $4, or the line itself when nothing matches. */
  function UrlRewriteLine(line: string): string
  {
    match LastUrl(line, |line|)
    case None => line
    case Some(_) =>
      var g := ChosenUrlGroups(line);
      g.before + Anchor(Url(g)) + g.s
  }

  /** The whole text after the URL rewrite. */
  function LinkUrls(s: string): string
  {
    MapLines(s, UrlRewriteLine)
  }

  /** A text that runs from "http" through "://" to `e` is "http", the piece before "://",
      "://" and the rest. */
  lemma UrlSlices(line: string, q: nat, m: nat, e: nat)
    requires q + 4 <= m && m + 3 <= e <= |line|
    requires line[q..q + 4] == "http" && line[m..m + 3] == "://"
    ensures "http" + line[q + 4..m] + "://" + line[m + 3..e] == line[q..e]
  {
    assert line[q..e] == line[q..q + 4] + line[q + 4..m] + line[m..m + 3] + line[m + 3..e];
  }

  /** At a URL start, $3 is empty or "s". */
  lemma SchemeGroup(line: string, q: nat)
    requires UrlAt(line, q)
    ensures var m := SchemeEnd(line, q); line[q + 4..m] == "" || line[q + 4..m] == "s"
  {
    var m := SchemeEnd(line, q);
    if m == q + 5 {
      assert line[q + 4..m] == [line[q + 4]];
    }
  }

  /** The groups read off at a URL start: the optional "s" as the text has it, a non-empty
      non-space run, and group $2 is the text from the "http" to the end of that run. */
  lemma UrlGroupsAtShape(line: string, q: nat)
    requires UrlAt(line, q)
    ensures var g := UrlGroupsAt(line, q);
      && (g.s == "" || g.s == "s")
      && |g.tail| >= 1 && (forall k :: 0 <= k < |g.tail| ==> !IsSpace(g.tail[k]))
      && Url(g) == line[q..q + |Url(g)|] && |g.before| == q && g.after == line[q + |Url(g)|..]
  {
    var m := SchemeEnd(line, q);
    var e := NonSpaceEnd(line, m + 3);
    SchemeGroup(line, q);
    UrlSlices(line, q, m, e);
  }

  /** The groups read off at a URL start are a match of the pattern. */
  lemma UrlGroupsAtMatch(line: string, q: nat)
    requires '\n' !in line
    requires UrlAt(line, q)
    ensures MatchesUrlPattern(line, UrlGroupsAt(line, q))
  {
    var g := UrlGroupsAt(line, q);
    UrlGroupsAtShape(line, q);
    var e := q + |Url(g)|;
    assert line == line[..q] + line[q..e] + line[e..];
    NoNewlineInSlice(line, 0, q);
    NoNewlineInSlice(line, e, |line|);
  }

  /** A run of non-space characters at `start` lies inside the maximal one. */
  lemma {:induction false} NonSpaceRunCovers(line: string, start: nat, w: string)
    requires start + |w| <= |line|
    requires forall k :: 0 <= k < |w| ==> line[start + k] == w[k] && !IsSpace(w[k])
    ensures NonSpaceEnd(line, start) >= start + |w|
    decreases |w|
  {
    if |w| > 0 {
      assert line[start] == w[0] && !IsSpace(line[start]);
      assert NonSpaceEnd(line, start) == NonSpaceEnd(line, start + 1);
      NonSpaceRunCovers(line, start + 1, w[1..]);
    }
  }

  /** The middle part of a concatenation. */
  lemma MiddleOfConcat(a: string, b: string, c: string)
    ensures (a + b + c)[|a|..|a| + |b|] == b
  {
    assert a + b + c == a + (b + c);
  }

  /** The parts of group $2: "http", the optional "s", "://" and the non-space run. */
  lemma UrlShape(g: UrlGroups)
    ensures |Url(g)| == 7 + |g.s| + |g.tail|
    ensures Url(g)[..4] == "http"
    ensures Url(g)[4..4 + |g.s|] == g.s
    ensures Url(g)[4 + |g.s|..7 + |g.s|] == "://"
    ensures Url(g)[7 + |g.s|..] == g.tail
  {
    var u := Url(g);
    assert u == "http" + (g.s + ("://" + g.tail));
    assert u[4..] == g.s + ("://" + g.tail);
    assert u[4 + |g.s|..] == "://" + g.tail;
  }

  /** A slice of an occurrence of `u` at `p` is the slice of `u`. */
  lemma SliceWithin(line: string, p: nat, u: string, a: nat, b: nat)
    requires p + |u| <= |line| && line[p..p + |u|] == u
    requires a <= b <= |u|
    ensures line[p + a..p + b] == u[a..b]
  {
    forall i | 0 <= i < b - a ensures line[p + a..p + b][i] == u[a..b][i] {
      assert line[p + a + i] == line[p..p + |u|][a + i];
    }
  }

  /** Where a URL occurs at `p` as groups `g` would have it, `p` is a URL start whose "://"
      comes right after `g.s`. */
  lemma UrlOccurrenceIsUrlAt(line: string, p: nat, g: UrlGroups)
    requires p + |Url(g)| <= |line| && line[p..p + |Url(g)|] == Url(g)
    requires g.s == "" || g.s == "s"
    requires |g.tail| >= 1 && !IsSpace(g.tail[0])
    ensures UrlAt(line, p) && SchemeEnd(line, p) == p + 4 + |g.s|
    ensures forall k :: 0 <= k < |g.tail| ==> line[p + 7 + |g.s| + k] == g.tail[k]
  {
    var u := Url(g);
    var n := |g.s|;
    UrlShape(g);
    SliceWithin(line, p, u, 0, 4);
    SliceWithin(line, p, u, 4, 4 + n);
    SliceWithin(line, p, u, 4 + n, 7 + n);
    SliceWithin(line, p, u, 7 + n, |u|);
    if g.s == "s" {
      assert line[p + 4] == line[p + 4..p + 4 + n][0];
    } else {
      assert line[p + 4] == line[p + 4..p + 7][0];
    }
    forall k | 0 <= k < |g.tail| ensures line[p + 7 + n + k] == g.tail[k] {
      assert line[p + 7 + n + k] == line[p + 7 + n..p + |u|][k];
    }
  }

  /** The groups read off at such an occurrence take the same "s" and a non-space run at least
      as long. */
  lemma UrlGroupsAtLongest(line: string, p: nat, g: UrlGroups)
    requires p + |Url(g)| <= |line| && line[p..p + |Url(g)|] == Url(g)
    requires g.s == "" || g.s == "s"
    requires |g.tail| >= 1 && forall k :: 0 <= k < |g.tail| ==> !IsSpace(g.tail[k])
    ensures UrlAt(line, p)
    ensures UrlGroupsAt(line, p).s == g.s && |UrlGroupsAt(line, p).tail| >= |g.tail|
  {
    UrlOccurrenceIsUrlAt(line, p, g);
    var m := p + 4 + |g.s|;
    assert UrlGroupsAt(line, p).s == line[p + 4..m];
    if g.s == "s" {
      assert line[p + 4..m] == [line[p + 4]];
    }
    NonSpaceRunCovers(line, m + 3, g.tail);
  }

  /** The chosen groups are a match of the pattern, and the rewrite uses them. */
  lemma ChosenUrlGroupsMatch(line: string)
    requires '\n' !in line
    requires LastUrl(line, |line|).Some?
    ensures MatchesUrlPattern(line, ChosenUrlGroups(line))
    ensures UrlRewriteLine(line) == ChosenUrlGroups(line).before + Anchor(Url(ChosenUrlGroups(line))) + ChosenUrlGroups(line).s
  {
    UrlGroupsAtMatch(line, LastUrl(line, |line|).value);
  }

  /** Every match of the pattern on a line is one PCRE prefers the chosen groups to, so the
      chosen groups are the ones `preg_replace` substitutes. */
  lemma ChosenUrlGroupsFirst(line: string, g: UrlGroups)
    requires MatchesUrlPattern(line, g)
    ensures LastUrl(line, |line|).Some?
    ensures UrlPreferred(ChosenUrlGroups(line), g)
  {
    MiddleOfConcat(g.before, Url(g), g.after);
    UrlGroupsAtLongest(line, |g.before|, g);
  }

  /** A line without a URL matches nowhere and is left as it is. */
  lemma UrlFreeLineUnchanged(line: string)
    requires LastUrl(line, |line|).None?
    ensures forall g :: !MatchesUrlPattern(line, g)
    ensures UrlRewriteLine(line) == line
  {
    forall g | MatchesUrlPattern(line, g) ensures false {
      ChosenUrlGroupsFirst(line, g);
    }
  }

  /** The anchor of a URL without line feeds has none. */
  lemma AnchorInLine(url: string)
    requires '\n' !in url
    ensures '\n' !in Anchor(url)
  {
  }

  /** The URL rewrite of a line introduces no line feed. */
  lemma UrlRewriteInLine(line: string)
    requires '\n' !in line
    ensures '\n' !in UrlRewriteLine(line)
  {
    if LastUrl(line, |line|).Some? {
      var q := LastUrl(line, |line|).value;
      var m := SchemeEnd(line, q);
      var e := NonSpaceEnd(line, m + 3);
      NoNewlineInSlice(line, 0, q);
      NoNewlineInSlice(line, q + 4, m);
      NoNewlineInSlice(line, m + 3, e);
      AnchorInLine(Url(ChosenUrlGroups(line)));
    }
  }

  /** The URL rewrite works line by line: the text keeps its lines, each rewritten on its own. */
  lemma LinkUrlsByLine(s: string)
    ensures |Split(LinkUrls(s), '\n')| == |Split(s, '\n')|
    ensures forall k :: 0 <= k < |Split(s, '\n')| ==>
              Split(LinkUrls(s), '\n')[k] == UrlRewriteLine(Split(s, '\n')[k])
  {
    forall line | '\n' !in line ensures '\n' !in UrlRewriteLine(line) {
      UrlRewriteInLine(line);
    }
    MapLinesByLine(s, UrlRewriteLine);
  }

  /** A text in which no line holds a URL comes through the URL rewrite unchanged. */
  lemma LinkUrlsWithoutUrls(s: string)
    requires forall k, j :: 0 <= k < |Split(s, '\n')| && 0 <= j < |Split(s, '\n')[k]| ==> !UrlAt(Split(s, '\n')[k], j)
    ensures LinkUrls(s) == s
  {
    forall k | 0 <= k < |Split(s, '\n')| ensures UrlRewriteLine(Split(s, '\n')[k]) == Split(s, '\n')[k] {
      UrlFreeLineUnchanged(Split(s, '\n')[k]);
    }
    MapLinesIdentity(s, UrlRewriteLine);
  }

  // ---------------------------------------------------------------------------------------------
  // preg_replace('((.*@)([\w]+)(.*))', '$1<a href="http://twitter.com/$2">$2</a>$3', $text)

  /** An "@" at `a` followed by a word character. */
  predicate MentionAt(line: string, a: nat)
  {
    a + 1 < |line| && line[a] == '@' && IsWord(line[a + 1])
  }

  /** The last position below `k` holding an "@" followed by a word character. */
  function LastMention(line: string, k: nat): (r: Option<nat>)
    requires k <= |line|
    ensures r.Some? ==> r.value < k && MentionAt(line, r.value)
    ensures r.Some? ==> forall j :: r.value < j < k ==> !MentionAt(line, j)
    ensures r.None? ==> forall j :: 0 <= j < k ==> !MentionAt(line, j)
  {
    if k == 0 then None
    else if MentionAt(line, k - 1) then Some(k - 1)
    else LastMention(line, k - 1)
  }

  /** The groups of one match: `before` is $1 and ends with "@", `handle` is $2, `after` is $3. */
  datatype MentionGroups = MentionGroups(before: string, handle: string, after: string)

  /** The pattern matches the whole line with groups `g`. */
  ghost predicate MatchesMentionPattern(line: string, g: MentionGroups)
  {
    && line == g.before + g.handle + g.after
    && |g.before| >= 1 && g.before[|g.before| - 1] == '@'
    && |g.handle| >= 1
    && (forall k :: 0 <= k < |g.handle| ==> IsWord(g.handle[k]))
    && '\n' !in g.before && '\n' !in g.after
  }

  /** PCRE's backtracking reaches `a` before `b`: longer $1 first, then longer $2. */
  predicate MentionPreferred(a: MentionGroups, b: MentionGroups)
  {
    |a.before| > |b.before| || (|a.before| == |b.before| && |a.handle| >= |b.handle|)
  }

  /** The groups of the match whose "@" is at `a`: the handle taken as far as it goes. */
  function MentionGroupsAt(line: string, a: nat): MentionGroups
    requires MentionAt(line, a)
  {
    var e := WordEnd(line, a + 1);
    MentionGroups(line[..a + 1], line[a + 1..e], line[e..])
  }

  /** The groups of the match PCRE reports on a line that holds a mention. */
  function ChosenMentionGroups(line: string): MentionGroups
    requires LastMention(line, |line|).Some?
  {
    MentionGroupsAt(line, LastMention(line, |line|).value)
  }

  function MentionAnchor(handle: string): string
  {
    "<a href=\"http://twitter.com/" + handle + "\">" + handle + "</a>"
  }

  /** One line after the mention rewrite, or the line itself when nothing matches. */
  function MentionRewriteLine(line: string): string
  {
    match LastMention(line, |line|)
    case None => line
    case Some(_) =>
      var g := ChosenMentionGroups(line);
      g.before + MentionAnchor(g.handle) + g.after
  }

  /** The whole text after the mention rewrite. */
  function LinkMentions(s: string): string
  {
    MapLines(s, MentionRewriteLine)
  }

  /** The groups read off at a mention are a match of the pattern. */
  lemma MentionGroupsAtMatch(line: string, a: nat)
    requires '\n' !in line
    requires MentionAt(line, a)
    ensures MatchesMentionPattern(line, MentionGroupsAt(line, a))
  {
    var e := WordEnd(line, a + 1);
    var g := MentionGroupsAt(line, a);
    assert line == line[..a + 1] + line[a + 1..e] + line[e..];
    assert forall k :: 0 <= k < |g.handle| ==> g.handle[k] == line[a + 1 + k];
    NoNewlineInSlice(line, 0, a + 1);
    NoNewlineInSlice(line, e, |line|);
  }

  /** A run of word characters at `start` lies inside the maximal one. */
  lemma {:induction false} WordRunCovers(line: string, start: nat, w: string)
    requires start + |w| <= |line|
    requires forall k :: 0 <= k < |w| ==> line[start + k] == w[k] && IsWord(w[k])
    ensures WordEnd(line, start) >= start + |w|
    decreases |w|
  {
    if |w| > 0 {
      assert line[start] == w[0] && IsWord(line[start]);
      assert WordEnd(line, start) == WordEnd(line, start + 1);
      WordRunCovers(line, start + 1, w[1..]);
    }
  }

  /** The "@" that ends group $1 of a match is a mention, and the handle read off there is at least
      as long as the match's. */
  lemma MentionGroupsAtLongest(line: string, g: MentionGroups)
    requires MatchesMentionPattern(line, g)
    ensures MentionAt(line, |g.before| - 1)
    ensures |MentionGroupsAt(line, |g.before| - 1).handle| >= |g.handle|
  {
    var p := |g.before|;
    assert line == g.before + (g.handle + g.after);
    assert forall k :: 0 <= k < |g.handle| ==> line[p + k] == g.handle[k];
    assert line[p - 1] == '@';
    WordRunCovers(line, p, g.handle);
  }

  /** The chosen groups are a match of the pattern, and the rewrite uses them. */
  lemma ChosenMentionGroupsMatch(line: string)
    requires '\n' !in line
    requires LastMention(line, |line|).Some?
    ensures MatchesMentionPattern(line, ChosenMentionGroups(line))
    ensures MentionRewriteLine(line) == ChosenMentionGroups(line).before + MentionAnchor(ChosenMentionGroups(line).handle) + ChosenMentionGroups(line).after
  {
    MentionGroupsAtMatch(line, LastMention(line, |line|).value);
  }

  /** Every match of the pattern on a line is one PCRE prefers the chosen groups to. */
  lemma ChosenMentionGroupsFirst(line: string, g: MentionGroups)
    requires MatchesMentionPattern(line, g)
    ensures LastMention(line, |line|).Some?
    ensures MentionPreferred(ChosenMentionGroups(line), g)
  {
    MentionGroupsAtLongest(line, g);
  }

  /** A line without a mention matches nowhere and is left as it is. */
  lemma MentionFreeLineUnchanged(line: string)
    requires LastMention(line, |line|).None?
    ensures forall g :: !MatchesMentionPattern(line, g)
    ensures MentionRewriteLine(line) == line
  {
    forall g | MatchesMentionPattern(line, g) ensures false {
      ChosenMentionGroupsFirst(line, g);
    }
  }

  /** The mention anchor of a handle without line feeds has none. */
  lemma MentionAnchorInLine(handle: string)
    requires '\n' !in handle
    ensures '\n' !in MentionAnchor(handle)
  {
  }

  /** The mention rewrite of a line introduces no line feed. */
  lemma MentionRewriteInLine(line: string)
    requires '\n' !in line
    ensures '\n' !in MentionRewriteLine(line)
  {
    if LastMention(line, |line|).Some? {
      var a := LastMention(line, |line|).value;
      var e := WordEnd(line, a + 1);
      NoNewlineInSlice(line, 0, a + 1);
      NoNewlineInSlice(line, a + 1, e);
      NoNewlineInSlice(line, e, |line|);
      MentionAnchorInLine(line[a + 1..e]);
    }
  }

  /** The mention rewrite works line by line. */
  lemma LinkMentionsByLine(s: string)
    ensures |Split(LinkMentions(s), '\n')| == |Split(s, '\n')|
    ensures forall k :: 0 <= k < |Split(s, '\n')| ==>
              Split(LinkMentions(s), '\n')[k] == MentionRewriteLine(Split(s, '\n')[k])
  {
    forall line | '\n' !in line ensures '\n' !in MentionRewriteLine(line) {
      MentionRewriteInLine(line);
    }
    MapLinesByLine(s, MentionRewriteLine);
  }

  /** A text in which no line holds a mention comes through the mention rewrite unchanged. */
  lemma LinkMentionsWithoutMentions(s: string)
    requires forall k, j :: 0 <= k < |Split(s, '\n')| && 0 <= j < |Split(s, '\n')[k]| ==> !MentionAt(Split(s, '\n')[k], j)
    ensures LinkMentions(s) == s
  {
    forall k | 0 <= k < |Split(s, '\n')| ensures MentionRewriteLine(Split(s, '\n')[k]) == Split(s, '\n')[k] {
      MentionFreeLineUnchanged(Split(s, '\n')[k]);
    }
    MapLinesIdentity(s, MentionRewriteLine);
  }

  // ---------------------------------------------------------------------------------------------
  // processText

  /** The display text of a tweet: escaped, then URLs linked, then mentions linked. */
  function ProcessText(text: string): string
  {
    LinkMentions(LinkUrls(HtmlEntities(text)))
  }

  /** The display text has one line per line of the escaped text, each of them the escaped line
      with its URL rewritten and then its mention rewritten. */
  lemma ProcessTextByLine(text: string)
    ensures |Split(ProcessText(text), '\n')| == |Split(HtmlEntities(text), '\n')|
    ensures forall k :: 0 <= k < |Split(HtmlEntities(text), '\n')| ==>
              Split(ProcessText(text), '\n')[k] == MentionRewriteLine(UrlRewriteLine(Split(HtmlEntities(text), '\n')[k]))
  {
    LinkUrlsByLine(HtmlEntities(text));
    LinkMentionsByLine(LinkUrls(HtmlEntities(text)));
  }

  // ---------------------------------------------------------------------------------------------
  // preg_match_all('(#[\w]+)', $text, $return); $return[0]

  /** A hashtag: "#" and a non-empty run of word characters. */
  predicate IsTag(t: string)
  {
    |t| >= 2 && t[0] == '#' && forall k :: 1 <= k < |t| ==> IsWord(t[k])
  }

  /** A match of the pattern can start at `i`. */
  predicate TagAt(s: string, i: nat)
  {
    i + 1 < |s| && s[i] == '#' && IsWord(s[i + 1])
  }

  /** The match that starts at `i`: the word run is taken as far as it goes. */
  function TagFrom(s: string, i: nat): (t: string)
    requires TagAt(s, i)
    ensures IsTag(t)
  {
    s[i..WordEnd(s, i + 1)]
  }

  /** The matches of `preg_match_all` from offset `i` on: the leftmost match, then the search goes
      on where it ended. */
  function ScanTags(s: string, i: nat): (tags: seq<string>)
    requires i <= |s|
    ensures forall k :: 0 <= k < |tags| ==> IsTag(tags[k])
    decreases |s| - i
  {
    if i == |s| then []
    else if TagAt(s, i) then [TagFrom(s, i)] + ScanTags(s, WordEnd(s, i + 1))
    else ScanTags(s, i + 1)
  }

  /** The hashtags of a tweet text. */
  function ExtractTags(text: string): seq<string>
  {
    ScanTags(text, 0)
  }

  /** Independent description: every position from `i` on at which a tag starts, in increasing order. */
  function TagStarts(s: string, i: nat): (starts: seq<nat>)
    requires i <= |s|
    ensures forall k :: 0 <= k < |starts| ==> i <= starts[k] < |s| && TagAt(s, starts[k])
    ensures forall k, l :: 0 <= k < l < |starts| ==> starts[k] < starts[l]
    ensures forall j :: i <= j < |s| && TagAt(s, j) ==> j in starts
    decreases |s| - i
  {
    if i == |s| then []
    else if TagAt(s, i) then [i] + TagStarts(s, i + 1)
    else TagStarts(s, i + 1)
  }

  /** No tag starts inside a run that holds no "#". */
  lemma {:induction false} TagStartsSkip(s: string, i: nat, e: nat)
    requires i <= e <= |s|
    requires forall m :: i <= m < e ==> s[m] != '#'
    ensures TagStarts(s, i) == TagStarts(s, e)
    decreases e - i
  {
    if i < e {
      TagStartsSkip(s, i + 1, e);
    }
  }

  /** Putting one more tag in front of both lists keeps them in step. */
  lemma TagsInStep(s: string, i: nat, tags: seq<string>, starts: seq<nat>)
    requires TagAt(s, i)
    requires forall k :: 0 <= k < |starts| ==> TagAt(s, starts[k])
    requires |tags| == |starts|
    requires forall k :: 0 <= k < |starts| ==> tags[k] == TagFrom(s, starts[k])
    ensures forall k :: 0 <= k < |[i] + starts| ==> ([TagFrom(s, i)] + tags)[k] == TagFrom(s, ([i] + starts)[k])
  {
    forall k | 0 <= k < |[i] + starts| ensures ([TagFrom(s, i)] + tags)[k] == TagFrom(s, ([i] + starts)[k]) {
      if k > 0 {
        assert ([TagFrom(s, i)] + tags)[k] == tags[k - 1];
        assert ([i] + starts)[k] == starts[k - 1];
      }
    }
  }

  /** The scan finds exactly one tag per tag start, in order, each as long as its word run goes:
      matches never overlap because a tag holds no "#". */
  lemma {:induction false} ScanTagsAreTagStarts(s: string, i: nat)
    requires i <= |s|
    ensures |ScanTags(s, i)| == |TagStarts(s, i)|
    ensures forall k :: 0 <= k < |TagStarts(s, i)| ==> ScanTags(s, i)[k] == TagFrom(s, TagStarts(s, i)[k])
    decreases |s| - i
  {
    if i < |s| {
      if TagAt(s, i) {
        var e := WordEnd(s, i + 1);
        ScanTagsAreTagStarts(s, e);
        TagStartsSkip(s, i + 1, e);
        TagsInStep(s, i, ScanTags(s, e), TagStarts(s, e));
      } else {
        ScanTagsAreTagStarts(s, i + 1);
      }
    }
  }

  /** `extractTags` returns every tag of the text, left to right, duplicates included. */
  lemma ExtractTagsAreTagStarts(text: string)
    ensures |ExtractTags(text)| == |TagStarts(text, 0)|
    ensures forall k :: 0 <= k < |TagStarts(text, 0)| ==> ExtractTags(text)[k] == TagFrom(text, TagStarts(text, 0)[k])
  {
    ScanTagsAreTagStarts(text, 0);
  }

  /** The result is empty exactly when no "#" is followed by a word character. */
  lemma ExtractTagsEmpty(text: string)
    ensures ExtractTags(text) == [] <==> forall j :: 0 <= j < |text| ==> !TagAt(text, j)
  {
    ScanTagsAreTagStarts(text, 0);
    var starts := TagStarts(text, 0);
    if starts != [] {
      assert TagAt(text, starts[0]);
    }
  }
}
