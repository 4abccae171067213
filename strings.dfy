/** Character classes and line splitting shared by the text functions of the reader.
    The PCRE patterns of the reader run without the `u` modifier in the C locale, so
    `\w` and `\s` are the ASCII classes below. */
module Strings {

  datatype Option<T> = None | Some(value: T)

  /** `\w`: ASCII letters, digits and the underscore. */
  predicate IsWord(c: char) {
    ('a' <= c <= 'z') || ('A' <= c <= 'Z') || ('0' <= c <= '9') || c == '_'
  }

  /** `\s` of PCRE2: space, tab, line feed, vertical tab, form feed and carriage return. */
  predicate IsSpace(c: char) {
    c == ' ' || c == '\t' || c == '\n' || c == '\U{B}' || c == '\U{C}' || c == '\r'
  }

  /** End of the maximal run of word characters that starts at `i`. */
  function WordEnd(s: string, i: nat): (e: nat)
    requires i <= |s|
    ensures i <= e <= |s|
    ensures forall k :: i <= k < e ==> IsWord(s[k])
    ensures e == |s| || !IsWord(s[e])
    decreases |s| - i
  {
    if i == |s| || !IsWord(s[i]) then i else WordEnd(s, i + 1)
  }

  /** End of the maximal run of non-space characters that starts at `i`. */
  function NonSpaceEnd(s: string, i: nat): (e: nat)
    requires i <= |s|
    ensures i <= e <= |s|
    ensures forall k :: i <= k < e ==> !IsSpace(s[k])
    ensures e == |s| || IsSpace(s[e])
    decreases |s| - i
  {
    if i == |s| || IsSpace(s[i]) then i else NonSpaceEnd(s, i + 1)
  }

  /** A slice of a text without line feeds has none either. */
  lemma NoNewlineInSlice(s: string, i: nat, j: nat)
    requires i <= j <= |s|
    ensures '\n' !in s ==> '\n' !in s[i..j]
  {
    if '\n' in s[i..j] {
      var k :| 0 <= k < j - i && s[i..j][k] == '\n';
      assert s[i + k] == '\n';
    }
  }

  /** The pieces of `s` between occurrences of `sep`: always at least one piece, none containing `sep`. */
  function Split(s: string, sep: char): (parts: seq<string>)
    ensures |parts| >= 1
    ensures forall k :: 0 <= k < |parts| ==> sep !in parts[k]
  {
    if |s| == 0 then [""]
    else
      var rest := Split(s[1..], sep);
      if s[0] == sep then [""] + rest
      else
        [[s[0]] + rest[0]] + rest[1..]
  }

  /** The pieces joined back together with `sep` between neighbours. */
  function Join(parts: seq<string>, sep: char): string
  {
    if |parts| == 0 then ""
    else if |parts| == 1 then parts[0]
    else parts[0] + [sep] + Join(parts[1..], sep)
  }

  /** An empty piece in front adds one separator in front of the join. */
  lemma JoinEmptyHead(rest: seq<string>, sep: char)
    requires |rest| >= 1
    ensures Join([""] + rest, sep) == [sep] + Join(rest, sep)
  {
    assert ([""] + rest)[1..] == rest;
  }

  /** A character put in front of the first piece is put in front of the join. */
  lemma JoinConsHead(c: char, rest: seq<string>, sep: char)
    requires |rest| >= 1
    ensures Join([[c] + rest[0]] + rest[1..], sep) == [c] + Join(rest, sep)
  {
    var parts := [[c] + rest[0]] + rest[1..];
    if |rest| > 1 {
      assert parts[1..] == rest[1..];
      assert [c] + rest[0] + [sep] + Join(rest[1..], sep) == [c] + (rest[0] + [sep] + Join(rest[1..], sep));
    }
  }

  /** Joining the pieces of a split gives back the original text. */
  lemma {:induction false} SplitThenJoin(s: string, sep: char)
    ensures Join(Split(s, sep), sep) == s
  {
    if |s| > 0 {
      SplitThenJoin(s[1..], sep);
      if s[0] == sep {
        JoinEmptyHead(Split(s[1..], sep), sep);
      } else {
        JoinConsHead(s[0], Split(s[1..], sep), sep);
      }
      assert [s[0]] + s[1..] == s;
    }
  }

  /** A piece free of `sep` in front of the rest becomes the head of the first piece of the rest. */
  lemma {:induction false} SplitPrefix(x: string, y: string, sep: char)
    requires sep !in x
    ensures Split(x + y, sep) == [x + Split(y, sep)[0]] + Split(y, sep)[1..]
  {
    if |x| > 0 {
      SplitPrefix(x[1..], y, sep);
      assert (x + y)[1..] == x[1..] + y;
      assert (x + y)[0] == x[0];
      assert [x[0]] + (x[1..] + Split(y, sep)[0]) == x + Split(y, sep)[0];
    } else {
      var parts := Split(y, sep);
      assert x + y == y && x + parts[0] == parts[0];
      assert [parts[0]] + parts[1..] == parts;
    }
  }

  /** A text that starts with the separator splits into an empty piece and the pieces of the rest. */
  lemma SplitSeparatorHead(t: string, sep: char)
    ensures Split([sep] + t, sep) == [""] + Split(t, sep)
  {
    assert ([sep] + t)[1..] == t;
  }

  /** Splitting a join of pieces free of `sep` gives back the pieces. */
  lemma {:induction false} JoinThenSplit(parts: seq<string>, sep: char)
    requires |parts| >= 1
    requires forall k :: 0 <= k < |parts| ==> sep !in parts[k]
    ensures Split(Join(parts, sep), sep) == parts
  {
    if |parts| == 1 {
      SplitPrefix(parts[0], "", sep);
      assert parts[0] + "" == parts[0];
    } else {
      var tail := Join(parts[1..], sep);
      JoinThenSplit(parts[1..], sep);
      SplitSeparatorHead(tail, sep);
      SplitPrefix(parts[0], [sep] + tail, sep);
      assert Join(parts, sep) == parts[0] + ([sep] + tail);
      assert parts[0] + "" == parts[0];
      assert [parts[0]] + parts[1..] == parts;
    }
  }

  /** `f` applied to each piece, in order. */
  function MapAll(parts: seq<string>, f: string -> string): seq<string>
  {
    if |parts| == 0 then [] else [f(parts[0])] + MapAll(parts[1..], f)
  }

  /** `MapAll` keeps the number of pieces and rewrites each piece on its own. */
  lemma {:induction false} MapAllAt(parts: seq<string>, f: string -> string)
    ensures |MapAll(parts, f)| == |parts|
    ensures forall k :: 0 <= k < |parts| ==> MapAll(parts, f)[k] == f(parts[k])
  {
    if |parts| > 0 {
      MapAllAt(parts[1..], f);
      assert forall k :: 1 <= k < |parts| ==> MapAll(parts, f)[k] == MapAll(parts[1..], f)[k - 1];
    }
  }

  /** `f` applied to every line of `s`, the lines joined back with line feeds. */
  function MapLines(s: string, f: string -> string): string
  {
    Join(MapAll(Split(s, '\n'), f), '\n')
  }

  /** When `f` never introduces a line feed, the lines of the result are the rewritten lines of `s`,
      one for one. */
  lemma MapLinesByLine(s: string, f: string -> string)
    requires forall line :: '\n' !in line ==> '\n' !in f(line)
    ensures |Split(MapLines(s, f), '\n')| == |Split(s, '\n')|
    ensures forall k :: 0 <= k < |Split(s, '\n')| ==> Split(MapLines(s, f), '\n')[k] == f(Split(s, '\n')[k])
  {
    var lines := Split(s, '\n');
    MapAllAt(lines, f);
    JoinThenSplit(MapAll(lines, f), '\n');
  }

  /** When `f` leaves every line of `s` as it is, so does the whole rewrite. */
  lemma MapLinesIdentity(s: string, f: string -> string)
    requires forall k :: 0 <= k < |Split(s, '\n')| ==> f(Split(s, '\n')[k]) == Split(s, '\n')[k]
    ensures MapLines(s, f) == s
  {
    var lines := Split(s, '\n');
    MapAllAt(lines, f);
    assert MapAll(lines, f) == lines;
    SplitThenJoin(s, '\n');
  }
}
