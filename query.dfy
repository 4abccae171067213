/** The query part of the timeline URL: one "&key=value" per request option, in the options'
    iteration order, with neither keys nor values encoded. */
module Query {

  /** One request option: its key and the text `%s` prints for its value. */
  type Param = (string, string)

  /** The field one option adds to the URL. */
  function Field(p: Param): string
  {
    "&" + p.0 + "=" + p.1
  }

  /** All fields, in order. */
  function QueryString(params: seq<Param>): string
  {
    if |params| == 0 then "" else Field(params[0]) + QueryString(params[1..])
  }

  /** Appending an option appends its field: the string grows as the loop over the options adds
      to it. */
  lemma {:induction false} QueryStringSnoc(params: seq<Param>, p: Param)
    ensures QueryString(params + [p]) == QueryString(params) + Field(p)
  {
    if |params| > 0 {
      assert (params + [p])[1..] == params[1..] + [p];
      QueryStringSnoc(params[1..], p);
    }
  }

  /** The longest prefix of `s` without `c`. */
  function TakeUntil(s: string, c: char): (r: string)
    ensures |r| <= |s| && r == s[..|r|]
    ensures c !in r
    ensures |r| == |s| || s[|r|] == c
  {
    if |s| == 0 || s[0] == c then "" else [s[0]] + TakeUntil(s[1..], c)
  }

  /** Reading the fields back: the inverse of `QueryString` for keys without "&" or "=" and values
      without "&". */
  function ParseQuery(q: string): seq<Param>
    decreases |q|
  {
    if |q| == 0 || q[0] != '&' then []
    else
      var field := TakeUntil(q[1..], '&');
      [ReadField(field)] + ParseQuery(q[1 + |field|..])
  }

  /** One field read back: the key up to the first "=", the value after it. */
  function ReadField(field: string): Param
  {
    var key := TakeUntil(field, '=');
    (key, if |key| < |field| then field[|key| + 1..] else "")
  }

  /** A prefix without `c` that is followed by `c`, or by nothing, is exactly what `TakeUntil` takes. */
  lemma {:induction false} TakeUntilPrefix(x: string, y: string, c: char)
    requires c !in x
    requires |y| == 0 || y[0] == c
    ensures TakeUntil(x + y, c) == x
  {
    if |x| == 0 {
      assert x + y == y;
    } else {
      assert (x + y)[1..] == x[1..] + y;
      TakeUntilPrefix(x[1..], y, c);
      assert [x[0]] + x[1..] == x;
    }
  }

  /** An option whose field can be read back unambiguously. */
  predicate Plain(p: Param)
  {
    '&' !in p.0 && '=' !in p.0 && '&' !in p.1
  }

  /** The text of a field after its "&": the key, "=" and the value. */
  function FieldBody(p: Param): string
  {
    p.0 + ("=" + p.1)
  }

  /** A plain field's body runs up to the next "&" of the query, and the rest follows it. */
  lemma FieldExtent(p: Param, rest: string)
    requires Plain(p)
    requires |rest| == 0 || rest[0] == '&'
    ensures var q := Field(p) + rest;
      TakeUntil(q[1..], '&') == FieldBody(p) && q[1 + |FieldBody(p)|..] == rest
  {
    var q := Field(p) + rest;
    var body := FieldBody(p);
    var tail := body + rest;
    assert Field(p) == "&" + body;
    assert q == "&" + tail;
    assert q[1..] == tail;
    assert '&' !in body;
    TakeUntilPrefix(body, rest, '&');
  }

  /** The key of a plain field ends at its first "=", and the value is what follows. */
  lemma FieldKeyValue(p: Param)
    requires Plain(p)
    ensures ReadField(FieldBody(p)) == p
  {
    TakeUntilPrefix(p.0, "=" + p.1, '=');
    assert FieldBody(p)[|p.0| + 1..] == p.1;
  }

  /** One plain field in front of the rest of a query reads back as that option. */
  lemma ParseField(p: Param, rest: string)
    requires Plain(p)
    requires |rest| == 0 || rest[0] == '&'
    ensures ParseQuery(Field(p) + rest) == [p] + ParseQuery(rest)
  {
    var q := Field(p) + rest;
    FieldExtent(p, rest);
    FieldKeyValue(p);
    assert q[0] == '&';
    assert ParseQuery(q) == [ReadField(FieldBody(p))] + ParseQuery(q[1 + |FieldBody(p)|..]);
  }

  /** Parsing the query string gives back the options, in order. */
  lemma {:induction false} ParseQueryString(params: seq<Param>)
    requires forall k :: 0 <= k < |params| ==> Plain(params[k])
    ensures ParseQuery(QueryString(params)) == params
  {
    if |params| > 0 {
      ParseQueryString(params[1..]);
      assert |params[1..]| > 0 ==> QueryString(params[1..])[0] == '&';
      ParseField(params[0], QueryString(params[1..]));
      assert [params[0]] + params[1..] == params;
    }
  }
}
