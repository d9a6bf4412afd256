/** The older two-field envelope EBMessageHeader of the name-correlated protocol: a
    header name, a body name (the serial name of the payload's type) and the payload,
    written as `[header, body, json]` and read back by splitting at commas. */
module LegacyHeader {
  import opened Wrappers
  import opened Exceptions
  import opened Text
  import opened HeaderParsing
  import opened ParseSteps

  datatype EBMessageHeader = EBMessageHeader(header: string, body: string, json: string)

  /** `serialize`: `[header, body, json]`, nothing quoted. */
  function Serialize(e: EBMessageHeader): string {
    "[" + e.header + ", " + e.body + ", " + e.json + "]"
  }

  /** `parse`: trim, cut the first and the last character (the test for a leading
      bracket has an empty body), split at every comma, trim the first two pieces and
      join all later pieces with commas again as the payload. */
  function Parse(s: string): (r: Result<EBMessageHeader, ParseError>)
    ensures |Trim(s)| < 2 <==> r == Failure(StringIndexOutOfBounds)
  {
    var trim := Trim(s);
    if |trim| < 2 then Failure(StringIndexOutOfBounds)
    else
      var split := Split(trim[1..|trim| - 1], ',');
      if |split| < 2 then Failure(IndexOutOfBounds)
      else Success(EBMessageHeader(Trim(split[0]), Trim(split[1]), Join(split[2..], ',')))
  }

  /** What `parse` does with the text between the cut-off ends. */
  function ParseInner(inner: string): (r: Result<EBMessageHeader, ParseError>)
    ensures r.Failure? ==> r.error == IndexOutOfBounds
  {
    var split := Split(inner, ',');
    if |split| < 2 then Failure(IndexOutOfBounds)
    else Success(EBMessageHeader(Trim(split[0]), Trim(split[1]), Join(split[2..], ',')))
  }

  /** The ends are cut whatever they are: only the text between them matters. */
  lemma ParseIgnoresEnds(first: char, inner: string, last: char)
    requires !IsWhitespace(first) && !IsWhitespace(last)
    ensures Parse([first] + inner + [last]) == ParseInner(inner)
  {
    var s := [first] + inner + [last];
    assert TrimStable(s);
    TrimOfStable(s);
    assert s[1..|s| - 1] == inner;
  }

  /** Without a comma between the ends there is no second piece: `split[1]` throws. */
  lemma NoCommaFails(inner: string)
    requires ',' !in inner
    ensures ParseInner(inner) == Failure(IndexOutOfBounds)
  {
    SplitNoSeparator(inner, ',');
  }

  /** With exactly one comma the payload is empty. */
  lemma OneCommaEmptyPayload(a: string, b: string)
    requires ',' !in a && ',' !in b
    ensures ParseInner(a + "," + b) == Success(EBMessageHeader(Trim(a), Trim(b), ""))
  {
    SplitAtFirst(a, ',', b);
    SplitNoSeparator(b, ',');
    assert Split(a + "," + b, ',') == [a, b];
  }

  /** A blank and a text trim() leaves alone trim to that text. */
  lemma TrimAfterBlank(b: string)
    requires TrimStable(b)
    ensures Trim(" " + b) == b
  {
    if b != [] {
      TrimStartAfterBlanks(" ", b);
      TrimOfStable(b);
    } else {
      assert AllBlank(" " + b);
    }
  }

  /** A header and a body without commas that trim() leaves alone. */
  predicate Representable(e: EBMessageHeader) {
    ',' !in e.header && ',' !in e.body && TrimStable(e.header) && TrimStable(e.body)
  }

  /** The round trip: header and body come back exactly, the payload, commas and all,
      with the blank serialize put before it. */
  lemma ParseSerialize(e: EBMessageHeader)
    requires Representable(e)
    ensures Parse(Serialize(e)) == Success(e.(json := " " + e.json))
  {
    var inner := Inner(e);
    SerializeLayout(e);
    ParseIgnoresEnds('[', inner, ']');
    InnerSplit(e);
    InnerParsed(e, Split(inner, ','));
  }

  /** The text between the brackets of a serialised envelope. */
  function Inner(e: EBMessageHeader): string {
    e.header + "," + (" " + e.body + "," + " " + e.json)
  }

  lemma SerializeLayout(e: EBMessageHeader)
    ensures Serialize(e) == ['['] + Inner(e) + [']']
  {
  }

  lemma InnerSplit(e: EBMessageHeader)
    requires ',' !in e.header && ',' !in e.body
    ensures Split(Inner(e), ',') == [e.header, " " + e.body] + Split(" " + e.json, ',')
  {
    var body, json := " " + e.body, " " + e.json;
    var second := body + [','] + json;
    assert Inner(e) == e.header + [','] + second;
    SplitAtFirst(e.header, ',', second);
    assert ',' !in body by {
      assert forall i :: 1 <= i < |body| ==> body[i] == e.body[i - 1];
    }
    SplitAtFirst(body, ',', json);
  }

  lemma InnerParsed(e: EBMessageHeader, split: seq<string>)
    requires Representable(e)
    requires split == Split(Inner(e), ',')
    requires split == [e.header, " " + e.body] + Split(" " + e.json, ',')
    ensures ParseInner(Inner(e)) == Success(e.(json := " " + e.json))
  {
    assert split[2..] == Split(" " + e.json, ',');
    JoinSplit(" " + e.json, ',');
    TrimOfStable(e.header);
    TrimAfterBlank(e.body);
  }
}
