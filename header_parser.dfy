/** The step-wise header scanner both envelope formats of the request/response
    protocol are parsed with.

    A `HeaderParser` is an immutable pair of the text still to scan (`rest`) and the
    fields taken so far (`list`); every step returns a new parser.  An envelope is
    parsed by one fixed chain of steps: strip the brackets, then alternately take a
    field and drop the comma after it, and finally take the rest as the payload. */
module HeaderParsing {
  import opened Wrappers
  import opened Exceptions
  import opened Text
  import Lists


  datatype HeaderParser = HeaderParser(rest: string, list: seq<string>)

  /** `headerParsed`: trim, then cut the first and the last character, whatever they are. */
  function HeaderParsed(toParse: string): (r: Result<HeaderParser, ParseError>)
    ensures var t := Trim(toParse);
      && (r.Success? <==> |t| >= 2)
      && (r.Success? ==> r.value.list == [] && t == [t[0]] + r.value.rest + [t[|t| - 1]])
      && (r.Failure? ==> r.error == StringIndexOutOfBounds)
  {
    var t := Trim(toParse);
    if |t| < 2 then Failure(StringIndexOutOfBounds)
    else
      assert t == [t[0]] + t[1..|t| - 1] + [t[|t| - 1]];
      Success(HeaderParser(t[1..|t| - 1], []))
  }

  /** A character at `k` is escaped when a backslash stands right before it. */
  predicate Escaped(s: string, k: nat)
    requires k < |s|
  {
    k > 0 && s[k - 1] == '\\'
  }

  /** A quote that closes a quoted field: one not escaped. */
  predicate UnescapedQuote(s: string, k: nat)
    requires k < |s|
  {
    s[k] == '"' && !Escaped(s, k)
  }

  /** The first quote at or after `from` that is not escaped. */
  function NextUnescapedQuote(s: string, from: nat): (r: Option<nat>)
    requires from <= |s|
    ensures r.Some? ==> from <= r.value < |s| && UnescapedQuote(s, r.value)
    ensures r.Some? ==> forall k :: from <= k < r.value ==> !UnescapedQuote(s, k)
    ensures r.None? ==> forall k :: from <= k < |s| ==> !UnescapedQuote(s, k)
    decreases |s| - from
  {
    if from == |s| then None
    else if UnescapedQuote(s, from) then Some(from)
    else NextUnescapedQuote(s, from + 1)
  }

  /** The quoted field a scanner for backslash-escaped quotes takes: the text
      between the first quote and the next unescaped quote, with the scan going on
      after that closing quote.  No quote at all is an IndexOutOfBounds, no closing
      quote a NoSuchElement, as in Kotlin. */
  function FirstQuotedField(p: HeaderParser): (r: Result<HeaderParser, ParseError>)
    ensures r.Success? ==> |r.value.list| == |p.list| + 1 && r.value.list[..|p.list|] == p.list
  {
    match Lists.FindFirst(p.rest, Is('"'))
    case None => Failure(IndexOutOfBounds)
    case Some(start) =>
      match NextUnescapedQuote(p.rest, start + 1)
      case None => Failure(NoSuchElement)
      case Some(close) =>
        var q := HeaderParser(p.rest[close + 1..], p.list + [p.rest[start + 1..close]]);
        assert q.list[..|p.list|] == p.list;
        Success(q)
  }

  /** The test `dropWhile { i.contains(it - 1) }` applies to quote positions. */
  function PrecededByOneOf(backslashes: seq<nat>): nat -> bool {
    j => j - 1 in backslashes
  }

  /** `parseNextString`: Kotlin finds the positions of all backslashes (`i`) and all
      quotes (`i2`), opens at the first quote (`i2[0]` throws when there is none) and
      closes at the first later quote not preceded by a backslash (`first()` throws
      when there is none).  What this yields is stated by QuoteScan.ParseNextStringSpec. */
  function ParseNextString(p: HeaderParser): Result<HeaderParser, ParseError> {
    var s := p.rest;
    var i := IndexesOf(s, '\\');
    var i2 := IndexesOf(s, '"');
    if |i2| == 0 then
      Failure(IndexOutOfBounds)
    else
      var i3 := Lists.DropWhile(i2[1..], PrecededByOneOf(i));
      if |i3| == 0 then
        Failure(NoSuchElement)
      else
        var start, close := i2[0], i3[0];
        assert close == i2[|i2| - |i3|];
        IndexesOfOrder(s, '"', 0, |i2| - |i3|);
        Success(HeaderParser(s[close + 1..], p.list + [s[start + 1..close]]))
  }

  /** `parseNoString`: the trimmed text before the first comma becomes a field, and the
      scan goes on at that comma (`split(",")[0]` and `dropWhile { it != ',' }`). */
  function ParseNoString(p: HeaderParser): (r: HeaderParser)
    ensures |r.rest| <= |p.rest| && p.rest == p.rest[..|p.rest| - |r.rest|] + r.rest
    ensures r.rest == [] || r.rest[0] == ','
    ensures forall k :: 0 <= k < |p.rest| - |r.rest| ==> p.rest[k] != ','
    ensures r.list == p.list + [Trim(p.rest[..|p.rest| - |r.rest|])]
  {
    var n := Lists.CountWhile(p.rest, IsNot(','));
    SplitHead(p.rest, ',');
    var next := Trim(Split(p.rest, ',')[0]);
    var rest := Lists.DropWhile(p.rest, IsNot(','));
    assert rest == p.rest[n..] && |rest| == |p.rest| - n;
    assert p.rest == p.rest[..n] + rest;
    HeaderParser(rest, p.list + [next])
  }

  /** `removeComma`: the trimmed rest must start with a comma, which is dropped. */
  function RemoveComma(p: HeaderParser): (r: Result<HeaderParser, ParseError>)
    ensures r.Success? ==> r.value.list == p.list
  {
    var t := Trim(p.rest);
    if |t| == 0 then Failure(NoSuchElement)
    else if t[0] != ',' then Failure(ImpossibleValue(t[0], p.rest))
    else Success(HeaderParser(t[1..], p.list))
  }

  /** `takeAll`: the trimmed rest, without its first "json = ", is the last field. */
  function TakeAll(p: HeaderParser): (r: HeaderParser)
    ensures r.rest == [] && |r.list| == |p.list| + 1 && r.list[..|p.list|] == p.list
    ensures var t := Trim(p.rest);
      (forall k :: 0 <= k <= |t| ==> !OccursAt(t, "json = ", k)) ==> r.list[|p.list|] == t
    ensures var t := Trim(p.rest);
      forall k: nat :: OccursAt(t, "json = ", k) && (forall j :: 0 <= j < k ==> !OccursAt(t, "json = ", j)) ==>
        r.list[|p.list|] == t[..k] + t[k + 7..]
    ensures var t := Trim(p.rest);
      OccursAt(t, "json = ", 0) ==> r.list[|p.list|] == t[7..]
  {
    ReplaceFirstCases(Trim(p.rest), "json = ", "");
    var q := HeaderParser("", p.list + [ReplaceFirst(Trim(p.rest), "json = ", "")]);
    assert q.list[..|p.list|] == p.list;
    q
  }

  function Quoted(s: string): string {
    "\"" + s + "\""
  }

  /** A field that survives quoting: every quote in it has a backslash right before
      it, and it does not end in a backslash (that backslash would escape the closing
      quote).  ParseSteps.QuotedFieldBack shows that exactly these fields come back. */
  predicate Quotable(f: string) {
    && (forall k :: 0 <= k < |f| && f[k] == '"' ==> k > 0 && f[k - 1] == '\\')
    && (f == [] || f[|f| - 1] != '\\')
  }

  predicate AllBlank(w: string) {
    forall i :: 0 <= i < |w| ==> IsWhitespace(w[i])
  }

  // ---------------------------------------------------------------------------
  // The two shapes of step in a parse chain

  /** `parseNextString().removeComma()`: a quoted field and the comma after it. */
  function QuotedField(p: HeaderParser): (r: Result<HeaderParser, ParseError>)
    ensures r.Success? ==> |r.value.list| == |p.list| + 1 && r.value.list[..|p.list|] == p.list
  {
    var q :- ParseNextString(p);
    RemoveComma(q)
  }

  /** `parseNoString().removeComma()`: a bare field and the comma after it. */
  function BareField(p: HeaderParser): (r: Result<HeaderParser, ParseError>)
    ensures r.Success? ==> |r.value.list| == |p.list| + 1 && r.value.list[..|p.list|] == p.list
  {
    RemoveComma(ParseNoString(p))
  }

  /** Kotlin's `toNull`: the text "null" stands for an absent value. */
  function ToNull(s: string): (r: Option<string>)
    ensures r.None? <==> s == "null"
    ensures r.Some? ==> r.value == s
  {
    if s == "null" then None else Some(s)
  }
}
