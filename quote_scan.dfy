/** parseNextString, which works on the lists of quote and backslash positions, is
    the scanner FirstQuotedField describes; and what it does to a quoted field. */
module QuoteScan {
  import opened Wrappers
  import opened Exceptions
  import opened Text
  import Lists
  import opened HeaderParsing

  /** parseNextString takes the text between the first quote and the next quote that
      is not preceded by a backslash, and fails when either is missing. */
  lemma ParseNextStringSpec(p: HeaderParser)
    ensures ParseNextString(p) == FirstQuotedField(p)
  {
    var s := p.rest;
    var i := IndexesOf(s, '\\');
    var i2 := IndexesOf(s, '"');
    if |i2| == 0 {
      NoQuoteAtAll(s, i2);
    } else {
      FirstQuoteAt(s, i2);
      var i3 := Lists.DropWhile(i2[1..], PrecededByOneOf(i));
      if i3 == [] {
        AllLaterEscaped(s, i, i2);
      } else {
        Closed(p, i, i2, i3);
      }
    }
  }

  /** Two successful steps with the same outcome are equal. */
  lemma SameStep(r1: Result<HeaderParser, ParseError>, r2: Result<HeaderParser, ParseError>)
    requires r1.Success? && r2.Success?
    requires r1.value.rest == r2.value.rest && r1.value.list == r2.value.list
    ensures r1 == r2
  {
  }

  /** A successful step with a known outcome. */
  lemma StepIs(r: Result<HeaderParser, ParseError>, rest: string, list: seq<string>)
    requires r.Success? && r.value.rest == rest && r.value.list == list
    ensures r == Success(HeaderParser(rest, list))
  {
  }

  lemma Closed(p: HeaderParser, i: seq<nat>, i2: seq<nat>, i3: seq<nat>)
    requires i == IndexesOf(p.rest, '\\') && i2 == IndexesOf(p.rest, '"') && |i2| > 0
    requires Lists.FindFirst(p.rest, Is('"')) == Some(i2[0])
    requires i3 == Lists.DropWhile(i2[1..], PrecededByOneOf(i)) && i3 != []
    ensures ParseNextString(p) == FirstQuotedField(p)
  {
    ClosesAt(p.rest, i, i2, i3, |i2| - |i3|);
    ClosedValue(p, i, i2, i3);
    ClosedField(p, i, i2, i3);
    FirstQuotedFieldValue(p, i2[0], i3[0]);
    SameStep(ParseNextString(p), FirstQuotedField(p));
  }

  /** What parseNextString yields when it finds a closing quote: the scan goes on
      after it ... */
  lemma ClosedValue(p: HeaderParser, i: seq<nat>, i2: seq<nat>, i3: seq<nat>)
    requires i == IndexesOf(p.rest, '\\') && i2 == IndexesOf(p.rest, '"') && |i2| > 0
    requires i3 == Lists.DropWhile(i2[1..], PrecededByOneOf(i)) && i3 != []
    requires i2[0] < i3[0] < |p.rest|
    ensures ParseNextString(p).Success?
    ensures ParseNextString(p).value.rest == p.rest[i3[0] + 1..]
  {
  }

  /** ... and the text between the quotes is the new field. */
  lemma ClosedField(p: HeaderParser, i: seq<nat>, i2: seq<nat>, i3: seq<nat>)
    requires i == IndexesOf(p.rest, '\\') && i2 == IndexesOf(p.rest, '"') && |i2| > 0
    requires i3 == Lists.DropWhile(i2[1..], PrecededByOneOf(i)) && i3 != []
    requires i2[0] < i3[0] < |p.rest|
    ensures ParseNextString(p).Success?
    ensures ParseNextString(p).value.list == p.list + [p.rest[i2[0] + 1..i3[0]]]
  {
  }

  /** What FirstQuotedField yields for an opening quote at `a` closed at `b`. */
  lemma FirstQuotedFieldValue(p: HeaderParser, a: nat, b: nat)
    requires Lists.FindFirst(p.rest, Is('"')) == Some(a) && a < b < |p.rest|
    requires NextUnescapedQuote(p.rest, a + 1) == Some(b)
    ensures FirstQuotedField(p).Success?
    ensures FirstQuotedField(p).value.rest == p.rest[b + 1..]
    ensures FirstQuotedField(p).value.list == p.list + [p.rest[a + 1..b]]
  {
  }

  /** `PrecededByOneOf(i)`, with `i` the backslash positions, is `Escaped`. */
  lemma EscapedIff(s: string, i: seq<nat>, k: nat)
    requires i == IndexesOf(s, '\\') && k < |s|
    ensures PrecededByOneOf(i)(k) <==> Escaped(s, k)
  {
    if k > 0 && s[k - 1] == '\\' {
      IndexesOfComplete(s, '\\', k - 1);
    }
  }

  /** The place of a quote in the list of quote positions. */
  lemma QuoteRank(s: string, i2: seq<nat>, k: nat) returns (m: nat)
    requires i2 == IndexesOf(s, '"') && k < |s| && s[k] == '"'
    ensures m < |i2| && i2[m] == k
  {
    IndexesOfComplete(s, '"', k);
    m :| 0 <= m < |i2| && i2[m] == k;
  }

  lemma NoQuoteAtAll(s: string, i2: seq<nat>)
    requires i2 == IndexesOf(s, '"') && |i2| == 0
    ensures Lists.FindFirst(s, Is('"')) == None
  {
    forall k | 0 <= k < |s| ensures !Is('"')(s[k]) {
      if s[k] == '"' {
        IndexesOfComplete(s, '"', k);
      }
    }
  }

  /** The head of the quote positions is the first quote. */
  lemma FirstQuoteAt(s: string, i2: seq<nat>)
    requires i2 == IndexesOf(s, '"') && |i2| > 0
    ensures Lists.FindFirst(s, Is('"')) == Some(i2[0])
  {
    assert Is('"')(s[i2[0]]);
    forall k | 0 <= k < i2[0] ensures !Is('"')(s[k]) {
      if s[k] == '"' {
        var m := QuoteRank(s, i2, k);
        if m > 0 {
          IndexesOfOrder(s, '"', 0, m);
        }
      }
    }
  }

  /** When `i3` is empty, every quote after the first is escaped. */
  lemma AllLaterEscaped(s: string, i: seq<nat>, i2: seq<nat>)
    requires i == IndexesOf(s, '\\') && i2 == IndexesOf(s, '"') && |i2| > 0
    requires Lists.DropWhile(i2[1..], PrecededByOneOf(i)) == []
    ensures NextUnescapedQuote(s, i2[0] + 1) == None
  {
    forall b | i2[0] + 1 <= b < |s| ensures !UnescapedQuote(s, b) {
      if s[b] == '"' {
        var mb := QuoteRank(s, i2, b);
        assert PrecededByOneOf(i)(i2[1..][mb - 1]);
        EscapedIff(s, i, b);
      }
    }
  }

  /** When `i3` is not empty, its head is the quote `i2[d]`, the first unescaped
      quote after `i2[0]`. */
  lemma ClosesAt(s: string, i: seq<nat>, i2: seq<nat>, i3: seq<nat>, d: int)
    requires i == IndexesOf(s, '\\') && i2 == IndexesOf(s, '"') && |i2| > 0
    requires i3 == Lists.DropWhile(i2[1..], PrecededByOneOf(i)) && i3 != []
    requires d == |i2| - |i3|
    ensures i2[0] < i3[0] < |s| && NextUnescapedQuote(s, i2[0] + 1) == Some(i3[0])
  {
    var later := i2[1..];
    assert 0 < d < |i2| && i3[0] == later[d - 1] == i2[d];
    assert forall j :: 0 <= j < d - 1 ==> PrecededByOneOf(i)(later[j]);
    IndexesOfOrder(s, '"', 0, d);
    EscapedIff(s, i, i2[d]);
    forall k | i2[0] < k < i2[d] ensures !UnescapedQuote(s, k) {
      EscapedBetween(s, i, i2, later, d, k);
    }
    NextUnescapedQuoteIs(s, i2[0] + 1, i2[d]);
  }

  /** A quote strictly between `i2[0]` and `i2[d]` is one of `i2[1..d]`, which are all
      escaped. */
  lemma EscapedBetween(s: string, i: seq<nat>, i2: seq<nat>, later: seq<nat>, d: nat, k: nat)
    requires i == IndexesOf(s, '\\') && i2 == IndexesOf(s, '"') && 0 < d < |i2| && later == i2[1..]
    requires forall j :: 0 <= j < d - 1 ==> PrecededByOneOf(i)(later[j])
    requires i2[0] < k < i2[d]
    ensures !UnescapedQuote(s, k)
  {
    if s[k] == '"' {
      var m := QuoteRank(s, i2, k);
      if m > d {
        IndexesOfOrder(s, '"', d, m);
      }
      assert 1 <= m < d;
      assert PrecededByOneOf(i)(later[m - 1]);
      EscapedIff(s, i, k);
    }
  }

  /** A quote that is not escaped, with every quote before it from `from` on
      escaped, is the one NextUnescapedQuote finds. */
  lemma NextUnescapedQuoteIs(s: string, from: nat, b: nat)
    requires from <= b < |s| && UnescapedQuote(s, b)
    requires forall k :: from <= k < b ==> !UnescapedQuote(s, k)
    ensures NextUnescapedQuote(s, from) == Some(b)
  {
  }

  /** parseNextString on a text whose first quote is at `a` and whose next unescaped
      quote is at `b`. */
  lemma ParseNextStringAt(s: string, a: nat, b: nat, l: seq<string>)
    requires a < b < |s| && s[a] == '"' && s[b] == '"' && !Escaped(s, b)
    requires forall k :: 0 <= k < a ==> s[k] != '"'
    requires forall k :: a < k < b ==> !UnescapedQuote(s, k)
    ensures ParseNextString(HeaderParser(s, l)).Success?
    ensures ParseNextString(HeaderParser(s, l)).value.rest == s[b + 1..]
    ensures ParseNextString(HeaderParser(s, l)).value.list == l + [s[a + 1..b]]
  {
    var p := HeaderParser(s, l);
    assert Is('"')(s[a]);
    assert forall k :: 0 <= k < a ==> !Is('"')(s[k]);
    NextUnescapedQuoteIs(s, a + 1, b);
    FirstQuotedFieldValue(p, a, b);
    ParseNextStringSpec(p);
  }

  /** Where the quotes of `pre + Quoted(f) + t` are: the opening one at `a`, the
      closing one at `b`. */
  lemma QuotedLayout(s: string, pre: string, f: string, t: string, a: nat, b: nat)
    requires '"' !in pre && Quotable(f) && s == pre + Quoted(f) + t
    requires a == |pre| && b == |pre| + |f| + 1
    ensures a < b < |s| && s[a] == '"' && s[b] == '"' && !Escaped(s, b)
    ensures forall k :: 0 <= k < a ==> s[k] != '"'
    ensures forall k :: a < k < b ==> !UnescapedQuote(s, k)
    ensures s[b + 1..] == t && s[a + 1..b] == f
  {
    assert s == pre + ['"'] + f + ['"'] + t;
    assert forall k :: 0 <= k < a ==> s[k] == pre[k];
    assert forall k :: a < k < b ==> s[k] == f[k - a - 1];
    forall k | a < k < b ensures !UnescapedQuote(s, k) {
      if s[k] == '"' {
        assert f[k - a - 1] == '"';
        assert s[k - 1] == f[k - a - 2];
      }
    }
    if f != [] {
      assert s[b - 1] == f[|f| - 1];
    }
    assert s[b + 1..] == t;
    assert s[a + 1..b] == f;
  }
}
