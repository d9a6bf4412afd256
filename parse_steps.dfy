/** What the parser's steps do to the texts the envelopes are made of: each lemma
    takes one step of a parse chain on a text of a known shape. */
module ParseSteps {
  import opened Wrappers
  import opened Exceptions
  import opened Text
  import opened HeaderParsing
  import opened QuoteScan
  import Lists

  /** Leading blanks before a non-blank character are what `trimStart` removes. */
  lemma TrimStartAfterBlanks(w: string, t: string)
    requires AllBlank(w) && t != [] && !IsWhitespace(t[0])
    ensures TrimStart(w + t) == t
  {
    var s := w + t;
    var n := Lists.CountWhile(s, IsWhitespace);
    assert s[|w|] == t[0];
    assert n == |w|;
    assert s[n..] == t;
  }

  /** A text that starts with a comma keeps it when its end is trimmed. */
  lemma CommaLed(u: string)
    ensures TrimEnd("," + u) == "," + TrimEnd(u)
    ensures TrimEnd("," + u) != [] && TrimEnd("," + u)[0] == ','
  {
    TrimEndAppend(",", u);
  }

  /** removeComma after blanks and a comma: the comma goes, and the end is trimmed. */
  lemma RemoveCommaAfterBlanks(w: string, t: string, l: seq<string>)
    requires AllBlank(w)
    ensures RemoveComma(HeaderParser(w + "," + t, l)) == Success(HeaderParser(TrimEnd(t), l))
  {
    assert w + "," + t == w + ("," + t);
    TrimStartAfterBlanks(w, "," + t);
    CommaLed(t);
  }

  /** removeComma when the first non-blank character is not a comma. */
  lemma RemoveCommaRejects(w: string, c: char, t: string, l: seq<string>)
    requires AllBlank(w) && !IsWhitespace(c) && c != ','
    ensures RemoveComma(HeaderParser(w + [c] + t, l)) == Failure(ImpossibleValue(c, w + [c] + t))
  {
    assert w + [c] + t == w + ([c] + t);
    TrimStartAfterBlanks(w, [c] + t);
    TrimEndAppend([c], t);
  }

  /** removeComma on a blank rest: `first()` of the empty trimmed text. */
  lemma RemoveCommaBlank(rest: string, l: seq<string>)
    requires AllBlank(rest)
    ensures RemoveComma(HeaderParser(rest, l)) == Failure(NoSuchElement)
  {
  }

  /** parseNextString on a quoted field, with the text `s` named to keep the
      concatenation out of the scanner's unfolding. */
  lemma ParseNextStringQuoted(s: string, pre: string, f: string, t: string, l: seq<string>)
    requires '"' !in pre && Quotable(f) && s == pre + Quoted(f) + t
    ensures ParseNextString(HeaderParser(s, l)) == Success(HeaderParser(t, l + [f]))
  {
    var a, b := |pre|, |pre| + |f| + 1;
    QuotedLayout(s, pre, f, t, a, b);
    ParseNextStringAt(s, a, b, l);
    StepIs(ParseNextString(HeaderParser(s, l)), t, l + [f]);
  }

  /** A quoted field comes back as itself, with the scan going on right after its
      closing quote, exactly when it is Quotable.  A field with a quote no backslash
      precedes is cut there; one ending in a backslash runs on past its closing quote. */
  lemma QuotedFieldBack(f: string, t: string, l: seq<string>)
    ensures ParseNextString(HeaderParser(Quoted(f) + t, l)) == Success(HeaderParser(t, l + [f]))
        <==> Quotable(f)
  {
    var s := Quoted(f) + t;
    var p := HeaderParser(s, l);
    ParseNextStringSpec(p);
    if Quotable(f) {
      assert s == [] + Quoted(f) + t;
      ParseNextStringQuoted(s, [], f, t, l);
    } else if FirstQuotedField(p) == Success(HeaderParser(t, l + [f])) {
      QuotedFieldBackOnlyIf(f, t, l);
    }
  }

  /** The field comes back only if it is Quotable: the closing quote must be the one
      right after it, so every quote inside the field is escaped and its last character
      is not a backslash. */
  lemma QuotedFieldBackOnlyIf(f: string, t: string, l: seq<string>)
    requires FirstQuotedField(HeaderParser(Quoted(f) + t, l)) == Success(HeaderParser(t, l + [f]))
    ensures Quotable(f)
  {
    var s := Quoted(f) + t;
    var p := HeaderParser(s, l);
    assert s[0] == '"';
    assert Lists.FindFirst(s, Is('"')) == Some(0);
    assert NextUnescapedQuote(s, 1).Some?;
    var close := NextUnescapedQuote(s, 1).value;
    assert FirstQuotedField(p).value.list == l + [s[1..close]];
    assert (l + [s[1..close]])[|l|] == (l + [f])[|l|];
    assert close == |f| + 1;
    assert forall k :: 0 <= k < |f| ==> s[k + 1] == f[k];
    forall k | 0 <= k < |f| && f[k] == '"' ensures k > 0 && f[k - 1] == '\\' {
      assert !UnescapedQuote(s, k + 1);
    }
    assert UnescapedQuote(s, close);
  }

  /** A quoted field followed by a comma: the field is taken, and the scan goes on
      after the comma with the end trimmed. */
  lemma QuotedFieldStep(s: string, pre: string, f: string, u: string, l: seq<string>)
    requires '"' !in pre && Quotable(f) && s == pre + Quoted(f) + "," + u
    ensures QuotedField(HeaderParser(s, l)) == Success(HeaderParser(TrimEnd(u), l + [f]))
  {
    var t := "," + u;
    assert s == pre + Quoted(f) + t;
    ParseNextStringQuoted(s, pre, f, t, l);
    QuotedFieldThen(HeaderParser(s, l), HeaderParser(t, l + [f]));
    RemoveCommaLed(t, u, l + [f]);
  }

  /** The comma step after a successful parseNextString. */
  lemma QuotedFieldThen(p: HeaderParser, q: HeaderParser)
    requires ParseNextString(p) == Success(q)
    ensures QuotedField(p) == RemoveComma(q)
  {
  }

  /** removeComma on a text that starts with the comma. */
  lemma RemoveCommaLed(t: string, u: string, l: seq<string>)
    requires t == "," + u
    ensures RemoveComma(HeaderParser(t, l)) == Success(HeaderParser(TrimEnd(u), l))
  {
    CommaLed(u);
    assert TrimStable("," + TrimEnd(u));
    TrimFromNonBlank(t);
  }

  /** The same step on a text whose end has been trimmed. */
  lemma QuotedFieldTrimmedStep(s: string, pre: string, f: string, u: string, l: seq<string>)
    requires '"' !in pre && Quotable(f) && s == TrimEnd(pre + Quoted(f) + "," + u)
    ensures QuotedField(HeaderParser(s, l)) == Success(HeaderParser(TrimEnd(u), l + [f]))
  {
    CommaLed(u);
    assert pre + Quoted(f) + "," + u == (pre + Quoted(f)) + ("," + u);
    TrimEndAppend(pre + Quoted(f), "," + u);
    assert s == pre + Quoted(f) + "," + TrimEnd(u);
    QuotedFieldStep(s, pre, f, TrimEnd(u), l);
    TrimEndIdempotent(u);
  }

  /** A bare field followed by a comma, on a text whose end has been trimmed. */
  lemma BareFieldTrimmedStep(s: string, w: string, u: string, l: seq<string>)
    requires ',' !in w && s == TrimEnd(w + "," + u)
    ensures BareField(HeaderParser(s, l)) == Success(HeaderParser(TrimEnd(u), l + [Trim(w)]))
  {
    CommaLed(u);
    var tail := "," + TrimEnd(u);
    assert w + "," + u == w + ("," + u);
    TrimEndAppend(w, "," + u);
    BareFieldStep(s, w, tail, TrimEnd(u), l);
    TrimEndIdempotent(u);
  }

  /** A bare field followed by a comma: the text before the comma is taken, trimmed,
      and the scan goes on after the comma with the end trimmed. */
  lemma BareFieldStep(s: string, w: string, tail: string, v: string, l: seq<string>)
    requires ',' !in w && tail == "," + v && s == w + tail
    ensures BareField(HeaderParser(s, l)) == Success(HeaderParser(TrimEnd(v), l + [Trim(w)]))
  {
    BareFieldCut(s, w, tail, l);
    RemoveCommaLed(tail, v, l + [Trim(w)]);
  }

  /** parseNoString cuts at the first comma, the one after `w`. */
  lemma BareFieldCut(s: string, w: string, tail: string, l: seq<string>)
    requires ',' !in w && tail != [] && tail[0] == ',' && s == w + tail
    ensures ParseNoString(HeaderParser(s, l)) == HeaderParser(tail, l + [Trim(w)])
  {
    var r := ParseNoString(HeaderParser(s, l));
    var k := |s| - |r.rest|;
    assert s[|w|] == ',';
    assert forall j :: 0 <= j < |w| ==> s[j] == w[j];
    assert k == |w|;
    assert s[..k] == w;
    assert r.rest == s[k..] == tail;
  }

  /** How the payload comes back: `takeAll` sees the rest with its end trimmed. */
  function ReceivedPayload(x: string): string {
    ReplaceFirst("json =" + TrimEnd(" " + x), "json = ", "")
  }

  lemma TakeAllTrimmed(s: string, x: string, l: seq<string>)
    requires s == TrimEnd(" json = " + x)
    ensures TakeAll(HeaderParser(s, l)) == HeaderParser("", l + [ReceivedPayload(x)])
  {
    TrimJsonTail(x);
  }

  lemma TrimJsonTail(x: string)
    ensures Trim(TrimEnd(" json = " + x)) == "json =" + TrimEnd(" " + x)
  {
    var z := TrimEnd(" " + x);
    assert " json = " + x == " json =" + (" " + x);
    TrimEndAppend(" json =", " " + x);
    assert " json =" + z == " " + ("json =" + z);
    TrimStartAfterBlanks(" ", "json =" + z);
    TrimEndIdempotent(" " + x);
    TrimEndAppend("json =", z);
  }

  /** A payload that does not end in a blank comes back as it is. */
  lemma ReceivedPayloadExact(x: string)
    requires x != [] && !IsWhitespace(x[|x| - 1])
    ensures ReceivedPayload(x) == x
  {
    assert TrailingBlanks(x) == 0;
    assert TrimEnd(x) == x;
    TrimEndAppend(" ", x);
    assert "json =" + (" " + x) == "json = " + x;
    ReplaceFirstAtStart("json = ", x);
  }

  /** A blank payload comes back as the text "json =": the blank after "json =" is
      trimmed away before "json = " is searched for. */
  lemma ReceivedPayloadBlank(x: string)
    requires AllBlank(x)
    ensures ReceivedPayload(x) == "json ="
  {
    assert TrimEnd(" " + x) == [] by {
      assert AllBlank(" " + x);
    }
    ReplaceFirstAbsent("json =", "json = ");
  }

  /** In general a payload comes back with its trailing blanks removed, and a blank
      payload as "json =". */
  lemma ReceivedPayloadValue(x: string)
    ensures ReceivedPayload(x) == if TrimEnd(x) == [] then "json =" else TrimEnd(x)
  {
    if TrimEnd(x) == [] {
      assert TrimEnd(" " + x) == [];
      ReplaceFirstAbsent("json =", "json = ");
    } else {
      TrimEndAppend(" ", x);
      assert "json =" + (" " + TrimEnd(x)) == "json = " + TrimEnd(x);
      ReplaceFirstAtStart("json = ", TrimEnd(x));
    }
  }

  /** The brackets of a serialised envelope are what headerParsed cuts off. */
  lemma HeaderParsedBracketed(s: string, inner: string)
    requires s == "[" + inner + "]"
    ensures HeaderParsed(s) == Success(HeaderParser(inner, []))
  {
    assert TrimStable(s);
    TrimOfStable(s);
    assert s[1..|s| - 1] == inner;
  }

  /** A nullable field that survives: absent, or quotable and not the text "null". */
  predicate NullableQuotable(o: Option<string>) {
    o.Some? ==> Quotable(o.value) && o.value != "null"
  }

  lemma NullableShown(o: Option<string>)
    requires NullableQuotable(o)
    ensures Quotable(ShowNullable(o))
    ensures ToNull(ShowNullable(o)) == o
  {
  }

  lemma BoolShown(b: bool)
    ensures Trim(" " + ShowBool(b)) == ShowBool(b)
    ensures ToBoolean(ShowBool(b)) == b
    ensures ',' !in " " + ShowBool(b)
  {
    BoolTrimmed(ShowBool(b));
  }

  lemma BoolTrimmed(t: string)
    requires t == "true" || t == "false"
    ensures Trim(" " + t) == t
  {
    TrimStartAfterBlanks(" ", t);
    assert TrailingBlanks(t) == 0;
  }
}
