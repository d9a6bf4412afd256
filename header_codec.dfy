/** The six-field envelope EBMessageHeader2 of the request/response protocol. */
module HeaderCodec {
  import opened Wrappers
  import opened Exceptions
  import opened Text
  import opened HeaderParsing
  import opened ParseSteps

  datatype EBMessageHeader2 = EBMessageHeader2(
    header: string,
    body: string,
    errorMessage: Option<string>,
    isResponse: bool,
    responseId: Option<string>,
    json: string)

  /** `serialize`: the text
      `["header", "body", "errorMessage", isResponse, "responseId", json = json]`,
      with an absent value shown as null; written with the parts after each comma
      grouped, as the parse chain takes them. */
  function Serialize(e: EBMessageHeader2): string {
    "[" + (Quoted(e.header) + "," + Tail1(e)) + "]"
  }

  function Tail1(e: EBMessageHeader2): string {
    " " + Quoted(e.body) + "," + Tail2(e)
  }

  function Tail2(e: EBMessageHeader2): string {
    " " + Quoted(ShowNullable(e.errorMessage)) + "," + Tail3(e)
  }

  function Tail3(e: EBMessageHeader2): string {
    " " + ShowBool(e.isResponse) + "," + Tail4(e)
  }

  function Tail4(e: EBMessageHeader2): string {
    " " + Quoted(ShowNullable(e.responseId)) + "," + Tail5(e)
  }

  function Tail5(e: EBMessageHeader2): string {
    " json = " + e.json
  }

  /** The fields `parse` scans, in order: three quoted, one bare, one quoted, then
      the payload. */
  function Fields(s: string): (r: Result<seq<string>, ParseError>)
    ensures r.Success? ==> |r.value| == 6
  {
    var p0 :- HeaderParsed(s);
    var p1 :- QuotedField(p0);
    assert |p1.list| == 1;
    var p2 :- QuotedField(p1);
    assert |p2.list| == 2;
    var p3 :- QuotedField(p2);
    assert |p3.list| == 3;
    var p4 :- BareField(p3);
    assert |p4.list| == 4;
    var p5 :- QuotedField(p4);
    assert |p5.list| == 5;
    Success(TakeAll(p5).list)
  }

  function FromFields(list: seq<string>): (e: EBMessageHeader2)
    requires |list| == 6
    ensures e.header == list[0] && e.body == list[1] && e.json == list[5]
    ensures e.errorMessage.None? <==> list[2] == "null"
    ensures e.errorMessage.Some? ==> e.errorMessage.value == list[2]
    ensures e.responseId.None? <==> list[4] == "null"
    ensures e.responseId.Some? ==> e.responseId.value == list[4]
    ensures e.isResponse <==> ToBoolean(list[3])
  {
    EBMessageHeader2(list[0], list[1], ToNull(list[2]), ToBoolean(list[3]), ToNull(list[4]), list[5])
  }

  function Parse(s: string): Result<EBMessageHeader2, ParseError> {
    var list :- Fields(s);
    Success(FromFields(list))
  }

  predicate Representable(e: EBMessageHeader2) {
    Quotable(e.header) && Quotable(e.body)
    && NullableQuotable(e.errorMessage) && NullableQuotable(e.responseId)
  }

  /** Parsing a serialised envelope gives the envelope back, except for the payload,
      which comes back as ReceivedPayload describes. */
  lemma ParseSerializeAny(e: EBMessageHeader2)
    requires Representable(e)
    ensures Parse(Serialize(e)) == Success(e.(json := ReceivedPayload(e.json)))
  {
    var list := ShownFields(e);
    BracketStep(e);
    HeaderStep(e);
    BodyStep(e);
    ErrorStep(e);
    FlagStep(e);
    ResponseIdStep(e);
    PayloadStep(e);
    FieldsChain(Serialize(e), Parser0(e), Parser1(e), Parser2(e), Parser3(e), Parser4(e), Parser5(e), list);
    ParseOf(Serialize(e), list);
    NullableShown(e.errorMessage);
    NullableShown(e.responseId);
    BoolShown(e.isResponse);
    ShownFieldsAt(e, list);
    FromFieldsShown(e, list);
  }

  /** The parser states the chain goes through on a serialised envelope, each with
      one more field taken. */
  function Parser0(e: EBMessageHeader2): HeaderParser {
    HeaderParser(Quoted(e.header) + "," + Tail1(e), [])
  }

  function Parser1(e: EBMessageHeader2): HeaderParser {
    HeaderParser(TrimEnd(Tail1(e)), Parser0(e).list + [e.header])
  }

  function Parser2(e: EBMessageHeader2): HeaderParser {
    HeaderParser(TrimEnd(Tail2(e)), Parser1(e).list + [e.body])
  }

  function Parser3(e: EBMessageHeader2): HeaderParser {
    HeaderParser(TrimEnd(Tail3(e)), Parser2(e).list + [ShowNullable(e.errorMessage)])
  }

  function Parser4(e: EBMessageHeader2): HeaderParser {
    HeaderParser(TrimEnd(Tail4(e)), Parser3(e).list + [ShowBool(e.isResponse)])
  }

  function Parser5(e: EBMessageHeader2): HeaderParser {
    HeaderParser(TrimEnd(Tail5(e)), Parser4(e).list + [ShowNullable(e.responseId)])
  }

  /** The fields a serialised envelope is made of, with the payload as it comes back. */
  function ShownFields(e: EBMessageHeader2): seq<string> {
    Parser5(e).list + [ReceivedPayload(e.json)]
  }

  lemma BracketStep(e: EBMessageHeader2)
    ensures HeaderParsed(Serialize(e)) == Success(Parser0(e))
  {
    HeaderParsedBracketed(Serialize(e), Parser0(e).rest);
  }

  lemma HeaderStep(e: EBMessageHeader2)
    requires Representable(e)
    ensures QuotedField(Parser0(e)) == Success(Parser1(e))
  {
    QuotedFieldStep(Parser0(e).rest, "", e.header, Tail1(e), Parser0(e).list);
  }

  lemma BodyStep(e: EBMessageHeader2)
    requires Representable(e)
    ensures QuotedField(Parser1(e)) == Success(Parser2(e))
  {
    QuotedFieldTrimmedStep(Parser1(e).rest, " ", e.body, Tail2(e), Parser1(e).list);
  }

  lemma ErrorStep(e: EBMessageHeader2)
    requires Representable(e)
    ensures QuotedField(Parser2(e)) == Success(Parser3(e))
  {
    NullableShown(e.errorMessage);
    QuotedFieldTrimmedStep(Parser2(e).rest, " ", ShowNullable(e.errorMessage), Tail3(e), Parser2(e).list);
  }

  lemma FlagStep(e: EBMessageHeader2)
    ensures BareField(Parser3(e)) == Success(Parser4(e))
  {
    BoolShown(e.isResponse);
    BareFieldTrimmedStep(Parser3(e).rest, " " + ShowBool(e.isResponse), Tail4(e), Parser3(e).list);
  }

  lemma ResponseIdStep(e: EBMessageHeader2)
    requires Representable(e)
    ensures QuotedField(Parser4(e)) == Success(Parser5(e))
  {
    NullableShown(e.responseId);
    QuotedFieldTrimmedStep(Parser4(e).rest, " ", ShowNullable(e.responseId), Tail5(e), Parser4(e).list);
  }

  lemma PayloadStep(e: EBMessageHeader2)
    ensures TakeAll(Parser5(e)) == HeaderParser("", ShownFields(e))
  {
    TakeAllTrimmed(Parser5(e).rest, e.json, Parser5(e).list);
  }

  /** The chain of steps `parse` takes, one result after another. */
  lemma FieldsChain(s: string, p0: HeaderParser, p1: HeaderParser, p2: HeaderParser,
                    p3: HeaderParser, p4: HeaderParser, p5: HeaderParser, list: seq<string>)
    requires HeaderParsed(s) == Success(p0)
    requires QuotedField(p0) == Success(p1) && QuotedField(p1) == Success(p2)
    requires QuotedField(p2) == Success(p3) && BareField(p3) == Success(p4)
    requires QuotedField(p4) == Success(p5) && TakeAll(p5) == HeaderParser("", list)
    ensures Fields(s) == Success(list)
  {
  }

  lemma ParseOf(s: string, list: seq<string>)
    requires Fields(s) == Success(list)
    ensures |list| == 6 && Parse(s) == Success(FromFields(list))
  {
  }

  /** The fields of a serialised envelope make the envelope again. */
  lemma FromFieldsShown(e: EBMessageHeader2, list: seq<string>)
    requires ToNull(ShowNullable(e.errorMessage)) == e.errorMessage
    requires ToNull(ShowNullable(e.responseId)) == e.responseId
    requires ToBoolean(ShowBool(e.isResponse)) == e.isResponse
    requires |list| == 6 && list[0] == e.header && list[1] == e.body
    requires list[2] == ShowNullable(e.errorMessage) && list[3] == ShowBool(e.isResponse)
    requires list[4] == ShowNullable(e.responseId) && list[5] == ReceivedPayload(e.json)
    ensures FromFields(list) == e.(json := ReceivedPayload(e.json))
  {
  }

  lemma ShownFieldsAt(e: EBMessageHeader2, list: seq<string>)
    requires list == ShownFields(e)
    ensures |list| == 6 && list[0] == e.header && list[1] == e.body
    ensures list[2] == ShowNullable(e.errorMessage) && list[3] == ShowBool(e.isResponse)
    ensures list[4] == ShowNullable(e.responseId) && list[5] == ReceivedPayload(e.json)
  {
  }

  /** The round trip: a representable envelope whose payload does not end in a blank
      comes back unchanged, whether it is a request or a response. */
  lemma ParseSerialize(e: EBMessageHeader2)
    requires Representable(e)
    requires e.json != [] && !IsWhitespace(e.json[|e.json| - 1])
    ensures Parse(Serialize(e)) == Success(e)
  {
    ParseSerializeAny(e);
    ExactPayloadBack(e);
  }

  lemma ExactPayloadBack(e: EBMessageHeader2)
    requires e.json != [] && !IsWhitespace(e.json[|e.json| - 1])
    requires Parse(Serialize(e)) == Success(e.(json := ReceivedPayload(e.json)))
    ensures Parse(Serialize(e)) == Success(e)
  {
    ReceivedPayloadExact(e.json);
  }

  /** An envelope with an empty payload, as every error envelope has, comes back with
      the payload "json =". */
  lemma ParseSerializeEmptyPayload(e: EBMessageHeader2)
    requires Representable(e) && e.json == ""
    ensures Parse(Serialize(e)) == Success(e.(json := "json ="))
  {
    ParseSerializeAny(e);
    ReceivedPayloadBlank(e.json);
  }

  /** Kotlin's data-class `toString`, used in log and error texts. */
  function ToString(e: EBMessageHeader2): string {
    "EBMessageHeader2(header=" + e.header + ", body=" + e.body
    + ", errorMessage=" + ShowNullable(e.errorMessage) + ", isResponse=" + ShowBool(e.isResponse)
    + ", responseId=" + ShowNullable(e.responseId) + ", json=" + e.json + ")"
  }
}
