/** The seven-field envelope DoubleMessageHeader: a header tag, the serial names of
    the message's header and body types, an optional error text, the response flag,
    an optional correlation id and the payload.  It is written and read with the same
    scanner as EBMessageHeader2. */
module DoubleHeader {
  import opened Wrappers
  import opened Exceptions
  import opened Text
  import opened HeaderParsing
  import opened ParseSteps

  datatype DoubleMessageHeader = DoubleMessageHeader(
    header: string,
    headerSerializer: string,
    bodySerializer: string,
    errorMessage: Option<string>,
    isResponse: bool,
    responseId: Option<string>,
    message: string)

  /** The tag the six-argument constructor gives every envelope. */
  const DmhTag := "DMH"

  /** The six-argument constructor: the header tag is always "DMH", the other fields
      are the arguments in order. */
  function Make(headerSerializer: string, bodySerializer: string, errorMessage: Option<string>,
                isResponse: bool, responseId: Option<string>, message: string): (d: DoubleMessageHeader)
    ensures d.header == DmhTag
    ensures d.(header := DmhTag) == d
    ensures d.headerSerializer == headerSerializer && d.bodySerializer == bodySerializer
    ensures d.errorMessage == errorMessage && d.isResponse == isResponse
    ensures d.responseId == responseId && d.message == message
  {
    DoubleMessageHeader(DmhTag, headerSerializer, bodySerializer, errorMessage, isResponse, responseId, message)
  }

  /** `serialize`: the text
      `["header", "headerSerializer", "bodySerializer","errorMessage", isResponse, "responseId", json = message]`
      (no blank before the error field), with an absent value shown as null; written
      with the parts after each comma grouped, as the parse chain takes them. */
  function Serialize(d: DoubleMessageHeader): string {
    "[" + (Quoted(d.header) + "," + Tail1(d)) + "]"
  }

  function Tail1(d: DoubleMessageHeader): string {
    " " + Quoted(d.headerSerializer) + "," + Tail2(d)
  }

  function Tail2(d: DoubleMessageHeader): string {
    " " + Quoted(d.bodySerializer) + "," + Tail3(d)
  }

  function Tail3(d: DoubleMessageHeader): string {
    Quoted(ShowNullable(d.errorMessage)) + "," + Tail4(d)
  }

  function Tail4(d: DoubleMessageHeader): string {
    " " + ShowBool(d.isResponse) + "," + Tail5(d)
  }

  function Tail5(d: DoubleMessageHeader): string {
    " " + Quoted(ShowNullable(d.responseId)) + "," + Tail6(d)
  }

  function Tail6(d: DoubleMessageHeader): string {
    " json = " + d.message
  }

  /** The fields `parse` scans, in order: four quoted, one bare, one quoted, then the
      payload. */
  function Fields(s: string): (r: Result<seq<string>, ParseError>)
    ensures r.Success? ==> |r.value| == 7
  {
    var p0 :- HeaderParsed(s);
    var p1 :- QuotedField(p0);
    assert |p1.list| == 1;
    var p2 :- QuotedField(p1);
    assert |p2.list| == 2;
    var p3 :- QuotedField(p2);
    assert |p3.list| == 3;
    var p4 :- QuotedField(p3);
    assert |p4.list| == 4;
    var p5 :- BareField(p4);
    assert |p5.list| == 5;
    var p6 :- QuotedField(p5);
    assert |p6.list| == 6;
    Success(TakeAll(p6).list)
  }

  /** The primary constructor applied to the scanned fields: the tag is taken as read. */
  function FromFields(list: seq<string>): (d: DoubleMessageHeader)
    requires |list| == 7
    ensures d.header == list[0] && d.headerSerializer == list[1] && d.bodySerializer == list[2]
    ensures d.errorMessage.None? <==> list[3] == "null"
    ensures d.errorMessage.Some? ==> d.errorMessage.value == list[3]
    ensures d.isResponse <==> ToBoolean(list[4])
    ensures d.responseId.None? <==> list[5] == "null"
    ensures d.responseId.Some? ==> d.responseId.value == list[5]
    ensures d.message == list[6]
  {
    DoubleMessageHeader(list[0], list[1], list[2], ToNull(list[3]), ToBoolean(list[4]), ToNull(list[5]), list[6])
  }

  function Parse(s: string): Result<DoubleMessageHeader, ParseError> {
    var list :- Fields(s);
    Success(FromFields(list))
  }

  predicate Representable(d: DoubleMessageHeader) {
    Quotable(d.header) && Quotable(d.headerSerializer) && Quotable(d.bodySerializer)
    && NullableQuotable(d.errorMessage) && NullableQuotable(d.responseId)
  }

  /** `check`: both serial names match. */
  predicate Check(d: DoubleMessageHeader, headerSerialName: string, bodySerialName: string) {
    d.headerSerializer == headerSerialName && d.bodySerializer == bodySerialName
  }

  // ---------------------------------------------------------------------------
  // The round trip

  /** The parser states the chain goes through on a serialised envelope. */
  function Parser0(d: DoubleMessageHeader): HeaderParser {
    HeaderParser(Quoted(d.header) + "," + Tail1(d), [])
  }

  function Parser1(d: DoubleMessageHeader): HeaderParser {
    HeaderParser(TrimEnd(Tail1(d)), Parser0(d).list + [d.header])
  }

  function Parser2(d: DoubleMessageHeader): HeaderParser {
    HeaderParser(TrimEnd(Tail2(d)), Parser1(d).list + [d.headerSerializer])
  }

  function Parser3(d: DoubleMessageHeader): HeaderParser {
    HeaderParser(TrimEnd(Tail3(d)), Parser2(d).list + [d.bodySerializer])
  }

  function Parser4(d: DoubleMessageHeader): HeaderParser {
    HeaderParser(TrimEnd(Tail4(d)), Parser3(d).list + [ShowNullable(d.errorMessage)])
  }

  function Parser5(d: DoubleMessageHeader): HeaderParser {
    HeaderParser(TrimEnd(Tail5(d)), Parser4(d).list + [ShowBool(d.isResponse)])
  }

  function Parser6(d: DoubleMessageHeader): HeaderParser {
    HeaderParser(TrimEnd(Tail6(d)), Parser5(d).list + [ShowNullable(d.responseId)])
  }

  /** The fields a serialised envelope is made of, with the payload as it comes back. */
  function ShownFields(d: DoubleMessageHeader): seq<string> {
    Parser6(d).list + [ReceivedPayload(d.message)]
  }

  lemma BracketStep(d: DoubleMessageHeader)
    ensures HeaderParsed(Serialize(d)) == Success(Parser0(d))
  {
    HeaderParsedBracketed(Serialize(d), Parser0(d).rest);
  }

  lemma TagStep(d: DoubleMessageHeader)
    requires Representable(d)
    ensures QuotedField(Parser0(d)) == Success(Parser1(d))
  {
    QuotedFieldStep(Parser0(d).rest, "", d.header, Tail1(d), Parser0(d).list);
  }

  lemma HeaderNameStep(d: DoubleMessageHeader)
    requires Representable(d)
    ensures QuotedField(Parser1(d)) == Success(Parser2(d))
  {
    QuotedFieldTrimmedStep(Parser1(d).rest, " ", d.headerSerializer, Tail2(d), Parser1(d).list);
  }

  lemma BodyNameStep(d: DoubleMessageHeader)
    requires Representable(d)
    ensures QuotedField(Parser2(d)) == Success(Parser3(d))
  {
    QuotedFieldTrimmedStep(Parser2(d).rest, " ", d.bodySerializer, Tail3(d), Parser2(d).list);
  }

  /** The error field follows its comma without a blank. */
  lemma ErrorStep(d: DoubleMessageHeader)
    requires Representable(d)
    ensures QuotedField(Parser3(d)) == Success(Parser4(d))
  {
    NullableShown(d.errorMessage);
    assert Tail3(d) == "" + Quoted(ShowNullable(d.errorMessage)) + "," + Tail4(d);
    QuotedFieldTrimmedStep(Parser3(d).rest, "", ShowNullable(d.errorMessage), Tail4(d), Parser3(d).list);
  }

  lemma FlagStep(d: DoubleMessageHeader)
    ensures BareField(Parser4(d)) == Success(Parser5(d))
  {
    BoolShown(d.isResponse);
    BareFieldTrimmedStep(Parser4(d).rest, " " + ShowBool(d.isResponse), Tail5(d), Parser4(d).list);
  }

  lemma ResponseIdStep(d: DoubleMessageHeader)
    requires Representable(d)
    ensures QuotedField(Parser5(d)) == Success(Parser6(d))
  {
    NullableShown(d.responseId);
    QuotedFieldTrimmedStep(Parser5(d).rest, " ", ShowNullable(d.responseId), Tail6(d), Parser5(d).list);
  }

  lemma PayloadStep(d: DoubleMessageHeader)
    ensures TakeAll(Parser6(d)) == HeaderParser("", ShownFields(d))
  {
    TakeAllTrimmed(Parser6(d).rest, d.message, Parser6(d).list);
  }

  /** The chain of steps `parse` takes, one result after another. */
  lemma FieldsChain(s: string, p0: HeaderParser, p1: HeaderParser, p2: HeaderParser, p3: HeaderParser,
                    p4: HeaderParser, p5: HeaderParser, p6: HeaderParser, list: seq<string>)
    requires HeaderParsed(s) == Success(p0)
    requires QuotedField(p0) == Success(p1) && QuotedField(p1) == Success(p2)
    requires QuotedField(p2) == Success(p3) && QuotedField(p3) == Success(p4)
    requires BareField(p4) == Success(p5) && QuotedField(p5) == Success(p6)
    requires TakeAll(p6) == HeaderParser("", list)
    ensures Fields(s) == Success(list)
  {
  }

  lemma ParseOf(s: string, list: seq<string>)
    requires Fields(s) == Success(list)
    ensures |list| == 7 && Parse(s) == Success(FromFields(list))
  {
  }

  lemma ShownFieldsAt(d: DoubleMessageHeader, list: seq<string>)
    requires list == ShownFields(d)
    ensures |list| == 7 && list[0] == d.header && list[1] == d.headerSerializer
    ensures list[2] == d.bodySerializer && list[3] == ShowNullable(d.errorMessage)
    ensures list[4] == ShowBool(d.isResponse) && list[5] == ShowNullable(d.responseId)
    ensures list[6] == ReceivedPayload(d.message)
  {
  }

  /** The fields of a serialised envelope make the envelope again. */
  lemma FromFieldsShown(d: DoubleMessageHeader, list: seq<string>)
    requires ToNull(ShowNullable(d.errorMessage)) == d.errorMessage
    requires ToNull(ShowNullable(d.responseId)) == d.responseId
    requires ToBoolean(ShowBool(d.isResponse)) == d.isResponse
    requires |list| == 7 && list[0] == d.header && list[1] == d.headerSerializer
    requires list[2] == d.bodySerializer && list[3] == ShowNullable(d.errorMessage)
    requires list[4] == ShowBool(d.isResponse) && list[5] == ShowNullable(d.responseId)
    requires list[6] == ReceivedPayload(d.message)
    ensures FromFields(list) == d.(message := ReceivedPayload(d.message))
  {
  }

  /** Parsing a serialised envelope gives all seven fields back, the payload as
      ReceivedPayload describes. */
  lemma ParseSerializeAny(d: DoubleMessageHeader)
    requires Representable(d)
    ensures Parse(Serialize(d)) == Success(d.(message := ReceivedPayload(d.message)))
  {
    var list := ShownFields(d);
    BracketStep(d);
    TagStep(d);
    HeaderNameStep(d);
    BodyNameStep(d);
    ErrorStep(d);
    FlagStep(d);
    ResponseIdStep(d);
    PayloadStep(d);
    FieldsChain(Serialize(d), Parser0(d), Parser1(d), Parser2(d), Parser3(d), Parser4(d), Parser5(d), Parser6(d), list);
    ParseOf(Serialize(d), list);
    NullableShown(d.errorMessage);
    NullableShown(d.responseId);
    BoolShown(d.isResponse);
    ShownFieldsAt(d, list);
    FromFieldsShown(d, list);
  }

  /** The round trip over all seven fields, for a payload that does not end in a blank. */
  lemma ParseSerialize(d: DoubleMessageHeader)
    requires Representable(d)
    requires d.message != [] && !IsWhitespace(d.message[|d.message| - 1])
    ensures Parse(Serialize(d)) == Success(d)
  {
    ParseSerializeAny(d);
    ExactPayloadBack(d);
  }

  lemma ExactPayloadBack(d: DoubleMessageHeader)
    requires d.message != [] && !IsWhitespace(d.message[|d.message| - 1])
    requires Parse(Serialize(d)) == Success(d.(message := ReceivedPayload(d.message)))
    ensures Parse(Serialize(d)) == Success(d)
  {
    ReceivedPayloadExact(d.message);
  }

  /** An envelope with an empty payload comes back with the payload "json =". */
  lemma ParseSerializeEmptyPayload(d: DoubleMessageHeader)
    requires Representable(d) && d.message == ""
    ensures Parse(Serialize(d)) == Success(d.(message := "json ="))
  {
    ParseSerializeAny(d);
    ReceivedPayloadBlank(d.message);
  }

  /** Kotlin's data-class `toString`, used in log and error texts. */
  function ToString(d: DoubleMessageHeader): string {
    "DoubleMessageHeader(header=" + d.header + ", headerSerializer=" + d.headerSerializer
    + ", bodySerializer=" + d.bodySerializer + ", errorMessage=" + ShowNullable(d.errorMessage)
    + ", isResponse=" + ShowBool(d.isResponse) + ", responseId=" + ShowNullable(d.responseId)
    + ", message=" + d.message + ")"
  }
}
