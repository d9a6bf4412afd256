/** The request/response protocol over EBMessageHeader2 envelopes: the message factory
    (`EBM2SendSerializableBuilder`), the entries and handlers keyed by the body's serial
    name (`SimpleRequestResponse`, `SimpleWSResponder`), and the sender side
    (`EBSender`).  Payload encoding and decoding and the application's answer are one
    opaque function from the request payload to the reply payload. */
module Ebm2Protocol {
  import opened Wrappers
  import opened Exceptions
  import opened Text
  import opened HeaderParsing
  import opened ParseSteps
  import opened HeaderCodec
  import Store
  import opened Responders
  import Session

  /** The header every envelope of this protocol carries. */
  const Emh2Tag := "EMH2"

  /** `EBMessageHeader2Builder`: the reply's serial name and payload. */
  datatype EBMessageHeader2Builder = EBMessageHeader2Builder(serialName: string, json: string)

  /** `EBM2SendSerializableBuilder.toMessageHeader`. */
  function ToMessageHeader(key: EBMessageHeader2Builder, isResponse: bool, responseId: string): (e: EBMessageHeader2)
    ensures e.header == Emh2Tag && e.errorMessage.None?
    ensures e.body == key.serialName && e.json == key.json
    ensures e.isResponse == isResponse && e.responseId == Some(responseId)
  {
    EBMessageHeader2(Emh2Tag, key.serialName, None, isResponse, Some(responseId), key.json)
  }

  /** `EBM2SendSerializableBuilder.error`: like toMessageHeader, with the given error text. */
  function Error(errorMessage: string, key: EBMessageHeader2Builder, isResponse: bool,
                 responseId: string): (e: EBMessageHeader2)
    ensures e.header == Emh2Tag && e.errorMessage == Some(errorMessage)
    ensures e.body == key.serialName && e.json == key.json
    ensures e.isResponse == isResponse && e.responseId == Some(responseId)
  {
    EBMessageHeader2(Emh2Tag, key.serialName, Some(errorMessage), isResponse, Some(responseId), key.json)
  }

  /** An error envelope is the envelope toMessageHeader builds, with the error set: only
      `error` ever sets one. */
  lemma ErrorIsReplyWithMessage(errorMessage: string, key: EBMessageHeader2Builder, isResponse: bool,
                                responseId: string)
    ensures Error(errorMessage, key, isResponse, responseId)
         == ToMessageHeader(key, isResponse, responseId).(errorMessage := Some(errorMessage))
    ensures Error(errorMessage, key, isResponse, responseId).errorMessage != ToMessageHeader(key, isResponse, responseId).errorMessage
  {
  }

  /** The correlation fields of an envelope. */
  function MessageIds(e: EBMessageHeader2): Ids {
    Ids(e.isResponse, e.responseId)
  }

  /** What the responder chain sees of this protocol. */
  function Ebm2(): Protocol<EBMessageHeader2, EBMessageHeader2Builder> {
    Protocol(MessageIds, ToString, ToMessageHeader, Error)
  }

  /** A `SimpleRequestResponse`: the serial names of request and reply, and what decoding
      the request, `onMessage` and encoding the reply give for a request payload. */
  datatype SimpleRequestResponse = SimpleRequestResponse(
    requestName: string,
    responseName: string,
    respond: string -> Result<string, Throwable>)

  /** `SimpleRequestResponse.answer`: the reply's serial name and payload. */
  function Answer(r: SimpleRequestResponse, m: EBMessageHeader2): (a: Result<EBMessageHeader2Builder, Throwable>)
    ensures a.Success? <==> r.respond(m.json).Success?
    ensures a.Success? ==> a.value == EBMessageHeader2Builder(r.responseName, r.respond(m.json).value)
    ensures a.Failure? ==> a.error == r.respond(m.json).error
  {
    match r.respond(m.json)
    case Success(json) => Success(EBMessageHeader2Builder(r.responseName, json))
    case Failure(t) => Failure(t)
  }

  /** The entry as AnswerOnRequest sees it: it takes exactly the envelopes whose body is
      the request's serial name, and its error key is the reply's serial name with an
      empty payload. */
  function Entry(r: SimpleRequestResponse): (e: RequestResponse<EBMessageHeader2, EBMessageHeader2Builder>)
    ensures forall m :: e.isMessage(m) <==> m.body == r.requestName
    ensures e.errorBuilderKey == EBMessageHeader2Builder(r.responseName, "")
    ensures forall m :: e.answer(m) == Answer(r, m)
  {
    RequestResponse((m: EBMessageHeader2) => m.body == r.requestName,
                    (m: EBMessageHeader2) => Answer(r, m),
                    EBMessageHeader2Builder(r.responseName, ""))
  }

  /** A `SimpleWSResponder`: it takes exactly the envelopes whose body is its serial name
      and hands their payload to its block; `name` is its `toString`. */
  function Responder(name: string, serialName: string, block: string -> Option<Throwable>): (h: RequestHandler<EBMessageHeader2>)
    ensures forall m :: h.isMessage(m) <==> m.body == serialName
    ensures forall m :: h.answer(m) == block(m.json)
    ensures h.name == name
  {
    RequestHandler(name, (m: EBMessageHeader2) => m.body == serialName, (m: EBMessageHeader2) => block(m.json))
  }

  /** `EBSender.toMessageHeader`: an outgoing envelope of the sender, never an error. */
  function Outgoing(serialName: string, message: string, responseId: Option<string>, isResponse: bool): (e: EBMessageHeader2)
    ensures e.header == Emh2Tag && e.errorMessage.None?
    ensures e.body == serialName && e.json == message
    ensures e.isResponse == isResponse && e.responseId == responseId
  {
    EBMessageHeader2(Emh2Tag, serialName, None, isResponse, responseId, message)
  }

  /** A one-way message has no id, so at the receiving end it goes to the request
      handlers, never to the store or the answering entries. */
  lemma OneWayGoesToResponders(serialName: string, message: string)
    ensures ResponseAbleHandles(MessageIds(Outgoing(serialName, message, None, false)))
    ensures !StorableHandles(MessageIds(Outgoing(serialName, message, None, false)))
    ensures !AnswerHandles(MessageIds(Outgoing(serialName, message, None, false)))
  {
  }

  // ---------------------------------------------------------------------------
  // Answering a request

  /** The scenario of the answering test: the entry for the request's serial name
      answers, and exactly one envelope goes out, the reply under the request's id with
      header EMH2, the reply's serial name, no error and the reply payload; nothing is
      reported. */
  lemma AnswerableReplies(r: SimpleRequestResponse, waiters: map<string, Waiter<EBMessageHeader2>>,
                          m: EBMessageHeader2, id: string, payload: string)
    requires m.body == r.requestName && !m.isResponse && m.responseId == Some(id)
    requires r.respond(m.json) == Success(payload)
    ensures var o := AnswerDo(Ebm2(), [Entry(r)], waiters, m);
      && Sends(o.effects) == [EBMessageHeader2(Emh2Tag, r.responseName, None, true, Some(id), payload)]
      && Reports(o.effects) == [] && o.waiters == waiters && o.thrown.None?
  {
    AnswerSendsReply(Ebm2(), [Entry(r)], waiters, m, id, 0, EBMessageHeader2Builder(r.responseName, payload));
  }

  /** When decoding or answering throws, the error logger gets the exception and exactly
      one error envelope goes out under the request's id, with an empty payload. */
  lemma AnswerableFails(r: SimpleRequestResponse, waiters: map<string, Waiter<EBMessageHeader2>>,
                        m: EBMessageHeader2, id: string, t: Throwable)
    requires m.body == r.requestName && !m.isResponse && m.responseId == Some(id)
    requires r.respond(m.json) == Failure(t)
    ensures var o := AnswerDo(Ebm2(), [Entry(r)], waiters, m);
      && Sends(o.effects) == [EBMessageHeader2(Emh2Tag, r.responseName, Some(AnswerErrorText(t)), true, Some(id), "")]
      && Reports(o.effects) == [(AnswerErrorText(t), Some(t))] && o.waiters == waiters && o.thrown.None?
  {
    AnswerSendsError(Ebm2(), [Entry(r)], waiters, m, id, 0, t);
  }

  /** The error envelope's empty payload reads back at the other end as the text
      "json =", while every other field comes back as sent. */
  lemma ErrorReplyOnWire(responseName: string, text: string, id: string)
    requires Quotable(responseName) && NullableQuotable(Some(text)) && NullableQuotable(Some(id))
    ensures Parse(Serialize(EBMessageHeader2(Emh2Tag, responseName, Some(text), true, Some(id), "")))
         == Success(EBMessageHeader2(Emh2Tag, responseName, Some(text), true, Some(id), "json ="))
  {
    ParseSerializeEmptyPayload(EBMessageHeader2(Emh2Tag, responseName, Some(text), true, Some(id), ""));
  }

  /** Whatever the payload, an envelope that went over the wire keeps its correlation
      fields, so it reaches the same handler of the chain at the other end. */
  lemma WireKeepsIds(e: EBMessageHeader2)
    requires Representable(e)
    ensures Parse(Serialize(e)).Success?
    ensures MessageIds(Parse(Serialize(e)).value) == MessageIds(e)
    ensures Parse(Serialize(e)).value.body == e.body
  {
    ParseSerializeAny(e);
  }

  /** The reply the answering entry builds for a request id and a reply payload. */
  function Reply(responseName: string, id: string, payload: string): EBMessageHeader2 {
    ToMessageHeader(EBMessageHeader2Builder(responseName, payload), true, id)
  }

  /** The first half of an exchange: a request the sender put on the wire under an id is
      read by the responder, and its entry sends exactly the reply under that id. */
  lemma RequestAnswered(r: SimpleRequestResponse, responderWaiters: map<string, Waiter<EBMessageHeader2>>,
                        id: string, request: string, payload: string)
    requires Quotable(r.requestName) && NullableQuotable(Some(id))
    requires r.respond(ReceivedPayload(request)) == Success(payload)
    ensures Parse(Serialize(Outgoing(r.requestName, request, Some(id), false))).Success?
    ensures Sends(AnswerDo(Ebm2(), [Entry(r)], responderWaiters,
                           Parse(Serialize(Outgoing(r.requestName, request, Some(id), false))).value).effects)
         == [Reply(r.responseName, id, payload)]
  {
    var sent := Outgoing(r.requestName, request, Some(id), false);
    ParseSerializeAny(sent);
    AnswerableReplies(r, responderWaiters, Parse(Serialize(sent)).value, id, payload);
  }

  /** A reply with a payload that does not end in a blank comes off the wire exactly as
      it was sent. */
  lemma ReplyOnWire(responseName: string, id: string, payload: string)
    requires Quotable(responseName) && NullableQuotable(Some(id))
    requires payload != [] && !IsWhitespace(payload[|payload| - 1])
    ensures Parse(Serialize(Reply(responseName, id, payload))) == Success(Reply(responseName, id, payload))
  {
    ParseSerialize(Reply(responseName, id, payload));
  }

  /** The second half: the reply, which ReplyOnWire brings over the wire unchanged,
      reaches exactly the waiter stored under its id at the requester, and the
      requester's store is back as it was before the request. */
  lemma ReplyDelivered(requesterWaiters: map<string, Waiter<EBMessageHeader2>>, w: Waiter<EBMessageHeader2>,
                       candidate: string, id: string, responseName: string, payload: string)
    requires id == Store.StoreAt(requesterWaiters, w, candidate).id
    ensures var o := Responders.OnMessage(Ebm2(), Session.BuilderHandlers([], [], []),
                                          Store.StoreAt(requesterWaiters, w, candidate).waiters,
                                          Reply(responseName, id, payload));
      o.waiters == requesterWaiters && Deliveries(o.effects) == [id]
  {
    var reply := Reply(responseName, id, payload);
    Session.ReplyReachesWaiter(Ebm2(), [], [], [], requesterWaiters, w, candidate, reply);
    DeliveredOnce(id, reply, if w.response(reply).Some? then [HandlerFailed(0, w.response(reply).value)] else []);
  }

  lemma DeliveredOnce(id: string, m: EBMessageHeader2, rest: seq<Effect<EBMessageHeader2>>)
    requires rest == [] || (|rest| == 1 && rest[0].HandlerFailed?)
    ensures Deliveries([Delivered(id, m)] + rest) == [id]
  {
    assert ([Delivered(id, m)] + rest)[1..] == rest;
    if rest != [] {
      assert rest[1..] == [];
    }
  }

  // ---------------------------------------------------------------------------
  // The sender

  /** `EBSender.send(serializer, t)`: a one-way message, no id and not a response. */
  method SendOneWay<K>(ws: Session.Websocket<EBMessageHeader2, K>, serialName: string, message: string)
    modifies ws
    ensures ws.trace == old(ws.trace) + [Sent(Outgoing(serialName, message, None, false))]
  {
    ws.Send(Outgoing(serialName, message, None, false));
  }

  /** `EBSender.send(serializer, t, responseSerializer, response)`: the waiter is stored
      and the request goes out under the id it was stored under. */
  method SendRequest<K>(ws: Session.Websocket<EBMessageHeader2, K>, w: Waiter<EBMessageHeader2>, candidate: string,
                        serialName: string, message: string) returns (id: string)
    modifies ws, ws.responseStore
    ensures Store.Stored(id, ws.responseStore.waiters) == Store.StoreAt(old(ws.responseStore.waiters), w, candidate)
    ensures ws.trace == old(ws.trace) + [Sent(Outgoing(serialName, message, Some(id), false))]
  {
    id := ws.StoreTranslator(w, candidate, (i: string) => Outgoing(serialName, message, Some(i), false));
  }
}
