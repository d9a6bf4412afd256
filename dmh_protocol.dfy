/** The request/response protocol over DoubleMessageHeader envelopes: the message
    factory (`DMHMessageFactory`), the entries and handlers selected by both serial
    names (`check`, `DMHRequestResponse`, `DMHRequestHandler`), and the sender
    (`DMHSender`).  Decoding a payload, running the application's code and encoding
    the reply are one opaque function. */
module DmhProtocol {
  import opened Wrappers
  import opened Exceptions
  import opened HeaderParsing
  import opened ParseSteps
  import opened DoubleHeader
  import Store
  import opened Responders
  import Session

  /** `DMHSerializableKey`: what a reply or an error reply is built from. */
  datatype DMHSerializableKey = DMHSerializableKey(headerSerialName: string, bodySerialName: string, message: string)

  /** `DMHMessageFactory.toMessageHeader`: both serial names and the message come from the
      key, there is no error, and the flag and the id are the given ones. */
  function ToMessageHeader(key: DMHSerializableKey, isResponse: bool, responseId: string): (d: DoubleMessageHeader)
    ensures d.header == DmhTag && d.errorMessage.None?
    ensures d.headerSerializer == key.headerSerialName && d.bodySerializer == key.bodySerialName
    ensures d.message == key.message
    ensures d.isResponse == isResponse && d.responseId == Some(responseId)
  {
    Make(key.headerSerialName, key.bodySerialName, None, isResponse, Some(responseId), key.message)
  }

  /** `DMHMessageFactory.error`: like toMessageHeader, with the given error text. */
  function Error(errorMessage: string, key: DMHSerializableKey, isResponse: bool, responseId: string): (d: DoubleMessageHeader)
    ensures d.header == DmhTag && d.errorMessage == Some(errorMessage)
    ensures d.headerSerializer == key.headerSerialName && d.bodySerializer == key.bodySerialName
    ensures d.message == key.message
    ensures d.isResponse == isResponse && d.responseId == Some(responseId)
  {
    Make(key.headerSerialName, key.bodySerialName, Some(errorMessage), isResponse, Some(responseId), key.message)
  }

  /** `error` builds what toMessageHeader builds, with the error set. */
  lemma ErrorIsReplyWithMessage(errorMessage: string, key: DMHSerializableKey, isResponse: bool, responseId: string)
    ensures Error(errorMessage, key, isResponse, responseId)
         == ToMessageHeader(key, isResponse, responseId).(errorMessage := Some(errorMessage))
    ensures Error(errorMessage, key, isResponse, responseId).errorMessage != ToMessageHeader(key, isResponse, responseId).errorMessage
  {
  }

  function MessageIds(d: DoubleMessageHeader): Ids {
    Ids(d.isResponse, d.responseId)
  }

  /** What the responder chain sees of this protocol. */
  function Dmh(): Protocol<DoubleMessageHeader, DMHSerializableKey> {
    Protocol(MessageIds, ToString, ToMessageHeader, Error)
  }

  /** A `DMHRequestResponse`: the header's serial name, the serial names of request and
      reply body, and what decoding, the response function and encoding give for a
      request payload. */
  datatype DMHRequestResponse = DMHRequestResponse(
    headerName: string,
    requestName: string,
    responseName: string,
    respond: string -> Result<string, Throwable>)

  /** `DMHRequestResponse.answer`: the key of the reply, under the same header name. */
  function Answer(r: DMHRequestResponse, d: DoubleMessageHeader): (a: Result<DMHSerializableKey, Throwable>)
    ensures a.Success? <==> r.respond(d.message).Success?
    ensures a.Success? ==> a.value == DMHSerializableKey(r.headerName, r.responseName, r.respond(d.message).value)
    ensures a.Failure? ==> a.error == r.respond(d.message).error
  {
    match r.respond(d.message)
    case Success(message) => Success(DMHSerializableKey(r.headerName, r.responseName, message))
    case Failure(t) => Failure(t)
  }

  /** The entry as AnswerOnRequest sees it: it takes exactly the envelopes whose two serial
      names are the header's and the request's (`check`), and its error key carries the
      header name, the reply name and an empty message. */
  function Entry(r: DMHRequestResponse): (e: RequestResponse<DoubleMessageHeader, DMHSerializableKey>)
    ensures forall d :: e.isMessage(d) <==> d.headerSerializer == r.headerName && d.bodySerializer == r.requestName
    ensures e.errorBuilderKey == DMHSerializableKey(r.headerName, r.responseName, "")
    ensures forall d :: e.answer(d) == Answer(r, d)
  {
    RequestResponse((d: DoubleMessageHeader) => Check(d, r.headerName, r.requestName),
                    (d: DoubleMessageHeader) => Answer(r, d),
                    DMHSerializableKey(r.headerName, r.responseName, ""))
  }

  /** A `DMHRequestHandler` (or `DMHWebsocketRequestHandler`): it takes exactly the
      envelopes `check` accepts for its two serial names and runs its block on the
      payload; `name` is its `toString`. */
  function Handler(name: string, headerName: string, bodyName: string,
                   block: string -> Option<Throwable>): (h: RequestHandler<DoubleMessageHeader>)
    ensures forall d :: h.isMessage(d) <==> d.headerSerializer == headerName && d.bodySerializer == bodyName
    ensures forall d :: h.answer(d) == block(d.message)
    ensures h.name == name
  {
    RequestHandler(name, (d: DoubleMessageHeader) => Check(d, headerName, bodyName),
                   (d: DoubleMessageHeader) => block(d.message))
  }

  /** The envelope `DMHSender` puts on the wire: never an error and never a response. */
  function Outgoing(headerName: string, bodyName: string, message: string, responseId: Option<string>): (d: DoubleMessageHeader)
    ensures d.header == DmhTag && d.errorMessage.None? && !d.isResponse
    ensures d.headerSerializer == headerName && d.bodySerializer == bodyName
    ensures d.responseId == responseId && d.message == message
  {
    Make(headerName, bodyName, None, false, responseId, message)
  }

  // ---------------------------------------------------------------------------
  // Routing after the wire

  /** What the sender puts on the wire reaches the right part of the chain at the other
      end: a request with an id goes to the answering entries, a one-way message to the
      request handlers, and both serial names survive, so `check` accepts it for exactly
      the names it was sent with. */
  lemma SentRouting(headerName: string, bodyName: string, message: string, responseId: Option<string>,
                    h: string, b: string)
    requires Quotable(headerName) && Quotable(bodyName) && NullableQuotable(responseId)
    ensures var back := Parse(Serialize(Outgoing(headerName, bodyName, message, responseId)));
      && back.Success?
      && (responseId.Some? ==> AnswerHandles(MessageIds(back.value)))
      && (responseId.None? ==> ResponseAbleHandles(MessageIds(back.value)))
      && (Check(back.value, h, b) <==> h == headerName && b == bodyName)
  {
    ParseSerializeAny(Outgoing(headerName, bodyName, message, responseId));
  }

  /** A reply comes back to the requester's store: after the wire it is a response that
      carries the request's id. */
  lemma ReplyRouting(key: DMHSerializableKey, id: string)
    requires Quotable(key.headerSerialName) && Quotable(key.bodySerialName) && NullableQuotable(Some(id))
    ensures var back := Parse(Serialize(ToMessageHeader(key, true, id)));
      back.Success? && StorableHandles(MessageIds(back.value)) && back.value.responseId == Some(id)
  {
    ParseSerializeAny(ToMessageHeader(key, true, id));
  }

  /** An entry that answers sends exactly one envelope, the reply under the request's id
      with the header name, the reply name and the reply message; nothing is reported. */
  lemma EntryReplies(r: DMHRequestResponse, waiters: map<string, Waiter<DoubleMessageHeader>>,
                     d: DoubleMessageHeader, id: string, reply: string)
    requires Check(d, r.headerName, r.requestName) && d.responseId == Some(id)
    requires r.respond(d.message) == Success(reply)
    ensures var o := AnswerDo(Dmh(), [Entry(r)], waiters, d);
      && Sends(o.effects) == [Make(r.headerName, r.responseName, None, true, Some(id), reply)]
      && Reports(o.effects) == [] && o.waiters == waiters && o.thrown.None?
  {
    AnswerSendsReply(Dmh(), [Entry(r)], waiters, d, id, 0, DMHSerializableKey(r.headerName, r.responseName, reply));
  }

  /** An entry that throws has the exception reported once and exactly one error reply
      sent under the request's id, with the header name, the reply name and no message. */
  lemma EntryFails(r: DMHRequestResponse, waiters: map<string, Waiter<DoubleMessageHeader>>,
                   d: DoubleMessageHeader, id: string, t: Throwable)
    requires Check(d, r.headerName, r.requestName) && d.responseId == Some(id)
    requires r.respond(d.message) == Failure(t)
    ensures var o := AnswerDo(Dmh(), [Entry(r)], waiters, d);
      && Sends(o.effects) == [Make(r.headerName, r.responseName, Some(AnswerErrorText(t)), true, Some(id), "")]
      && Reports(o.effects) == [(AnswerErrorText(t), Some(t))] && o.waiters == waiters && o.thrown.None?
  {
    AnswerSendsError(Dmh(), [Entry(r)], waiters, d, id, 0, t);
  }

  /** A one-way message reaches the first request handler registered for its two names;
      handlers for other names are passed over. */
  lemma OneWayHandled(name: string, headerName: string, bodyName: string, block: string -> Option<Throwable>,
                      others: seq<RequestHandler<DoubleMessageHeader>>,
                      waiters: map<string, Waiter<DoubleMessageHeader>>, message: string)
    requires forall j :: 0 <= j < |others| ==> !others[j].isMessage(Outgoing(headerName, bodyName, message, None))
    ensures var d := Outgoing(headerName, bodyName, message, None);
      var o := RespondDo(Dmh(), others + [Handler(name, headerName, bodyName, block)], waiters, d);
      o.effects == [] && o.waiters == waiters && (o.thrown.None? <==> block(message).None?)
  {
    var d := Outgoing(headerName, bodyName, message, None);
    var hs := others + [Handler(name, headerName, bodyName, block)];
    assert hs[|others|] == Handler(name, headerName, bodyName, block);
    RespondRunsFirst(Dmh(), hs, waiters, d, |others|);
  }

  // ---------------------------------------------------------------------------
  // The sender

  /** `DMHSender.send(headerSerializer, serializer, header, t)`: a one-way message. */
  method SendOneWay<K>(ws: Session.Websocket<DoubleMessageHeader, K>, headerName: string, bodyName: string, message: string)
    modifies ws
    ensures ws.trace == old(ws.trace) + [Sent(Outgoing(headerName, bodyName, message, None))]
  {
    ws.Send(Outgoing(headerName, bodyName, message, None));
  }

  /** `DMHSender.send(..., responseSerializer, response)`: the waiter is stored and the
      request goes out under the id it was stored under. */
  method SendRequest<K>(ws: Session.Websocket<DoubleMessageHeader, K>, w: Waiter<DoubleMessageHeader>,
                        candidate: string, headerName: string, bodyName: string, message: string)
    returns (id: string)
    modifies ws, ws.responseStore
    ensures Store.Stored(id, ws.responseStore.waiters) == Store.StoreAt(old(ws.responseStore.waiters), w, candidate)
    ensures ws.trace == old(ws.trace) + [Sent(Outgoing(headerName, bodyName, message, Some(id)))]
  {
    id := ws.StoreTranslator(w, candidate, (i: string) => Outgoing(headerName, bodyName, message, Some(i)));
  }
}
