/** The responder chain of the request/response protocol: the three handlers every
    websocket endpoint has, which between them cover every combination of the
    response flag and the correlation id.

    - ResponseStorable takes a response that carries an id: it removes the waiter
      stored under the id and gives it the envelope.
    - AnswerOnRequest takes a request that carries an id: it finds the entry that
      answers it and sends exactly one reply, or an error reply if the entry throws.
    - WSResponseAble takes a message without an id: the first matching handler runs.

    A handler does not change anything itself; it calls the store, the transport,
    the error logger and callbacks.  The model states what one call of `doHandle`
    does as an Outcome: the effects in the order they happen, the waiters left in
    the store and what it throws.  Session.Websocket carries these out on its state. */
module Responders {
  import opened Wrappers
  import opened Exceptions
  import Lists
  import Store

  /** What every envelope says about correlation (`MessageIdable`). */
  datatype Ids = Ids(isResponse: bool, responseId: Option<string>)

  /** What the chain needs to know of an envelope type and its `MessageFactory`: the
      correlation fields, the data-class text used in error texts, and the builders of
      a reply and of an error reply from a builder key. */
  datatype Protocol<!M, !K> = Protocol(
    ids: M -> Ids,
    show: M -> string,
    toMessageHeader: (K, bool, string) -> M,
    error: (string, K, bool, string) -> M)

  /** A `RequestResponse` entry: which requests it answers, the answer (application code
      and payload codec, which may throw) and the key error replies are built from. */
  datatype RequestResponse<!M, !K> = RequestResponse(
    isMessage: M -> bool,
    answer: M -> Result<K, Throwable>,
    errorBuilderKey: K)

  /** A `WSRequestHandler`: which messages it takes and what running it throws, if
      anything; `name` is its `toString`. */
  datatype RequestHandler<!M> = RequestHandler(
    name: string,
    isMessage: M -> bool,
    answer: M -> Option<Throwable>)

  /** A `WSResponse` waiter: what its `response` throws on the reply, if anything. */
  datatype Waiter<!M> = Waiter(response: M -> Option<Throwable>)

  /** The handlers of a chain; `Custom` is any other `RequestHolderHandler`. */
  datatype Handler<!M, !K> =
    | ResponseStorable
    | AnswerOnRequest(list: seq<RequestResponse<M, K>>)
    | WSResponseAble(wsResponses: seq<RequestHandler<M>>)
    | Custom(handles: M -> bool, run: M -> Option<Throwable>)

  /** What a handler does that can be observed. */
  datatype Effect<M> =
    | Sent(message: M)                                     // `WSSendable.send`
    | ErrorReported(text: string, cause: Option<Throwable>)  // `WSErrorLogger.onError`
    | Delivered(responseId: string, message: M)            // a waiter's `response` called
    | Logged(text: string)                                 // `logger.error`
    | HandlerFailed(position: nat, failure: Throwable)     // onMessage's `logger.error(t)`

  datatype Outcome<!M> = Outcome(
    effects: seq<Effect<M>>,
    waiters: map<string, Waiter<M>>,
    thrown: Option<Throwable>)

  /** The envelopes among the effects, in order. */
  function Sends<M>(effects: seq<Effect<M>>): (r: seq<M>)
    ensures |r| <= |effects|
  {
    if effects == [] then []
    else (if effects[0].Sent? then [effects[0].message] else []) + Sends(effects[1..])
  }

  /** The reports to the error logger among the effects, in order. */
  function Reports<M>(effects: seq<Effect<M>>): (r: seq<(string, Option<Throwable>)>)
    ensures |r| <= |effects|
  {
    if effects == [] then []
    else
      var head := if effects[0].ErrorReported? then [(effects[0].text, effects[0].cause)] else [];
      head + Reports(effects[1..])
  }

  /** The ids of the waiters among the effects, in order. */
  function Deliveries<M>(effects: seq<Effect<M>>): (r: seq<string>)
    ensures |r| <= |effects|
  {
    if effects == [] then []
    else (if effects[0].Delivered? then [effects[0].responseId] else []) + Deliveries(effects[1..])
  }

  // ---------------------------------------------------------------------------
  // Which handler takes a message

  predicate StorableHandles(i: Ids) {
    i.isResponse && i.responseId.Some?
  }

  predicate AnswerHandles(i: Ids) {
    !i.isResponse && i.responseId.Some?
  }

  predicate ResponseAbleHandles(i: Ids) {
    i.responseId.None?
  }

  /** The three `handle` tests split all messages: each message is taken by exactly one. */
  lemma HandlesPartition(i: Ids)
    ensures StorableHandles(i) || AnswerHandles(i) || ResponseAbleHandles(i)
    ensures !(StorableHandles(i) && AnswerHandles(i))
    ensures !(StorableHandles(i) && ResponseAbleHandles(i))
    ensures !(AnswerHandles(i) && ResponseAbleHandles(i))
  {
  }

  /** `handle`. */
  predicate Handles<M, K>(p: Protocol<M, K>, h: Handler<M, K>, m: M) {
    match h
    case ResponseStorable => StorableHandles(p.ids(m))
    case AnswerOnRequest(_) => AnswerHandles(p.ids(m))
    case WSResponseAble(_) => ResponseAbleHandles(p.ids(m))
    case Custom(handles, _) => handles(m)
  }

  function HandlesTest<M, K>(p: Protocol<M, K>, m: M): Handler<M, K> -> bool {
    h => Handles(p, h, m)
  }

  function AnswersTest<M, K>(m: M): RequestResponse<M, K> -> bool {
    (e: RequestResponse<M, K>) => e.isMessage(m)
  }

  function TakesTest<M>(m: M): RequestHandler<M> -> bool {
    (h: RequestHandler<M>) => h.isMessage(m)
  }

  // ---------------------------------------------------------------------------
  // What each handler's doHandle does

  /** The text of ResponseStorable's exception. */
  function NoWaiterText(shown: string): string {
    "did not find a response handler for " + shown
  }

  /** ResponseStorable: `removeId`, then the waiter's `response`, or a
      ResponseStoreException when no waiter was stored under the id. */
  function StorableDo<M, K>(p: Protocol<M, K>, waiters: map<string, Waiter<M>>, m: M): Outcome<M> {
    match p.ids(m).responseId
    case None => Outcome([], waiters, Some(NullResponseId))
    case Some(id) =>
      var removed := Store.RemoveFrom(waiters, id);
      match removed.waiter
      case Some(w) => Outcome([Delivered(id, m)], removed.waiters, w.response(m))
      case None => Outcome([], removed.waiters, Some(ResponseStoreException(NoWaiterText(p.show(m)))))
  }

  /** The text AnswerOnRequest reports and sends when the answering entry throws. */
  function AnswerErrorText(t: Throwable): string {
    "error thrown when trying to answer -> " + ShowNullable(t.Message())
  }

  function NoEntryText(shown: string): string {
    "did not find a handler for " + shown
  }

  /** AnswerOnRequest: the first entry that takes the request answers it, and the reply
      goes out as a response under the request's id; an entry that throws is reported
      and an error reply built from its error key goes out instead; without an entry
      the request is reported and nothing is sent. */
  function AnswerDo<M, K>(p: Protocol<M, K>, list: seq<RequestResponse<M, K>>,
                          waiters: map<string, Waiter<M>>, m: M): Outcome<M> {
    match p.ids(m).responseId
    case None => Outcome([], waiters, Some(NullResponseId))
    case Some(id) =>
      match Lists.FindFirst(list, AnswersTest(m))
      case None =>
        var text := NoEntryText(p.show(m));
        Outcome([Logged(text), ErrorReported(text, None)], waiters, None)
      case Some(k) =>
        match list[k].answer(m)
        case Success(answer) => Outcome([Sent(p.toMessageHeader(answer, true, id))], waiters, None)
        case Failure(t) =>
          var text := AnswerErrorText(t);
          Outcome([Logged("error: " + text), ErrorReported(text, Some(t)),
                   Sent(p.error(text, list[k].errorBuilderKey, true, id))], waiters, None)
  }

  function ResponderErrorText(name: string, shown: string): string {
    "wsResponder: error thrown when trying to execute: " + name + " serializer response: " + shown
  }

  /** WSResponseAble: the first handler that takes the message runs, and what it throws
      comes out wrapped in a WSResponseException; nothing happens when none takes it. */
  function RespondDo<M, K>(p: Protocol<M, K>, wsResponses: seq<RequestHandler<M>>,
                           waiters: map<string, Waiter<M>>, m: M): Outcome<M> {
    match Lists.FindFirst(wsResponses, TakesTest(m))
    case None => Outcome([], waiters, None)
    case Some(k) =>
      match wsResponses[k].answer(m)
      case None => Outcome([], waiters, None)
      case Some(t) => Outcome([], waiters, Some(WSResponseException(t, ResponderErrorText(wsResponses[k].name, p.show(m)))))
  }

  /** `doHandle` of any handler. */
  function DoHandle<M, K>(p: Protocol<M, K>, h: Handler<M, K>, waiters: map<string, Waiter<M>>, m: M): Outcome<M> {
    match h
    case ResponseStorable => StorableDo(p, waiters, m)
    case AnswerOnRequest(list) => AnswerDo(p, list, waiters, m)
    case WSResponseAble(wsResponses) => RespondDo(p, wsResponses, waiters, m)
    case Custom(_, run) => Outcome([], waiters, run(m))
  }

  function NoHandlerText(shown: string): string {
    "no handler could handle: " + shown
  }

  /** `MessageReceiver2.onMessage`: the first handler whose `handle` holds runs, and
      what it throws is caught and logged; without such a handler the message is
      logged. */
  function OnMessage<M, K>(p: Protocol<M, K>, handlers: seq<Handler<M, K>>,
                           waiters: map<string, Waiter<M>>, m: M): (o: Outcome<M>)
    ensures o.thrown.None?
  {
    match Lists.FindFirst(handlers, HandlesTest(p, m))
    case None => Outcome([Logged(NoHandlerText(p.show(m)))], waiters, None)
    case Some(k) => Caught(DoHandle(p, handlers[k], waiters, m), k)
  }

  /** onMessage's `catch`: an exception of the handler at `position` becomes a log record. */
  function Caught<M>(r: Outcome<M>, position: nat): (o: Outcome<M>)
    ensures o.thrown.None? && o.waiters == r.waiters
    ensures r.thrown.None? ==> o.effects == r.effects
    ensures r.thrown.Some? ==> o.effects == r.effects + [HandlerFailed(position, r.thrown.value)]
  {
    match r.thrown
    case None => r
    case Some(t) => Outcome(r.effects + [HandlerFailed(position, t)], r.waiters, None)
  }

  // ---------------------------------------------------------------------------
  // Properties of onMessage

  /** Only the first handler that takes the message runs; its outcome is the outcome of
      onMessage, with a log record in place of an exception. */
  lemma OnMessageRunsFirst<M, K>(p: Protocol<M, K>, handlers: seq<Handler<M, K>>,
                                 waiters: map<string, Waiter<M>>, m: M, k: nat)
    requires k < |handlers| && Handles(p, handlers[k], m)
    requires forall j :: 0 <= j < k ==> !Handles(p, handlers[j], m)
    ensures OnMessage(p, handlers, waiters, m) == Caught(DoHandle(p, handlers[k], waiters, m), k)
  {
    assert HandlesTest(p, m)(handlers[k]);
    assert forall j :: 0 <= j < k ==> !HandlesTest(p, m)(handlers[j]);
    assert Lists.FindFirst(handlers, HandlesTest(p, m)) == Some(k);
  }

  /** A message no handler takes runs nothing: it is logged and the store is untouched. */
  lemma OnMessageUnhandled<M, K>(p: Protocol<M, K>, handlers: seq<Handler<M, K>>,
                                 waiters: map<string, Waiter<M>>, m: M)
    requires forall j :: 0 <= j < |handlers| ==> !Handles(p, handlers[j], m)
    ensures OnMessage(p, handlers, waiters, m) == Outcome([Logged(NoHandlerText(p.show(m)))], waiters, None)
  {
    assert forall j :: 0 <= j < |handlers| ==> !HandlesTest(p, m)(handlers[j]);
  }

  // ---------------------------------------------------------------------------
  // Properties of ResponseStorable

  /** A response whose id has a waiter: the waiter is removed and gets the unchanged
      envelope; what the waiter throws is what doHandle throws. */
  lemma StorableDelivers<M, K>(p: Protocol<M, K>, waiters: map<string, Waiter<M>>, m: M, id: string)
    requires p.ids(m).responseId == Some(id) && id in waiters
    ensures StorableDo(p, waiters, m) == Outcome([Delivered(id, m)], waiters - {id}, waiters[id].response(m))
  {
  }

  /** A response whose id has no waiter: nothing happens and a ResponseStoreException
      is thrown. */
  lemma StorableMissing<M, K>(p: Protocol<M, K>, waiters: map<string, Waiter<M>>, m: M, id: string)
    requires p.ids(m).responseId == Some(id) && id !in waiters
    ensures StorableDo(p, waiters, m)
      == Outcome([], waiters, Some(ResponseStoreException(NoWaiterText(p.show(m)))))
  {
    Store.RemoveAbsent(waiters, id);
  }

  /** The same response handled twice reaches its waiter once: the second time the
      waiter is gone and ResponseStoreException is thrown. */
  lemma StorableAtMostOnce<M, K>(p: Protocol<M, K>, waiters: map<string, Waiter<M>>, m: M, again: M)
    requires StorableHandles(p.ids(m)) && p.ids(again).responseId == p.ids(m).responseId
    ensures var first := StorableDo(p, waiters, m);
      var second := StorableDo(p, first.waiters, again);
      Deliveries(second.effects) == [] && second.thrown.Some? && second.thrown.value.ResponseStoreException?
  {
    var id := p.ids(m).responseId.value;
    var first := StorableDo(p, waiters, m);
    assert id !in first.waiters;
    StorableMissing(p, first.waiters, again, id);
  }

  /** A waiter stored by the store and then answered: the response hands the envelope to
      exactly that waiter and the store is back as before. */
  lemma StoredWaiterAnswered<M, K>(p: Protocol<M, K>, waiters: map<string, Waiter<M>>, w: Waiter<M>,
                                    candidate: string, m: M)
    requires p.ids(m) == Ids(true, Some(Store.StoreAt(waiters, w, candidate).id))
    ensures var s := Store.StoreAt(waiters, w, candidate);
      StorableDo(p, s.waiters, m) == Outcome([Delivered(s.id, m)], waiters, w.response(m))
  {
    Store.StoreThenRemove(waiters, w, candidate);
  }

  // ---------------------------------------------------------------------------
  // Properties of AnswerOnRequest

  /** The entry AnswerOnRequest uses is the first that takes the request. */
  lemma FirstEntry<M, K>(list: seq<RequestResponse<M, K>>, m: M, k: nat)
    requires k < |list| && list[k].isMessage(m)
    requires forall j :: 0 <= j < k ==> !list[j].isMessage(m)
    ensures Lists.FindFirst(list, AnswersTest(m)) == Some(k)
  {
    assert AnswersTest(m)(list[k]);
    assert forall j :: 0 <= j < k ==> !AnswersTest(m)(list[j]);
  }

  /** On success exactly one envelope is sent, the reply built as a response under the
      request's id, and nothing is reported. */
  lemma AnswerSendsReply<M, K>(p: Protocol<M, K>, list: seq<RequestResponse<M, K>>,
                               waiters: map<string, Waiter<M>>, m: M, id: string, k: nat, answer: K)
    requires p.ids(m).responseId == Some(id)
    requires k < |list| && list[k].isMessage(m)
    requires forall j :: 0 <= j < k ==> !list[j].isMessage(m)
    requires list[k].answer(m) == Success(answer)
    ensures var o := AnswerDo(p, list, waiters, m);
      o == Outcome([Sent(p.toMessageHeader(answer, true, id))], waiters, None)
      && Sends(o.effects) == [p.toMessageHeader(answer, true, id)] && Reports(o.effects) == []
  {
    FirstEntry(list, m, k);
    var o := AnswerDo(p, list, waiters, m);
    assert o.effects[1..] == [];
  }

  /** When the entry throws, the error logger gets the exception once and exactly one
      error reply is sent, a response under the request's id built from the entry's
      error key. */
  lemma AnswerSendsError<M, K>(p: Protocol<M, K>, list: seq<RequestResponse<M, K>>,
                               waiters: map<string, Waiter<M>>, m: M, id: string, k: nat, t: Throwable)
    requires p.ids(m).responseId == Some(id)
    requires k < |list| && list[k].isMessage(m)
    requires forall j :: 0 <= j < k ==> !list[j].isMessage(m)
    requires list[k].answer(m) == Failure(t)
    ensures var o := AnswerDo(p, list, waiters, m);
      && o.waiters == waiters && o.thrown.None?
      && Sends(o.effects) == [p.error(AnswerErrorText(t), list[k].errorBuilderKey, true, id)]
      && Reports(o.effects) == [(AnswerErrorText(t), Some(t))]
  {
    FirstEntry(list, m, k);
    var o := AnswerDo(p, list, waiters, m);
    var text := AnswerErrorText(t);
    var reply := p.error(text, list[k].errorBuilderKey, true, id);
    assert o.effects == [Logged("error: " + text), ErrorReported(text, Some(t)), Sent(reply)];
    var e1 := o.effects[1..];
    var e2 := e1[1..];
    assert e2[1..] == [];
    assert Sends(e2) == [reply] && Reports(e2) == [];
    assert Sends(e1) == [reply] && Reports(e1) == [(text, Some(t))];
  }

  /** A request no entry takes is reported without an exception, and nothing is sent. */
  lemma AnswerWithoutEntry<M, K>(p: Protocol<M, K>, list: seq<RequestResponse<M, K>>,
                                 waiters: map<string, Waiter<M>>, m: M, id: string)
    requires p.ids(m).responseId == Some(id)
    requires forall j :: 0 <= j < |list| ==> !list[j].isMessage(m)
    ensures var o := AnswerDo(p, list, waiters, m);
      && o.waiters == waiters && o.thrown.None?
      && Sends(o.effects) == [] && Reports(o.effects) == [(NoEntryText(p.show(m)), None)]
  {
    assert forall j :: 0 <= j < |list| ==> !AnswersTest(m)(list[j]);
    var o := AnswerDo(p, list, waiters, m);
    assert o.effects[1..][1..] == [];
  }

  // ---------------------------------------------------------------------------
  // Properties of WSResponseAble

  /** The first handler that takes the message runs; a failure comes out wrapped. */
  lemma RespondRunsFirst<M, K>(p: Protocol<M, K>, wsResponses: seq<RequestHandler<M>>,
                               waiters: map<string, Waiter<M>>, m: M, k: nat)
    requires k < |wsResponses| && wsResponses[k].isMessage(m)
    requires forall j :: 0 <= j < k ==> !wsResponses[j].isMessage(m)
    ensures var o := RespondDo(p, wsResponses, waiters, m);
      && o.effects == [] && o.waiters == waiters
      && (o.thrown.None? <==> wsResponses[k].answer(m).None?)
      && (o.thrown.Some? ==>
            o.thrown.value == WSResponseException(wsResponses[k].answer(m).value,
                                                  ResponderErrorText(wsResponses[k].name, p.show(m))))
  {
    assert TakesTest(m)(wsResponses[k]);
    assert forall j :: 0 <= j < k ==> !TakesTest(m)(wsResponses[j]);
    assert Lists.FindFirst(wsResponses, TakesTest(m)) == Some(k);
  }

  /** A message no handler takes is dropped silently: no effect and no exception. */
  lemma RespondWithoutHandler<M, K>(p: Protocol<M, K>, wsResponses: seq<RequestHandler<M>>,
                                    waiters: map<string, Waiter<M>>, m: M)
    requires forall j :: 0 <= j < |wsResponses| ==> !wsResponses[j].isMessage(m)
    ensures RespondDo(p, wsResponses, waiters, m) == Outcome([], waiters, None)
  {
    assert forall j :: 0 <= j < |wsResponses| ==> !TakesTest(m)(wsResponses[j]);
  }
}
