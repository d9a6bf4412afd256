/** A websocket endpoint of the request/response protocol (`WebsocketBuilder`, a
    `MessageReceiver2` with its `ResponseStore`): the handler chain in its fixed
    order, the store, and what goes out to the transport, the error logger, the
    waiters and the log, recorded in order as `trace`. */
module Session {
  import opened Wrappers
  import opened Exceptions
  import Lists
  import Store
  import opened Responders

  /** `WebsocketBuilder.handlers`: ResponseStorable, the answering entries, the request
      handlers, then any other handlers. */
  function BuilderHandlers<M, K>(requestResponses: seq<RequestResponse<M, K>>,
                                 requestHandler: seq<RequestHandler<M>>,
                                 otherHandlers: seq<Handler<M, K>>): (h: seq<Handler<M, K>>)
    ensures |h| == 3 + |otherHandlers| && h[3..] == otherHandlers
    ensures h[0].ResponseStorable? && h[1] == AnswerOnRequest(requestResponses)
    ensures h[2] == WSResponseAble(requestHandler)
  {
    [ResponseStorable, AnswerOnRequest(requestResponses), WSResponseAble(requestHandler)] + otherHandlers
  }

  /** In a builder's chain every message goes to the built-in handler its correlation
      fields call for: a response with an id to the store, a request with an id to the
      answering entries, a message without an id to the request handlers. */
  lemma BuilderRoutes<M, K>(p: Protocol<M, K>, requestResponses: seq<RequestResponse<M, K>>,
                            requestHandler: seq<RequestHandler<M>>, otherHandlers: seq<Handler<M, K>>,
                            waiters: map<string, Waiter<M>>, m: M)
    ensures var hs := BuilderHandlers(requestResponses, requestHandler, otherHandlers);
      && (StorableHandles(p.ids(m)) ==>
            OnMessage(p, hs, waiters, m) == Caught(StorableDo(p, waiters, m), 0))
      && (AnswerHandles(p.ids(m)) ==>
            OnMessage(p, hs, waiters, m) == Caught(AnswerDo(p, requestResponses, waiters, m), 1))
      && (ResponseAbleHandles(p.ids(m)) ==>
            OnMessage(p, hs, waiters, m) == Caught(RespondDo(p, requestHandler, waiters, m), 2))
  {
    var hs := BuilderHandlers(requestResponses, requestHandler, otherHandlers);
    HandlesPartition(p.ids(m));
    if StorableHandles(p.ids(m)) {
      OnMessageRunsFirst(p, hs, waiters, m, 0);
    } else if AnswerHandles(p.ids(m)) {
      OnMessageRunsFirst(p, hs, waiters, m, 1);
    } else {
      OnMessageRunsFirst(p, hs, waiters, m, 2);
    }
  }

  /** Since the three built-in handlers take every message, a handler appended after
      them is never run, whatever its `handle` says. */
  lemma OtherHandlersUnreached<M, K>(p: Protocol<M, K>, requestResponses: seq<RequestResponse<M, K>>,
                                     requestHandler: seq<RequestHandler<M>>, otherHandlers: seq<Handler<M, K>>,
                                     m: M)
    ensures var hs := BuilderHandlers(requestResponses, requestHandler, otherHandlers);
      var found := Lists.FindFirst(hs, HandlesTest(p, m));
      found.Some? && found.value < 3
  {
    var hs := BuilderHandlers(requestResponses, requestHandler, otherHandlers);
    HandlesPartition(p.ids(m));
    assert HandlesTest(p, m)(hs[0]) || HandlesTest(p, m)(hs[1]) || HandlesTest(p, m)(hs[2]);
  }

  /** A request that went out under the id the store gave its waiter, and the reply that
      comes back under that id: the waiter, and only it, gets the reply, and the store
      is left as it was before the request. */
  lemma ReplyReachesWaiter<M, K>(p: Protocol<M, K>, requestResponses: seq<RequestResponse<M, K>>,
                                 requestHandler: seq<RequestHandler<M>>, otherHandlers: seq<Handler<M, K>>,
                                 waiters: map<string, Waiter<M>>, w: Waiter<M>, candidate: string, reply: M)
    requires p.ids(reply) == Ids(true, Some(Store.StoreAt(waiters, w, candidate).id))
    ensures var s := Store.StoreAt(waiters, w, candidate);
      var o := OnMessage(p, BuilderHandlers(requestResponses, requestHandler, otherHandlers), s.waiters, reply);
      && o.waiters == waiters
      && o.effects == [Delivered(s.id, reply)]
           + (if w.response(reply).Some? then [HandlerFailed(0, w.response(reply).value)] else [])
  {
    var s := Store.StoreAt(waiters, w, candidate);
    BuilderRoutes(p, requestResponses, requestHandler, otherHandlers, s.waiters, reply);
    StoredWaiterAnswered(p, waiters, w, candidate, reply);
    if w.response(reply).None? {
      assert [Delivered(s.id, reply)] + [] == [Delivered(s.id, reply)];
    }
  }

  class Websocket<M, K> {
    const protocol: Protocol<M, K>
    const handlers: seq<Handler<M, K>>
    const responseStore: Store.ResponseStore<Waiter<M>>
    var trace: seq<Effect<M>>

    /** `WebsocketBuilder`: an empty store and the handler chain in its fixed order. */
    constructor(protocol: Protocol<M, K>, requestResponses: seq<RequestResponse<M, K>>,
                requestHandler: seq<RequestHandler<M>>, otherHandlers: seq<Handler<M, K>>)
      ensures this.protocol == protocol
      ensures handlers == BuilderHandlers(requestResponses, requestHandler, otherHandlers)
      ensures fresh(responseStore) && responseStore.waiters == map[] && trace == []
    {
      this.protocol := protocol;
      handlers := BuilderHandlers(requestResponses, requestHandler, otherHandlers);
      responseStore := new Store.ResponseStore();
      trace := [];
    }

    /** `WSSendable.send`. */
    method Send(message: M)
      modifies this
      ensures trace == old(trace) + [Sent(message)]
    {
      trace := trace + [Sent(message)];
    }

    /** `WSErrorLogger.onError`. */
    method ReportError(text: string, cause: Option<Throwable>)
      modifies this
      ensures trace == old(trace) + [ErrorReported(text, cause)]
    {
      trace := trace + [ErrorReported(text, cause)];
    }

    method Log(text: string)
      modifies this
      ensures trace == old(trace) + [Logged(text)]
    {
      trace := trace + [Logged(text)];
    }

    /** `storeTranslator` with a callback that sends the request built for the id the
        waiter was stored under; `timeId()` is passed in as `candidate`. */
    method StoreTranslator(w: Waiter<M>, candidate: string, request: string -> M) returns (id: string)
      modifies this, responseStore
      ensures Store.Stored(id, responseStore.waiters) == Store.StoreAt(old(responseStore.waiters), w, candidate)
      ensures trace == old(trace) + [Sent(request(id))]
    {
      id := responseStore.StoreResponseTranslator(w, candidate);
      Send(request(id));
    }

    /** `MessageReceiver2.onMessage`. */
    method OnMessage(m: M)
      modifies this, responseStore
      ensures trace == old(trace) + Responders.OnMessage(protocol, handlers, old(responseStore.waiters), m).effects
      ensures responseStore.waiters == Responders.OnMessage(protocol, handlers, old(responseStore.waiters), m).waiters
    {
      match Lists.FindFirst(handlers, HandlesTest(protocol, m))
      case None =>
        Log(NoHandlerText(protocol.show(m)));
      case Some(k) =>
        var thrown := DoHandle(handlers[k], m);
        if thrown.Some? {
          trace := trace + [HandlerFailed(k, thrown.value)];
        }
    }

    /** `doHandle` of any handler. */
    method DoHandle(h: Handler<M, K>, m: M) returns (thrown: Option<Throwable>)
      modifies this, responseStore
      ensures trace == old(trace) + Responders.DoHandle(protocol, h, old(responseStore.waiters), m).effects
      ensures responseStore.waiters == Responders.DoHandle(protocol, h, old(responseStore.waiters), m).waiters
      ensures thrown == Responders.DoHandle(protocol, h, old(responseStore.waiters), m).thrown
    {
      match h
      case ResponseStorable =>
        thrown := StorableDoHandle(m);
      case AnswerOnRequest(list) =>
        thrown := AnswerDoHandle(list, m);
      case WSResponseAble(wsResponses) =>
        thrown := RespondDoHandle(wsResponses, m);
      case Custom(_, run) =>
        thrown := run(m);
    }

    /** ResponseStorable's `doHandle`. */
    method StorableDoHandle(m: M) returns (thrown: Option<Throwable>)
      modifies this, responseStore
      ensures trace == old(trace) + StorableDo(protocol, old(responseStore.waiters), m).effects
      ensures responseStore.waiters == StorableDo(protocol, old(responseStore.waiters), m).waiters
      ensures thrown == StorableDo(protocol, old(responseStore.waiters), m).thrown
    {
      match protocol.ids(m).responseId
      case None =>
        thrown := Some(NullResponseId);
      case Some(id) =>
        var found := responseStore.RemoveId(id);
        match found
        case Some(w) =>
          trace := trace + [Delivered(id, m)];
          thrown := w.response(m);
        case None =>
          thrown := Some(ResponseStoreException(NoWaiterText(protocol.show(m))));
    }

    /** AnswerOnRequest's `doHandle`. */
    method AnswerDoHandle(list: seq<RequestResponse<M, K>>, m: M) returns (thrown: Option<Throwable>)
      modifies this
      ensures trace == old(trace) + AnswerDo(protocol, list, responseStore.waiters, m).effects
      ensures thrown == AnswerDo(protocol, list, responseStore.waiters, m).thrown
    {
      match protocol.ids(m).responseId
      case None =>
        thrown := Some(NullResponseId);
      case Some(id) =>
        thrown := None;
        match Lists.FindFirst(list, AnswersTest(m))
        case None =>
          var text := NoEntryText(protocol.show(m));
          Log(text);
          ReportError(text, None);
        case Some(k) =>
          match list[k].answer(m)
          case Success(answer) =>
            Send(protocol.toMessageHeader(answer, true, id));
          case Failure(t) =>
            var text := AnswerErrorText(t);
            Log("error: " + text);
            ReportError(text, Some(t));
            Send(protocol.error(text, list[k].errorBuilderKey, true, id));
    }

    /** WSResponseAble's `doHandle`: it only runs a handler, so nothing is recorded. */
    method RespondDoHandle(wsResponses: seq<RequestHandler<M>>, m: M) returns (thrown: Option<Throwable>)
      ensures RespondDo(protocol, wsResponses, responseStore.waiters, m).effects == []
      ensures thrown == RespondDo(protocol, wsResponses, responseStore.waiters, m).thrown
    {
      match Lists.FindFirst(wsResponses, TakesTest(m))
      case None =>
        thrown := None;
      case Some(k) =>
        match wsResponses[k].answer(m)
        case None =>
          thrown := None;
        case Some(t) =>
          thrown := Some(WSResponseException(t, ResponderErrorText(wsResponses[k].name, protocol.show(m))));
    }
  }
}
