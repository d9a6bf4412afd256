/** The older name-correlated dispatcher: translaters keyed by the serial name of the
    payload type, and `EBDataHandler`, which sends EBMessageHeader envelopes and hands
    received ones to a translater.  There is no correlation id: a received envelope
    whose body names the type a pending request expects completes that request, and
    any other goes to the first static translater for its body.

    A translater's decoding of the payload and its callback are opaque functions; what
    the callbacks do is recorded in order as DispatchEffects. */
module LegacyDispatch {
  import opened Wrappers
  import opened Exceptions
  import Lists
  import opened LegacyHeader

  /** `FrontendMessageHeader`, the header inside every legacy payload. */
  datatype FrontendMessageHeader = FrontendMessageHeader(farmName: string, isRemote: bool, messageId: string)

  /** `Message`: the decoded payload, its header and its event. */
  datatype Message<E> = Message(messageHeader: FrontendMessageHeader, e: E)

  /** A `Translater`: `name` is its serializer's serial name, `decode` reads a payload
      and `fct` is the callback, which returns what it throws, if anything. */
  datatype Translater<!E> = Translater(
    name: string,
    decode: string -> Result<Message<E>, Throwable>,
    fct: (E, FrontendMessageHeader) -> Option<Throwable>)

  /** What dispatching does that can be observed. */
  datatype DispatchEffect<E> =
    | HeaderSeen(header: FrontendMessageHeader)                // the `onHeader` callback
    | Called(name: string, event: E, header: FrontendMessageHeader)  // a translater's `fct`
    | CallFailed(name: string, failure: Throwable)             // call's `logger.error`
    | RunFailed(failure: Throwable)                            // run's `logger.error`
    | Unhandled(message: EBMessageHeader)                      // receive's `logger.warn`

  /** `TranslaterBuilder`, collecting the static translaters. */
  datatype TranslaterBuilder<!E> = TranslaterBuilder(list: seq<Translater<E>>)

  /** `TranslaterBuilder.next`: a new builder with one more translater at the end. */
  function Next<E>(b: TranslaterBuilder<E>, t: Translater<E>): (r: TranslaterBuilder<E>)
    ensures |r.list| == |b.list| + 1 && r.list[..|b.list|] == b.list && r.list[|b.list|] == t
  {
    TranslaterBuilder(b.list + [t])
  }

  // ---------------------------------------------------------------------------
  // One translater

  /** What a call of a translater comes to: whether it returned true, the effects in
      order, and what escaped it. */
  datatype CallOutcome<E> = CallOutcome(matched: bool, effects: seq<DispatchEffect<E>>, thrown: Option<Throwable>)

  /** `Translater.call`: for a body that is not its name nothing runs and it returns
      false; otherwise the payload is decoded (a failure escapes), the header goes to
      `onHeader`, then the callback runs, and what the callback throws is logged and
      swallowed, so the call returns true. */
  function Call<E>(t: Translater<E>, m: EBMessageHeader): (c: CallOutcome<E>)
    ensures m.body != t.name ==> c == CallOutcome(false, [], None)
    ensures c.matched <==> m.body == t.name && t.decode(m.json).Success?
    ensures c.thrown.Some? <==> m.body == t.name && t.decode(m.json).Failure?
    ensures c.thrown.Some? ==> c.thrown.value == t.decode(m.json).error && c.effects == []
    ensures c.matched ==> (2 <= |c.effects| <= 3
      && c.effects[0] == HeaderSeen(t.decode(m.json).value.messageHeader)
      && c.effects[1] == Called(t.name, t.decode(m.json).value.e, t.decode(m.json).value.messageHeader))
    ensures c.matched ==> (var msg := t.decode(m.json).value;
      && (t.fct(msg.e, msg.messageHeader).None? ==> |c.effects| == 2)
      && (t.fct(msg.e, msg.messageHeader).Some? ==>
            |c.effects| == 3 && c.effects[2] == CallFailed(t.name, t.fct(msg.e, msg.messageHeader).value)))
  {
    if m.body != t.name then CallOutcome(false, [], None)
    else
      match t.decode(m.json)
      case Failure(x) => CallOutcome(false, [], Some(x))
      case Success(message) =>
        var ran := [HeaderSeen(message.messageHeader), Called(t.name, message.e, message.messageHeader)];
        match t.fct(message.e, message.messageHeader)
        case None => CallOutcome(true, ran, None)
        case Some(x) => CallOutcome(true, ran + [CallFailed(t.name, x)], None)
  }

  function Named<E>(body: string): Translater<E> -> bool {
    (t: Translater<E>) => t.name == body
  }

  // ---------------------------------------------------------------------------
  // EBDataHandler.run and receive

  /** What `run` comes to: its result, the effects and the pending translaters after it. */
  datatype Dispatched<!E> = Dispatched(handled: bool, effects: seq<DispatchEffect<E>>, pending: seq<Translater<E>>)

  /** The end of a run that called translater `t`. */
  function Finish<E>(c: CallOutcome<E>, kept: seq<Translater<E>>, used: seq<Translater<E>>): Dispatched<E> {
    match c.thrown
    case Some(x) => Dispatched(false, c.effects + [RunFailed(x)], kept)
    case None => Dispatched(true, c.effects, used)
  }

  /** `EBDataHandler.run`, over the pending response translaters and the list `complete`
      of the static translaters followed by the current ones.  If a pending translater
      has the body's name, the first such is called and removed; otherwise the first
      translater of `complete` with that name is called.  An exception makes the run
      return false, and leaves the pending list as it was. */
  function Dispatch<E>(pending: seq<Translater<E>>, complete: seq<Translater<E>>, m: EBMessageHeader): Dispatched<E> {
    match Lists.FindFirst(pending, Named(m.body))
    case Some(k) => Finish(Call(pending[k], m), pending, Lists.RemoveAt(pending, k))
    case None =>
      match Lists.FindFirst(complete, Named(m.body))
      case None => Dispatched(false, [], pending)
      case Some(k) => Finish(Call(complete[k], m), pending, pending)
  }

  /** `EBDataHandler.receive`: the text is parsed (a parse error escapes), run, and an
      envelope run did not handle is logged. */
  function ReceiveText<E>(pending: seq<Translater<E>>, complete: seq<Translater<E>>, s: string): Result<Dispatched<E>, ParseError> {
    match LegacyHeader.Parse(s)
    case Failure(e) => Failure(e)
    case Success(m) =>
      var d := Dispatch(pending, complete, m);
      Success(if d.handled then d else d.(effects := d.effects + [Unhandled(m)]))
  }

  // ---------------------------------------------------------------------------
  // Properties of dispatching

  /** Pending response translaters take priority: when one has the body's name the
      static and current translaters are not consulted at all. */
  lemma PendingFirst<E>(pending: seq<Translater<E>>, complete1: seq<Translater<E>>, complete2: seq<Translater<E>>,
                        m: EBMessageHeader, k: nat)
    requires k < |pending| && pending[k].name == m.body
    ensures Dispatch(pending, complete1, m) == Dispatch(pending, complete2, m)
  {
    assert Named(m.body)(pending[k]);
  }

  /** A pending translater answers once: the first with the body's name is called and,
      unless decoding its payload fails, removed, and every other pending translater
      stays, in order. */
  lemma PendingUsedOnce<E>(pending: seq<Translater<E>>, complete: seq<Translater<E>>, m: EBMessageHeader, k: nat)
    requires k < |pending| && pending[k].name == m.body
    requires forall j :: 0 <= j < k ==> pending[j].name != m.body
    ensures var d := Dispatch(pending, complete, m);
      && (d.handled <==> pending[k].decode(m.json).Success?)
      && (d.handled ==> d.effects == Call(pending[k], m).effects && d.pending == Lists.RemoveAt(pending, k))
      && (!d.handled ==> d.effects == [RunFailed(pending[k].decode(m.json).error)] && d.pending == pending)
  {
    assert Named(m.body)(pending[k]);
    assert forall j :: 0 <= j < k ==> !Named(m.body)(pending[j]);
    assert Lists.FindFirst(pending, Named(m.body)) == Some(k);
  }

  /** Without a pending translater for the body, the first static or current translater
      with the body's name is the only one called, and the pending list is untouched. */
  lemma StaticFirst<E>(pending: seq<Translater<E>>, complete: seq<Translater<E>>, m: EBMessageHeader, k: nat)
    requires forall j :: 0 <= j < |pending| ==> pending[j].name != m.body
    requires k < |complete| && complete[k].name == m.body
    requires forall j :: 0 <= j < k ==> complete[j].name != m.body
    ensures Dispatch(pending, complete, m) == Finish(Call(complete[k], m), pending, pending)
  {
    assert forall j :: 0 <= j < |pending| ==> !Named(m.body)(pending[j]);
    assert Named(m.body)(complete[k]);
    assert forall j :: 0 <= j < k ==> !Named(m.body)(complete[j]);
    assert Lists.FindFirst(complete, Named(m.body)) == Some(k);
  }

  /** When every translater can decode the payload, run returns true exactly when some
      translater, pending or not, has the body's name. */
  lemma HandledIffNamed<E>(pending: seq<Translater<E>>, complete: seq<Translater<E>>, m: EBMessageHeader)
    requires forall j :: 0 <= j < |pending| ==> pending[j].decode(m.json).Success?
    requires forall j :: 0 <= j < |complete| ==> complete[j].decode(m.json).Success?
    ensures Dispatch(pending, complete, m).handled <==>
      (exists j :: 0 <= j < |pending| && pending[j].name == m.body)
      || (exists j :: 0 <= j < |complete| && complete[j].name == m.body)
  {
    match Lists.FindFirst(pending, Named(m.body))
    case Some(k) =>
      assert pending[k].name == m.body;
    case None =>
      assert forall j :: 0 <= j < |pending| ==> pending[j].name != m.body by {
        forall j | 0 <= j < |pending| ensures pending[j].name != m.body {
          assert !Named(m.body)(pending[j]);
        }
      }
      match Lists.FindFirst(complete, Named(m.body))
      case Some(k) =>
        assert complete[k].name == m.body;
      case None =>
        forall j | 0 <= j < |complete| ensures complete[j].name != m.body {
          assert !Named(m.body)(complete[j]);
        }
  }

  /** A run that does not return true leaves the pending translaters as they were. */
  lemma UnhandledKeepsPending<E>(pending: seq<Translater<E>>, complete: seq<Translater<E>>, m: EBMessageHeader)
    ensures !Dispatch(pending, complete, m).handled ==> Dispatch(pending, complete, m).pending == pending
    ensures |Dispatch(pending, complete, m).pending| >= |pending| - 1
  {
  }

  /** A translater appended by `next` never takes an envelope an earlier translater of
      the builder takes. */
  lemma NextKeepsEarlier<E>(b: TranslaterBuilder<E>, t: Translater<E>, pending: seq<Translater<E>>,
                            current: seq<Translater<E>>, m: EBMessageHeader, k: nat)
    requires k < |b.list| && b.list[k].name == m.body
    ensures Dispatch(pending, Next(b, t).list + current, m) == Dispatch(pending, b.list + current, m)
  {
    var before := b.list + current;
    var after := Next(b, t).list + current;
    var first := Lists.FindFirst(before, Named(m.body));
    assert before[k] == b.list[k] && Named(m.body)(before[k]);
    assert first.Some? && first.value <= k;
    forall j | 0 <= j <= first.value ensures after[j] == before[j] {
      assert j < |b.list|;
    }
    assert Lists.FindFirst(after, Named(m.body)) == first;
  }

  /** The loopback of the legacy test: a handler that sent a request of type T with a
      translater for replies of type T gets its own request back; the envelope
      comes over the wire with its body intact, so the pending translater takes it, is
      called with the decoded payload and is removed, whatever the static translaters
      are. */
  lemma LoopbackCompletes<E>(e: EBMessageHeader, t: Translater<E>, complete: seq<Translater<E>>, message: Message<E>)
    requires Representable(e) && t.name == e.body
    requires t.decode(" " + e.json) == Success(message)
    ensures ReceiveText([t], complete, Serialize(e))
         == Success(Dispatched(true, Call(t, e.(json := " " + e.json)).effects, []))
    ensures Call(t, e.(json := " " + e.json)).effects[..2]
         == [HeaderSeen(message.messageHeader), Called(t.name, message.e, message.messageHeader)]
  {
    ParseSerialize(e);
    var m := e.(json := " " + e.json);
    PendingUsedOnce([t], complete, m, 0);
  }

  /** A text that is not an envelope makes receive fail with the parse error; nothing
      runs. */
  lemma ReceiveMalformed<E>(pending: seq<Translater<E>>, complete: seq<Translater<E>>, s: string)
    requires LegacyHeader.Parse(s).Failure?
    ensures ReceiveText(pending, complete, s) == Failure(LegacyHeader.Parse(s).error)
  {
  }

  // ---------------------------------------------------------------------------
  // The handler

  class EBDataHandler<E> {
    const translaters: seq<Translater<E>>
    var currentTranslaters: seq<Translater<E>>
    var responseTranslaters: seq<Translater<E>>
    /** What went to `dataSender.send`, in order. */
    var sent: seq<string>
    var trace: seq<DispatchEffect<E>>

    constructor(translaters: seq<Translater<E>>)
      ensures this.translaters == translaters
      ensures currentTranslaters == [] && responseTranslaters == [] && sent == [] && trace == []
    {
      this.translaters := translaters;
      currentTranslaters := [];
      responseTranslaters := [];
      sent := [];
      trace := [];
    }

    /** `send(messageHeader, translater)`: the translater, if any, joins the pending ones
        and the serialised envelope goes out. */
    method Send(m: EBMessageHeader, translater: Option<Translater<E>>)
      modifies this
      ensures responseTranslaters == old(responseTranslaters) + (if translater.Some? then [translater.value] else [])
      ensures sent == old(sent) + [Serialize(m)]
      ensures trace == old(trace) && currentTranslaters == old(currentTranslaters)
    {
      if translater.Some? {
        responseTranslaters := responseTranslaters + [translater.value];
      }
      sent := sent + [Serialize(m)];
    }

    /** `isResponse`: some pending translater has the body's name. */
    predicate IsResponse(m: EBMessageHeader)
      reads this
      ensures IsResponse(m) <==> Lists.FindFirst(responseTranslaters, Named(m.body)).Some?
      ensures IsResponse(m) <==> exists j :: 0 <= j < |responseTranslaters| && responseTranslaters[j].name == m.body
    {
      exists j :: 0 <= j < |responseTranslaters| && responseTranslaters[j].name == m.body
    }

    /** `call` of one translater, its effects recorded. */
    method CallOne(t: Translater<E>, m: EBMessageHeader) returns (matched: bool, thrown: Option<Throwable>)
      modifies this
      ensures trace == old(trace) + Call(t, m).effects
      ensures matched == Call(t, m).matched && thrown == Call(t, m).thrown
      ensures responseTranslaters == old(responseTranslaters) && sent == old(sent)
      ensures currentTranslaters == old(currentTranslaters)
    {
      var c := Call(t, m);
      trace := trace + c.effects;
      matched := c.matched;
      thrown := c.thrown;
    }

    /** `run`. */
    method Run(m: EBMessageHeader) returns (handled: bool)
      modifies this
      ensures handled == Dispatch(old(responseTranslaters), translaters + old(currentTranslaters), m).handled
      ensures trace == old(trace) + Dispatch(old(responseTranslaters), translaters + old(currentTranslaters), m).effects
      ensures responseTranslaters == Dispatch(old(responseTranslaters), translaters + old(currentTranslaters), m).pending
      ensures sent == old(sent) && currentTranslaters == old(currentTranslaters)
    {
      if IsResponse(m) {
        var k := Lists.FindFirst(responseTranslaters, Named(m.body)).value;
        var matched, thrown := CallOne(responseTranslaters[k], m);
        if thrown.Some? {
          trace := trace + [RunFailed(thrown.value)];
          handled := false;
        } else {
          responseTranslaters := Lists.RemoveAt(responseTranslaters, k);
          handled := true;
        }
        return;
      }
      // `takeWhile { !it.call(...) }` over the static and the current translaters
      var complete := translaters + currentTranslaters;
      var i := 0;
      while i < |complete|
        invariant 0 <= i <= |complete|
        invariant forall j :: 0 <= j < i ==> complete[j].name != m.body
        invariant trace == old(trace) && responseTranslaters == old(responseTranslaters)
        invariant sent == old(sent) && currentTranslaters == old(currentTranslaters)
      {
        var matched, thrown := CallOne(complete[i], m);
        if thrown.Some? || matched {
          assert Named(m.body)(complete[i]);
          assert forall j :: 0 <= j < i ==> !Named(m.body)(complete[j]);
          assert Lists.FindFirst(complete, Named(m.body)) == Some(i);
          if thrown.Some? {
            trace := trace + [RunFailed(thrown.value)];
          }
          handled := thrown.None?;
          return;
        }
        i := i + 1;
      }
      assert forall j :: 0 <= j < |complete| ==> !Named(m.body)(complete[j]);
      handled := false;
    }

    /** `receive`. */
    method Receive(s: string) returns (r: Result<bool, ParseError>)
      modifies this
      ensures match ReceiveText(old(responseTranslaters), translaters + old(currentTranslaters), s)
        case Failure(e) => r == Failure(e) && trace == old(trace) && responseTranslaters == old(responseTranslaters)
        case Success(d) => r == Success(d.handled) && trace == old(trace) + d.effects && responseTranslaters == d.pending
      ensures sent == old(sent) && currentTranslaters == old(currentTranslaters)
    {
      match LegacyHeader.Parse(s)
      case Failure(e) =>
        r := Failure(e);
      case Success(m) =>
        var handled := Run(m);
        if !handled {
          trace := trace + [Unhandled(m)];
        }
        r := Success(handled);
    }
  }
}
