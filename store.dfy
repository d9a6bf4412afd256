/** The correlation store of the request/response protocol: waiters (what to do with
    a response) kept under the correlation id the request went out with.

    `IDGenerator.getId` picks a fresh id by appending "-1" to a candidate until it is
    unused.  `ResponseStore` keeps the waiters in a mutable map; its actor loop stores
    a waiter under a fresh id and removes ids on request.  The actor runs the events
    one at a time, so the model runs them as sequential methods of a class. */
module Store {
  import opened Wrappers

  /** "-1" repeated `n` times: what `n` retries of getId append. */
  function Dashes(n: nat): (r: string)
    ensures |r| == 2 * n
  {
    if n == 0 then "" else "-1" + Dashes(n - 1)
  }

  /** The used ids at least as long as `id`; each retry leaves at least `id` behind. */
  function LongIds(ids: set<string>, id: string): set<string> {
    set k | k in ids && |k| >= |id|
  }

  /** `IDGenerator.getId` for the generator whose `hasID` is membership in `ids`. */
  function GetId(ids: set<string>, id: string): (r: string)
    ensures r !in ids
    ensures id !in ids ==> r == id
    ensures |r| >= |id| && r[..|id|] == id
    decreases LongIds(ids, id)
  {
    if id in ids then
      assert id !in LongIds(ids, id + "-1");
      GetId(ids, id + "-1")
    else id
  }

  /** getId returns the first of `id`, `id-1`, `id-1-1`, ... that is not used. */
  lemma {:induction false} GetIdRetries(ids: set<string>, id: string) returns (n: nat)
    ensures GetId(ids, id) == id + Dashes(n)
    ensures forall j :: 0 <= j < n ==> id + Dashes(j) in ids
    decreases LongIds(ids, id)
  {
    if id !in ids {
      n := 0;
      assert id + Dashes(0) == id;
    } else {
      assert id !in LongIds(ids, id + "-1");
      var m := GetIdRetries(ids, id + "-1");
      n := m + 1;
      assert id + "-1" + Dashes(m) == id + Dashes(n);
      forall j | 0 <= j < n ensures id + Dashes(j) in ids {
        if j == 0 {
          assert id + Dashes(0) == id;
        } else {
          assert id + "-1" + Dashes(j - 1) == id + Dashes(j);
        }
      }
    }
  }

  /** Conversely, the first unused candidate of that sequence is what getId returns. */
  lemma FirstFreeIsGetId(ids: set<string>, id: string, n: nat)
    requires forall j :: 0 <= j < n ==> id + Dashes(j) in ids
    requires id + Dashes(n) !in ids
    ensures GetId(ids, id) == id + Dashes(n)
  {
    var m := GetIdRetries(ids, id);
  }

  /** The example of the store's own tests: with "a" in use, getId("a") is "a-1". */
  lemma GetIdOfUsedA()
    ensures GetId({"a"}, "a") == "a-1"
  {
    assert "a-1" !in {"a"};
  }

  /** `storeResponseTranslator`: the id the waiter was stored under (the id the
      request's callback receives) and the new map. */
  datatype Stored<W> = Stored(id: string, waiters: map<string, W>)

  function StoreAt<W>(m: map<string, W>, w: W, candidate: string): (r: Stored<W>)
    ensures r.id !in m && r.id in r.waiters && r.waiters[r.id] == w
    ensures r.waiters.Keys == m.Keys + {r.id}
    ensures forall k :: k in m ==> r.waiters[k] == m[k]
  {
    var id := GetId(m.Keys, candidate);
    Stored(id, m[id := w])
  }

  /** `removeId`: the waiter found under the id, if any, and the map without the id. */
  datatype Removed<W> = Removed(waiter: Option<W>, waiters: map<string, W>)

  function RemoveFrom<W>(m: map<string, W>, id: string): (r: Removed<W>)
    ensures r.waiter.Some? <==> id in m
    ensures r.waiter.Some? ==> r.waiter.value == m[id]
    ensures r.waiters.Keys == m.Keys - {id}
    ensures forall k :: k in r.waiters ==> r.waiters[k] == m[k]
  {
    Removed(if id in m then Some(m[id]) else None, m - {id})
  }

  /** Removing an absent id finds nothing and changes nothing. */
  lemma RemoveAbsent<W>(m: map<string, W>, id: string)
    requires id !in m
    ensures RemoveFrom(m, id) == Removed(None, m)
  {
    assert m - {id} == m;
  }

  /** A second removal of the same id finds nothing: a waiter is handed out at most once. */
  lemma RemoveTwice<W>(m: map<string, W>, id: string)
    ensures var once := RemoveFrom(m, id);
      RemoveFrom(once.waiters, id) == Removed(None, once.waiters)
  {
    RemoveAbsent(RemoveFrom(m, id).waiters, id);
  }

  /** Storing a waiter and removing the id it was given hands back that waiter and
      leaves the map as it was before. */
  lemma StoreThenRemove<W>(m: map<string, W>, w: W, candidate: string)
    ensures var s := StoreAt(m, w, candidate);
      RemoveFrom(s.waiters, s.id) == Removed(Some(w), m)
  {
    var s := StoreAt(m, w, candidate);
    assert s.waiters - {s.id} == m;
  }

  /** Removing one id does not disturb a waiter stored under another. */
  lemma RemoveKeepsOthers<W>(m: map<string, W>, id: string, other: string)
    requires other in m && other != id
    ensures RemoveFrom(RemoveFrom(m, id).waiters, other).waiter == Some(m[other])
  {
  }

  /** The events the store's actor takes from its channel. */
  datatype StoreEvent<W> =
    | TranslatorRequest(waiter: W)
    | Remove(id: string)

  class ResponseStore<W> {
    var waiters: map<string, W>

    constructor()
      ensures waiters == map[]
    {
      waiters := map[];
    }

    /** `hasID`. */
    predicate HasId(id: string)
      reads this
    {
      id in waiters
    }

    /** `storeResponseTranslator`, with `timeId()` passed in as `candidate`; the
        returned id is what the request's callback is launched with. */
    method StoreResponseTranslator(w: W, candidate: string) returns (id: string)
      modifies this
      ensures Stored(id, waiters) == StoreAt(old(waiters), w, candidate)
    {
      id := GetId(waiters.Keys, candidate);
      waiters := waiters[id := w];
    }

    /** The actor's handling of a `Remove` event: `map.remove`. */
    method Remove(id: string)
      modifies this
      ensures waiters == old(waiters) - {id}
    {
      waiters := waiters - {id};
    }

    /** `removeId`: read the waiter, then have the id removed. */
    method RemoveId(responseId: string) returns (ret: Option<W>)
      modifies this
      ensures Removed(ret, waiters) == RemoveFrom(old(waiters), responseId)
    {
      ret := if HasId(responseId) then Some(waiters[responseId]) else None;
      Remove(responseId);
    }

    /** One turn of the actor loop: store a waiter, or remove an id. */
    method Handle(event: StoreEvent<W>, candidate: string) returns (newId: Option<string>)
      modifies this
      ensures event.TranslatorRequest? ==>
        newId.Some? && Stored(newId.value, waiters) == StoreAt(old(waiters), event.waiter, candidate)
      ensures event.Remove? ==> newId.None? && waiters == RemoveFrom(old(waiters), event.id).waiters
    {
      match event
      case TranslatorRequest(w) =>
        var id := StoreResponseTranslator(w, candidate);
        newId := Some(id);
      case Remove(id) =>
        Remove(id);
        newId := None;
    }
  }
}
