/** The Kotlin collection operations the core relies on: `find` (the first element
    satisfying a predicate), `dropWhile`, and removal at a position. */
module Lists {
  import opened Wrappers

  /** Kotlin `indexOfFirst`/`find`: the position of the first element satisfying `p`. */
  function FindFirst<T>(s: seq<T>, p: T -> bool): (r: Option<nat>)
    ensures r.Some? ==> r.value < |s| && p(s[r.value])
    ensures r.Some? ==> forall j :: 0 <= j < r.value ==> !p(s[j])
    ensures r.None? <==> forall j :: 0 <= j < |s| ==> !p(s[j])
  {
    if |s| == 0 then None
    else if p(s[0]) then Some(0)
    else
      match FindFirst(s[1..], p)
      case None => None
      case Some(k) => Some(k + 1)
  }

  /** How many leading elements satisfy `p`. */
  function CountWhile<T>(s: seq<T>, p: T -> bool): (n: nat)
    ensures n <= |s|
    ensures forall j :: 0 <= j < n ==> p(s[j])
    ensures n < |s| ==> !p(s[n])
  {
    if |s| == 0 || !p(s[0]) then 0 else 1 + CountWhile(s[1..], p)
  }

  /** Kotlin `dropWhile`: the suffix that starts at the first element failing `p`. */
  function DropWhile<T>(s: seq<T>, p: T -> bool): (r: seq<T>)
    ensures |r| <= |s|
    ensures forall j :: 0 <= j < |s| - |r| ==> p(s[j])
    ensures r != [] ==> !p(r[0])
  {
    s[CountWhile(s, p)..]
  }

  /** The list without its element at position `k`, all others kept in order. */
  function RemoveAt<T>(s: seq<T>, k: nat): (r: seq<T>)
    requires k < |s|
    ensures |r| == |s| - 1
    ensures forall j :: 0 <= j < k ==> r[j] == s[j]
    ensures forall j :: k <= j < |r| ==> r[j] == s[j + 1]
  {
    s[..k] + s[k + 1..]
  }
}
