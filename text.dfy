/** The Kotlin string operations the envelope codecs are built from, with their
    standard-library behaviour written out: `trim`, `split`, `joinToString`,
    `indexOf`, `replaceFirst` and `toBoolean`. */
module Text {
  import opened Wrappers
  import Lists

  /** Kotlin `Char.isWhitespace()` on the JVM: the Unicode space, line and paragraph
      separators together with the ASCII controls tab to carriage return and the
      four information separators U+001C..U+001F. */
  predicate IsWhitespace(c: char) {
    var n := c as int;
    || 0x09 <= n <= 0x0D || 0x1C <= n <= 0x20
    || n == 0xA0 || n == 0x1680 || 0x2000 <= n <= 0x200A
    || n == 0x2028 || n == 0x2029 || n == 0x202F || n == 0x205F || n == 0x3000
  }

  /** How many blanks the text ends with. */
  function TrailingBlanks(s: string): (n: nat)
    ensures n <= |s|
    ensures forall i :: |s| - n <= i < |s| ==> IsWhitespace(s[i])
    ensures n < |s| ==> !IsWhitespace(s[|s| - n - 1])
  {
    if |s| > 0 && IsWhitespace(s[|s| - 1]) then 1 + TrailingBlanks(s[..|s| - 1]) else 0
  }

  /** Kotlin `trimStart()`: the text without its leading blanks. */
  function TrimStart(s: string): (r: string)
    ensures |r| <= |s|
    ensures forall i :: 0 <= i < |s| - |r| ==> IsWhitespace(s[i])
    ensures r != [] ==> !IsWhitespace(r[0])
  {
    s[Lists.CountWhile(s, IsWhitespace)..]
  }

  /** Kotlin `trimEnd()`: the text without its trailing blanks. */
  function TrimEnd(s: string): (r: string)
    ensures |r| <= |s|
    ensures forall i :: |r| <= i < |s| ==> IsWhitespace(s[i])
    ensures r != [] ==> !IsWhitespace(r[|r| - 1])
  {
    s[..|s| - TrailingBlanks(s)]
  }

  /** Kotlin `trim()`: the text between the first and the last non-blank character. */
  function Trim(s: string): (r: string)
    ensures |r| <= |s|
    ensures r != [] ==> !IsWhitespace(r[0]) && !IsWhitespace(r[|r| - 1])
    ensures r == [] <==> forall i :: 0 <= i < |s| ==> IsWhitespace(s[i])
  {
    TrimEnd(TrimStart(s))
  }

  /** A string `trim()` leaves as it is. */
  predicate TrimStable(s: string) {
    s == [] || (!IsWhitespace(s[0]) && !IsWhitespace(s[|s| - 1]))
  }

  lemma TrimOfStable(s: string)
    requires TrimStable(s)
    ensures Trim(s) == s
  {
  }

  /** Trailing blanks belong to the last part of a concatenation, as long as that
      part is not blank altogether (or the first part does not end in a blank). */
  lemma {:induction false} TrailingBlanksAppend(a: string, b: string)
    requires TrailingBlanks(b) < |b| || (a != [] && !IsWhitespace(a[|a| - 1]))
    ensures TrailingBlanks(a + b) == TrailingBlanks(b)
    decreases |b|
  {
    if b == [] {
      assert a + b == a;
    } else if IsWhitespace(b[|b| - 1]) {
      assert (a + b)[..|a + b| - 1] == a + b[..|b| - 1];
      TrailingBlanksAppend(a, b[..|b| - 1]);
    } else {
      assert (a + b)[|a + b| - 1] == b[|b| - 1];
    }
  }

  lemma TrimEndAppend(a: string, b: string)
    requires TrimEnd(b) != [] || (a != [] && !IsWhitespace(a[|a| - 1]))
    ensures TrimEnd(a + b) == a + TrimEnd(b)
  {
    TrailingBlanksAppend(a, b);
    assert (a + b)[..|a + b| - TrailingBlanks(b)] == a + b[..|b| - TrailingBlanks(b)];
  }

  lemma TrimEndIdempotent(s: string)
    ensures TrimEnd(TrimEnd(s)) == TrimEnd(s)
  {
  }

  /** A non-blank first character makes `trim()` cut from the end only. */
  lemma TrimFromNonBlank(s: string)
    requires s != [] && !IsWhitespace(s[0])
    ensures Trim(s) == TrimEnd(s)
  {
  }

  /** The positions of `c` in `s`, ascending (Kotlin `mapIndexed` + `filter` + `map`). */
  function IndexesOf(s: string, c: char): (r: seq<nat>)
    ensures forall k :: 0 <= k < |r| ==> r[k] < |s| && s[r[k]] == c
  {
    if |s| == 0 then []
    else
      var front := IndexesOf(s[..|s| - 1], c);
      if s[|s| - 1] == c then front + [|s| - 1] else front
  }

  /** The positions IndexesOf lists ascend. */
  lemma {:induction false} IndexesOfOrder(s: string, c: char, i: nat, j: nat)
    requires i < j < |IndexesOf(s, c)|
    ensures IndexesOf(s, c)[i] < IndexesOf(s, c)[j]
    decreases |s|
  {
    var front := IndexesOf(s[..|s| - 1], c);
    if j < |front| {
      IndexesOfOrder(s[..|s| - 1], c, i, j);
    }
  }

  /** Every occurrence of `c` is listed by IndexesOf. */
  lemma {:induction false} IndexesOfComplete(s: string, c: char, k: nat)
    requires k < |s| && s[k] == c
    ensures k in IndexesOf(s, c)
    decreases |s|
  {
    if k < |s| - 1 {
      IndexesOfComplete(s[..|s| - 1], c, k);
    }
  }

  predicate OccursAt(s: string, pat: string, k: nat) {
    k + |pat| <= |s| && s[k..k + |pat|] == pat
  }

  function IndexOfFrom(s: string, pat: string, from: nat): (r: Option<nat>)
    requires from <= |s|
    ensures r.Some? ==> from <= r.value && OccursAt(s, pat, r.value)
    ensures r.Some? ==> forall k :: from <= k < r.value ==> !OccursAt(s, pat, k)
    ensures r.None? ==> forall k :: from <= k <= |s| ==> !OccursAt(s, pat, k)
    decreases |s| - from
  {
    if OccursAt(s, pat, from) then Some(from)
    else if from == |s| then None
    else IndexOfFrom(s, pat, from + 1)
  }

  /** Kotlin `indexOf(pattern)`: the first position where `pat` occurs. */
  function IndexOf(s: string, pat: string): (r: Option<nat>)
    ensures r.Some? ==> OccursAt(s, pat, r.value)
    ensures r.Some? ==> forall k :: 0 <= k < r.value ==> !OccursAt(s, pat, k)
    ensures r.None? ==> forall k :: 0 <= k <= |s| ==> !OccursAt(s, pat, k)
  {
    IndexOfFrom(s, pat, 0)
  }

  /** Kotlin `replaceFirst(target, replacement)`: the first occurrence of `target` replaced, or `s` itself. */
  function ReplaceFirst(s: string, target: string, replacement: string): string {
    match IndexOf(s, target)
    case None => s
    case Some(k) => s[..k] + replacement + s[k + |target|..]
  }

  /** What replaceFirst leaves: the text itself when the target does not occur, and
      otherwise the text with the target cut out at its first occurrence. */
  lemma ReplaceFirstCases(s: string, target: string, replacement: string)
    ensures (forall k :: 0 <= k <= |s| ==> !OccursAt(s, target, k)) ==> ReplaceFirst(s, target, replacement) == s
    ensures forall k: nat :: OccursAt(s, target, k) && (forall j :: 0 <= j < k ==> !OccursAt(s, target, j)) ==>
      ReplaceFirst(s, target, replacement) == s[..k] + replacement + s[k + |target|..]
  {
    forall k: nat | OccursAt(s, target, k) && (forall j :: 0 <= j < k ==> !OccursAt(s, target, j))
      ensures ReplaceFirst(s, target, replacement) == s[..k] + replacement + s[k + |target|..]
    {
      var i := IndexOf(s, target);
      assert i == Some(k);
    }
  }

  lemma ReplaceFirstAtStart(pat: string, rest: string)
    ensures ReplaceFirst(pat + rest, pat, "") == rest
  {
    assert OccursAt(pat + rest, pat, 0) by {
      assert (pat + rest)[0..|pat|] == pat;
    }
  }

  lemma ReplaceFirstAbsent(s: string, pat: string)
    requires |s| < |pat|
    ensures ReplaceFirst(s, pat, "") == s
  {
  }

  /** The character tests Kotlin's `split` and `dropWhile { it != c }` apply. */
  function Is(c: char): char -> bool {
    x => x == c
  }

  function IsNot(c: char): char -> bool {
    x => x != c
  }

  /** Kotlin `split(c)`: the pieces between occurrences of `c`, empty pieces kept. */
  function Split(s: string, c: char): (r: seq<string>)
    ensures |r| >= 1
    ensures forall i :: 0 <= i < |r| ==> c !in r[i]
    decreases |s|
  {
    match Lists.FindFirst(s, Is(c))
    case None => [s]
    case Some(k) => [s[..k]] + Split(s[k + 1..], c)
  }

  /** Kotlin `joinToString(c)`. */
  function Join(parts: seq<string>, c: char): string {
    if |parts| == 0 then ""
    else if |parts| == 1 then parts[0]
    else parts[0] + [c] + Join(parts[1..], c)
  }

  lemma SplitNoSeparator(s: string, c: char)
    requires c !in s
    ensures Split(s, c) == [s]
  {
  }

  /** Splitting at the first separator peels off the text before it. */
  lemma SplitAtFirst(a: string, c: char, b: string)
    requires c !in a
    ensures Split(a + [c] + b, c) == [a] + Split(b, c)
  {
    var s := a + [c] + b;
    var f := Lists.FindFirst(s, Is(c));
    assert s[|a|] == c;
    assert forall j :: 0 <= j < |a| ==> s[j] == a[j] && s[j] != c;
    assert f == Some(|a|);
    assert s[..|a|] == a;
    assert s[|a| + 1..] == b;
  }

  /** The first piece of a split is the text before the first separator, that is,
      what `dropWhile { it != c }` leaves out. */
  lemma SplitHead(s: string, c: char)
    ensures Split(s, c)[0] == s[..Lists.CountWhile(s, IsNot(c))]
  {
    var n := Lists.CountWhile(s, IsNot(c));
    match Lists.FindFirst(s, Is(c))
    case None =>
      assert n == |s|;
    case Some(j) =>
      assert n == j;
  }

  /** Joining the pieces of a split gives back the original text. */
  lemma {:induction false} JoinSplit(s: string, c: char)
    ensures Join(Split(s, c), c) == s
    decreases |s|
  {
    match Lists.FindFirst(s, Is(c))
    case None =>
    case Some(k) =>
      var rest := Split(s[k + 1..], c);
      JoinSplit(s[k + 1..], c);
      assert Split(s, c) == [s[..k]] + rest;
      assert s == s[..k] + [c] + s[k + 1..];
  }

  /** ASCII lower-casing: the only characters that compare equal to a letter of
      "true" under Kotlin's case-insensitive comparison are its two ASCII cases. */
  function LowerAscii(c: char): char {
    if 'A' <= c <= 'Z' then (c as int + 32) as char else c
  }

  /** Kotlin `String.toBoolean()`: equal to "true" ignoring case. */
  function ToBoolean(s: string): (r: bool)
    ensures r ==> |s| == 4
    ensures s == "true" ==> r
    ensures s == "false" ==> !r
  {
    |s| == 4 && LowerAscii(s[0]) == 't' && LowerAscii(s[1]) == 'r'
    && LowerAscii(s[2]) == 'u' && LowerAscii(s[3]) == 'e'
  }
}
