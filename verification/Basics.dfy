/** Byte strings and the few Python idioms that the decoders rely on. */
module Basics {

  type byte = b: int | 0 <= b < 256
  type bytes = seq<byte>

  datatype Option<+T> = None | Some(value: T)

  function Min(a: int, b: int): int {
    if a <= b then a else b
  }

  function Max(a: int, b: int): int {
    if a <= b then b else a
  }

  // ---------- Python's slices and searches ----------

  /** Where a slice bound falls in `n` bytes: a negative one counts from the end, out of range is clipped. */
  function Clip(i: int, n: nat): nat {
    if i < 0 then Max(0, i + n) else Min(i, n)
  }

  /** `data[i:j]`. */
  function Slice(data: bytes, i: int, j: int): bytes {
    var lo, hi := Clip(i, |data|), Clip(j, |data|);
    if lo <= hi then data[lo..hi] else []
  }

  /** `data[i:]`. */
  function SliceFrom(data: bytes, i: int): bytes {
    data[Clip(i, |data|)..]
  }

  predicate At(data: bytes, pattern: bytes, i: nat) {
    i + |pattern| <= |data| && data[i..i + |pattern|] == pattern
  }

  /** `data.find(pattern, from)` for a pattern that is not empty and a position that is not negative. */
  function Find(data: bytes, pattern: bytes, from: nat): (r: Option<nat>)
    ensures r.Some? ==> from <= r.value && At(data, pattern, r.value)
    ensures forall i: nat :: from <= i && (r.None? || i < r.value) ==> !At(data, pattern, i)
    decreases |data| - from
  {
    if from + |pattern| > |data| then None
    else if At(data, pattern, from) then Some(from)
    else Find(data, pattern, from + 1)
  }

  /** `data.find(pattern, from)` for any position. */
  function FindFrom(data: bytes, pattern: bytes, from: int): (r: Option<nat>)
    ensures r.Some? ==> At(data, pattern, r.value)
  {
    Find(data, pattern, Clip(from, |data|))
  }

  /** Slices and searches depend on a position only through where it falls. */
  lemma {:induction false} PositionIsClipped(data: bytes, pattern: bytes, i: int)
    ensures var p := Clip(i, |data|);
            && Clip(p, |data|) == p && 0 <= p <= |data| && (data != [] ==> (i >= |data| <==> p >= |data|))
            && (forall j: int :: Slice(data, p, j) == Slice(data, i, j)) && SliceFrom(data, p) == SliceFrom(data, i)
            && FindFrom(data, pattern, p) == FindFrom(data, pattern, i)
            && (data == [] && pattern != [] ==> FindFrom(data, pattern, i) == None)
  {
    hide Find;
  }

  lemma {:induction false} FindIs(data: bytes, pattern: bytes, from: nat, i: nat)
    requires from <= i && At(data, pattern, i)
    requires forall j: nat :: from <= j < i ==> !At(data, pattern, j)
    ensures Find(data, pattern, from) == Some(i)
  {
  }

  // ---------- concatenation ----------

  function Reverse(data: bytes): bytes {
    if data == [] then [] else Reverse(data[1..]) + [data[0]]
  }

  /** Where the three middle parts of a concatenation stand. */
  lemma {:induction false} SlicesOfConcat(a: bytes, b: bytes, c: bytes, d: bytes, e: bytes)
    ensures var s, i, j := a + (b + c + d) + e, |a| + |b|, |a| + |b| + |c|;
            s[|a|..i] == b && s[i..j] == c && s[j..j + |d|] == d
  {
  }

  lemma {:induction false} ConcatOfSlices(s: bytes, i: nat, j: nat, k: nat, l: nat)
    requires i <= j <= k <= l <= |s|
    ensures s[i..l] == s[i..j] + s[j..k] + s[k..l]
  {
  }

  // ---------- the key order of a dict ----------

  predicate Distinct<T(==)>(s: seq<T>) {
    forall i, j :: 0 <= i < j < |s| ==> s[i] != s[j]
  }

  lemma {:induction false} DistinctAppend<T>(s: seq<T>, x: T)
    requires Distinct(s) && x !in s
    ensures Distinct(s + [x])
  {
  }

  function Remove<T(==, !new)>(order: seq<T>, key: T): (r: seq<T>)
    ensures forall k :: k in r <==> k in order && k != key
    ensures Distinct(order) ==> Distinct(r)
  {
    if order == [] then []
    else
      var front, last := order[..|order| - 1], order[|order| - 1];
      assert Distinct(order) ==> Distinct(front) && last !in front;
      var r := Remove(front, key);
      assert last !in front ==> last !in r;
      if last == key then r else r + [last]
  }

  lemma {:induction false} DistinctSuffix<T>(s: seq<T>, i: nat)
    requires Distinct(s) && i < |s|
    ensures s[i] !in s[i + 1..]
    ensures forall k :: k in s[i..] <==> k == s[i] || k in s[i + 1..]
  {
    assert s[i..] == [s[i]] + s[i + 1..];
  }

  lemma {:induction false} FirstIsMember<T>(s: seq<T>)
    ensures s != [] ==> s[0] in s
  {
  }

  lemma {:induction false} ConcatAssociative<T>(a: seq<T>, b: seq<T>, c: seq<T>)
    ensures (a + b) + c == a + (b + c)
  {
  }

  lemma {:induction false} ConcatNothing<T>(a: seq<T>)
    ensures a + [] == a && [] + a == a
  {
  }

  // ---------- finite sets ----------

  lemma {:induction false} SubsetSize<T>(a: set<T>, b: set<T>)
    requires a <= b
    ensures |a| <= |b|
  {
    assert b == a + (b - a);
  }

  /** The numbers below `n`. */
  function Below(n: nat): (r: set<nat>)
    ensures |r| == n && forall i: nat :: i in r <==> i < n
  {
    if n == 0 then {} else Below(n - 1) + {n - 1}
  }
}
