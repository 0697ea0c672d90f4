/** 32-bit TCP sequence numbers and their signed modular distance (RFC 9293 section 3.4, RFC 1982 section 3.2). */
module SequenceNumbers {

  const MODULUS := 0x1_0000_0000
  const HALF := 0x8000_0000

  type u32 = x: int | 0 <= x < 0x1_0000_0000

  /** `x & 0xFFFFFFFF` on a Python integer, which is the non-negative residue. */
  function Wrap(x: int): u32 {
    x % MODULUS
  }

  function SeqDiff(a: u32, b: u32): int {
    var diff := (a - b) % MODULUS;
    if diff >= HALF then diff - MODULUS else diff
  }

  /** How far `seqNum` lies past `origin`, going up and wrapping around. */
  function Offset(seqNum: u32, origin: u32): nat {
    (seqNum - origin) % MODULUS
  }

  lemma {:induction false} OffsetOfWrap(origin: u32, x: int)
    requires 0 <= x < MODULUS
    ensures Offset(Wrap(origin + x), origin) == x
  {
  }

  lemma {:induction false} WrapOfOffset(origin: u32, seqNum: u32)
    ensures Wrap(origin + Offset(seqNum, origin)) == seqNum
  {
  }

  lemma {:induction false} WrapAdd(x: int, y: int)
    ensures Wrap(Wrap(x) + y) == Wrap(x + y)
  {
  }

  /** The distance of two positions within half the number space of each other is their true distance. */
  lemma {:induction false} SeqDiffWithinHalf(origin: u32, x: int, y: int)
    requires 0 <= x < MODULUS && 0 <= y < MODULUS
    requires -HALF <= x - y < HALF
    ensures SeqDiff(Wrap(origin + x), Wrap(origin + y)) == x - y
  {
  }

  lemma {:induction false} NoDistance(x: u32)
    ensures SeqDiff(x, x) == 0
  {
  }

  lemma {:induction false} SynIsOneBehind(seqNum: u32)
    ensures SeqDiff(seqNum, Wrap(seqNum + 1)) == -1 && SeqDiff(Wrap(seqNum + 1), seqNum) == 1
  {
  }

  /** The comparison is antisymmetric except at a distance of exactly 2^31, where both directions are negative. */
  lemma {:induction false} SeqDiffAntisymmetricIff(a: u32, b: u32)
    ensures SeqDiff(a, b) == -SeqDiff(b, a) <==> SeqDiff(a, b) != -HALF
    ensures SeqDiff(a, b) == -HALF ==> SeqDiff(b, a) == -HALF
    ensures Wrap(b + SeqDiff(a, b)) == a
  {
  }
}
