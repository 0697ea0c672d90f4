/**
  * What the scan is for: an image hidden under a key, anywhere in the data, is carved under that key, at that place,
  * and byte for byte. Exclusive or is told bit by bit.
  */
module XorImages {
  import opened Basics
  import opened Fields
  import opened PeParser
  import opened XorCarver

  // ---------- exclusive or, bit by bit ----------

  function Bit(n: nat, i: nat): (b: nat)
    ensures b < 2
  {
    if i == 0 then n % 2 else Bit(n / 2, i - 1)
  }

  lemma {:induction false} XorBitsAt(a: nat, b: nat, n: nat, i: nat)
    requires i < n
    ensures Bit(XorBits(a, b, n), i) == 1 <==> Bit(a, i) != Bit(b, i)
  {
    hide XorBits;
    XorUnfolds(a, b, n);
    LastBit(XorBits(a / 2, b / 2, n - 1), (a % 2 + b % 2) % 2);
    if i > 0 {
      XorBitsAt(a / 2, b / 2, n - 1, i - 1);
    }
  }

  /** A bit of the result is set if and only if exactly one of the two bits is. */
  lemma {:induction false} XorIsBitwise(b: byte, key: byte, i: nat)
    requires i < 8
    ensures Bit(Xor(b, key), i) == 1 <==> (Bit(b, i) == 1 && Bit(key, i) == 0) || (Bit(b, i) == 0 && Bit(key, i) == 1)
  {
    XorBitsAt(b, key, 8, i);
  }

  lemma {:induction false} BitsFix(a: nat, b: nat, n: nat)
    requires a < Power2(n) && b < Power2(n)
    requires forall i: nat :: i < n ==> Bit(a, i) == Bit(b, i)
    ensures a == b
  {
    if n > 0 {
      assert Bit(a, 0) == a % 2 && Bit(b, 0) == b % 2;
      forall i: nat | i < n - 1 ensures Bit(a / 2, i) == Bit(b / 2, i) {
        assert Bit(a, i + 1) == Bit(a / 2, i) && Bit(b, i + 1) == Bit(b / 2, i);
      }
      BitsFix(a / 2, b / 2, n - 1);
    }
  }

  /** Each bit of `e` is that of `P`, turned over exactly where the key has a bit. */
  predicate EncodedUnder(e: bytes, P: bytes, key: byte) {
    && |e| == |P|
    && forall j, i :: 0 <= j < |P| && 0 <= i < 8 ==> (Bit(e[j], i) == Bit(P[j], i) <==> Bit(key, i) == 0)
  }

  lemma {:induction false} DecodesByte(e: byte, b: byte, key: byte)
    requires forall i :: 0 <= i < 8 ==> (Bit(e, i) == Bit(b, i) <==> Bit(key, i) == 0)
    ensures Xor(e, key) == b
  {
    hide Xor;
    forall i: nat | i < 8 ensures Bit(Xor(e, key), i) == Bit(b, i) {
      XorIsBitwise(e, key, i);
    }
    Power2Of8();
    hide Power2, Bit;
    BitsFix(Xor(e, key), b, 8);
  }

  lemma {:induction false} EncodedDecodes(e: bytes, P: bytes, key: byte)
    requires EncodedUnder(e, P, key)
    ensures Decode(e, key) == P
  {
    hide Xor, Decode, Bit;
    DecodeAt(e, key);
    forall j | 0 <= j < |P| ensures Decode(e, key)[j] == P[j] {
      DecodesByte(e[j], P[j], key);
    }
  }

  /** There is such an encoding of any data under any key, and only one. */
  lemma {:induction false} EncodedIff(e: bytes, P: bytes, key: byte)
    ensures EncodedUnder(e, P, key) <==> e == Decode(P, key)
  {
    hide Xor, Decode, Bit;
    if e == Decode(P, key) {
      DecodeAt(P, key);
      forall j, i | 0 <= j < |P| && 0 <= i < 8 ensures Bit(e[j], i) == Bit(P[j], i) <==> Bit(key, i) == 0 {
        XorIsBitwise(P[j], key, i);
      }
    }
    if EncodedUnder(e, P, key) {
      EncodedDecodes(e, P, key);
      DecodeAt(e, key);
      DecodeAt(P, key);
      forall j | 0 <= j < |P| ensures e[j] == Decode(P, key)[j] {
        XorInvolution(e[j], key);
      }
    }
  }

  // ---------- images with data behind them ----------

  /** All of the image's headers are there, and its furthest end is where it ends. */
  ghost predicate Complete(P: bytes) {
    && IsPe(P)
    && SectionTable(P) + 40 * SectionCount(P) <= |P|
    && OptionalHeader(P) + 152 <= |P|
    && IsFurthestEnd(P, |P|)
  }

  lemma {:induction false} FieldsOfPrefix(P: bytes, x: bytes, i: nat)
    ensures i + 2 <= |P| ==> U16(P + x, i, Little) == U16(P, i, Little)
    ensures i + 4 <= |P| ==> U32(P + x, i, Little) == U32(P, i, Little)
  {
  }

  lemma {:induction false} HeadersOfPrefix(P: bytes, x: bytes)
    requires Complete(P)
    ensures IsPe(P + x)
    ensures OptionalHeader(P + x) == OptionalHeader(P) && OptionalHeaderSize(P + x) == OptionalHeaderSize(P)
    ensures SectionCount(P + x) == SectionCount(P) && KnownMagic(P + x) == KnownMagic(P) && !Raises(P + x)
    ensures SecurityDirectory(P + x) == SecurityDirectory(P) && CertificateEnd(P + x) == CertificateEnd(P)
  {
    hide U16, U32, IsFurthestEnd;
    var e := U32(P, 60, Little);
    FieldsOfPrefix(P, x, 60);
    assert (P + x)[e..e + 4] == P[e..e + 4];
    FieldsOfPrefix(P, x, e + 6);
    FieldsOfPrefix(P, x, e + 20);
    FieldsOfPrefix(P, x, e + 24);
    var o := SecurityDirectory(P);
    FieldsOfPrefix(P, x, o);
    FieldsOfPrefix(P, x, o + 4);
  }

  lemma {:induction false} CompleteEnds(P: bytes, x: bytes)
    requires Complete(P)
    ensures IsPe(P + x) && !Raises(P + x) && IsFurthestEnd(P + x, |P|)
  {
    HeadersOfPrefix(P, x);
    hide U16, U32, Raises, CertificateEnd, SectionCount, OptionalHeader, OptionalHeaderSize, IsPe;
    forall i: nat ensures HasSection(P + x, i) == HasSection(P, i)
      ensures HasSection(P, i) ==> SectionEnd(P + x, i) == SectionEnd(P, i)
    {
      if i < SectionCount(P) {
        FieldsOfPrefix(P, x, SectionTable(P) + 40 * i + 16);
        FieldsOfPrefix(P, x, SectionTable(P) + 40 * i + 20);
      }
    }
  }

  // ---------- hidden images ----------

  lemma {:induction false} DecodeConcat(a: bytes, b: bytes, key: byte)
    ensures Decode(a + b, key) == Decode(a, key) + Decode(b, key)
  {
    hide Xor, Decode;
    DecodeAt(a + b, key);
    DecodeAt(a, key);
    DecodeAt(b, key);
  }

  /** Where nothing is accepted earlier, the image at `n` is what the key yields. */
  lemma {:induction false} AcceptedAt(data: bytes, key: byte, n: nat, P: bytes, x: bytes, hit: Hit)
    requires n < |data| && Decode(data[n..], key) == P + x && IsPe(P + x) && !Raises(P + x)
    requires IsFurthestEnd(P + x, |P|)
    requires forall i :: 0 <= i < n ==> !AcceptsAt(data, key, i)
    ensures IsHit(data, key, hit) <==> hit == Hit(Carved(key, n, P))
  {
    assert AcceptsAt(data, key, n);
    hide Decode, IsFurthestEnd, IsPe, Raises, AcceptsAt, FirstPe;
    assert FirstPe(data, key, 0) == Some(n);
    assert (P + x)[..Min(|P + x|, |P|)] == P;
    forall c: nat | IsFurthestEnd(P + x, c) ensures c == |P| {
      FurthestEndUnique(P + x, c, |P|);
    }
  }

  /** A complete image behind anything that is not accepted earlier, with anything behind it, is what the key yields. */
  lemma {:induction false} HiddenImageIsCarved(prefix: bytes, e: bytes, suffix: bytes, P: bytes, key: byte, hit: Hit)
    requires Complete(P) && EncodedUnder(e, P, key)
    requires forall i :: 0 <= i < |prefix| ==> !AcceptsAt(prefix + e + suffix, key, i)
    ensures IsHit(prefix + e + suffix, key, hit) <==> hit == Hit(Carved(key, |prefix|, P))
  {
    var data := prefix + e + suffix;
    assert data[|prefix|..] == e + suffix && |P| > 0;
    EncodedDecodes(e, P, key);
    DecodeConcat(e, suffix, key);
    CompleteEnds(P, Decode(suffix, key));
    hide *;
    AcceptedAt(data, key, |prefix|, P, Decode(suffix, key), hit);
  }
}
