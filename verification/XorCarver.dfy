/**
  * The scan for PE images hidden under a one-byte XOR key. The scan looks for the encoded DOS signature and checks the
  * header fields while they are still encoded; it refines the naive search that decodes every suffix.
  */
module XorCarver {
  import opened Basics
  import opened Fields
  import opened PeParser

  // ---------- XOR on bytes ----------

  /** Bitwise exclusive or of the low `n` bits. */
  function XorBits(a: nat, b: nat, n: nat): nat {
    if n == 0 then 0 else 2 * XorBits(a / 2, b / 2, n - 1) + (a % 2 + b % 2) % 2
  }

  function Power2(n: nat): nat {
    if n == 0 then 1 else 2 * Power2(n - 1)
  }

  lemma {:induction false} XorBitsBound(a: nat, b: nat, n: nat)
    ensures XorBits(a, b, n) < Power2(n)
  {
    if n > 0 {
      XorBitsBound(a / 2, b / 2, n - 1);
    }
  }

  lemma {:induction false} LastBit(half: nat, bit: nat)
    requires bit < 2
    ensures (2 * half + bit) / 2 == half && (2 * half + bit) % 2 == bit
  {
  }

  lemma {:induction false} XorUnfolds(a: nat, b: nat, n: nat)
    requires n > 0
    ensures XorBits(a, b, n) == 2 * XorBits(a / 2, b / 2, n - 1) + (a % 2 + b % 2) % 2
  {
  }

  lemma {:induction false} XorBitsInvolution(a: nat, b: nat, n: nat)
    requires a < Power2(n)
    ensures XorBits(XorBits(a, b, n), b, n) == a
  {
    if n > 0 {
      hide XorBits;
      XorBitsInvolution(a / 2, b / 2, n - 1);
      var half := XorBits(a / 2, b / 2, n - 1);
      var bit := (a % 2 + b % 2) % 2;
      XorUnfolds(a, b, n);
      XorUnfolds(2 * half + bit, b, n);
      LastBit(half, bit);
    } else {
      assert a == 0;
    }
  }

  lemma {:induction false} Power2Of8()
    ensures Power2(8) == 256
  {
    assert Power2(4) == 16;
    assert Power2(6) == 64;
  }

  function Xor(b: byte, key: byte): byte {
    Power2Of8();
    XorBitsBound(b, key, 8);
    XorBits(b, key, 8)
  }

  lemma {:induction false} XorInvolution(b: byte, key: byte)
    ensures Xor(Xor(b, key), key) == b
  {
    Power2Of8();
    XorBitsInvolution(b, key, 8);
  }

  /** Encoding and decoding are the same operation. */
  function Decode(data: bytes, key: byte): (r: bytes)
    ensures |r| == |data|
  {
    if data == [] then [] else Decode(data[..|data| - 1], key) + [Xor(data[|data| - 1], key)]
  }

  lemma {:induction false} DecodeAt(data: bytes, key: byte)
    ensures forall i :: 0 <= i < |data| ==> Decode(data, key)[i] == Xor(data[i], key)
  {
    hide Xor;
    if data != [] {
      DecodeAt(data[..|data| - 1], key);
    }
  }

  lemma {:induction false} DecodeSlice(data: bytes, key: byte, i: nat, j: nat)
    requires i <= j <= |data|
    ensures Decode(data[i..j], key) == Decode(data, key)[i..j]
  {
    hide Decode, Xor;
    DecodeAt(data, key);
    DecodeAt(data[i..j], key);
  }

  // ---------- the naive search ----------

  predicate AcceptsAt(data: bytes, key: byte, i: nat)
    requires i <= |data|
  {
    IsPe(Decode(data[i..], key))
  }

  /** The least offset from `from` on whose decoded suffix is a PE image. */
  function FirstPe(data: bytes, key: byte, from: nat): (r: Option<nat>)
    requires from <= |data|
    ensures r.Some? ==> from <= r.value < |data| && AcceptsAt(data, key, r.value)
    ensures forall i :: from <= i < (if r.Some? then r.value else |data|) ==> !AcceptsAt(data, key, i)
    decreases |data| - from
  {
    if from == |data| then None
    else if AcceptsAt(data, key, from) then Some(from)
    else FirstPe(data, key, from + 1)
  }

  lemma {:induction false} SkipRejected(data: bytes, key: byte, from: nat, to: nat)
    requires from <= to <= |data|
    requires forall i :: from <= i < to ==> !AcceptsAt(data, key, i)
    ensures FirstPe(data, key, from) == FirstPe(data, key, to)
  {
    hide AcceptsAt, FirstPe;
    var a, b := FirstPe(data, key, from), FirstPe(data, key, to);
    assert a.Some? ==> AcceptsAt(data, key, a.value);
    assert b.Some? ==> AcceptsAt(data, key, b.value);
  }

  // ---------- the pre-filter ----------

  /** The checks made on the encoded bytes behind an encoded DOS signature at `i`. */
  predicate Filter(data: bytes, key: byte, i: nat)
    requires i + 64 <= |data|
  {
    var eLfanew := U32(Decode(data[i + 60..i + 64], key), 0, Little);
    eLfanew + 24 <= |data| - i &&
    Decode(data[i + eLfanew..i + eLfanew + 4], key) == [0x50, 0x45, 0, 0]
  }

  lemma {:induction false} XorSwap(b: byte, c: byte, key: byte)
    ensures Xor(b, key) == c <==> b == Xor(c, key)
  {
    XorInvolution(b, key);
    XorInvolution(c, key);
  }

  /** The cheap checks agree with decoding the whole suffix and parsing it. */
  lemma {:induction false} FilterAgrees(data: bytes, key: byte, i: nat)
    requires i <= |data|
    ensures AcceptsAt(data, key, i) <==>
            i + 64 <= |data| && data[i] == Xor(M, key) && data[i + 1] == Xor(Z, key) && Filter(data, key, i)
  {
    hide Xor, U32, U16, Decode;
    var d := Decode(data[i..], key);
    DecodeAt(data[i..], key);
    if i + 64 <= |data| {
      XorSwap(data[i], M, key);
      XorSwap(data[i + 1], Z, key);
      DecodeSlice(data[i..], key, 60, 64);
      assert data[i..][60..64] == data[i + 60..i + 64];
      var e := U32(Decode(data[i + 60..i + 64], key), 0, Little);
      U32OfSlice(d, 60, 64, 0, Little);
      if e + 24 <= |data| - i {
        DecodeSlice(data[i..], key, e, e + 4);
        assert data[i..][e..e + 4] == data[i + e..i + e + 4];
      }
    }
  }

  // ---------- the scan ----------

  datatype Carved = Carved(key: byte, offset: nat, data: bytes)

  datatype Hit = NoHit | ParserRaised | Hit(carved: Carved)

  /** What a key yields: the image at the least accepted offset, cut where its furthest section ends. */
  ghost predicate IsHit(data: bytes, key: byte, hit: Hit) {
    match FirstPe(data, key, 0)
    case None => hit == NoHit
    case Some(i) =>
      var d := Decode(data[i..], key);
      if Raises(d) then hit == ParserRaised
      else hit.Hit? && exists e: nat :: IsFurthestEnd(d, e) && hit.carved == Carved(key, i, d[..Min(|d|, e)])
  }

  /** The loop for one key: every turn moves past one encoded DOS signature. */
  method ScanKey(data: bytes, key: byte) returns (hit: Hit)
    ensures IsHit(data, key, hit)
  {
    hide Xor, U32, U16, FirstPe, IsPe, Find, Decode;
    var signature := [Xor(M, key), Xor(Z, key)];
    var pos: nat := 0;
    while true
      invariant pos <= |data| && FirstPe(data, key, 0) == FirstPe(data, key, pos)
      decreases |data| - pos
    {
      var found := Find(data, signature, pos);
      ghost var stop := if found.Some? && found.value + 64 <= |data| then found.value else |data|;
      forall i | pos <= i < stop ensures !AcceptsAt(data, key, i) {
        FilterAgrees(data, key, i);
        assert i + 64 <= |data| ==> data[i..i + 2] == [data[i], data[i + 1]];
        assert !At(data, signature, i) || i + 64 > |data|;
      }
      SkipRejected(data, key, pos, stop);
      if found.None? || found.value + 64 > |data| {
        return NoHit;
      }
      var idx := found.value;
      FilterAgrees(data, key, idx);
      var eLfanew := U32(Decode(data[idx + 60..idx + 64], key), 0, Little);
      if eLfanew + 24 <= |data| - idx {
        var peSig := Decode(data[idx + eLfanew..idx + eLfanew + 4], key);
        if peSig == [0x50, 0x45, 0, 0] {
          var unxored := Decode(data[idx..], key);
          var peInfo := ParsePe(unxored);
          if peInfo.Raised? {
            return ParserRaised;
          }
          if peInfo.Pe? {
            return Hit(Carved(key, idx, unxored[..peInfo.info.calculatedSize]));
          }
        }
      }
      SkipRejected(data, key, idx, idx + 1);
      pos := idx + 1;
    }
  }

  lemma {:induction false} HitCases(data: bytes, key: byte, hit: Hit)
    requires IsHit(data, key, hit)
    ensures hit.NoHit? <==> FirstPe(data, key, 0).None?
    ensures IsHit(data, key, ParserRaised) <==> hit.ParserRaised?
    ensures hit.Hit? ==> hit.carved.key == key
  {
    hide FirstPe, IsFurthestEnd, IsPe, Raises;
  }

  lemma {:induction false} HitIsPrefix(data: bytes, key: byte, c: Carved)
    requires IsHit(data, key, Hit(c))
    ensures c.offset + |c.data| <= |data| && c.data == Decode(data[c.offset..], key)[..|c.data|]
  {
    hide Xor, IsFurthestEnd, IsPe, Raises, Decode;
  }

  datatype ScanResult = ScanRaised | Scanned(carved: seq<Carved>)

  /** The loop over the keys; an error in the parser ends the scan. */
  method CarveXorPe(data: bytes) returns (r: ScanResult)
    ensures |data| < 256 ==> r == Scanned([])
    ensures |data| >= 256 ==>
              (r.ScanRaised? <==> exists key: byte :: 1 <= key && IsHit(data, key, ParserRaised))
    ensures |data| >= 256 && r.Scanned? ==>
              && (forall c :: c in r.carved ==> 1 <= c.key && IsHit(data, c.key, Hit(c)))
              && (forall key: byte :: 1 <= key && FirstPe(data, key, 0).Some? ==>
                                        exists c :: c in r.carved && c.key == key)
              && (forall i, j :: 0 <= i < j < |r.carved| ==> r.carved[i].key < r.carved[j].key)
  {
    hide IsHit, FirstPe;
    var carved: seq<Carved> := [];
    if |data| < 256 {
      return Scanned([]);
    }
    for key := 1 to 256
      invariant forall c :: c in carved ==> 1 <= c.key < key && IsHit(data, c.key, Hit(c))
      invariant forall k: byte :: 1 <= k < key && FirstPe(data, k, 0).Some? ==> exists c :: c in carved && c.key == k
      invariant forall k: byte :: 1 <= k < key ==> !IsHit(data, k, ParserRaised)
      invariant forall i, j :: 0 <= i < j < |carved| ==> carved[i].key < carved[j].key
    {
      var hit := ScanKey(data, key);
      HitCases(data, key, hit);
      if hit.ParserRaised? {
        return ScanRaised;
      }
      if hit.Hit? {
        carved := carved + [hit.carved];
        assert hit.carved in carved;
      }
    }
    r := Scanned(carved);
  }

  lemma {:induction false} PrefixReencodes(data: bytes, key: byte, i: nat, n: nat)
    requires i + n <= |data|
    ensures Decode(Decode(data[i..], key)[..n], key) == data[i..i + n]
  {
    hide Xor, Decode;
    DecodeAt(data[i..], key);
    DecodeAt(Decode(data[i..], key)[..n], key);
    forall j | 0 <= j < n ensures Decode(Decode(data[i..], key)[..n], key)[j] == data[i..i + n][j] {
      XorInvolution(data[i + j], key);
    }
  }

  /** What is carved is, encoded again, exactly the bytes that were captured. */
  lemma {:induction false} CarvedReencodes(data: bytes, key: byte, c: Carved)
    requires IsHit(data, key, Hit(c))
    ensures c.offset + |c.data| <= |data|
    ensures Decode(c.data, key) == data[c.offset..c.offset + |c.data|]
  {
    HitIsPrefix(data, key, c);
    PrefixReencodes(data, key, c.offset, |c.data|);
    hide IsHit, Decode;
  }

  /** An image on which the parser raises, under any key, ends the whole scan. */
  lemma {:induction false} CutOffImageEndsScan(key: byte)
    requires key >= 1
    ensures |Decode(CutOffImage(), key)| == 256 && IsHit(Decode(CutOffImage(), key), key, ParserRaised)
  {
    CutOffImageRaises();
    hide Decode, IsPe, Raises, CutOffImage, IsFurthestEnd, Xor;
    var image := CutOffImage();
    var data := Decode(image, key);
    PrefixReencodes(image, key, 0, 256);
    assert image[0..] == image && data[0..] == data && data[..256] == data && image[0..256] == image;
    assert AcceptsAt(data, key, 0);
  }
}
