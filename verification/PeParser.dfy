/** Recognising a PE image and computing how many bytes of the data belong to it (pcap_decode/pe_parser.py). */
module PeParser {
  import opened Basics
  import opened Fields

  const M: byte := 0x4D
  const Z: byte := 0x5A

  predicate HasPeSignature(data: bytes, i: nat) {
    i + 4 <= |data| && data[i..i + 4] == [0x50, 0x45, 0, 0]
  }

  /** The acceptance test: DOS signature, room for the COFF header, PE signature. */
  predicate IsPe(data: bytes) {
    && |data| >= 64 && data[0] == M && data[1] == Z
    && U32(data, 60, Little) + 24 <= |data|
    && HasPeSignature(data, U32(data, 60, Little))
  }

  function OptionalHeader(data: bytes): nat
    requires IsPe(data)
  {
    U32(data, 60, Little) + 24
  }

  function OptionalHeaderSize(data: bytes): nat
    requires IsPe(data)
  {
    U16(data, U32(data, 60, Little) + 20, Little)
  }

  function SectionCount(data: bytes): nat
    requires IsPe(data)
  {
    U16(data, U32(data, 60, Little) + 6, Little)
  }

  predicate HasOptionalHeader(data: bytes)
    requires IsPe(data)
  {
    OptionalHeaderSize(data) > 0 && OptionalHeader(data) + OptionalHeaderSize(data) <= |data|
  }

  predicate KnownMagic(data: bytes)
    requires IsPe(data)
  {
    && OptionalHeader(data) + 2 <= |data|
    && (U16(data, OptionalHeader(data), Little) == 0x10B || U16(data, OptionalHeader(data), Little) == 0x20B)
  }

  /** The unpacking of the optional header runs past the data and raises: its magic, or its subsystem field. */
  predicate Raises(data: bytes)
    requires IsPe(data)
  {
    HasOptionalHeader(data) &&
    (|data| < OptionalHeader(data) + 2 ||
     (KnownMagic(data) && OptionalHeader(data) + 68 <= |data| < OptionalHeader(data) + 70))
  }

  predicate Is64Bit(data: bytes)
    requires IsPe(data)
  {
    HasOptionalHeader(data) && KnownMagic(data) && U16(data, OptionalHeader(data), Little) == 0x20B
  }

  function SectionTable(data: bytes): nat
    requires IsPe(data)
  {
    OptionalHeader(data) + OptionalHeaderSize(data)
  }

  /** The `i`-th section header is inside the data; the loop over the sections stops at the first that is not. */
  predicate HasSection(data: bytes, i: nat)
    requires IsPe(data)
  {
    i < SectionCount(data) && SectionTable(data) + 40 * i + 40 <= |data|
  }

  function SectionEnd(data: bytes, i: nat): nat
    requires IsPe(data) && HasSection(data, i)
  {
    var o := SectionTable(data) + 40 * i;
    U32(data, o + 20, Little) + U32(data, o + 16, Little)
  }

  function SecurityDirectory(data: bytes): nat
    requires IsPe(data)
  {
    OptionalHeader(data) + if Is64Bit(data) then 144 else 128
  }

  /** Where the certificate table ends, if there is one. */
  function CertificateEnd(data: bytes): Option<nat>
    requires IsPe(data)
  {
    var o := SecurityDirectory(data);
    if o + 8 <= |data| && U32(data, o, Little) > 0 && U32(data, o + 4, Little) > 0 then
      Some(U32(data, o, Little) + U32(data, o + 4, Little))
    else None
  }

  /** `e` is the furthest of the section table's start, the section ends and the certificate table's end. */
  ghost predicate IsFurthestEnd(data: bytes, e: nat)
    requires IsPe(data)
  {
    && SectionTable(data) <= e
    && (forall i: nat :: HasSection(data, i) ==> SectionEnd(data, i) <= e)
    && (CertificateEnd(data).Some? ==> CertificateEnd(data).value <= e)
    && (e == SectionTable(data) || CertificateEnd(data) == Some(e) ||
        exists i: nat :: HasSection(data, i) && SectionEnd(data, i) == e)
  }

  lemma {:induction false} FurthestEndUnique(data: bytes, e: nat, e': nat)
    requires IsPe(data) && IsFurthestEnd(data, e) && IsFurthestEnd(data, e')
    ensures e == e'
  {
  }

  /** 256 bytes with a PE header at 164 whose optional header is cut off in its subsystem field. */
  function CutOffImage(): (r: bytes)
    ensures |r| == 256
  {
    seq(256, i =>
      if i == 0 then 0x4D else if i == 1 then 0x5A
      else if i == 60 then 164
      else if i == 164 then 0x50 else if i == 165 then 0x45
      else if i == 184 then 68
      else if i == 188 then 0x0B else if i == 189 then 1
      else 0)
  }

  /** Such an image is accepted, and then the parser raises. */
  lemma {:induction false} CutOffImageRaises()
    ensures IsPe(CutOffImage()) && Raises(CutOffImage())
  {
    var d := CutOffImage();
    assert U32(d, 60, Little) == 164;
    assert d[164..168] == [0x50, 0x45, 0, 0];
    assert OptionalHeaderSize(d) == 68 && U16(d, 188, Little) == 0x10B;
  }

  datatype PeInfo = PeInfo(is64Bit: bool, sectionsCount: nat, calculatedSize: nat, overlaySize: nat)

  datatype PeResult = NotPe | Raised | Pe(info: PeInfo)

  /** The loop over the section headers. */
  method SectionsEnd(data: bytes) returns (maxRawEnd: nat)
    requires IsPe(data)
    ensures SectionTable(data) <= maxRawEnd
    ensures forall i: nat :: HasSection(data, i) ==> SectionEnd(data, i) <= maxRawEnd
    ensures maxRawEnd == SectionTable(data) || exists i: nat :: HasSection(data, i) && SectionEnd(data, i) == maxRawEnd
  {
    hide U16, U32;
    var sectionsStart := SectionTable(data);
    maxRawEnd := sectionsStart;
    var i: nat := 0;
    while i < SectionCount(data)
      invariant i <= SectionCount(data)
      invariant sectionsStart <= maxRawEnd
      invariant forall j: nat :: j < i ==> HasSection(data, j)
      invariant forall j: nat :: HasSection(data, j) && j < i ==> SectionEnd(data, j) <= maxRawEnd
      invariant maxRawEnd == sectionsStart || exists j: nat :: HasSection(data, j) && SectionEnd(data, j) == maxRawEnd
    {
      var header := sectionsStart + i * 40;
      if header + 40 > |data| {
        break;
      }
      assert HasSection(data, i);
      var rawSize, rawPtr := U32(data, header + 16, Little), U32(data, header + 20, Little);
      var secEnd := rawPtr + rawSize;
      if secEnd > maxRawEnd {
        maxRawEnd := secEnd;
      }
      i := i + 1;
    }
  }

  method ParsePe(data: bytes) returns (r: PeResult)
    ensures r.NotPe? <==> !IsPe(data)
    ensures r.Raised? <==> IsPe(data) && Raises(data)
    ensures r.Pe? ==>
              && r.info.is64Bit == Is64Bit(data) && r.info.sectionsCount == SectionCount(data)
              && r.info.calculatedSize + r.info.overlaySize == |data|
              && exists e: nat :: IsFurthestEnd(data, e) && r.info.calculatedSize == Min(|data|, e)
  {
    hide U16, U32;
    if |data| < 64 || !(data[0] == M && data[1] == Z) {
      return NotPe;
    }
    var eLfanew := U32(data, 60, Little);
    if eLfanew + 24 > |data| || data[eLfanew..eLfanew + 4] != [0x50, 0x45, 0, 0] {
      return NotPe;
    }
    var coff := eLfanew + 4;
    var numSections, optHdrSize := U16(data, coff + 2, Little), U16(data, coff + 16, Little);
    var opt := coff + 20;
    var is64Bit := false;
    if optHdrSize > 0 && opt + optHdrSize <= |data| {
      if |data| < opt + 2 {
        return Raised;
      }
      var magic := U16(data, opt, Little);
      if magic == 0x10B || magic == 0x20B {
        is64Bit := magic == 0x20B;
        if opt + 68 <= |data| && |data| < opt + 70 {
          return Raised;
        }
      }
    }
    var sectionsStart := opt + optHdrSize;
    var maxRawEnd := SectionsEnd(data);
    var securityDir := opt + if !is64Bit then 128 else 144;
    if securityDir + 8 <= |data| {
      var certVa, certSize := U32(data, securityDir, Little), U32(data, securityDir + 4, Little);
      if certVa > 0 && certSize > 0 {
        var certEnd := certVa + certSize;
        if certEnd > maxRawEnd {
          maxRawEnd := certEnd;
        }
      }
    }
    assert IsFurthestEnd(data, maxRawEnd);
    var size := if maxRawEnd > 0 then Min(|data|, maxRawEnd) else |data|;
    return Pe(PeInfo(is64Bit, numSections, size, if |data| > size then |data| - size else 0));
  }
}
