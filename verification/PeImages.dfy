/** PE images as they are written (the PE/COFF layout), read back by the parser. */
module PeImages {
  import opened Basics
  import opened Fields
  import opened PeParser

  /** A section header: where its raw data stand, with what comes before and behind these two fields. */
  datatype Section = Section(name: bytes, rawSize: nat, rawPointer: nat, rest: bytes) {
    predicate Valid() {
      |name| == 16 && |rest| == 16 && rawSize < 0x1_0000_0000 && rawPointer < 0x1_0000_0000
    }

    function Header(): (r: bytes)
      requires Valid()
      ensures |r| == 40
    {
      name + Put32(rawSize, Little) + Put32(rawPointer, Little) + rest
    }
  }

  predicate AllValid(sections: seq<Section>) {
    forall i :: 0 <= i < |sections| ==> sections[i].Valid()
  }

  function Headers(sections: seq<Section>): (r: bytes)
    requires AllValid(sections)
    ensures |r| == 40 * |sections|
  {
    if sections == [] then [] else Headers(sections[..|sections| - 1]) + sections[|sections| - 1].Header()
  }

  /**
    * DOS header with its 58 unused bytes and a stub, COFF header with its machine, dates and characteristics, optional
    * header with its magic, directories and whatever is between them, section headers, and data.
    */
  datatype Image = Image(
    unused: bytes, stub: bytes, machine: bytes, dates: bytes, characteristics: bytes, is64Bit: bool, fields: bytes,
    certificate: nat, certificateSize: nat, directories: bytes, sections: seq<Section>, data: bytes)
  {
    predicate Valid() {
      && |unused| == 58 && |stub| < 0x1000_0000 && |machine| == 2 && |dates| == 12 && |characteristics| == 2
      && |fields| == (if is64Bit then 142 else 126) && |directories| < 0x1000
      && certificate < 0x1_0000_0000 && certificateSize < 0x1_0000_0000
      && |sections| < 0x1_0000 && AllValid(sections)
    }

    function Optional(): (r: bytes)
      requires Valid()
      ensures |r| == |fields| + |directories| + 10
    {
      Put16(if is64Bit then 0x20B else 0x10B, Little) + fields +
      (Put32(certificate, Little) + Put32(certificateSize, Little)) + directories
    }

    function Coff(): (r: bytes)
      requires Valid()
      ensures |r| == 24
    {
      [0x50, 0x45, 0, 0] + machine + Put16(|sections|, Little) + dates + Put16(|Optional()|, Little) + characteristics
    }

    function Dos(): (r: bytes)
      requires Valid()
      ensures |r| == 64 + |stub|
    {
      [0x4D, 0x5A] + unused + Put32(64 + |stub|, Little) + stub
    }

    function Bytes(): bytes
      requires Valid()
    {
      Dos() + Coff() + Optional() + Headers(sections) + data
    }
  }

  lemma {:induction false} DosIsRead(m: Image, rest: bytes)
    requires m.Valid()
    ensures var d := m.Dos() + rest;
            d[0] == M && d[1] == Z && U32(d, 60, Little) == 64 + |m.stub|
  {
    hide U32, Put32;
    var before, n := [0x4D, 0x5A] + m.unused, 64 + |m.stub|;
    FieldAt(before, n, Little, m.stub + rest);
    assert m.Dos() + rest == before + Put32(n, Little) + (m.stub + rest);
  }

  lemma {:induction false} CoffIsRead(m: Image, before: bytes, rest: bytes)
    requires m.Valid()
    ensures var d, o := before + m.Coff() + rest, |before|;
            && d[o..o + 4] == [0x50, 0x45, 0, 0]
            && U16(d, o + 6, Little) == |m.sections| && U16(d, o + 20, Little) == |m.Optional()|
  {
    hide U16, Put16, Image.Optional;
    var d, o := before + m.Coff() + rest, |before|;
    var signature: bytes := [0x50, 0x45, 0, 0];
    var count, size := Put16(|m.sections|, Little), Put16(|m.Optional()|, Little);
    assert d[o..o + 4] == signature;
    ShortFieldAt(before + signature + m.machine, |m.sections|, Little, m.dates + size + m.characteristics + rest);
    assert d == before + signature + m.machine + count + (m.dates + size + m.characteristics + rest);
    ShortFieldAt(before + signature + m.machine + count + m.dates, |m.Optional()|, Little, m.characteristics + rest);
    assert d == before + signature + m.machine + count + m.dates + size + (m.characteristics + rest);
  }

  lemma {:induction false} OptionalIsRead(m: Image, before: bytes, rest: bytes)
    requires m.Valid()
    ensures var d, o := before + m.Optional() + rest, |before|;
            var c := o + if m.is64Bit then 144 else 128;
            && U16(d, o, Little) == (if m.is64Bit then 0x20B else 0x10B) && c + 8 <= |d|
            && U32(d, c, Little) == m.certificate && U32(d, c + 4, Little) == m.certificateSize
  {
    hide U16, Put16, U32, Put32;
    var magic := if m.is64Bit then 0x20B else 0x10B;
    var d, head := before + m.Optional() + rest, Put16(magic, Little);
    var va, size := Put32(m.certificate, Little), Put32(m.certificateSize, Little);
    ShortFieldAt(before, magic, Little, m.fields + (va + size) + m.directories + rest);
    assert d == before + head + (m.fields + (va + size) + m.directories + rest);
    FieldAt(before + head + m.fields, m.certificate, Little, size + m.directories + rest);
    assert d == before + head + m.fields + va + (size + m.directories + rest);
    FieldAt(before + head + m.fields + va, m.certificateSize, Little, m.directories + rest);
    assert d == before + head + m.fields + va + size + (m.directories + rest);
  }

  lemma {:induction false} SectionIsRead(s: Section, before: bytes, rest: bytes)
    requires s.Valid()
    ensures var d, o := before + s.Header() + rest, |before|;
            U32(d, o + 16, Little) == s.rawSize && U32(d, o + 20, Little) == s.rawPointer
  {
    hide U32, Put32;
    var d, size, pointer := before + s.Header() + rest, Put32(s.rawSize, Little), Put32(s.rawPointer, Little);
    FieldAt(before + s.name, s.rawSize, Little, pointer + s.rest + rest);
    assert d == before + s.name + size + (pointer + s.rest + rest);
    FieldAt(before + s.name + size, s.rawPointer, Little, s.rest + rest);
    assert d == before + s.name + size + pointer + (s.rest + rest);
  }

  lemma {:induction false} SectionsAreRead(sections: seq<Section>, before: bytes, rest: bytes, i: nat)
    requires AllValid(sections) && i < |sections|
    ensures var d, o := before + Headers(sections) + rest, |before| + 40 * i;
            U32(d, o + 16, Little) == sections[i].rawSize && U32(d, o + 20, Little) == sections[i].rawPointer
  {
    hide U32, Section.Header, Section.Valid;
    var front, last := sections[..|sections| - 1], sections[|sections| - 1];
    var d := before + Headers(sections) + rest;
    assert d == before + Headers(front) + (last.Header() + rest);
    assert d == (before + Headers(front)) + last.Header() + rest;
    if i < |front| {
      SectionsAreRead(front, before, last.Header() + rest, i);
    } else {
      SectionIsRead(last, before + Headers(front), rest);
    }
  }

  /** The parser reads back what was written: the sections, the certificate table and where they end. */
  lemma {:induction false} WrittenImageIsRead(m: Image)
    requires m.Valid()
    ensures var d := m.Bytes();
            && IsPe(d) && !Raises(d) && Is64Bit(d) == m.is64Bit && SectionCount(d) == |m.sections|
            && SectionTable(d) == |m.Dos()| + 24 + |m.Optional()|
            && (forall i :: 0 <= i < |m.sections| ==>
                  HasSection(d, i) && SectionEnd(d, i) == m.sections[i].rawPointer + m.sections[i].rawSize)
            && CertificateEnd(d) ==
               (if m.certificate > 0 && m.certificateSize > 0 then Some(m.certificate + m.certificateSize) else None)
  {
    hide U16, U32, Image.Dos, Image.Coff, Image.Optional, Headers, Section.Valid;
    var d := m.Bytes();
    var dos, coff, optional, headers := m.Dos(), m.Coff(), m.Optional(), Headers(m.sections);
    DosIsRead(m, coff + optional + headers + m.data);
    assert d == dos + (coff + optional + headers + m.data);
    CoffIsRead(m, dos, optional + headers + m.data);
    assert d == dos + coff + (optional + headers + m.data);
    OptionalIsRead(m, dos + coff, headers + m.data);
    assert d == (dos + coff) + optional + (headers + m.data);
    assert IsPe(d);
    forall i | 0 <= i < |m.sections|
      ensures HasSection(d, i) && SectionEnd(d, i) == m.sections[i].rawPointer + m.sections[i].rawSize
    {
      SectionsAreRead(m.sections, dos + coff + optional, m.data, i);
    }
  }
}
