/**
  * What was written is read back, in both byte orders and with padding, and a file that was cut off yields the
  * records before the cut.
  */
module CaptureRoundTrips {
  import opened Basics
  import opened CaptureFiles
  import opened Fields

  // ---------- pcap ----------

  predicate Writable(r: Record) {
    r.high < 0x1_0000_0000 && r.low < 0x1_0000_0000 && |r.frame| < 0x1_0000_0000
  }

  predicate AllWritable(rs: seq<Record>, linkType: nat) {
    forall i :: 0 <= i < |rs| ==> Writable(rs[i]) && rs[i].linkType == linkType
  }

  function PutRecord(r: Record, e: Endian): bytes
    requires Writable(r)
  {
    (Put32(r.high, e) + Put32(r.low, e) + Put32(|r.frame|, e) + Put32(|r.frame|, e)) + r.frame
  }

  function PutRecords(rs: seq<Record>, e: Endian): bytes
    requires forall i :: 0 <= i < |rs| ==> Writable(rs[i])
  {
    if rs == [] then [] else PutRecord(rs[0], e) + PutRecords(rs[1..], e)
  }

  function Magic(e: Endian, nano: bool): (r: bytes)
    ensures |r| == 4
  {
    match (e, nano)
    case (Little, false) => PCAP_MICRO_LE
    case (Little, true) => PCAP_NANO_LE
    case (Big, false) => PCAP_MICRO_BE
    case (Big, true) => PCAP_NANO_BE
  }

  /** Magic, version 2.4, time zone, accuracy, snapshot length and link type. */
  function PutPcapHeader(e: Endian, nano: bool, linkType: nat): (r: bytes)
    requires linkType < 0x1_0000_0000
    ensures |r| == 24
  {
    Magic(e, nano) + (Put16(2, e) + Put16(4, e) + Put32(0, e) + Put32(0, e) + Put32(65535, e)) + Put32(linkType, e)
  }

  function WritePcap(rs: seq<Record>, e: Endian, nano: bool, linkType: nat): bytes
    requires AllWritable(rs, linkType) && linkType < 0x1_0000_0000
  {
    PutPcapHeader(e, nano, linkType) + PutRecords(rs, e)
  }

  lemma {:induction false} RecordFieldsAt(before: bytes, r: Record, e: Endian, after: bytes)
    requires Writable(r)
    ensures var file, o, n := before + PutRecord(r, e) + after, |before|, |r.frame|;
            && o + 16 + n <= |file| && U32(file, o, e) == r.high && U32(file, o + 4, e) == r.low
            && U32(file, o + 8, e) == n && file[o + 16..o + 16 + n] == r.frame
  {
    hide U32, Put32;
    var n, o := |r.frame|, |before|;
    var fields := Put32(r.high, e) + Put32(r.low, e) + Put32(n, e) + Put32(n, e);
    FourFieldsAt(before, r.high, r.low, n, n, e, r.frame + after);
    assert before + PutRecord(r, e) + after == before + fields + (r.frame + after);
    SlicesOfConcat(before, fields, r.frame, [], after);
    assert PutRecord(r, e) == fields + r.frame + [];
  }

  lemma {:induction false} RecordLength(r: Record, e: Endian)
    requires Writable(r)
    ensures |PutRecord(r, e)| == 16 + |r.frame|
  {
  }

  lemma {:induction false} OneRecord(before: bytes, r: Record, e: Endian, after: bytes)
    requires Writable(r)
    ensures var written := before + PutRecord(r, e);
            PcapRecords(written + after, |before|, e, r.linkType) ==
            [r] + PcapRecords(written + after, |written|, e, r.linkType)
  {
    hide U32, PutRecord;
    RecordLength(r, e);
    RecordFieldsAt(before, r, e, after);
  }

  lemma {:induction false} RecordsRoundTrip(before: bytes, rs: seq<Record>, e: Endian, linkType: nat)
    requires AllWritable(rs, linkType)
    ensures PcapRecords(before + PutRecords(rs, e), |before|, e, linkType) == rs
    decreases |rs|
  {
    hide PutRecord, U32, Put32;
    if rs != [] {
      var rest := PutRecords(rs[1..], e);
      OneRecord(before, rs[0], e, rest);
      RecordsRoundTrip(before + PutRecord(rs[0], e), rs[1..], e, linkType);
      ConcatAssociative(before, PutRecord(rs[0], e), rest);
    }
  }

  lemma {:induction false} HeaderIsRead(e: Endian, nano: bool, linkType: nat, rest: bytes)
    requires linkType < 0x1_0000_0000
    ensures var file := PutPcapHeader(e, nano, linkType) + rest;
            FormatOf(file) == Pcap(e, nano) && U32(file, 20, e) == linkType
  {
    hide U32, Put32, Put16;
    var file := PutPcapHeader(e, nano, linkType) + rest;
    var middle := Put16(2, e) + Put16(4, e) + Put32(0, e) + Put32(0, e) + Put32(65535, e);
    assert file[..4] == Magic(e, nano);
    FieldAt(Magic(e, nano) + middle, linkType, e, rest);
    assert file == Magic(e, nano) + middle + Put32(linkType, e) + rest;
  }

  /** Any list of records, in either byte order and either time resolution. */
  lemma {:induction false} PcapRoundTrip(rs: seq<Record>, e: Endian, nano: bool, linkType: nat)
    requires AllWritable(rs, linkType) && linkType < 0x1_0000_0000
    ensures ReadAll(WritePcap(rs, e, nano, linkType)) == Some(rs)
  {
    hide U32, PutPcapHeader, FormatOf;
    HeaderIsRead(e, nano, linkType, PutRecords(rs, e));
    RecordsRoundTrip(PutPcapHeader(e, nano, linkType), rs, e, linkType);
  }

  // ---------- pcapng ----------

  function PutBlock(kind: nat, body: bytes, e: Endian): bytes
    requires kind < 0x1_0000_0000 && |body| + 12 < 0x1_0000_0000
  {
    (Put32(kind, e) + Put32(12 + |body|, e)) + body + Put32(12 + |body|, e)
  }

  function Padding(n: nat): bytes {
    seq((4 - n % 4) % 4, _ => 0)
  }

  predicate WritableNg(r: Record) {
    r.high < 0x1_0000_0000 && r.low < 0x1_0000_0000 && |r.frame| + 35 < 0x1_0000_0000
  }

  /** An enhanced packet block on the first interface. */
  function PacketBody(r: Record, e: Endian): bytes
    requires WritableNg(r)
  {
    Put32(0, e) + (Put32(r.high, e) + Put32(r.low, e) + Put32(|r.frame|, e) + Put32(|r.frame|, e)) +
    (r.frame + Padding(|r.frame|))
  }

  function PutPackets(rs: seq<Record>, e: Endian): bytes
    requires forall i :: 0 <= i < |rs| ==> WritableNg(rs[i])
  {
    if rs == [] then [] else PutBlock(6, PacketBody(rs[0], e), e) + PutPackets(rs[1..], e)
  }

  function InterfaceBody(linkType: nat, e: Endian): bytes
    requires linkType < 0x1_0000
  {
    Put16(linkType, e) + [0, 0] + Put32(65535, e)
  }

  /** Section header: type, length 24, byte-order magic, version 1.0, section length -1, length again. */
  function PutSection(e: Endian): (r: bytes)
    ensures |r| == 24
  {
    PCAPNG_SHB + (Put32(24, e) + Put32(0x1A2B3C4D, e)) +
    (Put16(1, e) + Put16(0, e) + [255, 255, 255, 255] + Put32(24, e))
  }

  function WritePcapng(rs: seq<Record>, e: Endian, linkType: nat): bytes
    requires linkType < 0x1_0000 && forall i :: 0 <= i < |rs| ==> WritableNg(rs[i])
  {
    PutSection(e) + (PutBlock(1, InterfaceBody(linkType, e), e) + PutPackets(rs, e))
  }

  /** What a block and the blocks from `next` on yield. */
  function Behind(block: Block, file: bytes, next: nat, e: Endian, interfaces: seq<nat>): seq<Record> {
    match block
    case Interface(t) => Blocks(file, next, e, interfaces + [t])
    case Frame(r) => [r] + Blocks(file, next, e, interfaces)
    case Other => Blocks(file, next, e, interfaces)
  }

  lemma {:induction false} BlockLength(kind: nat, body: bytes, e: Endian)
    requires kind < 0x1_0000_0000 && |body| + 12 < 0x1_0000_0000
    ensures |PutBlock(kind, body, e)| == 12 + |body|
  {
    hide Put32, U32;
  }

  lemma {:induction false} BlocksUnfold(file: bytes, pos: nat, kind: nat, body: bytes, e: Endian, interfaces: seq<nat>)
    requires pos + 12 + |body| <= |file| && U32(file, pos, e) == kind && U32(file, pos + 4, e) == 12 + |body|
    requires file[pos + 8..pos + 8 + |body|] == body
    ensures Blocks(file, pos, e, interfaces) ==
            Behind(BlockOf(kind, body, e, interfaces), file, pos + 12 + |body|, e, interfaces)
  {
    hide U32, BlockOf;
  }

  lemma {:induction false} BlockFieldsAt(before: bytes, kind: nat, body: bytes, e: Endian, after: bytes)
    requires kind < 0x1_0000_0000 && |body| + 12 < 0x1_0000_0000
    ensures var file, o, length := before + PutBlock(kind, body, e) + after, |before|, 12 + |body|;
            && o + length <= |file| && U32(file, o, e) == kind && U32(file, o + 4, e) == length
            && file[o + 8..o + 8 + |body|] == body
  {
    hide U32, Put32;
    var k, l := Put32(kind, e), Put32(12 + |body|, e);
    FieldAt(before, kind, e, l + body + l + after);
    FieldAt(before + k, 12 + |body|, e, body + l + after);
    assert before + PutBlock(kind, body, e) + after == before + k + (l + body + l + after);
    assert before + PutBlock(kind, body, e) + after == (before + k) + l + (body + l + after);
    SlicesOfConcat(before, k + l, body, l, after);
  }

  /** A block stands for itself, wherever it is written. */
  lemma {:induction false} OneBlock(before: bytes, kind: nat, body: bytes, e: Endian, after: bytes,
      interfaces: seq<nat>)
    requires kind < 0x1_0000_0000 && |body| + 12 < 0x1_0000_0000
    ensures var written := before + PutBlock(kind, body, e);
            var block := BlockOf(kind, body, e, interfaces);
            Blocks(written + after, |before|, e, interfaces) ==
            Behind(block, written + after, |written|, e, interfaces)
  {
    hide U32, BlockOf, PutBlock, Blocks, Behind;
    BlockLength(kind, body, e);
    BlockFieldsAt(before, kind, body, e, after);
    BlocksUnfold(before + PutBlock(kind, body, e) + after, |before|, kind, body, e, interfaces);
  }

  lemma {:induction false} ThreeParts(a: bytes, b: bytes, c: bytes, d: bytes)
    ensures a + b + (c + d) == [] + a + (b + (c + d))
    ensures (a + b + (c + d))[|a| + |b|..|a| + |b| + |c|] == c
  {
  }

  lemma {:induction false} PacketFieldsAt(r: Record, e: Endian)
    requires WritableNg(r)
    ensures var body, n := PacketBody(r, e), |r.frame|;
            && |body| >= 20 + n && U32(body, 0, e) == 0 && U32(body, 4, e) == r.high && U32(body, 8, e) == r.low
            && U32(body, 12, e) == n && body[20..20 + n] == r.frame
  {
    hide U32, Put32, Padding;
    var n, first := |r.frame|, Put32(0, e);
    var fields := Put32(r.high, e) + Put32(r.low, e) + Put32(n, e) + Put32(n, e);
    FourFieldsAt(first, r.high, r.low, n, n, e, r.frame + Padding(n));
    ThreeParts(first, fields, r.frame, Padding(n));
    FieldAt([], 0, e, fields + (r.frame + Padding(n)));
  }

  lemma {:induction false} PacketIsRead(r: Record, e: Endian, interfaces: seq<nat>)
    requires WritableNg(r) && interfaces == [r.linkType]
    ensures BlockOf(6, PacketBody(r, e), e, interfaces) == Frame(r)
  {
    PacketFieldsAt(r, e);
    hide PacketBody, U32, U16;
  }

  lemma {:induction false} InterfaceIsRead(linkType: nat, e: Endian)
    requires linkType < 0x1_0000
    ensures BlockOf(1, InterfaceBody(linkType, e), e, []) == Interface(linkType)
  {
  }

  lemma {:induction false} PacketLength(r: Record, e: Endian)
    requires WritableNg(r)
    ensures |PacketBody(r, e)| + 12 < 0x1_0000_0000
  {
  }

  lemma {:induction false} PacketsRoundTrip(before: bytes, rs: seq<Record>, e: Endian, linkType: nat)
    requires forall i :: 0 <= i < |rs| ==> WritableNg(rs[i]) && rs[i].linkType == linkType
    ensures Blocks(before + PutPackets(rs, e), |before|, e, [linkType]) == rs
    decreases |rs|
  {
    hide BlockOf, PacketBody, U32, Put32, PutBlock;
    if rs != [] {
      var body, rest := PacketBody(rs[0], e), PutPackets(rs[1..], e);
      PacketLength(rs[0], e);
      PacketIsRead(rs[0], e, [linkType]);
      OneBlock(before, 6, body, e, rest, [linkType]);
      PacketsRoundTrip(before + PutBlock(6, body, e), rs[1..], e, linkType);
      ConcatAssociative(before, PutBlock(6, body, e), rest);
    }
  }

  lemma {:induction false} SectionFieldsAt(e: Endian, rest: bytes)
    ensures var file := PutSection(e) + rest;
            file[..4] == PCAPNG_SHB && U32(file, 4, e) == 24 && U32(file, 8, e) == 0x1A2B3C4D
  {
    hide U32, Put32, Put16;
    var file, length, magic := PutSection(e) + rest, Put32(24, e), Put32(0x1A2B3C4D, e);
    var tail := Put16(1, e) + Put16(0, e) + [255, 255, 255, 255] + length;
    FieldAt(PCAPNG_SHB, 24, e, magic + tail + rest);
    FieldAt(PCAPNG_SHB + length, 0x1A2B3C4D, e, tail + rest);
    assert file == PCAPNG_SHB + length + (magic + tail + rest);
    assert file == (PCAPNG_SHB + length) + magic + (tail + rest);
  }

  /** Read in the wrong byte order, the byte-order magic is another number. */
  lemma {:induction false} ByteOrderMagic(data: bytes, i: nat)
    requires i + 4 <= |data| && U32(data, i, Big) == 0x1A2B3C4D
    ensures U32(data, i, Little) == 0x4D3C2B1A
  {
  }

  lemma {:induction false} SectionIsRead(e: Endian, rest: bytes)
    ensures var file := PutSection(e) + rest;
            FormatOf(file) == Pcapng && SectionEndian(file) == e && FirstBlock(file) == 24
  {
    hide PutSection, U32;
    SectionFieldsAt(e, rest);
    if e == Big {
      ByteOrderMagic(PutSection(e) + rest, 8);
    }
  }

  /** Any list of records, in either byte order, with frames of every length modulo four. */
  lemma {:induction false} PcapngRoundTrip(rs: seq<Record>, e: Endian, linkType: nat)
    requires linkType < 0x1_0000
    requires forall i :: 0 <= i < |rs| ==> WritableNg(rs[i]) && rs[i].linkType == linkType
    ensures ReadAll(WritePcapng(rs, e, linkType)) == Some(rs)
  {
    var interface := PutBlock(1, InterfaceBody(linkType, e), e);
    var packets := PutPackets(rs, e);
    var file := WritePcapng(rs, e, linkType);
    hide U32, Put32, Put16, PutSection, PutBlock, PutPackets, InterfaceBody, BlockOf, FormatOf, Blocks;
    SectionIsRead(e, interface + packets);
    InterfaceIsRead(linkType, e);
    OneBlock(PutSection(e), 1, InterfaceBody(linkType, e), e, packets, []);
    ConcatAssociative(PutSection(e), interface, packets);
    ConcatNothing([linkType]);
    PacketsRoundTrip(PutSection(e) + interface, rs, e, linkType);
  }

  // ---------- files that were cut off ----------

  lemma {:induction false} PrefixField(file: bytes, n: nat, i: nat, e: Endian)
    requires i + 4 <= n <= |file|
    ensures U32(file[..n], i, e) == U32(file, i, e)
  {
  }

  lemma {:induction false} PcapRecordsPrefix(file: bytes, n: nat, pos: nat, e: Endian, linkType: nat)
    requires n <= |file|
    ensures PcapRecords(file[..n], pos, e, linkType) <= PcapRecords(file, pos, e, linkType)
    decreases |file| - pos
  {
    hide U32;
    var cut := file[..n];
    if pos + 16 <= n {
      PrefixField(file, n, pos, e);
      PrefixField(file, n, pos + 4, e);
      PrefixField(file, n, pos + 8, e);
      var end := pos + 16 + U32(file, pos + 8, e);
      if end <= n {
        PcapRecordsPrefix(file, n, end, e, linkType);
        assert cut[pos + 16..end] == file[pos + 16..end];
      }
    }
  }

  lemma {:induction false} BlocksPrefix(file: bytes, n: nat, pos: nat, e: Endian, interfaces: seq<nat>)
    requires n <= |file|
    ensures Blocks(file[..n], pos, e, interfaces) <= Blocks(file, pos, e, interfaces)
    decreases |file| - pos
  {
    hide U32, BlockOf;
    var cut := file[..n];
    if pos + 8 <= n {
      PrefixField(file, n, pos, e);
      PrefixField(file, n, pos + 4, e);
      var length := U32(file, pos + 4, e);
      if 12 <= length && pos + length <= n {
        assert cut[pos + 8..pos + length - 4] == file[pos + 8..pos + length - 4];
        match BlockOf(U32(file, pos, e), file[pos + 8..pos + length - 4], e, interfaces)
        case Interface(t) => BlocksPrefix(file, n, pos + length, e, interfaces + [t]);
        case Frame(r) => BlocksPrefix(file, n, pos + length, e, interfaces);
        case Other => BlocksPrefix(file, n, pos + length, e, interfaces);
      }
    }
  }

  /** Whatever the file holds, reading its first `n` bytes yields a prefix of what reading all of it yields. */
  lemma {:induction false} TruncatedFile(file: bytes, n: nat)
    requires 4 <= n <= |file|
    ensures ReadAll(file).None? <==> ReadAll(file[..n]).None?
    ensures ReadAll(file).Some? ==> ReadAll(file[..n]).value <= ReadAll(file).value
  {
    assert file[..n][..4] == file[..4];
    assert FormatOf(file[..n]) == FormatOf(file);
    hide U32, PcapRecords, Blocks;
    match FormatOf(file) {
      case Pcap(e, nano) =>
        if n >= 24 {
          PrefixField(file, n, 20, e);
          PcapRecordsPrefix(file, n, 24, e, U32(file, 20, e));
        }
      case Pcapng =>
        if n >= 12 {
          PrefixField(file, n, 8, Little);
          PrefixField(file, n, 4, SectionEndian(file));
          BlocksPrefix(file, n, FirstBlock(file), SectionEndian(file), []);
        }
      case _ =>
    }
  }
}
