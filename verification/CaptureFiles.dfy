/** Reading pcap and pcapng files, as byte sequences read from front to back. */
module CaptureFiles {
  import opened Basics
  import opened Fields

  const PCAP_MICRO_LE: bytes := [0xd4, 0xc3, 0xb2, 0xa1]
  const PCAP_MICRO_BE: bytes := [0xa1, 0xb2, 0xc3, 0xd4]
  const PCAP_NANO_LE: bytes := [0x4d, 0x3c, 0xb2, 0xa1]
  const PCAP_NANO_BE: bytes := [0xa1, 0xb2, 0x3c, 0x4d]
  const PCAPNG_SHB: bytes := [0x0a, 0x0d, 0x0d, 0x0a]

  const LINKTYPE_ETHERNET: nat := 1

  /** What is handed to the packet decoder: the two halves of the time stamp, the link type and the frame. */
  datatype Record = Record(high: nat, low: nat, linkType: nat, frame: bytes)

  /** How a file is to be read, from its first four bytes. */
  datatype Format = Pcap(endian: Endian, nano: bool) | Pcapng | Empty | Unknown

  function FormatOf(file: bytes): Format {
    var magic := if |file| < 4 then file else file[..4];
    if magic == [] then Empty
    else if magic == PCAPNG_SHB then Pcapng
    else if magic == PCAP_MICRO_LE then Pcap(Little, false)
    else if magic == PCAP_NANO_LE then Pcap(Little, true)
    else if magic == PCAP_MICRO_BE then Pcap(Big, false)
    else if magic == PCAP_NANO_BE then Pcap(Big, true)
    else Unknown
  }

  // ---------- pcap ----------

  /** The records from `pos` on, up to the first that is cut off. */
  function PcapRecords(file: bytes, pos: nat, e: Endian, linkType: nat): seq<Record>
    decreases |file| - pos
  {
    if pos + 16 > |file| then []
    else
      var caplen := U32(file, pos + 8, e);
      if pos + 16 + caplen > |file| then []
      else
        [Record(U32(file, pos, e), U32(file, pos + 4, e), linkType, file[pos + 16..pos + 16 + caplen])]
        + PcapRecords(file, pos + 16 + caplen, e, linkType)
  }

  /** The next record, as it is read: its header, then its frame. */
  lemma {:induction false} NextRecord(file: bytes, pos: nat, e: Endian, linkType: nat)
    requires pos + 16 <= |file|
    ensures var header := file[pos..pos + 16];
            var end := pos + 16 + U32(header, 8, e);
            PcapRecords(file, pos, e, linkType) ==
            if end > |file| then []
            else [Record(U32(header, 0, e), U32(header, 4, e), linkType, file[pos + 16..end])]
                 + PcapRecords(file, end, e, linkType)
  {
    hide U32;
    U32OfSlice(file, pos, pos + 16, 0, e);
    U32OfSlice(file, pos, pos + 16, 4, e);
    U32OfSlice(file, pos, pos + 16, 8, e);
  }

  lemma {:induction false} NoMoreRecords(file: bytes, pos: nat, e: Endian, linkType: nat)
    requires pos + 16 > |file|
    ensures PcapRecords(file, pos, e, linkType) == []
  {
  }

  function ReadPcap(file: bytes, e: Endian): seq<Record> {
    if |file| < 24 then [] else PcapRecords(file, 24, e, U32(file, 20, e))
  }

  // ---------- pcapng ----------

  function SectionEndian(file: bytes): Endian
    requires |file| >= 12
  {
    if U32(file, 8, Little) == 0x1A2B3C4D then Little else Big
  }

  /** Where the blocks behind the section header start. */
  function FirstBlock(file: bytes): nat
    requires |file| >= 12
  {
    Max(12, U32(file, 4, SectionEndian(file)))
  }

  function LinkType(interfaces: seq<nat>, id: nat): nat {
    if id < |interfaces| then interfaces[id] else LINKTYPE_ETHERNET
  }

  /** `body[i:j]` with both ends clipped. */
  function Clipped(body: bytes, i: nat, j: nat): bytes
    requires i <= j && i <= |body|
  {
    body[i..Min(j, |body|)]
  }

  /** What one block adds: an interface, a record, or nothing. */
  datatype Block = Interface(linkType: nat) | Frame(record: Record) | Other

  function BlockOf(kind: nat, body: bytes, e: Endian, interfaces: seq<nat>): Block {
    if kind == 1 && |body| >= 8 then Interface(U16(body, 0, e))
    else if kind == 6 && |body| >= 20 then
      Frame(Record(U32(body, 4, e), U32(body, 8, e), LinkType(interfaces, U32(body, 0, e)),
                   Clipped(body, 20, 20 + U32(body, 12, e))))
    else if kind == 3 && |body| >= 4 then
      Frame(Record(0, 0, LinkType(interfaces, 0), Clipped(body, 4, 4 + U32(body, 0, e))))
    else Other
  }

  function Blocks(file: bytes, pos: nat, e: Endian, interfaces: seq<nat>): seq<Record>
    decreases |file| - pos
  {
    if pos + 8 > |file| then []
    else
      var kind, length := U32(file, pos, e), U32(file, pos + 4, e);
      if length < 12 || pos + length > |file| then []
      else
        match BlockOf(kind, file[pos + 8..pos + length - 4], e, interfaces)
        case Interface(t) => Blocks(file, pos + length, e, interfaces + [t])
        case Frame(r) => [r] + Blocks(file, pos + length, e, interfaces)
        case Other => Blocks(file, pos + length, e, interfaces)
  }

  function ReadPcapng(file: bytes): seq<Record> {
    if |file| < 12 then [] else Blocks(file, FirstBlock(file), SectionEndian(file), [])
  }

  /** `None` is the error for an unknown format. */
  function ReadAll(file: bytes): Option<seq<Record>> {
    match FormatOf(file)
    case Empty => Some([])
    case Unknown => None
    case Pcap(e, nano) => Some(ReadPcap(file, e))
    case Pcapng => Some(ReadPcapng(file))
  }

  // ---------- the reader ----------

  /** The branches on the kind of a block. */
  method ReadBlock(kind: nat, body: bytes, e: Endian, interfaces: seq<nat>) returns (block: Block)
    ensures block == BlockOf(kind, body, e, interfaces)
  {
    block := Other;
    if kind == 1 {
      if |body| >= 8 {
        block := Interface(U16(body, 0, e));
      }
    } else if kind == 6 {
      if |body| >= 20 {
        var linkType := LinkType(interfaces, U32(body, 0, e));
        var frame := Clipped(body, 20, 20 + U32(body, 12, e));
        block := Frame(Record(U32(body, 4, e), U32(body, 8, e), linkType, frame));
      }
    } else if kind == 3 {
      if |body| >= 4 {
        var linkType := if interfaces != [] then interfaces[0] else LINKTYPE_ETHERNET;
        var caplen := Min(|body| - 4, U32(body, 0, e));
        block := Frame(Record(0, 0, linkType, body[4..4 + caplen]));
      }
    }
  }

  /** A file being read from front to back. */
  class FileReader {
    const content: bytes
    var pos: nat

    ghost predicate Valid()
      reads this
    {
      pos <= |content|
    }

    constructor (content: bytes)
      ensures Valid() && pos == 0 && this.content == content
    {
      this.content, pos := content, 0;
    }

    /** `file.read(n)`: at most `n` bytes. */
    method Read(n: nat) returns (data: bytes)
      requires Valid()
      modifies this
      ensures Valid() && pos == Min(old(pos) + n, |content|) && data == content[old(pos)..pos]
    {
      var end := Min(pos + n, |content|);
      data := content[pos..end];
      pos := end;
    }

    method ReadPcapFrames(e: Endian) returns (records: seq<Record>)
      requires Valid() && pos == Min(4, |content|)
      modifies this
      ensures records == ReadPcap(content, e)
    {
      hide U16, U32, PcapRecords;
      records := [];
      var header := Read(20);
      if |header| < 20 {
        return;
      }
      var linkType := U32(header, 16, e);
      U32OfSlice(content, 4, 24, 16, e);
      while true
        invariant Valid() && 24 <= pos
        invariant records + PcapRecords(content, pos, e, linkType) == ReadPcap(content, e)
        decreases |content| - pos
      {
        ghost var start := pos;
        var recordHeader := Read(16);
        if |recordHeader| < 16 {
          NoMoreRecords(content, start, e, linkType);
          break;
        }
        NextRecord(content, start, e, linkType);
        var sec, usec, caplen := U32(recordHeader, 0, e), U32(recordHeader, 4, e), U32(recordHeader, 8, e);
        var frame := Read(caplen);
        if |frame| < caplen {
          break;
        }
        ConcatAssociative(records, [Record(sec, usec, linkType, frame)], PcapRecords(content, pos, e, linkType));
        records := records + [Record(sec, usec, linkType, frame)];
      }
    }

    /** The loop over the blocks behind the section header. */
    method ReadBlocks(e: Endian) returns (records: seq<Record>)
      requires Valid()
      modifies this
      ensures records == Blocks(content, old(pos), e, [])
    {
      hide U16, U32, BlockOf;
      records := [];
      var interfaces: seq<nat> := [];
      while true
        invariant Valid()
        invariant records + Blocks(content, pos, e, interfaces) == Blocks(content, old(pos), e, [])
        decreases |content| - pos
      {
        ghost var start := pos;
        var blockHeader := Read(8);
        if |blockHeader| < 8 {
          break;
        }
        var kind, length := U32(blockHeader, 0, e), U32(blockHeader, 4, e);
        U32OfSlice(content, start, start + 8, 0, e);
        U32OfSlice(content, start, start + 8, 4, e);
        if length < 12 {
          break;
        }
        var body := Read(length - 12);
        var trailer := Read(4);
        if |body| < length - 12 || |trailer| < 4 {
          break;
        }
        ghost var rest := Blocks(content, pos, e, interfaces);
        var block := ReadBlock(kind, body, e, interfaces);
        match block {
          case Interface(t) =>
            interfaces := interfaces + [t];
          case Frame(r) =>
            assert (records + [r]) + rest == records + ([r] + rest);
            records := records + [r];
          case Other =>
        }
      }
    }

    method ReadPcapngFrames() returns (records: seq<Record>)
      requires Valid() && pos == Min(4, |content|)
      modifies this
      ensures records == ReadPcapng(content)
    {
      hide U16, U32, BlockOf;
      records := [];
      var header := Read(8);
      if |header| < 8 {
        return;
      }
      U32OfSlice(content, 4, 12, 4, Little);
      var e := if U32(header, 4, Little) == 0x1A2B3C4D then Little else Big;
      var blockLen := U32(header, 0, e);
      U32OfSlice(content, 4, 12, 0, e);
      if blockLen > 12 {
        var skipped := Read(blockLen - 12);
      }
      assert FirstBlock(content) > |content| ==> Blocks(content, FirstBlock(content), e, []) == [];
      records := ReadBlocks(e);
    }
  }

  method ReadFile(file: bytes) returns (r: Option<seq<Record>>)
    ensures r == ReadAll(file)
  {
    var reader := new FileReader(file);
    var magic := reader.Read(4);
    if magic == [] {
      return Some([]);
    }
    if magic == PCAPNG_SHB {
      var records := reader.ReadPcapngFrames();
      return Some(records);
    }
    if magic == PCAP_MICRO_LE || magic == PCAP_NANO_LE {
      var records := reader.ReadPcapFrames(Little);
      return Some(records);
    }
    if magic == PCAP_MICRO_BE || magic == PCAP_NANO_BE {
      var records := reader.ReadPcapFrames(Big);
      return Some(records);
    }
    return None;
  }
}
