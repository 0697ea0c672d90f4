/**
  * pcapng files of any blocks in any order: several interfaces, enhanced and simple packets, packets of interfaces that
  * have not been described, and blocks of kinds that are passed over.
  */
module PcapngBlocks {
  import opened Basics
  import opened Fields
  import opened CaptureFiles
  import opened CaptureRoundTrips

  datatype Written =
    | Described(linkType: nat, options: bytes)
    | Enhanced(interface: nat, high: nat, low: nat, frame: bytes, options: bytes)
    | Simple(frame: bytes)
    | PassedOver(kind: nat, body: bytes)
  {
    predicate Valid() {
      match this
      case Described(linkType, options) => linkType < 0x1_0000 && |options| < 0x1000_0000
      case Enhanced(interface, high, low, frame, options) =>
        && interface < 0x1_0000_0000 && high < 0x1_0000_0000 && low < 0x1_0000_0000
        && |frame| < 0x1000_0000 && |options| < 0x1000_0000
      case Simple(frame) => |frame| < 0x1000_0000
      case PassedOver(kind, body) => kind < 0x1_0000_0000 && kind !in {1, 3, 6} && |body| < 0x1000_0000
    }

    function Kind(): nat {
      match this
      case Described(linkType, options) => 1
      case Enhanced(interface, high, low, frame, options) => 6
      case Simple(frame) => 3
      case PassedOver(kind, body) => kind
    }

    /** The body, frames being padded to a multiple of four bytes. */
    function Body(e: Endian): bytes
      requires Valid()
    {
      match this
      case Described(linkType, options) => Put16(linkType, e) + [0, 0] + Put32(65535, e) + options
      case Enhanced(interface, high, low, frame, options) =>
        Put32(interface, e) + (Put32(high, e) + Put32(low, e) + Put32(|frame|, e) + Put32(|frame|, e)) +
        (frame + (Padding(|frame|) + options))
      case Simple(frame) => Put32(|frame|, e) + frame + Padding(|frame|)
      case PassedOver(kind, body) => body
    }
  }

  predicate AllValid(blocks: seq<Written>) {
    forall i :: 0 <= i < |blocks| ==> blocks[i].Valid()
  }

  /** The link types of the interfaces described, in order. */
  function Interfaces(blocks: seq<Written>): seq<nat> {
    if blocks == [] then []
    else
      var front, last := Interfaces(blocks[..|blocks| - 1]), blocks[|blocks| - 1];
      if last.Described? then front + [last.linkType] else front
  }

  /** Ethernet unless the interface has been described. */
  function LinkOf(interfaces: seq<nat>, id: nat): nat {
    if id < |interfaces| then interfaces[id] else 1
  }

  /** The frames, each with the link type of its interface; a simple packet is the first interface's and has no time. */
  function Records(blocks: seq<Written>): seq<Record> {
    if blocks == [] then []
    else
      var before, last := blocks[..|blocks| - 1], blocks[|blocks| - 1];
      match last
      case Enhanced(interface, high, low, frame, options) =>
        Records(before) + [Record(high, low, LinkOf(Interfaces(before), interface), frame)]
      case Simple(frame) => Records(before) + [Record(0, 0, LinkOf(Interfaces(before), 0), frame)]
      case Described(linkType, options) => Records(before)
      case PassedOver(kind, body) => Records(before)
  }

  lemma {:induction false} BodyLength(b: Written, e: Endian)
    requires b.Valid()
    ensures |b.Body(e)| + 12 < 0x1_0000_0000 && b.Kind() < 0x1_0000_0000
  {
    hide Put32, Put16;
  }

  function PutBlocks(blocks: seq<Written>, e: Endian): bytes
    requires AllValid(blocks)
  {
    if blocks == [] then []
    else
      var last := blocks[|blocks| - 1];
      BodyLength(last, e);
      PutBlocks(blocks[..|blocks| - 1], e) + PutBlock(last.Kind(), last.Body(e), e)
  }

  // ---------- one block ----------

  lemma {:induction false} DescribedIsRead(b: Written, e: Endian, interfaces: seq<nat>)
    requires b.Valid() && b.Described?
    ensures BlockOf(1, b.Body(e), e, interfaces) == Interface(b.linkType)
  {
    hide U16, Put16, Put32;
    var rest := [0, 0] + Put32(65535, e) + b.options;
    ShortFieldAt([], b.linkType, e, rest);
    assert b.Body(e) == [] + Put16(b.linkType, e) + rest;
  }

  lemma {:induction false} EnhancedIsRead(b: Written, e: Endian, interfaces: seq<nat>)
    requires b.Valid() && b.Enhanced?
    ensures BlockOf(6, b.Body(e), e, interfaces) ==
            Frame(Record(b.high, b.low, LinkOf(interfaces, b.interface), b.frame))
  {
    hide U32, Put32, Padding;
    var n, first, tail := |b.frame|, Put32(b.interface, e), Padding(|b.frame|) + b.options;
    var fields := Put32(b.high, e) + Put32(b.low, e) + Put32(n, e) + Put32(n, e);
    FourFieldsAt(first, b.high, b.low, n, n, e, b.frame + tail);
    ThreeParts(first, fields, b.frame, tail);
    FieldAt([], b.interface, e, fields + (b.frame + tail));
  }

  lemma {:induction false} SimpleIsRead(b: Written, e: Endian, interfaces: seq<nat>)
    requires b.Valid() && b.Simple?
    ensures BlockOf(3, b.Body(e), e, interfaces) == Frame(Record(0, 0, LinkOf(interfaces, 0), b.frame))
  {
    hide U32, Put32, Padding;
    var n, body := |b.frame|, b.Body(e);
    FieldAt([], n, e, b.frame + Padding(n));
    assert body == [] + Put32(n, e) + (b.frame + Padding(n));
    assert body[4..4 + n] == b.frame;
  }

  // ---------- many blocks ----------

  lemma {:induction false} LastBlock(blocks: seq<Written>, e: Endian, file: bytes, next: nat)
    requires blocks != [] && AllValid(blocks)
    ensures var front, last := blocks[..|blocks| - 1], blocks[|blocks| - 1];
            Records(front) +
            Behind(BlockOf(last.Kind(), last.Body(e), e, Interfaces(front)), file, next, e, Interfaces(front)) ==
            Records(blocks) + Blocks(file, next, e, Interfaces(blocks))
  {
    var front, last := blocks[..|blocks| - 1], blocks[|blocks| - 1];
    hide Blocks, Written.Body;
    match last
    case Described(linkType, options) =>
      DescribedIsRead(last, e, Interfaces(front));
    case Enhanced(interface, high, low, frame, options) =>
      EnhancedIsRead(last, e, Interfaces(front));
    case Simple(frame) =>
      SimpleIsRead(last, e, Interfaces(front));
    case PassedOver(kind, body) =>
  }

  lemma {:induction false} FrontOfBlocks(blocks: seq<Written>, e: Endian, before: bytes, after: bytes)
    requires AllValid(blocks)
    ensures Blocks(before + PutBlocks(blocks, e) + after, |before|, e, []) ==
            Records(blocks) + Blocks(before + PutBlocks(blocks, e) + after, |before + PutBlocks(blocks, e)|, e,
                                     Interfaces(blocks))
  {
    hide BlockOf, Blocks, PutBlock, Written.Body, Written.Valid;
    if blocks == [] {
      ConcatNothing(before);
    } else {
      var front, last := blocks[..|blocks| - 1], blocks[|blocks| - 1];
      BodyLength(last, e);
      var block, written := PutBlock(last.Kind(), last.Body(e), e), before + PutBlocks(front, e);
      FrontOfBlocks(front, e, before, block + after);
      assert before + PutBlocks(blocks, e) + after == written + (block + after) == written + block + after;
      assert before + PutBlocks(blocks, e) == written + block;
      OneBlock(written, last.Kind(), last.Body(e), e, after, Interfaces(front));
      LastBlock(blocks, e, written + block + after, |written + block|);
    }
  }

  /** Any blocks in any order, in either byte order, are read as the frames they hold. */
  lemma {:induction false} BlocksRoundTrip(blocks: seq<Written>, e: Endian)
    requires AllValid(blocks)
    ensures ReadAll(PutSection(e) + PutBlocks(blocks, e)) == Some(Records(blocks))
  {
    var file := PutSection(e) + PutBlocks(blocks, e);
    SectionIsRead(e, PutBlocks(blocks, e));
    FrontOfBlocks(blocks, e, PutSection(e), []);
    assert PutSection(e) + PutBlocks(blocks, e) + [] == file;
    assert Blocks(file, |file|, e, Interfaces(blocks)) == [];
    hide PutSection, PutBlocks, Blocks, FormatOf, Records;
    ConcatNothing(Records(blocks));
  }
}
