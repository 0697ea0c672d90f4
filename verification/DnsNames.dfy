/**
  * DNS name decompression (RFC 1035 section 4.1.4). The reader is a loop with a set of visited offsets and a budget
  * of ten jumps; a name is defined independently by its derivation, a chain of labels and pointers.
  */
module DnsNames {
  import opened Basics

  const MAX_JUMPS: nat := 10

  /** The top two bits of a length byte mark a pointer. Lengths 64 to 191 are read as plain labels. */
  predicate IsPointer(length: byte) {
    length >= 192
  }

  function PointerTarget(data: bytes, offset: nat): nat
    requires offset + 1 < |data| && IsPointer(data[offset])
  {
    var high: int := data[offset];
    (high - 192) * 256 + data[offset + 1]
  }

  // ---------- names by derivation ----------

  /** How a name is spelled: labels, jumps, and a terminator. */
  datatype Derivation = End | Label(text: bytes, rest: Derivation) | Jump(target: nat, rest: Derivation)

  /** `d` is what stands in `data` at `offset`, lengths being taken as the reader takes them. */
  predicate Derives(data: bytes, offset: nat, d: Derivation)
    decreases d
  {
    offset < |data| &&
    match d
    case End => data[offset] == 0
    case Label(text, rest) =>
      && data[offset] != 0 && !IsPointer(data[offset])
      && offset + 1 + data[offset] <= |data|
      && text == data[offset + 1..offset + 1 + data[offset]]
      && Derives(data, offset + 1 + data[offset], rest)
    case Jump(target, rest) =>
      && IsPointer(data[offset]) && offset + 1 < |data|
      && target == PointerTarget(data, offset)
      && Derives(data, target, rest)
  }

  /** The same by the standard: labels of 1 to 63 bytes, and lengths from 64 to 191 mean nothing. */
  predicate Standard(data: bytes, offset: nat, d: Derivation)
    decreases d
  {
    offset < |data| &&
    match d
    case End => data[offset] == 0
    case Label(text, rest) =>
      && 1 <= data[offset] <= 63
      && offset + 1 + data[offset] <= |data|
      && text == data[offset + 1..offset + 1 + data[offset]]
      && Standard(data, offset + 1 + data[offset], rest)
    case Jump(target, rest) =>
      && data[offset] >= 192 && offset + 1 < |data|
      && target == PointerTarget(data, offset)
      && Standard(data, target, rest)
  }

  function Labels(d: Derivation): seq<bytes> {
    match d
    case End => []
    case Label(text, rest) => [text] + Labels(rest)
    case Jump(target, rest) => Labels(rest)
  }

  function Jumps(d: Derivation): nat {
    match d
    case End => 0
    case Label(text, rest) => Jumps(rest)
    case Jump(target, rest) => 1 + Jumps(rest)
  }

  /** The labels that come before the `budget`-th jump. */
  function LabelsWithin(d: Derivation, budget: nat): seq<bytes> {
    if budget == 0 then []
    else
      match d
      case End => []
      case Label(text, rest) => [text] + LabelsWithin(rest, budget)
      case Jump(target, rest) => LabelsWithin(rest, budget - 1)
  }

  /** Where the name ends in the message: behind its terminator or its first pointer. */
  function EndOffset(data: bytes, offset: nat, d: Derivation): nat
    requires Derives(data, offset, d)
    decreases d
  {
    match d
    case End => offset + 1
    case Label(text, rest) => EndOffset(data, offset + 1 + data[offset], rest)
    case Jump(target, rest) => offset + 2
  }

  // ---------- the reader ----------

  /** The state of the loop; `done` stands for having broken out of it. */
  datatype Reader = Reader(
    offset: nat, labels: seq<bytes>, visited: set<nat>, initialOffset: nat, jumped: bool, jumpsLeft: nat, done: bool)

  function Start(offset: nat): Reader {
    Reader(offset, [], {}, offset, false, MAX_JUMPS, false)
  }

  predicate Running(data: bytes, r: Reader) {
    r.offset < |data| && r.jumpsLeft > 0 && !r.done
  }

  /** One turn of the loop. */
  function Turn(data: bytes, r: Reader): Reader
    requires Running(data, r)
  {
    if r.offset in r.visited then r.(done := true)
    else
      var s := r.(visited := r.visited + {r.offset});
      var length := data[r.offset];
      if length == 0 then s.(offset := r.offset + 1, done := true)
      else if IsPointer(length) then
        if r.offset + 1 >= |data| then s.(done := true)
        else
          s.(offset := PointerTarget(data, r.offset),
             initialOffset := if r.jumped then r.initialOffset else r.offset + 2,
             jumped := true,
             jumpsLeft := r.jumpsLeft - 1)
      else if r.offset + 1 + length > |data| then s.(offset := r.offset + 1, done := true)
      else
        s.(offset := r.offset + 1 + length,
           labels := r.labels + [data[r.offset + 1..r.offset + 1 + length]])
  }

  /** The offsets of the message that the loop has not seen yet: what makes it end. */
  function Unseen(data: bytes, r: Reader): nat {
    |Below(|data|) - r.visited| + if r.done then 0 else 1
  }

  lemma {:induction false} TurnSeesMore(data: bytes, r: Reader)
    requires Running(data, r)
    ensures Unseen(data, Turn(data, r)) < Unseen(data, r)
  {
    var all := Below(|data|);
    if r.offset !in r.visited {
      assert r.offset in all - r.visited;
      assert all - (r.visited + {r.offset}) == all - r.visited - {r.offset};
      assert |all - r.visited - {r.offset}| == |all - r.visited| - 1;
    }
  }

  function Finish(data: bytes, r: Reader): (s: Reader)
    decreases Unseen(data, r)
  {
    if Running(data, r) then
      TurnSeesMore(data, r);
      Finish(data, Turn(data, r))
    else r
  }

  function FinalOffset(r: Reader): nat {
    if r.jumped then r.initialOffset else r.offset
  }

  /** `".".join(labels)`, each byte one Latin-1 character. */
  function Domain(labels: seq<bytes>): bytes {
    if labels == [] then []
    else if |labels| == 1 then labels[0]
    else Domain(labels[..|labels| - 1]) + ['.' as int] + labels[|labels| - 1]
  }

  /** What is read at `start`: the domain, and the offset behind it. */
  function ReadName(data: bytes, start: nat): (bytes, nat) {
    var r := Finish(data, Start(start));
    (Domain(r.labels), FinalOffset(r))
  }

  lemma {:induction false} TurnOnce(data: bytes, r: Reader)
    requires Running(data, r)
    ensures Unseen(data, Turn(data, r)) < Unseen(data, r)
    ensures Finish(data, r) == Finish(data, Turn(data, r))
    ensures Turn(data, r).done ==> Finish(data, r) == Turn(data, r)
  {
    TurnSeesMore(data, r);
    hide Turn, Unseen;
  }

  lemma {:induction false} NotRunning(data: bytes, r: Reader)
    requires !Running(data, r)
    ensures Finish(data, r) == r
  {
  }

  /** The loop, on any bytes; it ends because every turn but the last sees a new offset. */
  method ParseDnsName(data: bytes, start: nat) returns (domain: bytes, finalOffset: nat)
    ensures (domain, finalOffset) == ReadName(data, start)
  {
    hide Finish, Unseen, Domain;
    var offset: nat, initialOffset: nat := start, start;
    var labels: seq<bytes> := [];
    var visitedOffsets: set<nat> := {};
    var jumped: bool, maxJumps: nat := false, MAX_JUMPS;
    ghost var r := Start(start);
    while offset < |data| && maxJumps > 0
      invariant r == Reader(offset, labels, visitedOffsets, initialOffset, jumped, maxJumps, false)
      invariant Finish(data, Start(start)) == Finish(data, r)
      decreases Unseen(data, r)
    {
      TurnOnce(data, r);
      r := Turn(data, r);
      if offset in visitedOffsets {
        break;
      }
      visitedOffsets := visitedOffsets + {offset};
      var length := data[offset];
      if length == 0 {
        offset := offset + 1;
        break;
      } else if IsPointer(length) {
        if offset + 1 >= |data| {
          break;
        }
        var ptr := PointerTarget(data, offset);
        if !jumped {
          initialOffset := offset + 2;
          jumped := true;
        }
        offset := ptr;
        maxJumps := maxJumps - 1;
      } else {
        offset := offset + 1;
        if offset + length > |data| {
          break;
        }
        labels := labels + [data[offset..offset + length]];
        offset := offset + length;
      }
    }
    NotRunning(data, r);
    domain := Domain(labels);
    finalOffset := if jumped then initialOffset else offset;
  }
}
