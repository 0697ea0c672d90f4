/**
  * BACnet file services: read requests are remembered by requester, responder and invoke ID, acks are credited to
  * the file asked for, and file data is written by position into a capped buffer per transfer.
  */
module BacnetFiles {
  import opened Basics
  import opened Models
  import opened BacnetTags

  const TAG_SIGNED: byte := 3
  const TAG_OCTET_STRING: byte := 6
  const TAG_OBJECT_IDENTIFIER: byte := 12
  const SERVICE_ATOMIC_READ_FILE: byte := 6
  const SERVICE_ATOMIC_WRITE_FILE: byte := 7
  const APDU_CONFIRMED_REQUEST := 0
  const APDU_COMPLEX_ACK := 3
  const MAX_PENDING_FILE_READS: nat := 4096

  // ---------- what the tags of a service body say ----------

  datatype ObjectId = ObjectId(objectType: nat, instance: nat)

  function DecodeObjectId(raw: bytes): Option<ObjectId> {
    if |raw| != 4 then None
    else Some(ObjectId(BigEndian(raw) / 0x40_0000 % 0x400, BigEndian(raw) % 0x40_0000))
  }

  function FirstObjectId(tags: seq<Tag>): Option<ObjectId> {
    if tags == [] then None
    else if !tags[0].isContext && tags[0].number == TAG_OBJECT_IDENTIFIER then DecodeObjectId(tags[0].value)
    else FirstObjectId(tags[1..])
  }

  /** Two's complement, most significant byte first. */
  function Signed(data: bytes): int
    requires data != []
  {
    if data[0] < 128 then BigEndian(data) else BigEndian(data) - Power256(|data|)
  }

  datatype FileBody = FileBody(endOfFile: bool, start: Option<int>, chunks: seq<bytes>)

  function AddTag(body: FileBody, t: Tag): FileBody {
    if t.isContext then body
    else if t.number == TAG_BOOLEAN then body.(endOfFile := t.lvt != 0)
    else if t.number == TAG_SIGNED && body.start.None? && t.value != [] then body.(start := Some(Signed(t.value)))
    else if t.number == TAG_OCTET_STRING && t.value != [] then body.(chunks := body.chunks + [t.value])
    else body
  }

  function BodyOf(tags: seq<Tag>): FileBody {
    if tags == [] then FileBody(false, None, [])
    else AddTag(BodyOf(tags[..|tags| - 1]), tags[|tags| - 1])
  }

  // ---------- the capped buffer ----------

  /** Python's `buf[i:j] = chunk` on a bytearray. */
  function SliceAssign(buf: bytes, i: int, j: int, chunk: bytes): bytes {
    var lo := Clip(i, |buf|);
    var hi := Max(lo, Clip(j, |buf|));
    buf[..lo] + chunk + buf[hi..]
  }

  function Padded(buf: bytes, n: int): bytes {
    if n > |buf| then buf + seq(n - |buf|, _ => 0) else buf
  }

  datatype Written = Written(data: bytes, truncated: bool)

  function WriteChunk(w: Written, position: int, chunk: bytes, cap: int): Written
    requires position < cap
  {
    var kept := if |chunk| > cap - position then chunk[..cap - position] else chunk;
    var end := position + |kept|;
    Written(SliceAssign(Padded(w.data, end), position, end, kept), w.truncated || |chunk| > cap - position)
  }

  /** The chunks one after the other from `position` on, until there is no room. */
  function WriteChunks(w: Written, position: int, chunks: seq<bytes>, cap: int): Written
    decreases |chunks|
  {
    if chunks == [] then w
    else if position >= cap then w.(truncated := true)
    else
      var written := WriteChunk(w, position, chunks[0], cap);
      WriteChunks(written, position + Min(|chunks[0]|, cap - position), chunks[1..], cap)
  }

  // ---------- the tables ----------

  datatype Direction = Reading | Writing

  datatype ReadKey = ReadKey(requester: Option<string>, responder: Option<string>, invokeId: byte)

  datatype BufferKey =
    BufferKey(direction: Direction, src: Option<string>, dst: Option<string>, fileOid: ObjectId)

  datatype FileBuffer = FileBuffer(written: Written, flow: Option<FlowKey>, timestamp: real)

  datatype Candidate = Candidate(
    data: bytes, fileOid: ObjectId, direction: Direction, flow: Option<FlowKey>, timestamp: real, truncated: bool)

  type Pending = map<ReadKey, ObjectId>

  datatype Buffers = Buffers(table: map<BufferKey, FileBuffer>, order: seq<BufferKey>)

  function Candidates(key: BufferKey, b: FileBuffer): seq<Candidate> {
    if b.written.data == [] then []
    else [Candidate(b.written.data, key.fileOid, key.direction, b.flow, b.timestamp, b.written.truncated)]
  }

  /** The buffer of a transfer once file data has been absorbed into it. */
  function Fill(before: Option<FileBuffer>, body: FileBody, p: Packet, cap: int): FileBuffer {
    var b := if before.Some? then before.value else FileBuffer(Written([], false), p.Flow(), p.timestamp);
    var position := if body.start.Some? then body.start.value else |b.written.data|;
    b.(written := WriteChunks(b.written, position, body.chunks, cap))
  }

  predicate Ignored(body: FileBody) {
    body.chunks == [] && !body.endOfFile
  }

  function Lookup(bufs: Buffers, key: BufferKey): Option<FileBuffer> {
    if key in bufs.table then Some(bufs.table[key]) else None
  }

  function Absorb(bufs: Buffers, key: BufferKey, body: FileBody, p: Packet, cap: int): (Buffers, seq<Candidate>) {
    if Ignored(body) then (bufs, [])
    else
      var b := Fill(Lookup(bufs, key), body, p, cap);
      var order := if key in bufs.table then bufs.order else bufs.order + [key];
      if body.endOfFile then (Buffers(bufs.table - {key}, Remove(order, key)), Candidates(key, b))
      else (Buffers(bufs.table[key := b], order), [])
  }

  // ---------- the messages ----------

  predicate Segmented(apdu: bytes)
    requires apdu != []
  {
    apdu[0] / 8 % 2 == 1
  }

  /** The body of a confirmed request for `service`, if the APDU is one. */
  function RequestBody(apdu: bytes, service: byte): Option<bytes> {
    if apdu == [] || apdu[0] / 16 != APDU_CONFIRMED_REQUEST then None
    else
      var o := if Segmented(apdu) then 5 else 3;
      if |apdu| <= o || apdu[o] != service then None else Some(apdu[o + 1..])
  }

  function AckBody(apdu: bytes, service: byte): Option<bytes> {
    if apdu == [] || apdu[0] / 16 != APDU_COMPLEX_ACK then None
    else
      var o := if Segmented(apdu) then 4 else 2;
      if |apdu| <= o || apdu[o] != service then None else Some(apdu[o + 1..])
  }

  function TagsOf(body: bytes): seq<Tag> {
    TagsFrom(body, 0, MAX_TAGS_PER_APDU)
  }

  /** A request to read a file: who asks whom, under which invoke ID, and for which file. */
  function ReadRequest(apdu: bytes, p: Packet): Option<(ReadKey, ObjectId)> {
    match RequestBody(apdu, SERVICE_ATOMIC_READ_FILE)
    case None => None
    case Some(body) =>
      match FirstObjectId(TagsOf(body))
      case None => None
      case Some(oid) => Some((ReadKey(p.srcIp, p.dstIp, apdu[2]), oid))
  }

  /** An ack to a file read, and the request it answers: from its destination to its source. */
  function ReadAck(apdu: bytes, p: Packet): Option<(ReadKey, FileBody)> {
    match AckBody(apdu, SERVICE_ATOMIC_READ_FILE)
    case None => None
    case Some(body) => Some((ReadKey(p.dstIp, p.srcIp, apdu[1]), BodyOf(TagsOf(body))))
  }

  function WriteRequest(apdu: bytes, p: Packet): Option<(BufferKey, FileBody)> {
    match RequestBody(apdu, SERVICE_ATOMIC_WRITE_FILE)
    case None => None
    case Some(body) =>
      match FirstObjectId(TagsOf(body))
      case None => None
      case Some(oid) => Some((BufferKey(Writing, p.srcIp, p.dstIp, oid), BodyOf(TagsOf(body))))
  }

  function Remember(pending: Pending, key: ReadKey, oid: ObjectId): Pending {
    (if |pending| >= MAX_PENDING_FILE_READS then map[] else pending)[key := oid]
  }

  function PendingAfter(pending: Pending, apdu: bytes, p: Packet): Pending {
    match (ReadRequest(apdu, p), ReadAck(apdu, p))
    case (Some((key, oid)), _) => Remember(pending, key, oid)
    case (None, Some((key, body))) => pending - {key}
    case (None, None) => pending
  }

  /** The buffer that a message's file data goes into, given how to find the file a request asked for. */
  function Target(asked: ReadKey -> Option<ObjectId>, apdu: bytes, p: Packet): Option<(BufferKey, FileBody)> {
    match (WriteRequest(apdu, p), ReadAck(apdu, p))
    case (Some(w), _) => Some(w)
    case (None, Some((key, body))) =>
      (match asked(key)
       case None => None
       case Some(oid) => Some((BufferKey(Reading, p.srcIp, p.dstIp, oid), body)))
    case (None, None) => None
  }

  function Asked(pending: Pending): ReadKey -> Option<ObjectId> {
    key => if key in pending then Some(pending[key]) else None
  }

  datatype State = State(pending: Pending, buffers: Buffers)

  function Step(st: State, apdu: bytes, p: Packet, cap: int): (State, seq<Candidate>) {
    var pending := PendingAfter(st.pending, apdu, p);
    match Target(Asked(st.pending), apdu, p)
    case None => (State(pending, st.buffers), [])
    case Some((key, body)) =>
      var (buffers, out) := Absorb(st.buffers, key, body, p, cap);
      (State(pending, buffers), out)
  }

  // ---------- the class ----------

  function AllCandidates(buffers: map<BufferKey, FileBuffer>, order: seq<BufferKey>): seq<Candidate>
    requires forall k :: k in order ==> k in buffers
  {
    if order == [] then []
    else
      var key := order[|order| - 1];
      AllCandidates(buffers, order[..|order| - 1]) + Candidates(key, buffers[key])
  }

  class BacnetDecoder {
    const maxFileAssemblyBytes: int
    var pendingFileReads: map<ReadKey, ObjectId>
    var fileBuffers: map<BufferKey, FileBuffer>
    /** The keys of `fileBuffers` in dict order. */
    var bufferOrder: seq<BufferKey>

    ghost predicate Valid()
      reads this
    {
      Distinct(bufferOrder) && forall k :: k in bufferOrder <==> k in fileBuffers
    }

    ghost function Value(): State
      reads this
    {
      State(pendingFileReads, Buffers(fileBuffers, bufferOrder))
    }

    constructor (maxFileAssemblyBytes: int)
      ensures Valid() && Value() == State(map[], Buffers(map[], []))
      ensures this.maxFileAssemblyBytes == maxFileAssemblyBytes
    {
      this.maxFileAssemblyBytes := maxFileAssemblyBytes;
      pendingFileReads, fileBuffers, bufferOrder := map[], map[], [];
    }

    method RememberFileRead(p: Packet, invokeId: byte, fileOid: ObjectId)
      modifies this`pendingFileReads
      ensures pendingFileReads == Remember(old(pendingFileReads), ReadKey(p.srcIp, p.dstIp, invokeId), fileOid)
    {
      if |pendingFileReads| >= MAX_PENDING_FILE_READS {
        pendingFileReads := map[];
      }
      pendingFileReads := pendingFileReads[ReadKey(p.srcIp, p.dstIp, invokeId) := fileOid];
    }

    /** The loop over the chunks, on the bytearray of one buffer. */
    method WriteAt(w: Written, start: int, chunks: seq<bytes>) returns (r: Written)
      ensures r == WriteChunks(w, start, chunks, maxFileAssemblyBytes)
    {
      r := w;
      var position := start;
      for i := 0 to |chunks|
        invariant WriteChunks(w, start, chunks, maxFileAssemblyBytes) ==
                  WriteChunks(r, position, chunks[i..], maxFileAssemblyBytes)
      {
        var chunk := chunks[i];
        assert chunks[i..][1..] == chunks[i + 1..];
        var room := maxFileAssemblyBytes - position;
        if room <= 0 {
          return r.(truncated := true);
        }
        r := WriteChunk(r, position, chunk, maxFileAssemblyBytes);
        position := position + Min(|chunk|, room);
      }
    }

    method FlushFileBuffer(key: BufferKey) returns (out: seq<Candidate>)
      requires Valid() && key in fileBuffers
      modifies this`fileBuffers, this`bufferOrder
      ensures Valid() && fileBuffers == old(fileBuffers) - {key} && bufferOrder == Remove(old(bufferOrder), key)
      ensures out == Candidates(key, old(fileBuffers)[key])
    {
      out := Candidates(key, fileBuffers[key]);
      fileBuffers, bufferOrder := fileBuffers - {key}, Remove(bufferOrder, key);
    }

    method AbsorbFileData(data: bytes, p: Packet, fileOid: ObjectId, direction: Direction)
      returns (out: seq<Candidate>)
      requires Valid()
      modifies this`fileBuffers, this`bufferOrder
      ensures Valid()
      ensures (Buffers(fileBuffers, bufferOrder), out) ==
              Absorb(Buffers(old(fileBuffers), old(bufferOrder)), BufferKey(direction, p.srcIp, p.dstIp, fileOid),
                     BodyOf(TagsOf(data)), p, maxFileAssemblyBytes)
    {
      hide TagsFrom, Remove, Distinct;
      var tags := IterTags(data, MAX_TAGS_PER_APDU);
      var body := FileBody(false, None, []);
      for i := 0 to |tags|
        modifies {}
        invariant body == BodyOf(tags[..i])
      {
        assert tags[..i + 1][..i] == tags[..i];
        body := AddTag(body, tags[i]);
      }
      assert tags[..|tags|] == tags;
      if body.chunks == [] && !body.endOfFile {
        return [];
      }
      var key := BufferKey(direction, p.srcIp, p.dstIp, fileOid);
      ghost var before := Buffers(fileBuffers, bufferOrder);
      if key !in fileBuffers {
        DistinctAppend(bufferOrder, key);
        fileBuffers := fileBuffers[key := FileBuffer(Written([], false), p.Flow(), p.timestamp)];
        bufferOrder := bufferOrder + [key];
      }
      var b := fileBuffers[key];
      var w := WriteAt(b.written, if body.start.Some? then body.start.value else |b.written.data|, body.chunks);
      fileBuffers := fileBuffers[key := b.(written := w)];
      assert fileBuffers[key] == Fill(Lookup(before, key), body, p, maxFileAssemblyBytes);
      assert fileBuffers == before.table[key := fileBuffers[key]];
      assert fileBuffers - {key} == before.table - {key};
      if body.endOfFile {
        out := FlushFileBuffer(key);
      } else {
        out := [];
      }
    }

    method ParseConfirmedRequest(apdu: bytes, p: Packet) returns (out: seq<Candidate>)
      requires Valid() && apdu != [] && apdu[0] / 16 == APDU_CONFIRMED_REQUEST
      modifies this
      ensures Valid() && (Value(), out) == Step(old(Value()), apdu, p, maxFileAssemblyBytes)
    {
      hide TagsFrom, Absorb, BodyOf, FirstObjectId;
      var serviceOffset := if apdu[0] / 8 % 2 == 1 then 5 else 3;
      if |apdu| <= serviceOffset {
        return [];
      }
      var invokeId, service, body := apdu[2], apdu[serviceOffset], apdu[serviceOffset + 1..];
      out := [];
      if service == SERVICE_ATOMIC_READ_FILE {
        var tags := IterTags(body, MAX_TAGS_PER_APDU);
        var fileOid := FirstObjectId(tags);
        if fileOid.Some? {
          RememberFileRead(p, invokeId, fileOid.value);
        }
      } else if service == SERVICE_ATOMIC_WRITE_FILE {
        var tags := IterTags(body, MAX_TAGS_PER_APDU);
        var fileOid := FirstObjectId(tags);
        if fileOid.Some? {
          out := AbsorbFileData(body, p, fileOid.value, Writing);
        }
      }
    }

    method ParseComplexAck(apdu: bytes, p: Packet) returns (out: seq<Candidate>)
      requires Valid() && apdu != [] && apdu[0] / 16 == APDU_COMPLEX_ACK
      modifies this
      ensures Valid() && (Value(), out) == Step(old(Value()), apdu, p, maxFileAssemblyBytes)
    {
      hide TagsFrom, Absorb, BodyOf, FirstObjectId;
      var serviceOffset := if apdu[0] / 8 % 2 == 1 then 4 else 2;
      if |apdu| <= serviceOffset {
        return [];
      }
      var invokeId, service := apdu[1], apdu[serviceOffset];
      if service != SERVICE_ATOMIC_READ_FILE {
        return [];
      }
      var key := ReadKey(p.dstIp, p.srcIp, invokeId);
      if key !in pendingFileReads {
        assert pendingFileReads - {key} == pendingFileReads;
        return [];
      }
      var fileOid := pendingFileReads[key];
      pendingFileReads := pendingFileReads - {key};
      out := AbsorbFileData(apdu[serviceOffset + 1..], p, fileOid, Reading);
    }

    method ParseApdu(apdu: bytes, p: Packet) returns (out: seq<Candidate>)
      requires Valid()
      modifies this
      ensures Valid() && (Value(), out) == Step(old(Value()), apdu, p, maxFileAssemblyBytes)
    {
      hide TagsFrom, Absorb, BodyOf, FirstObjectId;
      if apdu == [] {
        return [];
      }
      var pduType := apdu[0] / 16;
      if pduType == APDU_CONFIRMED_REQUEST {
        out := ParseConfirmedRequest(apdu, p);
      } else if pduType == APDU_COMPLEX_ACK {
        out := ParseComplexAck(apdu, p);
      } else {
        out := [];
      }
    }

    method Finalize() returns (out: seq<Candidate>)
      requires Valid()
      modifies this
      ensures Valid() && Value() == State(map[], Buffers(map[], []))
      ensures out == AllCandidates(old(fileBuffers), old(bufferOrder))
    {
      hide Distinct, Remove, Candidates;
      out := [];
      var keys := bufferOrder;
      for i := 0 to |keys|
        invariant Valid() && keys == old(bufferOrder)
        invariant forall k :: k in fileBuffers <==> k in keys[i..]
        invariant forall k :: k in fileBuffers ==> fileBuffers[k] == old(fileBuffers)[k]
        invariant forall k :: k in keys ==> k in old(fileBuffers)
        invariant out == AllCandidates(old(fileBuffers), keys[..i])
      {
        assert keys[..i + 1][..i] == keys[..i];
        DistinctSuffix(keys, i);
        var some := FlushFileBuffer(keys[i]);
        out := out + some;
      }
      assert keys[..|keys|] == keys;
      FirstIsMember(bufferOrder);
      pendingFileReads := map[];
    }
  }
}
