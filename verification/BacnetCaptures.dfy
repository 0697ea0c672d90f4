/**
  * File reads over whole captures. Requests and acks of many peers, files and invoke IDs are interleaved; the
  * pending table is compared with what has really been asked and not yet answered, each transfer depends only on
  * its own deliveries, and a complete transfer yields the file.
  */
module BacnetCaptures {
  import opened Basics
  import opened Models
  import opened BacnetFiles
  import opened BacnetTransfers

  datatype Event = Event(apdu: bytes, packet: Packet)

  const START := State(map[], Buffers(map[], []))

  function Run(events: seq<Event>, cap: nat): State {
    if events == [] then START
    else
      var e := events[|events| - 1];
      Step(Run(events[..|events| - 1], cap), e.apdu, e.packet, cap).0
  }

  // ---------- the pending table ----------

  /** The file last asked for under `key`, unless an ack has answered that request. */
  function Outstanding(events: seq<Event>, key: ReadKey): Option<ObjectId> {
    if events == [] then None
    else
      var front, e := events[..|events| - 1], events[|events| - 1];
      match (ReadRequest(e.apdu, e.packet), ReadAck(e.apdu, e.packet))
      case (Some((k, oid)), _) => if k == key then Some(oid) else Outstanding(front, key)
      case (None, Some((k, body))) => if k == key then None else Outstanding(front, key)
      case (None, None) => Outstanding(front, key)
  }

  lemma {:induction false} PendingUnfolds(events: seq<Event>, cap: nat)
    requires events != []
    ensures var e := events[|events| - 1];
            Run(events, cap).pending == PendingAfter(Run(events[..|events| - 1], cap).pending, e.apdu, e.packet)
  {
    hide PendingAfter, Target, Absorb;
  }

  /** What the table says is always what was last asked, even after it has been cleared. */
  lemma {:induction false} PendingIsSound(events: seq<Event>, cap: nat, key: ReadKey)
    requires key in Run(events, cap).pending
    ensures Outstanding(events, key) == Some(Run(events, cap).pending[key])
  {
    if events != [] {
      hide ReadRequest, ReadAck, Step, Run;
      PendingUnfolds(events, cap);
      var front := events[..|events| - 1];
      if key in Run(front, cap).pending {
        PendingIsSound(front, cap, key);
      }
    }
  }

  /** What a message does to the keys under which a request is unanswered. */
  function AskOrAnswer(keys: set<ReadKey>, apdu: bytes, p: Packet): set<ReadKey> {
    match (ReadRequest(apdu, p), ReadAck(apdu, p))
    case (Some((k, oid)), _) => keys + {k}
    case (None, Some((k, body))) => keys - {k}
    case (None, None) => keys
  }

  /** The keys under which a request has been asked and not answered. */
  function Unanswered(events: seq<Event>): set<ReadKey> {
    if events == [] then {}
    else
      var e := events[|events| - 1];
      AskOrAnswer(Unanswered(events[..|events| - 1]), e.apdu, e.packet)
  }

  lemma {:induction false} UnansweredIff(events: seq<Event>, key: ReadKey)
    ensures key in Unanswered(events) <==> Outstanding(events, key).Some?
  {
    hide ReadRequest, ReadAck;
    if events != [] {
      UnansweredIff(events[..|events| - 1], key);
    }
  }

  /** At every request, fewer requests are unanswered than the table holds. */
  ghost predicate FewUnanswered(events: seq<Event>) {
    forall i :: 0 <= i < |events| && ReadRequest(events[i].apdu, events[i].packet).Some? ==>
                  |Unanswered(events[..i])| < MAX_PENDING_FILE_READS
  }

  lemma {:induction false} FewUnansweredPrefix(events: seq<Event>, n: nat)
    requires FewUnanswered(events) && n <= |events|
    ensures FewUnanswered(events[..n])
  {
    hide ReadRequest, Unanswered;
    forall i | 0 <= i < n && ReadRequest(events[..n][i].apdu, events[..n][i].packet).Some?
      ensures |Unanswered(events[..n][..i])| < MAX_PENDING_FILE_READS
    {
      assert events[..n][..i] == events[..i];
    }
  }

  lemma {:induction false} FewBefore(events: seq<Event>)
    requires FewUnanswered(events) && events != []
    ensures var front, e := events[..|events| - 1], events[|events| - 1];
            FewUnanswered(front) &&
            (ReadRequest(e.apdu, e.packet).Some? ==> |Unanswered(front)| < MAX_PENDING_FILE_READS)
  {
    hide ReadRequest, Unanswered;
    FewUnansweredPrefix(events, |events| - 1);
  }

  /** As long as few requests are unanswered, the table holds exactly those. */
  lemma {:induction false} PendingIsComplete(events: seq<Event>, cap: nat)
    requires FewUnanswered(events)
    ensures Run(events, cap).pending.Keys == Unanswered(events)
  {
    if events != [] {
      var front, e := events[..|events| - 1], events[|events| - 1];
      hide ReadRequest, ReadAck, Run, PendingAfter, AskOrAnswer, FewUnanswered;
      FewBefore(events);
      PendingIsComplete(front, cap);
      PendingUnfolds(events, cap);
    }
  }

  lemma {:induction false} ClearedBy(pending: Pending, apdu: bytes, p: Packet) returns (key: ReadKey)
    requires ReadRequest(apdu, p).Some? && |pending| >= MAX_PENDING_FILE_READS
    ensures key in pending && key !in PendingAfter(pending, apdu, p) && key != ReadRequest(apdu, p).value.0
  {
    hide ReadRequest, ReadAck;
    var asked := ReadRequest(apdu, p).value.0;
    assert |pending.Keys| == |pending| && |pending.Keys - {asked}| >= |pending.Keys| - 1;
    key :| key in pending.Keys - {asked};
  }

  lemma {:induction false} OtherKeyStays(events: seq<Event>, key: ReadKey)
    requires events != []
    requires var e := events[|events| - 1];
             ReadRequest(e.apdu, e.packet).Some? && ReadRequest(e.apdu, e.packet).value.0 != key
    ensures Outstanding(events, key) == Outstanding(events[..|events| - 1], key)
  {
    hide ReadRequest, ReadAck;
  }

  lemma {:induction false} FullTableForgets(events: seq<Event>, i: nat, cap: nat) returns (key: ReadKey)
    requires i < |events| && ReadRequest(events[i].apdu, events[i].packet).Some?
    requires |Run(events[..i], cap).pending| >= MAX_PENDING_FILE_READS
    ensures Outstanding(events[..i + 1], key).Some? && key !in Run(events[..i + 1], cap).pending
  {
    hide ReadRequest, ReadAck, Run, PendingAfter, Outstanding;
    var upTo, e := events[..i + 1], events[i];
    assert upTo[..i] == events[..i] && upTo[i] == e;
    PendingUnfolds(upTo, cap);
    key := ClearedBy(Run(events[..i], cap).pending, e.apdu, e.packet);
    PendingIsSound(events[..i], cap, key);
    OtherKeyStays(upTo, key);
  }

  /** The first request at which too many are unanswered finds the table full. */
  lemma {:induction false} FirstTooMany(events: seq<Event>, i: nat, cap: nat) returns (j: nat)
    requires i < |events| && ReadRequest(events[i].apdu, events[i].packet).Some?
    requires |Unanswered(events[..i])| >= MAX_PENDING_FILE_READS
    ensures j <= i && ReadRequest(events[j].apdu, events[j].packet).Some?
    ensures |Run(events[..j], cap).pending| >= MAX_PENDING_FILE_READS
  {
    hide ReadRequest, Run, Unanswered;
    if FewUnanswered(events[..i]) {
      j := i;
      PendingIsComplete(events[..i], cap);
      assert |Run(events[..i], cap).pending.Keys| == |Run(events[..i], cap).pending|;
    } else {
      var k :| 0 <= k < i && ReadRequest(events[..i][k].apdu, events[..i][k].packet).Some? &&
        |Unanswered(events[..i][..k])| >= MAX_PENDING_FILE_READS;
      assert events[..i][..k] == events[..k];
      j := FirstTooMany(events, k, cap);
    }
  }

  /** Every unanswered request can be matched at every moment exactly when no request meets too many unanswered ones. */
  lemma {:induction false} NothingForgottenIff(events: seq<Event>, cap: nat)
    ensures FewUnanswered(events) <==>
            forall i, key :: 0 <= i <= |events| && Outstanding(events[..i], key).Some? ==>
                               key in Run(events[..i], cap).pending
  {
    hide ReadRequest, ReadAck, Absorb, Target, Run, Outstanding, Unanswered;
    if FewUnanswered(events) {
      forall i, key | 0 <= i <= |events| && Outstanding(events[..i], key).Some?
        ensures key in Run(events[..i], cap).pending
      {
        FewUnansweredPrefix(events, i);
        UnansweredIff(events[..i], key);
        PendingIsComplete(events[..i], cap);
        assert key in Run(events[..i], cap).pending.Keys;
      }
    } else {
      var i :| 0 <= i < |events| && ReadRequest(events[i].apdu, events[i].packet).Some? &&
        |Unanswered(events[..i])| >= MAX_PENDING_FILE_READS;
      var j := FirstTooMany(events, i, cap);
      var key := FullTableForgets(events, j, cap);
    }
  }

  // ---------- one transfer at a time ----------

  datatype Delivery = Delivery(body: FileBody, packet: Packet)

  function OutstandingIn(events: seq<Event>): ReadKey -> Option<ObjectId> {
    key => Outstanding(events, key)
  }

  /** The file data sent for one transfer: acks to reads of that file, or writes to it. */
  function Deliveries(events: seq<Event>, key: BufferKey): seq<Delivery> {
    if events == [] then []
    else
      var front, e := events[..|events| - 1], events[|events| - 1];
      var target := Target(OutstandingIn(front), e.apdu, e.packet);
      if target.Some? && target.value.0 == key then Deliveries(front, key) + [Delivery(target.value.1, e.packet)]
      else Deliveries(front, key)
  }

  /** The candidates emitted for one transfer. */
  function Emitted(events: seq<Event>, key: BufferKey, cap: nat): seq<Candidate> {
    if events == [] then []
    else
      var front, e := events[..|events| - 1], events[|events| - 1];
      var st := Run(front, cap);
      var target := Target(Asked(st.pending), e.apdu, e.packet);
      if target.Some? && target.value.0 == key then
        Emitted(front, key, cap) + Step(st, e.apdu, e.packet, cap).1
      else Emitted(front, key, cap)
  }

  datatype Slot = Slot(buffer: Option<FileBuffer>, out: seq<Candidate>)

  function DeliverOne(slot: Slot, key: BufferKey, d: Delivery, cap: nat): Slot {
    if Ignored(d.body) then slot
    else
      var b := Fill(slot.buffer, d.body, d.packet, cap);
      if d.body.endOfFile then Slot(None, slot.out + Candidates(key, b)) else Slot(Some(b), slot.out)
  }

  /** One transfer alone: its deliveries put into one buffer. */
  function Deliver(slot: Slot, key: BufferKey, ds: seq<Delivery>, cap: nat): Slot {
    if ds == [] then slot
    else DeliverOne(Deliver(slot, key, ds[..|ds| - 1], cap), key, ds[|ds| - 1], cap)
  }

  const EMPTY := Slot(None, [])

  lemma {:induction false} TargetsAgree(events: seq<Event>, e: Event, cap: nat)
    requires FewUnanswered(events)
    ensures Target(Asked(Run(events, cap).pending), e.apdu, e.packet) ==
            Target(OutstandingIn(events), e.apdu, e.packet)
  {
    hide ReadRequest, ReadAck, WriteRequest, Run, Outstanding, Unanswered, FewUnanswered;
    var ack := ReadAck(e.apdu, e.packet);
    if ack.Some? {
      var key := ack.value.0;
      if key in Run(events, cap).pending {
        PendingIsSound(events, cap, key);
      } else {
        UnansweredIff(events, key);
        PendingIsComplete(events, cap);
        assert key !in Run(events, cap).pending.Keys;
      }
    }
  }

  lemma {:induction false} AbsorbsIntoOneSlot(
    bufs: Buffers, out: seq<Candidate>, key: BufferKey, k: BufferKey, d: Delivery, cap: nat)
    ensures var (bufs', more) := Absorb(bufs, k, d.body, d.packet, cap);
            && (k == key ==> Slot(Lookup(bufs', key), out + more) ==
                             DeliverOne(Slot(Lookup(bufs, key), out), key, d, cap))
            && (k != key ==> Lookup(bufs', key) == Lookup(bufs, key))
  {
    hide Fill, Candidates, Remove;
    assert out + [] == out;
  }

  lemma {:induction false} SlotFollows(
    bufs: Buffers, slot: Slot, key: BufferKey, k: BufferKey, d: Delivery, cap: nat)
    requires Lookup(bufs, key) == slot.buffer
    ensures var (bufs', more) := Absorb(bufs, k, d.body, d.packet, cap);
            Slot(Lookup(bufs', key), slot.out + if k == key then more else []) ==
            if k == key then DeliverOne(slot, key, d, cap) else slot
  {
    hide Absorb, DeliverOne, Lookup;
    AbsorbsIntoOneSlot(bufs, slot.out, key, k, d, cap);
    ConcatNothing(slot.out);
  }

  /** A transfer's buffer and candidates depend on its own deliveries, whatever else is captured in between. */
  lemma {:induction false} TransfersAreIsolated(events: seq<Event>, key: BufferKey, cap: nat)
    requires FewUnanswered(events)
    ensures var slot := Deliver(EMPTY, key, Deliveries(events, key), cap);
            Lookup(Run(events, cap).buffers, key) == slot.buffer && Emitted(events, key, cap) == slot.out
  {
    if events != [] {
      hide *;
      var front, e := events[..|events| - 1], events[|events| - 1];
      FewBefore(events);
      TransfersAreIsolated(front, key, cap);
      TargetsAgree(front, e, cap);
      var target := Target(OutstandingIn(front), e.apdu, e.packet);
      if target.Some? {
        SlotFollows(Run(front, cap).buffers, Deliver(EMPTY, key, Deliveries(front, key), cap), key, target.value.0,
                    Delivery(target.value.1, e.packet), cap);
      }
    }
  }

  // ---------- a complete file read ----------

  /** A delivery that carries `F` from some position on. */
  ghost predicate Carries(d: Delivery, F: bytes) {
    && d.body.start.Some? && 0 <= d.body.start.value
    && NonEmpty(d.body.chunks)
    && var data, s := Concat(d.body.chunks), d.body.start.value;
       s + |data| <= |F| && data == F[s..s + |data|]
  }

  predicate Supplies(d: Delivery, k: int) {
    d.body.start.Some? && d.body.start.value <= k < d.body.start.value + |Concat(d.body.chunks)|
  }

  ghost predicate Supplied(ds: seq<Delivery>, k: int) {
    exists i :: 0 <= i < |ds| && Supplies(ds[i], k)
  }

  /** Pieces of `F` in any order, with any overlaps, that leave no byte out; the last one says end of file. */
  ghost predicate FileTransfer(ds: seq<Delivery>, F: bytes) {
    && ds != [] && F != []
    && (forall i :: 0 <= i < |ds| ==> Carries(ds[i], F) && (ds[i].body.endOfFile <==> i == |ds| - 1))
    && forall k :: 0 <= k < |F| ==> Supplied(ds, k)
  }

  /** The buffer agrees with `F` on every byte that the delivery supplies. */
  ghost predicate Agrees(data: bytes, d: Delivery, F: bytes) {
    forall k :: 0 <= k < |F| && Supplies(d, k) ==> k < |data| && data[k] == F[k]
  }

  ghost predicate Partial(w: Written, ds: seq<Delivery>, n: nat, F: bytes)
    requires n <= |ds|
  {
    && |w.data| <= |F| && !w.truncated
    && forall i :: 0 <= i < n ==> Agrees(w.data, ds[i], F)
  }

  lemma {:induction false} OneMorePiece(w: Written, ds: seq<Delivery>, n: nat, F: bytes, cap: nat)
    requires n < |ds| && |F| <= cap && Partial(w, ds, n, F) && Carries(ds[n], F)
    ensures Partial(WriteChunks(w, ds[n].body.start.value, ds[n].body.chunks, cap), ds, n + 1, F)
  {
    hide Concat, WriteChunks;
    var s, c := ds[n].body.start.value, Concat(ds[n].body.chunks);
    WriteChunksIsOverlay(w, s, ds[n].body.chunks, cap);
    var r := WriteChunks(w, s, ds[n].body.chunks, cap);
    assert |r.data| <= |F| && !r.truncated;
    forall i | 0 <= i < n + 1 ensures Agrees(r.data, ds[i], F) {
      forall k | 0 <= k < |F| && Supplies(ds[i], k) ensures k < |r.data| && r.data[k] == F[k] {
        assert i < n ==> Agrees(w.data, ds[i], F);
        assert k < |r.data|;
        assert r.data[k] == OverlayByte(w.data, s, c, k);
        assert s <= k < s + |c| ==> c[k - s] == F[s..s + |c|][k - s];
      }
    }
  }

  lemma {:induction false} NothingWritten(w: Written, position: int, cap: nat)
    ensures WriteChunks(w, position, [], cap) == w
  {
  }

  lemma {:induction false} PiecesAccumulate(key: BufferKey, ds: seq<Delivery>, n: nat, F: bytes, out: seq<Candidate>,
      cap: nat)
    requires FileTransfer(ds, F) && |F| <= cap && n < |ds|
    ensures var slot := Deliver(Slot(None, out), key, ds[..n], cap);
            && slot.out == out
            && Partial(if slot.buffer.Some? then slot.buffer.value.written else Written([], false), ds, n, F)
    decreases n
  {
    hide Concat, WriteChunks;
    if n > 0 {
      var d := ds[n - 1];
      PiecesAccumulate(key, ds, n - 1, F, out, cap);
      assert ds[..n][..n - 1] == ds[..n - 1];
      var slot := Deliver(Slot(None, out), key, ds[..n - 1], cap);
      var w := if slot.buffer.Some? then slot.buffer.value.written else Written([], false);
      OneMorePiece(w, ds, n - 1, F, cap);
      if Ignored(d.body) {
        NothingWritten(w, d.body.start.value, cap);
      }
    }
  }

  lemma {:induction false} SuppliedByte(w: Written, ds: seq<Delivery>, F: bytes, k: nat)
    requires FileTransfer(ds, F) && Partial(w, ds, |ds|, F) && k < |F|
    ensures k < |w.data| && w.data[k] == F[k]
  {
    hide Concat, Supplies, Carries;
    assert Supplied(ds, k);
    var i :| 0 <= i < |ds| && Supplies(ds[i], k);
    assert Agrees(w.data, ds[i], F);
  }

  lemma {:induction false} AllSupplied(w: Written, ds: seq<Delivery>, F: bytes)
    requires FileTransfer(ds, F) && Partial(w, ds, |ds|, F)
    ensures w.data == F
  {
    hide Concat, Carries, Supplied;
    SuppliedByte(w, ds, F, |F| - 1);
    forall k | 0 <= k < |F| ensures k < |w.data| && w.data[k] == F[k] {
      SuppliedByte(w, ds, F, k);
    }
  }

  /** A transfer that finds no buffer open emits exactly one candidate, the file, and leaves no buffer open. */
  lemma {:induction false} TransferYieldsFile(key: BufferKey, ds: seq<Delivery>, F: bytes, out: seq<Candidate>,
      cap: nat)
    requires FileTransfer(ds, F) && |F| <= cap
    ensures var slot := Deliver(Slot(None, out), key, ds, cap);
            && slot.buffer == None && |slot.out| == |out| + 1 && slot.out[..|out|] == out
            && var c := slot.out[|out|];
               c.data == F && c.fileOid == key.fileOid && c.direction == key.direction && !c.truncated
  {
    hide Concat, WriteChunks;
    var n := |ds| - 1;
    PiecesAccumulate(key, ds, n, F, out, cap);
    assert ds[..n + 1] == ds;
    var slot := Deliver(Slot(None, out), key, ds[..n], cap);
    var w := if slot.buffer.Some? then slot.buffer.value.written else Written([], false);
    OneMorePiece(w, ds, n, F, cap);
    var b := Fill(slot.buffer, ds[n].body, ds[n].packet, cap);
    AllSupplied(b.written, ds, F);
  }

  /**
    * End to end: if the deliveries for one file make up `F`, then exactly one candidate is emitted for them, equal to
    * `F`, however the requests, acks and writes of other peers and files are interleaved with them.
    */
  lemma {:induction false} FileIsDelivered(events: seq<Event>, key: BufferKey, F: bytes, cap: nat)
    requires FewUnanswered(events) && |F| <= cap
    requires FileTransfer(Deliveries(events, key), F)
    ensures |Emitted(events, key, cap)| == 1
    ensures Emitted(events, key, cap)[0].data == F && !Emitted(events, key, cap)[0].truncated
    ensures Emitted(events, key, cap)[0].fileOid == key.fileOid
    ensures key !in Run(events, cap).buffers.table
  {
    TransfersAreIsolated(events, key, cap);
    TransferYieldsFile(key, Deliveries(events, key), F, [], cap);
  }

  lemma {:induction false} DeliverConcat(slot: Slot, key: BufferKey, ds: seq<Delivery>, ds': seq<Delivery>, cap: nat)
    ensures Deliver(slot, key, ds + ds', cap) == Deliver(Deliver(slot, key, ds, cap), key, ds', cap)
  {
    hide DeliverOne;
    if ds' == [] {
      assert ds + ds' == ds;
    } else {
      DeliverConcat(slot, key, ds, ds'[..|ds'| - 1], cap);
      assert (ds + ds')[..|ds + ds'| - 1] == ds + ds'[..|ds'| - 1];
    }
  }

  // ---------- many reads of one file ----------

  function JoinAll(transfers: seq<seq<Delivery>>): seq<Delivery> {
    if transfers == [] then [] else JoinAll(transfers[..|transfers| - 1]) + transfers[|transfers| - 1]
  }

  /** Transfers that follow one another between the same peers never mix: one candidate each, in order. */
  lemma {:induction false} RepeatedTransfers(key: BufferKey, transfers: seq<seq<Delivery>>, files: seq<bytes>, cap: nat)
    requires |transfers| == |files|
    requires forall i :: 0 <= i < |files| ==> FileTransfer(transfers[i], files[i]) && |files[i]| <= cap
    ensures var slot := Deliver(EMPTY, key, JoinAll(transfers), cap);
            && slot.buffer == None && |slot.out| == |files|
            && forall i :: 0 <= i < |files| ==> slot.out[i].data == files[i] && !slot.out[i].truncated
  {
    hide FileTransfer;
    if transfers != [] {
      var n := |files| - 1;
      RepeatedTransfers(key, transfers[..n], files[..n], cap);
      var before := Deliver(EMPTY, key, JoinAll(transfers[..n]), cap);
      DeliverConcat(EMPTY, key, JoinAll(transfers[..n]), transfers[n], cap);
      TransferYieldsFile(key, transfers[n], files[n], before.out, cap);
      var after := Deliver(EMPTY, key, JoinAll(transfers), cap);
      forall i | 0 <= i < |files| ensures after.out[i].data == files[i] && !after.out[i].truncated {
        if i < n {
          assert after.out[i] == after.out[..n][i] == before.out[i];
          assert files[..n][i] == files[i];
        }
      }
    }
  }

  /** End to end for any number of transfers of one file between the same peers, interleaved with anything else. */
  lemma {:induction false} FilesAreDelivered(
    events: seq<Event>, key: BufferKey, transfers: seq<seq<Delivery>>, files: seq<bytes>, cap: nat)
    requires FewUnanswered(events) && |transfers| == |files|
    requires Deliveries(events, key) == JoinAll(transfers)
    requires forall i :: 0 <= i < |files| ==> FileTransfer(transfers[i], files[i]) && |files[i]| <= cap
    ensures |Emitted(events, key, cap)| == |files|
    ensures forall i :: 0 <= i < |files| ==> Emitted(events, key, cap)[i].data == files[i]
    ensures key !in Run(events, cap).buffers.table
  {
    hide FileTransfer, FewUnanswered, Run, Emitted, Deliveries, Deliver;
    TransfersAreIsolated(events, key, cap);
    RepeatedTransfers(key, transfers, files, cap);
  }
}
