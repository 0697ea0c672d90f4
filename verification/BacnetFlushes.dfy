/**
  * What a transfer's candidate is made of besides a complete file: data without positions, a transfer that is still
  * open when the capture ends, and the packet that names its flow and time.
  */
module BacnetFlushes {
  import opened Basics
  import opened Models
  import opened BacnetFiles
  import opened BacnetTransfers
  import opened BacnetCaptures

  function WrittenOf(buffer: Option<FileBuffer>): Written {
    if buffer.Some? then buffer.value.written else Written([], false)
  }

  // ---------- data without positions ----------

  /** All data of the deliveries, in order. */
  function AllData(ds: seq<Delivery>): bytes {
    if ds == [] then [] else AllData(ds[..|ds| - 1]) + Concat(ds[|ds| - 1].body.chunks)
  }

  predicate Unplaced(d: Delivery) {
    d.body.start.None? && NonEmpty(d.body.chunks)
  }

  lemma {:induction false} AppendsAtEnd(w: Written, chunks: seq<bytes>, cap: nat)
    requires NonEmpty(chunks) && |w.data| + |Concat(chunks)| <= cap && !w.truncated
    ensures WriteChunks(w, |w.data|, chunks, cap) == Written(w.data + Concat(chunks), false)
  {
    hide WriteChunks, Concat;
    WriteChunksIsOverlay(w, |w.data|, chunks, cap);
    var r, d := WriteChunks(w, |w.data|, chunks, cap), Concat(chunks);
    assert |r.data| == |w.data + d|;
    assert forall i :: 0 <= i < |r.data| ==> r.data[i] == (w.data + d)[i];
    assert r.data == w.data + d;
  }

  lemma {:induction false} AppendsAccumulate(key: BufferKey, ds: seq<Delivery>, out: seq<Candidate>, cap: nat)
    requires forall i :: 0 <= i < |ds| ==> Unplaced(ds[i]) && !ds[i].body.endOfFile
    requires |AllData(ds)| <= cap
    ensures var slot := Deliver(Slot(None, out), key, ds, cap);
            slot.out == out && WrittenOf(slot.buffer) == Written(AllData(ds), false)
  {
    hide WriteChunks, Concat;
    if ds != [] {
      var front, d := ds[..|ds| - 1], ds[|ds| - 1];
      AppendsAccumulate(key, front, out, cap);
      var slot := Deliver(Slot(None, out), key, front, cap);
      AppendsAtEnd(WrittenOf(slot.buffer), d.body.chunks, cap);
      if d.body.chunks == [] {
        ConcatNonEmpty(d.body.chunks);
      }
    }
  }

  /** Pieces without a position are appended in the order of their arrival. */
  lemma {:induction false} UnplacedTransferYieldsData(
    key: BufferKey, ds: seq<Delivery>, out: seq<Candidate>, cap: nat)
    requires ds != [] && 0 < |AllData(ds)| <= cap
    requires forall i :: 0 <= i < |ds| ==> Unplaced(ds[i]) && (ds[i].body.endOfFile <==> i == |ds| - 1)
    ensures var slot := Deliver(Slot(None, out), key, ds, cap);
            && slot.buffer == None && |slot.out| == |out| + 1 && slot.out[..|out|] == out
            && slot.out[|out|].data == AllData(ds) && !slot.out[|out|].truncated
  {
    hide WriteChunks, Concat;
    var front, d := ds[..|ds| - 1], ds[|ds| - 1];
    AppendsAccumulate(key, front, out, cap);
    AppendsAtEnd(WrittenOf(Deliver(Slot(None, out), key, front, cap).buffer), d.body.chunks, cap);
  }

  // ---------- the flow and time of a candidate ----------

  /** The first delivery that is not ignored. */
  predicate IsFirst(ds: seq<Delivery>, i: int) {
    0 <= i < |ds| && !Ignored(ds[i].body) && forall j :: 0 <= j < i ==> Ignored(ds[j].body)
  }

  lemma {:induction false} BufferIsFirsts(key: BufferKey, ds: seq<Delivery>, out: seq<Candidate>, cap: nat)
    requires forall i :: 0 <= i < |ds| ==> !ds[i].body.endOfFile
    ensures var slot := Deliver(Slot(None, out), key, ds, cap);
            if slot.buffer.None? then forall i :: 0 <= i < |ds| ==> Ignored(ds[i].body)
            else exists i :: IsFirst(ds, i) && slot.buffer.value.flow == ds[i].packet.Flow() &&
                             slot.buffer.value.timestamp == ds[i].packet.timestamp
  {
    hide WriteChunks;
    if ds != [] {
      var front, n := ds[..|ds| - 1], |ds| - 1;
      BufferIsFirsts(key, front, out, cap);
      var before := Deliver(Slot(None, out), key, front, cap);
      assert forall i :: 0 <= i < n ==> front[i] == ds[i];
      if before.buffer.Some? {
        var i :| IsFirst(front, i) && before.buffer.value.flow == front[i].packet.Flow() &&
                 before.buffer.value.timestamp == front[i].packet.timestamp;
        assert IsFirst(ds, i);
      } else if !Ignored(ds[n].body) {
        assert IsFirst(ds, n);
      }
    }
  }

  lemma {:induction false} FrontKeepsOut(key: BufferKey, ds: seq<Delivery>, out: seq<Candidate>, cap: nat)
    requires forall i :: 0 <= i < |ds| ==> !ds[i].body.endOfFile
    ensures Deliver(Slot(None, out), key, ds, cap).out == out
  {
    hide Fill;
    if ds != [] {
      FrontKeepsOut(key, ds[..|ds| - 1], out, cap);
    }
  }

  /** A candidate has the flow and the time of the first packet that brought anything for it. */
  lemma {:induction false} CandidateIsFirsts(key: BufferKey, ds: seq<Delivery>, out: seq<Candidate>, cap: nat)
    requires ds != [] && forall i :: 0 <= i < |ds| ==> (ds[i].body.endOfFile <==> i == |ds| - 1)
    ensures var slot := Deliver(Slot(None, out), key, ds, cap);
            |slot.out| > |out| ==>
              exists i :: IsFirst(ds, i) && slot.out[|out|].flow == ds[i].packet.Flow() &&
                          slot.out[|out|].timestamp == ds[i].packet.timestamp
  {
    hide WriteChunks;
    var front, n := ds[..|ds| - 1], |ds| - 1;
    BufferIsFirsts(key, front, out, cap);
    assert forall i :: 0 <= i < n ==> front[i] == ds[i];
    var before := Deliver(Slot(None, out), key, front, cap);
    if before.buffer.Some? {
      var i :| IsFirst(front, i) && before.buffer.value.flow == front[i].packet.Flow() &&
               before.buffer.value.timestamp == front[i].packet.timestamp;
      assert IsFirst(ds, i);
      FrontKeepsOut(key, front, out, cap);
    } else {
      FrontKeepsOut(key, front, out, cap);
      assert IsFirst(ds, n);
    }
  }

  // ---------- the end of the capture ----------

  /** The keys whose buffers hold data, in order. */
  function Holding(buffers: map<BufferKey, FileBuffer>, order: seq<BufferKey>): seq<BufferKey>
    requires forall k :: k in order ==> k in buffers
  {
    if order == [] then []
    else
      var front, key := Holding(buffers, order[..|order| - 1]), order[|order| - 1];
      if buffers[key].written.data == [] then front else front + [key]
  }

  /** At the end every open buffer that holds data becomes one candidate, with its data, its file and its direction. */
  lemma {:induction false} FlushedInOrder(buffers: map<BufferKey, FileBuffer>, order: seq<BufferKey>)
    requires forall k :: k in order ==> k in buffers
    ensures var keys, out := Holding(buffers, order), AllCandidates(buffers, order);
            && |out| == |keys|
            && forall i :: 0 <= i < |keys| ==>
                 && keys[i] in buffers
                 && out[i].data == buffers[keys[i]].written.data
                 && out[i].truncated == buffers[keys[i]].written.truncated
                 && out[i].fileOid == keys[i].fileOid && out[i].direction == keys[i].direction
                 && out[i].flow == buffers[keys[i]].flow && out[i].timestamp == buffers[keys[i]].timestamp
  {
    if order != [] {
      FlushedInOrder(buffers, order[..|order| - 1]);
    }
  }

  lemma {:induction false} HoldingIff(buffers: map<BufferKey, FileBuffer>, order: seq<BufferKey>, key: BufferKey)
    requires forall k :: k in order ==> k in buffers
    ensures key in Holding(buffers, order) <==> key in order && buffers[key].written.data != []
  {
    if order != [] {
      HoldingIff(buffers, order[..|order| - 1], key);
      assert order == order[..|order| - 1] + [order[|order| - 1]];
    }
  }

  ghost predicate Ordered(b: Buffers) {
    Distinct(b.order) && forall k :: k in b.order <==> k in b.table
  }

  lemma {:induction false} NothingIsDistinct()
    ensures Distinct<BufferKey>([])
  {
  }

  lemma {:induction false} BuffersAreOrdered(events: seq<Event>, cap: nat)
    ensures Ordered(Run(events, cap).buffers)
  {
    hide Fill, Target, PendingAfter, Distinct, Remove;
    if events == [] {
      NothingIsDistinct();
    } else {
      var before := Run(events[..|events| - 1], cap).buffers;
      BuffersAreOrdered(events[..|events| - 1], cap);
      forall key | key !in before.order ensures Distinct(before.order + [key]) {
        DistinctAppend(before.order, key);
      }
    }
  }

  /** Pieces of `F` in any order that leave no byte out, none of which says end of file. */
  ghost predicate OpenTransfer(ds: seq<Delivery>, F: bytes) {
    && F != []
    && (forall i :: 0 <= i < |ds| ==> Carries(ds[i], F) && !ds[i].body.endOfFile)
    && forall k :: 0 <= k < |F| ==> Supplied(ds, k)
  }

  lemma {:induction false} OpenTransferIsHeld(key: BufferKey, ds: seq<Delivery>, F: bytes, cap: nat)
    requires OpenTransfer(ds, F) && |F| <= cap
    ensures var slot := Deliver(EMPTY, key, ds, cap);
            slot.out == [] && slot.buffer.Some? && slot.buffer.value.written.data == F
  {
    hide WriteChunks, Fill;
    assert Supplied(ds, 0);
    var end := Delivery(FileBody(true, Some(0), []), ds[0].packet);
    var all, n := ds + [end], |ds|;
    assert Carries(end, F) && forall k :: !Supplies(end, k);
    hide Carries, Supplies;
    forall k | 0 <= k < |F| ensures Supplied(all, k) {
      assert Supplied(ds, k);
      var i :| 0 <= i < |ds| && Supplies(ds[i], k);
      assert all[i] == ds[i];
    }
    PiecesAccumulate(key, all, n, F, [], cap);
    assert all[..n] == ds;
    var w := WrittenOf(Deliver(EMPTY, key, ds, cap).buffer);
    assert Partial(w, all, n + 1, F);
    AllSupplied(w, all, F);
  }

  lemma {:induction false} OrderedKeys(b: Buffers, key: BufferKey)
    requires Ordered(b)
    ensures forall k :: k in b.order ==> k in b.table
    ensures Lookup(b, key).Some? ==> key in b.order && b.table[key] == Lookup(b, key).value
  {
  }

  /** A file all of whose bytes have come, without the end being said, is a candidate when the capture ends. */
  lemma {:induction false} OpenTransferIsFlushed(events: seq<Event>, key: BufferKey, F: bytes, cap: nat)
    requires FewUnanswered(events) && |F| <= cap && OpenTransfer(Deliveries(events, key), F)
    ensures var b := Run(events, cap).buffers;
            && Ordered(b) && Emitted(events, key, cap) == []
            && exists c :: c in AllCandidates(b.table, b.order) && c.data == F && c.fileOid == key.fileOid &&
                           c.direction == key.direction
  {
    var b := Run(events, cap).buffers;
    BuffersAreOrdered(events, cap);
    TransfersAreIsolated(events, key, cap);
    OpenTransferIsHeld(key, Deliveries(events, key), F, cap);
    assert F != [];
    hide *;
    OrderedKeys(b, key);
    FlushedInOrder(b.table, b.order);
    HoldingIff(b.table, b.order, key);
    assert key in Holding(b.table, b.order);
    var i :| 0 <= i < |Holding(b.table, b.order)| && Holding(b.table, b.order)[i] == key;
    assert AllCandidates(b.table, b.order)[i] in AllCandidates(b.table, b.order);
  }
}
