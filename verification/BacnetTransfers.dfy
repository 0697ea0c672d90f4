/**
  * The capped buffer of a BACnet file transfer is an overlay of the writes made to it, as long as no write starts at a
  * negative position.
  */
module BacnetTransfers {
  import opened Basics
  import opened BacnetFiles

  // ---------- the buffer as an overlay ----------

  predicate NonEmpty(chunks: seq<bytes>) {
    forall i :: 0 <= i < |chunks| ==> chunks[i] != []
  }

  function Concat(chunks: seq<bytes>): bytes {
    if chunks == [] then [] else chunks[0] + Concat(chunks[1..])
  }

  /** The byte at `i` after `d` has been written at `position` over `data`: written, old, or a hole. */
  function OverlayByte(data: bytes, position: nat, d: bytes, i: nat): byte {
    if position <= i < position + |d| then d[i - position] else if i < |data| then data[i] else 0
  }

  function OverlayLength(data: bytes, position: nat, d: bytes, cap: nat): nat {
    if d == [] || position >= cap then |data| else Max(|data|, Min(cap, position + |d|))
  }

  ghost predicate IsOverlay(r: Written, w: Written, position: nat, d: bytes, cap: nat) {
    && |r.data| == OverlayLength(w.data, position, d, cap)
    && (forall i :: 0 <= i < |r.data| ==> r.data[i] == OverlayByte(w.data, position, d, i))
    && (r.truncated <==> w.truncated || (d != [] && position + |d| > cap))
  }

  lemma {:induction false} WriteChunkIsOverlay(w: Written, position: nat, chunk: bytes, cap: nat)
    requires |w.data| <= cap && position < cap && chunk != []
    ensures IsOverlay(WriteChunk(w, position, chunk, cap), w, position, chunk, cap)
    ensures |WriteChunk(w, position, chunk, cap).data| <= cap
  {
    var kept := if |chunk| > cap - position then chunk[..cap - position] else chunk;
    var padded := Padded(w.data, position + |kept|);
    assert SliceAssign(padded, position, position + |kept|, kept) ==
           padded[..position] + kept + padded[position + |kept|..];
  }

  /** An overlay of `c` followed by an overlay of `d` where `c` ended is an overlay of both. */
  lemma {:induction false} OverlaysCompose(w: Written, v: Written, r: Written, position: nat, c: bytes, d: bytes,
      cap: nat)
    requires |w.data| <= cap && position < cap && c != []
    requires IsOverlay(v, w, position, c, cap)
    requires IsOverlay(r, v, position + Min(|c|, cap - position), d, cap)
    ensures IsOverlay(r, w, position, c + d, cap) && |v.data| <= cap
  {
    forall i | 0 <= i < |r.data| ensures r.data[i] == OverlayByte(w.data, position, c + d, i) {
      assert i < |v.data| ==> v.data[i] == OverlayByte(w.data, position, c, i);
    }
  }

  lemma {:induction false} ConcatNonEmpty(chunks: seq<bytes>)
    requires NonEmpty(chunks)
    ensures Concat(chunks) == [] <==> chunks == []
  {
  }

  lemma {:induction false} NoRoomIsOverlay(w: Written, position: nat, chunks: seq<bytes>, cap: nat)
    requires |w.data| <= cap && NonEmpty(chunks) && (chunks == [] || position >= cap)
    ensures IsOverlay(WriteChunks(w, position, chunks, cap), w, position, Concat(chunks), cap)
  {
    ConcatNonEmpty(chunks);
  }

  /** Writing chunks one after the other is writing their concatenation; nothing goes past the cap. */
  lemma {:induction false} WriteChunksIsOverlay(w: Written, position: nat, chunks: seq<bytes>, cap: nat)
    requires |w.data| <= cap && NonEmpty(chunks)
    ensures IsOverlay(WriteChunks(w, position, chunks, cap), w, position, Concat(chunks), cap)
    ensures |WriteChunks(w, position, chunks, cap).data| <= cap
    decreases |chunks|
  {
    hide WriteChunk, IsOverlay;
    if chunks == [] || position >= cap {
      NoRoomIsOverlay(w, position, chunks, cap);
    } else {
      var c := chunks[0];
      var w' := WriteChunk(w, position, c, cap);
      var position' := position + Min(|c|, cap - position);
      WriteChunkIsOverlay(w, position, c, cap);
      WriteChunksIsOverlay(w', position', chunks[1..], cap);
      OverlaysCompose(w, w', WriteChunks(w', position', chunks[1..], cap), position, c, Concat(chunks[1..]), cap);
    }
  }

  /** One write of a run: a position and the bytes written there. */
  datatype Write = Write(position: nat, chunks: seq<bytes>) {
    function Data(): bytes {
      Concat(chunks)
    }

    predicate Reaches(i: nat) {
      position <= i < position + |Data()|
    }
  }

  function WriteAll(writes: seq<Write>, cap: nat): Written {
    if writes == [] then Written([], false)
    else
      var last := writes[|writes| - 1];
      WriteChunks(WriteAll(writes[..|writes| - 1], cap), last.position, last.chunks, cap)
  }

  /** What the last write to reach `i` put there; zero if none did. */
  function LastWriter(writes: seq<Write>, i: nat): byte {
    if writes == [] then 0
    else
      var last := writes[|writes| - 1];
      if last.Reaches(i) then last.Data()[i - last.position] else LastWriter(writes[..|writes| - 1], i)
  }

  function Extent(writes: seq<Write>, cap: nat): nat {
    if writes == [] then 0
    else
      var before, last := Extent(writes[..|writes| - 1], cap), writes[|writes| - 1];
      if last.chunks == [] || last.position >= cap then before
      else Max(before, Min(cap, last.position + |last.Data()|))
  }

  predicate Overflows(w: Write, cap: nat) {
    w.chunks != [] && w.position + |w.Data()| > cap
  }

  ghost predicate HoldsLastWriters(data: bytes, writes: seq<Write>, cap: nat) {
    && |data| == Extent(writes, cap) <= cap
    && forall i :: 0 <= i < |data| ==> data[i] == LastWriter(writes, i)
  }

  lemma {:induction false} NothingPastExtent(writes: seq<Write>, cap: nat, i: nat)
    requires Extent(writes, cap) <= i < cap
    requires forall j :: 0 <= j < |writes| ==> NonEmpty(writes[j].chunks)
    ensures LastWriter(writes, i) == 0
  {
    if writes != [] {
      ConcatNonEmpty(writes[|writes| - 1].chunks);
      NothingPastExtent(writes[..|writes| - 1], cap, i);
    }
  }

  lemma {:induction false} OneMoreWriter(v: Written, w: Written, writes: seq<Write>, cap: nat)
    requires writes != [] && forall i :: 0 <= i < |writes| ==> NonEmpty(writes[i].chunks)
    requires var last := writes[|writes| - 1];
             && HoldsLastWriters(v.data, writes[..|writes| - 1], cap)
             && IsOverlay(w, v, last.position, last.Data(), cap)
    ensures HoldsLastWriters(w.data, writes, cap)
  {
    hide Concat;
    var front, last := writes[..|writes| - 1], writes[|writes| - 1];
    ConcatNonEmpty(last.chunks);
    forall i | 0 <= i < |w.data| ensures w.data[i] == LastWriter(writes, i) {
      if i >= |v.data| {
        NothingPastExtent(front, cap, i);
      }
      assert w.data[i] == OverlayByte(v.data, last.position, last.Data(), i);
    }
  }

  lemma {:induction false} TruncatedUnfolds(writes: seq<Write>, cap: nat)
    requires writes != []
    ensures var front, last := writes[..|writes| - 1], writes[|writes| - 1];
            (exists i :: 0 <= i < |writes| && Overflows(writes[i], cap)) <==>
            Overflows(last, cap) || exists i :: 0 <= i < |front| && Overflows(front[i], cap)
  {
    hide Overflows;
    var front := writes[..|writes| - 1];
    assert forall i :: 0 <= i < |front| ==> front[i] == writes[i];
  }

  lemma {:induction false} WrittenUnfolds(writes: seq<Write>, cap: nat)
    requires writes != [] && NonEmpty(writes[|writes| - 1].chunks)
    requires |WriteAll(writes[..|writes| - 1], cap).data| <= cap
    ensures var last, v, w := writes[|writes| - 1], WriteAll(writes[..|writes| - 1], cap), WriteAll(writes, cap);
            IsOverlay(w, v, last.position, last.Data(), cap) && (w.truncated <==> v.truncated || Overflows(last, cap))
  {
    var last, v := writes[|writes| - 1], WriteAll(writes[..|writes| - 1], cap);
    WriteChunksIsOverlay(v, last.position, last.chunks, cap);
    hide WriteChunks, Concat;
    ConcatNonEmpty(last.chunks);
  }

  /**
    * After any run of writes the buffer is as long as the furthest write under the cap, every byte is its last
    * writer's or a zero, and `truncated` says whether some byte fell at or past the cap.
    */
  lemma {:induction false} BufferIsOverlay(writes: seq<Write>, cap: nat)
    requires forall i :: 0 <= i < |writes| ==> NonEmpty(writes[i].chunks)
    ensures HoldsLastWriters(WriteAll(writes, cap).data, writes, cap)
    ensures WriteAll(writes, cap).truncated <==> exists i :: 0 <= i < |writes| && Overflows(writes[i], cap)
  {
    if writes != [] {
      var front := writes[..|writes| - 1];
      hide WriteChunks, WriteAll, Concat, Overflows, IsOverlay, HoldsLastWriters, NonEmpty;
      BufferIsOverlay(front, cap);
      WrittenUnfolds(writes, cap);
      OneMoreWriter(WriteAll(front, cap), WriteAll(writes, cap), writes, cap);
      TruncatedUnfolds(writes, cap);
    }
  }

  /** Bytes outside the written range stay where they are. */
  predicate KeepsOthers(data: bytes, position: int, chunk: bytes, cap: int)
    requires position < cap
  {
    var r := WriteChunk(Written(data, false), position, chunk, cap).data;
    forall i :: 0 <= i < |data| && !(position <= i < position + |chunk|) ==> i < |r| && r[i] == data[i]
  }

  lemma {:induction false} NegativeWriteInserts(data: bytes, position: int, chunk: bytes, cap: int)
    requires position < 0 <= cap && |chunk| == -position && |data| <= -position
    ensures WriteChunk(Written(data, false), position, chunk, cap).data == chunk + data
  {
    assert data[0..] == data;
  }

  /** A start position means an offset exactly when it is not negative; a negative one counts from the end. */
  lemma {:induction false} PositionIsOffsetIff(position: int, cap: nat)
    requires position < cap && cap > 0
    ensures (forall data, chunk :: |data| <= cap && chunk != [] ==> KeepsOthers(data, position, chunk, cap))
            <==> position >= 0
  {
    if position >= 0 {
      forall data, chunk | |data| <= cap && chunk != [] ensures KeepsOthers(data, position, chunk, cap) {
        WriteChunkIsOverlay(Written(data, false), position, chunk, cap);
      }
    } else {
      var data: bytes := [1];
      var chunk: bytes := seq(-position, _ => 0);
      NegativeWriteInserts(data, position, chunk, cap);
      var r := WriteChunk(Written(data, false), position, chunk, cap).data;
      assert r[0] == 0 && data[0] == 1;
      assert !KeepsOthers(data, position, chunk, cap);
    }
  }
}
