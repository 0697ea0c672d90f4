/**
  * A SYN that arrives on top of what an earlier connection has left in the reassembler. As long as nothing is held
  * back, the leftover stays in front and the run behind the SYN is the one that a fresh reassembler would make.
  */
module TcpResidues {
  import opened Basics
  import opened SequenceNumbers
  import opened Models
  import opened TcpDirection
  import opened TcpStreams
  import opened TcpRuns
  import opened TcpClosing
  import StableSort

  /** `x` is `y` with older bytes and pieces in front; whether they are closed is left open. */
  predicate OnTop(x: State, y: State, left: State) {
    x == y.(buffer := left.buffer + y.buffer, segments := left.segments + y.segments, closed := x.closed)
  }

  lemma {:induction false} AppendOnTop(x: State, y: State, left: State, s: Segment)
    requires OnTop(x, y, left) && y.next.Some?
    ensures OnTop(Append(x, s), Append(y, s), left) && Append(y, s).next.Some?
  {
    hide Wrap;
    ConcatAssociative(left.buffer, y.buffer, s.data);
    ConcatAssociative(left.segments, y.segments, [s]);
  }

  lemma {:induction false} PassOnTop(x: State, y: State, left: State, held: seq<Segment>)
    requires OnTop(x, y, left) && y.next.Some?
    ensures var p, q := Pass(x, held), Pass(y, held);
            OnTop(p.st, q.st, left) && p.kept == q.kept && p.progress == q.progress
  {
    hide SeqDiff, Wrap, Append;
    if held != [] {
      var front, s := held[..|held| - 1], held[|held| - 1];
      PassOnTop(x, y, left, front);
      var p, q := Pass(x, front), Pass(y, front);
      var diff := SeqDiff(s.seqNum, q.st.next.value);
      if diff <= 0 && -diff < |s.data| {
        AppendOnTop(p.st, q.st, left, Trim(s, -diff));
      }
    }
  }

  lemma {:induction false} DrainOnTop(x: State, y: State, left: State)
    requires OnTop(x, y, left) && y.next.Some?
    ensures OnTop(Drain(x), Drain(y), left)
    decreases |y.outOfOrder|
  {
    hide Pass;
    if y.outOfOrder != [] {
      PassOnTop(x, y, left, y.outOfOrder);
      var p, q := Pass(x, y.outOfOrder), Pass(y, y.outOfOrder);
      if q.progress {
        DrainOnTop(p.st.(outOfOrder := p.kept), q.st.(outOfOrder := q.kept), left);
      }
    }
  }

  lemma {:induction false} PlaceOnTop(x: State, y: State, left: State, s: Segment)
    requires OnTop(x, y, left) && x.Valid() && y.Valid() && y.next.Some?
    ensures OnTop(Place(x, s), Place(y, s), left)
  {
    hide SeqDiff, Wrap, Drain, SliceFrom, StableSort.Sort, Append;
    var overlap := SeqDiff(y.next.value, s.seqNum);
    var t := s.(seqNum := Wrap(s.seqNum + overlap), data := SliceFrom(s.data, overlap));
    var held := StableSort.Sort(y.outOfOrder + [s], RawSeq);
    if s.seqNum == y.next.value {
      AppendOnTop(x, y, left, s);
      DrainOnTop(Append(x, s), Append(y, s), left);
    } else if SeqDiff(s.seqNum, y.next.value) < 0 {
      AppendOnTop(x, y, left, t);
      DrainOnTop(Append(x, t), Append(y, t), left);
    } else {
      DrainOnTop(x.(outOfOrder := held), y.(outOfOrder := held), left);
    }
  }

  lemma {:induction false} AddOnTop(x: State, y: State, left: State, s: Segment, flags: Flags)
    requires OnTop(x, y, left) && x.Valid() && y.Valid() && y.base.Some?
    requires s.data == [] || (!flags.syn && !StartsBeforeBase(y, s))
    ensures OnTop(Add(x, s, flags), Add(y, s, flags), left)
  {
    hide SeqDiff, Wrap, Place;
    if s.data != [] {
      PlaceOnTop(Begin(x, s.seqNum, flags), Begin(y, s.seqNum, flags), left, s);
    }
  }

  lemma {:induction false} SameFinCounts(x: State, y: State, left: State, e: Event)
    requires OnTop(x, y, left)
    ensures FinCounts(x, e.segment, e.flags) <==> FinCounts(y, e.segment, e.flags)
  {
    hide SeqDiff;
  }

  lemma {:induction false} OpensOnTop(left: State, open: Event, origin: u32)
    requires left.Valid() && left.outOfOrder == [] && OpensStream(open, origin)
    ensures var x, y := Add(left, open.segment, open.flags), Add(INITIAL, open.segment, open.flags);
            OnTop(x, y, left) && (x.closed <==> left.closed || y.closed)
  {
    hide Wrap;
    ConcatNothing(left.buffer);
    ConcatNothing(left.segments);
  }

  /** The run behind the SYN, on top of a leftover and from scratch. */
  lemma {:induction false} RunsOnTop(left: State, open: Event, events: seq<Event>, origin: u32, S: bytes)
    requires left.Valid() && left.outOfOrder == []
    requires OpensStream(open, origin) && SynRun(events, origin, S) && |S| < HALF
    ensures var x := Run(Add(left, open.segment, open.flags), events);
            var y := Run(Add(INITIAL, open.segment, open.flags), events);
            OnTop(x, y, left) && (x.closed <==> left.closed || y.closed)
    decreases |events|
  {
    hide Add, SeqDiff, Wrap, Offset, UnbrokenUntil, OnTop;
    if events == [] {
      OpensOnTop(left, open, origin);
    } else {
      var front, e := events[..|events| - 1], events[|events| - 1];
      RunsOnTop(left, open, front, origin, S);
      var x := Run(Add(left, open.segment, open.flags), front);
      var y := Run(Add(INITIAL, open.segment, open.flags), front);
      SynStreamExact(open, front, origin, S);
      if !e.flags.syn && e.segment.data != [] {
        NotEarlyAfterSyn(y, e.segment, origin, S);
      }
      AddOnTop(x, y, left, e.segment, e.flags);
      AddClosesIff(x, e.segment, e.flags);
      AddClosesIff(y, e.segment, e.flags);
      SameFinCounts(x, y, left, e);
    }
  }

  // ---------- a leftover with something held back ----------

  function Piece(seqNum: u32, data: bytes): Segment {
    Segment(seqNum, data, 0.0, 1)
  }

  lemma {:induction false} HoldsPiece(st: State, s: Segment)
    requires st.base.Some? && st.next.Some? && st.outOfOrder == [] && s.data != []
    requires SeqDiff(s.seqNum, st.base.value) >= 0 && SeqDiff(s.seqNum, st.next.value) > 0
    ensures Add(st, s, NO_FLAGS) == st.(outOfOrder := [s])
  {
    hide Wrap, SliceFrom;
    AddPlaces(st, s, NO_FLAGS);
    assert [] + [s] == [s] && [s][..0] == [];
    assert StableSort.Sort([s], RawSeq) == [s];
    assert Pass(st, []) == PassResult(st, [], false);
    assert Pass(st.(outOfOrder := [s]), [s]) == PassResult(st.(outOfOrder := [s]), [s], false);
  }

  lemma {:induction false} OffersWhole(st: State, held: Segment)
    requires st.next == Some(held.seqNum) && held.data != []
    ensures Offer(PassResult(st, [], false), held) == PassResult(Append(st, held), [], true)
  {
    hide SeqDiff, Append, Trim, Wrap;
    NoDistance(held.seqNum);
    TrimNothing(held);
  }

  lemma {:induction false} DrainsOne(st: State, held: Segment)
    requires st.next == Some(held.seqNum) && st.outOfOrder == [held] && held.data != []
    ensures Drain(st).buffer == st.buffer + held.data
  {
    OffersWhole(st, held);
    hide Offer, Wrap;
    assert [held][..0] == [];
    assert Pass(st, []) == PassResult(st, [], false);
    assert Pass(st, [held]) == PassResult(Append(st, held), [], true);
    hide Pass;
    assert Drain(Append(st, held).(outOfOrder := [])) == Append(st, held).(outOfOrder := []);
    assert Drain(st) == Drain(Append(st, held).(outOfOrder := []));
  }

  /** Append, then what was held follows on. */
  lemma {:induction false} DrainsPiece(st: State, s: Segment, held: Segment)
    requires st.base.Some? && st.next == Some(s.seqNum) && st.outOfOrder == [held] && s.data != [] && held.data != []
    requires SeqDiff(s.seqNum, st.base.value) >= 0 && held.seqNum == Wrap(s.seqNum + |s.data|)
    ensures Add(st, s, NO_FLAGS).buffer == st.buffer + s.data + held.data
  {
    hide Wrap, SliceFrom, SeqDiff, Drain, Add, Prepend;
    AddPlaces(st, s, NO_FLAGS);
    DrainsOne(Append(st, s), held);
    assert Begin(st, s.seqNum, NO_FLAGS) == st;
    assert Place(st, s) == Drain(Append(st, s));
  }

  /**
    * Bytes that are still held back behind a gap when the SYN comes are taken for a part of the new stream as soon as
    * its sequence numbers reach them.
    */
  lemma {:induction false} HeldLeftoverLeaks()
    ensures var st := Add(Add(INITIAL, Piece(10, [1]), NO_FLAGS), Piece(12, [9]), NO_FLAGS);
            var begun := Add(st, Piece(9, []), Flags(true, false, false));
            Add(begun, Piece(10, [5, 6]), NO_FLAGS).buffer == [1, 5, 6, 9]
  {
    var first := Add(INITIAL, Piece(10, [1]), NO_FLAGS);
    assert first.base == Some(10) && first.next == Some(11) && first.buffer == [1];
    HoldsPiece(first, Piece(12, [9]));
    var st := Add(first, Piece(12, [9]), NO_FLAGS);
    var begun := Add(st, Piece(9, []), Flags(true, false, false));
    assert begun.base == Some(10) && begun.next == Some(10);
    DrainsPiece(begun, Piece(10, [5, 6]), Piece(12, [9]));
  }
}
