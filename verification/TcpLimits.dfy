/**
  * What holds of the reassembler on every input, and the exact conditions under which the guards of the
  * whole-run theorems are needed: a SYN with payload, a SYN after data, a gap before the base, and a
  * stream of 2^31 bytes.
  */
module TcpLimits {
  import opened Basics
  import opened SequenceNumbers
  import opened Models
  import opened TcpDirection
  import opened TcpStreams
  import opened TcpRuns
  import StableSort

  // ---------- the segment ledger, on every input ----------

  /** The buffer is the concatenation of the recorded pieces. */
  predicate Ledger(st: State) {
    st.buffer == JoinData(st.segments)
  }

  lemma {:induction false} JoinAppend(ss: seq<Segment>, s: Segment)
    ensures JoinData(ss + [s]) == JoinData(ss) + s.data
  {
    assert (ss + [s])[..|ss|] == ss;
  }

  lemma {:induction false} JoinPrepend(s: Segment, ss: seq<Segment>)
    ensures JoinData([s] + ss) == s.data + JoinData(ss)
  {
    if ss == [] {
      assert [s] + ss == [] + [s];
      JoinAppend([], s);
    } else {
      var front, last := ss[..|ss| - 1], ss[|ss| - 1];
      assert [s] + ss == ([s] + front) + [last];
      JoinPrepend(s, front);
      JoinAppend([s] + front, last);
    }
  }

  lemma {:induction false} PassLedger(st: State, held: seq<Segment>)
    requires st.next.Some? && Ledger(st)
    ensures Ledger(Pass(st, held).st)
  {
    hide Wrap, SeqDiff;
    if held != [] {
      PassLedger(st, held[..|held| - 1]);
      var p, s := Pass(st, held[..|held| - 1]), held[|held| - 1];
      var diff := SeqDiff(s.seqNum, p.st.next.value);
      if diff <= 0 && -diff < |s.data| {
        JoinAppend(p.st.segments, Trim(s, -diff));
      }
    }
  }

  lemma {:induction false} DrainLedger(st: State)
    requires st.next.Some? && Ledger(st)
    ensures Ledger(Drain(st))
    decreases |st.outOfOrder|
  {
    if st.outOfOrder != [] {
      PassLedger(st, st.outOfOrder);
      var p := Pass(st, st.outOfOrder);
      if p.progress {
        DrainLedger(p.st.(outOfOrder := p.kept));
      }
    }
  }

  lemma {:induction false} PlaceLedger(st: State, s: Segment)
    requires st.Valid() && st.next.Some? && Ledger(st)
    ensures Ledger(Place(st, s))
  {
    hide Wrap, SeqDiff, Drain, JoinData, StableSort.Sort, SliceFrom;
    var overlap := SeqDiff(st.next.value, s.seqNum);
    var t := s.(seqNum := Wrap(s.seqNum + overlap), data := SliceFrom(s.data, overlap));
    JoinAppend(st.segments, s);
    JoinAppend(st.segments, t);
    DrainLedger(Append(st, s));
    DrainLedger(Append(st, t));
    DrainLedger(st.(outOfOrder := StableSort.Sort(st.outOfOrder + [s], RawSeq)));
  }

  lemma {:induction false} AddLedger(st: State, s: Segment, flags: Flags)
    requires st.Valid() && Ledger(st)
    ensures Ledger(Add(st, s, flags))
    decreases |s.data|
  {
    hide Wrap, SeqDiff, Place, JoinData;
    var begun := Begin(st, s.seqNum, flags);
    JoinAppend(st.segments, s);
    if begun.base.Some? && s.data != [] {
      if StartsBeforeBase(begun, s) {
        var k := PrependLength(begun, s);
        JoinPrepend(s.(data := s.data[..k]), begun.segments);
        if k < |s.data| {
          AddLedger(Prepend(begun, s), Trim(s, k), flags);
        }
      } else {
        PlaceLedger(begun, s);
      }
    }
  }

  /** In every reachable state, for any segments and flags, the recorded pieces spell out the buffer. */
  lemma {:induction false} RunLedger(events: seq<Event>)
    ensures Ledger(Run(INITIAL, events))
  {
    if events != [] {
      var e := events[|events| - 1];
      RunLedger(events[..|events| - 1]);
      AddLedger(Run(INITIAL, events[..|events| - 1]), e.segment, e.flags);
    }
  }

  // ---------- a SYN that carries payload ----------

  lemma {:induction false} SynPrependsOneByte(st: State, s: Segment, flags: Flags) returns (p: State)
    requires st.Valid() && flags.syn && s.data != []
    ensures p.Valid() && p.buffer == [s.data[0]] + st.buffer
    ensures p.outOfOrder == st.outOfOrder && p.next == Some(Wrap(s.seqNum + 1))
    ensures Add(st, s, flags) == if |s.data| > 1 then Add(p, Trim(s, 1), flags) else p
  {
    SynIsOneBehind(s.seqNum);
    hide Wrap, SeqDiff, Place;
    var begun := Begin(st, s.seqNum, flags);
    assert StartsBeforeBase(begun, s) && PrependLength(begun, s) == 1;
    p := Prepend(begun, s);
    assert s.data[..1] == [s.data[0]];
  }

  /**
    * Every recursive call sees the SYN flag again and moves the base one past the next byte, so the payload
    * goes in front of the buffer one byte at a time, last byte first.
    */
  lemma {:induction false} SynPayloadIsReversed(st: State, s: Segment, flags: Flags)
    requires st.Valid() && flags.syn && s.data != []
    ensures var r := Add(st, s, flags);
            && r.buffer == Reverse(s.data) + st.buffer
            && r.outOfOrder == st.outOfOrder
            && r.next == Some(Wrap(s.seqNum + |s.data|))
    decreases |s.data|
  {
    WrapAdd(s.seqNum + 1, |s.data| - 1);
    hide Wrap, SeqDiff, Add;
    var p := SynPrependsOneByte(st, s, flags);
    if |s.data| > 1 {
      SynPayloadIsReversed(p, Trim(s, 1), flags);
      assert Reverse(s.data) == Reverse(s.data[1..]) + [s.data[0]];
    } else {
      assert s.data[1..] == [];
    }
  }

  /** A payload on the SYN of a fresh connection survives exactly when it reads the same backwards. */
  lemma {:induction false} SynPayloadKeptIff(s: Segment, flags: Flags)
    requires flags.syn && s.data != []
    ensures Add(INITIAL, s, flags).buffer == s.data <==> Reverse(s.data) == s.data
  {
    SynPayloadIsReversed(INITIAL, s, flags);
  }

  // ---------- a SYN after data ----------

  /**
    * Repeating the SYN of a connection keeps the buffer in step with the sequence numbers exactly when
    * nothing has been delivered yet.
    */
  lemma {:induction false} RepeatedSynSafeIff(st: State, e: Event, origin: u32, S: bytes, h: seq<Segment>)
    requires st.Valid() && Invariant(st, origin, S, 0, h) && OpensStream(e, origin)
    ensures Invariant(Add(st, e.segment, e.flags), origin, S, 0, h) <==> st.buffer == []
  {
    var r := Add(st, e.segment, e.flags);
    OffsetOfWrap(origin, |st.buffer|);
    OffsetOfWrap(origin, 0);
    if st.buffer == [] {
      SynSetsWindow(st, e, origin, S, h);
    }
  }

  /** After such a repeat, a retransmission of the start of the stream is appended a second time. */
  lemma {:induction false} RepeatedSynDuplicatesData(st: State, e: Event, s: Segment, flags: Flags, origin: u32,
      S: bytes, h: seq<Segment>)
    requires st.Valid() && Invariant(st, origin, S, 0, h) && OpensStream(e, origin)
    requires st.outOfOrder == [] && !flags.syn && s.data != [] && s.seqNum == origin
    ensures Add(Add(st, e.segment, e.flags), s, flags).buffer == st.buffer + s.data
  {
    var again := Add(st, e.segment, e.flags);
    AddPlaces(again, s, flags);
    hide Wrap, SeqDiff;
  }

  // ---------- a segment before the base with a gap ----------

  /**
    * A segment that starts before the base keeps the buffer an interval of the stream exactly when it
    * reaches the base; otherwise it is spliced on without its gap.
    */
  lemma {:induction false} EarlySegmentSafeIff(st: State, s: Segment, flags: Flags, origin: u32, S: bytes, lo: nat,
      h: seq<Segment>)
    requires st.Valid() && Invariant(st, origin, S, lo, h) && !flags.syn
    requires s.data != [] && SliceOf(s, origin, S) && Start(s, origin) < lo
    ensures Window(Add(st, s, flags), origin, S, Start(s, origin)) <==> lo <= End(s, origin)
    ensures End(s, origin) < lo ==> Add(st, s, flags).buffer == s.data + st.buffer
  {
    DiffIsDistance(s, origin, S, lo);
    AddPrepends(st, s, flags);
    var hi := lo + |st.buffer|;
    OffsetOfWrap(origin, hi);
    OffsetOfWrap(origin, hi - lo + End(s, origin));
    if lo <= End(s, origin) {
      AddKeepsInvariant(st, s, flags, origin, S, lo, h);
    } else {
      hide Wrap, SeqDiff, Offset;
      assert s.data[..|s.data|] == s.data;
    }
  }

  // ---------- the bound on the length of the stream ----------

  lemma {:induction false} HalfwayIsAhead(origin: u32)
    ensures var x := Wrap(origin + HALF);
            SeqDiff(origin, x) == -HALF && SeqDiff(x, origin) == -HALF && x != origin
  {
  }

  lemma {:induction false} FromHalfBack(data: bytes)
    requires |data| <= HALF
    ensures SliceFrom(data, -HALF) == data
  {
  }

  /** A segment from half the number space back is taken to overlap by less than nothing, and appended whole. */
  lemma {:induction false} HalfwayIsPlaced(st: State, s: Segment)
    requires st.Valid() && st.next == Some(Wrap(s.seqNum + HALF)) && st.outOfOrder == []
    requires s.data != [] && |s.data| <= HALF
    ensures Place(st, s).base == st.base && Place(st, s).outOfOrder == []
    ensures Place(st, s).buffer == st.buffer + s.data && Place(st, s).next == Some(Wrap(st.next.value + |s.data|))
  {
    hide Wrap, SeqDiff, SliceFrom, StableSort.Sort, Pass;
    HalfwayIsAhead(s.seqNum);
    FromHalfBack(s.data);
  }

  /**
    * At 2^31 bytes the comparison breaks down: once the window is that long, a retransmission from its start is
    * measured as lying 2^31 ahead of itself, and all of it is appended.
    */
  lemma {:induction false} LengthBoundIsTight(st: State, again: Segment, flags: Flags, S: bytes)
    requires !flags.syn && again.data != [] && again.data <= S && |S| == HALF
    requires st.base == Some(again.seqNum) && st.next == Some(Wrap(again.seqNum + HALF))
    requires st.buffer == S && st.outOfOrder == []
    ensures Add(st, again, flags).buffer == S + again.data
  {
    hide Wrap, SeqDiff, SliceFrom, Add, Place;
    AddPlaces(st, again, flags);
    HalfwayIsPlaced(Begin(st, again.seqNum, flags), again);
  }

  /** The state of the previous lemma is reached: the whole stream in one segment after its SYN. */
  lemma {:induction false} LongStreamArrives(open: Event, whole: Segment, flags: Flags)
    requires OpensStream(open, whole.seqNum) && !flags.syn && |whole.data| == HALF
    ensures var st := Add(Add(INITIAL, open.segment, open.flags), whole, flags);
            && st.base == Some(whole.seqNum) && st.next == Some(Wrap(whole.seqNum + HALF))
            && st.buffer == whole.data && st.outOfOrder == []
  {
    var st := Add(INITIAL, open.segment, open.flags);
    assert SeqDiff(whole.seqNum, whole.seqNum) == 0;
    AddPlaces(st, whole, flags);
    hide Wrap, SeqDiff, Add;
    assert [] + whole.data == whole.data;
  }

  // ---------- the bound over whole runs ----------

  /** Between copies of a segment of 2^31 bytes the window seems to end at its start or half the number space on. */
  predicate AroundCopy(st: State, s: Segment) {
    && st.base == Some(s.seqNum) && st.outOfOrder == []
    && (st.next == Some(s.seqNum) || st.next == Some(Wrap(s.seqNum + HALF)))
  }

  lemma {:induction false} CopyMovesHalfway(seqNum: u32)
    ensures Wrap(Wrap(seqNum + HALF) + HALF) == seqNum
  {
  }

  lemma {:induction false} CopyIsPlaced(st: State, s: Segment)
    requires AroundCopy(st, s) && |s.data| == HALF
    ensures Place(st, s).base == st.base && Place(st, s).outOfOrder == []
    ensures Place(st, s).buffer == st.buffer + s.data && Place(st, s).next == Some(Wrap(st.next.value + HALF))
  {
    if st.next == Some(s.seqNum) {
      hide Wrap, SeqDiff, SliceFrom, StableSort.Sort, Pass;
    } else {
      hide Wrap, SeqDiff, SliceFrom, Place;
      HalfwayIsPlaced(st, s);
    }
  }

  lemma {:induction false} CopyIsAppended(st: State, s: Segment)
    requires AroundCopy(st, s) && |s.data| == HALF
    ensures AroundCopy(Add(st, s, NO_FLAGS), s) && Add(st, s, NO_FLAGS).buffer == st.buffer + s.data
  {
    hide Wrap, SeqDiff, SliceFrom, Add, Place;
    CopyMovesHalfway(s.seqNum);
    AddPlaces(st, s, NO_FLAGS);
    CopyIsPlaced(st, s);
  }

  function Copies(e: Event, n: nat): (r: seq<Event>)
    ensures |r| == n && forall i :: 0 <= i < n ==> r[i] == e
  {
    seq(n, _ => e)
  }

  lemma {:induction false} CopiesPileUp(open: Event, s: Segment, S: bytes, n: nat)
    requires OpensStream(open, s.seqNum) && |s.data| == HALF <= |S| && s.data == S[..HALF]
    ensures SynRun(Copies(Event(s, NO_FLAGS), n), s.seqNum, S)
    ensures var st := Run(Add(INITIAL, open.segment, open.flags), Copies(Event(s, NO_FLAGS), n));
            AroundCopy(st, s) && |st.buffer| == n * HALF
  {
    assert SliceOf(s, s.seqNum, S);
    hide Wrap, SeqDiff, Offset, SliceOf;
    var e := Event(s, NO_FLAGS);
    if n > 0 {
      CopiesPileUp(open, s, S, n - 1);
      assert Copies(e, n)[..n - 1] == Copies(e, n - 1);
      hide Add;
      CopyIsAppended(Run(Add(INITIAL, open.segment, open.flags), Copies(e, n - 1)), s);
    }
  }

  /** Every run of slices of `S` behind its SYN leaves a prefix of `S` if and only if `S` is shorter than 2^31 bytes. */
  lemma {:induction false} LengthBoundIff(origin: u32, S: bytes)
    ensures |S| < HALF <==>
            forall open, events :: OpensStream(open, origin) && SynRun(events, origin, S) ==>
                                     Run(Add(INITIAL, open.segment, open.flags), events).buffer <= S
  {
    hide Add, Run, SynRun, Payloads, UnbrokenUntil;
    if |S| < HALF {
      forall open, events | OpensStream(open, origin) && SynRun(events, origin, S)
        ensures Run(Add(INITIAL, open.segment, open.flags), events).buffer <= S
      {
        SynStreamExact(open, events, origin, S);
      }
    } else {
      var open := Event(Segment(Wrap(origin - 1), [], 0.0, 0), Flags(true, false, false));
      assert OpensStream(open, origin);
      var s, n := Segment(origin, S[..HALF], 0.0, 1), |S| / HALF + 1;
      CopiesPileUp(open, s, S, n);
      assert n * HALF > |S|;
    }
  }
}
