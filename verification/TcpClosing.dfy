/**
  * When one direction of a connection counts as closed, and what it hands over before its first byte has arrived.
  * FIN does not always close: the exact conditions, and inputs on which it is ignored.
  */
module TcpClosing {
  import opened Basics
  import opened SequenceNumbers
  import opened Models
  import opened TcpDirection
  import opened TcpStreams
  import opened TcpRuns
  import StableSort

  // ---------- one segment ----------

  lemma {:induction false} PassKeepsClosed(st: State, held: seq<Segment>)
    requires st.next.Some?
    ensures Pass(st, held).st.closed == st.closed
  {
    hide SeqDiff, Wrap;
    if held != [] {
      PassKeepsClosed(st, held[..|held| - 1]);
    }
  }

  lemma {:induction false} DrainKeepsClosed(st: State)
    requires st.next.Some?
    ensures Drain(st).closed == st.closed
    decreases |st.outOfOrder|
  {
    if st.outOfOrder != [] {
      PassKeepsClosed(st, st.outOfOrder);
      var p := Pass(st, st.outOfOrder);
      if p.progress {
        DrainKeepsClosed(p.st.(outOfOrder := p.kept));
      }
    }
  }

  lemma {:induction false} PlaceKeepsClosed(st: State, s: Segment)
    requires st.Valid() && st.next.Some?
    ensures Place(st, s).closed == st.closed
  {
    hide SeqDiff, Wrap, Drain, SliceFrom, StableSort.Sort;
    var overlap := SeqDiff(st.next.value, s.seqNum);
    DrainKeepsClosed(Append(st, s));
    DrainKeepsClosed(Append(st, s.(seqNum := Wrap(s.seqNum + overlap), data := SliceFrom(s.data, overlap))));
    DrainKeepsClosed(st.(outOfOrder := StableSort.Sort(st.outOfOrder + [s], RawSeq)));
  }

  /** FIN is heeded unless a SYN comes with it, or its data is the first of all or goes wholly in front of the base. */
  predicate FinCounts(st: State, s: Segment, flags: Flags) {
    && flags.fin && !flags.syn
    && (s.data == [] ||
        (st.base.Some? && !(StartsBeforeBase(st, s) && |s.data| <= PrependLength(st, s))))
  }

  lemma {:induction false} RestIsNotEarly(st: State, s: Segment)
    requires StartsBeforeBase(st, s) && PrependLength(st, s) < |s.data|
    ensures !StartsBeforeBase(Prepend(st, s), Trim(s, PrependLength(st, s)))
  {
  }

  /** A segment closes the direction if and only if it carries RST, or a FIN that counts. */
  lemma {:induction false} AddClosesIff(st: State, s: Segment, flags: Flags)
    requires st.Valid()
    ensures Add(st, s, flags).closed <==> st.closed || flags.rst || FinCounts(st, s, flags)
    decreases |s.data|
  {
    SynIsOneBehind(s.seqNum);
    hide SeqDiff, Wrap, Place;
    var begun := Begin(st, s.seqNum, flags);
    if begun.base.Some? && s.data != [] {
      if StartsBeforeBase(begun, s) {
        var k := PrependLength(begun, s);
        if k < |s.data| {
          RestIsNotEarly(begun, s);
          AddClosesIff(Prepend(begun, s), Trim(s, k), flags);
        }
      } else {
        PlaceKeepsClosed(begun, s);
      }
    }
  }

  /** A FIN on a SYN, on the first data of a connection joined midway, and on data wholly before the base is lost. */
  lemma {:induction false} FinIsIgnored(s: Segment, early: Segment)
    requires s.data != [] && s.seqNum == 1000 && early.data != [] && early.seqNum == 1000 - |early.data| >= 0
    ensures !Add(INITIAL, s.(data := []), Flags(true, true, false)).closed
    ensures !Add(INITIAL, s, Flags(false, true, false)).closed
    ensures !Add(Add(INITIAL, s, NO_FLAGS), early, Flags(false, true, false)).closed
    ensures Add(Add(INITIAL, s, NO_FLAGS), s, Flags(false, true, false)).closed
  {
    var st, fin := Add(INITIAL, s, NO_FLAGS), Flags(false, true, false);
    assert SeqDiff(early.seqNum, 1000) == -|early.data| && SeqDiff(1000, early.seqNum) == |early.data|;
    assert SeqDiff(1000, 1000) == 0;
    AddClosesIff(st, early, fin);
    AddClosesIff(st, s, fin);
    AddClosesIff(INITIAL, s, fin);
  }

  // ---------- whole runs ----------

  /** A flag that closes a direction seen from its SYN. */
  predicate Closes(flags: Flags) {
    flags.rst || (flags.fin && !flags.syn)
  }

  lemma {:induction false} NotEarlyAfterSyn(st: State, s: Segment, origin: u32, S: bytes)
    requires st.base == Some(origin) && SliceOf(s, origin, S) && |S| < HALF
    ensures !StartsBeforeBase(st, s)
  {
    assert Wrap(origin) == origin;
    DiffIsDistance(s, origin, S, 0);
  }

  /** A direction seen from its SYN is closed if and only if an RST, or a FIN apart from a SYN, has arrived. */
  lemma {:induction false} SynRunClosesIff(open: Event, events: seq<Event>, origin: u32, S: bytes)
    requires OpensStream(open, origin) && SynRun(events, origin, S) && |S| < HALF
    ensures Run(Add(INITIAL, open.segment, open.flags), events).closed <==>
            open.flags.rst || exists i :: 0 <= i < |events| && Closes(events[i].flags)
    decreases |events|
  {
    var st := Add(INITIAL, open.segment, open.flags);
    AddClosesIff(INITIAL, open.segment, open.flags);
    hide Add, SeqDiff, Wrap, Offset, UnbrokenUntil;
    if events != [] {
      var front, e := events[..|events| - 1], events[|events| - 1];
      SynRunClosesIff(open, front, origin, S);
      SynStreamExact(open, front, origin, S);
      AddClosesIff(Run(st, front), e.segment, e.flags);
      if !e.flags.syn && e.segment.data != [] {
        NotEarlyAfterSyn(Run(st, front), e.segment, origin, S);
      }
      assert forall i :: 0 <= i < |front| ==> front[i] == events[i];
    }
  }

  /** What closes a direction joined midway, once `before` has arrived. */
  predicate ClosesMidway(before: seq<Event>, e: Event, origin: u32) {
    || e.flags.rst
    || (e.flags.fin &&
        (e.segment.data == [] ||
         (Payloads(before) != [] && Lowest(Payloads(before), origin) < End(e.segment, origin))))
  }

  lemma {:induction false} FinCountsMidway(st: State, s: Segment, flags: Flags, origin: u32, S: bytes, lo: nat)
    requires st.base == Some(Wrap(origin + lo)) && lo <= |S| < HALF
    requires s.data != [] && SliceOf(s, origin, S) && !flags.syn
    ensures FinCounts(st, s, flags) <==> flags.fin && lo < End(s, origin)
  {
    DiffIsDistance(s, origin, S, lo);
  }

  /** Joined midway, data that reaches past the lowest byte received closes; the first and earlier data do not. */
  lemma {:induction false} MidRunClosesIff(events: seq<Event>, origin: u32, S: bytes)
    requires MidRun(events, origin, S) && |S| < HALF
    ensures Run(INITIAL, events).closed <==>
            exists i :: 0 <= i < |events| && ClosesMidway(events[..i], events[i], origin)
  {
    hide Add, SeqDiff, Wrap, Offset, UnbrokenUntil, Invariant;
    if events != [] {
      var n := |events| - 1;
      var front, e := events[..n], events[n];
      var st, h := Run(INITIAL, front), Payloads(front);
      MidRunClosesIff(front, origin, S);
      AddClosesIff(st, e.segment, e.flags);
      MidRunInvariant(front, origin, S);
      if e.segment.data != [] && h != [] {
        MidStreamExact(front, origin, S);
        FinCountsMidway(st, e.segment, e.flags, origin, S, Lowest(h, origin));
      }
      assert FinCounts(st, e.segment, e.flags) || e.flags.rst <==> ClosesMidway(front, e, origin);
      forall i | 0 <= i < n ensures front[i] == events[i] && front[..i] == events[..i] {
      }
    }
  }
}
