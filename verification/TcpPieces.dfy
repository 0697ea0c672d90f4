/**
  * The recorded pieces, one by one: each is a part of one received segment, with that segment's time stamp and frame,
  * and its sequence number is where its data stand in the stream.
  */
module TcpPieces {
  import opened Basics
  import opened SequenceNumbers
  import opened Models
  import opened TcpDirection
  import opened TcpStreams
  import opened TcpRuns
  import opened TcpLimits
  import StableSort

  // ---------- pieces are parts of received segments, on every input ----------

  /** `p` is what `s` carries from its `k`-th byte on, up to some later byte. */
  predicate CutAt(p: Segment, s: Segment, k: nat) {
    && k + |p.data| <= |s.data| && p.data == s.data[k..k + |p.data|]
    && p.timestamp == s.timestamp && p.frame == s.frame
  }

  ghost predicate IsCut(p: Segment, s: Segment) {
    exists k: nat :: CutAt(p, s, k)
  }

  ghost predicate CutOfSome(p: Segment, h: seq<Segment>) {
    exists s :: s in h && IsCut(p, s)
  }

  /** Everything placed or held is part of a segment of `h`. */
  ghost predicate AllCuts(st: State, h: seq<Segment>) {
    && (forall p :: p in st.segments ==> CutOfSome(p, h))
    && (forall p :: p in st.outOfOrder ==> CutOfSome(p, h))
  }

  lemma {:induction false} WholeIsCut(s: Segment, h: seq<Segment>)
    requires s in h
    ensures CutOfSome(s, h)
  {
    assert CutAt(s, s, 0);
  }

  lemma {:induction false} CutOfCut(q: Segment, p: Segment, k: nat, h: seq<Segment>)
    requires CutAt(q, p, k) && CutOfSome(p, h)
    ensures CutOfSome(q, h)
  {
    var s :| s in h && IsCut(p, s);
    var j: nat :| CutAt(p, s, j);
    assert CutAt(q, s, j + k);
  }

  lemma {:induction false} TrimIsCut(p: Segment, k: nat)
    requires k <= |p.data|
    ensures CutAt(Trim(p, k), p, k)
  {
  }

  lemma {:induction false} HeadIsCut(s: Segment, k: nat)
    requires k <= |s.data|
    ensures CutAt(s.(data := s.data[..k]), s, 0)
  {
  }

  lemma {:induction false} PassCuts(st: State, held: seq<Segment>, h: seq<Segment>)
    requires st.next.Some? && forall p :: p in st.segments || p in held ==> CutOfSome(p, h)
    ensures var r := Pass(st, held);
            forall p :: p in r.st.segments || p in r.kept ==> CutOfSome(p, h)
  {
    hide Wrap, SeqDiff, CutOfSome, CutAt;
    if held != [] {
      var front, s := held[..|held| - 1], held[|held| - 1];
      PassCuts(st, front, h);
      var before := Pass(st, front);
      var diff := SeqDiff(s.seqNum, before.st.next.value);
      if diff <= 0 && -diff < |s.data| {
        TrimIsCut(s, -diff);
        CutOfCut(Trim(s, -diff), s, -diff, h);
      }
    }
  }

  lemma {:induction false} DrainCuts(st: State, h: seq<Segment>)
    requires st.next.Some? && AllCuts(st, h)
    ensures AllCuts(Drain(st), h)
    decreases |st.outOfOrder|
  {
    hide CutOfSome, Pass;
    if st.outOfOrder != [] {
      PassCuts(st, st.outOfOrder, h);
      var p := Pass(st, st.outOfOrder);
      if p.progress {
        DrainCuts(p.st.(outOfOrder := p.kept), h);
      }
    }
  }

  lemma {:induction false} PlaceCuts(st: State, s: Segment, h: seq<Segment>)
    requires st.Valid() && st.next.Some? && AllCuts(st, h) && CutOfSome(s, h)
    ensures AllCuts(Place(st, s), h)
  {
    hide Wrap, SeqDiff, Drain, CutOfSome, StableSort.Sort;
    var overlap := SeqDiff(st.next.value, s.seqNum);
    if s.seqNum == st.next.value {
      DrainCuts(Append(st, s), h);
    } else if SeqDiff(s.seqNum, st.next.value) >= 0 {
      StableSort.SortMembers(st.outOfOrder + [s], RawSeq);
      DrainCuts(st.(outOfOrder := StableSort.Sort(st.outOfOrder + [s], RawSeq)), h);
    } else if overlap < |s.data| {
      var t := s.(seqNum := Wrap(s.seqNum + overlap), data := SliceFrom(s.data, overlap));
      assert CutAt(t, s, Clip(overlap, |s.data|));
      CutOfCut(t, s, Clip(overlap, |s.data|), h);
      DrainCuts(Append(st, t), h);
    }
  }

  lemma {:induction false} AddCuts(st: State, s: Segment, flags: Flags, h: seq<Segment>)
    requires st.Valid() && AllCuts(st, h) && (s.data != [] ==> CutOfSome(s, h))
    ensures AllCuts(Add(st, s, flags), h)
    decreases |s.data|
  {
    hide Wrap, SeqDiff, Place, CutOfSome, CutAt;
    var begun := Begin(st, s.seqNum, flags);
    if begun.base.Some? && s.data != [] {
      if StartsBeforeBase(begun, s) {
        var k := PrependLength(begun, s);
        var head := s.(data := s.data[..k]);
        HeadIsCut(s, k);
        CutOfCut(head, s, 0, h);
        if k < |s.data| {
          TrimIsCut(s, k);
          CutOfCut(Trim(s, k), s, k, h);
          AddCuts(Prepend(begun, s), Trim(s, k), flags, h);
        }
      } else {
        PlaceCuts(begun, s, h);
      }
    }
  }

  lemma {:induction false} MoreToCutFrom(st: State, h: seq<Segment>, more: seq<Segment>)
    requires AllCuts(st, h)
    ensures AllCuts(st, h + more)
  {
    forall p | CutOfSome(p, h) ensures CutOfSome(p, h + more) {
      var s :| s in h && IsCut(p, s);
      assert s in h + more;
    }
  }

  /** In every run, of any segments and flags, each piece is part of one received segment, with its time and frame. */
  lemma {:induction false} PiecesAreCuts(events: seq<Event>)
    ensures AllCuts(Run(INITIAL, events), Payloads(events))
  {
    hide CutOfSome, Add;
    if events != [] {
      var front, e := events[..|events| - 1], events[|events| - 1];
      PiecesAreCuts(front);
      MoreToCutFrom(Run(INITIAL, front), Payloads(front), [e.segment]);
      if e.segment.data != [] {
        WholeIsCut(e.segment, Payloads(events));
      }
      AddCuts(Run(INITIAL, front), e.segment, e.flags, Payloads(events));
    }
  }

  // ---------- the numbers of the pieces ----------

  /** Each piece is numbered by where its data begin, counting from `base`. */
  ghost predicate Numbered(ss: seq<Segment>, base: u32) {
    forall i :: 0 <= i < |ss| ==> ss[i].seqNum == Wrap(base + |JoinData(ss[..i])|)
  }

  ghost predicate InPlace(st: State) {
    && st.buffer == JoinData(st.segments)
    && (st.base.None? ==> st.segments == [] && st.next.None?)
    && (st.base.Some? ==> Numbered(st.segments, st.base.value) && st.next == Some(Wrap(st.base.value + |st.buffer|)))
  }

  lemma {:induction false} AppendNumbered(ss: seq<Segment>, s: Segment, base: u32)
    requires Numbered(ss, base) && s.seqNum == Wrap(base + |JoinData(ss)|)
    ensures Numbered(ss + [s], base)
  {
    hide Wrap, JoinData;
    forall i | 0 <= i <= |ss| ensures (ss + [s])[i].seqNum == Wrap(base + |JoinData((ss + [s])[..i])|) {
      assert (ss + [s])[..i] == ss[..i] && ss[..|ss|] == ss;
    }
  }

  lemma {:induction false} PrependNumbered(head: Segment, ss: seq<Segment>)
    requires Numbered(ss, Wrap(head.seqNum + |head.data|))
    ensures Numbered([head] + ss, head.seqNum)
  {
    assert Wrap(head.seqNum) == head.seqNum && JoinData([]) == [] && ([head] + ss)[..0] == [];
    hide Wrap, JoinData;
    forall i | 0 <= i <= |ss|
      ensures ([head] + ss)[i].seqNum == Wrap(head.seqNum + |JoinData(([head] + ss)[..i])|)
    {
      if i > 0 {
        assert ([head] + ss)[..i] == [head] + ss[..i - 1] && ss[i - 1].seqNum == ([head] + ss)[i].seqNum;
        JoinPrepend(head, ss[..i - 1]);
        WrapAdd(head.seqNum + |head.data|, |JoinData(ss[..i - 1])|);
      }
    }
  }

  lemma {:induction false} AppendInPlace(st: State, s: Segment)
    requires st.base.Some? && InPlace(st) && st.next == Some(s.seqNum)
    ensures InPlace(Append(st, s))
  {
    hide Wrap, JoinData, Numbered;
    AppendNumbered(st.segments, s, st.base.value);
    JoinAppend(st.segments, s);
    WrapAdd(st.base.value + |st.buffer|, |s.data|);
  }

  /** What is trimmed to the number expected begins there. */
  lemma {:induction false} TrimReaches(seqNum: u32, expected: u32)
    ensures Wrap(seqNum - SeqDiff(seqNum, expected)) == expected
    ensures Wrap(seqNum + SeqDiff(expected, seqNum)) == expected
  {
  }

  lemma {:induction false} PassInPlace(st: State, held: seq<Segment>)
    requires st.base.Some? && st.next.Some? && InPlace(st)
    ensures InPlace(Pass(st, held).st)
  {
    hide Wrap, SeqDiff, JoinData, InPlace;
    if held != [] {
      var front, s := held[..|held| - 1], held[|held| - 1];
      PassInPlace(st, front);
      var before := Pass(st, front).st;
      TrimReaches(s.seqNum, before.next.value);
      var diff := SeqDiff(s.seqNum, before.next.value);
      if diff <= 0 && -diff < |s.data| {
        AppendInPlace(before, Trim(s, -diff));
      }
    }
  }

  lemma {:induction false} DrainInPlace(st: State)
    requires st.base.Some? && st.next.Some? && InPlace(st)
    ensures InPlace(Drain(st))
    decreases |st.outOfOrder|
  {
    hide Pass, Numbered, Wrap, JoinData;
    if st.outOfOrder != [] {
      PassInPlace(st, st.outOfOrder);
      var p := Pass(st, st.outOfOrder);
      if p.progress {
        DrainInPlace(p.st.(outOfOrder := p.kept));
      }
    }
  }

  lemma {:induction false} PlaceInPlace(st: State, s: Segment)
    requires st.Valid() && st.next.Some? && InPlace(st)
    ensures InPlace(Place(st, s))
  {
    hide Wrap, SeqDiff, Drain, Numbered, JoinData, StableSort.Sort;
    TrimReaches(s.seqNum, st.next.value);
    var overlap := SeqDiff(st.next.value, s.seqNum);
    if s.seqNum == st.next.value {
      AppendInPlace(st, s);
      DrainInPlace(Append(st, s));
    } else if SeqDiff(s.seqNum, st.next.value) >= 0 {
      DrainInPlace(st.(outOfOrder := StableSort.Sort(st.outOfOrder + [s], RawSeq)));
    } else if overlap < |s.data| {
      var t := s.(seqNum := Wrap(s.seqNum + overlap), data := SliceFrom(s.data, overlap));
      AppendInPlace(st, t);
      DrainInPlace(Append(st, t));
    }
  }

  lemma {:induction false} WrapIsItself(x: u32)
    ensures Wrap(x) == x
  {
  }

  lemma {:induction false} BaseIsReached(seqNum: u32, base: u32, n: nat)
    requires SeqDiff(base, seqNum) > 0
    ensures var k := SeqDiff(base, seqNum);
            && Wrap(seqNum) == seqNum && Wrap(seqNum + k) == base && SeqDiff(Wrap(seqNum + k), seqNum) == k
            && Wrap(base + n) == Wrap(seqNum + k + n)
  {
    hide Wrap, SeqDiff;
    TrimReaches(seqNum, base);
    WrapAdd(seqNum + SeqDiff(base, seqNum), n);
    WrapIsItself(seqNum);
  }

  lemma {:induction false} PrependInPlace(st: State, s: Segment)
    requires StartsBeforeBase(st, s) && InPlace(st) && SeqDiff(st.base.value, s.seqNum) <= |s.data|
    ensures InPlace(Prepend(st, s))
  {
    hide Wrap, SeqDiff, Numbered, JoinData;
    var head := s.(data := s.data[..PrependLength(st, s)]);
    BaseIsReached(s.seqNum, st.base.value, |st.buffer|);
    PrependNumbered(head, st.segments);
    JoinPrepend(head, st.segments);
  }

  lemma {:induction false} RestIsNotBefore(st: State, s: Segment)
    requires StartsBeforeBase(st, s) && SeqDiff(st.base.value, s.seqNum) <= |s.data|
    ensures !StartsBeforeBase(Prepend(st, s), Trim(s, PrependLength(st, s)))
  {
    hide Wrap, SeqDiff;
    BaseIsReached(s.seqNum, st.base.value, 0);
  }

  lemma {:induction false} InPlaceIgnoresClosed(a: State, b: State)
    requires SameButClosed(a, b) && InPlace(b)
    ensures InPlace(a)
  {
    hide Numbered, JoinData;
  }

  lemma {:induction false} FirstIsPlaced(st: State, s: Segment, flags: Flags)
    requires st.Valid() && st.base.None? && !flags.syn && s.data != []
    ensures var r := Add(st, s, flags);
            && r.base == Some(s.seqNum) && r.next == Some(Wrap(s.seqNum + |s.data|))
            && r.buffer == st.buffer + s.data && r.segments == st.segments + [s]
  {
  }

  lemma {:induction false} FirstInPlace(st: State, s: Segment, flags: Flags)
    requires st.Valid() && InPlace(st) && st.base.None? && !flags.syn && s.data != []
    ensures InPlace(Add(st, s, flags))
  {
    assert Wrap(s.seqNum) == s.seqNum && JoinData([]) == [] && Numbered([], s.seqNum);
    FirstIsPlaced(st, s, flags);
    hide Wrap, Add, Numbered, JoinData;
    AppendNumbered([], s, s.seqNum);
    JoinAppend([], s);
  }

  /** One segment without a SYN keeps the pieces in place, provided that it reaches the base if it starts before. */
  lemma {:induction false} AddInPlace(st: State, s: Segment, flags: Flags)
    requires st.Valid() && InPlace(st) && !flags.syn
    requires StartsBeforeBase(st, s) ==> SeqDiff(st.base.value, s.seqNum) <= |s.data|
    ensures InPlace(Add(st, s, flags))
  {
    hide Wrap, SeqDiff, Place, Numbered, JoinData;
    var begun := Begin(st, s.seqNum, flags);
    if s.data == [] {
      EmptySegment(st, s, flags);
      InPlaceIgnoresClosed(Add(st, s, flags), st);
    } else if st.base.None? {
      FirstInPlace(st, s, flags);
    } else {
      InPlaceIgnoresClosed(begun, st);
      if StartsBeforeBase(st, s) {
        var k := PrependLength(st, s);
        AddPrepends(st, s, flags);
        PrependInPlace(begun, s);
        RestIsNotBefore(begun, s);
        if k < |s.data| {
          var st', t := Prepend(begun, s), Trim(s, k);
          AddPlaces(st', t, flags);
          var begun' := Begin(st', t.seqNum, flags);
          InPlaceIgnoresClosed(begun', st');
          PlaceInPlace(begun', t);
          InPlaceIgnoresClosed(Add(st', t, flags), Place(begun', t));
        }
      } else {
        AddPlaces(st, s, flags);
        PlaceInPlace(begun, s);
        InPlaceIgnoresClosed(Add(st, s, flags), Place(begun, s));
      }
    }
  }

  lemma {:induction false} ReachesBase(st: State, s: Segment, origin: u32, S: bytes, lo: nat, h: seq<Segment>)
    requires Invariant(st, origin, S, lo, h) && SliceOf(s, origin, S) && lo <= End(s, origin)
    ensures StartsBeforeBase(st, s) ==> SeqDiff(st.base.value, s.seqNum) <= |s.data|
  {
    hide Wrap, SeqDiff, Offset;
    DiffIsDistance(s, origin, S, lo);
  }

  lemma {:induction false} SynAgain(st: State, e: Event, origin: u32)
    requires st.Valid() && InPlace(st) && st.base == Some(origin) && st.buffer == [] && OpensStream(e, origin)
    ensures InPlace(Add(st, e.segment, e.flags))
  {
    hide Numbered, JoinData;
    assert Wrap(origin) == origin;
  }

  /** Seen from its SYN, every piece is numbered by its place in the stream. */
  lemma {:induction false} SynPiecesNumbered(open: Event, events: seq<Event>, origin: u32, S: bytes)
    requires OpensStream(open, origin) && SynRun(events, origin, S) && |S| < HALF
    ensures var st := Run(Add(INITIAL, open.segment, open.flags), events);
            st.base == Some(origin) && InPlace(st)
    decreases events
  {
    var start := Add(INITIAL, open.segment, open.flags);
    assert start.base == Some(origin) && start.next == Some(origin) && InPlace(start) && Wrap(origin) == origin;
    hide Wrap, Offset, Add, Numbered, JoinData, Invariant;
    if events != [] {
      var front, e := events[..|events| - 1], events[|events| - 1];
      SynPiecesNumbered(open, front, origin, S);
      SynRunInvariant(open, front, origin, S);
      SynRunInvariant(open, events, origin, S);
      var st := Run(start, front);
      SynStreamExact(open, events, origin, S);
      if e.flags.syn {
        InvariantFixesEnd(st, origin, S, 0, Payloads(front));
        SynAgain(st, e, origin);
      } else {
        if e.segment.data == [] {
          EmptySegment(st, e.segment, e.flags);
          InPlaceIgnoresClosed(Add(st, e.segment, e.flags), st);
        } else {
          ReachesBase(st, e.segment, origin, S, 0, Payloads(front));
          AddInPlace(st, e.segment, e.flags);
        }
      }
    }
  }

  /** Joined midway, every piece is numbered by its place behind the base. */
  lemma {:induction false} MidPiecesNumbered(events: seq<Event>, origin: u32, S: bytes)
    requires MidRun(events, origin, S) && |S| < HALF
    ensures InPlace(Run(INITIAL, events))
  {
    hide Wrap, Offset, Add, Invariant;
    if events != [] {
      var front, e := events[..|events| - 1], events[|events| - 1];
      MidPiecesNumbered(front, origin, S);
      MidRunInvariant(front, origin, S);
      var st, h := Run(INITIAL, front), Payloads(front);
      if e.segment.data == [] {
        EmptySegment(st, e.segment, e.flags);
        InPlaceIgnoresClosed(Add(st, e.segment, e.flags), st);
      } else {
        if h != [] {
          ReachesBase(st, e.segment, origin, S, Lowest(h, origin), h);
        }
        AddInPlace(st, e.segment, e.flags);
      }
    }
  }
}
