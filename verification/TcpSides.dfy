/**
  * What one endpoint's packets make of its side of a tracker, from the first packet on: when the side is closed, when
  * it holds data, and what it hands over. Packets may come before the SYN, or there may be no SYN at all.
  */
module TcpSides {
  import opened Basics
  import opened SequenceNumbers
  import opened Models
  import opened TcpDirection
  import opened TcpStreams
  import opened TcpRuns
  import opened TcpClosing
  import opened TcpResidues
  import StableSort

  // ---------- before the first byte ----------

  predicate AllAhead(st: State, held: seq<Segment>)
    requires st.next.Some?
  {
    forall i :: 0 <= i < |held| ==> SeqDiff(held[i].seqNum, st.next.value) > 0
  }

  lemma {:induction false} PassKeepsAhead(st: State, held: seq<Segment>)
    requires st.next.Some? && AllAhead(st, held)
    ensures Pass(st, held) == PassResult(st, held, false)
  {
    hide SeqDiff;
    if held != [] {
      PassKeepsAhead(st, held[..|held| - 1]);
      assert held == held[..|held| - 1] + [held[|held| - 1]];
    }
  }

  lemma {:induction false} PlaceHolds(st: State, s: Segment, origin: u32, S: bytes, h: seq<Segment>)
    requires Invariant(st, origin, S, 0, h) && st.buffer == [] && st.outOfOrder == StableSort.Sort(h, RawSeq)
    requires s.data != [] && SliceOf(s, origin, S) && Start(s, origin) > 0
    ensures Place(st, s).outOfOrder == StableSort.Sort(h + [s], RawSeq) && Place(st, s).buffer == []
  {
    hide SeqDiff, Wrap, Offset, StableSort.Sort;
    var held := StableSort.Sort(st.outOfOrder + [s], RawSeq);
    StableSort.SortAppend(h, s, RawSeq);
    StableSort.SortMembers(st.outOfOrder + [s], RawSeq);
    DiffIsDistance(s, origin, S, 0);
    forall x | x in held ensures SeqDiff(x.seqNum, st.next.value) > 0 {
      DiffIsDistance(x, origin, S, 0);
    }
    PassKeepsAhead(st.(outOfOrder := held), held);
  }

  lemma {:induction false} StartsPastFirst(h: seq<Segment>, s: Segment, origin: u32)
    requires s.data != [] && !Covered(h + [s], origin, 0)
    ensures Start(s, origin) > 0 && !Covered(h, origin, 0)
  {
    hide Offset;
    assert s in h + [s];
    assert forall x :: x in h ==> x in h + [s];
    assert Start(s, origin) == 0 ==> Covers(s, origin, 0);
  }

  /** Until the first byte arrives everything is held, in the order of the raw sequence numbers. */
  lemma {:induction false} AllIsHeld(open: Event, events: seq<Event>, origin: u32, S: bytes)
    requires OpensStream(open, origin) && SynRun(events, origin, S) && |S| < HALF
    requires !Covered(Payloads(events), origin, 0)
    ensures var st := Run(Add(INITIAL, open.segment, open.flags), events);
            st.buffer == [] && st.outOfOrder == StableSort.Sort(Payloads(events), RawSeq)
    decreases |events|
  {
    if events == [] {
    } else {
      var front, e := events[..|events| - 1], events[|events| - 1];
      var st, h := Run(Add(INITIAL, open.segment, open.flags), front), Payloads(front);
      var s := e.segment;
      assert Payloads(events) == if s.data == [] then h else h + [s];
      hide Offset, SeqDiff, Wrap, Place, StableSort.Sort, Invariant;
      if s.data != [] {
        StartsPastFirst(h, s, origin);
      }
      AllIsHeld(open, front, origin, S);
      SynRunInvariant(open, front, origin, S);
      if s.data != [] && !e.flags.syn {
        SynStreamExact(open, front, origin, S);
        NotEarlyAfterSyn(st, s, origin, S);
        AddPlaces(st, s, e.flags);
        var begun := Begin(st, s.seqNum, e.flags);
        InvariantIgnoresClosed(begun, st, origin, S, 0, h);
        PlaceHolds(begun, s, origin, S, h);
      }
    }
  }

  // ---------- one endpoint ----------

  /**
    * What an endpoint sends in the time of one tracker. Its first `lead` packets come before its SYN: the rest of an
    * earlier connection, or all there is of one joined midway. Their data is cut out of `late`, the data behind the SYN
    * out of `stream`.
    */
  datatype Endpoint = Endpoint(lead: nat, lateOrigin: u32, late: bytes, origin: u32, stream: bytes) {
    function Before(events: seq<Event>): seq<Event> {
      events[..Min(lead, |events|)]
    }

    function Behind(events: seq<Event>): seq<Event> {
      events[Min(lead, |events|)..]
    }
  }

  /** A SYN, then slices of `S`, the SYN repeated only before the first byte; or nothing. */
  ghost predicate Opened(events: seq<Event>, origin: u32, S: bytes) {
    && |S| < HALF
    && (events == [] || (OpensStream(events[0], origin) && SynRun(events[1..], origin, S)))
  }

  /** The payloads leave no byte out between the lowest and the last. */
  ghost predicate NoGaps(h: seq<Segment>, origin: u32) {
    forall s, k :: s in h && Lowest(h, origin) <= k < End(s, origin) ==> Covered(h, origin, k)
  }

  ghost predicate Sends(events: seq<Event>, e: Endpoint) {
    && |e.late| < HALF && MidRun(e.Before(events), e.lateOrigin, e.late)
    && Opened(e.Behind(events), e.origin, e.stream)
    && (e.Behind(events) != [] && Payloads(e.Before(events)) != [] ==> NoGaps(Payloads(e.Before(events)), e.lateOrigin))
  }

  ghost predicate Arrived(events: seq<Event>, origin: u32, k: int) {
    Covered(Payloads(events), origin, k)
  }

  ghost predicate AllArrived(events: seq<Event>, origin: u32, S: bytes) {
    forall k :: 0 <= k < |S| ==> Arrived(events, origin, k)
  }

  /** What is handed over before the first byte has arrived: the pieces by raw sequence number, gaps ignored. */
  function Scraps(events: seq<Event>): bytes {
    JoinData(StableSort.Sort(Payloads(events), RawSeq))
  }

  /** All of `S` has arrived, or the scraps happen to spell it. */
  ghost predicate HandsOver(events: seq<Event>, origin: u32, S: bytes) {
    AllArrived(events, origin, S) || (!Arrived(events, origin, 0) && Scraps(events) == S)
  }

  /** The packets that close a side: before the SYN as for a connection joined midway, behind it RST and FIN. */
  ghost predicate Closing(events: seq<Event>, e: Endpoint) {
    || (exists i :: 0 <= i < |e.Before(events)| &&
                    ClosesMidway(e.Before(events)[..i], e.Before(events)[i], e.lateOrigin))
    || exists i :: 0 <= i < |e.Behind(events)| && Closes(e.Behind(events)[i].flags)
  }

  ghost predicate HoldsData(events: seq<Event>, e: Endpoint) {
    Payloads(e.Before(events)) != [] || Arrived(e.Behind(events), e.origin, 0)
  }

  /** `r` is what the packets before the SYN leave in the buffer: the unbroken stretch from their lowest byte on. */
  ghost predicate IsResidue(r: bytes, lead: seq<Event>, origin: u32, L: bytes) {
    if Payloads(lead) == [] then r == []
    else
      var lo := Lowest(Payloads(lead), origin);
      lo + |r| <= |L| && r == L[lo..lo + |r|] && UnbrokenUntil(Payloads(lead), origin, lo, lo + |r|)
  }

  /** `p` is the longest prefix of `S` that has arrived. */
  ghost predicate IsArrivedPrefix(p: bytes, events: seq<Event>, origin: u32, S: bytes) {
    p <= S && UnbrokenUntil(Payloads(events), origin, 0, |p|)
  }

  /** What a side hands over: what was there before the SYN, then what has arrived of the stream; or the scraps. */
  ghost predicate IsHandedOver(data: bytes, events: seq<Event>, e: Endpoint) {
    if !HoldsData(events, e) then data == Scraps(e.Behind(events))
    else
      exists r, p ::
        && data == r + p
        && IsResidue(r, e.Before(events), e.lateOrigin, e.late)
        && IsArrivedPrefix(p, e.Behind(events), e.origin, e.stream)
  }

  // ---------- what the SYN finds ----------

  lemma {:induction false} RunSplits(st: State, xs: seq<Event>, ys: seq<Event>)
    requires st.Valid()
    ensures Run(st, xs + ys) == Run(Run(st, xs), ys)
  {
    hide Add;
    if ys == [] {
      ConcatNothing(xs);
    } else {
      var all := xs + ys;
      RunSplits(st, xs, ys[..|ys| - 1]);
      assert all[..|all| - 1] == xs + ys[..|ys| - 1] && all[|all| - 1] == ys[|ys| - 1];
    }
  }

  lemma {:induction false} RunFromFirst(e: Event, events: seq<Event>)
    ensures Run(INITIAL, [e] + events) == Run(Add(INITIAL, e.segment, e.flags), events)
    ensures e.segment.data == [] ==> Payloads([e] + events) == Payloads(events)
  {
    hide Add;
    var all := [e] + events;
    if events == [] {
      assert all == [e] && all[..0] == [];
    } else {
      var front, last := events[..|events| - 1], events[|events| - 1];
      RunFromFirst(e, front);
      assert all[..|all| - 1] == [e] + front && all[|all| - 1] == last;
    }
  }

  lemma {:induction false} LowestIsReached(lead: seq<Event>, origin: u32, L: bytes)
    requires MidRun(lead, origin, L) && |L| < HALF && Payloads(lead) != []
    ensures Covered(Payloads(lead), origin, Lowest(Payloads(lead), origin))
    ensures Run(INITIAL, lead).buffer != []
  {
    var h := Payloads(lead);
    PayloadsNonEmpty(lead);
    LowestIsLowest(h, origin);
    hide Offset, Wrap, Add, Run, Payloads, MidRun;
    var s :| s in h && Lowest(h, origin) == Start(s, origin);
    assert Covers(s, origin, Start(s, origin));
    MidStreamExact(lead, origin, L);
  }

  lemma {:induction false} NothingHeld(st: State, origin: u32, L: bytes, lo: nat, h: seq<Segment>)
    requires Invariant(st, origin, L, lo, h) && h != [] && lo == Lowest(h, origin) && NoGaps(h, origin)
    ensures st.outOfOrder == []
  {
    InvariantFixesEnd(st, origin, L, lo, h);
    hide Offset, Wrap;
    FirstIsMember(st.outOfOrder);
    assert st.outOfOrder != [] ==> Covered(h, origin, lo + |st.buffer|);
  }

  /** What the packets before the SYN leave behind. */
  lemma {:induction false} LeadState(lead: seq<Event>, origin: u32, L: bytes)
    requires MidRun(lead, origin, L) && |L| < HALF
    ensures var st := Run(INITIAL, lead);
            && IsResidue(st.buffer, lead, origin, L)
            && (st.buffer != [] <==> Payloads(lead) != [])
            && (Payloads(lead) == [] || NoGaps(Payloads(lead), origin) ==> st.outOfOrder == [])
  {
    hide Offset, Wrap, Add, Run, Payloads, MidRun, UnbrokenUntil;
    MidRunInvariant(lead, origin, L);
    var st, h := Run(INITIAL, lead), Payloads(lead);
    if h != [] {
      MidStreamExact(lead, origin, L);
      LowestIsReached(lead, origin, L);
      if NoGaps(h, origin) {
        NothingHeld(st, origin, L, Lowest(h, origin), h);
      }
    }
  }

  // ---------- behind the SYN ----------

  lemma {:induction false} BehindCloses(events: seq<Event>, origin: u32, S: bytes)
    requires Opened(events, origin, S)
    ensures Run(INITIAL, events).closed <==> exists i :: 0 <= i < |events| && Closes(events[i].flags)
  {
    if events != [] {
      hide Run, SynRun;
      assert events == [events[0]] + events[1..];
      RunFromFirst(events[0], events[1..]);
      SynRunClosesIff(events[0], events[1..], origin, S);
      assert forall i :: 0 <= i < |events[1..]| ==> events[1..][i] == events[i + 1];
      if i :| 0 <= i < |events| && Closes(events[i].flags) {
        assert i > 0 ==> events[i] == events[1..][i - 1];
      }
    }
  }

  lemma {:induction false} NothingSorted(h: seq<Segment>)
    ensures StableSort.Sort(h, RawSeq) == [] ==> JoinData(StableSort.Sort(h, RawSeq)) == []
    ensures h == [] ==> StableSort.Sort(h, RawSeq) == []
  {
  }

  lemma {:induction false} BehindState(events: seq<Event>, origin: u32, S: bytes)
    requires Opened(events, origin, S)
    ensures var st := Run(INITIAL, events);
            && IsArrivedPrefix(st.buffer, events, origin, S)
            && (st.buffer != [] <==> Arrived(events, origin, 0))
            && (st.buffer == [] ==> st.outOfOrder == StableSort.Sort(Payloads(events), RawSeq))
  {
    if events == [] {
      NothingSorted([]);
    } else {
      hide SynRun, Payloads, Offset, StableSort.Sort, Run, Covered;
      assert events == [events[0]] + events[1..];
      RunFromFirst(events[0], events[1..]);
      SynStreamExact(events[0], events[1..], origin, S);
      if !Arrived(events, origin, 0) {
        AllIsHeld(events[0], events[1..], origin, S);
      }
    }
  }

  // ---------- both ----------

  lemma {:induction false} NothingHeldEarly(lead: seq<Event>, origin: u32, L: bytes)
    requires MidRun(lead, origin, L) && |L| < HALF
    ensures Run(INITIAL, lead).buffer == [] ==> Run(INITIAL, lead).outOfOrder == []
  {
    hide Run, MidRun, Payloads;
    LeadState(lead, origin, L);
  }

  /** The state of a side: what was left before the SYN with the run behind it on top. */
  lemma {:induction false} SideState(events: seq<Event>, e: Endpoint)
    requires Sends(events, e)
    ensures var before, behind := Run(INITIAL, e.Before(events)), Run(INITIAL, e.Behind(events));
            var st := Run(INITIAL, events);
            && st.buffer == before.buffer + behind.buffer
            && (st.closed <==> before.closed || behind.closed)
            && (before.buffer == [] ==> st.outOfOrder == behind.outOfOrder)
  {
    var lead, rest := e.Before(events), e.Behind(events);
    LeadState(lead, e.lateOrigin, e.late);
    hide Run, SynRun, MidRun, Payloads, Offset, Covered, OpensStream;
    assert events == lead + rest;
    RunSplits(INITIAL, lead, rest);
    var left := Run(INITIAL, lead);
    if rest == [] {
      ConcatNothing(left.buffer);
      NothingHeldEarly(lead, e.lateOrigin, e.late);
    } else {
      var open, more := rest[0], rest[1..];
      assert rest == [open] + more;
      RunFromFirst(open, more);
      RunSplits(left, [open], more);
      RunsOnTop(left, open, more, e.origin, e.stream);
    }
  }

  /** A side is closed if and only if a packet that closes it has been sent. */
  lemma {:induction false} SideClosesIff(events: seq<Event>, e: Endpoint)
    requires Sends(events, e)
    ensures Run(INITIAL, events).closed <==> Closing(events, e)
  {
    hide Run, SynRun, MidRun, Payloads, ClosesMidway, Closes, NoGaps;
    SideState(events, e);
    MidRunClosesIff(e.Before(events), e.lateOrigin, e.late);
    BehindCloses(e.Behind(events), e.origin, e.stream);
  }

  /** It holds data if and only if data came before its SYN, or the first byte behind it has arrived. */
  lemma {:induction false} SideHoldsDataIff(events: seq<Event>, e: Endpoint)
    requires Sends(events, e)
    ensures Run(INITIAL, events).buffer != [] <==> HoldsData(events, e)
  {
    hide Run, SynRun, MidRun, Payloads, Covered, NoGaps, IsResidue, IsArrivedPrefix;
    SideState(events, e);
    LeadState(e.Before(events), e.lateOrigin, e.late);
    BehindState(e.Behind(events), e.origin, e.stream);
  }

  lemma {:induction false} DataOf(st: State)
    ensures st.buffer != [] ==> Data(st) == st.buffer
    ensures st.buffer == [] ==> Data(st) == JoinData(StableSort.Sort(st.outOfOrder, RawSeq))
  {
    hide StableSort.Sort;
    NothingSorted(st.outOfOrder);
  }

  lemma {:induction false} SortTwice(h: seq<Segment>)
    ensures StableSort.Sort(StableSort.Sort(h, RawSeq), RawSeq) == StableSort.Sort(h, RawSeq)
  {
    hide StableSort.Sort;
    StableSort.SortCorrect(h, RawSeq);
    StableSort.SortAscending(StableSort.Sort(h, RawSeq), RawSeq);
  }

  /** It hands over what was there before its SYN and the longest prefix that has arrived; with no data, the scraps. */
  lemma {:induction false} SideData(events: seq<Event>, e: Endpoint)
    requires Sends(events, e)
    ensures IsHandedOver(Data(Run(INITIAL, events)), events, e)
  {
    hide Run, SynRun, MidRun, Payloads, Covered, NoGaps, IsResidue, IsArrivedPrefix, Data, HoldsData, JoinData,
      StableSort.Sort;
    var st := Run(INITIAL, events);
    var before, behind := Run(INITIAL, e.Before(events)), Run(INITIAL, e.Behind(events));
    SideState(events, e);
    SideHoldsDataIff(events, e);
    LeadState(e.Before(events), e.lateOrigin, e.late);
    BehindState(e.Behind(events), e.origin, e.stream);
    DataOf(st);
    if !HoldsData(events, e) {
      SortTwice(Payloads(e.Behind(events)));
    }
  }

  /** What is handed over is fixed by the packets. */
  lemma {:induction false} HandedOverUnique(data: bytes, data': bytes, events: seq<Event>, e: Endpoint)
    requires IsHandedOver(data, events, e) && IsHandedOver(data', events, e)
    ensures data == data'
  {
    hide Covered, Payloads, Scraps, HoldsData;
  }

  // ---------- is it what was sent? ----------

  lemma {:induction false} NoPayloads(events: seq<Event>, origin: u32)
    requires SynRun(events, origin, [])
    ensures Payloads(events) == []
  {
    if events != [] {
      NoPayloads(events[..|events| - 1], origin);
    }
  }

  /** Of an empty stream nothing arrives, and then there are no scraps. */
  lemma {:induction false} NothingBeyond(events: seq<Event>, origin: u32, S: bytes)
    requires Opened(events, origin, S)
    ensures S == [] ==> !Arrived(events, origin, 0) && Scraps(events) == []
  {
    NothingSorted([]);
    if S == [] && events != [] {
      assert events == [events[0]] + events[1..];
      RunFromFirst(events[0], events[1..]);
      NoPayloads(events[1..], origin);
    }
  }

  lemma {:induction false} PrefixIsAllIff(p: bytes, events: seq<Event>, origin: u32, S: bytes)
    requires IsArrivedPrefix(p, events, origin, S)
    ensures p == S <==> AllArrived(events, origin, S)
  {
    hide Covered, Payloads;
    assert !Arrived(events, origin, |p|);
    assert p == S <==> |p| == |S|;
  }

  lemma {:induction false} FirstOfAll(events: seq<Event>, origin: u32, S: bytes)
    ensures AllArrived(events, origin, S) && S != [] ==> Arrived(events, origin, 0)
  {
  }

  /**
    * With no data before the SYN: a side hands over exactly what was sent behind it if and only if all of that has
    * arrived, or the scraps happen to spell it.
    */
  lemma {:induction false} HandsOverIff(data: bytes, events: seq<Event>, e: Endpoint)
    requires Sends(events, e) && IsHandedOver(data, events, e) && Payloads(e.Before(events)) == []
    ensures data == e.stream <==> HandsOver(e.Behind(events), e.origin, e.stream)
  {
    hide Covered, Payloads, SynRun, MidRun, Scraps, AllArrived, IsArrivedPrefix, OpensStream;
    var behind := e.Behind(events);
    NothingBeyond(behind, e.origin, e.stream);
    if HoldsData(events, e) {
      var r, p :| data == r + p && IsResidue(r, e.Before(events), e.lateOrigin, e.late) &&
        IsArrivedPrefix(p, behind, e.origin, e.stream);
      ConcatNothing(p);
      PrefixIsAllIff(p, behind, e.origin, e.stream);
    } else {
      FirstOfAll(behind, e.origin, e.stream);
    }
  }

  lemma {:induction false} NothingArrives(p: bytes, origin: u32, S: bytes)
    requires IsArrivedPrefix(p, [], origin, S)
    ensures p == []
  {
    assert p != [] ==> Covered(Payloads([]), origin, 0);
  }

  lemma {:induction false} ResidueIsAllIff(r: bytes, events: seq<Event>, origin: u32, L: bytes)
    requires IsResidue(r, events, origin, L) && MidRun(events, origin, L) && Payloads(events) != [] && |L| < HALF
    ensures r == L <==> AllArrived(events, origin, L)
  {
    hide Offset, MidRun, Payloads, Run;
    var h := Payloads(events);
    var lo := Lowest(h, origin);
    LowestIsLowest(h, origin);
    assert !Covered(h, origin, lo + |r|);
    if AllArrived(events, origin, L) && L != [] {
      assert Arrived(events, origin, 0);
      var s :| s in h && Covers(s, origin, 0);
      assert lo == 0;
      assert |r| < |L| ==> Arrived(events, origin, |r|);
    }
    if r == L {
      assert lo == 0;
    }
  }

  /** Joined midway, with no SYN at all: it hands over exactly what was sent if and only if all of that has arrived. */
  lemma {:induction false} MidwayHandsOverIff(data: bytes, events: seq<Event>, e: Endpoint)
    requires Sends(events, e) && IsHandedOver(data, events, e) && e.Behind(events) == [] && e.late != []
    ensures data == e.late <==> AllArrived(events, e.lateOrigin, e.late)
  {
    assert e.Before(events) == events;
    NothingSorted([]);
    if Payloads(events) == [] {
      assert !Arrived(events, e.lateOrigin, 0);
    } else {
      var r, p :| data == r + p && IsResidue(r, events, e.lateOrigin, e.late) &&
        IsArrivedPrefix(p, [], e.origin, e.stream);
      NothingArrives(p, e.origin, e.stream);
      ConcatNothing(r);
      ResidueIsAllIff(r, events, e.lateOrigin, e.late);
    }
  }

  // ---------- scraps ----------

  lemma {:induction false} TwoPayloads(open: Event, e: Event, origin: u32, S: bytes)
    requires OpensStream(open, origin) && |S| < HALF
    requires e.segment.data != [] && !e.flags.syn && SliceOf(e.segment, origin, S)
    ensures Opened([open, e, e], origin, S) && Payloads([open, e, e]) == [e.segment, e.segment]
  {
    hide SliceOf, Offset, Wrap;
    assert [open, e, e][1..] == [e, e] && [e, e][..1] == [e] && [e][..0] == [];
    assert [open, e, e] == [open] + [e, e];
    RunFromFirst(open, [e, e]);
    assert SynRun([e], origin, S) && Payloads([e]) == [e.segment];
  }

  lemma {:induction false} SecondByte(s: Segment, origin: u32)
    requires s.data == [7] && s.seqNum == Wrap(origin + 1)
    ensures SliceOf(s, origin, [7, 7]) && !Covered([s, s], origin, 0)
  {
    OffsetOfWrap(origin, 1);
    hide Offset, Wrap;
    assert [7, 7][1..2] == [7];
  }

  lemma {:induction false} JoinTwo(s: Segment)
    ensures JoinData(StableSort.Sort([s, s], RawSeq)) == s.data + s.data
  {
    StableSort.SortAscending([s, s], RawSeq);
    assert [s, s][..1] == [s] && [s][..0] == [];
    assert JoinData([s]) == s.data;
  }

  lemma {:induction false} NoPayloadsOfNothing()
    ensures Payloads([]) == []
  {
  }

  /** The scraps can spell the stream without its first byte: the second of two equal bytes, received twice. */
  lemma {:induction false} ScrapsCanSpellStream(open: Event, again: Segment, origin: u32)
    requires OpensStream(open, origin) && again.data == [7] && again.seqNum == Wrap(origin + 1)
    ensures var events, e := [open, Event(again, NO_FLAGS), Event(again, NO_FLAGS)], Endpoint(0, 0, [], origin, [7, 7]);
            && Sends(events, e)
            && !Arrived(events, origin, 0) && Data(Run(INITIAL, events)) == [7, 7]
  {
    var x := Event(again, NO_FLAGS);
    var events, e := [open, x, x], Endpoint(0, 0, [], origin, [7, 7]);
    assert e.Before(events) == [] && e.Behind(events) == events;
    SecondByte(again, origin);
    hide SliceOf, Offset, Wrap, Payloads, Run, Data, JoinData, StableSort.Sort, OpensStream, Opened;
    TwoPayloads(open, x, origin, [7, 7]);
    JoinTwo(again);
    NoPayloadsOfNothing();
    SideData(events, e);
  }
}
