/**
  * Whole runs of one direction's reassembler. With a SYN at the front, or joining a connection midway, the
  * buffer is fixed by which bytes have been received, not by how they were cut or in which order they came.
  */
module TcpRuns {
  import opened Basics
  import opened SequenceNumbers
  import opened Models
  import opened TcpDirection
  import opened TcpStreams

  datatype Event = Event(segment: Segment, flags: Flags)

  function Run(st: State, events: seq<Event>): (r: State)
    requires st.Valid()
    ensures r.Valid()
  {
    if events == [] then st
    else
      var e := events[|events| - 1];
      Add(Run(st, events[..|events| - 1]), e.segment, e.flags)
  }

  /** The received payloads, in order of arrival. */
  function Payloads(events: seq<Event>): seq<Segment> {
    if events == [] then []
    else
      var e := events[|events| - 1];
      var front := Payloads(events[..|events| - 1]);
      if e.segment.data == [] then front else front + [e.segment]
  }

  /** `hi` is where the unbroken stretch of received bytes that starts at `lo` ends. */
  ghost predicate UnbrokenUntil(h: seq<Segment>, origin: u32, lo: nat, hi: nat) {
    && lo <= hi
    && (forall k :: lo <= k < hi ==> Covered(h, origin, k))
    && !Covered(h, origin, hi)
  }

  lemma {:induction false} UnbrokenUnique(h: seq<Segment>, h': seq<Segment>, origin: u32, lo: nat, hi: nat, hi': nat)
    requires UnbrokenUntil(h, origin, lo, hi) && UnbrokenUntil(h', origin, lo, hi')
    requires forall k :: Covered(h, origin, k) <==> Covered(h', origin, k)
    ensures hi == hi'
  {
  }

  lemma {:induction false} InvariantFixesEnd(st: State, origin: u32, S: bytes, lo: nat, h: seq<Segment>)
    requires Invariant(st, origin, S, lo, h)
    ensures UnbrokenUntil(h, origin, lo, lo + |st.buffer|)
  {
    hide Offset, Wrap;
  }

  /** Events without payload and without SYN leave everything but `closed` alone. */
  lemma {:induction false} EmptySegment(st: State, s: Segment, flags: Flags)
    requires st.Valid() && s.data == [] && !flags.syn
    ensures SameButClosed(Add(st, s, flags), st)
  {
  }

  // ---------- connections seen from their SYN ----------

  predicate OpensStream(e: Event, origin: u32) {
    e.flags.syn && e.segment.data == [] && Wrap(e.segment.seqNum + 1) == origin
  }

  /** Payloads are slices of `S`; the SYN may be repeated only until the first byte has been received. */
  ghost predicate SynRun(events: seq<Event>, origin: u32, S: bytes) {
    events == [] ||
    var front, e := events[..|events| - 1], events[|events| - 1];
    && SynRun(front, origin, S)
    && if e.flags.syn then OpensStream(e, origin) && !Covered(Payloads(front), origin, 0)
       else e.segment.data == [] || SliceOf(e.segment, origin, S)
  }

  lemma {:induction false} SynSetsWindow(st: State, e: Event, origin: u32, S: bytes, h: seq<Segment>)
    requires (st == INITIAL && h == []) || (Invariant(st, origin, S, 0, h) && st.buffer == [])
    requires OpensStream(e, origin) && |S| < HALF
    ensures Invariant(Add(st, e.segment, e.flags), origin, S, 0, h)
  {
  }

  lemma {:induction false} SynRunInvariant(open: Event, events: seq<Event>, origin: u32, S: bytes)
    requires OpensStream(open, origin) && SynRun(events, origin, S) && |S| < HALF
    ensures Invariant(Run(Add(INITIAL, open.segment, open.flags), events), origin, S, 0, Payloads(events))
    decreases events
  {
    hide Offset, Wrap, Invariant, Add;
    var st := Add(INITIAL, open.segment, open.flags);
    if events == [] {
      SynSetsWindow(INITIAL, open, origin, S, []);
    } else {
      var front, e := events[..|events| - 1], events[|events| - 1];
      SynRunInvariant(open, front, origin, S);
      var st', h := Run(st, front), Payloads(front);
      if e.flags.syn {
        InvariantFixesEnd(st', origin, S, 0, h);
        assert st'.buffer == [];
        SynSetsWindow(st', e, origin, S, h);
      } else if e.segment.data == [] {
        EmptySegment(st', e.segment, e.flags);
        InvariantIgnoresClosed(Add(st', e.segment, e.flags), st', origin, S, 0, h);
      } else {
        AddKeepsInvariant(st', e.segment, e.flags, origin, S, 0, h);
      }
    }
  }

  /**
    * After the SYN, whatever the order, duplication, overlap or wrap-around of the segments, the buffer is
    * exactly the longest prefix of the stream all of whose bytes have been received.
    */
  lemma {:induction false} SynStreamExact(open: Event, events: seq<Event>, origin: u32, S: bytes)
    requires OpensStream(open, origin) && SynRun(events, origin, S) && |S| < HALF
    ensures var st := Run(Add(INITIAL, open.segment, open.flags), events);
            && st.buffer <= S
            && UnbrokenUntil(Payloads(events), origin, 0, |st.buffer|)
            && st.base == Some(origin) && st.next == Some(Wrap(origin + |st.buffer|))
  {
    assert Wrap(origin) == origin;
    hide Offset, Wrap, Add, Run, Payloads, SynRun;
    SynRunInvariant(open, events, origin, S);
    InvariantFixesEnd(Run(Add(INITIAL, open.segment, open.flags), events), origin, S, 0, Payloads(events));
  }

  /** Once every byte has been received the buffer is the stream, and nothing is held back. */
  lemma {:induction false} SynStreamComplete(open: Event, events: seq<Event>, origin: u32, S: bytes)
    requires OpensStream(open, origin) && SynRun(events, origin, S) && |S| < HALF
    ensures var st := Run(Add(INITIAL, open.segment, open.flags), events);
            && (st.buffer == S <==> forall k :: 0 <= k < |S| ==> Covered(Payloads(events), origin, k))
            && (st.buffer == S ==> st.outOfOrder == [] && Data(st) == S)
  {
    hide Offset, Wrap, Add;
    var st := Run(Add(INITIAL, open.segment, open.flags), events);
    SynRunInvariant(open, events, origin, S);
    InvariantFixesEnd(st, origin, S, 0, Payloads(events));
    if |st.buffer| == |S| {
      assert st.buffer == S;
    }
    FirstIsMember(st.outOfOrder);
  }

  /** Two runs that received the same bytes, however cut and ordered, have the same buffer. */
  lemma {:induction false} SynRunsAgree(
    open: Event, events: seq<Event>, open': Event, events': seq<Event>, origin: u32, S: bytes)
    requires OpensStream(open, origin) && SynRun(events, origin, S)
    requires OpensStream(open', origin) && SynRun(events', origin, S) && |S| < HALF
    requires forall k :: Covered(Payloads(events), origin, k) <==> Covered(Payloads(events'), origin, k)
    ensures var st, st' := Run(Add(INITIAL, open.segment, open.flags), events),
                           Run(Add(INITIAL, open'.segment, open'.flags), events');
            st.buffer == st'.buffer && st.next == st'.next && st.base == st'.base
  {
    hide Offset, Wrap, Add, Run, Payloads, SynRun, UnbrokenUntil;
    var st, st' := Run(Add(INITIAL, open.segment, open.flags), events),
        Run(Add(INITIAL, open'.segment, open'.flags), events');
    SynStreamExact(open, events, origin, S);
    SynStreamExact(open', events', origin, S);
    UnbrokenUnique(Payloads(events), Payloads(events'), origin, 0, |st.buffer|, |st'.buffer|);
  }

  // ---------- connections joined midway ----------

  function Lowest(h: seq<Segment>, origin: u32): (lo: nat)
    requires h != []
  {
    var last := Start(h[|h| - 1], origin);
    if |h| == 1 then last else Min(Lowest(h[..|h| - 1], origin), last)
  }

  lemma {:induction false} LowestIsLowest(h: seq<Segment>, origin: u32)
    requires h != []
    ensures forall s :: s in h ==> Lowest(h, origin) <= Start(s, origin)
    ensures exists s :: s in h && Lowest(h, origin) == Start(s, origin)
  {
    hide Offset;
    var front, s := h[..|h| - 1], h[|h| - 1];
    assert s in h;
    if |h| > 1 {
      LowestIsLowest(front, origin);
      var t :| t in front && Lowest(front, origin) == Start(t, origin);
      assert t in h;
    }
  }

  /** No SYN; payloads are slices of `S`, and one that starts before all earlier ones reaches them. */
  ghost predicate MidRun(events: seq<Event>, origin: u32, S: bytes) {
    events == [] ||
    var front, e := events[..|events| - 1], events[|events| - 1];
    && MidRun(front, origin, S)
    && !e.flags.syn
    && (e.segment.data == [] || SliceOf(e.segment, origin, S))
    && (e.segment.data != [] && Payloads(front) != [] ==> Lowest(Payloads(front), origin) <= End(e.segment, origin))
  }

  lemma {:induction false} FirstPayload(st: State, s: Segment, flags: Flags, origin: u32, S: bytes)
    requires SameButClosed(st, INITIAL) && !flags.syn && s.data != [] && SliceOf(s, origin, S) && |S| < HALF
    ensures Invariant(Add(st, s, flags), origin, S, Start(s, origin), [s])
  {
    WrapOfOffset(origin, s.seqNum);
    WrapAdd(origin + Start(s, origin), |s.data|);
    var r := Add(st, s, flags);
    hide Offset, Wrap;
    assert r.next == Some(Wrap(s.seqNum + |s.data|));
    forall k | Start(s, origin) <= k < End(s, origin) ensures Covered([s], origin, k) {
      assert s in [s] && Covers(s, origin, k);
    }
  }

  lemma {:induction false} MidRunInvariant(events: seq<Event>, origin: u32, S: bytes)
    requires MidRun(events, origin, S) && |S| < HALF
    ensures var h := Payloads(events);
            if h == [] then SameButClosed(Run(INITIAL, events), INITIAL)
            else Invariant(Run(INITIAL, events), origin, S, Lowest(h, origin), h)
  {
    hide Offset, Wrap, Invariant, Add;
    if events != [] {
      var front, e := events[..|events| - 1], events[|events| - 1];
      MidRunInvariant(front, origin, S);
      var st, h := Run(INITIAL, front), Payloads(front);
      if e.segment.data == [] {
        EmptySegment(st, e.segment, e.flags);
        if h != [] {
          InvariantIgnoresClosed(Add(st, e.segment, e.flags), st, origin, S, Lowest(h, origin), h);
        }
      } else if h == [] {
        FirstPayload(st, e.segment, e.flags, origin, S);
        assert h + [e.segment] == [e.segment];
      } else {
        AddKeepsInvariant(st, e.segment, e.flags, origin, S, Lowest(h, origin), h);
        assert (h + [e.segment])[..|h|] == h;
      }
    }
  }

  /** The buffer is the unbroken stretch of received bytes that starts at the lowest one. */
  lemma {:induction false} MidStreamExact(events: seq<Event>, origin: u32, S: bytes)
    requires MidRun(events, origin, S) && |S| < HALF && Payloads(events) != []
    ensures var st, lo := Run(INITIAL, events), Lowest(Payloads(events), origin);
            var hi := lo + |st.buffer|;
            && hi <= |S| && st.buffer == S[lo..hi]
            && UnbrokenUntil(Payloads(events), origin, lo, hi)
            && st.base == Some(Wrap(origin + lo)) && st.next == Some(Wrap(origin + hi))
  {
    hide Offset, Wrap, Add, Run, Payloads, MidRun;
    MidRunInvariant(events, origin, S);
    InvariantFixesEnd(Run(INITIAL, events), origin, S, Lowest(Payloads(events), origin), Payloads(events));
  }

  lemma {:induction false} PayloadsNonEmpty(events: seq<Event>)
    ensures forall s :: s in Payloads(events) ==> s.data != []
  {
    if events != [] {
      PayloadsNonEmpty(events[..|events| - 1]);
    }
  }

  lemma {:induction false} LowestByCoverage(h: seq<Segment>, h': seq<Segment>, origin: u32)
    requires h != [] && h' != [] && forall s :: s in h ==> s.data != []
    requires forall k :: Covered(h, origin, k) ==> Covered(h', origin, k)
    ensures Lowest(h', origin) <= Lowest(h, origin)
  {
    hide Offset;
    LowestIsLowest(h, origin);
    LowestIsLowest(h', origin);
    var s :| s in h && Lowest(h, origin) == Start(s, origin);
    assert Covered(h, origin, Start(s, origin)) by {
      assert Covers(s, origin, Start(s, origin));
    }
    var t :| t in h' && Covers(t, origin, Start(s, origin));
  }

  lemma {:induction false} MidRunsAgree(events: seq<Event>, events': seq<Event>, origin: u32, S: bytes)
    requires MidRun(events, origin, S) && MidRun(events', origin, S) && |S| < HALF
    requires Payloads(events) != [] && Payloads(events') != []
    requires forall k :: Covered(Payloads(events), origin, k) <==> Covered(Payloads(events'), origin, k)
    ensures Run(INITIAL, events).buffer == Run(INITIAL, events').buffer
    ensures Run(INITIAL, events).base == Run(INITIAL, events').base
    ensures Run(INITIAL, events).next == Run(INITIAL, events').next
  {
    hide Offset, Wrap, Add;
    var h, h' := Payloads(events), Payloads(events');
    MidStreamExact(events, origin, S);
    MidStreamExact(events', origin, S);
    PayloadsNonEmpty(events);
    PayloadsNonEmpty(events');
    LowestByCoverage(h, h', origin);
    LowestByCoverage(h', h, origin);
    var lo := Lowest(h, origin);
    UnbrokenUnique(h, h', origin, lo, lo + |Run(INITIAL, events).buffer|, lo + |Run(INITIAL, events').buffer|);
  }
}
