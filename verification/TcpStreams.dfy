/**
  * What one direction's reassembler computes from segments cut out of one stream `S`.
  *
  * Positions are offsets into `S`; `origin` is the sequence number of position 0. The stream is shorter than
  * 2^31 bytes throughout. `Invariant` ties the state to the interval of `S` held in the buffer and to
  * the history of received segments; the interval is then characterised by that history alone.
  */
module TcpStreams {
  import opened Basics
  import opened SequenceNumbers
  import opened Models
  import opened TcpDirection
  import StableSort

  // ---------- segments as intervals of the stream ----------

  function Start(s: Segment, origin: u32): nat {
    Offset(s.seqNum, origin)
  }

  function End(s: Segment, origin: u32): nat {
    Start(s, origin) + |s.data|
  }

  predicate SliceOf(s: Segment, origin: u32, S: bytes) {
    End(s, origin) <= |S| && s.data == S[Start(s, origin)..End(s, origin)]
  }

  predicate Covers(s: Segment, origin: u32, k: int) {
    Start(s, origin) <= k < End(s, origin)
  }

  ghost predicate Covered(h: seq<Segment>, origin: u32, k: int) {
    exists s :: s in h && Covers(s, origin, k)
  }

  ghost predicate AllSlices(h: seq<Segment>, origin: u32, S: bytes) {
    forall s :: s in h ==> s.data != [] && SliceOf(s, origin, S)
  }

  /** The buffer is `S[lo..hi]` where `hi - lo` is its length, and base and next are the two ends. */
  predicate Window(st: State, origin: u32, S: bytes, lo: nat) {
    && lo + |st.buffer| <= |S| < HALF
    && st.base == Some(Wrap(origin + lo))
    && st.next == Some(Wrap(origin + lo + |st.buffer|))
    && st.buffer == S[lo..lo + |st.buffer|]
  }

  lemma {:induction false} TrimmedSlice(s: Segment, origin: u32, S: bytes, k: nat)
    requires SliceOf(s, origin, S) && |S| < HALF && k <= |s.data|
    ensures SliceOf(Trim(s, k), origin, S)
    ensures Start(Trim(s, k), origin) == Start(s, origin) + k
    ensures End(Trim(s, k), origin) == End(s, origin)
  {
    WrapOfOffset(origin, s.seqNum);
    WrapAdd(origin + Start(s, origin), k);
    OffsetOfWrap(origin, Start(s, origin) + k);
  }

  lemma {:induction false} TrimNothing(s: Segment)
    ensures Trim(s, 0) == s
  {
  }

  /** In the window, comparing sequence numbers is comparing positions. */
  lemma {:induction false} DiffIsDistance(s: Segment, origin: u32, S: bytes, x: nat)
    requires SliceOf(s, origin, S) && x <= |S| < HALF
    ensures SeqDiff(s.seqNum, Wrap(origin + x)) == Start(s, origin) - x
    ensures SeqDiff(Wrap(origin + x), s.seqNum) == x - Start(s, origin)
    ensures s.seqNum == Wrap(origin + x) <==> Start(s, origin) == x
  {
    WrapOfOffset(origin, s.seqNum);
    SeqDiffWithinHalf(origin, Start(s, origin), x);
    SeqDiffWithinHalf(origin, x, Start(s, origin));
    OffsetOfWrap(origin, x);
  }

  lemma {:induction false} AppendExtends(st: State, s: Segment, origin: u32, S: bytes, lo: nat)
    requires Window(st, origin, S, lo) && SliceOf(s, origin, S)
    requires Start(s, origin) == lo + |st.buffer|
    ensures Window(Append(st, s), origin, S, lo)
    ensures lo + |Append(st, s).buffer| == End(s, origin)
  {
    WrapAdd(origin + lo + |st.buffer|, |s.data|);
  }

  // ---------- the drain ----------

  /** What one pass guarantees: everything offered is delivered or kept, and only offered bytes are delivered. */
  ghost predicate PassDone(st: State, held: seq<Segment>, p: PassResult, origin: u32, S: bytes, lo: nat)
  {
    var hi, hi' := lo + |st.buffer|, lo + |p.st.buffer|;
    && Window(p.st, origin, S, lo) && hi <= hi' && (p.progress <==> hi < hi')
    && p.st.closed == st.closed
    && (forall s :: s in held ==> End(s, origin) <= hi' || s in p.kept)
    && (forall s :: s in p.kept ==> s in held && hi < Start(s, origin))
    && (forall k :: hi <= k < hi' ==> Covered(held, origin, k))
  }

  lemma {:induction false} CoveredMonotone(h: seq<Segment>, h': seq<Segment>, origin: u32, k: int)
    requires Covered(h, origin, k)
    requires forall s :: s in h ==> s in h'
    ensures Covered(h', origin, k)
  {
    var s :| s in h && Covers(s, origin, k);
    assert s in h';
  }

  lemma {:induction false} OfferCorrect(st: State, front: seq<Segment>, p: PassResult, s: Segment, origin: u32,
      S: bytes, lo: nat)
    requires Window(st, origin, S, lo) && s.data != [] && SliceOf(s, origin, S)
    requires PassDone(st, front, p, origin, S, lo)
    ensures PassDone(st, front + [s], Offer(p, s), origin, S, lo)
  {
    hide Offset, Wrap, SeqDiff;
    var hi := lo + |p.st.buffer|;
    DiffIsDistance(s, origin, S, hi);
    var held, r := front + [s], Offer(p, s);
    if Start(s, origin) <= hi < End(s, origin) {
      TrimmedSlice(s, origin, S, hi - Start(s, origin));
      AppendExtends(p.st, Trim(s, hi - Start(s, origin)), origin, S, lo);
    }
    forall k | lo + |st.buffer| <= k < lo + |r.st.buffer| ensures Covered(held, origin, k) {
      if k < hi {
        CoveredMonotone(front, held, origin, k);
      } else {
        assert s in held && Covers(s, origin, k);
      }
    }
  }

  lemma {:induction false} PassCorrect(st: State, held: seq<Segment>, origin: u32, S: bytes, lo: nat)
    requires Window(st, origin, S, lo) && AllSlices(held, origin, S)
    ensures PassDone(st, held, Pass(st, held), origin, S, lo)
  {
    if held != [] {
      var front, s := held[..|held| - 1], held[|held| - 1];
      assert held == front + [s];
      PassCorrect(st, front, origin, S, lo);
      var p := Pass(st, front);
      OfferCorrect(st, front, p, s, origin, S, lo);
    }
  }

  /** The fixpoint: nothing that reaches the window is left behind, and nothing undelivered is lost. */
  ghost predicate DrainDone(st: State, r: State, origin: u32, S: bytes, lo: nat) {
    var hi, hi' := lo + |st.buffer|, lo + |r.buffer|;
    && Window(r, origin, S, lo) && hi <= hi' && r.closed == st.closed
    && (forall s :: s in st.outOfOrder ==> End(s, origin) <= hi' || s in r.outOfOrder)
    && (forall s :: s in r.outOfOrder ==> s in st.outOfOrder && hi' < Start(s, origin))
    && (forall k :: hi <= k < hi' ==> Covered(st.outOfOrder, origin, k))
  }

  lemma {:induction false} DrainCorrect(st: State, origin: u32, S: bytes, lo: nat)
    requires Window(st, origin, S, lo) && AllSlices(st.outOfOrder, origin, S)
    ensures DrainDone(st, Drain(st), origin, S, lo)
    decreases |st.outOfOrder|
  {
    if st.outOfOrder != [] {
      PassCorrect(st, st.outOfOrder, origin, S, lo);
      var p := Pass(st, st.outOfOrder);
      var st' := p.st.(outOfOrder := p.kept);
      if p.progress {
        DrainCorrect(st', origin, S, lo);
        var r := Drain(st');
        forall k | lo + |st.buffer| <= k < lo + |r.buffer| ensures Covered(st.outOfOrder, origin, k) {
          if k >= lo + |st'.buffer| {
            CoveredMonotone(st'.outOfOrder, st.outOfOrder, origin, k);
          }
        }
      }
    }
  }

  lemma {:induction false} DrainNoShorter(a: State, a': State, b: State, b': State, origin: u32, S: bytes, lo: nat)
    requires DrainDone(a, a', origin, S, lo) && DrainDone(b, b', origin, S, lo)
    requires a.buffer == b.buffer
    requires forall s :: s in a.outOfOrder <==> s in b.outOfOrder
    ensures |a'.buffer| <= |b'.buffer|
  {
    hide Offset, Wrap, SeqDiff, Drain;
    // the first position that b' lacks is the interesting instance
    ghost var missing := Covered(a.outOfOrder, origin, lo + |b'.buffer|);
  }

  /** Reordering the held list, as the sort by raw sequence number does, never changes what is delivered. */
  lemma {:induction false} DrainIgnoresOrder(a: State, b: State, origin: u32, S: bytes, lo: nat)
    requires Window(a, origin, S, lo) && Window(b, origin, S, lo) && a.buffer == b.buffer
    requires AllSlices(a.outOfOrder, origin, S)
    requires forall s :: s in a.outOfOrder <==> s in b.outOfOrder
    ensures Drain(a).buffer == Drain(b).buffer && Drain(a).next == Drain(b).next
    ensures forall s :: s in Drain(a).outOfOrder <==> s in Drain(b).outOfOrder
  {
    hide Offset, Wrap, SeqDiff, Drain;
    DrainCorrect(a, origin, S, lo);
    DrainCorrect(b, origin, S, lo);
    DrainNoShorter(a, Drain(a), b, Drain(b), origin, S, lo);
    DrainNoShorter(b, Drain(b), a, Drain(a), origin, S, lo);
  }

  // ---------- the invariant over a history ----------

  /** `h` is every payload received so far; the buffer holds `S[lo..hi]`. */
  ghost predicate Invariant(st: State, origin: u32, S: bytes, lo: nat, h: seq<Segment>) {
    var hi := lo + |st.buffer|;
    && Window(st, origin, S, lo)
    && AllSlices(h, origin, S)
    && (forall s :: s in st.outOfOrder ==> s in h && hi < Start(s, origin))
    && (forall s :: s in h ==> lo <= Start(s, origin) && (End(s, origin) <= hi || s in st.outOfOrder))
    && (forall k :: lo <= k < hi ==> Covered(h, origin, k))
  }

  /** Restores the invariant once the list has been drained, from what holds just before. */
  lemma {:induction false} AfterDrain(st: State, origin: u32, S: bytes, lo: nat, h: seq<Segment>)
    requires Window(st, origin, S, lo) && AllSlices(h, origin, S)
    requires forall s :: s in st.outOfOrder ==> s in h
    requires forall s :: s in h ==>
                           lo <= Start(s, origin) && (End(s, origin) <= lo + |st.buffer| || s in st.outOfOrder)
    requires forall k :: lo <= k < lo + |st.buffer| ==> Covered(h, origin, k)
    ensures Invariant(Drain(st), origin, S, lo, h)
  {
    hide Offset, Wrap, SeqDiff, Drain;
    DrainCorrect(st, origin, S, lo);
    forall k | lo <= k < lo + |Drain(st).buffer| ensures Covered(h, origin, k) {
      if k >= lo + |st.buffer| {
        CoveredMonotone(st.outOfOrder, h, origin, k);
      }
    }
  }

  lemma {:induction false} PlaceKeepsInvariant(st: State, s: Segment, origin: u32, S: bytes, lo: nat, h: seq<Segment>)
    requires Invariant(st, origin, S, lo, h)
    requires s.data != [] && SliceOf(s, origin, S) && lo <= Start(s, origin)
    ensures Invariant(Place(st, s), origin, S, lo, h + [s])
  {
    hide Offset, Wrap, SeqDiff, Drain, StableSort.Sort;
    var h', hi := h + [s], lo + |st.buffer|;
    DiffIsDistance(s, origin, S, hi);
    forall k | lo <= k < hi ensures Covered(h', origin, k) {
      CoveredMonotone(h, h', origin, k);
    }
    if hi < Start(s, origin) {
      StableSort.SortMembers(st.outOfOrder + [s], RawSeq);
      AfterDrain(st.(outOfOrder := StableSort.Sort(st.outOfOrder + [s], RawSeq)), origin, S, lo, h');
    } else if hi < End(s, origin) {
      var t := Trim(s, hi - Start(s, origin));
      TrimmedSlice(s, origin, S, hi - Start(s, origin));
      AppendExtends(st, t, origin, S, lo);
      var st' := Append(st, t);
      forall k | lo <= k < End(s, origin) ensures Covered(h', origin, k) {
        if k >= hi {
          assert s in h' && Covers(s, origin, k);
        }
      }
      AfterDrain(st', origin, S, lo, h');
      var k := hi - Start(s, origin);
      assert t == s.(seqNum := Wrap(s.seqNum + k), data := SliceFrom(s.data, k));
      if Start(s, origin) == hi {
        TrimNothing(s);
      }
    }
  }

  /** Cutting a delivered segment into pieces that leave no gap is the same history. */
  lemma {:induction false} Regroup(st: State, s: Segment, pieces: seq<Segment>, origin: u32, S: bytes, lo: nat,
      h: seq<Segment>)
    requires Invariant(st, origin, S, lo, h + pieces)
    requires s.data != [] && SliceOf(s, origin, S) && Start(s, origin) == lo
    requires 1 <= |pieces| <= 2 && Start(pieces[0], origin) == lo && End(pieces[|pieces| - 1], origin) == End(s, origin)
    requires |pieces| == 2 ==> Start(pieces[1], origin) == End(pieces[0], origin)
    ensures Invariant(st, origin, S, lo, h + [s])
  {
    hide Offset, Wrap;
    var all, hi := h + pieces, lo + |st.buffer|;
    assert pieces[0] in all && pieces[|pieces| - 1] in all;
    assert End(s, origin) <= hi;
    forall p | p in pieces ensures p !in st.outOfOrder {}
    forall k | lo <= k < hi ensures Covered(h + [s], origin, k) {
      assert Covered(all, origin, k);
      var p :| p in all && Covers(p, origin, k);
      if p in h {
        assert p in h + [s];
      } else {
        assert s in h + [s] && Covers(s, origin, k);
      }
    }
  }

  // ---------- one payload ----------

  ghost predicate SameButClosed(a: State, b: State) {
    a == b.(closed := a.closed)
  }

  lemma {:induction false} AddPlaces(st: State, s: Segment, flags: Flags)
    requires st.Valid() && st.base.Some? && !flags.syn && s.data != [] && !StartsBeforeBase(st, s)
    ensures SameButClosed(Add(st, s, flags), Place(Begin(st, s.seqNum, flags), s))
  {
    hide SeqDiff, Wrap, Place, Prepend;
  }

  lemma {:induction false} AddPrepends(st: State, s: Segment, flags: Flags)
    requires st.Valid() && !flags.syn && s.data != [] && StartsBeforeBase(st, s)
    ensures var st' := Prepend(Begin(st, s.seqNum, flags), s);
            var k := PrependLength(st, s);
            Add(st, s, flags) == if k < |s.data| then Add(st', Trim(s, k), flags) else st'
  {
    hide SeqDiff, Wrap, Place;
  }

  lemma {:induction false} InvariantIgnoresClosed(a: State, b: State, origin: u32, S: bytes, lo: nat, h: seq<Segment>)
    requires SameButClosed(a, b) && Invariant(b, origin, S, lo, h)
    ensures Invariant(a, origin, S, lo, h)
  {
    hide Offset, Wrap;
  }

  lemma {:induction false} AddInOrder(st: State, s: Segment, flags: Flags, origin: u32, S: bytes, lo: nat,
      h: seq<Segment>)
    requires st.Valid() && Invariant(st, origin, S, lo, h)
    requires !flags.syn && s.data != [] && SliceOf(s, origin, S) && lo <= Start(s, origin)
    ensures Invariant(Add(st, s, flags), origin, S, lo, h + [s])
  {
    assert st.base == Some(Wrap(origin + lo)) && lo <= |S| < HALF;
    hide Offset, Wrap, SeqDiff, Drain, Place, Add, Invariant;
    DiffIsDistance(s, origin, S, lo);
    var begun := Begin(st, s.seqNum, flags);
    InvariantIgnoresClosed(begun, st, origin, S, lo, h);
    AddPlaces(st, s, flags);
    PlaceKeepsInvariant(begun, s, origin, S, lo, h);
    InvariantIgnoresClosed(Add(st, s, flags), Place(begun, s), origin, S, lo, h + [s]);
  }

  lemma {:induction false} PrependKeepsInvariant(st: State, s: Segment, origin: u32, S: bytes, lo: nat, h: seq<Segment>)
    requires Invariant(st, origin, S, lo, h) && SliceOf(s, origin, S)
    requires StartsBeforeBase(st, s) && Start(s, origin) + PrependLength(st, s) == lo
    ensures Invariant(Prepend(st, s), origin, S, Start(s, origin), h + [s.(data := s.data[..PrependLength(st, s)])])
  {
    hide Offset, Wrap, SeqDiff;
    var k, lo', hi := PrependLength(st, s), Start(s, origin), lo + |st.buffer|;
    var head := s.(data := s.data[..k]);
    var h' := h + [head];
    WrapOfOffset(origin, s.seqNum);
    assert S[lo'..lo] + S[lo..hi] == S[lo'..hi];
    assert head.data == S[lo'..lo];
    forall j | lo' <= j < hi ensures Covered(h', origin, j) {
      if j < lo {
        assert head in h' && Covers(head, origin, j);
      } else {
        CoveredMonotone(h, h', origin, j);
      }
    }
  }

  /** One payload: the window and the history move together, provided it reaches the base if it starts before. */
  lemma {:induction false} AddKeepsInvariant(
    st: State, s: Segment, flags: Flags, origin: u32, S: bytes, lo: nat, h: seq<Segment>)
    requires st.Valid() && Invariant(st, origin, S, lo, h)
    requires !flags.syn && s.data != [] && SliceOf(s, origin, S) && lo <= End(s, origin)
    ensures Invariant(Add(st, s, flags), origin, S, Min(lo, Start(s, origin)), h + [s])
  {
    assert st.base == Some(Wrap(origin + lo)) && lo <= |S| < HALF;
    hide Offset, Wrap, SeqDiff, Drain, Place, Add, Invariant;
    DiffIsDistance(s, origin, S, lo);
    var begun := Begin(st, s.seqNum, flags);
    InvariantIgnoresClosed(begun, st, origin, S, lo, h);
    if lo <= Start(s, origin) {
      AddInOrder(st, s, flags, origin, S, lo, h);
    } else {
      var st' := Prepend(begun, s);
      var k := lo - Start(s, origin);
      var head, rest := s.(data := s.data[..k]), Trim(s, k);
      assert PrependLength(st, s) == k;
      AddPrepends(st, s, flags);
      PrependKeepsInvariant(begun, s, origin, S, lo, h);
      if |s.data| > k {
        TrimmedSlice(s, origin, S, k);
        AddInOrder(st', rest, flags, origin, S, Start(s, origin), h + [head]);
        assert h + [head] + [rest] == h + [head, rest];
        Regroup(Add(st', rest, flags), s, [head, rest], origin, S, Start(s, origin), h);
      } else {
        Regroup(st', s, [head], origin, S, Start(s, origin), h);
      }
    }
  }
}
