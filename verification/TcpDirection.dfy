/**
  * One direction of a TCP connection: segments in any order in, one byte string out.
  * The class updates its fields as the program does; `State` is the value its fields make up, and the
  * functions on `State` specify the methods.
  */
module TcpDirection {
  import opened Basics
  import opened SequenceNumbers
  import opened Models
  import StableSort

  /** A received segment, and also the record of a piece that has been placed in the stream. */
  datatype Segment = Segment(seqNum: u32, data: bytes, timestamp: real, frame: int)

  datatype State = State(
    base: Option<u32>,
    next: Option<u32>,
    buffer: bytes,
    segments: seq<Segment>,
    outOfOrder: seq<Segment>,
    closed: bool)
  {
    predicate Valid() {
      base.Some? <==> next.Some?
    }
  }

  const INITIAL := State(None, None, [], [], [], false)

  function RawSeq(s: Segment): int {
    s.seqNum
  }

  function Trim(s: Segment, k: nat): Segment
    requires k <= |s.data|
  {
    s.(seqNum := Wrap(s.seqNum + k), data := s.data[k..])
  }

  function Append(st: State, s: Segment): State
    requires st.next.Some?
  {
    st.(buffer := st.buffer + s.data,
        segments := st.segments + [s],
        next := Some(Wrap(st.next.value + |s.data|)))
  }

  // ---------- draining the out-of-order list ----------

  datatype PassResult = PassResult(st: State, kept: seq<Segment>, progress: bool)

  /** What one pass over the list does with one held segment. */
  function Offer(p: PassResult, s: Segment): (r: PassResult)
    requires p.st.next.Some?
    ensures r.st.next.Some?
  {
    var diff := SeqDiff(s.seqNum, p.st.next.value);
    if diff > 0 then p.(kept := p.kept + [s])
    else if -diff < |s.data| then p.(st := Append(p.st, Trim(s, -diff)), progress := true)
    else p
  }

  function Pass(st: State, held: seq<Segment>): (r: PassResult)
    requires st.next.Some?
    ensures r.st.next.Some? && r.st.base == st.base
    ensures |r.kept| <= |held|
    ensures r.progress ==> |r.kept| < |held|
  {
    if held == [] then PassResult(st, [], false)
    else Offer(Pass(st, held[..|held| - 1]), held[|held| - 1])
  }

  function Drain(st: State): (r: State)
    requires st.next.Some?
    ensures r.next.Some? && r.base == st.base
    decreases |st.outOfOrder|
  {
    if st.outOfOrder == [] then st
    else
      var p := Pass(st, st.outOfOrder);
      var st' := p.st.(outOfOrder := p.kept);
      if p.progress then Drain(st') else st'
  }

  // ---------- adding a segment ----------

  /** The effect of the RST and SYN flags, before the payload is looked at. */
  function Begin(st: State, seqNum: u32, flags: Flags): State {
    var s0 := if flags.rst then st.(closed := true) else st;
    if flags.syn then s0.(base := Some(Wrap(seqNum + 1)), next := Some(Wrap(seqNum + 1))) else s0
  }

  /** A segment that does not start before the base: append it, trim and append it, or hold it back. */
  function Place(st: State, s: Segment): (r: State)
    requires st.Valid() && st.next.Some?
    ensures r.Valid() && r.next.Some?
  {
    var expected := st.next.value;
    if s.seqNum == expected then Drain(Append(st, s))
    else if SeqDiff(s.seqNum, expected) < 0 then
      var overlap := SeqDiff(expected, s.seqNum);
      if overlap < |s.data| then
        Drain(Append(st, s.(seqNum := Wrap(s.seqNum + overlap), data := SliceFrom(s.data, overlap))))
      else st
    else Drain(st.(outOfOrder := StableSort.Sort(st.outOfOrder + [s], RawSeq)))
  }

  predicate StartsBeforeBase(st: State, s: Segment) {
    st.base.Some? && SeqDiff(s.seqNum, st.base.value) < 0 < SeqDiff(st.base.value, s.seqNum)
  }

  /** How much of a segment that starts before the base goes in front of the buffer. */
  function PrependLength(st: State, s: Segment): (k: nat)
    requires StartsBeforeBase(st, s)
    ensures k <= |s.data| && (|s.data| > 0 ==> k > 0)
  {
    Min(SeqDiff(st.base.value, s.seqNum), |s.data|)
  }

  function Prepend(st: State, s: Segment): State
    requires StartsBeforeBase(st, s)
  {
    var head := s.(data := s.data[..PrependLength(st, s)]);
    st.(buffer := head.data + st.buffer, base := Some(s.seqNum), segments := [head] + st.segments)
  }

  function Add(st: State, s: Segment, flags: Flags): (r: State)
    requires st.Valid()
    ensures r.Valid()
    decreases |s.data|
  {
    var begun := Begin(st, s.seqNum, flags);
    if s.data == [] then
      if flags.fin && !flags.syn then begun.(closed := true) else begun
    else if begun.base.None? then
      begun.(base := Some(s.seqNum),
              next := Some(Wrap(s.seqNum + |s.data|)),
              buffer := begun.buffer + s.data,
              segments := begun.segments + [s])
    else if StartsBeforeBase(begun, s) then
      var k := PrependLength(begun, s);
      var prepended := Prepend(begun, s);
      if |s.data| > k then Add(prepended, Trim(s, k), flags) else prepended
    else
      var placed := Place(begun, s);
      if flags.fin then placed.(closed := true) else placed
  }

  function JoinData(ss: seq<Segment>): bytes {
    if ss == [] then [] else JoinData(ss[..|ss| - 1]) + ss[|ss| - 1].data
  }

  /** What the stream consumer is handed: the buffer, or every held piece when nothing has been placed. */
  function Data(st: State): bytes {
    if st.outOfOrder != [] && |st.buffer| == 0 then
      JoinData(StableSort.Sort(st.outOfOrder, RawSeq))
    else st.buffer
  }

  // ---------- the class ----------

  class DirectionalReassembler {
    var baseSeq: Option<u32>
    var nextExpectedSeq: Option<u32>
    var dataBuffer: bytes
    var segments: seq<Segment>
    var outOfOrder: seq<Segment>
    var isClosed: bool

    ghost function Value(): State
      reads this
    {
      State(baseSeq, nextExpectedSeq, dataBuffer, segments, outOfOrder, isClosed)
    }

    constructor ()
      ensures Value() == INITIAL
    {
      baseSeq, nextExpectedSeq := None, None;
      dataBuffer, segments, outOfOrder := [], [], [];
      isClosed := false;
    }

    method AppendData(s: Segment)
      requires nextExpectedSeq.Some?
      modifies this
      ensures Value() == Append(old(Value()), s)
    {
      dataBuffer := dataBuffer + s.data;
      segments := segments + [s];
      nextExpectedSeq := Some(Wrap(nextExpectedSeq.value + |s.data|));
    }

    method ProcessOutOfOrder()
      requires nextExpectedSeq.Some?
      modifies this
      ensures Value() == Drain(old(Value()))
    {
      hide Wrap, SeqDiff;
      var progress := true;
      while progress && outOfOrder != []
        invariant nextExpectedSeq.Some?
        invariant if progress then Drain(Value()) == Drain(old(Value())) else Value() == Drain(old(Value()))
        decreases progress, |outOfOrder|
      {
        progress := false;
        var remaining := [];
        ghost var start := Value();
        for i := 0 to |outOfOrder|
          invariant nextExpectedSeq.Some? && outOfOrder == start.outOfOrder
          invariant PassResult(Value(), remaining, progress) == Pass(start, outOfOrder[..i])
        {
          var s := outOfOrder[i];
          ghost var before := PassResult(Value(), remaining, progress);
          assert outOfOrder[..i + 1][..i] == outOfOrder[..i];
          var diff := SeqDiff(s.seqNum, nextExpectedSeq.value);
          if diff <= 0 {
            var overlap := -diff;
            if overlap < |s.data| {
              AppendData(Trim(s, overlap));
              progress := true;
              assert PassResult(Value(), remaining, progress) == Offer(before, s);
            } else {
              assert before == Offer(before, s);
            }
          } else {
            remaining := remaining + [s];
            assert PassResult(Value(), remaining, progress) == Offer(before, s);
          }
        }
        assert outOfOrder[..|outOfOrder|] == outOfOrder;
        outOfOrder := remaining;
      }
    }

    method AddSegment(s: Segment, flags: Flags)
      requires Value().Valid()
      modifies this
      ensures Value() == Add(old(Value()), s, flags)
      decreases |s.data|
    {
      hide Wrap, SeqDiff, Drain, StableSort.Sort, SliceFrom;
      if flags.rst {
        isClosed := true;
      }
      if flags.syn {
        baseSeq := Some(Wrap(s.seqNum + 1));
        nextExpectedSeq := baseSeq;
        if s.data == [] {
          return;
        }
      }
      if s.data == [] {
        if flags.fin {
          isClosed := true;
        }
        return;
      }
      ghost var begun := Value();
      assert begun == Begin(old(Value()), s.seqNum, flags);
      if baseSeq.None? {
        baseSeq := Some(s.seqNum);
        nextExpectedSeq := Some(Wrap(s.seqNum + |s.data|));
        dataBuffer := dataBuffer + s.data;
        segments := segments + [s];
        return;
      }
      if SeqDiff(s.seqNum, baseSeq.value) < 0 {
        var diffToBase := SeqDiff(baseSeq.value, s.seqNum);
        if diffToBase > 0 {
          var prependLen := Min(diffToBase, |s.data|);
          var head := s.(data := s.data[..prependLen]);
          dataBuffer := head.data + dataBuffer;
          baseSeq := Some(s.seqNum);
          segments := [head] + segments;
          assert Value() == Prepend(begun, s);
          if |s.data| > prependLen {
            AddSegment(Trim(s, prependLen), flags);
          }
          return;
        }
      }
      assert !StartsBeforeBase(begun, s);
      var expected := nextExpectedSeq.value;
      if s.seqNum == expected {
        AppendData(s);
        ProcessOutOfOrder();
      } else if SeqDiff(s.seqNum, expected) < 0 {
        var overlap := SeqDiff(expected, s.seqNum);
        if overlap < |s.data| {
          AppendData(s.(seqNum := Wrap(s.seqNum + overlap), data := SliceFrom(s.data, overlap)));
          ProcessOutOfOrder();
        }
      } else {
        outOfOrder := StableSort.Sort(outOfOrder + [s], RawSeq);
        ProcessOutOfOrder();
      }
      assert Value() == Place(begun, s);
      if flags.fin {
        isClosed := true;
      }
    }

    method GetData() returns (r: bytes)
      ensures r == Data(Value())
    {
      if outOfOrder != [] && |dataBuffer| == 0 {
        var sortedFrags := StableSort.Sort(outOfOrder, RawSeq);
        r := [];
        for i := 0 to |sortedFrags|
          invariant r == JoinData(sortedFrags[..i])
        {
          assert sortedFrags[..i + 1][..i] == sortedFrags[..i];
          r := r + sortedFrags[i].data;
        }
        assert sortedFrags[..|sortedFrags|] == sortedFrags;
        return;
      }
      r := dataBuffer;
    }
  }
}
