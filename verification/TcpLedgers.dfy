/** The packet ledger of a whole capture, over all flows and up to its end. */
module TcpLedgers {
  import opened Basics
  import opened MapSums
  import opened Models
  import opened TcpConnections
  import opened TcpCaptures

  function AcceptedCount(ps: seq<Packet>): nat {
    if ps == [] then 0 else AcceptedCount(ps[..|ps| - 1]) + if Accepted(ps[|ps| - 1]) then 1 else 0
  }

  /** How many packets each live tracker has counted. */
  function Counts(conns: Table): map<FlowKey, int> {
    map k | k in conns :: conns[k].packetsCount
  }

  lemma {:induction false} FedCountsOne(conns: Table, p: Packet)
    requires ValidTable(conns) && Accepted(p)
    ensures Fed(conns, p).packetsCount == 1 + if Key(p) in conns then conns[Key(p)].packetsCount else 0
  {
  }

  lemma {:induction false} ProcessCounts(conns: Table, p: Packet)
    requires ValidTable(conns)
    ensures var (conns', s) := Process(conns, p);
            Sum(Counts(conns')) + (if s.Some? then s.value.packetsCount else 0) ==
            Sum(Counts(conns)) + if Accepted(p) then 1 else 0
  {
    hide Feed, NewTracker, Finished, Key, ClientFlow, Accepted, Sum;
    if Accepted(p) {
      FedCountsOne(conns, p);
      hide Fed;
      var key, t := Key(p), Fed(conns, p);
      var counts := Counts(conns);
      SumUpdate(counts, key, t.packetsCount);
      if Finished(t) {
        SumSplits(counts[key := t.packetsCount], key);
        assert Counts(conns - {key}) == counts[key := t.packetsCount] - {key};
      } else {
        assert Counts(conns[key := t]) == counts[key := t.packetsCount];
      }
    }
  }

  lemma {:induction false} PacketsInAppend(streams: seq<TcpStream>, more: seq<TcpStream>)
    ensures PacketsIn(streams + more) == PacketsIn(streams) + PacketsIn(more)
  {
    if more == [] {
      ConcatNothing(streams);
    } else {
      PacketsInAppend(streams, more[..|more| - 1]);
      assert (streams + more)[..|streams + more| - 1] == streams + more[..|more| - 1];
    }
  }

  /** In every run the accepted packets are those of the emitted streams and those of the live trackers. */
  lemma {:induction false} TotalLedger(ps: seq<Packet>)
    ensures var (conns, emitted) := RunTable(ps);
            AcceptedCount(ps) == PacketsIn(emitted) + Sum(Counts(conns))
  {
    if ps == [] {
      assert Counts(map[]) == map[];
      assert Sum<FlowKey>(map[]) == 0;
    } else {
      var front, p := ps[..|ps| - 1], ps[|ps| - 1];
      TotalLedger(front);
      ProcessCounts(RunTable(front).0, p);
      hide Process, Sum, Counts, Accepted;
      var s := Process(RunTable(front).0, p).1;
      if s.Some? {
        PacketsInAppend(RunTable(front).1, [s.value]);
        assert [s.value][..0] == [];
        assert PacketsIn([s.value]) == s.value.packetsCount;
      }
    }
  }

  lemma {:induction false} FinalStreamsCount(conns: Table, order: seq<FlowKey>)
    requires forall k :: k in order ==> k in conns
    ensures PacketsIn(FinalStreams(conns, order)) == SumAlong(Counts(conns), order)
  {
    if order != [] {
      var front, key := order[..|order| - 1], order[|order| - 1];
      assert key in order;
      FinalStreamsCount(conns, front);
      PacketsInAppend(FinalStreams(conns, front), [BuildStream(conns[key])]);
      assert [BuildStream(conns[key])][..0] == [];
      assert PacketsIn([BuildStream(conns[key])]) == conns[key].packetsCount;
    }
  }

  /** At the end of the capture every accepted packet is counted in exactly one stream. */
  lemma {:induction false} CaptureLedger(ps: seq<Packet>, order: seq<FlowKey>)
    requires Distinct(order) && forall k :: k in order <==> k in RunTable(ps).0
    ensures PacketsIn(RunTable(ps).1 + FinalStreams(RunTable(ps).0, order)) == AcceptedCount(ps)
  {
    hide RunTable, PacketsIn, FinalStreams, Sum, SumAlong;
    var (conns, emitted) := RunTable(ps);
    TotalLedger(ps);
    FinalStreamsCount(conns, order);
    SumByOrder(Counts(conns), order);
    PacketsInAppend(emitted, FinalStreams(conns, order));
  }
}
