/**
  * Whole captures: packets of many connections, interleaved. The table and the emitted streams are characterised
  * flow by flow: the packets of a flow are cut into lives, every life is replayed by one tracker of its own,
  * and no packet of another flow has any influence.
  */
module TcpCaptures {
  import opened Basics
  import opened Models
  import opened TcpDirection
  import opened TcpRuns
  import opened TcpConnections

  /** The table and all streams emitted so far, after the packets of a capture. */
  function RunTable(ps: seq<Packet>): (r: (Table, seq<TcpStream>))
    ensures ValidTable(r.0)
  {
    if ps == [] then (map[], [])
    else
      var before := RunTable(ps[..|ps| - 1]);
      var (conns, emitted) := Process(before.0, ps[|ps| - 1]);
      if emitted.Some? then (conns, before.1 + [emitted.value]) else (conns, before.1)
  }

  predicate AllOf(ps: seq<Packet>, key: FlowKey) {
    forall i :: 0 <= i < |ps| ==> Accepted(ps[i]) && Key(ps[i]) == key
  }

  /** The packets of one flow, both directions. */
  function Select(ps: seq<Packet>, key: FlowKey): (r: seq<Packet>)
    ensures AllOf(r, key)
  {
    if ps == [] then []
    else
      var front, p := Select(ps[..|ps| - 1], key), ps[|ps| - 1];
      if Accepted(p) && Key(p) == key then front + [p] else front
  }

  predicate AllLogs(logs: seq<seq<Packet>>, key: FlowKey) {
    forall i :: 0 <= i < |logs| ==> logs[i] != [] && AllOf(logs[i], key)
  }

  function StreamsOf(streams: seq<TcpStream>, key: FlowKey): seq<TcpStream> {
    if streams == [] then []
    else
      var front, s := StreamsOf(streams[..|streams| - 1], key), streams[|streams| - 1];
      if s.flow.Normalized() == key then front + [s] else front
  }

  // ---------- one tracker's life ----------

  /** What a tracker created for the first packet becomes after all of them. */
  function Replay(log: seq<Packet>, key: FlowKey): (t: Tracker)
    requires log != [] && AllOf(log, key)
    ensures t.Valid()
  {
    var last := log[|log| - 1];
    if |log| == 1 then Feed(NewTracker(ClientFlow(last), last.timestamp), last)
    else Feed(Replay(log[..|log| - 1], key), last)
  }

  datatype Lives = Lives(done: seq<seq<Packet>>, current: seq<Packet>)

  /** Cuts the packets of one flow wherever the tracker replaying them is finished. */
  function Split(ps: seq<Packet>, key: FlowKey): (r: Lives)
    requires AllOf(ps, key)
    ensures AllOf(r.current, key)
    ensures AllLogs(r.done, key)
  {
    if ps == [] then Lives([], [])
    else
      var before := Split(ps[..|ps| - 1], key);
      var log := before.current + [ps[|ps| - 1]];
      if Finished(Replay(log, key)) then Lives(before.done + [log], [])
      else Lives(before.done, log)
  }

  function Join(logs: seq<seq<Packet>>): seq<Packet> {
    if logs == [] then [] else Join(logs[..|logs| - 1]) + logs[|logs| - 1]
  }

  function StreamsFor(logs: seq<seq<Packet>>, key: FlowKey): (r: seq<TcpStream>)
    requires AllLogs(logs, key)
    ensures |r| == |logs|
    ensures forall i :: 0 <= i < |logs| ==> r[i] == BuildStream(Replay(logs[i], key))
  {
    if logs == [] then []
    else StreamsFor(logs[..|logs| - 1], key) + [BuildStream(Replay(logs[|logs| - 1], key))]
  }

  lemma {:induction false} JoinAppend(logs: seq<seq<Packet>>, log: seq<Packet>)
    ensures Join(logs + [log]) == Join(logs) + log
  {
    assert (logs + [log])[..|logs|] == logs;
  }

  function Extend(lives: Lives, p: Packet, key: FlowKey): (r: Lives)
    requires AllOf(lives.current, key) && Accepted(p) && Key(p) == key
    requires AllLogs(lives.done, key)
    ensures AllOf(r.current, key)
    ensures AllLogs(r.done, key)
  {
    var log := lives.current + [p];
    if Finished(Replay(log, key)) then Lives(lives.done + [log], []) else Lives(lives.done, log)
  }

  lemma {:induction false} SplitUnfolds(ps: seq<Packet>, p: Packet, key: FlowKey)
    requires AllOf(ps, key) && Accepted(p) && Key(p) == key
    ensures Split(ps + [p], key) == Extend(Split(ps, key), p, key)
  {
    hide Replay, Finished;
    assert (ps + [p])[..|ps|] == ps;
  }

  /** Every packet of the flow is in exactly one life, in order. */
  lemma {:induction false} LivesPartitionPackets(ps: seq<Packet>, key: FlowKey)
    requires AllOf(ps, key)
    ensures Join(Split(ps, key).done) + Split(ps, key).current == ps
  {
    if ps != [] {
      var front, p := ps[..|ps| - 1], ps[|ps| - 1];
      assert ps == front + [p] && AllOf(front, key) && Accepted(p) && Key(p) == key;
      hide Replay, Finished, Split, Join, AllOf, AllLogs, Accepted, Key;
      LivesPartitionPackets(front, key);
      SplitUnfolds(front, p, key);
      var before := Split(front, key);
      JoinAppend(before.done, before.current + [p]);
      ConcatAssociative(Join(before.done), before.current, [p]);
      ConcatNothing(Join(before.done + [before.current + [p]]));
    }
  }

  lemma {:induction false} ReplayKeepsFlow(log: seq<Packet>, key: FlowKey)
    requires log != [] && AllOf(log, key)
    ensures Replay(log, key).clientFlow == ClientFlow(log[0])
    ensures Replay(log, key).clientFlow.Normalized() == key
    ensures Replay(log, key).packetsCount == |log|
  {
    hide FlowKey.Normalized, Add;
    NormalizedIsDirectionNeutral(log[0].Flow().value);
    if |log| > 1 {
      ReplayKeepsFlow(log[..|log| - 1], key);
    }
  }

  // ---------- the table, flow by flow ----------

  /** Each key of the table is the normal form of its tracker's flow, whose state has seen at least one packet. */
  predicate Keyed(conns: Table) {
    forall k :: k in conns ==> conns[k].clientFlow.Normalized() == k && conns[k].packetsCount > 0
  }

  lemma {:induction false} FedKeepsFlow(conns: Table, p: Packet)
    requires ValidTable(conns) && Keyed(conns) && Accepted(p)
    ensures Fed(conns, p).clientFlow.Normalized() == Key(p) && Fed(conns, p).packetsCount > 0
  {
    NormalizedIsDirectionNeutral(p.Flow().value);
    hide FlowKey.Normalized, Add;
  }

  lemma {:induction false} TableIsKeyed(ps: seq<Packet>)
    ensures Keyed(RunTable(ps).0)
  {
    if ps != [] {
      var front, p := ps[..|ps| - 1], ps[|ps| - 1];
      TableIsKeyed(front);
      hide FlowKey.Normalized, Key, ClientFlow, Feed, Finished, BuildStream;
      if Accepted(p) {
        FedKeepsFlow(RunTable(front).0, p);
      }
    }
  }

  ghost predicate TableMatches(conns: Table, emitted: seq<TcpStream>, lives: Lives, key: FlowKey)
    requires AllOf(lives.current, key)
    requires AllLogs(lives.done, key)
  {
    && (key in conns <==> lives.current != [])
    && (key in conns ==> conns[key] == Replay(lives.current, key))
    && StreamsOf(emitted, key) == StreamsFor(lives.done, key)
  }

  lemma {:induction false} ReplayExtends(log: seq<Packet>, p: Packet, key: FlowKey)
    requires AllOf(log, key) && Accepted(p) && Key(p) == key
    ensures Replay(log + [p], key) ==
            Feed(if log == [] then NewTracker(ClientFlow(p), p.timestamp) else Replay(log, key), p)
  {
    hide Feed;
    assert (log + [p])[..|log|] == log;
  }

  lemma {:induction false} StepMatches(conns: Table, emitted: seq<TcpStream>, lives: Lives, p: Packet, key: FlowKey)
    requires ValidTable(conns) && Keyed(conns) && AllOf(lives.current, key)
    requires AllLogs(lives.done, key)
    requires TableMatches(conns, emitted, lives, key)
    ensures var (conns', s) := Process(conns, p);
            TableMatches(conns', if s.Some? then emitted + [s.value] else emitted,
                         if Accepted(p) && Key(p) == key then Extend(lives, p, key) else lives, key)
  {
    hide Replay, Data, Feed, Key, ClientFlow, Finished, FlowKey.Normalized, Process;
    ProcessUnfolds(conns, p);
    if Accepted(p) {
      var t := Fed(conns, p);
      FedKeepsFlow(conns, p);
      var s := BuildStream(t);
      assert (emitted + [s])[..|emitted|] == emitted;
      if Key(p) == key {
        var log := lives.current + [p];
        ReplayExtends(lives.current, p, key);
        assert (lives.done + [log])[..|lives.done|] == lives.done;
      }
    }
  }

  /**
    * Isolation: what the table holds for a flow, and the streams it has emitted for it, are what that flow's own
    * packets determine, whatever else was captured in between.
    */
  lemma {:induction false} TableIsReplay(ps: seq<Packet>, key: FlowKey)
    ensures TableMatches(RunTable(ps).0, RunTable(ps).1, Split(Select(ps, key), key), key)
  {
    if ps != [] {
      TableIsReplay(ps[..|ps| - 1], key);
      var front, p := ps[..|ps| - 1], ps[|ps| - 1];
      TableIsKeyed(front);
      hide Split, Replay, BuildStream, Feed, Key, ClientFlow, Finished, Process, TableMatches, Keyed;
      StepMatches(RunTable(front).0, RunTable(front).1, Split(Select(front, key), key), p, key);
      if Accepted(p) && Key(p) == key {
        SplitUnfolds(Select(front, key), p, key);
      }
    }
  }

  /** Two captures that agree on the packets of a flow agree on its streams and on its tracker. */
  lemma {:induction false} FlowsAreIsolated(ps: seq<Packet>, ps': seq<Packet>, key: FlowKey)
    requires Select(ps, key) == Select(ps', key)
    ensures StreamsOf(RunTable(ps).1, key) == StreamsOf(RunTable(ps').1, key)
    ensures key in RunTable(ps).0 <==> key in RunTable(ps').0
    ensures key in RunTable(ps).0 ==> RunTable(ps).0[key] == RunTable(ps').0[key]
  {
    TableIsReplay(ps, key);
    TableIsReplay(ps', key);
  }

  // ---------- the packet ledger ----------

  function PacketsIn(streams: seq<TcpStream>): nat {
    if streams == [] then 0 else PacketsIn(streams[..|streams| - 1]) + streams[|streams| - 1].packetsCount
  }

  lemma {:induction false} StreamsCountPackets(logs: seq<seq<Packet>>, key: FlowKey)
    requires AllLogs(logs, key)
    ensures PacketsIn(StreamsFor(logs, key)) == |Join(logs)|
  {
    hide Replay;
    if logs != [] {
      var front, log := logs[..|logs| - 1], logs[|logs| - 1];
      StreamsCountPackets(front, key);
      ReplayKeepsFlow(log, key);
      assert StreamsFor(logs, key)[..|front|] == StreamsFor(front, key);
    }
  }

  /** Every accepted packet of a flow is counted once, in an emitted stream or in the live tracker. */
  lemma {:induction false} PacketLedger(ps: seq<Packet>, key: FlowKey)
    ensures var (conns, emitted) := RunTable(ps);
            |Select(ps, key)| ==
            PacketsIn(StreamsOf(emitted, key)) + if key in conns then conns[key].packetsCount else 0
  {
    var lives := Split(Select(ps, key), key);
    TableIsReplay(ps, key);
    LivesPartitionPackets(Select(ps, key), key);
    StreamsCountPackets(lives.done, key);
    if lives.current != [] {
      ReplayKeepsFlow(lives.current, key);
    }
  }

  /** At the end of the capture every live tracker becomes one stream, in table order. */
  lemma {:induction false} FinalStreamsAreAll(conns: Table, order: seq<FlowKey>)
    requires Keyed(conns) && forall k :: k in order ==> k in conns
    ensures |FinalStreams(conns, order)| == |order|
    ensures forall i :: 0 <= i < |order| ==> FinalStreams(conns, order)[i] == BuildStream(conns[order[i]])
  {
    hide BuildStream;
    if order != [] {
      assert order[|order| - 1] in order;
      FinalStreamsAreAll(conns, order[..|order| - 1]);
    }
  }

  // ---------- the two directions of one tracker ----------

  /** What one endpoint sent, as the events its reassembler sees. */
  function EventsFrom(log: seq<Packet>, clientFlow: FlowKey, fromClient: bool): seq<Event> {
    if log == [] then []
    else
      var front, p := EventsFrom(log[..|log| - 1], clientFlow, fromClient), log[|log| - 1];
      if FromClient(p, clientFlow) == fromClient then front + [Event(SegmentOf(p), FlagsOf(p))] else front
  }

  function Side(t: Tracker, fromClient: bool): State {
    if fromClient then t.clientToServer else t.serverToClient
  }

  /** Each direction depends only on the packets of its own endpoint. */
  lemma {:induction false} DirectionsAreIndependent(log: seq<Packet>, key: FlowKey, fromClient: bool)
    requires log != [] && AllOf(log, key)
    ensures Side(Replay(log, key), fromClient) ==
            Run(INITIAL, EventsFrom(log, ClientFlow(log[0]), fromClient))
  {
    hide Add, FromClient, ClientFlow, Key, Accepted;
    var front, p, flow := log[..|log| - 1], log[|log| - 1], ClientFlow(log[0]);
    var before := EventsFrom(front, flow, fromClient);
    assert (before + [Event(SegmentOf(p), FlagsOf(p))])[..|before|] == before;
    if |log| > 1 {
      DirectionsAreIndependent(front, key, fromClient);
      ReplayKeepsFlow(front, key);
    }
  }
}
