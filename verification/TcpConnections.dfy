/**
  * Connection tracking: packets are keyed by their direction-neutral flow, each tracker runs one reassembler per
  * direction, and a tracker that is closed and holds data is turned into a stream and forgotten.
  */
module TcpConnections {
  import opened Basics
  import opened Models
  import opened TcpDirection

  datatype TcpStream = TcpStream(
    flow: FlowKey,
    startTime: real,
    endTime: real,
    clientToServer: bytes,
    serverToClient: bytes,
    clientSegments: seq<Segment>,
    serverSegments: seq<Segment>,
    packetsCount: nat,
    isClosed: bool)

  datatype Tracker = Tracker(
    clientFlow: FlowKey,
    startTime: real,
    endTime: real,
    packetsCount: nat,
    clientToServer: State,
    serverToClient: State,
    isClosed: bool)
  {
    predicate Valid() {
      clientToServer.Valid() && serverToClient.Valid()
    }

    predicate HasData() {
      |clientToServer.buffer| > 0 || |serverToClient.buffer| > 0
    }
  }

  function NewTracker(flow: FlowKey, startTime: real): Tracker {
    Tracker(flow, startTime, startTime, 0, INITIAL, INITIAL, false)
  }

  function FlagsOf(p: Packet): Flags {
    if p.tcpFlags.Some? then p.tcpFlags.value else NO_FLAGS
  }

  function SegmentOf(p: Packet): Segment {
    Segment(if p.seqNum.Some? then p.seqNum.value else 0, p.payload, p.timestamp, p.frameNumber)
  }

  predicate FromClient(p: Packet, clientFlow: FlowKey) {
    p.srcIp == Some(clientFlow.srcIp) && p.srcPort == Some(clientFlow.srcPort)
  }

  function Later(a: real, b: real): real {
    if b > a then b else a
  }

  function Feed(t: Tracker, p: Packet): (r: Tracker)
    requires t.Valid()
    ensures r.Valid()
  {
    var flags, s := FlagsOf(p), SegmentOf(p);
    var c2s := if FromClient(p, t.clientFlow) then Add(t.clientToServer, s, flags) else t.clientToServer;
    var s2c := if FromClient(p, t.clientFlow) then t.serverToClient else Add(t.serverToClient, s, flags);
    Tracker(t.clientFlow, t.startTime, Later(t.endTime, p.timestamp), t.packetsCount + 1, c2s, s2c,
            t.isClosed || (c2s.closed && s2c.closed) || flags.rst)
  }

  function BuildStream(t: Tracker): TcpStream {
    TcpStream(t.clientFlow, t.startTime, t.endTime, Data(t.clientToServer), Data(t.serverToClient),
              t.clientToServer.segments, t.serverToClient.segments, t.packetsCount, t.isClosed)
  }

  predicate Accepted(p: Packet) {
    p.transportProto == Some("TCP") && p.Flow().Some?
  }

  function Key(p: Packet): FlowKey
    requires Accepted(p)
  {
    p.Flow().value.Normalized()
  }

  /** Which end is the client: the sender, unless a packet other than a SYN was sent against the key's direction. */
  function ClientFlow(p: Packet): FlowKey
    requires Accepted(p)
  {
    var flow, key := p.Flow().value, Key(p);
    if p.tcpFlags.Some? && !p.tcpFlags.value.syn && key != flow then key else flow
  }

  type Table = map<FlowKey, Tracker>

  predicate ValidTable(conns: Table) {
    forall k :: k in conns ==> conns[k].Valid()
  }

  predicate Finished(t: Tracker) {
    t.isClosed && t.HasData()
  }

  /** The tracker of the packet's flow after it has been fed the packet. */
  function Fed(conns: Table, p: Packet): (t: Tracker)
    requires ValidTable(conns) && Accepted(p)
    ensures t.Valid()
  {
    Feed(if Key(p) in conns then conns[Key(p)] else NewTracker(ClientFlow(p), p.timestamp), p)
  }

  function Process(conns: Table, p: Packet): (r: (Table, Option<TcpStream>))
    requires ValidTable(conns)
    ensures ValidTable(r.0)
  {
    if !Accepted(p) then (conns, None)
    else
      var t := Fed(conns, p);
      if Finished(t) then (conns - {Key(p)}, Some(BuildStream(t)))
      else (conns[Key(p) := t], None)
  }

  lemma {:induction false} ProcessUnfolds(conns: Table, p: Packet)
    requires ValidTable(conns)
    ensures !Accepted(p) ==> Process(conns, p) == (conns, None)
    ensures Accepted(p) ==>
              var fed := (if Key(p) in conns then conns
                          else conns[Key(p) := NewTracker(ClientFlow(p), p.timestamp)]);
              var t := Feed(fed[Key(p)], p);
              Process(conns, p) == if Finished(t) then (fed[Key(p) := t] - {Key(p)}, Some(BuildStream(t)))
                                   else (fed[Key(p) := t], None)
  {
    hide Feed, NewTracker, BuildStream, Key, ClientFlow, Accepted, Finished;
    if Accepted(p) {
      var key, t := Key(p), Fed(conns, p);
      assert conns - {key} == conns[key := t] - {key};
      if key !in conns {
        var newborn := NewTracker(ClientFlow(p), p.timestamp);
        assert conns[key := newborn][key := t] == conns[key := t];
      }
    }
  }

  // ---------- the classes ----------

  class ConnectionTracker {
    const clientFlow: FlowKey
    const startTime: real
    var endTime: real
    var packetsCount: nat
    const clientToServer: DirectionalReassembler
    const serverToClient: DirectionalReassembler
    var isClosed: bool

    ghost function Parts(): set<object> {
      {this, clientToServer, serverToClient}
    }

    /** The two share no object. */
    ghost predicate Apart(that: ConnectionTracker) {
      Parts() !! that.Parts()
    }

    lemma {:induction false} DisjointIsApart(that: ConnectionTracker)
      requires Parts() !! that.Parts()
      ensures Apart(that) && that.Apart(this)
    {
    }

    ghost predicate Valid()
      reads Parts()
    {
      && clientToServer != serverToClient
      && clientToServer.Value().Valid() && serverToClient.Value().Valid()
    }

    ghost function Value(): Tracker
      reads Parts()
      ensures Valid() ==> Value().Valid()
    {
      Tracker(clientFlow, startTime, endTime, packetsCount,
              clientToServer.Value(), serverToClient.Value(), isClosed)
    }

    constructor (clientFlow: FlowKey, startTime: real)
      ensures Valid() && fresh(Parts()) && Value() == NewTracker(clientFlow, startTime)
    {
      this.clientFlow, this.startTime, endTime := clientFlow, startTime, startTime;
      packetsCount, isClosed := 0, false;
      clientToServer := new DirectionalReassembler();
      serverToClient := new DirectionalReassembler();
    }

    method ProcessPacket(p: Packet)
      requires Valid()
      modifies Parts()
      ensures Valid() && Value() == Feed(old(Value()), p)
    {
      hide Add;
      packetsCount := packetsCount + 1;
      endTime := Later(endTime, p.timestamp);
      var flags := FlagsOf(p);
      if FromClient(p, clientFlow) {
        clientToServer.AddSegment(SegmentOf(p), flags);
      } else {
        serverToClient.AddSegment(SegmentOf(p), flags);
      }
      if (clientToServer.isClosed && serverToClient.isClosed) || flags.rst {
        isClosed := true;
      }
    }

    lemma {:induction false} CountIsCounted()
      ensures Value().packetsCount == packetsCount
    {
    }

    method IsFinished() returns (b: bool)
      ensures b == Finished(Value())
    {
      b := isClosed && (|clientToServer.dataBuffer| > 0 || |serverToClient.dataBuffer| > 0);
    }

    method Build() returns (s: TcpStream)
      requires Valid()
      ensures s == BuildStream(Value())
    {
      var c2s := clientToServer.GetData();
      var s2c := serverToClient.GetData();
      s := TcpStream(clientFlow, startTime, endTime, c2s, s2c,
                     clientToServer.segments, serverToClient.segments, packetsCount, isClosed);
    }
  }

  /** What the end of the capture yields: a stream for every tracker that has seen a packet, in table order. */
  function FinalStreams(conns: Table, order: seq<FlowKey>): seq<TcpStream>
    requires forall k :: k in order ==> k in conns
  {
    if order == [] then []
    else
      var front, t := FinalStreams(conns, order[..|order| - 1]), conns[order[|order| - 1]];
      if t.packetsCount > 0 then front + [BuildStream(t)] else front
  }

  class TcpReassembler {
    var connections: map<FlowKey, ConnectionTracker>
    /** The keys in the order in which the dict holds them. */
    var order: seq<FlowKey>

    ghost var repr: set<object>

    ghost predicate Valid()
      reads this, repr
    {
      && this !in repr
      && (forall k :: k in connections ==> connections[k].Parts() <= repr && connections[k].Valid())
      && (forall k, j :: k in connections && j in connections && k != j ==> connections[k].Apart(connections[j]))
      && (forall k :: k in order <==> k in connections)
      && Distinct(order)
    }

    ghost function Value(): Table
      requires Valid()
      reads this, repr
      ensures ValidTable(Value())
    {
      map k | k in connections :: connections[k].Value()
    }

    constructor ()
      ensures Valid() && Value() == map[] && fresh(repr)
    {
      connections, order, repr := map[], [], {};
    }

    /** Deleting a key from the dict. */
    method Forget(key: FlowKey)
      requires Valid()
      modifies this`connections, this`order
      ensures Valid() && Value() == old(Value()) - {key}
    {
      hide Tracker.Valid, ConnectionTracker.Value, ConnectionTracker.Valid, ConnectionTracker.Parts,
        ConnectionTracker.Apart, Distinct;
      connections := connections - {key};
      order := Remove(order, key);
    }

    /** Assigning a new key in the dict. */
    method Insert(key: FlowKey, tracker: ConnectionTracker)
      requires Valid() && tracker.Valid() && key !in connections
      requires tracker.Parts() !! repr && this !in tracker.Parts()
      modifies this
      ensures Valid() && repr == old(repr) + tracker.Parts() && connections == old(connections)[key := tracker]
      ensures Value() == old(Value()[key := tracker.Value()])
    {
      hide Tracker.Valid, ConnectionTracker.Value, ConnectionTracker.Valid, ConnectionTracker.Parts,
        ConnectionTracker.Apart, Distinct;
      forall k | k in connections ensures tracker.Apart(connections[k]) && connections[k].Apart(tracker) {
        tracker.DisjointIsApart(connections[k]);
      }
      DistinctAppend(order, key);
      ghost var after := Value()[key := tracker.Value()];
      connections, order := connections[key := tracker], order + [key];
      repr := repr + tracker.Parts();
      forall k | k in connections ensures connections[k].Valid() && connections[k].Value() == after[k] {
      }
      assert Value().Keys == after.Keys;
    }

    /** Looks the tracker up, adding a fresh one if the flow is new. */
    method TrackerFor(p: Packet) returns (tracker: ConnectionTracker)
      requires Valid() && Accepted(p)
      modifies this
      ensures Valid() && Key(p) in connections && tracker == connections[Key(p)]
      ensures tracker.Parts() <= repr
      ensures fresh(repr - old(repr)) && old(repr) <= repr
      ensures Value() == if Key(p) in old(Value()) then old(Value())
                         else old(Value())[Key(p) := NewTracker(ClientFlow(p), p.timestamp)]
    {
      hide NewTracker, Key, ClientFlow, Accepted, ConnectionTracker.Value, ConnectionTracker.Valid,
        ConnectionTracker.Parts, ConnectionTracker.Apart, Distinct;
      ghost var before := Value();
      assert Key(p) in before <==> Key(p) in connections;
      if Key(p) in connections {
        tracker := connections[Key(p)];
      } else {
        tracker := new ConnectionTracker(ClientFlow(p), p.timestamp);
        assert Value() == before;
        Insert(Key(p), tracker);
      }
    }

    /** Feeding one tracker leaves the others alone. */
    method FeedTracker(key: FlowKey, p: Packet)
      requires Valid() && key in connections
      modifies connections[key].Parts()
      ensures Valid() && connections[key].Valid() && connections[key].Value() == Value()[key]
      ensures Value() == old(Value())[key := Feed(old(Value()[key]), p)]
    {
      hide Feed, Tracker.Valid, ConnectionTracker.Value, ConnectionTracker.Valid,
        ConnectionTracker.Parts, Distinct;
      ghost var before := Value();
      connections[key].ProcessPacket(p);
      forall k | k in connections && k != key
        ensures connections[k].Value() == before[k] && connections[k].Valid()
      {
        assert connections[k].Apart(connections[key]);
      }
    }

    method ProcessPacket(p: Packet) returns (r: Option<TcpStream>)
      requires Valid()
      modifies this, repr
      ensures Valid() && fresh(repr - old(repr))
      ensures (Value(), r) == Process(old(Value()), p)
    {
      hide Feed, NewTracker, BuildStream, Key, ClientFlow, Accepted, Finished, Fed, Process, ValidTable, Valid, Value;
      ghost var before := Value();
      ProcessUnfolds(before, p);
      if !Accepted(p) {
        return None;
      }
      var key := Key(p);
      var tracker := TrackerFor(p);
      FeedTracker(key, p);
      var finished := tracker.IsFinished();
      if finished {
        var stream := tracker.Build();
        Forget(key);
        r := Some(stream);
      } else {
        r := None;
      }
    }

    method LiveStreams() returns (streams: seq<TcpStream>)
      requires Valid()
      ensures streams == FinalStreams(Value(), order)
    {
      hide BuildStream, Tracker.Valid, ConnectionTracker.Value, ConnectionTracker.Parts, ConnectionTracker.Apart,
        ConnectionTracker.Valid, Distinct;
      streams := [];
      ghost var conns := Value();
      for i := 0 to |order|
        invariant streams == FinalStreams(conns, order[..i])
      {
        assert order[..i + 1][..i] == order[..i] && order[i] in order;
        var tracker := connections[order[i]];
        assert tracker.Value() == conns[order[i]];
        tracker.CountIsCounted();
        if tracker.packetsCount > 0 {
          var s := tracker.Build();
          streams := streams + [s];
        }
      }
      assert order[..|order|] == order;
    }

    method Finalize() returns (streams: seq<TcpStream>)
      requires Valid()
      modifies this
      ensures Valid() && Value() == map[]
      ensures streams == FinalStreams(old(Value()), old(order))
    {
      streams := LiveStreams();
      connections, order, repr := map[], [], {};
    }
  }
}
