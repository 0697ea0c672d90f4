/**
  * Which end of a connection a stream calls the client, and when the stream begins and ends, told from the addresses,
  * ports and time stamps in the packets alone.
  */
module TcpRoles {
  import opened Basics
  import opened Models
  import opened TcpDirection
  import opened TcpRuns
  import opened TcpSides
  import opened TcpConnections
  import opened TcpCaptures
  import opened TcpDeliveries
  import opened TcpLateData

  // ---------- the lower end of a flow ----------

  /** `a` comes before `b`: a proper prefix of it, or smaller at the first place where the two differ. */
  ghost predicate Precedes(a: string, b: string) {
    exists n: nat :: n <= |a| && n <= |b| && a[..n] == b[..n] &&
                     ((n == |a| && n < |b|) || (n < |a| && n < |b| && a[n] < b[n]))
  }

  lemma {:induction false} PrecedesTail(a: string, b: string)
    requires a != [] && b != [] && a[0] == b[0]
    ensures Precedes(a, b) <==> Precedes(a[1..], b[1..])
  {
    if Precedes(a, b) {
      var n: nat :| n <= |a| && n <= |b| && a[..n] == b[..n] &&
                    ((n == |a| && n < |b|) || (n < |a| && n < |b| && a[n] < b[n]));
      assert n > 0 && a[..n][1..] == a[1..][..n - 1] && b[..n][1..] == b[1..][..n - 1];
    }
    if Precedes(a[1..], b[1..]) {
      var n: nat :| n <= |a[1..]| && n <= |b[1..]| && a[1..][..n] == b[1..][..n] &&
                    ((n == |a[1..]| && n < |b[1..]|) ||
                     (n < |a[1..]| && n < |b[1..]| && a[1..][n] < b[1..][n]));
      assert a[..n + 1] == [a[0]] + a[1..][..n] && b[..n + 1] == [b[0]] + b[1..][..n];
    }
  }

  lemma {:induction false} StringLeIff(a: string, b: string)
    ensures StringLe(a, b) <==> a == b || Precedes(a, b)
  {
    if a != [] && b != [] && a[0] == b[0] {
      StringLeIff(a[1..], b[1..]);
      PrecedesTail(a, b);
      assert a == [a[0]] + a[1..] && b == [b[0]] + b[1..];
    } else if a == [] {
      assert b != [] ==> a[..0] == b[..0];
    } else if b != [] {
      assert a[..0] == b[..0];
      assert forall n: nat :: 0 < n <= |a| && n <= |b| ==> a[..n][0] == a[0] && b[..n][0] == b[0];
    }
  }

  /** The key of a flow is the flow itself exactly if its source is the lower end, by address and then by port. */
  lemma {:induction false} KeyIsItselfIff(f: FlowKey)
    ensures f.Normalized() == f <==>
            Precedes(f.srcIp, f.dstIp) || (f.srcIp == f.dstIp && f.srcPort <= f.dstPort)
    ensures f.Normalized() != f ==> f.Normalized() == FlowKey(f.dstIp, f.dstPort, f.srcIp, f.srcPort, f.proto)
  {
    assert !Precedes(f.srcIp, f.srcIp);
    hide Precedes, StringLe;
    StringLeIff(f.srcIp, f.dstIp);
  }

  // ---------- who is the client ----------

  /** A packet as its receiver sees it: missing numbers are zero, missing flags are none. */
  function Seen(p: Packet): Event {
    Event(Segment(if p.seqNum.Some? then p.seqNum.value else 0, p.payload, p.timestamp, p.frameNumber),
          if p.tcpFlags.Some? then p.tcpFlags.value else Flags(false, false, false))
  }

  /** What the sender of `first` sent, or what the others did. */
  function Heard(log: seq<Packet>, first: Packet, own: bool): seq<Event> {
    if log == [] then []
    else
      var front, p := Heard(log[..|log| - 1], first, own), log[|log| - 1];
      if (p.srcIp == first.srcIp && p.srcPort == first.srcPort) == own then
        front + [Seen(p)]
      else front
  }

  /** The packet is a SYN, or carries no flags at all. */
  predicate OpensAsClient(p: Packet) {
    p.tcpFlags.None? || p.tcpFlags.value.syn
  }

  lemma {:induction false} EventsAreHeard(log: seq<Packet>, first: Packet, clientFlow: FlowKey, fromClient: bool)
    requires first.srcIp == Some(clientFlow.srcIp) && first.srcPort == Some(clientFlow.srcPort)
    ensures EventsFrom(log, clientFlow, fromClient) == Heard(log, first, fromClient)
  {
    if log != [] {
      EventsAreHeard(log[..|log| - 1], first, clientFlow, fromClient);
    }
  }

  /** The first packet's own flow is the stream's, unless flags without a SYN came from the higher end. */
  lemma {:induction false} FirstIsClientIff(log: seq<Packet>, key: FlowKey)
    requires log != [] && AllOf(log, key)
    ensures log[0].srcIp.Some? && log[0].srcPort.Some? && log[0].dstIp.Some? && log[0].dstPort.Some?
    ensures var p, s := log[0], BuildStream(Replay(log, key));
            var own := FlowKey(p.srcIp.value, p.srcPort.value, p.dstIp.value, p.dstPort.value, "TCP");
            && (s.flow == own <==> OpensAsClient(p) || own == key)
            && (s.flow == own || s.flow == key)
  {
    hide Replay, Data, FlowKey.Normalized;
    ReplayKeepsFlow(log, key);
    assert Accepted(log[0]) && Key(log[0]) == key;
  }

  /**
    * If the first packet is a SYN or has no flags, its sender is the client: the stream has that packet's own flow, and
    * its sides, data and pieces, are what the packets with that source address and port make, and what the others do.
    */
  lemma {:induction false} OpenerIsClient(log: seq<Packet>, key: FlowKey)
    requires log != [] && AllOf(log, key) && OpensAsClient(log[0])
    ensures log[0].srcIp.Some? && log[0].srcPort.Some? && log[0].dstIp.Some? && log[0].dstPort.Some?
    ensures var p, s := log[0], BuildStream(Replay(log, key));
            var client, server := Run(INITIAL, Heard(log, p, true)), Run(INITIAL, Heard(log, p, false));
            && s.flow == FlowKey(p.srcIp.value, p.srcPort.value, p.dstIp.value, p.dstPort.value, "TCP")
            && s.clientToServer == Data(client) && s.clientSegments == client.segments
            && s.serverToClient == Data(server) && s.serverSegments == server.segments
  {
    FirstIsClientIff(log, key);
    var p, flow := log[0], ClientFlow(log[0]);
    assert Accepted(p) && flow == p.Flow().value;
    hide Replay, Data, Run, Heard, EventsFrom, ClientFlow, FlowKey.Normalized;
    ReplayKeepsFlow(log, key);
    DirectionsAreIndependent(log, key, true);
    DirectionsAreIndependent(log, key, false);
    EventsAreHeard(log, p, flow, true);
    EventsAreHeard(log, p, flow, false);
  }

  /** The same in any capture, for a connection among those that follow one another in a flow. */
  lemma {:induction false} OpenedConnectionDelivers(
    ps: seq<Packet>, key: FlowKey, cs: seq<Connection>, rest: seq<Packet>, i: nat)
    requires AllEnd(cs, key) && Select(ps, key) == Join(Logs(cs)) + rest && i < |cs|
    ensures cs[i].Ends(key) && i < |StreamsOf(RunTable(ps).1, key)|
    ensures var s, p := StreamsOf(RunTable(ps).1, key)[i], cs[i].log[0];
            OpensAsClient(p) ==>
              && s.flow == FlowKey(p.srcIp.value, p.srcPort.value, p.dstIp.value, p.dstPort.value, "TCP")
              && IsHandedOver(s.clientToServer, Heard(cs[i].log, p, true), cs[i].client)
              && IsHandedOver(s.serverToClient, Heard(cs[i].log, p, false), cs[i].server)
  {
    hide Select, RunTable, Replay, StreamsOf, IsHandedOver, EventsFrom, Heard, Join, Logs, Sends;
    CaptureDeliversStreams(ps, key, cs, rest, i);
    var log, p := cs[i].log, cs[i].log[0];
    assert Accepted(p);
    if OpensAsClient(p) {
      EventsAreHeard(log, p, ClientFlow(p), true);
      EventsAreHeard(log, p, ClientFlow(p), false);
    }
  }

  // ---------- an opener at the higher end ----------

  const HIGHER := FlowKey("192.168.1.10", 50000, "10.0.0.1", 80, "TCP")

  /** A SYN from the higher end: its sender is the client all the same. */
  lemma {:induction false} HigherOpenerIsClient(rest: seq<Step>)
    ensures HIGHER.Normalized() != HIGHER
    ensures var streams := StreamsOf(RunTable(Packets(HIGHER, CONVERSATION + [LATE] + rest)).1, HIGHER.Reverse());
            |streams| >= 1 && streams[0].flow == HIGHER && streams[0].serverToClient == [7]
  {
    assert HIGHER.srcIp[0] == '1' && HIGHER.dstIp[0] == '1' && HIGHER.srcIp[1] == '9' && HIGHER.dstIp[1] == '0';
    assert !StringLe(HIGHER.srcIp, HIGHER.dstIp);
    var c := ConnectionOf(HIGHER, CONVERSATION, CLIENT, SERVER);
    ConversationEnds(HIGHER);
    OvertakingFinLosesData(HIGHER, rest);
    StepIsOf(HIGHER, CONVERSATION[0]);
    hide RunTable, StreamsOf, StepEvents, Sends, EventsFrom, ClientFlow, Join, Logs, IsHandedOver, Connection.Ends;
    OneLog(c);
    StepsDeliver(HIGHER, [c], CONVERSATION, [LATE] + rest, 0);
    ConcatAssociative(CONVERSATION, [LATE], rest);
  }

  /** A stream is closed if and only if an RST has been seen or each side is closed by its own packets. */
  lemma {:induction false} StreamIsClosedIff(log: seq<Packet>, key: FlowKey)
    requires log != [] && AllOf(log, key) && OpensAsClient(log[0])
    ensures BuildStream(Replay(log, key)).isClosed <==>
            (exists i :: 0 <= i < |log| && log[i].tcpFlags.Some? && log[i].tcpFlags.value.rst) ||
            (Run(INITIAL, Heard(log, log[0], true)).closed && Run(INITIAL, Heard(log, log[0], false)).closed)
  {
    FirstIsClientIff(log, key);
    var p, flow := log[0], ClientFlow(log[0]);
    assert Accepted(p) && flow == p.Flow().value;
    hide Replay, Data, Run, Heard, EventsFrom, ClientFlow, FlowKey.Normalized;
    TrackerClosesIff(log, key);
    DirectionsAreIndependent(log, key, true);
    DirectionsAreIndependent(log, key, false);
    EventsAreHeard(log, p, flow, true);
    EventsAreHeard(log, p, flow, false);
  }

  // ---------- packets that are passed over ----------

  /** Nothing happens if and only if the packet is not TCP, or an address or a port is missing. */
  lemma {:induction false} PassedOverIff(conns: Table, p: Packet)
    requires ValidTable(conns)
    ensures Process(conns, p) == (conns, None) <==>
            || p.transportProto != Some("TCP")
            || p.srcIp.None? || p.dstIp.None? || p.srcPort.None? || p.dstPort.None?
  {
    hide Add, Data, Key, ClientFlow, FromClient;
    if Accepted(p) {
      var t := Fed(conns, p);
      assert Key(p) in conns ==> t.packetsCount == conns[Key(p)].packetsCount + 1;
      assert !Finished(t) ==> Process(conns, p).0[Key(p)] == t;
    }
  }

  // ---------- when a stream begins and ends ----------

  /** A stream lasts from its first packet to the latest time stamp of any of them. */
  lemma {:induction false} StreamSpansLog(log: seq<Packet>, key: FlowKey)
    requires log != [] && AllOf(log, key)
    ensures var s := BuildStream(Replay(log, key));
            && s.startTime == log[0].timestamp && s.packetsCount == |log|
            && (forall i :: 0 <= i < |log| ==> log[i].timestamp <= s.endTime)
            && exists i :: 0 <= i < |log| && log[i].timestamp == s.endTime
  {
    hide Add, Data, Key, ClientFlow, FromClient;
    ReplayKeepsFlow(log, key);
    if |log| > 1 {
      var front, p := log[..|log| - 1], log[|log| - 1];
      StreamSpansLog(front, key);
      assert forall i :: 0 <= i < |front| ==> front[i] == log[i];
      assert p.timestamp == log[|log| - 1].timestamp;
    }
  }
}
