/**
  * From packets to streams. A connection is described by its packets alone: what its two endpoints send, and the packet
  * with which it is over. The streams emitted for a flow are those of its connections, one each, and each holds what
  * its packets had brought by then.
  */
module TcpDeliveries {
  import opened Basics
  import opened SequenceNumbers
  import opened Models
  import opened TcpDirection
  import opened TcpRuns
  import opened TcpClosing
  import opened TcpSides
  import opened TcpConnections
  import opened TcpCaptures

  /**
    * The packets of one connection and what its two endpoints send; among its first packets there may be some left over
    * from the connection before it, such as the last ACK, or it may have been joined midway.
    */
  datatype Connection = Connection(log: seq<Packet>, client: Endpoint, server: Endpoint) {
    predicate Of(key: FlowKey) {
      log != [] && AllOf(log, key)
    }

    function Events(fromClient: bool): seq<Event>
      requires log != [] && Accepted(log[0])
    {
      EventsFrom(log, ClientFlow(log[0]), fromClient)
    }

    function End(fromClient: bool): Endpoint {
      if fromClient then client else server
    }

    ghost predicate Sent(key: FlowKey) {
      Of(key) && forall fromClient: bool :: Sends(Events(fromClient), End(fromClient))
    }

    function Upto(n: nat): Connection
      requires n <= |log|
    {
      this.(log := log[..n])
    }

    predicate Reset() {
      exists i :: 0 <= i < |log| && FlagsOf(log[i]).rst
    }

    /** An RST, or a packet that closes each side, has been seen, and either side holds data. */
    ghost predicate Over()
      requires log != [] && Accepted(log[0])
    {
      && (Reset() || forall fromClient: bool :: Closing(Events(fromClient), End(fromClient)))
      && exists fromClient: bool :: TcpSides.HoldsData(Events(fromClient), End(fromClient))
    }

    /** No packet so far has been the last. */
    ghost predicate Lasting(key: FlowKey) {
      Sent(key) && forall n :: 0 < n <= |log| ==> !Upto(n).Over()
    }

    /** The last packet, and no earlier one, ends the connection. */
    ghost predicate Ends(key: FlowKey) {
      Sent(key) && Over() && forall n :: 0 < n < |log| ==> !Upto(n).Over()
    }
  }

  // ---------- prefixes of a connection ----------

  lemma {:induction false} OpenedFront(events: seq<Event>, origin: u32, S: bytes)
    requires Opened(events, origin, S) && events != []
    ensures Opened(events[..|events| - 1], origin, S)
  {
    var front := events[..|events| - 1];
    if front != [] {
      assert front[1..] == events[1..][..|events[1..]| - 1];
    }
  }

  lemma {:induction false} SendsFront(events: seq<Event>, e: Endpoint)
    requires Sends(events, e) && events != []
    ensures Sends(events[..|events| - 1], e)
  {
    hide SynRun, NoGaps, OpensStream;
    var front := events[..|events| - 1];
    if e.lead < |events| {
      assert e.Before(front) == e.Before(events);
      assert e.Behind(front) == e.Behind(events)[..|e.Behind(events)| - 1];
      OpenedFront(e.Behind(events), e.origin, e.stream);
    } else {
      assert e.Before(events) == events && e.Before(front) == front && e.Behind(front) == [];
    }
  }

  lemma {:induction false} SentFront(c: Connection, key: FlowKey)
    requires c.Sent(key) && |c.log| > 1
    ensures c.Upto(|c.log| - 1).Sent(key)
  {
    hide Sends, ClientFlow, FromClient;
    var front := c.Upto(|c.log| - 1);
    forall fromClient: bool ensures Sends(front.Events(fromClient), front.End(fromClient)) {
      var events := c.Events(fromClient);
      assert Sends(events, c.End(fromClient));
      if events != front.Events(fromClient) {
        assert events[..|events| - 1] == front.Events(fromClient);
        SendsFront(events, c.End(fromClient));
      }
    }
  }

  lemma {:induction false} SentUpto(c: Connection, key: FlowKey, n: nat)
    requires c.Sent(key) && 0 < n <= |c.log|
    ensures c.Upto(n).Sent(key)
    decreases |c.log| - n
  {
    hide Sends;
    if n == |c.log| {
      assert c.log[..n] == c.log;
    } else {
      SentUpto(c, key, n + 1);
      SentFront(c.Upto(n + 1), key);
      assert c.log[..n + 1][..n] == c.log[..n];
    }
  }

  // ---------- when a tracker is finished ----------

  lemma {:induction false} ClosedStays(st: State, e: Event)
    requires st.Valid() && st.closed
    ensures Add(st, e.segment, e.flags).closed
  {
    AddClosesIff(st, e.segment, e.flags);
  }

  lemma {:induction false} TrackerClosesIff(log: seq<Packet>, key: FlowKey)
    requires log != [] && AllOf(log, key)
    ensures var t := Replay(log, key);
            t.isClosed <==> (t.clientToServer.closed && t.serverToClient.closed) ||
                            exists i :: 0 <= i < |log| && FlagsOf(log[i]).rst
  {
    hide Add, FromClient, ClientFlow;
    if |log| > 1 {
      var front, p := log[..|log| - 1], log[|log| - 1];
      TrackerClosesIff(front, key);
      var t := Replay(front, key);
      if t.clientToServer.closed {
        ClosedStays(t.clientToServer, Event(SegmentOf(p), FlagsOf(p)));
      }
      if t.serverToClient.closed {
        ClosedStays(t.serverToClient, Event(SegmentOf(p), FlagsOf(p)));
      }
      assert forall i :: 0 <= i < |front| ==> front[i] == log[i];
    }
  }

  /** A tracker is finished if and only if the connection is over. */
  lemma {:induction false} FinishedIffOver(c: Connection, key: FlowKey)
    requires c.Sent(key)
    ensures Finished(Replay(c.log, key)) <==> c.Over()
  {
    hide Replay, Run, EventsFrom, ClientFlow, Sends, TcpSides.HoldsData, Closing;
    assert Accepted(c.log[0]);
    DirectionsAreIndependent(c.log, key, true);
    DirectionsAreIndependent(c.log, key, false);
    SideClosesIff(c.Events(true), c.End(true));
    SideClosesIff(c.Events(false), c.End(false));
    SideHoldsDataIff(c.Events(true), c.End(true));
    SideHoldsDataIff(c.Events(false), c.End(false));
    TrackerClosesIff(c.log, key);
  }

  // ---------- lives are connections ----------

  lemma {:induction false} OneMorePacket(before: seq<Packet>, log: seq<Packet>, p: Packet, key: FlowKey)
    requires AllOf(before + log, key) && AllOf(log, key) && Accepted(p) && Key(p) == key
    requires Split(before + log, key).current == log
    ensures AllOf(log + [p], key) && AllOf(before + (log + [p]), key)
    ensures Split(before + (log + [p]), key) ==
            var done := Split(before + log, key).done;
            if Finished(Replay(log + [p], key)) then Lives(done + [log + [p]], []) else Lives(done, log + [p])
  {
    hide Split, Replay, Finished, Accepted, Key;
    ConcatAssociative(before, log, [p]);
    SplitUnfolds(before + log, p, key);
  }

  lemma {:induction false} LifeExtends(before: seq<Packet>, c: Connection, key: FlowKey, n: nat)
    requires AllOf(before, key) && c.Sent(key) && 0 < n <= |c.log|
    requires AllOf(before + c.log[..n - 1], key)
    requires Split(before + c.log[..n - 1], key) == Lives(Split(before, key).done, c.log[..n - 1])
    ensures AllOf(before + c.log[..n], key)
    ensures Split(before + c.log[..n], key) ==
            if c.Upto(n).Over() then Lives(Split(before, key).done + [c.log[..n]], [])
            else Lives(Split(before, key).done, c.log[..n])
  {
    hide Split, Replay, Finished, Accepted, Key, Sends, Connection.Over;
    var p := c.log[n - 1];
    assert c.log[..n] == c.log[..n - 1] + [p];
    SentUpto(c, key, n);
    FinishedIffOver(c.Upto(n), key);
    OneMorePacket(before, c.log[..n - 1], p, key);
  }

  /** While a connection lasts, its packets stay together in one unfinished life. */
  lemma {:induction false} LifeGrows(before: seq<Packet>, c: Connection, key: FlowKey, n: nat)
    requires AllOf(before, key) && Split(before, key).current == []
    requires c.Sent(key) && n <= |c.log| && forall m :: 0 < m <= n ==> !c.Upto(m).Over()
    ensures AllOf(before + c.log[..n], key)
    ensures Split(before + c.log[..n], key) == Lives(Split(before, key).done, c.log[..n])
  {
    if n == 0 {
      ConcatNothing(before);
    } else {
      LifeGrows(before, c, key, n - 1);
      LifeExtends(before, c, key, n);
    }
  }

  function Logs(cs: seq<Connection>): (r: seq<seq<Packet>>)
    ensures |r| == |cs| && forall i :: 0 <= i < |cs| ==> r[i] == cs[i].log
  {
    seq(|cs|, i requires 0 <= i < |cs| => cs[i].log)
  }

  lemma {:induction false} OneMoreLog(cs: seq<Connection>)
    requires cs != []
    ensures var front, log := cs[..|cs| - 1], cs[|cs| - 1].log;
            Logs(cs) == Logs(front) + [log] && Join(Logs(cs)) == Join(Logs(front)) + log
  {
    var front, log := cs[..|cs| - 1], cs[|cs| - 1].log;
    assert Logs(cs) == Logs(front) + [log];
    hide Join;
    JoinAppend(Logs(front), log);
  }

  ghost predicate AllEnd(cs: seq<Connection>, key: FlowKey) {
    forall i :: 0 <= i < |cs| ==> cs[i].Ends(key)
  }

  /** A connection that ends becomes one life. */
  lemma {:induction false} ConnectionIsOneLife(before: seq<Packet>, cs: seq<Connection>, i: nat, key: FlowKey)
    requires AllOf(before, key) && Split(before, key).current == []
    requires AllEnd(cs, key) && i < |cs|
    ensures AllOf(before + cs[i].log, key)
    ensures Split(before + cs[i].log, key) == Lives(Split(before, key).done + [cs[i].log], [])
  {
    var c, n := cs[i], |cs[i].log|;
    assert c.Ends(key) && c.log[..n] == c.log;
    hide Split;
    LifeGrows(before, c, key, n - 1);
    LifeExtends(before, c, key, n);
  }

  lemma {:induction false} ConnectionsAreLives(cs: seq<Connection>, key: FlowKey)
    requires AllEnd(cs, key)
    ensures AllOf(Join(Logs(cs)), key)
    ensures Split(Join(Logs(cs)), key) == Lives(Logs(cs), [])
  {
    if cs != [] {
      var front := cs[..|cs| - 1];
      assert AllEnd(front, key);
      hide Split, Join, AllEnd, AllOf, Logs;
      ConnectionsAreLives(front, key);
      OneMoreLog(cs);
      ConnectionIsOneLife(Join(Logs(front)), cs, |cs| - 1, key);
    }
  }

  /** Later packets do not change the lives that are done. */
  lemma {:induction false} DoneStays(ps: seq<Packet>, rest: seq<Packet>, key: FlowKey)
    requires AllOf(ps + rest, key)
    ensures AllOf(ps, key) && Split(ps, key).done <= Split(ps + rest, key).done
    decreases |rest|
  {
    assert AllOf(ps, key) by {
      assert forall i :: 0 <= i < |ps| ==> (ps + rest)[i] == ps[i];
    }
    if rest == [] {
      ConcatNothing(ps);
    } else {
      var front, p := rest[..|rest| - 1], rest[|rest| - 1];
      assert ps + rest == ps + front + [p] && (ps + rest)[|ps + front|] == p;
      assert forall i :: 0 <= i < |ps + front| ==> (ps + front)[i] == (ps + rest)[i];
      DoneStays(ps, front, key);
      hide Split, Replay, Finished;
      SplitUnfolds(ps + front, p, key);
    }
  }

  // ---------- the streams ----------

  /** The stream made of a connection: what each side hands over, the packets counted, and who counts as the client. */
  ghost predicate IsStreamOf(s: TcpStream, c: Connection)
    requires c.log != [] && Accepted(c.log[0])
  {
    && IsHandedOver(s.clientToServer, c.Events(true), c.client)
    && IsHandedOver(s.serverToClient, c.Events(false), c.server)
    && s.packetsCount == |c.log| && s.flow == ClientFlow(c.log[0])
  }

  lemma {:induction false} ConnectionYieldsStream(c: Connection, key: FlowKey)
    requires c.Sent(key)
    ensures IsStreamOf(BuildStream(Replay(c.log, key)), c)
  {
    assert Accepted(c.log[0]);
    hide Replay, Data, Run, EventsFrom, ClientFlow, Sends, AllOf, IsHandedOver;
    DirectionsAreIndependent(c.log, key, true);
    DirectionsAreIndependent(c.log, key, false);
    SideData(c.Events(true), c.End(true));
    SideData(c.Events(false), c.End(false));
    ReplayKeepsFlow(c.log, key);
  }

  function StreamSide(s: TcpStream, fromClient: bool): bytes {
    if fromClient then s.clientToServer else s.serverToClient
  }

  /**
    * A side on which no data came before the SYN holds what was sent if and only if all of it had arrived, or the
    * scraps happen to spell it.
    */
  lemma {:induction false} StreamHoldsSentIff(s: TcpStream, c: Connection, key: FlowKey, fromClient: bool)
    requires c.Sent(key) && IsStreamOf(s, c)
    requires Payloads(c.End(fromClient).Before(c.Events(fromClient))) == []
    ensures var e := c.End(fromClient);
            StreamSide(s, fromClient) == e.stream <==>
            HandsOver(e.Behind(c.Events(fromClient)), e.origin, e.stream)
  {
    assert Accepted(c.log[0]);
    hide Sends, IsHandedOver, EventsFrom, ClientFlow, Payloads, HandsOver, AllOf;
    HandsOverIff(StreamSide(s, fromClient), c.Events(fromClient), c.End(fromClient));
  }

  /**
    * End to end, from packets alone. If the packets of a flow, picked out of any capture, are those of connections that
    * follow one another, and anything after them, then the `i`-th stream emitted for the flow is the `i`-th
    * connection's, and each side of it holds what the packets up to the last one hand over.
    */
  lemma {:induction false} CaptureDeliversStreams(
    ps: seq<Packet>, key: FlowKey, cs: seq<Connection>, rest: seq<Packet>, i: nat)
    requires AllEnd(cs, key) && Select(ps, key) == Join(Logs(cs)) + rest && i < |cs|
    ensures cs[i].Ends(key) && i < |StreamsOf(RunTable(ps).1, key)|
    ensures IsStreamOf(StreamsOf(RunTable(ps).1, key)[i], cs[i])
  {
    assert cs[i].Ends(key);
    hide Split, Select, RunTable, Replay, BuildStream, AllEnd, IsStreamOf;
    ConnectionsAreLives(cs, key);
    DoneStays(Join(Logs(cs)), rest, key);
    TableIsReplay(ps, key);
    assert Split(Select(ps, key), key).done[i] == cs[i].log;
    ConnectionYieldsStream(cs[i], key);
  }

  /** The same for a last connection that is not over when the capture ends, and is turned into a stream then. */
  lemma {:induction false} OpenConnectionDelivers(
    ps: seq<Packet>, key: FlowKey, cs: seq<Connection>, last: Connection)
    requires AllEnd(cs, key) && last.Lasting(key) && Select(ps, key) == Join(Logs(cs)) + last.log
    ensures |StreamsOf(RunTable(ps).1, key)| == |cs|
    ensures key in RunTable(ps).0 && IsStreamOf(BuildStream(RunTable(ps).0[key]), last)
  {
    var n := |last.log|;
    assert last.log[..n] == last.log && last.log != [];
    hide Split, Select, RunTable, Replay, BuildStream, AllEnd, IsStreamOf;
    ConnectionsAreLives(cs, key);
    LifeGrows(Join(Logs(cs)), last, key, n);
    TableIsReplay(ps, key);
    ConnectionYieldsStream(last, key);
  }

  // ---------- packets left over after a connection ----------

  /** Carries no data and no SYN: an ACK, or a FIN or RST sent again. */
  predicate Bare(p: Packet) {
    p.payload == [] && !FlagsOf(p).syn
  }

  predicate AllBare(ps: seq<Packet>) {
    forall i :: 0 <= i < |ps| ==> Bare(ps[i])
  }

  lemma {:induction false} BareEvents(log: seq<Packet>, clientFlow: FlowKey, fromClient: bool)
    requires AllBare(log)
    ensures var events := EventsFrom(log, clientFlow, fromClient);
            Payloads(events) == [] && MidRun(events, 0, [])
  {
    hide FromClient;
    if log != [] {
      var front, p := log[..|log| - 1], log[|log| - 1];
      BareEvents(front, clientFlow, fromClient);
      var before := EventsFrom(front, clientFlow, fromClient);
      assert (before + [Event(SegmentOf(p), FlagsOf(p))])[..|before|] == before;
    }
  }

  /** An endpoint of which nothing but bare packets is seen. */
  function Leftover(log: seq<Packet>): Endpoint {
    Endpoint(|log|, 0, [], 0, [])
  }

  function LeftoverConnection(log: seq<Packet>): Connection {
    Connection(log, Leftover(log), Leftover(log))
  }

  lemma {:induction false} EventsNoMore(log: seq<Packet>, clientFlow: FlowKey, fromClient: bool)
    ensures |EventsFrom(log, clientFlow, fromClient)| <= |log|
  {
    hide FromClient;
    if log != [] {
      EventsNoMore(log[..|log| - 1], clientFlow, fromClient);
    }
  }

  lemma {:induction false} LeftoverSends(log: seq<Packet>, lead: nat, clientFlow: FlowKey)
    requires AllBare(log) && |log| <= lead
    ensures forall fromClient: bool ::
              var events, e := EventsFrom(log, clientFlow, fromClient), Endpoint(lead, 0, [], 0, []);
              Sends(events, e) && !TcpSides.HoldsData(events, e)
  {
    var e := Endpoint(lead, 0, [], 0, []);
    hide EventsFrom, MidRun;
    NoPayloadsOfNothing();
    forall fromClient: bool
      ensures var events := EventsFrom(log, clientFlow, fromClient);
              Sends(events, e) && !TcpSides.HoldsData(events, e)
    {
      var events := EventsFrom(log, clientFlow, fromClient);
      EventsNoMore(log, clientFlow, fromClient);
      BareEvents(log, clientFlow, fromClient);
      assert e.Before(events) == events && e.Behind(events) == [];
    }
  }

  lemma {:induction false} LeftoverLasts(log: seq<Packet>, key: FlowKey)
    requires log != [] && AllOf(log, key) && AllBare(log)
    ensures LeftoverConnection(log).Lasting(key)
  {
    var c := LeftoverConnection(log);
    assert Accepted(log[0]);
    hide EventsFrom, Sends, TcpSides.HoldsData, ClientFlow, Accepted, Key;
    forall n | 0 < n <= |log| ensures c.Upto(n).Sent(key) && !c.Upto(n).Over() {
      LeftoverSends(log[..n], |log|, ClientFlow(log[0]));
    }
    assert log[..|log|] == log && c.Upto(|log|) == c;
  }

  lemma {:induction false} TailIsOf(ps: seq<Packet>, key: FlowKey, before: seq<Packet>, tail: seq<Packet>)
    requires Select(ps, key) == before + tail
    ensures AllOf(tail, key)
  {
    assert forall i :: 0 <= i < |tail| ==> tail[i] == (before + tail)[|before| + i];
  }

  lemma {:induction false} LeftoverHandsNothing(
    data: bytes, log: seq<Packet>, clientFlow: FlowKey, fromClient: bool)
    requires AllBare(log)
    ensures IsHandedOver(data, EventsFrom(log, clientFlow, fromClient), Leftover(log)) ==> data == []
  {
    var events, e := EventsFrom(log, clientFlow, fromClient), Leftover(log);
    EventsNoMore(log, clientFlow, fromClient);
    LeftoverSends(log, |log|, clientFlow);
    hide EventsFrom, TcpSides.HoldsData;
    assert e.Behind(events) == [];
    NoPayloadsOfNothing();
    NothingSorted([]);
  }

  /** Bare packets after the last connection open a tracker of their own, which ends as a stream with no data. */
  lemma {:induction false} LeftoverYieldsEmptyStream(
    ps: seq<Packet>, key: FlowKey, cs: seq<Connection>, tail: seq<Packet>)
    requires AllEnd(cs, key) && Select(ps, key) == Join(Logs(cs)) + tail && tail != [] && AllBare(tail)
    ensures key in RunTable(ps).0 && |StreamsOf(RunTable(ps).1, key)| == |cs|
    ensures var s := BuildStream(RunTable(ps).0[key]);
            s.clientToServer == [] && s.serverToClient == [] && s.packetsCount == |tail|
  {
    var last := LeftoverConnection(tail);
    TailIsOf(ps, key, Join(Logs(cs)), tail);
    LeftoverLasts(tail, key);
    hide Select, RunTable, EventsFrom, AllEnd, BuildStream, IsHandedOver, Sends, TcpSides.HoldsData, ClientFlow;
    OpenConnectionDelivers(ps, key, cs, last);
    var s := BuildStream(RunTable(ps).0[key]);
    LeftoverHandsNothing(s.clientToServer, tail, ClientFlow(tail[0]), true);
    LeftoverHandsNothing(s.serverToClient, tail, ClientFlow(tail[0]), false);
  }

  /**
    * Who is taken for the client: the sender of the first packet if that is a SYN or carries no flags, and otherwise
    * the lower end of the flow, so that the roles are swapped exactly when the higher end opens the connection.
    */
  lemma {:induction false} RolesIff(c: Connection, key: FlowKey, opener: Packet)
    requires c.Of(key) && Accepted(opener) && Key(opener) == key
    requires c.log[0].tcpFlags.Some? && !c.log[0].tcpFlags.value.syn
    ensures var s := BuildStream(Replay(c.log, key));
            s.flow == opener.Flow().value <==> opener.Flow().value == key
  {
    hide Replay, Data, Key;
    ReplayKeepsFlow(c.log, key);
    assert Key(c.log[0]) == key;
  }
}
