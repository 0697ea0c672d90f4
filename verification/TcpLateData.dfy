/**
  * Everyday orders of packets on which a connection does not yield what was sent: a FIN that overtakes data, data that
  * comes after the end, the last ACK of a close, and a FIN that is sent again.
  */
module TcpLateData {
  import opened Basics
  import opened SequenceNumbers
  import opened Models
  import opened TcpDirection
  import opened TcpStreams
  import opened TcpRuns
  import opened TcpClosing
  import opened TcpSides
  import opened TcpConnections
  import opened TcpCaptures
  import opened TcpDeliveries

  const SYN := Flags(true, false, false)
  const FIN := Flags(false, true, false)

  // ---------- packets between two hosts ----------

  predicate TwoHosts(f: FlowKey) {
    f.proto == "TCP" && f.srcIp != f.dstIp
  }

  /** One packet of a conversation, from the client or from the server. */
  datatype Step = Step(fromClient: bool, seqNum: u32, flags: Flags, data: bytes) {
    function Event(): TcpRuns.Event {
      TcpRuns.Event(Segment(seqNum, data, 0.0, 1), flags)
    }

    function On(f: FlowKey): Packet {
      var g := if fromClient then f else f.Reverse();
      Packet(1, 0.0, 1, [], Some(4), Some(g.srcIp), Some(g.dstIp), Some(6), None, 0, false, Some("TCP"),
             Some(g.srcPort), Some(g.dstPort), Some(seqNum), None, Some(flags), data)
    }
  }

  function Packets(f: FlowKey, steps: seq<Step>): seq<Packet> {
    seq(|steps|, i requires 0 <= i < |steps| => steps[i].On(f))
  }

  function Own(step: Step, fromClient: bool): seq<Event> {
    if step.fromClient == fromClient then [step.Event()] else []
  }

  /** What one side has sent. */
  function StepEvents(steps: seq<Step>, fromClient: bool): seq<Event> {
    if steps == [] then [] else StepEvents(steps[..|steps| - 1], fromClient) + Own(steps[|steps| - 1], fromClient)
  }

  function EventOf(p: Packet): Event {
    Event(SegmentOf(p), FlagsOf(p))
  }

  /** The client's SYN, or a packet without SYN where the client is the lower end of the flow. */
  predicate Opens(f: FlowKey, step: Step) {
    if step.flags.syn then step.fromClient else f.Ordered()
  }

  lemma {:induction false} StepIsOf(f: FlowKey, step: Step)
    requires TwoHosts(f)
    ensures var p := step.On(f);
            && Accepted(p) && Key(p) == f.Normalized() && (FromClient(p, f) <==> step.fromClient)
            && (Opens(f, step) ==> ClientFlow(p) == f)
            && EventOf(p) == step.Event() && FlagsOf(p) == step.flags && p.payload == step.data
  {
    NormalizedIsDirectionNeutral(f);
  }

  lemma {:induction false} PacketsAreOf(f: FlowKey, steps: seq<Step>)
    requires TwoHosts(f)
    ensures AllOf(Packets(f, steps), f.Normalized())
  {
    hide Step.On, Accepted, Key;
    forall i | 0 <= i < |steps| ensures Accepted(Packets(f, steps)[i]) && Key(Packets(f, steps)[i]) == f.Normalized() {
      StepIsOf(f, steps[i]);
    }
  }

  lemma {:induction false} EventsAppend(log: seq<Packet>, p: Packet, clientFlow: FlowKey, fromClient: bool)
    ensures EventsFrom(log + [p], clientFlow, fromClient) ==
            EventsFrom(log, clientFlow, fromClient) +
            if FromClient(p, clientFlow) == fromClient then [EventOf(p)] else []
  {
    assert (log + [p])[..|log|] == log;
    hide FromClient;
    ConcatNothing(EventsFrom(log, clientFlow, fromClient));
  }

  lemma {:induction false} PacketsAppend(f: FlowKey, steps: seq<Step>, step: Step)
    ensures Packets(f, steps + [step]) == Packets(f, steps) + [step.On(f)]
  {
    hide Step.On;
  }

  lemma {:induction false} NoEvents(f: FlowKey, fromClient: bool)
    ensures EventsFrom(Packets(f, []), f, fromClient) == [] == StepEvents([], fromClient)
  {
  }

  lemma {:induction false} EventsOfSteps(f: FlowKey, steps: seq<Step>, fromClient: bool)
    requires TwoHosts(f)
    ensures AllOf(Packets(f, steps), f.Normalized())
    ensures EventsFrom(Packets(f, steps), f, fromClient) == StepEvents(steps, fromClient)
  {
    hide Step.On, FromClient, Accepted, Key, EventsFrom, Packets, AllOf, EventOf, Step.Event;
    PacketsAreOf(f, steps);
    if steps == [] {
      NoEvents(f, fromClient);
    } else {
      var front, last := steps[..|steps| - 1], steps[|steps| - 1];
      assert steps == front + [last];
      EventsOfSteps(f, front, fromClient);
      StepIsOf(f, last);
      PacketsAppend(f, front, last);
      EventsAppend(Packets(f, front), last.On(f), f, fromClient);
    }
  }

  lemma {:induction false} OneMoreStep(steps: seq<Step>, n: nat, fromClient: bool)
    requires 0 < n <= |steps|
    ensures StepEvents(steps[..n], fromClient) == StepEvents(steps[..n - 1], fromClient) + Own(steps[n - 1], fromClient)
  {
    assert steps[..n][..n - 1] == steps[..n - 1];
  }

  predicate Begins(f: FlowKey, steps: seq<Step>) {
    steps != [] && Opens(f, steps[0])
  }

  function ConnectionOf(f: FlowKey, steps: seq<Step>, client: Endpoint, server: Endpoint): Connection {
    Connection(Packets(f, steps), client, server)
  }

  /** What the first `n` packets make of a connection. */
  lemma {:induction false} UptoIsSteps(f: FlowKey, steps: seq<Step>, client: Endpoint, server: Endpoint, n: nat)
    requires TwoHosts(f) && Begins(f, steps) && 0 < n <= |steps|
    ensures var c := ConnectionOf(f, steps, client, server).Upto(n);
            && c.Of(f.Normalized()) && ClientFlow(c.log[0]) == f
            && c.Events(true) == StepEvents(steps[..n], true) && c.Events(false) == StepEvents(steps[..n], false)
            && (c.Reset() <==> exists i :: 0 <= i < n && steps[i].flags.rst)
  {
    hide Step.On, FromClient, Accepted, Key, ClientFlow, EventsFrom, StepEvents;
    assert Packets(f, steps)[..n] == Packets(f, steps[..n]);
    EventsOfSteps(f, steps[..n], true);
    EventsOfSteps(f, steps[..n], false);
    StepIsOf(f, steps[0]);
    forall i | 0 <= i < n ensures FlagsOf(Packets(f, steps)[..n][i]) == steps[i].flags {
      StepIsOf(f, steps[i]);
    }
  }

  ghost predicate StepsOver(steps: seq<Step>, client: Endpoint, server: Endpoint) {
    && ((exists i :: 0 <= i < |steps| && steps[i].flags.rst) ||
        (Closing(StepEvents(steps, true), client) && Closing(StepEvents(steps, false), server)))
    && (HoldsData(StepEvents(steps, true), client) || HoldsData(StepEvents(steps, false), server))
  }

  ghost predicate StepsSent(steps: seq<Step>, client: Endpoint, server: Endpoint) {
    Sends(StepEvents(steps, true), client) && Sends(StepEvents(steps, false), server)
  }

  lemma {:induction false} StepsEnd(f: FlowKey, steps: seq<Step>, client: Endpoint, server: Endpoint)
    requires TwoHosts(f) && Begins(f, steps) && StepsSent(steps, client, server) && StepsOver(steps, client, server)
    requires forall n :: 0 < n < |steps| ==> !StepsOver(steps[..n], client, server)
    ensures var c := ConnectionOf(f, steps, client, server);
            && AllEnd([c], f.Normalized()) && c.Of(f.Normalized())
            && c.Events(true) == StepEvents(steps, true) && c.Events(false) == StepEvents(steps, false)
  {
    var c, m := ConnectionOf(f, steps, client, server), |steps|;
    hide StepEvents, Sends, Closing, HoldsData, EventsFrom, ClientFlow, Step.On, Accepted, Key;
    assert steps[..m] == steps && c.log[..m] == c.log && c.Upto(m) == c;
    UptoIsSteps(f, steps, client, server, m);
    forall n | 0 < n < m ensures !c.Upto(n).Over() {
      UptoIsSteps(f, steps, client, server, n);
    }
  }

  // ---------- sides ----------

  lemma {:induction false} PayloadsOfOne(x: Event)
    ensures Payloads([x]) == if x.segment.data == [] then [] else [x.segment]
  {
    assert [x][..0] == [];
    assert Payloads([]) == [];
  }

  lemma {:induction false} PayloadsOfTwo(x: Event, y: Event)
    requires x.segment.data == []
    ensures Payloads([x, y]) == if y.segment.data == [] then [] else [y.segment]
  {
    PayloadsOfOne(x);
    assert [x, y][..1] == [x];
  }

  lemma {:induction false} LoneSyn(open: Event, e: Endpoint)
    requires e.lead == 0 && OpensStream(open, e.origin) && |e.stream| < HALF && |e.late| < HALF && !open.flags.rst
    ensures Sends([], e) && !Closing([], e) && !HoldsData([], e)
    ensures Sends([open], e) && !Closing([open], e) && !HoldsData([open], e)
  {
    assert e.Before([open]) == [] && e.Behind([open]) == [open] && e.Before([]) == [] && e.Behind([]) == [];
    assert [open][1..] == [] && [open][..0] == [];
    PayloadsOfOne(open);
  }

  /** A SYN and one more packet, either the whole stream of one byte or nothing. */
  lemma {:induction false} SynAndOne(open: Event, x: Event, e: Endpoint, b: byte)
    requires e.lead == 0 && OpensStream(open, e.origin) && e.stream == [b] && |e.late| < HALF
    requires !x.flags.syn && (x.segment.data == [] || (x.segment.data == [b] && x.segment.seqNum == e.origin))
    ensures Sends([open, x], e) && (x.flags.fin ==> Closing([open, x], e))
    ensures HoldsData([open, x], e) <==> x.segment.data != []
    ensures e.Behind([open, x]) == [open, x] && e.Before([open, x]) == []
    ensures AllArrived([open, x], e.origin, e.stream) <==> x.segment.data != []
    ensures x.segment.data == [] ==> Scraps([open, x]) == []
  {
    var events := [open, x];
    assert e.Before(events) == [] && e.Behind(events) == events;
    assert events[1..] == [x] && [x][..0] == [] && events[..1] == [open] && [open][..0] == [];
    assert SynRun([], e.origin, [b]);
    PayloadsOfTwo(open, x);
    assert events[1].flags == x.flags;
    NothingSorted([]);
    if x.segment.data != [] {
      assert SliceOf(x.segment, e.origin, [b]);
      assert Covers(x.segment, e.origin, 0);
    } else {
      assert !Arrived(events, e.origin, 0);
    }
  }

  lemma {:induction false} NoSteps(c: bool)
    ensures StepEvents([], c) == []
  {
  }

  lemma {:induction false} FourSteps(s: seq<Step>, c: bool)
    requires |s| == 4
    ensures s[..4] == s && StepEvents(s[..1], c) == Own(s[0], c)
    ensures StepEvents(s[..2], c) == Own(s[0], c) + Own(s[1], c)
    ensures StepEvents(s[..3], c) == Own(s[0], c) + Own(s[1], c) + Own(s[2], c)
    ensures StepEvents(s, c) == Own(s[0], c) + Own(s[1], c) + Own(s[2], c) + Own(s[3], c)
  {
    hide StepEvents, Own;
    assert s[..0] == [] && s[..4] == s;
    NoSteps(c);
    OneMoreStep(s, 1, c);
    OneMoreStep(s, 2, c);
    OneMoreStep(s, 3, c);
    OneMoreStep(s, 4, c);
    ConcatNothing(Own(s[0], c));
  }

  lemma {:induction false} PacketsConcat(f: FlowKey, steps: seq<Step>, rest: seq<Step>)
    ensures Packets(f, steps + rest) == Packets(f, steps) + Packets(f, rest)
  {
    hide Step.On;
  }

  lemma {:induction false} OneLog(c: Connection)
    ensures Join(Logs([c])) == c.log
  {
    assert Logs([c]) == [c.log];
    assert [c.log][..0] == [];
    assert Join([]) + c.log == c.log;
  }

  lemma {:induction false} SelectsAll(ps: seq<Packet>, key: FlowKey)
    requires AllOf(ps, key)
    ensures Select(ps, key) == ps
  {
    if ps != [] {
      SelectsAll(ps[..|ps| - 1], key);
      assert ps == ps[..|ps| - 1] + [ps[|ps| - 1]];
    }
  }

  /** The capture of conversations that end, and of whatever follows them. */
  lemma {:induction false} StepsDeliver(f: FlowKey, cs: seq<Connection>, steps: seq<Step>, rest: seq<Step>, i: nat)
    requires TwoHosts(f) && AllEnd(cs, f.Normalized()) && Join(Logs(cs)) == Packets(f, steps) && i < |cs|
    ensures Select(Packets(f, steps + rest), f.Normalized()) == Join(Logs(cs)) + Packets(f, rest)
    ensures cs[i].Ends(f.Normalized())
    ensures var streams := StreamsOf(RunTable(Packets(f, steps + rest)).1, f.Normalized());
            i < |streams| && IsStreamOf(streams[i], cs[i])
  {
    hide Select, RunTable, IsStreamOf, Connection.Ends, Join, Logs, Packets, StepEvents, EventsFrom, StreamsOf, AllOf,
      AllEnd;
    var ps := Packets(f, steps + rest);
    EventsOfSteps(f, steps + rest, true);
    SelectsAll(ps, f.Normalized());
    PacketsConcat(f, steps, rest);
    CaptureDeliversStreams(ps, f.Normalized(), cs, Packets(f, rest), i);
  }

  // ---------- a FIN that overtakes data ----------

  /** Two SYNs, all of the server's data with its FIN, and the client's FIN. */
  const CONVERSATION: seq<Step> := [
    Step(true, 0, SYN, []), Step(false, 100, SYN, []), Step(false, 101, FIN, [7]), Step(true, 2, FIN, [])]

  /** The client's only byte, which was sent before its FIN. */
  const LATE := Step(true, 1, NO_FLAGS, [9])

  const CLIENT := Endpoint(0, 0, [], 1, [9])
  const SERVER := Endpoint(0, 0, [], 101, [7])

  lemma {:induction false} ConversationSides()
    ensures var s := CONVERSATION;
            && s[..4] == s
            && StepEvents(s[..1], true) == StepEvents(s[..2], true) == StepEvents(s[..3], true) == [s[0].Event()]
            && StepEvents(s, true) == [s[0].Event(), s[3].Event()]
            && StepEvents(s, false) == [s[1].Event(), s[2].Event()]
            && forall i :: 0 <= i < 4 ==> !s[i].flags.rst
  {
    FourSteps(CONVERSATION, true);
    FourSteps(CONVERSATION, false);
  }

  lemma {:induction false} ConversationEnds(f: FlowKey)
    requires TwoHosts(f)
    ensures var c := ConnectionOf(f, CONVERSATION, CLIENT, SERVER);
            && AllEnd([c], f.Normalized()) && c.Of(f.Normalized())
            && c.Events(true) == StepEvents(CONVERSATION, true) && c.Events(false) == StepEvents(CONVERSATION, false)
  {
    var s := CONVERSATION;
    ConversationSides();
    hide StepEvents, Sends, Closing, HoldsData;
    LoneSyn(s[0].Event(), CLIENT);
    SynAndOne(s[0].Event(), s[3].Event(), CLIENT, 9);
    SynAndOne(s[1].Event(), s[2].Event(), SERVER, 7);
    assert StepsOver(s, CLIENT, SERVER);
    forall n | 0 < n < 4 ensures !StepsOver(s[..n], CLIENT, SERVER) {
      assert n == 1 || n == 2 || n == 3;
      assert forall i :: 0 <= i < n ==> s[..n][i] == s[i];
    }
    StepsEnd(f, s, CLIENT, SERVER);
  }

  lemma {:induction false} SynFinData(open: Event, fin: Event, x: Event, e: Endpoint)
    requires e.lead == 0 && OpensStream(open, e.origin) && |e.stream| < HALF && |e.late| < HALF
    requires !fin.flags.syn && fin.segment.data == []
    requires !x.flags.syn && x.segment.data != [] && SliceOf(x.segment, e.origin, e.stream)
    ensures Sends([open, fin, x], e) && Payloads([open, fin, x]) == [x.segment]
  {
    hide SliceOf;
    var events := [open, fin, x];
    assert e.Before(events) == [] && e.Behind(events) == events;
    assert events[1..] == [fin, x] && [fin, x][..1] == [fin] && [fin][..0] == [];
    assert events[..2] == [open, fin] && [open, fin][..1] == [open] && [open][..0] == [];
    assert SynRun([], e.origin, e.stream);
    assert SynRun([fin], e.origin, e.stream);
    PayloadsOfTwo(open, fin);
  }

  lemma {:induction false} ClientEvents()
    ensures var s := CONVERSATION;
            StepEvents(s + [LATE], true) == [s[0].Event(), s[3].Event(), LATE.Event()]
  {
    var s, all := CONVERSATION, CONVERSATION + [LATE];
    ConversationSides();
    assert all[..5] == all && all[..4] == s && all[4] == LATE;
    OneMoreStep(all, 5, true);
    hide StepEvents;
  }

  lemma {:induction false} AllSent()
    ensures Sends(StepEvents(CONVERSATION + [LATE], true), CLIENT)
    ensures AllArrived(StepEvents(CONVERSATION + [LATE], true), 1, [9])
  {
    var s, late := CONVERSATION, LATE.Event();
    ClientEvents();
    hide StepEvents, Sends, Payloads;
    assert SliceOf(late.segment, 1, [9]) && Covers(late.segment, 1, 0);
    SynFinData(s[0].Event(), s[3].Event(), late, CLIENT);
    assert late.segment in [late.segment];
  }

  /** The client's FIN overtook its byte, which is in the capture: the stream emitted lacks it. */
  lemma {:induction false} OvertakingFinLosesData(f: FlowKey, rest: seq<Step>)
    requires TwoHosts(f)
    ensures var streams := StreamsOf(RunTable(Packets(f, CONVERSATION + [LATE] + rest)).1, f.Normalized());
            |streams| >= 1 && streams[0].clientToServer != [9] && streams[0].serverToClient == [7]
    ensures Sends(StepEvents(CONVERSATION + [LATE], true), CLIENT)
    ensures AllArrived(StepEvents(CONVERSATION + [LATE], true), 1, [9])
  {
    var s, c := CONVERSATION, ConnectionOf(f, CONVERSATION, CLIENT, SERVER);
    AllSent();
    ConversationSides();
    ConversationEnds(f);
    ConcatAssociative(s, [LATE], rest);
    hide StepEvents, Sends, EventsFrom, ClientFlow, RunTable, StreamsOf, IsHandedOver, Payloads, Packets, Scraps,
      AllArrived, Arrived, HoldsData, Closing, Select, Join, Logs;
    OneLog(c);
    StepsDeliver(f, [c], s, [LATE] + rest, 0);
    SynAndOne(s[0].Event(), s[3].Event(), CLIENT, 9);
    SynAndOne(s[1].Event(), s[2].Event(), SERVER, 7);
    NoPayloadsOfNothing();
    var streams := StreamsOf(RunTable(Packets(f, s + ([LATE] + rest))).1, f.Normalized());
    StreamHoldsSentIff(streams[0], c, f.Normalized(), true);
    StreamHoldsSentIff(streams[0], c, f.Normalized(), false);
  }

  // ---------- data after the end ----------

  /** The late byte, and then a connection of the same two hosts in which the client sends one byte and is reset. */
  const AFTERWARDS: seq<Step> := [
    LATE, Step(true, 200, SYN, []), Step(true, 201, NO_FLAGS, [5]), Step(false, 0, Flags(false, false, true), [])]

  const CLIENT_AFTERWARDS := Endpoint(1, 1, [9], 201, [5])
  const SERVER_AFTERWARDS := Endpoint(1, 0, [], 0, [])

  lemma {:induction false} AfterwardsSides()
    ensures var s, open := AFTERWARDS, AFTERWARDS[1].Event();
            && s[..4] == s
            && StepEvents(s, true) == [s[0].Event(), open, s[2].Event()]
            && StepEvents(s, false) == [s[3].Event()]
            && StepEvents(s[..1], false) == StepEvents(s[..2], false) == StepEvents(s[..3], false) == []
            && forall i :: 0 <= i < 3 ==> !s[i].flags.rst
  {
    FourSteps(AFTERWARDS, true);
    FourSteps(AFTERWARDS, false);
  }

  lemma {:induction false} LateResidue(late: Event)
    requires !late.flags.syn && late.segment.seqNum == 1 && late.segment.data == [9]
    ensures MidRun([late], 1, [9]) && IsResidue([9], [late], 1, [9]) && NoGaps(Payloads([late]), 1)
    ensures Payloads([late]) != []
  {
    assert [late][..0] == [];
    PayloadsOfOne(late);
    assert SliceOf(late.segment, 1, [9]) && Start(late.segment, 1) == 0;
    assert Covers(late.segment, 1, 0) && late.segment in [late.segment];
    assert Lowest([late.segment], 1) == 0;
  }

  lemma {:induction false} OneByteStream(open: Event, x: Event)
    requires OpensStream(open, 201) && !x.flags.syn && x.segment.seqNum == 201 && x.segment.data == [5]
    ensures Opened([open, x], 201, [5]) && IsArrivedPrefix([5], [open, x], 201, [5])
  {
    assert [open, x][1..] == [x] && [x][..0] == [];
    assert SliceOf(x.segment, 201, [5]);
    PayloadsOfTwo(open, x);
    assert SynRun([], 201, [5]);
    assert Covers(x.segment, 201, 0) && x.segment in [x.segment];
  }

  lemma {:induction false} LateAndStream(late: Event, open: Event, x: Event, e: Endpoint)
    requires e == Endpoint(1, 1, [9], 201, [5]) && OpensStream(open, 201)
    requires !late.flags.syn && late.segment.seqNum == 1 && late.segment.data == [9]
    requires !x.flags.syn && x.segment.seqNum == 201 && x.segment.data == [5]
    ensures Sends([late, open, x], e) && HoldsData([late, open, x], e) && IsHandedOver([9] + [5], [late, open, x], e)
  {
    hide MidRun, Payloads, IsResidue, NoGaps, Opened, IsArrivedPrefix, OpensStream, Arrived;
    var events := [late, open, x];
    assert e.Before(events) == [late] && e.Behind(events) == [open, x];
    LateResidue(late);
    OneByteStream(open, x);
  }

  lemma {:induction false} LateThenStream()
    ensures var s := AFTERWARDS;
            var events := [s[0].Event(), s[1].Event(), s[2].Event()];
            && Sends(events, CLIENT_AFTERWARDS) && HoldsData(events, CLIENT_AFTERWARDS)
            && IsHandedOver([9, 5], events, CLIENT_AFTERWARDS)
  {
    hide Sends, HoldsData, IsHandedOver;
    var s := AFTERWARDS;
    LateAndStream(s[0].Event(), s[1].Event(), s[2].Event(), CLIENT_AFTERWARDS);
    assert [9, 5] == [9] + [5];
  }

  lemma {:induction false} BareReset()
    ensures Sends([AFTERWARDS[3].Event()], SERVER_AFTERWARDS)
  {
    var x, e := AFTERWARDS[3].Event(), SERVER_AFTERWARDS;
    assert e.Before([x]) == [x] && e.Behind([x]) == [] && [x][..0] == [];
    assert MidRun([x], 0, []);
  }

  lemma {:induction false} NeverClosed(e: Endpoint)
    ensures !Closing([], e)
  {
  }

  lemma {:induction false} ResetEnds(f: FlowKey)
    requires TwoHosts(f) && f.Ordered()
    ensures var c := ConnectionOf(f, AFTERWARDS, CLIENT_AFTERWARDS, SERVER_AFTERWARDS);
            && AllEnd([c], f.Normalized()) && c.Of(f.Normalized())
            && c.Events(true) == StepEvents(AFTERWARDS, true)
  {
    hide StepEvents, Sends, HoldsData, Closing, Step.On;
    var s := AFTERWARDS;
    AfterwardsSides();
    LateThenStream();
    BareReset();
    NeverClosed(SERVER_AFTERWARDS);
    assert s[3].flags.rst;
    forall n | 0 < n < 4 ensures !StepsOver(s[..n], CLIENT_AFTERWARDS, SERVER_AFTERWARDS) {
      assert n == 1 || n == 2 || n == 3;
      assert forall i :: 0 <= i < n ==> s[..n][i] == s[i];
    }
    StepsEnd(f, s, CLIENT_AFTERWARDS, SERVER_AFTERWARDS);
  }

  lemma {:induction false} TwoLogs(c: Connection, d: Connection)
    ensures Join(Logs([c, d])) == c.log + d.log
  {
    OneLog(c);
    assert Logs([c, d]) == Logs([c]) + [d.log];
    hide Join;
    JoinAppend(Logs([c]), d.log);
  }

  /** The late byte stands in front of the next connection's stream. */
  lemma {:induction false} LateDataGoesInFront(f: FlowKey, rest: seq<Step>)
    requires TwoHosts(f) && f.Ordered()
    ensures var streams := StreamsOf(RunTable(Packets(f, CONVERSATION + AFTERWARDS + rest)).1, f.Normalized());
            |streams| >= 2 && streams[1].clientToServer == [9, 5]
  {
    hide StepEvents, Sends, EventsFrom, ClientFlow, RunTable, StreamsOf, IsHandedOver, Packets, Connection.Ends, Join,
      Logs, Select;
    var first := ConnectionOf(f, CONVERSATION, CLIENT, SERVER);
    var second := ConnectionOf(f, AFTERWARDS, CLIENT_AFTERWARDS, SERVER_AFTERWARDS);
    ConversationEnds(f);
    ResetEnds(f);
    assert [first][0].Ends(f) && [second][0].Ends(f);
    assert AllEnd([first, second], f) && Accepted(second.log[0]);
    TwoLogs(first, second);
    PacketsConcat(f, CONVERSATION, AFTERWARDS);
    StepsDeliver(f, [first, second], CONVERSATION + AFTERWARDS, rest, 1);
    AfterwardsSides();
    LateThenStream();
    var streams := StreamsOf(RunTable(Packets(f, CONVERSATION + AFTERWARDS + rest)).1, f.Normalized());
    HandedOverUnique(streams[1].clientToServer, [9, 5], second.Events(true), CLIENT_AFTERWARDS);
  }

  // ---------- the last ACK ----------

  const ACK := Step(true, 2, NO_FLAGS, [])

  lemma {:induction false} AckIsBare(f: FlowKey)
    requires TwoHosts(f)
    ensures |Packets(f, [ACK])| == 1 && AllBare(Packets(f, [ACK]))
  {
    StepIsOf(f, ACK);
  }

  /** The last ACK of an ordinary close yields one more stream, with no data. */
  lemma {:induction false} LastAckYieldsStream(f: FlowKey)
    requires TwoHosts(f)
    ensures var (conns, emitted) := RunTable(Packets(f, CONVERSATION + [ACK]));
            f.Normalized() in conns && |StreamsOf(emitted, f.Normalized())| == 1 &&
            var s := BuildStream(conns[f.Normalized()]);
            s.clientToServer == [] && s.serverToClient == [] && s.packetsCount == 1
  {
    hide Select, RunTable, StepEvents, EventsFrom, StreamsOf, BuildStream, Packets, Connection.Ends, Join, Logs,
      AllBare;
    var c := ConnectionOf(f, CONVERSATION, CLIENT, SERVER);
    var ps, tail := Packets(f, CONVERSATION + [ACK]), Packets(f, [ACK]);
    AckIsBare(f);
    ConversationEnds(f);
    OneLog(c);
    StepsDeliver(f, [c], CONVERSATION, [ACK], 0);
    LeftoverYieldsEmptyStream(ps, f.Normalized(), [c], tail);
  }

  // ---------- a FIN that is sent again ----------

  /** The server's FIN again, and then a connection in which the client sends one byte and its FIN. */
  const AGAIN: seq<Step> := [
    Step(false, 102, FIN, []), Step(true, 200, SYN, []), Step(false, 300, SYN, []), Step(true, 201, FIN, [5])]

  const CLIENT_AGAIN := Endpoint(0, 0, [], 201, [5])
  const SERVER_AGAIN := Endpoint(1, 0, [], 301, [6])

  lemma {:induction false} AgainSides()
    ensures var s := AGAIN;
            && s[..4] == s
            && StepEvents(s[..1], true) == []
            && StepEvents(s[..2], true) == StepEvents(s[..3], true) == [s[1].Event()]
            && StepEvents(s, true) == [s[1].Event(), s[3].Event()]
            && StepEvents(s[..1], false) == StepEvents(s[..2], false) == [s[0].Event()]
            && StepEvents(s[..3], false) == StepEvents(s, false) == [s[0].Event(), s[2].Event()]
            && forall i :: 0 <= i < 4 ==> !s[i].flags.rst
  {
    FourSteps(AGAIN, true);
    FourSteps(AGAIN, false);
  }

  /** The old FIN counts, and nothing of the new stream has arrived. */
  lemma {:induction false} OldFinCloses()
    ensures var events, e := [AGAIN[0].Event(), AGAIN[2].Event()], SERVER_AGAIN;
            && Sends(events, e) && Closing(events, e) && !HoldsData(events, e)
            && e.Before(events) == [AGAIN[0].Event()] && e.Behind(events) == [AGAIN[2].Event()]
            && Payloads(e.Before(events)) == [] && !HandsOver(e.Behind(events), e.origin, e.stream)
  {
    var fin, open, e := AGAIN[0].Event(), AGAIN[2].Event(), SERVER_AGAIN;
    var events := [fin, open];
    assert e.Before(events) == [fin] && e.Behind(events) == [open];
    assert [fin][..0] == [] && [open][1..] == [] && [open][..0] == [];
    PayloadsOfOne(fin);
    PayloadsOfOne(open);
    assert ClosesMidway([fin][..0], [fin][0], 0);
    NothingSorted([]);
    assert !Arrived([open], 301, 0);
  }

  lemma {:induction false} AgainEnds(f: FlowKey)
    requires TwoHosts(f) && f.Ordered()
    ensures var c := ConnectionOf(f, AGAIN, CLIENT_AGAIN, SERVER_AGAIN);
            && AllEnd([c], f.Normalized()) && c.Of(f.Normalized())
            && c.Events(false) == StepEvents(AGAIN, false)
  {
    hide StepEvents, Sends, HoldsData, Closing, Step.On;
    var s := AGAIN;
    AgainSides();
    LoneSyn(s[1].Event(), CLIENT_AGAIN);
    SynAndOne(s[1].Event(), s[3].Event(), CLIENT_AGAIN, 5);
    OldFinCloses();
    forall n | 0 < n < 4 ensures !StepsOver(s[..n], CLIENT_AGAIN, SERVER_AGAIN) {
      assert n == 1 || n == 2 || n == 3;
      assert forall i :: 0 <= i < n ==> s[..n][i] == s[i];
    }
    StepsEnd(f, s, CLIENT_AGAIN, SERVER_AGAIN);
  }

  /** A retransmitted FIN closes the server's side of the next connection, which ends before the server has sent. */
  lemma {:induction false} OldFinEndsNextConnection(f: FlowKey, rest: seq<Step>)
    requires TwoHosts(f) && f.Ordered()
    ensures var streams := StreamsOf(RunTable(Packets(f, CONVERSATION + AGAIN + rest)).1, f.Normalized());
            |streams| >= 2 && streams[1].serverToClient != [6]
  {
    hide StepEvents, Sends, EventsFrom, ClientFlow, RunTable, StreamsOf, IsHandedOver, Packets, Join, Logs,
      Select, AllOf, HandsOver, Payloads, Closing, HoldsData;
    var first := ConnectionOf(f, CONVERSATION, CLIENT, SERVER);
    var second := ConnectionOf(f, AGAIN, CLIENT_AGAIN, SERVER_AGAIN);
    ConversationEnds(f);
    AgainEnds(f);
    assert [first][0].Ends(f) && [second][0].Ends(f);
    assert AllEnd([first, second], f);
    TwoLogs(first, second);
    PacketsConcat(f, CONVERSATION, AGAIN);
    StepsDeliver(f, [first, second], CONVERSATION + AGAIN, rest, 1);
    AgainSides();
    OldFinCloses();
    var streams := StreamsOf(RunTable(Packets(f, CONVERSATION + AGAIN + rest)).1, f);
    StreamHoldsSentIff(streams[1], second, f, false);
  }
}
