/**
  * The gate in front of raw UDP carving: a skip list of ports, a bounded flow table, a cap per flow, and a counter for
  * everything held back.
  */
module RawUdpGate {
  import opened Basics
  import opened MapSums
  import opened Models

  const MIN_RAW_UDP_PAYLOAD: nat := 32

  const TELEMETRY_UDP_PORTS: set<int> := {
    67, 68, 123, 137, 138, 161, 162, 514, 1900, 3671, 5353, 5355, 2222, 20000, 34962, 34963, 34964, 44818
  }

  datatype Reason = TelemetryPort | FlowTableFull | PerFlowCap

  type Counts = map<FlowKey, int>

  predicate IsTelemetry(p: Packet) {
    || (p.srcPort.Some? && p.srcPort.value in TELEMETRY_UDP_PORTS)
    || (p.dstPort.Some? && p.dstPort.value in TELEMETRY_UDP_PORTS)
  }

  predicate Eligible(p: Packet) {
    p.transportProto == Some("UDP") && |p.payload| >= MIN_RAW_UDP_PAYLOAD
  }

  /** Eligible packets that the flow table decides on, and the direction-neutral key it decides by. */
  predicate HasKey(p: Packet, key: FlowKey) {
    Eligible(p) && !IsTelemetry(p) && p.Flow().Some? && p.Flow().value.Normalized() == key
  }

  function Decide(counts: Counts, p: Packet, cap: int, limit: int): (Counts, Option<Reason>) {
    if IsTelemetry(p) then (counts, Some(TelemetryPort))
    else if p.Flow().None? then (counts, None)
    else
      var key := p.Flow().value.Normalized();
      if key !in counts then
        if |counts| >= limit then (counts, Some(FlowTableFull)) else (counts[key := 1], None)
      else if counts[key] >= cap then (counts, Some(PerFlowCap))
      else (counts[key := counts[key] + 1], None)
  }

  datatype RawCandidate = RawCandidate(data: bytes, flow: Option<FlowKey>, timestamp: real, frameNumber: int)

  function Tally(suppressed: map<Reason, nat>, reason: Reason): nat {
    if reason in suppressed then suppressed[reason] else 0
  }

  function Total(suppressed: map<Reason, nat>): nat {
    Tally(suppressed, TelemetryPort) + Tally(suppressed, FlowTableFull) + Tally(suppressed, PerFlowCap)
  }

  datatype State = State(counts: Counts, suppressed: map<Reason, nat>)

  function Step(st: State, p: Packet, cap: int, limit: int): (State, seq<RawCandidate>) {
    if !Eligible(p) then (st, [])
    else
      match Decide(st.counts, p, cap, limit)
      case (counts, Some(reason)) =>
        (State(counts, st.suppressed[reason := Tally(st.suppressed, reason) + 1]), [])
      case (counts, None) =>
        (State(counts, st.suppressed), [RawCandidate(p.payload, p.Flow(), p.timestamp, p.frameNumber)])
  }

  // ---------- whole runs ----------

  function Run(ps: seq<Packet>, cap: int, limit: int): State {
    if ps == [] then State(map[], map[])
    else Step(Run(ps[..|ps| - 1], cap, limit), ps[|ps| - 1], cap, limit).0
  }

  function Emitted(ps: seq<Packet>, cap: int, limit: int): seq<RawCandidate> {
    if ps == [] then []
    else
      var front := ps[..|ps| - 1];
      Emitted(front, cap, limit) + Step(Run(front, cap, limit), ps[|ps| - 1], cap, limit).1
  }

  function EligibleCount(ps: seq<Packet>): nat {
    if ps == [] then 0 else EligibleCount(ps[..|ps| - 1]) + if Eligible(ps[|ps| - 1]) then 1 else 0
  }

  /** How many packets of a flow have come to the gate. */
  function Arrived(ps: seq<Packet>, key: FlowKey): nat {
    if ps == [] then 0 else Arrived(ps[..|ps| - 1], key) + if HasKey(ps[|ps| - 1], key) then 1 else 0
  }

  /** How many packets of a flow were let through. */
  function EmittedFor(ps: seq<Packet>, key: FlowKey, cap: int, limit: int): nat {
    if ps == [] then 0
    else
      var front, p := ps[..|ps| - 1], ps[|ps| - 1];
      EmittedFor(front, key, cap, limit) +
      if HasKey(p, key) && |Step(Run(front, cap, limit), p, cap, limit).1| == 1 then 1 else 0
  }

  /** How many packets that the flow table decides on were let through. */
  function KeyedEmitted(ps: seq<Packet>, cap: int, limit: int): nat {
    if ps == [] then 0
    else
      var front, p := ps[..|ps| - 1], ps[|ps| - 1];
      KeyedEmitted(front, cap, limit) +
      if Eligible(p) && p.Flow().Some? && |Step(Run(front, cap, limit), p, cap, limit).1| == 1 then 1 else 0
  }

  /** Suppression is never silent: what is not emitted is counted. */
  lemma {:induction false} NothingIsSilent(ps: seq<Packet>, cap: int, limit: int)
    ensures EligibleCount(ps) == |Emitted(ps, cap, limit)| + Total(Run(ps, cap, limit).suppressed)
  {
    if ps != [] {
      var front, p := ps[..|ps| - 1], ps[|ps| - 1];
      NothingIsSilent(front, cap, limit);
      hide Eligible, Decide, Total, Tally;
      var st := Run(front, cap, limit);
      var reason := Decide(st.counts, p, cap, limit).1;
      if reason.Some? {
      }
    }
  }

  /** A flow of which `arrived` packets have come has its first ones counted, or was kept out of a full table. */
  predicate FirstPacketsCounted(counts: Counts, key: FlowKey, arrived: nat, cap: int, limit: nat) {
    && |counts| <= limit
    && (key in counts ==> arrived > 0 && counts[key] == Min(arrived, Max(cap, 1)))
    && (key !in counts && arrived > 0 ==> |counts| == limit)
  }

  lemma {:induction false} DecideCountsFirstPackets(counts: Counts, p: Packet, key: FlowKey, arrived: nat, cap: int,
      limit: nat)
    requires Eligible(p) && FirstPacketsCounted(counts, key, arrived, cap, limit)
    ensures var (counts', reason) := Decide(counts, p, cap, limit);
            && FirstPacketsCounted(counts', key, arrived + (if HasKey(p, key) then 1 else 0), cap, limit)
            && (key in counts ==> key in counts')
            && (if key in counts' then counts'[key] else 0) ==
               (if key in counts then counts[key] else 0) + (if HasKey(p, key) && reason.None? then 1 else 0)
  {
    hide Eligible, IsTelemetry, FlowKey.Normalized;
  }

  /**
    * Every flow that was admitted to the table has had exactly its first packets emitted, up to the cap; a flow was
    * kept out only because the table was full, and the table never outgrows its limit.
    */
  lemma {:induction false} FlowsGetTheirFirstPackets(ps: seq<Packet>, key: FlowKey, cap: int, limit: nat)
    ensures var counts := Run(ps, cap, limit).counts;
            && FirstPacketsCounted(counts, key, Arrived(ps, key), cap, limit)
            && EmittedFor(ps, key, cap, limit) == (if key in counts then counts[key] else 0)
  {
    hide Eligible, IsTelemetry, FlowKey.Normalized, Decide;
    if ps != [] {
      var front, p := ps[..|ps| - 1], ps[|ps| - 1];
      FlowsGetTheirFirstPackets(front, key, cap, limit);
      if Eligible(p) {
        DecideCountsFirstPackets(Run(front, cap, limit).counts, p, key, Arrived(front, key), cap, limit);
      }
    }
  }

  // ---------- the sum of the counts ----------

  lemma {:induction false} SumDecide(counts: Counts, p: Packet, cap: int, limit: int)
    ensures var (counts', reason) := Decide(counts, p, cap, limit);
            Sum(counts') == Sum(counts) + if p.Flow().Some? && reason.None? then 1 else 0
  {
    hide Sum, IsTelemetry, FlowKey.Normalized;
    if p.Flow().Some? {
      var key := p.Flow().value.Normalized();
      SumUpdate(counts, key, if key in counts then counts[key] + 1 else 1);
    }
  }

  lemma {:induction false} CountsSumToEmitted(ps: seq<Packet>, cap: int, limit: int)
    ensures Sum(Run(ps, cap, limit).counts) == KeyedEmitted(ps, cap, limit)
  {
    if ps != [] {
      var front, p := ps[..|ps| - 1], ps[|ps| - 1];
      CountsSumToEmitted(front, cap, limit);
      hide Eligible, Decide, Sum;
      SumDecide(Run(front, cap, limit).counts, p, cap, limit);
    } else {
      assert Sum<FlowKey>(map[]) == 0;
    }
  }

  /** However many packets arrive, at most cap times limit of those with a flow key are emitted. */
  lemma {:induction false} EmissionIsBounded(ps: seq<Packet>, cap: nat, limit: nat)
    requires cap >= 1
    ensures KeyedEmitted(ps, cap, limit) <= cap * limit
  {
    hide Run, Sum, KeyedEmitted, Arrived, EmittedFor;
    var counts := Run(ps, cap, limit).counts;
    forall k | k in counts ensures counts[k] <= cap {
      FlowsGetTheirFirstPackets(ps, k, cap, limit);
    }
    FlowsGetTheirFirstPackets(ps, FlowKey("", 0, "", 0, ""), cap, limit);
    CountsSumToEmitted(ps, cap, limit);
    SumBound(counts, cap);
  }

  /** How many packets were held back for a reason. */
  function SuppressedFor(ps: seq<Packet>, reason: Reason, cap: int, limit: int): nat {
    if ps == [] then 0
    else
      var front, p := ps[..|ps| - 1], ps[|ps| - 1];
      SuppressedFor(front, reason, cap, limit) +
      if Eligible(p) && Decide(Run(front, cap, limit).counts, p, cap, limit).1 == Some(reason) then 1 else 0
  }

  lemma {:induction false} TallyCounts(ps: seq<Packet>, reason: Reason, cap: int, limit: int)
    ensures Tally(Run(ps, cap, limit).suppressed, reason) == SuppressedFor(ps, reason, cap, limit)
  {
    hide Decide, Eligible;
    if ps != [] {
      TallyCounts(ps[..|ps| - 1], reason, cap, limit);
    }
  }

  lemma {:induction false} TrackedIffEmitted(ps: seq<Packet>, key: FlowKey, cap: int, limit: int)
    ensures key in Run(ps, cap, limit).counts <==> EmittedFor(ps, key, cap, limit) > 0
  {
    hide Eligible, IsTelemetry, FlowKey.Normalized;
    if ps != [] {
      TrackedIffEmitted(ps[..|ps| - 1], key, cap, limit);
    }
  }

  // ---------- one packet ----------

  /** The gate has let a packet of the flow through before. */
  predicate Tracked(front: seq<Packet>, key: FlowKey, cap: int, limit: nat) {
    EmittedFor(front, key, cap, limit) > 0
  }

  /** UDP of 32 bytes or more, with neither port on the list. */
  predicate MayPass(p: Packet) {
    && p.transportProto == Some("UDP") && |p.payload| >= 32
    && forall port :: Some(port) == p.srcPort || Some(port) == p.dstPort ==> port !in TELEMETRY_UDP_PORTS
  }

  lemma {:induction false} StepEmits(st: State, p: Packet, cap: int, limit: int)
    ensures var passes := MayPass(p) && (p.Flow().Some? ==>
              var key := p.Flow().value.Normalized();
              if key in st.counts then st.counts[key] < cap else |st.counts| < limit);
            Step(st, p, cap, limit).1 ==
            if passes then [RawCandidate(p.payload, p.Flow(), p.timestamp, p.frameNumber)] else []
  {
    assert MayPass(p) <==> Eligible(p) && !IsTelemetry(p);
    hide FlowKey.Normalized, MayPass, IsTelemetry, Eligible, Tally;
  }

  lemma {:induction false} EmittedUnfolds(front: seq<Packet>, p: Packet, cap: int, limit: int)
    ensures Emitted(front + [p], cap, limit) ==
            Emitted(front, cap, limit) + Step(Run(front, cap, limit), p, cap, limit).1
  {
    assert (front + [p])[..|front|] == front;
  }

  /**
    * After any packets, one is let through if and only if it is UDP of 32 bytes or more, neither of its ports is on the
    * list, and its flow, if it has one, has had fewer packets than the cap, or is new and the table has room; what is
    * let through is its payload, with its own flow, time and frame.
    */
  lemma {:induction false} PacketIsEmittedIff(front: seq<Packet>, p: Packet, cap: int, limit: nat)
    ensures var passes := MayPass(p) && (p.Flow().Some? ==>
              var key := p.Flow().value.Normalized();
              if Tracked(front, key, cap, limit) then Arrived(front, key) < cap
              else |Run(front, cap, limit).counts| < limit);
            Emitted(front + [p], cap, limit) ==
            Emitted(front, cap, limit) +
            if passes then [RawCandidate(p.payload, p.Flow(), p.timestamp, p.frameNumber)] else []
  {
    hide FlowKey.Normalized, Run, Emitted, EmittedFor, Arrived, MayPass, Step;
    EmittedUnfolds(front, p, cap, limit);
    StepEmits(Run(front, cap, limit), p, cap, limit);
    if p.Flow().Some? {
      FlowsGetTheirFirstPackets(front, p.Flow().value.Normalized(), cap, limit);
    }
  }

  // ---------- the class ----------

  class RawStreamDecoder {
    const maxUdpCandidatesPerFlow: int
    const maxTrackedUdpFlows: int
    var udpFlowCounts: map<FlowKey, int>
    var suppressedUdpPackets: map<Reason, nat>

    /** The packets seen so far. */
    ghost var seen: seq<Packet>

    ghost predicate Valid()
      reads this
    {
      State(udpFlowCounts, suppressedUdpPackets) == Run(seen, maxUdpCandidatesPerFlow, maxTrackedUdpFlows)
    }

    constructor (perFlow: int, flows: int)
      ensures Valid() && seen == [] && State(udpFlowCounts, suppressedUdpPackets) == State(map[], map[])
      ensures maxUdpCandidatesPerFlow == perFlow && maxTrackedUdpFlows == flows
    {
      maxUdpCandidatesPerFlow, maxTrackedUdpFlows := perFlow, flows;
      udpFlowCounts, suppressedUdpPackets, seen := map[], map[], [];
    }

    method SuppressionReason(p: Packet) returns (reason: Option<Reason>)
      modifies this`udpFlowCounts
      ensures (udpFlowCounts, reason) ==
              Decide(old(udpFlowCounts), p, maxUdpCandidatesPerFlow, maxTrackedUdpFlows)
    {
      if IsTelemetry(p) {
        return Some(TelemetryPort);
      }
      if p.Flow().None? {
        return None;
      }
      var flow := p.Flow().value.Normalized();
      if flow !in udpFlowCounts {
        if |udpFlowCounts| >= maxTrackedUdpFlows {
          return Some(FlowTableFull);
        }
        udpFlowCounts := udpFlowCounts[flow := 1];
        return None;
      }
      if udpFlowCounts[flow] >= maxUdpCandidatesPerFlow {
        return Some(PerFlowCap);
      }
      udpFlowCounts := udpFlowCounts[flow := udpFlowCounts[flow] + 1];
      return None;
    }

    method ParseUdpPacket(p: Packet) returns (out: seq<RawCandidate>)
      requires Valid()
      modifies this
      ensures Valid() && seen == old(seen) + [p]
      ensures Emitted(seen, maxUdpCandidatesPerFlow, maxTrackedUdpFlows) ==
              Emitted(old(seen), maxUdpCandidatesPerFlow, maxTrackedUdpFlows) + out
      ensures (State(udpFlowCounts, suppressedUdpPackets), out) ==
              Step(State(old(udpFlowCounts), old(suppressedUdpPackets)), p,
                   maxUdpCandidatesPerFlow, maxTrackedUdpFlows)
    {
      assert (seen + [p])[..|seen|] == seen;
      seen := seen + [p];
      hide IsTelemetry, FlowKey.Normalized, Decide;
      if p.transportProto != Some("UDP") || |p.payload| < MIN_RAW_UDP_PAYLOAD {
        return [];
      }
      var reason := SuppressionReason(p);
      if reason.Some? {
        suppressedUdpPackets := suppressedUdpPackets[reason.value := Tally(suppressedUdpPackets, reason.value) + 1];
        return [];
      }
      return [RawCandidate(p.payload, p.Flow(), p.timestamp, p.frameNumber)];
    }

    /** What was held back, in all and by reason, and how many flows have had packets let through. */
    method SuppressionSummary() returns (total: nat, byReason: map<Reason, nat>, trackedFlows: nat)
      requires Valid()
      ensures total == EligibleCount(seen) - |Emitted(seen, maxUdpCandidatesPerFlow, maxTrackedUdpFlows)|
      ensures forall reason :: Tally(byReason, reason) ==
                               SuppressedFor(seen, reason, maxUdpCandidatesPerFlow, maxTrackedUdpFlows)
      ensures exists flows: set<FlowKey> :: |flows| == trackedFlows &&
                forall k :: k in flows <==> EmittedFor(seen, k, maxUdpCandidatesPerFlow, maxTrackedUdpFlows) > 0
    {
      total := Total(suppressedUdpPackets);
      byReason := suppressedUdpPackets;
      trackedFlows := |udpFlowCounts|;
      hide Tally, EmittedFor, Run, SuppressedFor;
      NothingIsSilent(seen, maxUdpCandidatesPerFlow, maxTrackedUdpFlows);
      forall reason {
        TallyCounts(seen, reason, maxUdpCandidatesPerFlow, maxTrackedUdpFlows);
      }
      forall k {
        TrackedIffEmitted(seen, k, maxUdpCandidatesPerFlow, maxTrackedUdpFlows);
      }
      assert |udpFlowCounts.Keys| == trackedFlows;
    }
  }
}
