/**
  * Defragmentation is exact. For fragments cut out of one payload `P`, in any order and with any overlaps and
  * duplicates, the packet is rebuilt when and only when a last fragment has arrived and the fragments cover `P`,
  * counting from the last time it was rebuilt. What comes late is held, and is mixed into a later datagram with the
  * same key.
  */
module IpDefragmentation {
  import opened Basics
  import opened Models
  import opened IpDefragmenter
  import StableSort

  /** Cut out of `P`; a fragment that says it is the last one ends where `P` ends. */
  predicate CutFrom(f: Fragment, P: bytes) {
    && f.End() <= |P| && f.data == P[f.offset..f.End()]
    && (!f.moreFrags ==> f.End() == |P|)
  }

  ghost predicate AllCutFrom(frags: seq<Fragment>, P: bytes) {
    forall f :: f in frags ==> CutFrom(f, P)
  }

  ghost predicate CoveredBy(frags: seq<Fragment>, k: int) {
    exists f :: f in frags && f.offset <= k < f.End()
  }

  /** A last fragment is there, and every byte of a payload of length `n` is in some fragment. */
  ghost predicate Complete(frags: seq<Fragment>, n: nat) {
    && (exists f :: f in frags && !f.moreFrags)
    && forall k :: 0 <= k < n ==> CoveredBy(frags, k)
  }

  /** A fragment that starts past everything merged leaves a byte that no later fragment can supply. */
  lemma {:induction false} GapIsIncomplete(sorted: seq<Fragment>, i: nat, P: bytes, n: nat)
    requires i < |sorted| && n <= |P| && StableSort.Ascending(sorted, FragmentOffset)
    requires AllCutFrom(sorted, P) && n < sorted[i].offset
    requires forall j :: 0 <= j < i ==> sorted[j].End() <= n
    ensures !Complete(sorted, |P|)
  {
    assert sorted[i] in sorted;
    forall f | f in sorted ensures !(f.offset <= n < f.End()) {
      var j :| 0 <= j < |sorted| && sorted[j] == f;
      assert j > i ==> FragmentOffset(sorted[i]) <= FragmentOffset(sorted[j]);
    }
    assert !CoveredBy(sorted, n);
  }

  /** The sorted merge rebuilds `P` exactly when nothing is missing; it starts where everything before is merged. */
  lemma {:induction false} MergeExact(sorted: seq<Fragment>, i: nat, P: bytes, n: nat)
    requires i <= |sorted| && n <= |P| && StableSort.Ascending(sorted, FragmentOffset)
    requires AllCutFrom(sorted, P)
    requires forall j :: 0 <= j < i ==> sorted[j].End() <= n
    requires forall j :: 0 <= j < i ==> sorted[j].moreFrags
    requires forall k :: 0 <= k < n ==> CoveredBy(sorted, k)
    ensures Merge(sorted, i, P[..n]) == if Complete(sorted, |P|) then Some(P) else None
    decreases |sorted| - i
  {
    if i == |sorted| {
      assert forall f :: f in sorted ==> f.moreFrags;
    } else {
      var f := sorted[i];
      assert f in sorted;
      if f.offset > n {
        GapIsIncomplete(sorted, i, P, n);
      } else {
        var n' := if n < f.End() then f.End() else n;
        assert P[..n'] == if n < f.End() then P[..n] + f.data[n - f.offset..] else P[..n];
        forall k | 0 <= k < n' ensures CoveredBy(sorted, k) {
          assert k >= n ==> f.offset <= k < f.End();
        }
        if !f.moreFrags {
          assert n' == |P| && P[..n'] == P;
        } else {
          MergeExact(sorted, i + 1, P, n');
        }
      }
    }
  }

  lemma {:induction false} CompleteIgnoresOrder(a: seq<Fragment>, b: seq<Fragment>, n: nat)
    requires forall f :: f in a <==> f in b
    ensures Complete(a, n) <==> Complete(b, n)
  {
    assert forall k :: CoveredBy(a, k) <==> CoveredBy(b, k);
  }

  lemma {:induction false} RebuildExact(frags: seq<Fragment>, P: bytes)
    requires AllCutFrom(frags, P)
    ensures Rebuild(frags) == if Complete(frags, |P|) then Some(P) else None
  {
    var sorted := StableSort.Sort(frags, FragmentOffset);
    StableSort.SortCorrect(frags, FragmentOffset);
    StableSort.SortMembers(frags, FragmentOffset);
    CompleteIgnoresOrder(frags, sorted, |P|);
    assert P[..0] == [];
    if HasLast(frags) {
      MergeExact(sorted, 0, P, 0);
    }
  }

  // ---------- whole runs from any table without the key, many datagrams at once ----------

  function Run(start: Table, ps: seq<Packet>): Table {
    if ps == [] then start else Process(Run(start, ps[..|ps| - 1]), ps[|ps| - 1]).0
  }

  /** The fragments of one datagram among the packets seen. */
  function FragmentsOf(ps: seq<Packet>, key: FragmentKey): seq<Fragment> {
    if ps == [] then []
    else
      var front, p := FragmentsOf(ps[..|ps| - 1], key), ps[|ps| - 1];
      if IsFragment(p) && KeyOf(p) == key then front + [FragmentOf(p)] else front
  }

  /** The fragments that have arrived since the datagram was last complete. */
  ghost function Since(ps: seq<Packet>, key: FragmentKey, n: nat): seq<Fragment> {
    if ps == [] then []
    else
      var front, p := Since(ps[..|ps| - 1], key, n), ps[|ps| - 1];
      if !(IsFragment(p) && KeyOf(p) == key) then front
      else if Complete(front + [FragmentOf(p)], n) then []
      else front + [FragmentOf(p)]
  }

  lemma {:induction false} SinceIsPart(ps: seq<Packet>, key: FragmentKey, n: nat)
    ensures forall f :: f in Since(ps, key, n) ==> f in FragmentsOf(ps, key)
  {
    if ps != [] {
      SinceIsPart(ps[..|ps| - 1], key, n);
    }
  }

  lemma {:induction false} ProcessAt(table: Table, p: Packet, key: FragmentKey)
    ensures IsFragment(p) && KeyOf(p) == key ==>
              var (table', r) := Process(table, p);
              var rebuilt := Rebuild(Pending(table, key) + [FragmentOf(p)]);
              && r == (if rebuilt.Some? then Some(Rebuilt(p, rebuilt.value)) else None)
              && Pending(table', key) == (if rebuilt.Some? then [] else Pending(table, key) + [FragmentOf(p)])
              && (key in table' <==> rebuilt.None?)
    ensures forall other :: !(IsFragment(p) && KeyOf(p) == other) ==>
              Pending(Process(table, p).0, other) == Pending(table, other) &&
              (other in Process(table, p).0 <==> other in table)
  {
    hide Rebuild;
  }

  lemma {:induction false} GrownIsCutFrom(ps: seq<Packet>, key: FragmentKey, P: bytes)
    requires ps != [] && AllCutFrom(FragmentsOf(ps, key), P)
    requires IsFragment(ps[|ps| - 1]) && KeyOf(ps[|ps| - 1]) == key
    ensures AllCutFrom(Since(ps[..|ps| - 1], key, |P|) + [FragmentOf(ps[|ps| - 1])], P)
  {
    hide CutFrom, Complete;
    var front, f := ps[..|ps| - 1], FragmentOf(ps[|ps| - 1]);
    SinceIsPart(front, key, |P|);
    assert FragmentsOf(ps, key) == FragmentsOf(front, key) + [f];
    assert f in FragmentsOf(ps, key);
  }

  /**
    * What is held under a key, after any packets of any datagrams, are the fragments since its datagram was last
    * complete; duplicates that come after that are the beginning of the next time.
    */
  lemma {:induction false} HoldsSince(start: Table, ps: seq<Packet>, key: FragmentKey, P: bytes)
    requires key !in start && AllCutFrom(FragmentsOf(ps, key), P)
    ensures Pending(Run(start, ps), key) == Since(ps, key, |P|)
    ensures key in Run(start, ps) <==> Since(ps, key, |P|) != []
  {
    if ps != [] {
      var front, p := ps[..|ps| - 1], ps[|ps| - 1];
      HoldsSince(start, front, key, P);
      hide Process, Rebuild, Complete, CutFrom;
      ProcessAt(Run(start, front), p, key);
      if IsFragment(p) && KeyOf(p) == key {
        GrownIsCutFrom(ps, key, P);
        RebuildExact(Since(front, key, |P|) + [FragmentOf(p)], P);
      }
    }
  }

  /** `r` carries `P` whole, and is otherwise the packet `p`. */
  predicate IsWhole(r: Packet, p: Packet, P: bytes) {
    && r.payload == P && r.ipFragOffset == 0 && !r.ipMoreFrags
    && r.(payload := p.payload, ipFragOffset := p.ipFragOffset, ipMoreFrags := p.ipMoreFrags) == p
  }

  lemma {:induction false} RebuiltIsWhole(p: Packet, P: bytes)
    requires IsFragment(p)
    ensures IsWhole(Rebuilt(p, P), p, P)
  {
  }

  /**
    * In any run, a fragment is answered with the datagram if and only if it completes what has arrived since the
    * datagram was last complete, and otherwise with nothing; the fragments of every other key stay as they were.
    */
  lemma {:induction false} DatagramRebuiltIff(start: Table, ps: seq<Packet>, key: FragmentKey, P: bytes)
    requires key !in start && ps != [] && AllCutFrom(FragmentsOf(ps, key), P)
    requires IsFragment(ps[|ps| - 1]) && KeyOf(ps[|ps| - 1]) == key
    ensures var front, p := ps[..|ps| - 1], ps[|ps| - 1];
            var (table, r) := Process(Run(start, front), p);
            && (r.Some? <==> Complete(Since(front, key, |P|) + [FragmentOf(p)], |P|))
            && (r.Some? ==> IsWhole(r.value, p, P))
            && forall other :: other != key ==> Pending(table, other) == Pending(Run(start, front), other)
  {
    var front, p := ps[..|ps| - 1], ps[|ps| - 1];
    HoldsSince(start, front, key, P);
    RebuiltIsWhole(p, P);
    hide Process, Rebuild, Rebuilt, Complete, CutFrom, Since;
    ProcessAt(Run(start, front), p, key);
    GrownIsCutFrom(ps, key, P);
    RebuildExact(Since(front, key, |P|) + [FragmentOf(p)], P);
  }

  /** The datagram was still incomplete after every proper prefix of the packets. */
  ghost predicate IncompleteBefore(ps: seq<Packet>, key: FragmentKey, n: nat) {
    forall i :: 0 <= i < |ps| ==> !Complete(FragmentsOf(ps[..i], key), n)
  }

  /** Up to the first time that a datagram is complete, all its fragments count. */
  lemma {:induction false} SinceIsAllAtFirst(ps: seq<Packet>, key: FragmentKey, n: nat)
    requires IncompleteBefore(ps, key, n)
    ensures Since(ps, key, n) == if Complete(FragmentsOf(ps, key), n) && ps != [] then [] else FragmentsOf(ps, key)
  {
    hide Complete;
    if ps != [] {
      var front, p := ps[..|ps| - 1], ps[|ps| - 1];
      forall i | 0 <= i < |front| ensures !Complete(FragmentsOf(front[..i], key), n) {
        assert front[..i] == ps[..i];
      }
      assert !Complete(FragmentsOf(front, key), n);
      SinceIsAllAtFirst(front, key, n);
    }
  }

  /** While a datagram is incomplete its fragments accumulate, whatever other packets are processed in between. */
  lemma {:induction false} FragmentsAccumulate(start: Table, ps: seq<Packet>, key: FragmentKey, P: bytes)
    requires key !in start && AllCutFrom(FragmentsOf(ps, key), P)
    requires IncompleteBefore(ps, key, |P|) && !Complete(FragmentsOf(ps, key), |P|)
    ensures Pending(Run(start, ps), key) == FragmentsOf(ps, key)
    ensures key in Run(start, ps) <==> FragmentsOf(ps, key) != []
  {
    HoldsSince(start, ps, key, P);
    SinceIsAllAtFirst(ps, key, |P|);
  }

  // ---------- one datagram after another under the same key ----------

  lemma {:induction false} RunSplits(start: Table, ps: seq<Packet>, qs: seq<Packet>)
    ensures Run(start, ps + qs) == Run(Run(start, ps), qs)
  {
    hide Process;
    if qs == [] {
      ConcatNothing(ps);
    } else {
      var all := ps + qs;
      RunSplits(start, ps, qs[..|qs| - 1]);
      assert all[..|all| - 1] == ps + qs[..|qs| - 1] && all[|all| - 1] == qs[|qs| - 1];
    }
  }

  /** A later datagram under the same key finds nothing held if and only if no fragment of the earlier one came late. */
  lemma {:induction false} KeyIsReusableIff(start: Table, ps: seq<Packet>, key: FragmentKey, P: bytes)
    requires key !in start && AllCutFrom(FragmentsOf(ps, key), P)
    ensures key !in Run(start, ps) <==> Since(ps, key, |P|) == []
  {
    HoldsSince(start, ps, key, P);
  }

  /** And then it is rebuilt as if it were the first. */
  lemma {:induction false} LaterDatagramRebuiltIff(
    start: Table, ps: seq<Packet>, P: bytes, qs: seq<Packet>, Q: bytes, key: FragmentKey)
    requires key !in start && AllCutFrom(FragmentsOf(ps, key), P) && Since(ps, key, |P|) == []
    requires qs != [] && AllCutFrom(FragmentsOf(qs, key), Q)
    requires IsFragment(qs[|qs| - 1]) && KeyOf(qs[|qs| - 1]) == key
    ensures var front, q := qs[..|qs| - 1], qs[|qs| - 1];
            var r := Process(Run(start, ps + front), q).1;
            && (r.Some? <==> Complete(Since(front, key, |Q|) + [FragmentOf(q)], |Q|))
            && (r.Some? ==> IsWhole(r.value, q, Q))
  {
    hide Process, Complete, CutFrom, Since;
    KeyIsReusableIff(start, ps, key, P);
    RunSplits(start, ps, qs[..|qs| - 1]);
    DatagramRebuiltIff(Run(start, ps), qs, key, Q);
  }

  function FragmentPacket(key: FragmentKey, offset: nat, more: bool, data: bytes): Packet {
    Packet(1, 0.0, 1, [], Some(4), Some(key.srcIp), Some(key.dstIp), Some(key.proto), Some(key.id), offset, more,
           None, None, None, None, None, None, data)
  }

  lemma {:induction false} TwoFragments(a: Fragment, b: Fragment)
    requires a.offset < b.offset && a.moreFrags && !b.moreFrags && a.offset == 0 && a.End() == b.offset
    requires a.data != [] && b.data != []
    ensures Rebuild([a, b]) == Some(a.data + b.data) && Rebuild([b, a]) == Some(a.data + b.data)
    ensures Rebuild([a]) == None
  {
    var P := a.data + b.data;
    assert P[..a.End()] == a.data && P[b.offset..b.End()] == b.data;
    forall frags | frags == [a, b] || frags == [b, a] ensures AllCutFrom(frags, P) && Complete(frags, |P|) {
      assert a in frags && b in frags;
      forall k | 0 <= k < |P| ensures CoveredBy(frags, k) {
        assert k < a.End() ==> a.offset <= k < a.End();
        assert k >= a.End() ==> b.offset <= k < b.End();
      }
    }
    RebuildExact([a, b], P);
    RebuildExact([b, a], P);
  }

  lemma {:induction false} LoneLast(b: Fragment)
    requires b.offset > 0 && !b.moreFrags
    ensures Rebuild([b]) == None
  {
    assert [b][..0] == [];
    assert StableSort.Sort([b], FragmentOffset) == [b];
  }

  lemma {:induction false} OneMoreFragment(
    start: Table, ps: seq<Packet>, key: FragmentKey, offset: nat, more: bool, data: bytes)
    requires offset > 0 || more
    ensures var p := FragmentPacket(key, offset, more, data);
            var frags := Pending(Run(start, ps), key) + [FragmentOf(p)];
            && Process(Run(start, ps), p).1 ==
               (if Rebuild(frags).Some? then Some(Rebuilt(p, Rebuild(frags).value)) else None)
            && Pending(Run(start, ps + [p]), key) == if Rebuild(frags).Some? then [] else frags
  {
    hide Process, Rebuild;
    var p := FragmentPacket(key, offset, more, data);
    ProcessAt(Run(start, ps), p, key);
  }

  lemma {:induction false} RunNothing(start: Table, key: FragmentKey)
    requires key !in start
    ensures Pending(Run(start, []), key) == []
  {
  }

  lemma {:induction false} LateDuplicateIsHeld(start: Table, key: FragmentKey)
    requires key !in start
    ensures var first, last := FragmentPacket(key, 0, true, [1]), FragmentPacket(key, 1, false, [2]);
            var next := FragmentPacket(key, 0, true, [9]);
            && Process(Run(start, [first]), last).1 == Some(Rebuilt(last, [1, 2]))
            && Process(Run(start, [first, last, last]), next).1 == Some(Rebuilt(next, [9, 2]))
  {
    hide Process, Rebuild, Run, Pending, Rebuilt;
    var first, last := FragmentPacket(key, 0, true, [1]), FragmentPacket(key, 1, false, [2]);
    var a, b, c := Fragment(0, true, [1], 0.0), Fragment(1, false, [2], 0.0), Fragment(0, true, [9], 0.0);
    TwoFragments(a, b);
    TwoFragments(c, b);
    LoneLast(b);
    RunNothing(start, key);
    OneMoreFragment(start, [], key, 0, true, [1]);
    assert [] + [first] == [first] && [] + [a] == [a] && [] + [b] == [b];
    OneMoreFragment(start, [first], key, 1, false, [2]);
    assert [first] + [last] == [first, last] && [a] + [b] == [a, b] && [1] + [2] == [1, 2];
    OneMoreFragment(start, [first, last], key, 1, false, [2]);
    assert [first, last] + [last] == [first, last, last] && [b] + [c] == [b, c] && [9] + [2] == [9, 2];
    OneMoreFragment(start, [first, last, last], key, 0, true, [9]);
  }

  /**
    * A duplicate that comes after its datagram is complete is held, and the first fragment of the next datagram with
    * the key is completed with it.
    */
  lemma {:induction false} LateDuplicateMixes(start: Table, key: FragmentKey)
    requires key !in start
    ensures var first, last := FragmentPacket(key, 0, true, [1]), FragmentPacket(key, 1, false, [2]);
            var next := FragmentPacket(key, 0, true, [9]);
            var (r, r') := (Process(Run(start, [first]), last).1, Process(Run(start, [first, last, last]), next).1);
            && r.Some? && IsWhole(r.value, last, [1, 2])
            && r'.Some? && IsWhole(r'.value, next, [9, 2])
  {
    RebuiltIsWhole(FragmentPacket(key, 1, false, [2]), [1, 2]);
    RebuiltIsWhole(FragmentPacket(key, 0, true, [9]), [9, 2]);
    hide Process, Run, Rebuilt, IsWhole, FragmentPacket;
    LateDuplicateIsHeld(start, key);
  }

  // ---------- which fragments belong together ----------

  /** Fragments are put together if and only if source, destination, protocol and identification are the same. */
  lemma {:induction false} SameKeyIff(p: Packet, q: Packet)
    requires IsFragment(p) && IsFragment(q)
    ensures KeyOf(p) == KeyOf(q) <==>
            p.srcIp == q.srcIp && p.dstIp == q.dstIp && p.ipProto == q.ipProto && p.ipId == q.ipId
  {
  }

  // ---------- packets that are not put together ----------

  /** A packet is handed on as it is, and nothing is held of it, exactly when it is no fragment or cannot be keyed. */
  lemma {:induction false} PassesThroughIff(table: Table, p: Packet)
    ensures Process(table, p) == (table, Some(p)) <==>
            || p.ipVersion != Some(4) || (p.ipFragOffset == 0 && !p.ipMoreFrags)
            || p.srcIp.None? || p.dstIp.None? || p.ipProto.None? || p.ipId.None?
  {
    hide Rebuild;
    if IsFragment(p) {
      assert forall payload :: Rebuilt(p, payload) != p;
    }
  }

  function Results(start: Table, ps: seq<Packet>): seq<Option<Packet>> {
    if ps == [] then []
    else Results(start, ps[..|ps| - 1]) + [Process(Run(start, ps[..|ps| - 1]), ps[|ps| - 1]).1]
  }

  /** Without identifications, as the capture reader leaves them, no fragments are ever put together. */
  lemma {:induction false} NothingWithoutId(start: Table, ps: seq<Packet>)
    requires forall i :: 0 <= i < |ps| ==> ps[i].ipId.None?
    ensures Run(start, ps) == start && |Results(start, ps)| == |ps|
    ensures forall i :: 0 <= i < |ps| ==> Results(start, ps)[i] == Some(ps[i])
  {
    hide Process;
    if ps != [] {
      NothingWithoutId(start, ps[..|ps| - 1]);
      PassesThroughIff(start, ps[|ps| - 1]);
    }
  }
}
