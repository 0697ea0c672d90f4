/**
  * Loops whose next position depends on the current one alone. If such a loop keeps to finitely many positions, it ends
  * at all if and only if it ends within that many turns.
  */
module Walks {
  import opened Basics

  /** Where the loop is after `n` turns from `p`, or nothing if it has ended by then. */
  function Walk(step: nat -> Option<nat>, p: nat, n: nat): Option<nat>
    decreases n
  {
    if n == 0 then Some(p)
    else
      match step(p)
      case None => None
      case Some(q) => Walk(step, q, n - 1)
  }

  lemma {:induction false} WalkSplits(step: nat -> Option<nat>, p: nat, m: nat, n: nat)
    ensures Walk(step, p, m + n) ==
            match Walk(step, p, m) { case None => None case Some(q) => Walk(step, q, n) }
    decreases m
  {
    if m > 0 && step(p).Some? {
      WalkSplits(step, step(p).value, m - 1, n);
    }
  }

  /** The positions at the first `n` turns. */
  function Trace(step: nat -> Option<nat>, p: nat, n: nat): (r: seq<nat>)
    requires forall i :: 0 <= i < n ==> Walk(step, p, i).Some?
    ensures |r| == n && forall i :: 0 <= i < n ==> r[i] == Walk(step, p, i).value
  {
    seq(n, i requires 0 <= i < n => Walk(step, p, i).value)
  }

  ghost function Elements(s: seq<nat>): (r: set<nat>)
    ensures forall x :: x in r <==> x in s
    ensures Distinct(s) ==> |r| == |s|
  {
    if s == [] then {}
    else
      var front, last := s[..|s| - 1], s[|s| - 1];
      assert s == front + [last];
      assert Distinct(s) ==> Distinct(front) && last !in front;
      Elements(front) + {last}
  }

  /** More numbers than there are below `bound` cannot all be different. */
  lemma {:induction false} Pigeonhole(s: seq<nat>, bound: nat) returns (i: nat, j: nat)
    requires |s| > bound && forall k :: 0 <= k < |s| ==> s[k] < bound
    ensures i < j < |s| && s[i] == s[j]
  {
    if Distinct(s) {
      forall x | x in Elements(s) ensures x in Below(bound) {
      }
      SubsetSize(Elements(s), Below(bound));
      assert false;
    }
    i, j :| 0 <= i < j < |s| && s[i] == s[j];
  }

  /** A walk that comes back to a position goes on for ever. */
  lemma {:induction false} ReturningNeverEnds(step: nat -> Option<nat>, p: nat, i: nat, j: nat, n: nat)
    requires i < j && Walk(step, p, j).Some? && Walk(step, p, i) == Walk(step, p, j)
    ensures Walk(step, p, n).Some?
    decreases n
  {
    if n < j {
      WalkSplits(step, p, n, j - n);
    } else {
      WalkSplits(step, p, j, n - j);
      WalkSplits(step, p, i, n - j);
      ReturningNeverEnds(step, p, i, j, i + (n - j));
    }
  }

  /** A walk that stops from `bound` on ends at all if and only if it ends within `bound + 1` turns. */
  lemma {:induction false} EndsIff(step: nat -> Option<nat>, p: nat, bound: nat)
    requires forall q: nat :: q >= bound ==> step(q) == None
    ensures (exists n: nat :: Walk(step, p, n) == None) <==> Walk(step, p, bound + 1) == None
  {
    if Walk(step, p, bound + 1).Some? {
      forall i: nat | i < bound + 1 ensures Walk(step, p, i).Some? && Walk(step, p, i).value < bound {
        WalkSplits(step, p, i, bound + 1 - i);
      }
      var i, j := Pigeonhole(Trace(step, p, bound + 1), bound);
      forall n: nat ensures Walk(step, p, n).Some? {
        ReturningNeverEnds(step, p, i, j, n);
      }
    }
  }
}
