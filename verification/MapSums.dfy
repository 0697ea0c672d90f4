/** The sum of the values of a map. */
module MapSums {
  import opened Basics

  ghost function Sum<K(!new)>(m: map<K, int>): int {
    if m == map[] then 0
    else
      var k :| k in m;
      m[k] + Sum(m - {k})
  }

  lemma {:induction false} SumSplits<K(!new)>(m: map<K, int>, key: K)
    requires key in m
    ensures Sum(m) == m[key] + Sum(m - {key})
    decreases |m|
  {
    var k :| k in m && Sum(m) == m[k] + Sum(m - {k});
    if k != key {
      SumSplits(m - {k}, key);
      SumSplits(m - {key}, k);
      assert m - {k} - {key} == m - {key} - {k};
    }
  }

  lemma {:induction false} SumUpdate<K(!new)>(m: map<K, int>, key: K, n: int)
    ensures Sum(m[key := n]) == Sum(m) + n - if key in m then m[key] else 0
  {
    var after := m[key := n];
    SumSplits(after, key);
    assert after - {key} == m - {key};
    if key in m {
      SumSplits(m, key);
    } else {
      assert m - {key} == m;
    }
  }

  lemma {:induction false} SumBound<K(!new)>(m: map<K, int>, cap: nat)
    requires forall k :: k in m ==> m[k] <= cap
    ensures Sum(m) <= cap * |m|
    decreases |m|
  {
    if m != map[] {
      var k :| k in m;
      SumSplits(m, k);
      SumBound(m - {k}, cap);
      assert |m - {k}| == |m| - 1;
      assert cap * |m| == cap * (|m| - 1) + cap;
    }
  }

  ghost function SumAlong<K>(m: map<K, int>, order: seq<K>): int
    requires forall k :: k in order ==> k in m
  {
    if order == [] then 0 else SumAlong(m, order[..|order| - 1]) + m[order[|order| - 1]]
  }

  lemma {:induction false} SumAlongFront<K>(m: map<K, int>, order: seq<K>, key: K)
    requires key !in order && forall k :: k in order ==> k in m
    ensures SumAlong(m, order) == SumAlong(m - {key}, order)
  {
    if order != [] {
      assert order[|order| - 1] in order;
      SumAlongFront(m, order[..|order| - 1], key);
    }
  }

  /** Adding up along any listing of the keys gives the sum. */
  lemma {:induction false} SumByOrder<K(!new)>(m: map<K, int>, order: seq<K>)
    requires Distinct(order) && forall k :: k in order <==> k in m
    ensures SumAlong(m, order) == Sum(m)
    decreases |order|
  {
    if order == [] {
      assert m == map[];
    } else {
      var front, last := order[..|order| - 1], order[|order| - 1];
      assert order == front + [last] && last in order && last !in front;
      SumAlongFront(m, front, last);
      SumByOrder(m - {last}, front);
      SumSplits(m, last);
    }
  }
}
