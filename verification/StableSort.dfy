/** Python's `sorted(s, key=f)` and `list.sort(key=f)`: ascending by key, equal keys kept in order of arrival. */
module StableSort {

  ghost predicate Ascending<T>(s: seq<T>, key: T -> int) {
    forall i, j :: 0 <= i < j < |s| ==> key(s[i]) <= key(s[j])
  }

  /** The elements of `s` whose key is `k`, in order. */
  function WithKey<T>(s: seq<T>, key: T -> int, k: int): seq<T> {
    if s == [] then []
    else
      WithKey(s[..|s| - 1], key, k) + if key(s[|s| - 1]) == k then [s[|s| - 1]] else []
  }

  /** Puts `x` into an ascending list, behind every element with the same key. */
  function Insert<T>(s: seq<T>, x: T, key: T -> int): seq<T> {
    if s == [] || key(s[|s| - 1]) <= key(x) then s + [x]
    else Insert(s[..|s| - 1], x, key) + [s[|s| - 1]]
  }

  function Sort<T>(s: seq<T>, key: T -> int): seq<T> {
    if s == [] then [] else Insert(Sort(s[..|s| - 1], key), s[|s| - 1], key)
  }

  lemma {:induction false} InsertPermutes<T>(s: seq<T>, x: T, key: T -> int)
    ensures multiset(Insert(s, x, key)) == multiset(s) + multiset{x}
  {
    if !(s == [] || key(s[|s| - 1]) <= key(x)) {
      assert s == s[..|s| - 1] + [s[|s| - 1]];
      InsertPermutes(s[..|s| - 1], x, key);
    }
  }

  lemma {:induction false} InsertBounded<T>(s: seq<T>, x: T, key: T -> int, top: int)
    requires key(x) <= top
    requires forall i :: 0 <= i < |s| ==> key(s[i]) <= top
    ensures forall i :: 0 <= i < |Insert(s, x, key)| ==> key(Insert(s, x, key)[i]) <= top
  {
    if !(s == [] || key(s[|s| - 1]) <= key(x)) {
      InsertBounded(s[..|s| - 1], x, key, top);
    }
  }

  lemma {:induction false} InsertAscends<T>(s: seq<T>, x: T, key: T -> int)
    requires Ascending(s, key)
    ensures Ascending(Insert(s, x, key), key)
  {
    if !(s == [] || key(s[|s| - 1]) <= key(x)) {
      InsertAscends(s[..|s| - 1], x, key);
      InsertBounded(s[..|s| - 1], x, key, key(s[|s| - 1]));
    }
  }

  lemma {:induction false} AllBelow<T>(front: seq<T>, last: T, x: T, key: T -> int, k: int)
    requires key(x) == k < key(last)
    ensures WithKey(front, key, k) + [x] == WithKey(front + [x], key, k)
    ensures WithKey(front + [last], key, k) == WithKey(front, key, k)
  {
    assert (front + [x])[..|front|] == front;
    assert (front + [last])[..|front|] == front;
  }

  lemma {:induction false} InsertStable<T>(s: seq<T>, x: T, key: T -> int, k: int)
    requires Ascending(s, key)
    ensures WithKey(Insert(s, x, key), key, k) == WithKey(s + [x], key, k)
  {
    assert (s + [x])[..|s|] == s;
    if !(s == [] || key(s[|s| - 1]) <= key(x)) {
      var front, last := s[..|s| - 1], s[|s| - 1];
      InsertStable(front, x, key, k);
      assert (front + [x])[..|front|] == front;
      var r := Insert(front, x, key);
      assert (r + [last])[..|r|] == r;
      if key(x) == k {
        AllBelow(front, last, x, key, k);
      }
    }
  }

  /** The three clauses fix the result: ascending, a permutation, and stable among equal keys. */
  lemma {:induction false} SortCorrect<T>(s: seq<T>, key: T -> int)
    ensures Ascending(Sort(s, key), key)
    ensures multiset(Sort(s, key)) == multiset(s)
    ensures forall k :: WithKey(Sort(s, key), key, k) == WithKey(s, key, k)
  {
    if s != [] {
      var front, last := s[..|s| - 1], s[|s| - 1];
      assert s == front + [last];
      SortCorrect(front, key);
      InsertAscends(Sort(front, key), last, key);
      InsertPermutes(Sort(front, key), last, key);
      forall k ensures WithKey(Sort(s, key), key, k) == WithKey(s, key, k) {
        InsertStable(Sort(front, key), last, key, k);
        var r := Sort(front, key);
        assert (r + [last])[..|r|] == r;
      }
    }
  }

  lemma {:induction false} SortMembers<T>(s: seq<T>, key: T -> int)
    ensures |Sort(s, key)| == |s|
    ensures forall x :: x in Sort(s, key) <==> x in s
  {
    SortCorrect(s, key);
    var r := Sort(s, key);
    assert |multiset(r)| == |r| && |multiset(s)| == |s|;
    forall x ensures x in r <==> x in s {
      assert x in r <==> x in multiset(r);
    }
  }

  lemma {:induction false} SortAscending<T>(s: seq<T>, key: T -> int)
    requires Ascending(s, key)
    ensures Sort(s, key) == s
  {
    if s != [] {
      SortAscending(s[..|s| - 1], key);
      assert s == s[..|s| - 1] + [s[|s| - 1]];
    }
  }

  /** Sorting again after every arrival is sorting once. */
  lemma {:induction false} SortAppend<T>(s: seq<T>, x: T, key: T -> int)
    ensures Sort(Sort(s, key) + [x], key) == Sort(s + [x], key)
  {
    var r := Sort(s, key);
    SortCorrect(s, key);
    SortAscending(r, key);
    assert (r + [x])[..|r|] == r && (s + [x])[..|s|] == s;
  }
}
