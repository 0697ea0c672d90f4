/**
  * The reader agrees with the derivation of a name: the loop check never fires on a well-formed name, and the budget
  * of ten jumps cuts a name exactly at its tenth pointer.
  */
module DnsDecompression {
  import opened Basics
  import opened DnsNames

  // ---------- derivations do not loop ----------

  function Size(d: Derivation): nat {
    match d
    case End => 0
    case Label(text, rest) => 1 + Size(rest)
    case Jump(target, rest) => 1 + Size(rest)
  }

  /** The offset at which the rest of a derivation stands. */
  function Next(data: bytes, offset: nat, d: Derivation): nat
    requires Derives(data, offset, d) && !d.End?
  {
    if d.Label? then offset + 1 + data[offset] else d.target
  }

  function Trail(data: bytes, offset: nat, d: Derivation): set<nat>
    requires Derives(data, offset, d)
    decreases d
  {
    if d.End? then {offset} else {offset} + Trail(data, Next(data, offset, d), d.rest)
  }

  /** What stands at an offset is determined by the bytes. */
  lemma {:induction false} DerivationIsUnique(data: bytes, offset: nat, d: Derivation, d': Derivation)
    requires Derives(data, offset, d) && Derives(data, offset, d')
    ensures d == d'
    decreases d
  {
    if !d.End? {
      DerivationIsUnique(data, Next(data, offset, d), d.rest, d'.rest);
    }
  }

  lemma {:induction false} TrailHasDerivation(data: bytes, offset: nat, d: Derivation, o: nat)
    requires Derives(data, offset, d) && o in Trail(data, offset, d)
    ensures exists d' :: Derives(data, o, d') && Size(d') <= Size(d)
    decreases d
  {
    if o != offset {
      TrailHasDerivation(data, Next(data, offset, d), d.rest, o);
    }
  }

  /** A name never comes back to an offset, for then it would have no finite derivation. */
  lemma {:induction false} NameDoesNotLoop(data: bytes, offset: nat, d: Derivation)
    requires Derives(data, offset, d) && !d.End?
    ensures offset !in Trail(data, Next(data, offset, d), d.rest)
  {
    var next := Next(data, offset, d);
    if offset in Trail(data, next, d.rest) {
      TrailHasDerivation(data, next, d.rest, offset);
      var d' :| Derives(data, offset, d') && Size(d') <= Size(d.rest);
      DerivationIsUnique(data, offset, d, d');
    }
  }

  // ---------- the reader follows the derivation ----------

  lemma {:induction false} TurnEnds(data: bytes, r: Reader)
    requires Derives(data, r.offset, End) && !r.done && r.jumpsLeft > 0 && r.offset !in r.visited
    ensures var f := Finish(data, r);
            && f.labels == r.labels && f.jumped == r.jumped && f.initialOffset == r.initialOffset
            && f.offset == r.offset + 1 == EndOffset(data, r.offset, End)
  {
    var s := Turn(data, r);
    assert Finish(data, s) == s;
  }

  lemma {:induction false} FollowsDerivation(data: bytes, r: Reader, d: Derivation)
    requires Derives(data, r.offset, d) && !r.done
    requires r.visited !! Trail(data, r.offset, d)
    requires r.jumped || r.jumpsLeft > 0
    ensures var f := Finish(data, r);
            && f.labels == r.labels + LabelsWithin(d, r.jumpsLeft)
            && FinalOffset(f) == (if r.jumped then r.initialOffset else EndOffset(data, r.offset, d))
            && (r.jumped ==> f.jumped && f.initialOffset == r.initialOffset)
    decreases d
  {
    assert r.offset < |data| && r.offset in Trail(data, r.offset, d);
    hide Derives, EndOffset, Finish, Turn;
    if r.jumpsLeft == 0 {
      ConcatNothing(r.labels);
    } else if d.End? {
      TurnEnds(data, r);
      ConcatNothing(r.labels);
    } else {
      NameDoesNotLoop(data, r.offset, d);
      FollowsDerivation(data, Turn(data, r), d.rest);
      if d.Label? {
        ConcatAssociative(r.labels, [d.text], LabelsWithin(d.rest, r.jumpsLeft));
      }
    }
  }

  /**
    * A name with a finite derivation is read as its labels up to the tenth jump, and the offset returned is the one
    * behind its terminator or its first pointer.
    */
  lemma {:induction false} ReadsName(data: bytes, start: nat, d: Derivation)
    requires Derives(data, start, d)
    ensures var r := Finish(data, Start(start));
            r.labels == LabelsWithin(d, MAX_JUMPS) && FinalOffset(r) == EndOffset(data, start, d)
  {
    FollowsDerivation(data, Start(start), d);
  }

  /** The labels from the `budget`-th jump on. */
  function LabelsAfter(d: Derivation, budget: nat): seq<bytes> {
    if budget == 0 then Labels(d)
    else
      match d
      case End => []
      case Label(text, rest) => LabelsAfter(rest, budget)
      case Jump(target, rest) => LabelsAfter(rest, budget - 1)
  }

  lemma {:induction false} LabelsSplit(d: Derivation, budget: nat)
    ensures Labels(d) == LabelsWithin(d, budget) + LabelsAfter(d, budget)
    ensures Jumps(d) < budget ==> LabelsAfter(d, budget) == []
  {
    if budget > 0 && !d.End? {
      LabelsSplit(d.rest, if d.Jump? then budget - 1 else budget);
    }
  }

  /** All labels are read exactly when none of them lies behind the tenth pointer; nine pointers are always safe. */
  lemma {:induction false} ReadsWholeNameIff(data: bytes, start: nat, d: Derivation)
    requires Derives(data, start, d)
    ensures Finish(data, Start(start)).labels == Labels(d) <==> LabelsAfter(d, MAX_JUMPS) == []
    ensures Jumps(d) <= 9 ==> Finish(data, Start(start)).labels == Labels(d)
  {
    ReadsName(data, start, d);
    LabelsSplit(d, MAX_JUMPS);
  }

  // ---------- the domain ----------

  const DOT: byte := 46

  /** The parts of `d` between its dots. */
  function Parts(d: bytes): (r: seq<bytes>)
    ensures r != []
  {
    if d == [] then [[]]
    else
      var rest := Parts(d[1..]);
      if d[0] == DOT then [[]] + rest else [[d[0]] + rest[0]] + rest[1..]
  }

  function Dots(d: bytes): nat {
    if d == [] then 0 else Dots(d[1..]) + if d[0] == DOT then 1 else 0
  }

  function AllDots(ls: seq<bytes>): nat {
    if ls == [] then 0 else Dots(ls[0]) + AllDots(ls[1..])
  }

  /** There are labels, and none of them contains a dot. */
  predicate Dotless(ls: seq<bytes>) {
    ls != [] && forall i :: 0 <= i < |ls| ==> DOT !in ls[i]
  }

  lemma {:induction false} DomainUnfolds(ls: seq<bytes>)
    requires |ls| > 1
    ensures Domain(ls) == ls[0] + [DOT] + Domain(ls[1..])
    decreases |ls|
  {
    if |ls| == 2 {
      assert ls[..1] == [ls[0]] && ls[1..] == [ls[1]];
    } else {
      var front, rest := ls[..|ls| - 1], ls[1..];
      DomainUnfolds(front);
      assert front[1..] == rest[..|rest| - 1];
    }
  }

  lemma {:induction false} PartsOfLabel(a: bytes, b: bytes)
    requires DOT !in a
    ensures Parts(a) == [a] && Parts(a + [DOT] + b) == [a] + Parts(b)
  {
    if a == [] {
      assert a + [DOT] + b == [DOT] + b;
    } else {
      PartsOfLabel(a[1..], b);
      assert a == [a[0]] + a[1..] && (a + [DOT] + b)[1..] == a[1..] + [DOT] + b;
    }
  }

  lemma {:induction false} PartsCount(d: bytes)
    ensures |Parts(d)| == 1 + Dots(d)
  {
    if d != [] {
      PartsCount(d[1..]);
    }
  }

  lemma {:induction false} DotsConcat(a: bytes, b: bytes)
    ensures Dots(a + b) == Dots(a) + Dots(b)
  {
    if a == [] {
      assert a + b == b;
    } else {
      DotsConcat(a[1..], b);
      assert (a + b)[1..] == a[1..] + b;
    }
  }

  lemma {:induction false} DotsOfDomain(ls: seq<bytes>)
    requires ls != []
    ensures Dots(Domain(ls)) == AllDots(ls) + |ls| - 1
    decreases |ls|
  {
    if |ls| > 1 {
      DomainUnfolds(ls);
      DotsOfDomain(ls[1..]);
      DotsConcat(ls[0] + [DOT], Domain(ls[1..]));
      DotsConcat(ls[0], [DOT]);
    }
  }

  lemma {:induction false} NoDotIff(d: bytes)
    ensures Dots(d) == 0 <==> DOT !in d
  {
    if d != [] {
      NoDotIff(d[1..]);
    }
  }

  lemma {:induction false} DotlessIff(ls: seq<bytes>)
    ensures Dotless(ls) <==> ls != [] && AllDots(ls) == 0
  {
    if ls != [] {
      NoDotIff(ls[0]);
      DotlessIff(ls[1..]);
    }
  }

  lemma {:induction false} PartsOfDomain(ls: seq<bytes>)
    requires Dotless(ls)
    ensures Parts(Domain(ls)) == ls
    decreases |ls|
  {
    if |ls| == 1 {
      PartsOfLabel(ls[0], []);
    } else {
      DomainUnfolds(ls);
      PartsOfDomain(ls[1..]);
      PartsOfLabel(ls[0], Domain(ls[1..]));
    }
  }

  /** Split at its dots, the domain gives the labels back exactly if there are any and none contains a dot. */
  lemma {:induction false} DomainSplitsIff(ls: seq<bytes>)
    ensures Parts(Domain(ls)) == ls <==> Dotless(ls)
    ensures Domain([]) == []
  {
    DotlessIff(ls);
    if ls != [] {
      DotsOfDomain(ls);
      PartsCount(Domain(ls));
      if Dotless(ls) {
        PartsOfDomain(ls);
      }
    }
  }

  // ---------- any bytes ----------

  /** Started inside the message, the reader ends inside it, whatever the bytes are. */
  lemma {:induction false} StaysInBounds(data: bytes, r: Reader)
    requires if r.jumped then r.initialOffset <= |data| else r.offset <= |data|
    ensures FinalOffset(Finish(data, r)) <= |data|
    decreases Unseen(data, r)
  {
    if Running(data, r) {
      TurnSeesMore(data, r);
      StaysInBounds(data, Turn(data, r));
    }
  }

  // ---------- names as a server writes them ----------

  predicate Writable(ls: seq<bytes>) {
    forall i :: 0 <= i < |ls| ==> 1 <= |ls[i]| <= 63
  }

  function WriteLabels(ls: seq<bytes>): bytes
    requires Writable(ls)
  {
    if ls == [] then [] else [|ls[0]|] + ls[0] + WriteLabels(ls[1..])
  }

  function WithTail(ls: seq<bytes>, tail: Derivation): Derivation {
    if ls == [] then tail else Label(ls[0], WithTail(ls[1..], tail))
  }

  lemma {:induction false} LabelDerives(data: bytes, offset: nat, text: bytes, rest: Derivation)
    requires 1 <= |text| <= 63 && offset + 1 + |text| <= |data| && data[offset] == |text|
    requires data[offset + 1..offset + 1 + |text|] == text && Derives(data, offset + 1 + |text|, rest)
    ensures Derives(data, offset, Label(text, rest))
    ensures EndOffset(data, offset, Label(text, rest)) == EndOffset(data, offset + 1 + |text|, rest)
  {
  }

  lemma {:induction false} WrittenLabelsDerive(before: bytes, ls: seq<bytes>, after: bytes, tail: Derivation)
    requires Writable(ls)
    requires Derives(before + WriteLabels(ls) + after, |before + WriteLabels(ls)|, tail)
    ensures var data, d := before + WriteLabels(ls) + after, WithTail(ls, tail);
            && Derives(data, |before|, d)
            && EndOffset(data, |before|, d) == EndOffset(data, |before + WriteLabels(ls)|, tail)
    decreases |ls|
  {
    hide Derives, EndOffset;
    if ls != [] {
      var rest := WriteLabels(ls[1..]);
      var before' := before + ([|ls[0]|] + ls[0]);
      assert before + WriteLabels(ls) + after == before' + rest + after;
      assert before + WriteLabels(ls) == before' + rest;
      WrittenLabelsDerive(before', ls[1..], after, tail);
      SlicesOfConcat(before, [|ls[0]|], ls[0], rest, after);
      LabelDerives(before' + rest + after, |before|, ls[0], WithTail(ls[1..], tail));
    }
  }

  lemma {:induction false} LabelsWithTail(ls: seq<bytes>, tail: Derivation)
    ensures Labels(WithTail(ls, tail)) == ls + Labels(tail) && Jumps(WithTail(ls, tail)) == Jumps(tail)
  {
    if ls != [] {
      LabelsWithTail(ls[1..], tail);
    }
  }

  /** Labels followed by a pointer to a name that stands elsewhere read as the labels and that name. */
  lemma {:induction false} CompressedNameRoundTrip(before: bytes, ls: seq<bytes>, target: nat, after: bytes,
      d: Derivation)
    requires Writable(ls) && target < 0x4000 && Jumps(d) <= 8
    requires Derives(before + WriteLabels(ls) + ([192 + target / 256, target % 256] + after), target, d)
    ensures var data := before + WriteLabels(ls) + ([192 + target / 256, target % 256] + after);
            var (domain, end) := ReadName(data, |before|);
            && domain == Domain(ls + Labels(d)) && end == |before| + |WriteLabels(ls)| + 2
            && (Parts(domain) == ls + Labels(d) <==> Dotless(ls + Labels(d)))
  {
    var rest := [192 + target / 256, target % 256] + after;
    var data, tail := before + WriteLabels(ls) + rest, Jump(target, d);
    assert data[|before + WriteLabels(ls)|] == rest[0] && data[|before + WriteLabels(ls)| + 1] == rest[1];
    assert Derives(data, |before + WriteLabels(ls)|, tail);
    hide Derives, Finish;
    WrittenLabelsDerive(before, ls, rest, tail);
    LabelsWithTail(ls, tail);
    DomainSplitsIff(ls + Labels(d));
    ReadsName(data, |before|, WithTail(ls, tail));
    ReadsWholeNameIff(data, |before|, WithTail(ls, tail));
  }

  /** A name written out in full reads as itself. */
  lemma {:induction false} PlainNameRoundTrip(before: bytes, ls: seq<bytes>, after: bytes)
    requires Writable(ls)
    ensures var (domain, end) := ReadName(before + WriteLabels(ls) + ([0] + after), |before|);
            && domain == Domain(ls) && end == |before| + |WriteLabels(ls)| + 1
            && (Parts(domain) == ls <==> Dotless(ls))
  {
    var data := before + WriteLabels(ls) + ([0] + after);
    assert data[|before + WriteLabels(ls)|] == ([0] + after)[0];
    assert Derives(data, |before + WriteLabels(ls)|, End);
    hide Derives, Finish;
    WrittenLabelsDerive(before, ls, [0] + after, End);
    LabelsWithTail(ls, End);
    assert Labels(WithTail(ls, End)) == ls;
    DomainSplitsIff(ls);
    ReadsName(data, |before|, WithTail(ls, End));
    ReadsWholeNameIff(data, |before|, WithTail(ls, End));
  }

  // ---------- lengths the standard reserves ----------

  lemma {:induction false} StandardDerives(data: bytes, offset: nat, d: Derivation)
    requires Standard(data, offset, d)
    ensures Derives(data, offset, d)
    decreases d
  {
    if !d.End? {
      StandardDerives(data, if d.Label? then offset + 1 + data[offset] else d.target, d.rest);
    }
  }

  predicate Reserved(length: byte) {
    64 <= length <= 191
  }

  /** What the reader takes for a name is one by the standard if and only if no length byte of it is reserved. */
  lemma {:induction false} StandardIff(data: bytes, offset: nat, d: Derivation)
    requires Derives(data, offset, d)
    ensures Standard(data, offset, d) <==>
            forall o :: o in Trail(data, offset, d) && o < |data| ==> !Reserved(data[o])
    decreases d
  {
    if !d.End? {
      StandardIff(data, Next(data, offset, d), d.rest);
    }
  }

  /** A name by the standard is read as its labels up to the tenth jump, and its end is found. */
  lemma {:induction false} ReadsStandardName(data: bytes, start: nat, d: Derivation)
    requires Standard(data, start, d)
    ensures Derives(data, start, d)
    ensures var ((domain, end), labels) := (ReadName(data, start), LabelsWithin(d, MAX_JUMPS));
            && Finish(data, Start(start)).labels == labels && end == EndOffset(data, start, d)
            && (Parts(domain) == labels <==> Dotless(labels)) && (labels == [] ==> domain == [])
  {
    StandardDerives(data, start, d);
    ReadsName(data, start, d);
    DomainSplitsIff(LabelsWithin(d, MAX_JUMPS));
  }

  function LongLabel(text: bytes): bytes
    requires |text| < 256
  {
    [|text|] + text + [0]
  }

  /** A label of reserved length is read as a label, though by the standard nothing stands there. */
  lemma {:induction false} ReservedLengthIsRead(text: bytes)
    requires 64 <= |text| <= 191
    ensures Finish(LongLabel(text), Start(0)).labels == [text]
    ensures forall d :: !Standard(LongLabel(text), 0, d)
  {
    var data, d := LongLabel(text), Label(text, End);
    assert data[0] == |text| && data[1..1 + |text|] == text && data[1 + |text|] == 0;
    assert Derives(data, 0, d);
    ReadsWholeNameIff(data, 0, d);
    assert Labels(d) == [text] + [];
  }

  // ---------- names behind many pointers ----------

  /** `n` pointers, each to the next, and a name of one letter behind them. */
  function PointerChain(n: nat): bytes
    requires n < 128
  {
    seq(2 * n, i requires 0 <= i < 2 * n => if i % 2 == 0 then 192 else i + 1) + [1, 97, 0]
  }

  function ChainFrom(i: nat, n: nat): Derivation
    requires i <= n
    decreases n - i
  {
    if i == n then Label([97], End) else Jump(2 * (i + 1), ChainFrom(i + 1, n))
  }

  lemma {:induction false} ChainDerives(i: nat, n: nat)
    requires i <= n < 127
    ensures Derives(PointerChain(n), 2 * i, ChainFrom(i, n))
    ensures Labels(ChainFrom(i, n)) == [[97]] && Jumps(ChainFrom(i, n)) == n - i
    decreases n - i
  {
    var data := PointerChain(n);
    assert |data| == 2 * n + 3;
    hide PointerChain;
    if i == n {
      assert Derives(data, 2 * n + 2, End);
    } else {
      ChainDerives(i + 1, n);
    }
  }

  lemma {:induction false} ChainWithin(i: nat, n: nat, budget: nat)
    requires i <= n
    ensures LabelsWithin(ChainFrom(i, n), budget) == if n - i < budget then [[97]] else []
    decreases n - i
  {
    if i < n && budget > 0 {
      ChainWithin(i + 1, n, budget - 1);
    }
  }

  /** Behind up to nine pointers the letter is read; the tenth cuts it off. */
  lemma {:induction false} TenthPointerCuts(n: nat)
    requires n < 127
    ensures Finish(PointerChain(n), Start(0)).labels == if n <= 9 then [[97]] else []
    ensures Derives(PointerChain(n), 0, ChainFrom(0, n)) && Labels(ChainFrom(0, n)) == [[97]]
  {
    hide PointerChain, Derives, Finish;
    ChainDerives(0, n);
    ReadsName(PointerChain(n), 0, ChainFrom(0, n));
    ChainWithin(0, n, MAX_JUMPS);
  }
}
