/** Choosing file names for exported payloads: sanitising, and numbering until a name is free. */
module ExportNames {
  import opened Basics

  predicate Forbidden(c: char) {
    || c == '\\' || c == '/' || c == '*' || c == '?' || c == ':'
    || c == '"' || c == '<' || c == '>' || c == '|'
  }

  predicate Trimmed(c: char) {
    c == ' ' || c == '.' || c == '\r' || c == '\n' || c == '\t'
  }

  function Cleaned(name: string): (r: string)
    ensures |r| == |name| && forall i :: 0 <= i < |r| ==> r[i] == if Forbidden(name[i]) then '_' else name[i]
  {
    seq(|name|, i requires 0 <= i < |name| => if Forbidden(name[i]) then '_' else name[i])
  }

  function StripLeft(s: string): string {
    if s != [] && Trimmed(s[0]) then StripLeft(s[1..]) else s
  }

  function StripRight(s: string): string {
    if s != [] && Trimmed(s[|s| - 1]) then StripRight(s[..|s| - 1]) else s
  }

  const FALLBACK := "extracted_payload.bin"

  function SanitizeFilename(name: string): string {
    var stripped := StripRight(StripLeft(Cleaned(name)));
    if stripped == [] then FALLBACK else stripped
  }

  predicate Safe(name: string) {
    && name != []
    && (forall i :: 0 <= i < |name| ==> !Forbidden(name[i]))
    && !Trimmed(name[0]) && !Trimmed(name[|name| - 1])
  }

  lemma {:induction false} StripLeftSuffix(s: string)
    ensures var r := StripLeft(s);
            |r| <= |s| && r == s[|s| - |r|..] && (r != [] ==> !Trimmed(r[0]))
  {
    if s != [] && Trimmed(s[0]) {
      StripLeftSuffix(s[1..]);
    }
  }

  lemma {:induction false} StripRightPrefix(s: string)
    ensures StripRight(s) <= s
    ensures StripRight(s) != [] ==> !Trimmed(StripRight(s)[|StripRight(s)| - 1])
  {
    if s != [] && Trimmed(s[|s| - 1]) {
      StripRightPrefix(s[..|s| - 1]);
    }
  }

  lemma {:induction false} CleanedIsAllowed(name: string)
    ensures forall i :: 0 <= i < |name| ==> !Forbidden(Cleaned(name)[i])
  {
  }

  lemma {:induction false} StrippedIsSafe(name: string)
    ensures var r := StripRight(StripLeft(Cleaned(name))); r != [] ==> Safe(r)
  {
    CleanedIsAllowed(name);
    hide Forbidden, Trimmed, StripLeft, StripRight, Cleaned;
    var c := Cleaned(name);
    var left := StripLeft(c);
    var r := StripRight(left);
    StripLeftSuffix(c);
    StripRightPrefix(left);
    forall i | 0 <= i < |r| ensures !Forbidden(r[i]) {
      assert r[i] == left[i] == c[|c| - |left| + i];
    }
  }

  lemma {:induction false} SafeIsKept(name: string)
    requires Safe(name)
    ensures StripRight(StripLeft(Cleaned(name))) == name
  {
    assert Cleaned(name) == name;
  }

  lemma {:induction false} FallbackIsSafe()
    ensures Safe(FALLBACK)
  {
  }

  /** Whatever the name, the result is safe; a safe name, and no other, is left alone. */
  lemma {:induction false} SanitizedIsSafe(name: string)
    ensures Safe(SanitizeFilename(name))
    ensures SanitizeFilename(name) == name <==> Safe(name)
  {
    FallbackIsSafe();
    StrippedIsSafe(name);
    if Safe(name) {
      SafeIsKept(name);
    }
    hide Safe, StripRight, StripLeft, Cleaned;
  }

  /** `name[i..j]` is what is left between blanks, dots and line ends. */
  predicate IsCore(name: string, i: int, j: int) {
    && 0 <= i < j <= |name| && !Trimmed(name[i]) && !Trimmed(name[j - 1])
    && (forall k :: 0 <= k < i ==> Trimmed(name[k])) && forall k :: j <= k < |name| ==> Trimmed(name[k])
  }

  lemma {:induction false} StripLeftIs(s: string)
    ensures var r := StripLeft(s);
            |r| <= |s| && r == s[|s| - |r|..] && forall k :: 0 <= k < |s| - |r| ==> Trimmed(s[k])
  {
    if s != [] && Trimmed(s[0]) {
      StripLeftIs(s[1..]);
      assert forall k :: 0 < k < |s| ==> s[k] == s[1..][k - 1];
    }
  }

  lemma {:induction false} StripRightIs(s: string)
    ensures StripRight(s) <= s && forall k :: |StripRight(s)| <= k < |s| ==> Trimmed(s[k])
  {
    if s != [] && Trimmed(s[|s| - 1]) {
      StripRightIs(s[..|s| - 1]);
    }
  }

  /**
    * A name of nothing but blanks, dots and line ends is replaced; of any other its core is kept, each forbidden
    * character in it turned into an underscore.
    */
  lemma {:induction false} SanitizedIs(name: string)
    ensures (forall k :: 0 <= k < |name| ==> Trimmed(name[k])) ==> SanitizeFilename(name) == "extracted_payload.bin"
    ensures (exists k :: 0 <= k < |name| && !Trimmed(name[k])) ==>
              exists i, j :: IsCore(name, i, j) && |SanitizeFilename(name)| == j - i &&
                forall k :: i <= k < j ==>
                              SanitizeFilename(name)[k - i] == if Forbidden(name[k]) then '_' else name[k]
  {
    var c := Cleaned(name);
    assert forall k :: 0 <= k < |name| ==> (Trimmed(c[k]) <==> Trimmed(name[k]));
    hide Forbidden, Trimmed, StripLeft, StripRight;
    var left := StripLeft(c);
    var r := StripRight(left);
    StripLeftIs(c);
    StripRightIs(left);
    StripLeftSuffix(c);
    StripRightPrefix(left);
    var i := |c| - |left|;
    var j := i + |r|;
    assert forall k :: i <= k < |c| ==> c[k] == left[k - i];
    if r != [] {
      assert r[0] == c[i] && r[|r| - 1] == c[j - 1];
      assert IsCore(name, i, j);
    } else {
      assert forall k :: 0 <= k < |c| ==> Trimmed(c[k]);
    }
  }

  // ---------- splitting off the extension ----------

  /** The index of the last dot, or -1. */
  function LastDot(s: string): (i: int)
    ensures -1 <= i < |s| && (i >= 0 ==> s[i] == '.')
  {
    if s == [] then -1 else if s[|s| - 1] == '.' then |s| - 1 else LastDot(s[..|s| - 1])
  }

  /** `os.path.splitext` on a name without separators: a name that is all dots up to the last one has no extension. */
  function SplitExt(name: string): (r: (string, string))
    ensures r.0 + r.1 == name
  {
    var dot := LastDot(name);
    if dot > 0 && exists i :: 0 <= i < dot && name[i] != '.' then (name[..dot], name[dot..]) else (name, [])
  }

  lemma {:induction false} LastDotIsLast(s: string)
    ensures forall k :: LastDot(s) < k < |s| ==> s[k] != '.'
  {
    if s != [] && s[|s| - 1] != '.' {
      LastDotIsLast(s[..|s| - 1]);
    }
  }

  /** The extension begins at the last dot; there is one exactly if some dot has another character before it. */
  lemma {:induction false} ExtensionIs(name: string)
    ensures var (base, ext) := SplitExt(name);
            && (ext != [] <==> exists i, d :: 0 <= i < d < |name| && name[i] != '.' && name[d] == '.')
            && (ext != [] ==> ext[0] == '.' && forall k :: 0 < k < |ext| ==> ext[k] != '.')
  {
    LastDotIsLast(name);
    var (base, ext) := SplitExt(name);
    var dot := LastDot(name);
    assert ext != [] ==> forall k :: 0 <= k < |ext| ==> ext[k] == name[dot + k];
    if i, d :| 0 <= i < d < |name| && name[i] != '.' && name[d] == '.' {
      assert d <= dot;
    }
  }

  // ---------- decimal numbers ----------

  function Digit(d: nat): char
    requires d < 10
  {
    "0123456789"[d]
  }

  function Decimal(n: nat): string {
    if n < 10 then [Digit(n)] else Decimal(n / 10) + [Digit(n % 10)]
  }

  lemma {:induction false} DecimalNonEmpty(n: nat)
    ensures |Decimal(n)| >= 1
  {
  }

  lemma {:induction false} DecimalInjective(m: nat, n: nat)
    requires Decimal(m) == Decimal(n)
    ensures m == n
    decreases m + n
  {
    var s, t := Decimal(m), Decimal(n);
    assert s[|s| - 1] == Digit(m % 10) && t[|t| - 1] == Digit(n % 10);
    DecimalNonEmpty(m / 10);
    DecimalNonEmpty(n / 10);
    if m >= 10 && n >= 10 {
      assert s[..|s| - 1] == Decimal(m / 10) && t[..|t| - 1] == Decimal(n / 10);
      DecimalInjective(m / 10, n / 10);
    }
  }

  function ReadDecimal(s: string): int {
    if s == [] then 0 else ReadDecimal(s[..|s| - 1]) * 10 + (s[|s| - 1] as int - '0' as int)
  }

  lemma {:induction false} DigitIs(d: nat)
    requires d < 10
    ensures '0' <= Digit(d) <= '9' && Digit(d) as int - '0' as int == d
  {
  }

  /** What is printed is the number, in digits. */
  lemma {:induction false} DecimalIsRead(n: nat)
    ensures ReadDecimal(Decimal(n)) == n && forall i :: 0 <= i < |Decimal(n)| ==> '0' <= Decimal(n)[i] <= '9'
  {
    hide Digit;
    DigitIs(n % 10);
    if n >= 10 {
      DecimalIsRead(n / 10);
      assert Decimal(n)[..|Decimal(n)| - 1] == Decimal(n / 10);
    } else {
      assert [Digit(n)][..0] == [];
    }
  }

  // ---------- numbering ----------

  /** The `k`-th name tried: the target itself, then `base_1.ext`, `base_2.ext` and so on. */
  function Numbered(target: string, k: nat): string {
    if k == 0 then target
    else
      var (base, ext) := SplitExt(target);
      base + ("_" + Decimal(k)) + ext
  }

  lemma {:induction false} Middle(a: string, b: string, c: string, d: string)
    requires a + b + d == a + c + d
    ensures b == c
  {
    assert |b| == |c|;
    assert (a + b + d)[|a|..|a| + |b|] == b;
    assert (a + c + d)[|a|..|a| + |c|] == c;
  }

  lemma {:induction false} NumberedInjective(target: string, j: nat, k: nat)
    requires Numbered(target, j) == Numbered(target, k)
    ensures j == k
  {
    hide Decimal, SplitExt;
    var (base, ext) := SplitExt(target);
    if j > 0 && k > 0 {
      Middle(base, "_" + Decimal(j), "_" + Decimal(k), ext);
      assert ("_" + Decimal(j))[1..] == Decimal(j) && ("_" + Decimal(k))[1..] == Decimal(k);
      DecimalInjective(j, k);
    } else {
      assert |base| + |ext| == |target|;
      assert |("_" + Decimal(j))| > 0 && |("_" + Decimal(k))| > 0;
    }
  }

  /** The names tried before the `k`-th. */
  ghost function TriedBefore(target: string, k: nat): set<string> {
    if k == 0 then {} else TriedBefore(target, k - 1) + {Numbered(target, k - 1)}
  }

  lemma {:induction false} TriedMembers(target: string, k: nat)
    ensures forall name :: name in TriedBefore(target, k) <==> exists j: nat :: j < k && name == Numbered(target, j)
  {
    hide Numbered;
    if k > 0 {
      TriedMembers(target, k - 1);
    }
  }

  /** All names tried are different, so that many must be in use. */
  lemma {:induction false} TriedAreDistinct(target: string, k: nat)
    ensures |TriedBefore(target, k)| == k
  {
    hide Numbered;
    if k > 0 {
      var last := Numbered(target, k - 1);
      TriedAreDistinct(target, k - 1);
      TriedMembers(target, k - 1);
      forall j: nat | j < k - 1 ensures Numbered(target, j) != last {
        if Numbered(target, j) == last {
          NumberedInjective(target, j, k - 1);
        }
      }
      assert last !in TriedBefore(target, k - 1);
    }
  }

  /** The first name that is free; by counting, one of the first `|used| + 1` names is. */
  method UniqueName(target: string, used: set<string>) returns (name: string, ghost k: nat)
    ensures name == Numbered(target, k) && name !in used
    ensures forall j: nat :: j < k ==> Numbered(target, j) in used
    ensures k <= |used|
  {
    hide Decimal, SplitExt;
    name, k := target, 0;
    var counter: nat := 1;
    while name in used
      invariant counter == k + 1 && name == Numbered(target, k)
      invariant forall j: nat :: j < k ==> Numbered(target, j) in used
      invariant TriedBefore(target, k) <= used
      decreases |used| - k
    {
      TriedAreDistinct(target, k + 1);
      SubsetSize(TriedBefore(target, k + 1), used);
      var (base, ext) := SplitExt(target);
      name := base + ("_" + Decimal(counter)) + ext;
      counter := counter + 1;
      k := k + 1;
    }
    TriedAreDistinct(target, k);
    SubsetSize(TriedBefore(target, k), used);
  }

  ghost predicate NamedFrom(name: string, target: string, bound: nat) {
    exists k: nat :: k <= bound && name == Numbered(target, k)
  }

  /** Every exported file gets a name of its own, made from its own target name. */
  method AssignNames(targets: seq<string>) returns (names: seq<string>)
    ensures |names| == |targets| && Distinct(names)
    ensures forall i :: 0 <= i < |names| ==> NamedFrom(names[i], SanitizeFilename(targets[i]), i)
  {
    hide SanitizeFilename, Numbered;
    names := [];
    var usedNames: set<string> := {};
    for n := 0 to |targets|
      invariant |names| == n && |usedNames| <= n && Distinct(names)
      invariant forall name :: name in usedNames <==> name in names
      invariant forall i :: 0 <= i < n ==> NamedFrom(names[i], SanitizeFilename(targets[i]), i)
    {
      var target := SanitizeFilename(targets[n]);
      var name, k := UniqueName(target, usedNames);
      assert NamedFrom(name, target, n);
      names := names + [name];
      usedNames := usedNames + {name};
    }
  }
}
