/** The text handling under the HTTP decoder: stripping, splitting, and Python's reading of numbers. */
module HttpText {
  import opened Basics

  const CR: byte := 13
  const LF: byte := 10
  const COLON: byte := 58
  const SEMICOLON: byte := 59
  const CRLF: bytes := [13, 10]
  const BLANK_LINE: bytes := [13, 10, 13, 10]

  // ---------- stripping and splitting ----------

  /** Whitespace for `bytes.strip` and for `str.strip` on Latin-1 text. */
  predicate IsByteSpace(b: byte) {
    9 <= b <= 13 || b == 32
  }

  predicate IsTextSpace(b: byte) {
    9 <= b <= 13 || 28 <= b <= 32 || b == 133 || b == 160
  }

  function Strip(s: bytes, space: byte -> bool): bytes {
    if s == [] then []
    else if space(s[0]) then Strip(s[1..], space)
    else if space(s[|s| - 1]) then Strip(s[..|s| - 1], space)
    else s
  }

  /** `s.split(sep)[0]` for a one-byte separator. */
  function UpTo(s: bytes, separator: byte): bytes {
    if s == [] || s[0] == separator then [] else [s[0]] + UpTo(s[1..], separator)
  }

  /** `s.split(b"\r\n")` from `from` on. */
  function Lines(s: bytes, from: nat): seq<bytes>
    requires from <= |s|
    decreases |s| - from
  {
    match Find(s, CRLF, from)
    case None => [s[from..]]
    case Some(i) => [s[from..i]] + Lines(s, i + 2)
  }

  function JoinLines(lines: seq<bytes>): bytes {
    if lines == [] then []
    else if |lines| == 1 then lines[0]
    else lines[0] + CRLF + JoinLines(lines[1..])
  }

  /** Has neither CR nor LF in it. */
  predicate Quiet(s: bytes) {
    forall i :: 0 <= i < |s| ==> s[i] != CR && s[i] != LF
  }

  /** The end of a line is found, and the line is what stands before it. */
  lemma {:induction false} FindsLineEnd(before: bytes, line: bytes, after: bytes)
    requires Quiet(line)
    ensures var data, end := before + line + (CRLF + after), |before| + |line|;
            Find(data, CRLF, |before|) == Some(end) && data[|before|..end] == line
  {
    hide Find;
    var data, end := before + line + (CRLF + after), |before| + |line|;
    assert data[end..end + 2] == CRLF;
    forall j: nat | |before| <= j < end ensures !At(data, CRLF, j) {
      assert data[j] == line[j - |before|];
      if j + 2 <= |data| {
        assert data[j..j + 2][0] == data[j];
      }
    }
    FindIs(data, CRLF, |before|, end);
  }

  // ---------- numbers ----------

  /** The value of a digit, or 36 for anything else. */
  function DigitValue(c: byte): nat {
    if 48 <= c <= 57 then c - 48
    else if 65 <= c <= 70 then c - 55
    else if 97 <= c <= 102 then c - 87
    else 36
  }

  const UNDERSCORE: byte := 95

  /** Digits of the base, with single underscores between them. */
  predicate ValidDigits(s: bytes, base: nat) {
    && s != [] && s[0] != UNDERSCORE && s[|s| - 1] != UNDERSCORE
    && (forall i :: 0 <= i < |s| ==> s[i] == UNDERSCORE || DigitValue(s[i]) < base)
    && forall i :: 0 < i < |s| ==> s[i - 1] != UNDERSCORE || s[i] != UNDERSCORE
  }

  function DigitsValue(s: bytes, base: nat): nat {
    if s == [] then 0
    else if s[|s| - 1] == UNDERSCORE then DigitsValue(s[..|s| - 1], base)
    else DigitsValue(s[..|s| - 1], base) * base + DigitValue(s[|s| - 1])
  }

  function WithoutPrefix(s: bytes, base: nat): bytes {
    if base == 16 && |s| >= 2 && s[0] == 48 && (s[1] == 120 || s[1] == 88) then
      if |s| > 2 && s[2] == UNDERSCORE then s[3..] else s[2..]
    else s
  }

  /** `int(s, base)` on stripped text; `None` is the ValueError. */
  function PyInt(s: bytes, base: nat): Option<int> {
    var signed := s != [] && (s[0] == 43 || s[0] == 45);
    var digits := WithoutPrefix(if signed then s[1..] else s, base);
    if !ValidDigits(digits, base) then None
    else if signed && s[0] == 45 then Some(0 - DigitsValue(digits, base))
    else Some(DigitsValue(digits, base))
  }

  /** Digits and nothing else. */
  predicate PlainDigits(s: bytes, base: nat) {
    s != [] && forall i :: 0 <= i < |s| ==> DigitValue(s[i]) < base
  }

  lemma {:induction false} PlainDigitsRead(s: bytes, base: nat)
    requires PlainDigits(s, base) && base <= 16
    ensures PyInt(s, base) == Some(DigitsValue(s, base))
  {
    assert DigitValue(43) == 36 && DigitValue(45) == 36 && DigitValue(120) == 36 && DigitValue(88) == 36;
    assert DigitValue(UNDERSCORE) == 36;
  }

  lemma {:induction false} PlainDigitsAreNotStripped(s: bytes, base: nat)
    requires PlainDigits(s, base) && base <= 16
    ensures Strip(s, IsByteSpace) == s
  {
    assert DigitValue(s[0]) < 36 && DigitValue(s[|s| - 1]) < 36;
  }

  lemma {:induction false} UpToSeparator(s: bytes, separator: byte, rest: bytes)
    requires forall i :: 0 <= i < |s| ==> s[i] != separator
    requires rest == [] || rest[0] == separator
    ensures UpTo(s + rest, separator) == s
  {
    if s == [] {
      ConcatNothing(rest);
    } else {
      UpToSeparator(s[1..], separator, rest);
      assert (s + rest)[1..] == s[1..] + rest;
    }
  }

  // ---------- numbers as they are written ----------

  function DigitChar(d: nat): byte
    requires d < 16
  {
    if d < 10 then 48 + d else 87 + d
  }

  /** `n` in digits of the base, most significant first. */
  function Digits(n: nat, base: nat): bytes
    requires 2 <= base <= 16
    decreases n
  {
    if n < base then [DigitChar(n)] else Digits(n / base, base) + [DigitChar(n % base)]
  }

  lemma {:induction false} AppendDigit(s: bytes, d: nat, base: nat)
    requires PlainDigits(s, base) && d < base <= 16
    ensures PlainDigits(s + [DigitChar(d)], base)
    ensures DigitsValue(s + [DigitChar(d)], base) == DigitsValue(s, base) * base + d
  {
    assert (s + [DigitChar(d)])[..|s|] == s && DigitValue(DigitChar(d)) == d;
  }

  lemma {:induction false} OneDigit(d: nat, base: nat)
    requires d < base <= 16
    ensures PlainDigits([DigitChar(d)], base) && DigitsValue([DigitChar(d)], base) == d
  {
    assert [DigitChar(d)][..0] == [] && DigitsValue([], base) == 0 && DigitValue(DigitChar(d)) == d;
  }

  /** What is written is read, in any base. */
  lemma {:induction false} DigitsAreRead(n: nat, base: nat)
    requires 2 <= base <= 16
    ensures PlainDigits(Digits(n, base), base) && DigitsValue(Digits(n, base), base) == n
    decreases n
  {
    hide PlainDigits, DigitsValue, DigitChar;
    if n >= base {
      DigitsAreRead(n / base, base);
      AppendDigit(Digits(n / base, base), n % base, base);
    } else {
      OneDigit(n, base);
    }
  }

  lemma {:induction false} UnderscoreIsSkipped(a: bytes, b: bytes, base: nat)
    requires PlainDigits(a, base) && (b != [] ==> PlainDigits(b, base)) && base <= 16
    ensures DigitsValue(a + [95] + b, base) == DigitsValue(a + b, base)
  {
    if b == [] {
      assert (a + [95] + b)[..|a|] == a && a + b == a;
    } else {
      var front, last := b[..|b| - 1], b[|b| - 1];
      UnderscoreIsSkipped(a, front, base);
      assert (a + [95] + b)[..|a| + |b|] == a + [95] + front && (a + b)[..|a + b| - 1] == a + front;
      assert DigitValue(95) == 36 && DigitValue(last) < 36;
    }
  }

  lemma {:induction false} SignIsRead(a: bytes, base: nat)
    requires PlainDigits(a, base) && base <= 16
    ensures PyInt([43] + a, base) == Some(DigitsValue(a, base))
    ensures PyInt([45] + a, base) == Some(0 - DigitsValue(a, base))
  {
    assert ([43] + a)[1..] == a && ([45] + a)[1..] == a;
    assert DigitValue(95) == 36 && DigitValue(120) == 36 && DigitValue(88) == 36;
    hide DigitsValue, DigitValue;
  }

  lemma {:induction false} PrefixIsRead(a: bytes, x: byte)
    requires PlainDigits(a, 16) && (x == 120 || x == 88)
    ensures PyInt([48, x] + a, 16) == Some(DigitsValue(a, 16))
  {
    var s := [48, x] + a;
    assert s[0] == 48 && s[1] == x && s[2..] == a && (|s| > 2 ==> s[2] == a[0]);
    assert DigitValue(95) == 36;
    assert WithoutPrefix(s, 16) == a && ValidDigits(a, 16);
    hide DigitsValue, DigitValue, ValidDigits, WithoutPrefix;
  }

  /** A single underscore between digits is read over. */
  lemma {:induction false} UnderscoreIsRead(a: bytes, b: bytes, base: nat)
    requires PlainDigits(a, base) && PlainDigits(b, base) && base <= 16
    ensures PyInt(a + [95] + b, base) == Some(DigitsValue(a + b, base))
  {
    UnderscoreIsSkipped(a, b, base);
    var s := a + [95] + b;
    assert DigitValue(43) == 36 && DigitValue(45) == 36 && DigitValue(120) == 36 && DigitValue(88) == 36;
    assert DigitValue(95) == 36 && s[0] == a[0] && (|s| >= 2 ==> s[1] == 95 || s[1] == a[1]);
    assert ValidDigits(s, base);
    hide DigitsValue, DigitValue, ValidDigits;
  }

  // ---------- what is stripped ----------

  predicate AllSpace(s: bytes, space: byte -> bool) {
    forall i :: 0 <= i < |s| ==> space(s[i])
  }

  /** Exactly the space at both ends is taken away. */
  lemma {:induction false} StripsBothEnds(a: bytes, core: bytes, b: bytes, space: byte -> bool)
    requires AllSpace(a, space) && AllSpace(b, space)
    requires core != [] ==> !space(core[0]) && !space(core[|core| - 1])
    ensures Strip(a + core + b, space) == core
    decreases |a| + |b|
  {
    var s := a + core + b;
    if a != [] {
      StripsBothEnds(a[1..], core, b, space);
      assert s[0] == a[0] && s[1..] == a[1..] + core + b;
    } else if b != [] {
      if core == [] {
        StripsBothEnds([], [], b[1..], space);
        assert s[0] == b[0] && s[1..] == [] + [] + b[1..];
      } else {
        StripsBothEnds([], core, b[..|b| - 1], space);
        assert s[0] == core[0] && s[|s| - 1] == b[|b| - 1] && s[..|s| - 1] == [] + core + b[..|b| - 1];
      }
    } else {
      assert s == core;
    }
  }
}
