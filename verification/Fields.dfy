/** Fixed-width integers in binary headers (`struct.unpack`), in either byte order. */
module Fields {
  import opened Basics

  datatype Endian = Little | Big

  function U16(data: bytes, i: nat, e: Endian): nat
    requires i + 2 <= |data|
  {
    var a: int, b: int := data[i], data[i + 1];
    if e.Little? then a + 0x100 * b else b + 0x100 * a
  }

  function U32(data: bytes, i: nat, e: Endian): nat
    requires i + 4 <= |data|
  {
    if e.Little? then U16(data, i, e) + 0x1_0000 * U16(data, i + 2, e)
    else U16(data, i + 2, e) + 0x1_0000 * U16(data, i, e)
  }

  lemma {:induction false} U32OfSlice(data: bytes, i: nat, j: nat, k: nat, e: Endian)
    requires i <= j <= |data| && i + k + 4 <= j
    ensures U32(data[i..j], k, e) == U32(data, i + k, e)
  {
  }

  // ---------- writing ----------

  function Put16(n: nat, e: Endian): (r: bytes)
    requires n < 0x1_0000
    ensures |r| == 2 && U16(r, 0, e) == n
  {
    if e.Little? then [n % 0x100, n / 0x100] else [n / 0x100, n % 0x100]
  }

  function Put32(n: nat, e: Endian): (r: bytes)
    requires n < 0x1_0000_0000
    ensures |r| == 4 && U32(r, 0, e) == n
  {
    if e.Little? then Put16(n % 0x1_0000, e) + Put16(n / 0x1_0000, e)
    else Put16(n / 0x1_0000, e) + Put16(n % 0x1_0000, e)
  }

  /** A field is read back wherever it stands. */
  lemma {:induction false} FieldAt(before: bytes, n: nat, e: Endian, after: bytes)
    requires n < 0x1_0000_0000
    ensures U32(before + Put32(n, e) + after, |before|, e) == n
  {
    hide U32, Put32;
    var data := before + Put32(n, e) + after;
    assert data[|before|..|before| + 4] == Put32(n, e);
    U32OfSlice(data, |before|, |before| + 4, 0, e);
  }

  lemma {:induction false} ShortFieldAt(before: bytes, n: nat, e: Endian, after: bytes)
    requires n < 0x1_0000
    ensures U16(before + Put16(n, e) + after, |before|, e) == n
  {
    hide Put16;
    var data := before + Put16(n, e) + after;
    assert data[|before|] == Put16(n, e)[0] && data[|before| + 1] == Put16(n, e)[1];
  }

  lemma {:induction false} FourFieldsAt(before: bytes, a: nat, b: nat, c: nat, d: nat, e: Endian, after: bytes)
    requires a < 0x1_0000_0000 && b < 0x1_0000_0000 && c < 0x1_0000_0000 && d < 0x1_0000_0000
    ensures var data := before + (Put32(a, e) + Put32(b, e) + Put32(c, e) + Put32(d, e)) + after;
            var o := |before|;
            U32(data, o, e) == a && U32(data, o + 4, e) == b && U32(data, o + 8, e) == c && U32(data, o + 12, e) == d
  {
    hide U32, Put32;
    var w, x, y, z := Put32(a, e), Put32(b, e), Put32(c, e), Put32(d, e);
    var data := before + (w + x + y + z) + after;
    FieldAt(before, a, e, x + y + z + after);
    FieldAt(before + w, b, e, y + z + after);
    FieldAt(before + w + x, c, e, z + after);
    FieldAt(before + w + x + y, d, e, after);
    assert data == before + w + (x + y + z + after);
    assert data == (before + w) + x + (y + z + after);
    assert data == (before + w + x) + y + (z + after);
    assert data == (before + w + x + y) + z + after;
  }
}
