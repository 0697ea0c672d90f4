/** Chunked transfer coding (RFC 9112 section 7.1). */
module HttpChunks {
  import opened Basics
  import opened HttpText
  import opened Walks

  /** The loop between two turns, or what it has returned. */
  datatype Loop = Running(idx: int, out: bytes) | Finished(data: bytes)

  /** What a chunk header says: a number, or nothing that `int` accepts. */
  function SizeAt(data: bytes, idx: int, crlf: nat): Option<int> {
    PyInt(Strip(UpTo(Slice(data, idx, crlf), SEMICOLON), IsByteSpace), 16)
  }

  /** One turn of the loop, from any index. */
  function Turn(data: bytes, idx: int, out: bytes): Loop {
    if idx >= |data| then Finished(out)
    else
      match FindFrom(data, CRLF, idx)
      case None => Finished(out + SliceFrom(data, idx))
      case Some(crlf) =>
        match SizeAt(data, idx, crlf)
        case None => Finished(out + SliceFrom(data, idx))
        case Some(size) =>
          var start, end := crlf + 2, crlf + 2 + size;
          if size == 0 then Finished(out)
          else if end > |data| then Finished(out + SliceFrom(data, start))
          else Running(end + 2, out + Slice(data, start, end))
  }

  function Iterate(data: bytes, st: Loop, turns: nat): Loop
    decreases turns
  {
    if turns == 0 || st.Finished? then st else Iterate(data, Turn(data, st.idx, st.out), turns - 1)
  }

  /** The loop, stopped after a number of turns if it has not ended by then. */
  method DechunkHttpBody(data: bytes, turns: nat) returns (r: Loop)
    ensures r == Iterate(data, Running(0, []), turns)
  {
    hide FindFrom, SizeAt, Slice, SliceFrom;
    var out: bytes := [];
    var idx: int, left := 0, turns;
    while left > 0 && idx < |data|
      invariant Iterate(data, Running(idx, out), left) == Iterate(data, Running(0, []), turns)
    {
      left := left - 1;
      var crlf := FindFrom(data, CRLF, idx);
      if crlf.None? {
        return Finished(out + SliceFrom(data, idx));
      }
      var chunkSize := SizeAt(data, idx, crlf.value);
      if chunkSize.None? {
        return Finished(out + SliceFrom(data, idx));
      }
      if chunkSize.value == 0 {
        return Finished(out);
      }
      var chunkStart := crlf.value + 2;
      var chunkEnd := chunkStart + chunkSize.value;
      if chunkEnd > |data| {
        return Finished(out + SliceFrom(data, chunkStart));
      }
      out := out + Slice(data, chunkStart, chunkEnd);
      idx := chunkEnd + 2;
    }
    return if left > 0 then Finished(out) else Running(idx, out);
  }

  // ---------- whether the loop ends ----------

  /** A turn comes back to its index or one before it if and only if its header says so negative a size. */
  lemma {:induction false} TurnStallsIff(data: bytes, idx: int, out: bytes)
    ensures var r := Turn(data, idx, out);
            r.Running? && r.idx <= idx <==>
            && idx < |data|
            && var crlf := FindFrom(data, CRLF, idx);
               && crlf.Some?
               && var size := SizeAt(data, idx, crlf.value);
                  size.Some? && size.value <= -(crlf.value - idx + 4)
  {
    hide Find, SizeAt, Slice, SliceFrom;
  }

  /** No stretch of the data reads as a negative size. */
  ghost predicate SizesUnsigned(data: bytes) {
    forall i: nat, j: nat :: SizeAt(data, i, j).Some? ==> SizeAt(data, i, j).value >= 0
  }

  lemma {:induction false} EndsFrom(data: bytes, idx: nat, out: bytes, turns: nat)
    requires SizesUnsigned(data) && turns > 0 && turns > |data| - idx
    ensures Iterate(data, Running(idx, out), turns).Finished?
    decreases turns
  {
    hide Find, SizeAt, Slice, SliceFrom;
    TurnStallsIff(data, idx, out);
    var r := Turn(data, idx, out);
    if r.Running? {
      EndsFrom(data, r.idx, r.out, turns - 1);
    }
  }

  lemma {:induction false} StripKeepsBytes(s: bytes, space: byte -> bool, b: byte)
    requires b in Strip(s, space)
    ensures b in s
  {
    if s != [] {
      if space(s[0]) {
        StripKeepsBytes(s[1..], space, b);
      } else if space(s[|s| - 1]) {
        StripKeepsBytes(s[..|s| - 1], space, b);
      }
    }
  }

  lemma {:induction false} UpToKeepsBytes(s: bytes, separator: byte, b: byte)
    requires b in UpTo(s, separator)
    ensures b in s
  {
    if s != [] && s[0] != separator && b != s[0] {
      UpToKeepsBytes(s[1..], separator, b);
    }
  }

  const MINUS: byte := 45

  lemma {:induction false} NoMinusIsUnsigned(data: bytes)
    requires MINUS !in data
    ensures SizesUnsigned(data)
  {
    forall i: nat, j: nat | SizeAt(data, i, j).Some? ensures SizeAt(data, i, j).value >= 0 {
      var header := Slice(data, i, j);
      var text := Strip(UpTo(header, SEMICOLON), IsByteSpace);
      if MINUS in text {
        StripKeepsBytes(UpTo(header, SEMICOLON), IsByteSpace, MINUS);
        UpToKeepsBytes(header, SEMICOLON, MINUS);
      }
    }
  }

  /** Data without a minus sign is decoded in at most one turn per byte and one more. */
  lemma {:induction false} EndsWithoutMinus(data: bytes, turns: nat)
    requires MINUS !in data && turns > |data|
    ensures Iterate(data, Running(0, []), turns).Finished?
  {
    NoMinusIsUnsigned(data);
    EndsFrom(data, 0, [], turns);
  }

  /** Where a turn leads, clipped to the data; the output does not matter. */
  function NextPosition(data: bytes): nat -> Option<nat> {
    p => match Turn(data, p, [])
         case Running(idx, out) => Some(Clip(idx, |data|))
         case Finished(out) => None
  }

  lemma {:induction false} TurnByPosition(data: bytes, idx: int, out: bytes)
    ensures var r, q := Turn(data, idx, out), NextPosition(data)(Clip(idx, |data|));
            if r.Running? then q == Some(Clip(r.idx, |data|)) else q == None
  {
    hide FindFrom, PyInt, Strip, UpTo, Slice, SliceFrom, Clip;
    PositionIsClipped(data, CRLF, idx);
  }

  lemma {:induction false} IterateByPosition(data: bytes, idx: int, out: bytes, turns: nat)
    ensures Iterate(data, Running(idx, out), turns).Finished? <==>
            Walk(NextPosition(data), Clip(idx, |data|), turns) == None
    decreases turns
  {
    hide Turn, NextPosition, Clip;
    if turns > 0 {
      TurnByPosition(data, idx, out);
      var r := Turn(data, idx, out);
      if r.Running? {
        IterateByPosition(data, r.idx, r.out, turns - 1);
      }
    }
  }

  lemma {:induction false} StopsAtEnd(data: bytes)
    ensures forall q: nat :: q >= |data| ==> NextPosition(data)(q) == None
  {
  }

  /** On any data the loop ends at all if and only if it ends within one turn per byte and one more. */
  lemma {:induction false} EndsIff(data: bytes)
    ensures (exists n: nat :: Iterate(data, Running(0, []), n).Finished?) <==>
            Iterate(data, Running(0, []), |data| + 1).Finished?
  {
    hide Iterate, NextPosition, Turn, Walk;
    StopsAtEnd(data);
    Walks.EndsIff(NextPosition(data), 0, |data|);
    IterateByPosition(data, 0, [], |data| + 1);
    if n: nat :| Iterate(data, Running(0, []), n).Finished? {
      IterateByPosition(data, 0, [], n);
      assert Walk(NextPosition(data), 0, n) == None;
    }
  }

  /** If the first header says minus its own length and four more, the loop comes back to the start for ever. */
  lemma {:induction false} NeverEnds(data: bytes, crlf: nat, out: bytes, turns: nat)
    requires Find(data, CRLF, 0) == Some(crlf) && SizeAt(data, 0, crlf) == Some(-(crlf + 4))
    ensures var r := Iterate(data, Running(0, out), turns); r.Running? && r.idx == 0
    decreases turns
  {
    hide Find, SizeAt, Slice;
    if turns > 0 {
      NeverEnds(data, crlf, out + Slice(data, crlf + 2, -2), turns - 1);
    }
  }

  const MINUS_SIX: bytes := [45, 54, 13, 10]

  lemma {:induction false} MinusSixHeader()
    ensures Find(MINUS_SIX, CRLF, 0) == Some(2) && SizeAt(MINUS_SIX, 0, 2) == Some(-6)
  {
    var data := MINUS_SIX;
    assert data[2..4] == CRLF && data[0] != CR && data[1] != CR;
    assert !At(data, CRLF, 0) by { assert data[0..2][0] == 45; }
    assert !At(data, CRLF, 1) by { assert data[1..3][0] == 54; }
    FindIs(data, CRLF, 0, 2);
    var header: bytes := [45, 54];
    assert Slice(data, 0, 2) == header;
    assert UpTo(header[1..], SEMICOLON) == [54] by { assert header[1..] == [54]; }
    assert UpTo(header, SEMICOLON) == header;
    assert Strip(header, IsByteSpace) == header;
    assert header[1..] == [54] && DigitValue(54) == 6;
    assert DigitsValue([54], 16) == DigitsValue([54][..0], 16) * 16 + 6;
    assert PyInt(header, 16) == Some(-6);
  }

  /** On `-6` and a line end the loop never gets anywhere. */
  lemma {:induction false} NegativeSizeLoops(turns: nat)
    ensures Turn(MINUS_SIX, 0, []) == Running(0, [])
    ensures Iterate(MINUS_SIX, Running(0, []), turns) == Running(0, [])
  {
    MinusSixHeader();
    hide Find, SizeAt;
    if turns > 0 {
      NegativeSizeLoops(turns - 1);
    }
  }

  // ---------- round trip ----------

  /** A chunk as it is sent: its size in any hexadecimal spelling, an optional extension, its data. */
  datatype Chunk = Chunk(size: bytes, extension: bytes, data: bytes) {
    function Header(): bytes {
      size + extension
    }
  }

  predicate HeaderOk(c: Chunk) {
    && PlainDigits(c.size, 16)
    && (c.extension == [] || c.extension[0] == SEMICOLON)
    && Quiet(c.extension)
    && DigitsValue(c.size, 16) == |c.data|
  }

  function EncodeOne(c: Chunk): bytes {
    c.Header() + CRLF + c.data + CRLF
  }

  function Encode(chunks: seq<Chunk>): bytes {
    if chunks == [] then []
    else EncodeOne(chunks[0]) + Encode(chunks[1..])
  }

  function DataOf(chunks: seq<Chunk>): bytes {
    if chunks == [] then [] else chunks[0].data + DataOf(chunks[1..])
  }

  lemma {:induction false} DigitsAreQuiet(s: bytes)
    requires PlainDigits(s, 16)
    ensures Quiet(s) && forall i :: 0 <= i < |s| ==> s[i] != SEMICOLON
  {
    assert DigitValue(CR) == 36 && DigitValue(LF) == 36 && DigitValue(SEMICOLON) == 36;
  }

  lemma {:induction false} SizeOfHeader(c: Chunk)
    requires HeaderOk(c)
    ensures Quiet(c.Header()) && PyInt(Strip(UpTo(c.Header(), SEMICOLON), IsByteSpace), 16) == Some(|c.data|)
  {
    hide PlainDigits, PyInt, Strip, DigitsValue, UpTo;
    DigitsAreQuiet(c.size);
    PlainDigitsRead(c.size, 16);
    PlainDigitsAreNotStripped(c.size, 16);
    UpToSeparator(c.size, SEMICOLON, c.extension);
  }

  /** The header of a chunk is found and its size is read, whatever stands before and behind it. */
  lemma {:induction false} HeaderIsRead(before: bytes, c: Chunk, after: bytes)
    requires HeaderOk(c)
    ensures var data, crlf := before + c.Header() + (CRLF + after), |before| + |c.Header()|;
            Find(data, CRLF, |before|) == Some(crlf) && SizeAt(data, |before|, crlf) == Some(|c.data|)
  {
    hide PyInt, Strip, Find, UpTo, HeaderOk, Quiet;
    SizeOfHeader(c);
    FindsLineEnd(before, c.Header(), after);
  }

  lemma {:induction false} ChunkLayout(before: bytes, header: bytes, d: bytes, after: bytes)
    ensures var file := before + (header + CRLF + d + CRLF) + after;
            var start := |before| + |header| + 2;
            && file == before + header + (CRLF + (d + CRLF + after))
            && file[start..start + |d|] == d
  {
    SlicesOfConcat(before, header + CRLF, d, CRLF, after);
  }

  lemma {:induction false} OneChunk(before: bytes, c: Chunk, after: bytes, out: bytes)
    requires HeaderOk(c) && c.data != []
    ensures var sent := before + EncodeOne(c);
            Turn(sent + after, |before|, out) == Running(|sent|, out + c.data)
  {
    hide Find, SizeAt, HeaderOk;
    HeaderIsRead(before, c, c.data + CRLF + after);
    ChunkLayout(before, c.Header(), c.data, after);
    var start := |before| + |c.Header()| + 2;
    assert |before + EncodeOne(c)| == start + |c.data| + 2;
  }

  lemma {:induction false} LastChunk(before: bytes, last: Chunk, after: bytes, out: bytes)
    requires HeaderOk(last) && last.data == []
    ensures Turn(before + last.Header() + (CRLF + after), |before|, out) == Finished(out)
  {
    HeaderIsRead(before, last, after);
    hide Find, SizeAt, HeaderOk;
  }

  /** Any chunks, in any spelling, followed by a last chunk and any trailer, decode to their data. */
  lemma {:induction false} ChunksRoundTrip(
    before: bytes, chunks: seq<Chunk>, last: Chunk, trailer: bytes, out: bytes, turns: nat)
    requires forall i :: 0 <= i < |chunks| ==> HeaderOk(chunks[i]) && chunks[i].data != []
    requires HeaderOk(last) && last.data == [] && turns > |chunks|
    ensures Iterate(before + Encode(chunks) + (last.Header() + CRLF + trailer), Running(|before|, out), turns) ==
            Finished(out + DataOf(chunks))
    decreases |chunks|
  {
    hide Turn, HeaderOk;
    var tail := last.Header() + CRLF + trailer;
    if chunks == [] {
      LastChunk(before, last, trailer, out);
      ConcatNothing(before);
      ConcatAssociative(last.Header(), CRLF, trailer);
      ConcatAssociative(before, last.Header(), CRLF + trailer);
      ConcatNothing(out);
    } else {
      var c, rest := chunks[0], Encode(chunks[1..]);
      OneChunk(before, c, rest + tail, out);
      ChunksRoundTrip(before + EncodeOne(c), chunks[1..], last, trailer, out + c.data, turns - 1);
      ConcatAssociative(before, EncodeOne(c), rest);
      ConcatAssociative(before + EncodeOne(c), rest, tail);
      ConcatAssociative(out, c.data, DataOf(chunks[1..]));
    }
  }

  lemma {:induction false} DechunkRoundTrip(chunks: seq<Chunk>, last: Chunk, trailer: bytes, turns: nat)
    requires forall i :: 0 <= i < |chunks| ==> HeaderOk(chunks[i]) && chunks[i].data != []
    requires HeaderOk(last) && last.data == [] && turns > |chunks|
    ensures Iterate(Encode(chunks) + (last.Header() + CRLF + trailer), Running(0, []), turns) ==
            Finished(DataOf(chunks))
  {
    ChunksRoundTrip([], chunks, last, trailer, [], turns);
    ConcatNothing(Encode(chunks));
    ConcatNothing(DataOf(chunks));
  }
}
