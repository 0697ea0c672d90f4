/** Splitting one direction of a connection into HTTP messages (RFC 9112 section 6.3). */
module HttpMessages {
  import opened Basics
  import opened HttpText
  import opened Walks

  type Headers = map<bytes, bytes>

  datatype Message = Message(firstLine: bytes, headers: Headers, body: bytes)

  /** The loop between two turns, or what it has returned. */
  datatype Loop = Running(offset: int, sofar: seq<Message>) | Finished(messages: seq<Message>)

  // ---------- header block ----------

  /** `str.lower` on Latin-1 text. */
  function LowerByte(b: byte): byte {
    if 65 <= b <= 90 || (192 <= b <= 222 && b != 215) then b + 32 else b
  }

  function Lower(s: bytes): bytes {
    seq(|s|, i requires 0 <= i < |s| => LowerByte(s[i]))
  }

  lemma {:induction false} UpToShorter(s: bytes, separator: byte)
    ensures |UpTo(s, separator)| <= |s|
  {
    if s != [] && s[0] != separator {
      UpToShorter(s[1..], separator);
    }
  }

  function AddHeader(headers: Headers, line: bytes): Headers {
    var key := UpTo(line, COLON);
    UpToShorter(line, COLON);
    if |key| == |line| then headers
    else headers[Lower(Strip(key, IsTextSpace)) := Strip(line[|key| + 1..], IsTextSpace)]
  }

  /** The dictionary made of header lines, later lines winning. */
  function HeadersOf(lines: seq<bytes>): Headers {
    if lines == [] then map[] else AddHeader(HeadersOf(lines[..|lines| - 1]), lines[|lines| - 1])
  }

  /** First line and headers of a header block; an empty first line means there are none. */
  function ParseHeaders(block: bytes): (bytes, Headers) {
    var lines := Lines(block, 0);
    if lines[0] == [] then ([], map[]) else (Strip(lines[0], IsTextSpace), HeadersOf(lines[1..]))
  }

  /** The bytes of an ASCII text. */
  function Text(s: string): bytes {
    seq(|s|, i requires 0 <= i < |s| => if s[i] as int < 128 then s[i] as int else 0)
  }

  const CONTENT_LENGTH: bytes := Text("content-length")
  const TRANSFER_ENCODING: bytes := Text("transfer-encoding")

  /** `headers["content-length"]` as a number, unless it is missing or not one. */
  function ContentLength(headers: Headers): Option<int> {
    if CONTENT_LENGTH in headers then PyInt(headers[CONTENT_LENGTH], 10) else None
  }

  predicate IsChunked(headers: Headers) {
    TRANSFER_ENCODING in headers && Find(Lower(headers[TRANSFER_ENCODING]), Text("chunked"), 0).Some?
  }

  // ---------- start lines ----------

  const REQUEST_STARTS: seq<string> :=
    ["GET ", "POST ", "PUT ", "DELETE ", "HEAD ", "OPTIONS ", "CONNECT ", "TRACE ", "PATCH "]

  /** The start lines looked for when a message says nothing about its length: two methods fewer. */
  const NEXT_REQUESTS: seq<string> := ["GET ", "POST ", "PUT ", "DELETE ", "HEAD ", "OPTIONS ", "CONNECT "]

  predicate ValidStart(line: bytes, isRequest: bool) {
    if isRequest then exists i :: 0 <= i < |REQUEST_STARTS| && Text(REQUEST_STARTS[i]) <= line
    else Text("HTTP/") <= line
  }

  /** The least position from `from` on at which one of the texts stands. */
  function FindFirst(data: bytes, texts: seq<string>, from: nat): (r: Option<nat>)
    ensures r.Some? ==> from <= r.value <= |data|
  {
    if texts == [] then None
    else
      var before, pos := FindFirst(data, texts[..|texts| - 1], from), Find(data, Text(texts[|texts| - 1]), from);
      if pos.Some? && (before.None? || pos.value < before.value) then pos else before
  }

  function NextMessage(data: bytes, isRequest: bool, from: nat): (r: Option<nat>)
    ensures r.Some? ==> from <= r.value <= |data|
  {
    FindFirst(data, if isRequest then NEXT_REQUESTS else ["HTTP/"], from)
  }

  // ---------- the splitter ----------

  /** Where a body ends, and whether there can be another message behind it. */
  datatype BodyEnd = Until(end: int) | UntilClose

  function EndByChunks(data: bytes, start: nat): (r: BodyEnd)
    ensures r.Until? ==> start <= r.end <= |data|
  {
    match Find(data, Text("0") + BLANK_LINE, start)
    case Some(i) => Until(i + 5)
    case None => UntilClose
  }

  function EndByNext(data: bytes, isRequest: bool, start: nat): (r: BodyEnd)
    ensures r.Until? ==> start <= r.end <= |data|
  {
    match NextMessage(data, isRequest, start)
    case Some(i) => Until(i)
    case None => UntilClose
  }

  /** With a Content-Length, as far as it says or the data goes; a negative one points back. */
  function EndOfBody(data: bytes, isRequest: bool, headers: Headers, start: nat): (r: BodyEnd)
    ensures r.Until? ==> r.end <= |data|
    ensures r.Until? && ContentLength(headers).None? ==> start <= r.end
  {
    match ContentLength(headers)
    case Some(length) => Until(Min(|data|, start + length))
    case None => if IsChunked(headers) then EndByChunks(data, start) else EndByNext(data, isRequest, start)
  }

  /** One turn of the loop, from any offset. */
  function Turn(data: bytes, isRequest: bool, offset: int, messages: seq<Message>): Loop {
    if offset >= |data| then Finished(messages)
    else
      match FindFrom(data, BLANK_LINE, offset)
      case None => Finished(messages)
      case Some(headerEnd) =>
        var (firstLine, headers) := ParseHeaders(Slice(data, offset, headerEnd));
        var start := headerEnd + 4;
        if firstLine == [] then Finished(messages)
        else if !ValidStart(firstLine, isRequest) then Running(start, messages)
        else
          match EndOfBody(data, isRequest, headers, start)
          case UntilClose => Finished(messages + [Message(firstLine, headers, SliceFrom(data, start))])
          case Until(end) => Running(end, messages + [Message(firstLine, headers, Slice(data, start, end))])
  }

  function Iterate(data: bytes, isRequest: bool, st: Loop, turns: nat): Loop
    decreases turns
  {
    if turns == 0 || st.Finished? then st
    else Iterate(data, isRequest, Turn(data, isRequest, st.offset, st.sofar), turns - 1)
  }

  /** The loop, stopped after a number of turns if it has not ended by then. */
  method ParseHttpMessages(data: bytes, isRequest: bool, turns: nat) returns (r: Loop)
    ensures r == Iterate(data, isRequest, Running(0, []), turns)
  {
    hide FindFrom, ParseHeaders, ValidStart, EndOfBody, Slice, SliceFrom;
    var messages: seq<Message> := [];
    var offset: int, left := 0, turns;
    while left > 0 && offset < |data|
      invariant Iterate(data, isRequest, Running(offset, messages), left) ==
                Iterate(data, isRequest, Running(0, []), turns)
    {
      left := left - 1;
      var headerEnd := FindFrom(data, BLANK_LINE, offset);
      if headerEnd.None? {
        return Finished(messages);
      }
      var (firstLine, headers) := ParseHeaders(Slice(data, offset, headerEnd.value));
      if firstLine == [] {
        return Finished(messages);
      }
      var bodyStart := headerEnd.value + 4;
      if !ValidStart(firstLine, isRequest) {
        offset := bodyStart;
        continue;
      }
      match EndOfBody(data, isRequest, headers, bodyStart) {
        case UntilClose =>
          messages := messages + [Message(firstLine, headers, SliceFrom(data, bodyStart))];
          return Finished(messages);
        case Until(end) =>
          messages := messages + [Message(firstLine, headers, Slice(data, bodyStart, end))];
          offset := end;
      }
    }
    return if left > 0 then Finished(messages) else Running(offset, messages);
  }

  // ---------- whether the loop ends ----------

  /** A turn comes back to its offset or one before it if and only if a message says so negative a length. */
  lemma {:induction false} TurnStallsIff(data: bytes, isRequest: bool, offset: int, messages: seq<Message>)
    ensures var r := Turn(data, isRequest, offset, messages);
            r.Running? && r.offset <= offset <==>
            && offset < |data|
            && var headerEnd := FindFrom(data, BLANK_LINE, offset);
               && headerEnd.Some?
               && var (firstLine, headers) := ParseHeaders(Slice(data, offset, headerEnd.value));
                  && firstLine != [] && ValidStart(firstLine, isRequest)
                  && ContentLength(headers).Some?
                  && ContentLength(headers).value <= -(headerEnd.value - offset + 4)
  {
    hide Find, ParseHeaders, ValidStart, ContentLength, IsChunked, Slice, SliceFrom;
  }

  /** No stretch of the data reads as a header block with a negative length. */
  ghost predicate LengthsUnsigned(data: bytes) {
    forall i, j :: 0 <= i <= j <= |data| ==> var length := ContentLength(ParseHeaders(data[i..j]).1);
                                           length.Some? ==> length.value >= 0
  }

  lemma {:induction false} EndsFrom(data: bytes, isRequest: bool, offset: nat, messages: seq<Message>, turns: nat)
    requires LengthsUnsigned(data) && turns > 0 && turns > |data| - offset
    ensures Iterate(data, isRequest, Running(offset, messages), turns).Finished?
    decreases turns
  {
    TurnStallsIff(data, isRequest, offset, messages);
    hide Find, ParseHeaders, ValidStart, ContentLength, EndOfBody;
    var r := Turn(data, isRequest, offset, messages);
    if r.Running? {
      EndsFrom(data, isRequest, r.offset, r.sofar, turns - 1);
    }
  }

  /** Without negative lengths the data is split in at most one turn per byte and one more. */
  lemma {:induction false} EndsUnsigned(data: bytes, isRequest: bool, turns: nat)
    requires LengthsUnsigned(data) && turns > |data|
    ensures Iterate(data, isRequest, Running(0, []), turns).Finished?
  {
    EndsFrom(data, isRequest, 0, [], turns);
  }

  /** Where a turn leads, clipped to the data; the messages so far do not matter. */
  function NextPosition(data: bytes, isRequest: bool): nat -> Option<nat> {
    p => match Turn(data, isRequest, p, [])
         case Running(offset, sofar) => Some(Clip(offset, |data|))
         case Finished(messages) => None
  }

  lemma {:induction false} TurnByPosition(data: bytes, isRequest: bool, offset: int, messages: seq<Message>)
    ensures var r, q := Turn(data, isRequest, offset, messages), NextPosition(data, isRequest)(Clip(offset, |data|));
            if r.Running? then q == Some(Clip(r.offset, |data|)) else q == None
  {
    hide FindFrom, ParseHeaders, ValidStart, EndOfBody, Slice, SliceFrom, Clip;
    PositionIsClipped(data, BLANK_LINE, offset);
  }

  lemma {:induction false} IterateByPosition(
    data: bytes, isRequest: bool, offset: int, messages: seq<Message>, turns: nat)
    ensures Iterate(data, isRequest, Running(offset, messages), turns).Finished? <==>
            Walk(NextPosition(data, isRequest), Clip(offset, |data|), turns) == None
    decreases turns
  {
    hide Turn, NextPosition, Clip;
    if turns > 0 {
      TurnByPosition(data, isRequest, offset, messages);
      var r := Turn(data, isRequest, offset, messages);
      if r.Running? {
        IterateByPosition(data, isRequest, r.offset, r.sofar, turns - 1);
      }
    }
  }

  lemma {:induction false} StopsAtEnd(data: bytes, isRequest: bool)
    ensures forall q: nat :: q >= |data| ==> NextPosition(data, isRequest)(q) == None
  {
  }

  /** On any data the loop ends at all if and only if it ends within one turn per byte and one more. */
  lemma {:induction false} EndsIff(data: bytes, isRequest: bool)
    ensures (exists n: nat :: Iterate(data, isRequest, Running(0, []), n).Finished?) <==>
            Iterate(data, isRequest, Running(0, []), |data| + 1).Finished?
  {
    hide Iterate, NextPosition, Turn, Walk;
    StopsAtEnd(data, isRequest);
    Walks.EndsIff(NextPosition(data, isRequest), 0, |data|);
    IterateByPosition(data, isRequest, 0, [], |data| + 1);
    if n: nat :| Iterate(data, isRequest, Running(0, []), n).Finished? {
      IterateByPosition(data, isRequest, 0, [], n);
      assert Walk(NextPosition(data, isRequest), 0, n) == None;
    }
  }

  // ---------- round trip ----------

  /** A message as it is sent: the lines of its header block, and its body. */
  datatype Sent = Sent(lines: seq<bytes>, body: bytes)

  predicate AllQuiet(lines: seq<bytes>) {
    forall i :: 0 <= i < |lines| ==> lines[i] != [] && Quiet(lines[i])
  }

  predicate LinesOk(lines: seq<bytes>) {
    lines != [] && AllQuiet(lines)
  }

  /** Well-formed: a start line of the right kind, and a Content-Length that says how long the body is. */
  predicate WellFormed(m: Sent, isRequest: bool) {
    && LinesOk(m.lines)
    && Strip(m.lines[0], IsTextSpace) == m.lines[0]
    && ValidStart(m.lines[0], isRequest)
    && ContentLength(HeadersOf(m.lines[1..])) == Some(|m.body|)
  }

  function EncodeOne(m: Sent): bytes {
    JoinLines(m.lines) + BLANK_LINE + m.body
  }

  function Encode(ms: seq<Sent>): bytes {
    if ms == [] then [] else EncodeOne(ms[0]) + Encode(ms[1..])
  }

  predicate AllWellFormed(ms: seq<Sent>, isRequest: bool) {
    forall i :: 0 <= i < |ms| ==> WellFormed(ms[i], isRequest)
  }

  /** What the receiver should make of a message. */
  function Received(m: Sent): Message {
    Message(if m.lines == [] then [] else m.lines[0], if m.lines == [] then map[] else HeadersOf(m.lines[1..]), m.body)
  }

  function AllReceived(ms: seq<Sent>): seq<Message> {
    if ms == [] then [] else [Received(ms[0])] + AllReceived(ms[1..])
  }

  /** A line without CR and LF holds no part of a blank line, and a line end before another line is not one. */
  lemma {:induction false} NotBlankInLine(before: bytes, line: bytes, after: bytes, j: nat)
    requires Quiet(line) && |before| <= j < |before| + |line|
    ensures !At(before + line + after, BLANK_LINE, j)
  {
    var data := before + line + after;
    assert data[j] == line[j - |before|];
    if j + 4 <= |data| {
      assert data[j..j + 4][0] == data[j];
    }
  }

  lemma {:induction false} NotBlankAtLineEnd(before: bytes, line: bytes, after: bytes, j: nat)
    requires line != [] && Quiet(line) && |before| <= j < |before| + 2
    ensures !At(before + CRLF + (line + after), BLANK_LINE, j)
  {
    var data, k := before + CRLF + (line + after), |before| + 2;
    assert data[k] == line[0] && data[|before| + 1] == LF;
    if j + 4 <= |data| {
      assert data[j..j + 4][0] == data[j] && data[j..j + 4][2] == data[j + 2];
    }
  }

  lemma {:induction false} JoinStartsWithLine(lines: seq<bytes>)
    requires LinesOk(lines)
    ensures JoinLines(lines) == lines[0] + if |lines| == 1 then [] else CRLF + JoinLines(lines[1..])
  {
    ConcatNothing(lines[0]);
    if |lines| > 1 {
      ConcatAssociative(lines[0], CRLF, JoinLines(lines[1..]));
    }
  }

  /** The header block ends at the first blank line, and that is the one written. */
  lemma {:induction false} FindsBlankLine(before: bytes, lines: seq<bytes>, after: bytes)
    requires LinesOk(lines)
    ensures Find(before + JoinLines(lines) + (BLANK_LINE + after), BLANK_LINE, |before|) ==
            Some(|before| + |JoinLines(lines)|)
    decreases |lines|
  {
    hide Find, Quiet;
    var data := before + JoinLines(lines) + (BLANK_LINE + after);
    var line := lines[0];
    JoinStartsWithLine(lines);
    forall j: nat | |before| <= j < |before| + |line| ensures !At(data, BLANK_LINE, j) {
      var behind := (if |lines| == 1 then [] else CRLF + JoinLines(lines[1..])) + (BLANK_LINE + after);
      assert data == before + line + behind;
      NotBlankInLine(before, line, behind, j);
    }
    if |lines| == 1 {
      var end := |before| + |line|;
      assert data[end..end + 4] == BLANK_LINE;
      FindIs(data, BLANK_LINE, |before|, end);
    } else {
      var rest := JoinLines(lines[1..]);
      var before' := before + line + CRLF;
      assert data == before' + rest + (BLANK_LINE + after);
      FindsBlankLine(before', lines[1..], after);
      JoinStartsWithLine(lines[1..]);
      var behind := (if |lines| == 2 then [] else CRLF + JoinLines(lines[2..])) + (BLANK_LINE + after);
      assert data == before + line + CRLF + (lines[1] + behind);
      forall j: nat | |before| + |line| <= j < |before'| ensures !At(data, BLANK_LINE, j) {
        NotBlankAtLineEnd(before + line, lines[1], behind, j);
      }
      FindIs(data, BLANK_LINE, |before|, |before'| + |rest|);
    }
  }

  // ---------- what a header block says ----------

  /** A header line for `key`, as names are compared. */
  predicate Names(line: bytes, key: bytes) {
    var name := UpTo(line, COLON);
    |name| < |line| && Lower(Strip(name, IsTextSpace)) == key
  }

  /** What stands behind the colon of a header line. */
  function ValueOf(line: bytes): bytes {
    var key := UpTo(line, COLON);
    if |key| < |line| then Strip(line[|key| + 1..], IsTextSpace) else []
  }

  /** Lines of other headers do not change a header. */
  lemma {:induction false} OtherLinesKeep(lines: seq<bytes>, others: seq<bytes>, key: bytes)
    requires forall i :: 0 <= i < |others| ==> !Names(others[i], key)
    ensures key in HeadersOf(lines + others) <==> key in HeadersOf(lines)
    ensures key in HeadersOf(lines) ==> HeadersOf(lines + others)[key] == HeadersOf(lines)[key]
  {
    hide Lower, Strip, UpTo;
    if others == [] {
      ConcatNothing(lines);
    } else {
      var front, last, all := others[..|others| - 1], others[|others| - 1], lines + others;
      OtherLinesKeep(lines, front, key);
      assert all[..|all| - 1] == lines + front && all[|all| - 1] == last;
      UpToShorter(last, COLON);
      assert !Names(last, key);
    }
  }

  /** A header has the value of the last line that names it, whatever other headers follow. */
  lemma {:induction false} LastLineDecides(lines: seq<bytes>, line: bytes, others: seq<bytes>, key: bytes)
    requires Names(line, key) && forall i :: 0 <= i < |others| ==> !Names(others[i], key)
    ensures key in HeadersOf(lines + [line] + others)
    ensures HeadersOf(lines + [line] + others)[key] == ValueOf(line)
  {
    OtherLinesKeep(lines + [line], others, key);
    UpToShorter(line, COLON);
    hide Lower, Strip, UpTo;
    assert (lines + [line])[..|lines|] == lines;
  }

  lemma {:induction false} StripsNothing(s: bytes, space: byte -> bool)
    requires s != [] ==> !space(s[0]) && !space(s[|s| - 1])
    ensures Strip(s, space) == s
  {
  }

  lemma {:induction false} StripsSpace(value: bytes)
    requires value != [] ==> !IsTextSpace(value[0]) && !IsTextSpace(value[|value| - 1])
    ensures Strip([32] + value, IsTextSpace) == value
  {
    assert ([32] + value)[1..] == value;
  }

  /** A line as it is sent names its header, in any case, and has its value. */
  lemma {:induction false} HeaderLineIsRead(name: bytes, value: bytes)
    requires COLON !in name && (name != [] ==> !IsTextSpace(name[0]) && !IsTextSpace(name[|name| - 1]))
    requires value != [] ==> !IsTextSpace(value[0]) && !IsTextSpace(value[|value| - 1])
    ensures Names(name + ([COLON] + ([32] + value)), Lower(name))
    ensures ValueOf(name + ([COLON] + ([32] + value))) == value
  {
    StripsNothing(name, IsTextSpace);
    UpToSeparator(name, COLON, [COLON] + ([32] + value));
    assert (name + ([COLON] + ([32] + value)))[|name| + 1..] == [32] + value;
    StripsNothing(value, IsTextSpace);
    StripsSpace(value);
    hide UpTo, Strip, IsTextSpace;
  }

  // ---------- the length a header block says ----------

  predicate IsLengthLine(line: bytes) {
    Names(line, CONTENT_LENGTH)
  }

  /** The last Content-Length line decides, whatever other headers follow it. */
  lemma {:induction false} LastLengthDecides(lines: seq<bytes>, line: bytes, others: seq<bytes>)
    requires IsLengthLine(line) && forall i :: 0 <= i < |others| ==> !IsLengthLine(others[i])
    ensures ContentLength(HeadersOf(lines + [line] + others)) == PyInt(ValueOf(line), 10)
  {
    hide Names, HeadersOf, ValueOf, PyInt;
    LastLineDecides(lines, line, others, CONTENT_LENGTH);
  }

  /** A Content-Length line as it is sent, the name in any case. */
  function LengthLine(name: bytes, digits: bytes): bytes {
    name + ([COLON] + ([32] + digits))
  }

  predicate IsLengthName(name: bytes) {
    Lower(name) == CONTENT_LENGTH
  }

  lemma {:induction false} LengthNameBytes(name: bytes)
    requires IsLengthName(name)
    ensures |name| == 14 && Quiet(name) && forall i :: 0 <= i < |name| ==> name[i] != COLON && !IsTextSpace(name[i])
  {
    var text := "content-length";
    assert forall i :: 0 <= i < 14 ==> text[i] == '-' || 'a' <= text[i] <= 'z';
    assert |Lower(name)| == |name|;
    forall i | 0 <= i < |name| ensures name[i] == 45 || 65 <= name[i] <= 122 {
      assert Lower(name)[i] == LowerByte(name[i]) == CONTENT_LENGTH[i] == text[i] as int;
    }
  }

  lemma {:induction false} StripsLeadingSpace(digits: bytes)
    requires PlainDigits(digits, 10)
    ensures Strip([32] + digits, IsTextSpace) == digits
  {
    assert ([32] + digits)[1..] == digits;
    assert DigitValue(digits[0]) < 36 && DigitValue(digits[|digits| - 1]) < 36;
  }

  lemma {:induction false} LengthLineIsRead(name: bytes, digits: bytes)
    requires IsLengthName(name) && PlainDigits(digits, 10)
    ensures IsLengthLine(LengthLine(name, digits))
    ensures PyInt(ValueOf(LengthLine(name, digits)), 10) == Some(DigitsValue(digits, 10))
  {
    LengthNameBytes(name);
    StripsNothing(name, IsTextSpace);
    hide Lower, Strip, UpTo, PyInt, Quiet, IsTextSpace;
    var value := [32] + digits;
    UpToSeparator(name, COLON, [COLON] + value);
    assert LengthLine(name, digits)[|name| + 1..] == value;
    StripsLeadingSpace(digits);
    PlainDigitsRead(digits, 10);
  }

  lemma {:induction false} LengthLineIsQuiet(name: bytes, digits: bytes)
    requires IsLengthName(name) && PlainDigits(digits, 10)
    ensures Quiet(LengthLine(name, digits))
  {
    LengthNameBytes(name);
    hide IsLengthName;
    assert DigitValue(CR) == 36 && DigitValue(LF) == 36;
  }

  lemma {:induction false} QuietLinesJoined(start: bytes, lines: seq<bytes>, line: bytes, others: seq<bytes>)
    requires start != [] && Quiet(start) && line != [] && Quiet(line) && AllQuiet(lines) && AllQuiet(others)
    ensures LinesOk([start] + (lines + [line] + others))
    ensures ([start] + (lines + [line] + others))[1..] == lines + [line] + others
  {
    hide Quiet;
  }

  /** Any start line, headers and body make a well-formed message if the last Content-Length line counts the body. */
  lemma {:induction false} LengthMakesWellFormed(start: bytes, lines: seq<bytes>, name: bytes, digits: bytes,
      others: seq<bytes>, body: bytes, isRequest: bool)
    requires start != [] && Quiet(start) && AllQuiet(lines) && AllQuiet(others)
    requires Strip(start, IsTextSpace) == start && ValidStart(start, isRequest)
    requires IsLengthName(name) && PlainDigits(digits, 10) && DigitsValue(digits, 10) == |body|
    requires forall i :: 0 <= i < |others| ==> !IsLengthLine(others[i])
    ensures WellFormed(Sent([start] + (lines + [LengthLine(name, digits)] + others), body), isRequest)
  {
    hide Strip, ValidStart, IsLengthName, PlainDigits, DigitsValue, IsLengthLine, HeadersOf, ContentLength, Quiet,
      AllQuiet, LinesOk, UpTo, PyInt, ValueOf;
    LengthLineIsRead(name, digits);
    LengthLineIsQuiet(name, digits);
    LastLengthDecides(lines, LengthLine(name, digits), others);
    QuietLinesJoined(start, lines, LengthLine(name, digits), others);
  }

  lemma {:induction false} LastLine(before: bytes, line: bytes)
    requires Quiet(line)
    ensures Lines(before + line, |before|) == [line]
  {
    hide Find;
    var data := before + line;
    forall j: nat | |before| <= j ensures !At(data, CRLF, j) {
      if j + 2 <= |data| {
        assert data[j] == line[j - |before|] && data[j..j + 2][0] == data[j];
      }
    }
    assert data[|before|..] == line;
  }

  lemma {:induction false} Regroup(before: bytes, line: bytes, rest: bytes)
    ensures before + (line + CRLF + rest) == before + line + (CRLF + rest) == before + line + CRLF + rest
  {
  }

  lemma {:induction false} FirstLine(before: bytes, line: bytes, rest: bytes)
    requires Quiet(line)
    ensures Lines(before + (line + CRLF + rest), |before|) ==
            [line] + Lines(before + line + CRLF + rest, |before + line + CRLF|)
  {
    hide Find, At, Quiet;
    FindsLineEnd(before, line, rest);
    Regroup(before, line, rest);
  }

  /** Splitting the joined lines gives them back. */
  lemma {:induction false} LinesOfJoin(before: bytes, lines: seq<bytes>)
    requires lines != [] && forall i :: 0 <= i < |lines| ==> Quiet(lines[i])
    ensures Lines(before + JoinLines(lines), |before|) == lines
    decreases |lines|
  {
    hide Find, Lines, Quiet;
    if |lines| == 1 {
      LastLine(before, lines[0]);
    } else {
      FirstLine(before, lines[0], JoinLines(lines[1..]));
      LinesOfJoin(before + lines[0] + CRLF, lines[1..]);
    }
  }

  lemma {:induction false} HeaderBlockRoundTrip(lines: seq<bytes>)
    requires LinesOk(lines) && Strip(lines[0], IsTextSpace) == lines[0]
    ensures ParseHeaders(JoinLines(lines)) == (lines[0], HeadersOf(lines[1..]))
  {
    LinesOfJoin([], lines);
    assert [] + JoinLines(lines) == JoinLines(lines);
  }

  /** Where the parts of a message stand in the data. */
  lemma {:induction false} PartsOfMessage(before: bytes, block: bytes, body: bytes, after: bytes)
    ensures var data, start := before + (block + BLANK_LINE + body) + after, |before| + |block| + 4;
            data == before + block + (BLANK_LINE + (body + after)) &&
            data[|before|..start - 4] == block && data[start..start + |body|] == body
  {
    var data := before + (block + BLANK_LINE + body) + after;
    assert data == before + block + (BLANK_LINE + (body + after));
  }

  lemma {:induction false} SplitsAt(data: bytes, isRequest: bool, offset: nat, headerEnd: nat, end: int,
      firstLine: bytes, headers: Headers, done: seq<Message>)
    requires offset < |data| && Find(data, BLANK_LINE, offset) == Some(headerEnd)
    requires ParseHeaders(data[offset..headerEnd]) == (firstLine, headers)
    requires firstLine != [] && ValidStart(firstLine, isRequest)
    requires EndOfBody(data, isRequest, headers, headerEnd + 4) == Until(end)
    ensures Turn(data, isRequest, offset, done) ==
            Running(end, done + [Message(firstLine, headers, Slice(data, headerEnd + 4, end))])
  {
    hide Find, ParseHeaders, ValidStart, EndOfBody;
  }

  lemma {:induction false} WellFormedParts(m: Sent, isRequest: bool)
    requires WellFormed(m, isRequest)
    ensures m.lines != [] && m.lines[0] != [] && LinesOk(m.lines) && Strip(m.lines[0], IsTextSpace) == m.lines[0]
    ensures ValidStart(m.lines[0], isRequest) && ContentLength(HeadersOf(m.lines[1..])) == Some(|m.body|)
  {
    hide ValidStart, ContentLength, HeadersOf, Strip;
  }

  lemma {:induction false} FindsHeaderEnd(before: bytes, m: Sent, after: bytes)
    requires LinesOk(m.lines)
    ensures var data, end := before + EncodeOne(m) + after, |before| + |JoinLines(m.lines)|;
            && Find(data, BLANK_LINE, |before|) == Some(end)
            && data[|before|..end] == JoinLines(m.lines)
            && data[end + 4..end + 4 + |m.body|] == m.body
            && end + 4 + |m.body| == |before + EncodeOne(m)|
  {
    hide Find, LinesOk, JoinLines;
    PartsOfMessage(before, JoinLines(m.lines), m.body, after);
    FindsBlankLine(before, m.lines, m.body + after);
  }

  /** A well-formed message is split off whole, whatever its body holds and whatever follows. */
  lemma {:induction false} OneMessage(before: bytes, m: Sent, after: bytes, isRequest: bool, done: seq<Message>)
    requires WellFormed(m, isRequest)
    ensures Turn(before + EncodeOne(m) + after, isRequest, |before|, done) ==
            Running(|before + EncodeOne(m)|, done + [Received(m)])
  {
    hide Find, ParseHeaders, ValidStart, ContentLength, HeadersOf, Strip, JoinLines, LinesOk, Turn, WellFormed,
      EncodeOne;
    WellFormedParts(m, isRequest);
    FindsHeaderEnd(before, m, after);
    HeaderBlockRoundTrip(m.lines);
    var data, headerEnd := before + EncodeOne(m) + after, |before| + |JoinLines(m.lines)|;
    SplitsAt(data, isRequest, |before|, headerEnd, headerEnd + 4 + |m.body|, m.lines[0], HeadersOf(m.lines[1..]), done);
  }

  lemma {:induction false} NothingLeft(data: bytes, isRequest: bool, done: seq<Message>)
    ensures Turn(data, isRequest, |data|, done) == Finished(done)
  {
  }

  lemma {:induction false} SplitsRest(before: bytes, ms: seq<Sent>, isRequest: bool, done: seq<Message>, turns: nat)
    requires AllWellFormed(ms, isRequest) && turns > |ms|
    ensures Iterate(before + Encode(ms), isRequest, Running(|before|, done), turns) ==
            Finished(done + AllReceived(ms))
    decreases |ms|
  {
    hide Turn, WellFormed, EncodeOne, Received;
    if ms == [] {
      ConcatNothing(done);
      ConcatNothing(before);
      NothingLeft(before, isRequest, done);
    } else {
      var sent, rest := EncodeOne(ms[0]), Encode(ms[1..]);
      OneMessage(before, ms[0], rest, isRequest, done);
      SplitsRest(before + sent, ms[1..], isRequest, done + [Received(ms[0])], turns - 1);
      ConcatAssociative(before, sent, rest);
      ConcatAssociative(done, [Received(ms[0])], AllReceived(ms[1..]));
    }
  }

  /**
   * Messages framed by their Content-Length come back one by one, even when bodies hold
   * blank lines or text that looks like a start line.
   */
  lemma {:induction false} MessagesRoundTrip(ms: seq<Sent>, isRequest: bool, turns: nat)
    requires AllWellFormed(ms, isRequest) && turns > |ms|
    ensures Iterate(Encode(ms), isRequest, Running(0, []), turns) == Finished(AllReceived(ms))
  {
    hide Iterate, Encode, AllReceived, AllWellFormed;
    SplitsRest([], ms, isRequest, [], turns);
    ConcatNothing(Encode(ms));
    ConcatNothing(AllReceived(ms));
  }

  // ---------- a length that points back ----------

  lemma {:induction false} BlockAtStart(lines: seq<bytes>, after: bytes)
    requires LinesOk(lines)
    ensures var data, block := JoinLines(lines) + (BLANK_LINE + after), JoinLines(lines);
            Find(data, BLANK_LINE, 0) == Some(|block|) && data[0..|block|] == block && lines != [] && lines[0] != []
  {
    assert lines != [] && lines[0] != [];
    hide Find, JoinLines, LinesOk;
    FindsBlankLine([], lines, after);
    ConcatNothing(JoinLines(lines));
  }

  lemma {:induction false} RepeatsOnce(lines: seq<bytes>, after: bytes, isRequest: bool, done: seq<Message>)
    returns (next: seq<Message>)
    requires LinesOk(lines) && Strip(lines[0], IsTextSpace) == lines[0] && ValidStart(lines[0], isRequest)
    requires ContentLength(HeadersOf(lines[1..])) == Some(-(|JoinLines(lines)| + 4))
    ensures Turn(JoinLines(lines) + (BLANK_LINE + after), isRequest, 0, done) == Running(0, next)
    ensures |next| == |done| + 1
  {
    hide LinesOk, Strip, ValidStart, ContentLength, HeadersOf, JoinLines, ParseHeaders, Find, Turn;
    BlockAtStart(lines, after);
    var block := JoinLines(lines);
    var data, headers := block + (BLANK_LINE + after), HeadersOf(lines[1..]);
    HeaderBlockRoundTrip(lines);
    assert EndOfBody(data, isRequest, headers, |block| + 4) == Until(0);
    next := done + [Message(lines[0], headers, Slice(data, |block| + 4, 0))];
    SplitsAt(data, isRequest, 0, |block|, 0, lines[0], headers, done);
  }

  /** A header block that says minus its own length and four more is read again for ever. */
  lemma {:induction false} NegativeLengthRepeats(
    lines: seq<bytes>, after: bytes, isRequest: bool, done: seq<Message>, turns: nat)
    requires LinesOk(lines) && Strip(lines[0], IsTextSpace) == lines[0] && ValidStart(lines[0], isRequest)
    requires ContentLength(HeadersOf(lines[1..])) == Some(-(|JoinLines(lines)| + 4))
    ensures var r := Iterate(JoinLines(lines) + (BLANK_LINE + after), isRequest, Running(0, done), turns);
            r.Running? && r.offset == 0 && |r.sofar| == |done| + turns
    decreases turns
  {
    hide LinesOk, Strip, ValidStart, ContentLength, HeadersOf, JoinLines, ParseHeaders, Find, Turn;
    if turns > 0 {
      var next := RepeatsOnce(lines, after, isRequest, done);
      NegativeLengthRepeats(lines, after, isRequest, next, turns - 1);
    }
  }

  /** A Content-Length line with a number of two digits below zero. */
  function MinusLine(name: bytes, a: byte, b: byte): bytes {
    name + ([COLON] + [32, 45, a, b])
  }

  lemma {:induction false} MinusNumber(a: byte, b: byte)
    requires PlainDigits([a, b], 10)
    ensures Strip([32, 45, a, b], IsTextSpace) == [45, a, b] && a != CR && a != LF && b != CR && b != LF
    ensures PyInt([45, a, b], 10) == Some(-(DigitValue(a) * 10 + DigitValue(b)))
  {
    assert DigitValue([a, b][0]) < 10 && DigitValue([a, b][1]) < 10;
    assert [32, 45, a, b][1..] == [45, a, b] && [45, a, b][1..] == [a, b] && [a, b][..1] == [a] && [a][..0] == [];
    assert DigitsValue([a], 10) == DigitValue(a);
  }

  lemma {:induction false} MinusIsRead(name: bytes, a: byte, b: byte)
    requires IsLengthName(name) && PlainDigits([a, b], 10)
    ensures IsLengthLine(MinusLine(name, a, b)) && Quiet(MinusLine(name, a, b)) && |MinusLine(name, a, b)| == 19
    ensures PyInt(ValueOf(MinusLine(name, a, b)), 10) == Some(-(DigitValue(a) * 10 + DigitValue(b)))
  {
    LengthNameBytes(name);
    StripsNothing(name, IsTextSpace);
    MinusNumber(a, b);
    hide Lower, Strip, CONTENT_LENGTH, UpTo, PyInt, IsTextSpace;
    UpToSeparator(name, COLON, [COLON] + [32, 45, a, b]);
    assert MinusLine(name, a, b)[|name| + 1..] == [32, 45, a, b];
  }

  lemma {:induction false} StatusLine()
    ensures var start := Text("HTTP/1.1");
            |start| == 8 && Quiet(start) && Strip(start, IsTextSpace) == start && ValidStart(start, false)
  {
    var start := Text("HTTP/1.1");
    assert start[0] == 72 && start[7] == 49;
    assert Text("HTTP/") == start[..5];
    forall i | 0 <= i < 8 ensures start[i] != CR && start[i] != LF {
      assert "HTTP/1.1"[i] as int >= 46;
    }
  }

  lemma {:induction false} TwoLines(start: bytes, line: bytes)
    requires start != [] && Quiet(start) && line != [] && Quiet(line)
    ensures LinesOk([start, line]) && [start, line][1..] == [line] && [] + [line] + [] == [line]
    ensures |JoinLines([start, line])| == |start| + 2 + |line|
  {
    hide Quiet;
    assert [start, line][1..] == [line] && JoinLines([line]) == line;
  }

  /** Such a response exists: a status line and `Content-Length: -33`, the name in any case. */
  lemma {:induction false} MinusThirtyThreeRepeats(name: bytes, after: bytes, turns: nat)
    requires IsLengthName(name)
    ensures var block := JoinLines([Text("HTTP/1.1"), MinusLine(name, 51, 51)]);
            var r := Iterate(block + (BLANK_LINE + after), false, Running(0, []), turns);
            r.Running? && r.offset == 0 && |r.sofar| == turns
  {
    assert DigitValue(51) == 3;
    StatusLine();
    MinusIsRead(name, 51, 51);
    hide Text, Lower, Strip, UpTo, PyInt, Quiet, ValidStart, IsLengthName, IsLengthLine, MinusLine, HeadersOf,
      ContentLength, ValueOf, Iterate, DigitValue, JoinLines, LinesOk;
    var start, line := Text("HTTP/1.1"), MinusLine(name, 51, 51);
    var lines := [start, line];
    TwoLines(start, line);
    LastLengthDecides([], line, []);
    NegativeLengthRepeats(lines, after, false, [], turns);
  }
}
