/**
  * Where a message ends, however it is framed: by a Content-Length, by the end of its last chunk, by the start line of
  * the next message, or by the end of the data. The condition under which a message is split off whole is exact.
  */
module HttpFraming {
  import opened Basics
  import opened HttpText
  import opened HttpMessages

  // ---------- the next start line ----------

  /** One of the texts stands at `i`. */
  predicate Stands(data: bytes, texts: seq<string>, i: nat) {
    exists t :: 0 <= t < |texts| && At(data, Text(texts[t]), i)
  }

  lemma {:induction false} StandsMore(data: bytes, texts: seq<string>, text: string, i: nat)
    ensures Stands(data, texts + [text], i) <==> Stands(data, texts, i) || At(data, Text(text), i)
  {
    hide At;
    var all := texts + [text];
    assert all[|texts|] == text;
    if Stands(data, texts, i) {
      var t :| 0 <= t < |texts| && At(data, Text(texts[t]), i);
      assert all[t] == texts[t];
    }
  }

  lemma {:induction false} FindFirstIsLeast(data: bytes, texts: seq<string>, from: nat)
    ensures var r := FindFirst(data, texts, from);
            && (r.Some? ==> Stands(data, texts, r.value))
            && forall i: nat :: from <= i && (r.None? || i < r.value) ==> !Stands(data, texts, i)
  {
    hide Find, At;
    if texts != [] {
      var front, last := texts[..|texts| - 1], texts[|texts| - 1];
      FindFirstIsLeast(data, front, from);
      assert texts == front + [last];
      forall i: nat ensures Stands(data, texts, i) <==> Stands(data, front, i) || At(data, Text(last), i) {
        StandsMore(data, front, last, i);
      }
    }
  }

  lemma {:induction false} AtShift(before: bytes, rest: bytes, pattern: bytes, j: nat)
    ensures At(before + rest, pattern, |before| + j) <==> At(rest, pattern, j)
  {
    if j + |pattern| <= |rest| {
      assert (before + rest)[|before| + j..|before| + j + |pattern|] == rest[j..j + |pattern|];
    }
  }

  lemma {:induction false} StandsShift(before: bytes, rest: bytes, texts: seq<string>, j: nat)
    ensures Stands(before + rest, texts, |before| + j) <==> Stands(rest, texts, j)
  {
    hide At;
    forall t | 0 <= t < |texts|
      ensures At(before + rest, Text(texts[t]), |before| + j) <==> At(rest, Text(texts[t]), j)
    {
      AtShift(before, rest, Text(texts[t]), j);
    }
  }

  // ---------- framed messages ----------

  /** The end of a last chunk: `0`, a line end and an empty line. */
  const LAST_CHUNK: bytes := [48, 13, 10, 13, 10]

  function Starts(isRequest: bool): seq<string> {
    if isRequest then NEXT_REQUESTS else ["HTTP/"]
  }

  predicate ChunksEndAt(rest: bytes, i: int) {
    0 <= i && At(rest, LAST_CHUNK, i) && forall j: nat :: j < i ==> !At(rest, LAST_CHUNK, j)
  }

  predicate NextStartsAt(rest: bytes, isRequest: bool, i: nat) {
    Stands(rest, Starts(isRequest), i) && forall j: nat :: j < i ==> !Stands(rest, Starts(isRequest), j)
  }

  /** The body ends where its framing says so, given what follows: nothing may end it earlier. */
  ghost predicate Framed(headers: Headers, body: bytes, after: bytes, isRequest: bool) {
    match ContentLength(headers)
    case Some(length) => length == |body| || (after == [] && length > |body|)
    case None =>
      if IsChunked(headers) then
        ChunksEndAt(body + after, |body| - 5) || (after == [] && forall j: nat :: !At(body, LAST_CHUNK, j))
      else
        NextStartsAt(body + after, isRequest, |body|) ||
        (after == [] && forall j: nat :: !Stands(body, Starts(isRequest), j))
  }

  predicate HeadOk(m: Sent, isRequest: bool) {
    LinesOk(m.lines) && Strip(m.lines[0], IsTextSpace) == m.lines[0] && ValidStart(m.lines[0], isRequest)
  }

  function HeadersOfSent(m: Sent): Headers {
    if m.lines == [] then map[] else HeadersOf(m.lines[1..])
  }

  lemma {:induction false} ChunksEnd(before: bytes, rest: bytes, i: int)
    ensures EndByChunks(before + rest, |before|) == Until(|before| + i + 5) <==> ChunksEndAt(rest, i)
    ensures EndByChunks(before + rest, |before|) == UntilClose <==> forall j: nat :: !At(rest, LAST_CHUNK, j)
  {
    assert Text("0") + BLANK_LINE == LAST_CHUNK;
    forall j: nat ensures At(before + rest, LAST_CHUNK, |before| + j) <==> At(rest, LAST_CHUNK, j) {
      AtShift(before, rest, LAST_CHUNK, j);
    }
    var found := Find(before + rest, LAST_CHUNK, |before|);
    hide Find, At;
    assert found.Some? ==> At(rest, LAST_CHUNK, found.value - |before|);
    assert forall j: nat :: (found.None? || |before| + j < found.value) ==> !At(rest, LAST_CHUNK, j);
  }

  lemma {:induction false} NextStarts(before: bytes, rest: bytes, isRequest: bool, i: nat)
    ensures EndByNext(before + rest, isRequest, |before|) == Until(|before| + i) <==> NextStartsAt(rest, isRequest, i)
    ensures EndByNext(before + rest, isRequest, |before|) == UntilClose <==>
            forall j: nat :: !Stands(rest, Starts(isRequest), j)
  {
    var texts := Starts(isRequest);
    forall j: nat ensures Stands(before + rest, texts, |before| + j) <==> Stands(rest, texts, j) {
      StandsShift(before, rest, texts, j);
    }
    FindFirstIsLeast(before + rest, texts, |before|);
    var found := FindFirst(before + rest, texts, |before|);
    hide FindFirst, Stands;
    assert found.Some? ==> Stands(rest, texts, found.value - |before|);
    assert forall j: nat :: (found.None? || |before| + j < found.value) ==> !Stands(rest, texts, j);
  }

  /** The end that is found is the end of the body if and only if the message is framed. */
  lemma {:induction false} EndIsFoundIff(
    before: bytes, headers: Headers, body: bytes, after: bytes, isRequest: bool)
    ensures var r := EndOfBody(before + (body + after), isRequest, headers, |before|);
            r == Until(|before| + |body|) || (after == [] && r == UntilClose) <==>
            Framed(headers, body, after, isRequest)
  {
    hide ContentLength, IsChunked, At, Stands, EndByChunks, EndByNext, ChunksEndAt, NextStartsAt;
    ChunksEnd(before, body + after, |body| - 5);
    NextStarts(before, body + after, isRequest, |body|);
    ConcatNothing(body);
  }

  lemma {:induction false} TurnAtMessage(data: bytes, isRequest: bool, offset: nat, headerEnd: nat, firstLine: bytes,
      headers: Headers, done: seq<Message>)
    requires offset < |data| && Find(data, BLANK_LINE, offset) == Some(headerEnd)
    requires ParseHeaders(data[offset..headerEnd]) == (firstLine, headers)
    requires firstLine != [] && ValidStart(firstLine, isRequest)
    ensures Turn(data, isRequest, offset, done) ==
            match EndOfBody(data, isRequest, headers, headerEnd + 4)
            case UntilClose => Finished(done + [Message(firstLine, headers, SliceFrom(data, headerEnd + 4))])
            case Until(end) => Running(end, done + [Message(firstLine, headers, Slice(data, headerEnd + 4, end))])
  {
    hide Find, ParseHeaders, ValidStart, EndOfBody;
  }

  /** A message is split off whole. */
  predicate IsWhole(r: Loop, m: Sent, end: nat, after: bytes, done: seq<Message>) {
    r == Running(end, done + [Received(m)]) || (after == [] && r == Finished(done + [Received(m)]))
  }

  lemma {:induction false} BodySlice(data: bytes, block: bytes, body: bytes, after: bytes)
    requires data == block + (body + after)
    ensures Slice(data, |block|, |block| + |body|) == body
    ensures SliceFrom(data, |block|) == body + after
  {
  }

  lemma {:induction false} FirstLineIsThere(m: Sent)
    requires LinesOk(m.lines)
    ensures m.lines != [] && m.lines[0] != []
  {
  }

  /** A message is split off whole if and only if it is framed, whatever comes before and behind it. */
  lemma {:induction false} MessageIsWholeIff(
    before: bytes, m: Sent, after: bytes, isRequest: bool, done: seq<Message>)
    requires HeadOk(m, isRequest)
    ensures IsWhole(Turn(before + EncodeOne(m) + after, isRequest, |before|, done), m, |before + EncodeOne(m)|, after,
                    done) <==>
            Framed(HeadersOfSent(m), m.body, after, isRequest)
  {
    hide Find, ParseHeaders, ValidStart, HeadersOf, Strip, JoinLines, LinesOk, Turn, EndOfBody, Framed;
    FirstLineIsThere(m);
    var data, headerEnd := before + EncodeOne(m) + after, |before| + |JoinLines(m.lines)|;
    var headers, block := HeadersOf(m.lines[1..]), before + (JoinLines(m.lines) + BLANK_LINE);
    FindsHeaderEnd(before, m, after);
    HeaderBlockRoundTrip(m.lines);
    TurnAtMessage(data, isRequest, |before|, headerEnd, m.lines[0], headers, done);
    assert data == block + (m.body + after);
    EndIsFoundIff(block, headers, m.body, after, isRequest);
    BodySlice(data, block, m.body, after);
    ConcatNothing(m.body);
  }

  // ---------- many messages ----------

  /** Each message is framed, given those that follow it. */
  ghost predicate AllFramed(ms: seq<Sent>, isRequest: bool) {
    ms == [] ||
    (HeadOk(ms[0], isRequest) && Framed(HeadersOfSent(ms[0]), ms[0].body, Encode(ms[1..]), isRequest) &&
     AllFramed(ms[1..], isRequest))
  }

  lemma {:induction false} EncodeIsNothing(ms: seq<Sent>)
    requires Encode(ms) == []
    ensures ms == []
  {
  }

  lemma {:induction false} SplitsFramed(before: bytes, ms: seq<Sent>, isRequest: bool, done: seq<Message>, turns: nat)
    requires AllFramed(ms, isRequest) && turns > |ms|
    ensures Iterate(before + Encode(ms), isRequest, Running(|before|, done), turns) ==
            Finished(done + AllReceived(ms))
    decreases |ms|
  {
    hide Turn, HeadOk, Framed, EncodeOne, Received;
    if ms == [] {
      ConcatNothing(done);
      ConcatNothing(before);
      NothingLeft(before, isRequest, done);
    } else {
      var sent, rest := EncodeOne(ms[0]), Encode(ms[1..]);
      ConcatAssociative(before, sent, rest);
      MessageIsWholeIff(before, ms[0], rest, isRequest, done);
      if Turn(before + sent + rest, isRequest, |before|, done).Running? {
        SplitsFramed(before + sent, ms[1..], isRequest, done + [Received(ms[0])], turns - 1);
        ConcatAssociative(done, [Received(ms[0])], AllReceived(ms[1..]));
      } else {
        EncodeIsNothing(ms[1..]);
        assert AllReceived(ms) == [Received(ms[0])];
      }
    }
  }

  /** Messages of any framing come back one by one if each is framed, given those that follow it. */
  lemma {:induction false} FramedMessagesRoundTrip(ms: seq<Sent>, isRequest: bool, turns: nat)
    requires AllFramed(ms, isRequest) && turns > |ms|
    ensures Iterate(Encode(ms), isRequest, Running(0, []), turns) == Finished(AllReceived(ms))
  {
    hide Iterate, Encode, AllReceived, AllFramed;
    SplitsFramed([], ms, isRequest, [], turns);
    ConcatNothing(Encode(ms));
    ConcatNothing(AllReceived(ms));
  }

  /** No length, no chunks, no body, and a start line that is looked for. */
  ghost predicate IsPlain(m: Sent, isRequest: bool) {
    && HeadOk(m, isRequest) && m.body == []
    && ContentLength(HeadersOfSent(m)).None? && !IsChunked(HeadersOfSent(m))
    && exists t :: 0 <= t < |Starts(isRequest)| && Text(Starts(isRequest)[t]) <= m.lines[0]
  }

  lemma {:induction false} StartStands(m: Sent, rest: bytes, isRequest: bool)
    requires IsPlain(m, isRequest)
    ensures Stands(EncodeOne(m) + rest, Starts(isRequest), 0)
  {
    hide ContentLength, IsChunked, ValidStart, Text, Strip;
    FirstLineIsThere(m);
    JoinStartsWithLine(m.lines);
    var t :| 0 <= t < |Starts(isRequest)| && Text(Starts(isRequest)[t]) <= m.lines[0];
    var text, data := Text(Starts(isRequest)[t]), EncodeOne(m) + rest;
    assert m.lines[0] <= JoinLines(m.lines) && data[..|m.lines[0]|] == m.lines[0];
    assert data[0..|text|] == m.lines[0][..|text|];
  }

  lemma {:induction false} NothingStands(texts: seq<string>)
    requires forall t :: 0 <= t < |texts| ==> texts[t] != []
    ensures forall j: nat :: !Stands([], texts, j)
  {
  }

  /** Requests or responses without bodies that say nothing of a length come back one by one. */
  lemma {:induction false} PlainMessagesAreFramed(ms: seq<Sent>, isRequest: bool)
    requires forall i :: 0 <= i < |ms| ==> IsPlain(ms[i], isRequest)
    ensures AllFramed(ms, isRequest)
  {
    if ms != [] {
      PlainMessagesAreFramed(ms[1..], isRequest);
      assert IsPlain(ms[0], isRequest);
      var after := Encode(ms[1..]);
      assert [] + after == after;
      if |ms| > 1 {
        assert IsPlain(ms[1], isRequest);
        StartStands(ms[1], Encode(ms[1..][1..]), isRequest);
        assert NextStartsAt(after, isRequest, 0);
      } else {
        NothingStands(Starts(isRequest));
      }
    }
  }

  // ---------- a request that is swallowed ----------

  const GET := Sent([Text("GET /")], [])
  const TRACE: bytes := Text("TRACE /") + BLANK_LINE

  lemma {:induction false} Differs(data: bytes, text: bytes, j: nat, k: nat)
    requires k < |text| && (j + |text| <= |data| ==> data[j + k] != text[k])
    ensures !At(data, text, j)
  {
    if j + |text| <= |data| {
      assert data[j..j + |text|][k] == data[j + k];
    }
  }

  lemma {:induction false} NoNextInTrace()
    ensures forall j: nat :: !Stands(TRACE, NEXT_REQUESTS, j)
  {
    assert TRACE == [84, 82, 65, 67, 69, 32, 47, 13, 10, 13, 10];
    forall j: nat, t | 0 <= t < |NEXT_REQUESTS| ensures !At(TRACE, Text(NEXT_REQUESTS[t]), j) {
      var text := Text(NEXT_REQUESTS[t]);
      assert t == 0 || t == 1 || t == 2 || t == 3 || t == 4 || t == 5 || t == 6;
      Differs(TRACE, text, j, if j + |text| == 6 then 0 else |text| - 1);
    }
  }

  lemma {:induction false} GetIsOk()
    ensures HeadOk(GET, true) && HeadersOfSent(GET) == map[] && |GET.lines| == 1
  {
    var line := Text("GET /");
    assert line == [71, 69, 84, 32, 47];
    StripsNothing(line, IsTextSpace);
    assert Text(REQUEST_STARTS[0]) == line[..4];
    assert GET.lines[1..] == [];
    hide Text;
  }

  /** A TRACE or PATCH is no start line that is looked for: behind a request without a length it becomes its body. */
  lemma {:induction false} TraceIsSwallowed(done: seq<Message>)
    ensures Turn(EncodeOne(GET) + TRACE, true, 0, done) == Finished(done + [Message(GET.lines[0], map[], TRACE)])
  {
    GetIsOk();
    NoNextInTrace();
    FirstLineIsThere(GET);
    var block, headers := JoinLines(GET.lines), HeadersOf(GET.lines[1..]);
    assert ContentLength(headers) == None && !IsChunked(headers);
    hide GET, TRACE, Find, ParseHeaders, ValidStart, HeadersOf, ContentLength, IsChunked, Strip, JoinLines, LinesOk,
      Turn, EndByNext, Stands;
    var data := [] + EncodeOne(GET) + TRACE;
    assert data == EncodeOne(GET) + TRACE;
    FindsHeaderEnd([], GET, TRACE);
    HeaderBlockRoundTrip(GET.lines);
    TurnAtMessage(data, true, 0, |block|, GET.lines[0], headers, done);
    NextStarts(block + BLANK_LINE, TRACE, true, 0);
    assert data == (block + BLANK_LINE) + TRACE;
    BodySlice(data, block + BLANK_LINE, TRACE, []);
  }
}
