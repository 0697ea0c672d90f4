/**
  * File transfers from the bytes on the wire: a file read piece by piece, each piece asked for and answered, and a file
  * written piece by piece, yield the file.
  */
module BacnetExchanges {
  import opened Basics
  import opened Models
  import opened BacnetTags
  import opened BacnetFiles
  import opened BacnetTransfers
  import opened BacnetCaptures
  import opened BacnetMessages

  /** One piece of a file, and what its messages carry with it. */
  datatype Piece = Piece(invokeId: byte, seg: Segmentation, endOfFile: bool, start: int, width: nat, data: bytes) {
    predicate Valid() {
      Fits(start, width) && width < 0x1_0000 && 0 < |data| < 0x1_0000
    }

    function Body(): bytes
      requires Valid()
    {
      BuildFileBody(endOfFile, start, width, data)
    }

    function Delivery(p: Packet): BacnetCaptures.Delivery {
      BacnetCaptures.Delivery(FileBody(endOfFile, Some(start), [data]), p)
    }
  }

  predicate AllValid(pieces: seq<Piece>) {
    forall i :: 0 <= i < |pieces| ==> pieces[i].Valid()
  }

  /** A request for the file and the ack with the piece, or a write of the piece. */
  function Messages(direction: Direction, piece: Piece, oid: ObjectId, p: Packet, q: Packet): seq<Event>
    requires piece.Valid()
  {
    if direction == Reading then
      [Event(BuildConfirmedRequest(6, BuildObjectId(oid), piece.invokeId, None), q),
       Event(BuildComplexAck(6, piece.Body(), piece.invokeId, piece.seg), p)]
    else [Event(BuildConfirmedRequest(7, BuildObjectId(oid) + piece.Body(), piece.invokeId, piece.seg), p)]
  }

  /** The pieces one after the other; `p` is a packet that carries file data, `q` one that asks for it. */
  function Transfer(direction: Direction, pieces: seq<Piece>, oid: ObjectId, p: Packet, q: Packet): seq<Event>
    requires AllValid(pieces)
  {
    if pieces == [] then []
    else
      Transfer(direction, pieces[..|pieces| - 1], oid, p, q) +
      Messages(direction, pieces[|pieces| - 1], oid, p, q)
  }

  function Delivered(pieces: seq<Piece>, p: Packet): seq<Delivery> {
    seq(|pieces|, i requires 0 <= i < |pieces| => pieces[i].Delivery(p))
  }

  // ---------- one piece ----------

  lemma {:induction false} OneMore(events: seq<Event>, e: Event, key: BufferKey)
    ensures Unanswered(events + [e]) == AskOrAnswer(Unanswered(events), e.apdu, e.packet)
    ensures var target := Target(OutstandingIn(events), e.apdu, e.packet);
            Deliveries(events + [e], key) == Deliveries(events, key) +
              if target.Some? && target.value.0 == key then [Delivery(target.value.1, e.packet)] else []
    ensures FewUnanswered(events) &&
            (ReadRequest(e.apdu, e.packet).Some? ==> |Unanswered(events)| < MAX_PENDING_FILE_READS) ==>
              FewUnanswered(events + [e])
  {
    hide ReadRequest, ReadAck, WriteRequest, Target, AskOrAnswer;
    assert (events + [e])[..|events|] == events;
    forall i | 0 <= i < |events| ensures (events + [e])[..i] == events[..i] {}
    ConcatNothing(Deliveries(events, key));
  }

  lemma {:induction false} OutstandingAfterRequest(events: seq<Event>, e: Event, key: ReadKey, oid: ObjectId)
    requires ReadRequest(e.apdu, e.packet) == Some((key, oid))
    ensures Outstanding(events + [e], key) == Some(oid)
  {
    hide ReadRequest, ReadAck;
    assert (events + [e])[..|events|] == events;
  }

  lemma {:induction false} OnePair(
    events: seq<Event>, request: Event, ack: Event, asked: ReadKey, oid: ObjectId, body: FileBody)
    requires ReadRequest(request.apdu, request.packet) == Some((asked, oid))
    requires ReadAck(request.apdu, request.packet) == None && WriteRequest(request.apdu, request.packet) == None
    requires ReadAck(ack.apdu, ack.packet) == Some((asked, body))
    requires ReadRequest(ack.apdu, ack.packet) == None && WriteRequest(ack.apdu, ack.packet) == None
    requires FewUnanswered(events) && Unanswered(events) == {}
    ensures var key, all := BufferKey(Reading, ack.packet.srcIp, ack.packet.dstIp, oid), events + [request] + [ack];
            && FewUnanswered(all) && Unanswered(all) == {}
            && Deliveries(all, key) == Deliveries(events, key) + [Delivery(body, ack.packet)]
  {
    hide ReadRequest, ReadAck, WriteRequest, Unanswered, Outstanding, Deliveries, FewUnanswered;
    var key := BufferKey(Reading, ack.packet.srcIp, ack.packet.dstIp, oid);
    OneMore(events, request, key);
    OneMore(events + [request], ack, key);
    OutstandingAfterRequest(events, request, asked, oid);
    ConcatNothing(Deliveries(events, key));
  }

  /** Reading a piece adds it to what is delivered of the file, and leaves no request open that was not before. */
  lemma {:induction false} OneRead(events: seq<Event>, piece: Piece, oid: ObjectId, p: Packet, q: Packet)
    requires piece.Valid() && IsObjectId(oid) && p.srcIp == q.dstIp && p.dstIp == q.srcIp
    requires FewUnanswered(events) && Unanswered(events) == {}
    ensures var key, all := BufferKey(Reading, p.srcIp, p.dstIp, oid), events + Messages(Reading, piece, oid, p, q);
            && FewUnanswered(all) && Unanswered(all) == {}
            && Deliveries(all, key) == Deliveries(events, key) + [piece.Delivery(p)]
  {
    hide ReadRequest, ReadAck, WriteRequest, Unanswered, Outstanding, Deliveries, FewUnanswered, IsObjectId, Fits,
      BuildConfirmedRequest, BuildComplexAck, BuildObjectId, BuildFileBody;
    var pair := Messages(Reading, piece, oid, p, q);
    ReadRequestRoundTrip(piece.invokeId, None, oid, q);
    ReadAckRoundTrip(piece.invokeId, piece.seg, piece.endOfFile, piece.start, piece.width, piece.data, p);
    OnePair(events, pair[0], pair[1], ReadKey(q.srcIp, q.dstIp, piece.invokeId), oid, piece.Delivery(p).body);
    assert events + pair == events + [pair[0]] + [pair[1]];
  }

  lemma {:induction false} OneWrite(events: seq<Event>, piece: Piece, oid: ObjectId, p: Packet, q: Packet)
    requires piece.Valid() && IsObjectId(oid)
    requires FewUnanswered(events) && Unanswered(events) == {}
    ensures var key, all := BufferKey(Writing, p.srcIp, p.dstIp, oid), events + Messages(Writing, piece, oid, p, q);
            && FewUnanswered(all) && Unanswered(all) == {}
            && Deliveries(all, key) == Deliveries(events, key) + [piece.Delivery(p)]
  {
    var key, write := BufferKey(Writing, p.srcIp, p.dstIp, oid), Messages(Writing, piece, oid, p, q)[0];
    WriteRequestRoundTrip(piece.invokeId, piece.seg, oid, piece.endOfFile, piece.start, piece.width, piece.data, p);
    assert write.packet == p && Messages(Writing, piece, oid, p, q) == [write];
    hide Messages, ReadRequest, ReadAck, WriteRequest, Unanswered, Outstanding, Deliveries, FewUnanswered;
    OneMore(events, write, key);
  }

  // ---------- a whole transfer ----------

  predicate Between(direction: Direction, p: Packet, q: Packet) {
    direction == Reading ==> p.srcIp == q.dstIp && p.dstIp == q.srcIp
  }

  lemma {:induction false} NothingYet(key: BufferKey)
    ensures Unanswered([]) == {} && Deliveries([], key) == []
  {
  }

  lemma {:induction false} TransferDelivers(
    direction: Direction, pieces: seq<Piece>, oid: ObjectId, p: Packet, q: Packet)
    requires AllValid(pieces) && IsObjectId(oid) && Between(direction, p, q)
    ensures var events := Transfer(direction, pieces, oid, p, q);
            && FewUnanswered(events) && Unanswered(events) == {}
            && Deliveries(events, BufferKey(direction, p.srcIp, p.dstIp, oid)) == Delivered(pieces, p)
  {
    hide Messages, Unanswered, Deliveries;
    if pieces == [] {
      NothingYet(BufferKey(direction, p.srcIp, p.dstIp, oid));
    } else {
      var front, piece := pieces[..|pieces| - 1], pieces[|pieces| - 1];
      TransferDelivers(direction, front, oid, p, q);
      if direction == Reading {
        OneRead(Transfer(direction, front, oid, p, q), piece, oid, p, q);
      } else {
        OneWrite(Transfer(direction, front, oid, p, q), piece, oid, p, q);
      }
      assert Delivered(pieces, p) == Delivered(front, p) + [piece.Delivery(p)];
    }
  }

  ghost predicate SomeHolds(pieces: seq<Piece>, k: int) {
    exists i :: 0 <= i < |pieces| && pieces[i].start <= k < pieces[i].start + |pieces[i].data|
  }

  /** The pieces are parts of `F` in any order that leave no byte out, and the last one says end of file. */
  ghost predicate PiecesOf(pieces: seq<Piece>, F: bytes) {
    && pieces != [] && F != []
    && (forall i :: 0 <= i < |pieces| ==>
          && 0 <= pieces[i].start && pieces[i].start + |pieces[i].data| <= |F|
          && pieces[i].data == F[pieces[i].start..pieces[i].start + |pieces[i].data|]
          && (pieces[i].endOfFile <==> i == |pieces| - 1))
    && forall k :: 0 <= k < |F| ==> SomeHolds(pieces, k)
  }

  lemma {:induction false} OneChunk(data: bytes)
    ensures Concat([data]) == data
  {
    assert [data][1..] == [];
    ConcatNothing(data);
  }

  lemma {:induction false} PiecesTransfer(pieces: seq<Piece>, F: bytes, p: Packet)
    requires AllValid(pieces) && PiecesOf(pieces, F)
    ensures FileTransfer(Delivered(pieces, p), F)
  {
    hide Concat, Piece.Body;
    var ds := Delivered(pieces, p);
    forall i | 0 <= i < |ds| ensures Carries(ds[i], F) && (ds[i].body.endOfFile <==> i == |ds| - 1) {
      OneChunk(pieces[i].data);
    }
    forall k | 0 <= k < |F| ensures Supplied(ds, k) {
      assert SomeHolds(pieces, k);
      var i :| 0 <= i < |pieces| && pieces[i].start <= k < pieces[i].start + |pieces[i].data|;
      OneChunk(pieces[i].data);
      assert Supplies(ds[i], k);
    }
  }

  /** A file read or written in any number of pieces, from the bytes on the wire, yields exactly the file. */
  lemma {:induction false} TransferYieldsFile(
    direction: Direction, pieces: seq<Piece>, F: bytes, oid: ObjectId, p: Packet, q: Packet, cap: nat)
    requires AllValid(pieces) && IsObjectId(oid) && Between(direction, p, q)
    requires PiecesOf(pieces, F) && |F| <= cap
    ensures var key := BufferKey(direction, p.srcIp, p.dstIp, oid);
            var out := Emitted(Transfer(direction, pieces, oid, p, q), key, cap);
            |out| == 1 && out[0].data == F && out[0].fileOid == oid && !out[0].truncated
  {
    TransferDelivers(direction, pieces, oid, p, q);
    PiecesTransfer(pieces, F, p);
    hide Transfer, Deliveries, Emitted, FewUnanswered, FileTransfer;
    FileIsDelivered(Transfer(direction, pieces, oid, p, q), BufferKey(direction, p.srcIp, p.dstIp, oid), F, cap);
  }

  /** Two pieces, the second one at the position where the first one ends, as two bytes. */
  lemma {:induction false} TwoPiecesYieldFile(
    direction: Direction, A: bytes, B: bytes, invokeId: byte, invokeId': byte, oid: ObjectId, p: Packet, q: Packet,
    cap: nat)
    requires 0 < |A| < 0x8000 && 0 < |B| < 0x1_0000 && |A| + |B| <= cap && IsObjectId(oid) && Between(direction, p, q)
    ensures var pieces := [Piece(invokeId, None, false, 0, 1, A), Piece(invokeId', None, true, |A|, 2, B)];
            && AllValid(pieces)
            && var out := Emitted(Transfer(direction, pieces, oid, p, q),
                                  BufferKey(direction, p.srcIp, p.dstIp, oid), cap);
               |out| == 1 && out[0].data == A + B
  {
    PowersOf256();
    assert Power256(1) == 256;
    var pieces := [Piece(invokeId, None, false, 0, 1, A), Piece(invokeId', None, true, |A|, 2, B)];
    var F := A + B;
    assert F[0..|A|] == A && F[|A|..|A| + |B|] == B;
    forall k | 0 <= k < |F| ensures SomeHolds(pieces, k) {
      assert k < |A| ==> pieces[0].start <= k < pieces[0].start + |pieces[0].data|;
      assert k >= |A| ==> pieces[1].start <= k < pieces[1].start + |pieces[1].data|;
    }
    TransferYieldsFile(direction, pieces, F, oid, p, q, cap);
  }
}
