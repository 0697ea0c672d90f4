/** The messages of the repository's test captures are read back as what they were built from. */
module BacnetMessages {
  import opened Basics
  import opened Models
  import opened BacnetTags
  import opened BacnetFiles
  import opened BacnetTransfers
  import opened BacnetCaptures

  // ---------- the messages ----------

  /** End-of-file flag, start position in so many bytes, file data. */
  function BuildFileBody(endOfFile: bool, start: int, width: nat, data: bytes): bytes
    requires width < 0x1_0000 && |data| < 0x1_0000
  {
    [if endOfFile then 0x11 else 0x10] + BuildAppTag(3, TwosComplement(start, width)) + BuildAppTag(6, data)
  }

  function BuildObjectId(oid: ObjectId): bytes {
    BuildAppTag(12, ToBigEndian(oid.objectType % 0x400 * 0x40_0000 + oid.instance % 0x40_0000, 4))
  }

  /** Sequence number and window size, if the message is segmented. */
  type Segmentation = Option<(byte, byte)>

  function SegmentBytes(seg: Segmentation): bytes {
    if seg.Some? then [seg.value.0, seg.value.1] else []
  }

  function BuildConfirmedRequest(service: byte, body: bytes, invokeId: byte, seg: Segmentation): bytes {
    [if seg.Some? then 0x08 else 0x00, 0x05, invokeId] + SegmentBytes(seg) + [service] + body
  }

  function BuildComplexAck(service: byte, body: bytes, invokeId: byte, seg: Segmentation): bytes {
    [if seg.Some? then 0x38 else 0x30, invokeId] + SegmentBytes(seg) + [service] + body
  }

  // ---------- start positions ----------

  /** `n` fits into `width` bytes with a sign. */
  predicate Fits(n: int, width: nat) {
    var p: int := Power256(width);
    width >= 1 && -p <= 2 * n < p
  }

  lemma {:induction false} TopDigit(first: byte, p: nat, rest: nat)
    requires rest < p
    ensures first < 128 <==> 2 * (first * p + rest) < 256 * p
  {
    if first < 128 {
      assert (127 - first) * p >= 0;
    } else {
      assert (first - 128) * p >= 0;
    }
  }

  lemma {:induction false} TopBitIff(data: bytes)
    requires data != []
    ensures data[0] < 128 <==> 2 * BigEndian(data) < Power256(|data|)
  {
    var first, p, rest := data[0], Power256(|data| - 1), BigEndian(data[1..]);
    assert data == [first] + data[1..];
    BigEndianConcat([first], data[1..]);
    ToFromBigEndian(data[1..]);
    TopDigit(first, p, rest);
    hide BigEndian;
  }

  lemma {:induction false} ResidueOf(n: int, p: int)
    requires p > 0 && -p <= n < p
    ensures n % p == if n >= 0 then n else n + p
  {
  }

  /** A number written as any number of bytes that can hold it is read as that number. */
  lemma {:induction false} SignedRoundTrip(n: int, width: nat)
    requires Fits(n, width)
    ensures Signed(TwosComplement(n, width)) == n
  {
    PowerPositive(width);
    hide BigEndian, ToBigEndian, Power256;
    ResidueOf(n, Power256(width));
    FromToBigEndian(n % Power256(width), width);
    TopBitIff(TwosComplement(n, width));
  }

  // ---------- the body of a file message ----------

  function BooleanTag(b: bool): Tag {
    Tag(1, false, if b then 1 else 0, [])
  }

  const PLAIN := Form(false, Inline)

  function BodyTags(endOfFile: bool, start: bytes, data: bytes): seq<Tag> {
    [BooleanTag(endOfFile), AppTag(3, start), AppTag(6, data)]
  }

  lemma {:induction false} BooleanEncodes(b: bool)
    ensures Encodable(BooleanTag(b), PLAIN)
    ensures Encode(BooleanTag(b), PLAIN) == [if b then 0x11 else 0x10]
  {
  }

  lemma {:induction false} EncodeThree(a: Tag, b: Tag, c: Tag, f: Form, g: Form, h: Form)
    requires Encodable(a, f) && Encodable(b, g) && Encodable(c, h)
    ensures AllEncodable([a, b, c], [f, g, h])
    ensures EncodeAll([a, b, c], [f, g, h]) == Encode(a, f) + Encode(b, g) + Encode(c, h)
  {
    hide Encode, Encodable;
    assert EncodeAll([c], [h]) == Encode(c, h) + [];
    assert [b, c][1..] == [c] && [g, h][1..] == [h];
    assert [a, b, c][1..] == [b, c] && [f, g, h][1..] == [g, h];
  }

  function BodyForms(start: bytes, data: bytes): seq<Form> {
    [PLAIN, AppForm(start), AppForm(data)]
  }

  lemma {:induction false} BodyEncodes(endOfFile: bool, start: int, width: nat, data: bytes)
    requires width < 0x1_0000 && |data| < 0x1_0000
    ensures var s := TwosComplement(start, width);
            && AllEncodable(BodyTags(endOfFile, s, data), BodyForms(s, data))
            && EncodeAll(BodyTags(endOfFile, s, data), BodyForms(s, data)) ==
               BuildFileBody(endOfFile, start, width, data)
  {
    var s := TwosComplement(start, width);
    BooleanEncodes(endOfFile);
    BuildAppTagEncodes(3, s);
    BuildAppTagEncodes(6, data);
    hide Encode, Encodable, EncodeAll, BuildAppTag, TwosComplement;
    EncodeThree(BooleanTag(endOfFile), AppTag(3, s), AppTag(6, data), PLAIN, AppForm(s), AppForm(data));
  }

  lemma {:induction false} FoldThree(body: FileBody, ts: seq<Tag>, a: Tag, b: Tag, c: Tag)
    requires BodyOf(ts) == body
    ensures BodyOf(ts + [a, b, c]) == AddTag(AddTag(AddTag(body, a), b), c)
  {
    hide AddTag;
    assert (ts + [a])[..|ts|] == ts && (ts + [a, b])[..|ts| + 1] == ts + [a];
    assert (ts + [a, b, c])[..|ts| + 2] == ts + [a, b];
    assert BodyOf(ts + [a]) == AddTag(body, a);
    assert BodyOf(ts + [a, b]) == AddTag(BodyOf(ts + [a]), b);
  }

  /** What three such tags add to a body that says nothing. */
  lemma {:induction false} TagsAreBody(ts: seq<Tag>, endOfFile: bool, start: int, width: nat, data: bytes)
    requires BodyOf(ts) == FileBody(false, None, []) && Fits(start, width) && data != []
    ensures BodyOf(ts + BodyTags(endOfFile, TwosComplement(start, width), data)) ==
            FileBody(endOfFile, Some(start), [data])
  {
    var s := TwosComplement(start, width);
    SignedRoundTrip(start, width);
    hide Signed, BodyOf, TwosComplement;
    FoldThree(FileBody(false, None, []), ts, BooleanTag(endOfFile), AppTag(3, s), AppTag(6, data));
    assert [] + [data] == [data];
  }

  lemma {:induction false} FileBodyRoundTrip(endOfFile: bool, start: int, width: nat, data: bytes)
    requires Fits(start, width) && width < 0x1_0000 && 0 < |data| < 0x1_0000
    ensures BodyOf(TagsOf(BuildFileBody(endOfFile, start, width, data))) == FileBody(endOfFile, Some(start), [data])
  {
    var s := TwosComplement(start, width);
    var ts, fs := BodyTags(endOfFile, s, data), BodyForms(s, data);
    BodyEncodes(endOfFile, start, width, data);
    TagsRoundTrip([], ts, fs, MAX_TAGS_PER_APDU);
    TagsAreBody([], endOfFile, start, width, data);
    hide EncodeAll, TagsFrom, BuildFileBody, TwosComplement, AllEncodable, BodyOf;
    assert [] + EncodeAll(ts, fs) == EncodeAll(ts, fs) && ts[..Min(3, MAX_TAGS_PER_APDU)] == ts && [] + ts == ts;
  }

  // ---------- headers ----------

  lemma {:induction false} AckBodyIsBody(service: byte, body: bytes, invokeId: byte, seg: Segmentation)
    ensures var apdu := BuildComplexAck(service, body, invokeId, seg);
            && AckBody(apdu, service) == Some(body) && apdu[1] == invokeId
            && (forall other: byte :: RequestBody(apdu, other) == None)
            && (forall other: byte :: other != service ==> AckBody(apdu, other) == None)
  {
    var apdu, o := BuildComplexAck(service, body, invokeId, seg), if seg.Some? then 4 else 2;
    assert apdu[o] == service && apdu[o + 1..] == body;
    assert apdu[0] / 16 == 3 && (apdu[0] / 8 % 2 == 1 <==> seg.Some?);
  }

  lemma {:induction false} RequestBodyIsBody(service: byte, body: bytes, invokeId: byte, seg: Segmentation)
    ensures var apdu := BuildConfirmedRequest(service, body, invokeId, seg);
            && RequestBody(apdu, service) == Some(body) && apdu[2] == invokeId
            && (forall other: byte :: AckBody(apdu, other) == None)
            && (forall other: byte :: other != service ==> RequestBody(apdu, other) == None)
  {
    var apdu, o := BuildConfirmedRequest(service, body, invokeId, seg), if seg.Some? then 5 else 3;
    assert apdu[o] == service && apdu[o + 1..] == body;
    assert apdu[0] / 16 == 0 && (apdu[0] / 8 % 2 == 1 <==> seg.Some?);
  }

  /** An ack as a device sends it: the request it answers, and the piece of the file it carries. */
  lemma {:induction false} ReadAckRoundTrip(
    invokeId: byte, seg: Segmentation, endOfFile: bool, start: int, width: nat, data: bytes, p: Packet)
    requires Fits(start, width) && width < 0x1_0000 && 0 < |data| < 0x1_0000
    ensures var apdu := BuildComplexAck(6, BuildFileBody(endOfFile, start, width, data), invokeId, seg);
            && ReadAck(apdu, p) ==
               Some((ReadKey(p.dstIp, p.srcIp, invokeId), FileBody(endOfFile, Some(start), [data])))
            && ReadRequest(apdu, p) == None && WriteRequest(apdu, p) == None
  {
    FileBodyRoundTrip(endOfFile, start, width, data);
    AckBodyIsBody(6, BuildFileBody(endOfFile, start, width, data), invokeId, seg);
    hide BuildFileBody, BuildComplexAck, BodyOf, TagsOf, AckBody, RequestBody;
  }

  lemma {:induction false} ObjectIdRoundTrip(oid: ObjectId)
    requires oid.objectType < 0x400 && oid.instance < 0x40_0000
    ensures DecodeObjectId(ToBigEndian(oid.objectType * 0x40_0000 + oid.instance, 4)) == Some(oid)
  {
    var n := oid.objectType * 0x40_0000 + oid.instance;
    PowersOf256();
    FromToBigEndian(n, 4);
    hide BigEndian, ToBigEndian;
    assert n / 0x40_0000 == oid.objectType && n % 0x40_0000 == oid.instance;
  }

  function ObjectIdTag(oid: ObjectId): Tag {
    AppTag(12, ToBigEndian(oid.objectType * 0x40_0000 + oid.instance, 4))
  }

  predicate IsObjectId(oid: ObjectId) {
    oid.objectType < 0x400 && oid.instance < 0x40_0000
  }

  lemma {:induction false} ObjectIdEncodes(oid: ObjectId)
    requires IsObjectId(oid)
    ensures Encodable(ObjectIdTag(oid), PLAIN) && BuildObjectId(oid) == Encode(ObjectIdTag(oid), PLAIN)
  {
    hide Encode, Encodable, BuildAppTag, ToBigEndian;
    assert oid.objectType % 0x400 == oid.objectType && oid.instance % 0x40_0000 == oid.instance;
    BuildAppTagEncodes(12, ToBigEndian(oid.objectType * 0x40_0000 + oid.instance, 4));
  }

  lemma {:induction false} ObjectIdIsFirst(oid: ObjectId, ts: seq<Tag>)
    requires IsObjectId(oid)
    ensures FirstObjectId([ObjectIdTag(oid)] + ts) == Some(oid)
  {
    hide ToBigEndian, DecodeObjectId;
    ObjectIdRoundTrip(oid);
  }

  /** The object identifier in front of any tags is read, and they are read behind it. */
  lemma {:induction false} ObjectIdThenTags(oid: ObjectId, ts: seq<Tag>, fs: seq<Form>)
    requires IsObjectId(oid) && AllEncodable(ts, fs) && |ts| < MAX_TAGS_PER_APDU
    ensures TagsOf(BuildObjectId(oid) + EncodeAll(ts, fs)) == [ObjectIdTag(oid)] + ts
    ensures FirstObjectId([ObjectIdTag(oid)] + ts) == Some(oid)
  {
    hide Encode, Encodable, TagsFrom, BuildObjectId, ObjectIdTag, FirstObjectId;
    ObjectIdEncodes(oid);
    ObjectIdIsFirst(oid, ts);
    var t, f := ObjectIdTag(oid), PLAIN;
    assert ([t] + ts)[1..] == ts && ([f] + fs)[1..] == fs;
    assert [] + EncodeAll([t] + ts, [f] + fs) == Encode(t, f) + EncodeAll(ts, fs);
    TagsRoundTrip([], [t] + ts, [f] + fs, MAX_TAGS_PER_APDU);
    assert ([t] + ts)[..Min(|ts| + 1, MAX_TAGS_PER_APDU)] == [t] + ts;
  }

  /** A request as a client sends it: what it asks for is what will be looked up when its ack arrives. */
  lemma {:induction false} ReadRequestRoundTrip(invokeId: byte, seg: Segmentation, oid: ObjectId, p: Packet)
    requires IsObjectId(oid)
    ensures var apdu := BuildConfirmedRequest(6, BuildObjectId(oid), invokeId, seg);
            && ReadRequest(apdu, p) == Some((ReadKey(p.srcIp, p.dstIp, invokeId), oid))
            && ReadAck(apdu, p) == None && WriteRequest(apdu, p) == None
  {
    ObjectIdThenTags(oid, [], []);
    RequestBodyIsBody(6, BuildObjectId(oid), invokeId, seg);
    ConcatNothing(BuildObjectId(oid));
    hide TagsOf, FirstObjectId, BuildObjectId, RequestBody, AckBody, BuildConfirmedRequest;
  }

  /** A write as a client sends it: the file it goes to, and the piece that it carries. */
  lemma {:induction false} WriteRequestRoundTrip(
    invokeId: byte, seg: Segmentation, oid: ObjectId, endOfFile: bool, start: int, width: nat, data: bytes, p: Packet)
    requires IsObjectId(oid) && Fits(start, width) && width < 0x1_0000 && 0 < |data| < 0x1_0000
    ensures var body := BuildObjectId(oid) + BuildFileBody(endOfFile, start, width, data);
            var apdu := BuildConfirmedRequest(7, body, invokeId, seg);
            && WriteRequest(apdu, p) ==
               Some((BufferKey(Writing, p.srcIp, p.dstIp, oid), FileBody(endOfFile, Some(start), [data])))
            && ReadRequest(apdu, p) == None && ReadAck(apdu, p) == None
  {
    var s := TwosComplement(start, width);
    var body := BuildObjectId(oid) + BuildFileBody(endOfFile, start, width, data);
    BodyEncodes(endOfFile, start, width, data);
    ObjectIdThenTags(oid, BodyTags(endOfFile, s, data), BodyForms(s, data));
    assert [ObjectIdTag(oid)][..0] == [] && BodyOf([ObjectIdTag(oid)]) == FileBody(false, None, []);
    TagsAreBody([ObjectIdTag(oid)], endOfFile, start, width, data);
    RequestBodyIsBody(7, body, invokeId, seg);
    hide TagsOf, FirstObjectId, BuildObjectId, BuildFileBody, RequestBody, AckBody, BuildConfirmedRequest, BodyOf,
      EncodeAll, TwosComplement, AllEncodable;
  }
}
