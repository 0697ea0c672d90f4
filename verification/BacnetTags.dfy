/**
  * The BACnet tag format (ANSI/ASHRAE 135 clause 20.2.1): the decoder as the program has it, an encoder for every
  * form the format allows, and the proof that each undoes the other.
  */
module BacnetTags {
  import opened Basics

  const TAG_BOOLEAN: byte := 1

  datatype Tag = Tag(number: byte, isContext: bool, lvt: nat, value: bytes)

  datatype Read = Read(tag: Tag, next: nat)

  function BigEndian(data: bytes): nat {
    if data == [] then 0 else BigEndian(data[..|data| - 1]) * 256 + data[|data| - 1]
  }

  /** `n` as `width` bytes, most significant first (`struct.pack`). */
  function ToBigEndian(n: nat, width: nat): (r: bytes)
    ensures |r| == width
  {
    if width == 0 then [] else ToBigEndian(n / 256, width - 1) + [n % 256]
  }

  // ---------- the decoder ----------

  /** Opening and closing tags, and application-tagged booleans, have no value bytes. */
  predicate IsMarker(number: byte, isContext: bool, lvt: nat) {
    (isContext && (lvt == 6 || lvt == 7)) || (!isContext && number == TAG_BOOLEAN)
  }

  /** The value of `length` bytes at `offset`, if they are there. */
  function ReadValue(data: bytes, offset: nat, number: byte, isContext: bool, lvt: nat, length: nat): Option<Read> {
    if offset + length > |data| then None
    else Some(Read(Tag(number, isContext, lvt, data[offset..offset + length]), offset + length))
  }

  /** The length field, and how many bytes it takes. */
  function ReadLength(data: bytes, offset: nat, lvt: nat): (r: Option<(nat, nat)>)
    ensures r.Some? ==> offset + r.value.1 <= |data| || r.value.1 == 0
    ensures lvt != 5 ==> r == Some((lvt, 0))
  {
    if lvt != 5 then Some((lvt, 0))
    else if offset >= |data| then None
    else if data[offset] == 254 then
      if offset + 3 > |data| then None else Some((BigEndian(data[offset + 1..offset + 3]), 3))
    else if data[offset] == 255 then
      if offset + 5 > |data| then None else Some((BigEndian(data[offset + 1..offset + 5]), 5))
    else Some((data[offset], 1))
  }

  /** Tag number, class and length/value/type bits, and how many bytes they take. */
  datatype Head = Head(number: byte, isContext: bool, lvt: nat, size: nat)

  function ReadHead(data: bytes, offset: nat): (r: Option<Head>)
    ensures r.Some? ==> 1 <= r.value.size && offset + r.value.size <= |data|
    ensures r.Some? ==> r.value.lvt < 8 && r.value.size <= 2 && (r.value.size == 1 ==> r.value.number < 15)
  {
    if offset >= |data| then None
    else
      var control := data[offset];
      var isContext, lvt := control / 8 % 2 == 1, control % 8;
      if control / 16 != 15 then Some(Head(control / 16, isContext, lvt, 1))
      else if offset + 1 >= |data| then None
      else Some(Head(data[offset + 1], isContext, lvt, 2))
  }

  /** A successful read moves on and stays inside the data. */
  function ReadTag(data: bytes, offset: nat): (r: Option<Read>)
    ensures r.Some? ==> offset < r.value.next <= |data|
  {
    match ReadHead(data, offset)
    case None => None
    case Some(Head(number, isContext, lvt, size)) =>
      var body := offset + size;
      if IsMarker(number, isContext, lvt) then Some(Read(Tag(number, isContext, lvt, []), body))
      else
        match ReadLength(data, body, lvt)
        case None => None
        case Some((length, width)) => ReadValue(data, body + width, number, isContext, lvt, length)
  }

  /** At most `limit` tags, up to the first one that cannot be read. */
  function TagsFrom(data: bytes, offset: nat, limit: nat): seq<Tag>
    decreases limit
  {
    if limit == 0 then []
    else
      match ReadTag(data, offset)
      case None => []
      case Some(read) => [read.tag] + TagsFrom(data, read.next, limit - 1)
  }

  const MAX_TAGS_PER_APDU: nat := 128

  method IterTags(data: bytes, limit: nat) returns (tags: seq<Tag>)
    ensures tags == TagsFrom(data, 0, limit)
  {
    hide ReadTag;
    tags := [];
    var offset: nat, seen: nat := 0, 0;
    while offset < |data| && seen < limit
      invariant seen <= limit
      invariant tags + TagsFrom(data, offset, limit - seen) == TagsFrom(data, 0, limit)
      decreases limit - seen
    {
      var tag := ReadTag(data, offset);
      if tag.None? {
        return;
      }
      tags := tags + [tag.value.tag];
      if tag.value.next <= offset {
        return;
      }
      offset := tag.value.next;
      seen := seen + 1;
    }
  }

  // ---------- the encoder ----------

  datatype LengthForm = Inline | OneByte | TwoBytes | FourBytes

  /** How a tag is written down: with the tag number in its own byte or not, and with which length field. */
  datatype Form = Form(extended: bool, length: LengthForm)

  predicate Encodable(t: Tag, f: Form) {
    && (f.extended || t.number < 15)
    && t.lvt < 8
    && if IsMarker(t.number, t.isContext, t.lvt) then t.value == [] && f.length == Inline
       else
         match f.length
         case Inline => t.lvt != 5 && |t.value| == t.lvt
         case OneByte => t.lvt == 5 && |t.value| < 254
         case TwoBytes => t.lvt == 5 && |t.value| < 0x1_0000
         case FourBytes => t.lvt == 5 && |t.value| < 0x1_0000_0000
  }

  function EncodeNumber(t: Tag, f: Form): bytes
    requires Encodable(t, f)
  {
    var low := (if t.isContext then 8 else 0) + t.lvt;
    if f.extended then [240 + low, t.number] else [t.number * 16 + low]
  }

  function EncodeLength(t: Tag, f: Form): bytes
    requires Encodable(t, f)
  {
    match f.length
    case Inline => []
    case OneByte => [|t.value|]
    case TwoBytes => [254] + ToBigEndian(|t.value|, 2)
    case FourBytes => [255] + ToBigEndian(|t.value|, 4)
  }

  function Encode(t: Tag, f: Form): (r: bytes)
    requires Encodable(t, f)
  {
    EncodeNumber(t, f) + EncodeLength(t, f) + t.value
  }

  // ---------- big-endian numbers ----------

  function Power256(width: nat): nat {
    if width == 0 then 1 else 256 * Power256(width - 1)
  }

  lemma {:induction false} FromToBigEndian(n: nat, width: nat)
    requires n < Power256(width)
    ensures BigEndian(ToBigEndian(n, width)) == n
  {
    if width > 0 {
      FromToBigEndian(n / 256, width - 1);
      var front := ToBigEndian(n / 256, width - 1);
      assert (front + [n % 256])[..width - 1] == front;
    }
  }

  lemma {:induction false} ToFromBigEndian(data: bytes)
    ensures ToBigEndian(BigEndian(data), |data|) == data && BigEndian(data) < Power256(|data|)
  {
    if data != [] {
      var front, last := data[..|data| - 1], data[|data| - 1];
      ToFromBigEndian(front);
      assert BigEndian(data) / 256 == BigEndian(front) && BigEndian(data) % 256 == last;
      assert data == front + [last];
    }
  }

  lemma {:induction false} PowersOf256()
    ensures Power256(2) == 0x1_0000 && Power256(4) == 0x1_0000_0000
  {
    assert Power256(1) == 256;
    assert Power256(3) == 256 * Power256(2);
  }

  lemma {:induction false} TimesTwice(n: nat, p: nat, f: nat, last: nat)
    ensures (n * p + f) * 256 + last == n * (256 * p) + (f * 256 + last)
  {
  }

  /** Place value: the bytes in front count by 256 to the power of the bytes behind them. */
  lemma {:induction false} BigEndianConcat(a: bytes, b: bytes)
    ensures BigEndian(a + b) == BigEndian(a) * Power256(|b|) + BigEndian(b)
    ensures |a| == 1 ==> BigEndian(a) == a[0]
  {
    if b == [] {
      assert a + b == a;
    } else {
      var front, last := b[..|b| - 1], b[|b| - 1];
      BigEndianConcat(a, front);
      assert (a + b)[..|a + b| - 1] == a + front && (a + b)[|a + b| - 1] == last;
      TimesTwice(BigEndian(a), Power256(|front|), BigEndian(front), last);
    }
  }

  lemma {:induction false} PowerPositive(width: nat)
    ensures Power256(width) > 0
  {
    if width > 0 {
      PowerPositive(width - 1);
    }
  }

  // ---------- two's complement ----------

  /** `n` as `width` bytes in two's complement (`int.to_bytes(width, "big", signed=True)`). */
  function TwosComplement(n: int, width: nat): (r: bytes)
    ensures |r| == width
  {
    PowerPositive(width);
    ToBigEndian(n % Power256(width), width)
  }

  // ---------- reading what was written ----------

  lemma {:induction false} ControlByte(high: nat, isContext: bool, lvt: nat)
    requires high < 16 && lvt < 8
    ensures var c := high * 16 + (if isContext then 8 else 0) + lvt;
            c / 16 == high && (c / 8 % 2 == 1 <==> isContext) && c % 8 == lvt
  {
  }

  lemma {:induction false} ReadsHead(data: bytes, o: nat, t: Tag, f: Form)
    requires Encodable(t, f)
    requires var n := EncodeNumber(t, f); o + |n| <= |data| && data[o..o + |n|] == n
    ensures ReadHead(data, o) == Some(Head(t.number, t.isContext, t.lvt, |EncodeNumber(t, f)|))
  {
    var n := EncodeNumber(t, f);
    assert data[o] == n[0];
    assert f.extended ==> data[o + 1] == n[1];
    ControlByte(if f.extended then 15 else t.number, t.isContext, t.lvt);
  }

  lemma {:induction false} ReadsLength(data: bytes, o: nat, t: Tag, f: Form)
    requires Encodable(t, f) && !IsMarker(t.number, t.isContext, t.lvt)
    requires var l := EncodeLength(t, f); o + |l| <= |data| && data[o..o + |l|] == l
    ensures ReadLength(data, o, t.lvt) == Some((|t.value|, |EncodeLength(t, f)|))
  {
    var l := EncodeLength(t, f);
    if f.length != Inline {
      assert data[o] == l[0];
      assert data[o + 1..o + |l|] == l[1..];
      PowersOf256();
      match f.length
      case TwoBytes => FromToBigEndian(|t.value|, 2);
      case FourBytes => FromToBigEndian(|t.value|, 4);
      case _ =>
    }
  }

  lemma {:induction false} MarkerHasNoLength(t: Tag, f: Form)
    requires Encodable(t, f) && IsMarker(t.number, t.isContext, t.lvt)
    ensures EncodeLength(t, f) == []
  {
  }

  lemma {:induction false} ReadsPieces(data: bytes, o: nat, t: Tag, f: Form)
    requires Encodable(t, f)
    requires var n, l := |EncodeNumber(t, f)|, |EncodeLength(t, f)|;
             && o + n + l + |t.value| <= |data|
             && data[o..o + n] == EncodeNumber(t, f) && data[o + n..o + n + l] == EncodeLength(t, f)
             && data[o + n + l..o + n + l + |t.value|] == t.value
    ensures ReadTag(data, o) == Some(Read(t, o + |EncodeNumber(t, f)| + |EncodeLength(t, f)| + |t.value|))
  {
    hide EncodeNumber, EncodeLength, ReadHead, ReadLength, BigEndian;
    ReadsHead(data, o, t, f);
    if IsMarker(t.number, t.isContext, t.lvt) {
      MarkerHasNoLength(t, f);
    } else {
      var n := |EncodeNumber(t, f)|;
      ReadsLength(data, o + n, t, f);
      assert ReadTag(data, o) ==
        ReadValue(data, o + n + |EncodeLength(t, f)|, t.number, t.isContext, t.lvt, |t.value|);
    }
  }

  /** Wherever it stands, every encoding of a tag is read back as that tag, ending where the encoding ends. */
  lemma {:induction false} ReadsEncoding(t: Tag, f: Form, before: bytes, after: bytes)
    requires Encodable(t, f)
    ensures ReadTag(before + Encode(t, f) + after, |before|) == Some(Read(t, |before| + |Encode(t, f)|))
  {
    hide EncodeNumber, EncodeLength, ReadTag;
    SlicesOfConcat(before, EncodeNumber(t, f), EncodeLength(t, f), t.value, after);
    ReadsPieces(before + Encode(t, f) + after, |before|, t, f);
  }

  // ---------- nothing else is read ----------

  function LengthFormOf(first: byte): LengthForm {
    if first == 254 then TwoBytes else if first == 255 then FourBytes else OneByte
  }

  /** The form in which the tag at `offset` is written. */
  function FormAt(data: bytes, offset: nat): Form
    requires ReadTag(data, offset).Some?
  {
    var t, head := ReadTag(data, offset).value.tag, ReadHead(data, offset).value;
    Form(head.size == 2,
         if IsMarker(t.number, t.isContext, t.lvt) || t.lvt != 5 then Inline
         else LengthFormOf(data[offset + head.size]))
  }

  lemma {:induction false} HeadIsEncoding(data: bytes, offset: nat, t: Tag, f: Form)
    requires Encodable(t, f) && ReadHead(data, offset).Some?
    requires var head := ReadHead(data, offset).value;
             head == Head(t.number, t.isContext, t.lvt, if f.extended then 2 else 1)
    ensures data[offset..offset + ReadHead(data, offset).value.size] == EncodeNumber(t, f)
  {
    var control := data[offset];
    assert control == control / 16 * 16 + (if t.isContext then 8 else 0) + t.lvt;
    assert data[offset..offset + 1] == [control];
    assert f.extended ==> data[offset..offset + 2] == [control, t.number];
  }

  lemma {:induction false} LengthIsEncoding(data: bytes, o: nat, length: nat, size: nat)
    requires ReadLength(data, o, 5) == Some((length, size))
    ensures data[o] < 254 ==> size == 1 && length < 254 && data[o] == length
    ensures data[o] == 254 ==> size == 3 && length < 0x1_0000 && data[o + 1..o + 3] == ToBigEndian(length, 2)
    ensures data[o] == 255 ==> size == 5 && length < 0x1_0000_0000 && data[o + 1..o + 5] == ToBigEndian(length, 4)
  {
    PowersOf256();
    if data[o] >= 254 {
      ToFromBigEndian(data[o + 1..o + size]);
    }
  }

  lemma {:induction false} LengthBytes(data: bytes, o: nat, t: Tag, f: Form, size: nat)
    requires Encodable(t, f) && !IsMarker(t.number, t.isContext, t.lvt)
    requires ReadLength(data, o, t.lvt) == Some((|t.value|, size)) && o + size <= |data|
    requires t.lvt == 5 ==> f.length == LengthFormOf(data[o])
    ensures data[o..o + size] == EncodeLength(t, f)
  {
    if t.lvt == 5 {
      LengthIsEncoding(data, o, |t.value|, size);
      assert data[o..o + size] == [data[o]] + data[o + 1..o + size];
    }
  }

  /** Takes a successful read apart; `o` is where the length field starts, `size` how long it is. */
  lemma {:induction false} ReadPieces(data: bytes, offset: nat) returns (o: nat, size: nat)
    requires ReadTag(data, offset).Some?
    ensures var Read(t, next) := ReadTag(data, offset).value;
            && offset < o <= o + size <= next <= |data|
            && ReadHead(data, offset) == Some(Head(t.number, t.isContext, t.lvt, o - offset))
            && t.lvt < 8
            && (if IsMarker(t.number, t.isContext, t.lvt) then next == o && t.value == []
                else ReadLength(data, o, t.lvt) == Some((|t.value|, size)) && t.value == data[o + size..next])
  {
    hide ReadHead, ReadLength;
    var head, t := ReadHead(data, offset).value, ReadTag(data, offset).value.tag;
    o, size := offset + head.size, 0;
    if !IsMarker(t.number, t.isContext, t.lvt) {
      size := ReadLength(data, o, t.lvt).value.1;
    }
  }

  lemma {:induction false} ReadIsEncodable(data: bytes, offset: nat, o: nat, size: nat)
    requires ReadTag(data, offset).Some?
    requires var t := ReadTag(data, offset).value.tag;
             && t.lvt < 8 && offset <= o
             && ReadHead(data, offset) == Some(Head(t.number, t.isContext, t.lvt, o - offset))
             && (if IsMarker(t.number, t.isContext, t.lvt) then t.value == []
                 else ReadLength(data, o, t.lvt) == Some((|t.value|, size)))
    ensures var t, f := ReadTag(data, offset).value.tag, FormAt(data, offset);
            && Encodable(t, f) && o == offset + (if f.extended then 2 else 1)
            && (!IsMarker(t.number, t.isContext, t.lvt) && t.lvt == 5 ==> f.length == LengthFormOf(data[o]))
  {
    var t := ReadTag(data, offset).value.tag;
    assert 1 <= ReadHead(data, offset).value.size <= 2;
    if !IsMarker(t.number, t.isContext, t.lvt) && t.lvt == 5 {
      LengthIsEncoding(data, o, |t.value|, size);
    }
    hide ReadTag, ReadHead, BigEndian;
  }

  /** Whatever is read successfully was an encoding of the tag that is returned. */
  lemma {:induction false} ReadIsEncoding(data: bytes, offset: nat)
    requires ReadTag(data, offset).Some?
    ensures var Read(t, next) := ReadTag(data, offset).value;
            var f := FormAt(data, offset);
            Encodable(t, f) && data[offset..next] == Encode(t, f)
  {
    var Read(t, next) := ReadTag(data, offset).value;
    var f := FormAt(data, offset);
    var o, size := ReadPieces(data, offset);
    ReadIsEncodable(data, offset, o, size);
    hide EncodeNumber, EncodeLength, ReadHead, ReadLength, BigEndian, FormAt, ReadTag;
    HeadIsEncoding(data, offset, t, f);
    if IsMarker(t.number, t.isContext, t.lvt) {
      MarkerHasNoLength(t, f);
      ConcatOfSlices(data, offset, o, o, o);
    } else {
      LengthBytes(data, o, t, f, size);
      ConcatOfSlices(data, offset, o, o + size, next);
    }
  }

  /** Reading succeeds with tag `t` exactly where some encoding of `t` stands. */
  lemma {:induction false} ReadTagIff(data: bytes, offset: nat, t: Tag, next: nat)
    requires offset <= next <= |data|
    ensures ReadTag(data, offset) == Some(Read(t, next)) <==>
            exists f :: Encodable(t, f) && data[offset..next] == Encode(t, f)
  {
    hide ReadTag, Encode, Encodable, FormAt;
    if ReadTag(data, offset) == Some(Read(t, next)) {
      ReadIsEncoding(data, offset);
    }
    if f :| Encodable(t, f) && data[offset..next] == Encode(t, f) {
      assert data == data[..offset] + Encode(t, f) + data[next..];
      ReadsEncoding(t, f, data[..offset], data[next..]);
    }
  }

  // ---------- streams of tags ----------

  predicate AllEncodable(ts: seq<Tag>, fs: seq<Form>) {
    |ts| == |fs| && forall i :: 0 <= i < |ts| ==> Encodable(ts[i], fs[i])
  }

  function EncodeAll(ts: seq<Tag>, fs: seq<Form>): bytes
    requires AllEncodable(ts, fs)
  {
    if ts == [] then [] else Encode(ts[0], fs[0]) + EncodeAll(ts[1..], fs[1..])
  }

  lemma {:induction false} NothingToRead(data: bytes)
    ensures ReadTag(data + [], |data|) == None
  {
  }

  /** The first `limit` tags of any encoded list come back, whatever was written before them. */
  lemma {:induction false} TagsRoundTrip(before: bytes, ts: seq<Tag>, fs: seq<Form>, limit: nat)
    requires AllEncodable(ts, fs)
    ensures TagsFrom(before + EncodeAll(ts, fs), |before|, limit) == ts[..Min(|ts|, limit)]
    decreases limit
  {
    hide ReadTag, Encode, Encodable;
    if ts == [] {
      NothingToRead(before);
    } else if limit > 0 {
      var rest := EncodeAll(ts[1..], fs[1..]);
      var read := before + Encode(ts[0], fs[0]);
      ReadsEncoding(ts[0], fs[0], before, rest);
      assert before + EncodeAll(ts, fs) == read + rest;
      TagsRoundTrip(read, ts[1..], fs[1..], limit - 1);
    }
  }

  /** The writer of the repository's test captures, for the tag numbers and lengths it is made for. */
  function BuildAppTag(number: byte, value: bytes): bytes
    requires number < 15 && |value| < 0x1_0000
  {
    if |value| < 5 then [number * 16 + |value|] + value
    else if |value| < 254 then [number * 16 + 5, |value|] + value
    else [number * 16 + 5, 254] + ToBigEndian(|value|, 2) + value
  }

  function AppTag(number: byte, value: bytes): Tag {
    Tag(number, false, if |value| < 5 then |value| else 5, value)
  }

  function AppForm(value: bytes): Form {
    Form(false, if |value| < 5 then Inline else if |value| < 254 then OneByte else TwoBytes)
  }

  lemma {:induction false} BuildAppTagEncodes(number: byte, value: bytes)
    requires number < 15 && number != TAG_BOOLEAN && |value| < 0x1_0000
    ensures Encodable(AppTag(number, value), AppForm(value))
    ensures BuildAppTag(number, value) == Encode(AppTag(number, value), AppForm(value))
  {
    assert [number * 16 + 5, 254] + ToBigEndian(|value|, 2) == [number * 16 + 5] + ([254] + ToBigEndian(|value|, 2));
  }
}
