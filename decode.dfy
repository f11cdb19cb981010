/**
 * What `NBTReader` reads from a stream, stated on the bytes: each function takes
 * the bytes left in the stream and returns what one read method returns
 * together with the bytes it leaves, or the exception it throws. A stream that
 * runs out is an `EOFException`.
 */
module Decoding {
  import opened Options
  import opened Bytes
  import opened TagTypes
  import opened Values

  /** `readByte` .. `readLong`: `n` big-endian bytes in two's complement. */
  function ReadSigned(s: seq<u8>, n: nat): (r: Result<(int, seq<u8>)>)
    requires n > 0
    ensures r.Err? <==> |s| < n
    ensures r.Err? ==> r.error == EndOfStream
    ensures r.Ok? ==> InRange(r.value.0, n) && r.value.1 == s[n..]
  {
    if |s| < n then Err(EndOfStream) else Ok((SignedValue(s[..n]), s[n..]))
  }

  /** `readType`: one byte, which must be the id of a kind. */
  function DecodeType(s: seq<u8>): (r: Result<(TagType, seq<u8>)>)
    ensures r.Ok? ==> |s| > 0 && r.value.1 == s[1..]
  {
    match ReadSigned(s, 1)
    case Err(e) => Err(e)
    case Ok((id, rest)) =>
      match FromId(id)
      case None => Err(InvalidTagId(id))
      case Some(t) => Ok((t, rest))
  }

  /** `readUTF`: an unsigned 2-byte length, then that many bytes of modified UTF-8. */
  function DecodeUtf(s: seq<u8>): (r: Result<(JString, seq<u8>)>)
    ensures r.Ok? ==> |r.value.0| < 0x1_0000 && |s| >= 2 + |r.value.0| && r.value.1 == s[2 + |r.value.0|..]
  {
    if |s| < 2 then Err(EndOfStream)
    else
      var n := Unsigned(s[..2]);
      Pow256Widths();
      if |s| - 2 < n then Err(EndOfStream) else Ok((s[2..2 + n], s[2 + n..]))
  }

  /** `n` more numbers of `w` bytes each, after the ones in `acc`: the loops of the
      three array readers. */
  function DecodeWords(n: nat, w: nat, s: seq<u8>, acc: seq<int>): (r: Result<(seq<int>, seq<u8>)>)
    requires w > 0
    ensures r.Ok? ==> |r.value.0| == |acc| + n && r.value.0[..|acc|] == acc
    ensures r.Ok? ==> forall i :: |acc| <= i < |r.value.0| ==> InRange(r.value.0[i], w)
    ensures r.Ok? ==> |s| >= n * w && r.value.1 == s[n * w..]
    ensures r.Err? ==> r.error == EndOfStream
    decreases n
  {
    if n == 0 then Ok((acc, s))
    else
      match ReadSigned(s, w)
      case Err(e) => Err(e)
      case Ok((x, rest)) =>
        var r := DecodeWords(n - 1, w, rest, acc + [x]);
        assert r.Ok? ==> r.value.1 == s[w..][(n - 1) * w..] == s[n * w..];
        assert r.Ok? ==> r.value.0[..|acc|] == (acc + [x])[..|acc|] == acc;
        r
  }

  /** The array readers: a signed 4-byte count, which fails when negative
      (`new byte[len]`), then the elements. */
  function DecodeArray(w: nat, s: seq<u8>): (r: Result<(seq<int>, seq<u8>)>)
    requires w > 0
    ensures r.Ok? ==> forall i :: 0 <= i < |r.value.0| ==> InRange(r.value.0[i], w)
    ensures r.Ok? ==> |r.value.1| < |s|
    ensures r.Ok? ==>
      |s| >= 4 && |r.value.0| == SignedValue(s[..4])
      && |s| - 4 >= |r.value.0| * w && r.value.1 == s[4..][|r.value.0| * w..]
    ensures r.Err? ==> r.error == EndOfStream || r.error == NegativeArraySize
    ensures r == Err(NegativeArraySize) <==> |s| >= 4 && SignedValue(s[..4]) < 0
  {
    match ReadSigned(s, 4)
    case Err(e) => Err(e)
    case Ok((len, rest)) =>
      if len < 0 then Err(NegativeArraySize) else DecodeWords(len, w, rest, [])
  }

  function AsI8s(xs: seq<int>): seq<i8>
    requires forall i :: 0 <= i < |xs| ==> InRange(xs[i], 1)
  {
    InRangeWidths();
    xs
  }

  function AsI32s(xs: seq<int>): seq<i32>
    requires forall i :: 0 <= i < |xs| ==> InRange(xs[i], 4)
  {
    InRangeWidths();
    xs
  }

  function AsI64s(xs: seq<int>): seq<i64>
    requires forall i :: 0 <= i < |xs| ==> InRange(xs[i], 8)
  {
    InRangeWidths();
    xs
  }

  /** `readByteArray`, `readIntArray`, `readLongArray`. */
  function DecodeByteArray(s: seq<u8>): (r: Result<(Value, seq<u8>)>)
    ensures r.Ok? ==> |r.value.1| < |s|
    ensures r.Ok? ==> r.value.0.ByteArray? && |s| >= 4 && |r.value.0.bytes| == SignedValue(s[..4])
    ensures r.Err? ==> r.error == EndOfStream || r.error == NegativeArraySize
  {
    match DecodeArray(1, s) case Err(e) => Err(e) case Ok((xs, rest)) => Ok((ByteArray(AsI8s(xs)), rest))
  }

  function DecodeIntArray(s: seq<u8>): (r: Result<(Value, seq<u8>)>)
    ensures r.Ok? ==> |r.value.1| < |s|
    ensures r.Ok? ==> r.value.0.IntArray? && |s| >= 4 && |r.value.0.ints| == SignedValue(s[..4])
    ensures r.Err? ==> r.error == EndOfStream || r.error == NegativeArraySize
  {
    match DecodeArray(4, s) case Err(e) => Err(e) case Ok((xs, rest)) => Ok((IntArray(AsI32s(xs)), rest))
  }

  function DecodeLongArray(s: seq<u8>): (r: Result<(Value, seq<u8>)>)
    ensures r.Ok? ==> |r.value.1| < |s|
    ensures r.Ok? ==> r.value.0.LongArray? && |s| >= 4 && |r.value.0.longs| == SignedValue(s[..4])
    ensures r.Err? ==> r.error == EndOfStream || r.error == NegativeArraySize
  {
    match DecodeArray(8, s) case Err(e) => Err(e) case Ok((xs, rest)) => Ok((LongArray(AsI64s(xs)), rest))
  }

  /** The payload of a scalar kind: 1, 2, 4, 8, 4 or 8 bytes. */
  function DecodeScalar(t: TagType, s: seq<u8>): (r: Result<(Value, seq<u8>)>)
    requires t in {TagByte, TagShort, TagInt, TagLong, TagFloat, TagDouble}
    ensures r.Ok? ==> |r.value.1| < |s|
  {
    Pow256Widths();
    match t
    case TagByte => (match ReadSigned(s, 1) case Err(e) => Err(e) case Ok((x, rest)) => Ok((Byte(x), rest)))
    case TagShort => (match ReadSigned(s, 2) case Err(e) => Err(e) case Ok((x, rest)) => Ok((Short(x), rest)))
    case TagInt => (match ReadSigned(s, 4) case Err(e) => Err(e) case Ok((x, rest)) => Ok((Int(x), rest)))
    case TagLong => (match ReadSigned(s, 8) case Err(e) => Err(e) case Ok((x, rest)) => Ok((Long(x), rest)))
    case TagFloat => (match ReadSigned(s, 4) case Err(e) => Err(e) case Ok((x, rest)) => Ok((Float(x), rest)))
    case TagDouble => (match ReadSigned(s, 8) case Err(e) => Err(e) case Ok((x, rest)) => Ok((Double(x), rest)))
  }

  /** `readTag(type)`: the payload of one value of the given kind. `END` reads nothing
      and gives `null`. */
  function DecodeTag(t: TagType, s: seq<u8>): (r: Result<(Value, seq<u8>)>)
    ensures r.Ok? ==> |r.value.1| <= |s|
    decreases |s|, 2, 0
  {
    match t
    case TagEnd => Ok((Null, s))
    case TagByteArray => DecodeByteArray(s)
    case TagString =>
      (match DecodeUtf(s) case Err(e) => Err(e) case Ok((str, rest)) => Ok((String(str), rest)))
    case TagList => DecodeList(s)
    case TagCompound =>
      (match DecodeEntries(s, map[]) case Err(e) => Err(e) case Ok((m, rest)) => Ok((Compound(m), rest)))
    case TagIntArray => DecodeIntArray(s)
    case TagLongArray => DecodeLongArray(s)
    case _ => DecodeScalar(t, s)
  }

  /** `readList`: the element kind, a signed 4-byte count, clamped to 0 when negative,
      then that many payloads of the element kind, with no ids or keys. */
  function DecodeList(s: seq<u8>): (r: Result<(Value, seq<u8>)>)
    ensures r.Ok? ==> |r.value.1| < |s|
    decreases |s|, 1, 0
  {
    match DecodeType(s)
    case Err(e) => Err(e)
    case Ok((kind, s1)) =>
      match ReadSigned(s1, 4)
      case Err(e) => Err(e)
      case Ok((len, s2)) =>
        var n := if len < 0 then 0 else len;
        match DecodeElems(kind, n, s2, [])
        case Err(e) => Err(e)
        case Ok((elems, s3)) => Ok((List(kind, elems), s3))
  }

  /** `n` more list elements of kind `kind`, after the ones in `acc`. */
  function DecodeElems(kind: TagType, n: nat, s: seq<u8>, acc: seq<Value>): (r: Result<(seq<Value>, seq<u8>)>)
    ensures r.Ok? ==> |r.value.1| <= |s| && |r.value.0| == |acc| + n
    decreases |s|, 3, n
  {
    if n == 0 then Ok((acc, s))
    else
      match DecodeTag(kind, s)
      case Err(e) => Err(e)
      case Ok((v, rest)) => DecodeElems(kind, n - 1, rest, acc + [v])
  }

  /** `readCompound` with the entries `acc` already read: the next kind id, then
      the entry it starts, until id 0. */
  function DecodeEntries(s: seq<u8>, acc: map<JString, Value>): (r: Result<(map<JString, Value>, seq<u8>)>)
    ensures r.Ok? ==> |r.value.1| < |s|
    decreases |s|, 1, 0
  {
    match DecodeType(s)
    case Err(e) => Err(e)
    case Ok((t, rest)) => EntriesFrom(t, rest, acc)
  }

  /** The rest of a compound body once the kind id `t` has been read: at `END` the body
      is over; otherwise a key and a payload of kind `t`, stored over any earlier
      entry with the same key. */
  function EntriesFrom(t: TagType, s: seq<u8>, acc: map<JString, Value>): (r: Result<(map<JString, Value>, seq<u8>)>)
    ensures r.Ok? ==> |r.value.1| <= |s|
    decreases |s|, 0, 0
  {
    if t == TagEnd then Ok((acc, s))
    else
      match DecodeUtf(s)
      case Err(e) => Err(e)
      case Ok((key, s1)) =>
        match DecodeTag(t, s1)
        case Err(e) => Err(e)
        case Ok((v, s2)) => DecodeEntries(s2, acc[key := v])
  }

  /** `read()`: the root kind id; 0 gives an empty compound; anything but a compound is
      rejected; a compound's name is read and dropped. The result is the entries of the
      unnamed compound returned, and the bytes left unread. */
  function DecodeRoot(s: seq<u8>): (r: Result<(map<JString, Value>, seq<u8>)>)
    ensures s == [] ==> r == Err(EndOfStream)
    ensures r.Ok? ==> |s| > 0 && (s[0] == 0 || s[0] == 10) && |r.value.1| < |s|
    ensures r.Ok? && s[0] == 0 ==> r.value == (map[], s[1..])
  {
    match DecodeType(s)
    case Err(e) => Err(e)
    case Ok((t, s1)) =>
      if t == TagEnd then Ok((map[], s1))
      else if t != TagCompound then Err(UnexpectedRoot(t))
      else
        match DecodeUtf(s1)
        case Err(e) => Err(e)
        case Ok((_, s2)) => DecodeEntries(s2, map[])
  }

  // ---------------------------------------------------------------------
  // Stream framing

  /** The `int` that `conditionallyUngzip` compares with `GZIP_MAGIC`, built from the
      first two bytes: the second shifted left by 8 and masked, OR the first as a
      sign-extended `byte`. A stream of one byte leaves the second at 0. */
  function MagicOf(b0: u8, b1: u8): (r: int)
    ensures r == GzipMagic <==> b0 == 0x1f && b1 == 0x8b
    ensures r < 0 <==> b0 >= 0x80
  {
    if b0 < 0x80 then b1 * 0x100 + b0
    else b0 - 0x100   // sign extension sets every bit above bit 7
  }

  const GzipMagic: int := 0x8b1f

  /** How `conditionallyUngzip` treats a stream. */
  datatype Framing = Plain | Gzip

  /** `conditionallyUngzip`: peeks at up to two bytes and pushes them back. On an empty
      stream `read` returns -1, and pushing back -1 bytes throws. */
  function DetectFraming(stream: seq<u8>): (r: Result<Framing>)
    ensures r.Err? <==> stream == []
  {
    if stream == [] then Err(IndexOutOfBounds)
    else
      var b1 := if |stream| >= 2 then stream[1] else 0;
      if MagicOf(stream[0], b1) == GzipMagic then Ok(Gzip) else Ok(Plain)
  }

  /** The stream the reader parses: the stream itself, every byte pushed back, or what
      the gzip stream over it inflates to. */
  function ReaderInput(stream: seq<u8>, inflate: seq<u8> -> seq<u8>): (r: Result<seq<u8>>)
    ensures r.Err? <==> stream == []
    ensures r.Ok? && !(|stream| >= 2 && stream[0] == 0x1f && stream[1] == 0x8b) ==> r.value == stream
    ensures r.Ok? && |stream| >= 2 && stream[0] == 0x1f && stream[1] == 0x8b ==> r.value == inflate(stream)
  {
    match DetectFraming(stream)
    case Err(e) => Err(e)
    case Ok(Plain) => Ok(stream)
    case Ok(Gzip) => Ok(inflate(stream))
  }

  // ---------------------------------------------------------------------
  // Properties of the decoder

  /** Gzip framing is detected exactly when the stream starts with 1f 8b. */
  lemma GzipDetected(stream: seq<u8>)
    requires stream != []
    ensures DetectFraming(stream) == Ok(Gzip) <==> |stream| >= 2 && stream[0] == 0x1f && stream[1] == 0x8b
  {
  }

  /** Without gzip framing, no byte is consumed before parsing. */
  lemma PlainKeepsEveryByte(stream: seq<u8>, inflate: seq<u8> -> seq<u8>)
    requires DetectFraming(stream) == Ok(Plain)
    ensures ReaderInput(stream, inflate) == Ok(stream)
  {
  }

  /** A kind id byte is accepted exactly when it is 0..12, and it names the kind with
      that id; every other byte is rejected with the id it holds. */
  lemma TypeIds(b: u8, rest: seq<u8>)
    ensures DecodeType([b] + rest).Ok? <==> b <= 12
    ensures b <= 12 ==> DecodeType([b] + rest) == Ok((FromId(b).value, rest)) && Id(FromId(b).value) == b
    ensures b > 12 ==> DecodeType([b] + rest) == Err(InvalidTagId(SignedValue([b])))
  {
    var s := [b] + rest;
    assert s[..1] == [b] && s[1..] == rest;
    assert Unsigned([b]) == b by { assert [b][..0] == []; }
    Pow256Widths();
  }

  /** The scalars read exactly 1, 2, 4, 8, 4 and 8 bytes. */
  lemma ScalarWidths(t: TagType, s: seq<u8>)
    requires t in {TagByte, TagShort, TagInt, TagLong, TagFloat, TagDouble}
    ensures DecodeTag(t, s).Ok? ==> DecodeTag(t, s).value.1 == s[ScalarWidth(t)..]
    ensures DecodeTag(t, s).Ok? <==> |s| >= ScalarWidth(t)
  {
  }

  function ScalarWidth(t: TagType): nat {
    match t
    case TagByte => 1
    case TagShort => 2
    case TagInt => 4
    case TagLong => 8
    case TagFloat => 4
    case TagDouble => 8
    case _ => 0
  }

  /** An array with a negative count fails, whatever follows. */
  lemma NegativeArrayCount(t: TagType, n: int, rest: seq<u8>)
    requires t in {TagByteArray, TagIntArray, TagLongArray}
    requires -0x8000_0000 <= n < 0
    ensures DecodeTag(t, Signed(n, 4) + rest) == Err(NegativeArraySize)
  {
    Pow256Widths();
    var s := Signed(n, 4) + rest;
    assert s[..4] == Signed(n, 4);
    SignedRoundTrip(n, 4);
  }

  /** A list with a negative count is empty and ends right after its count. */
  lemma NegativeListCount(kind: TagType, n: int, rest: seq<u8>)
    requires -0x8000_0000 <= n < 0
    ensures DecodeTag(TagList, [Id(kind) as u8] + Signed(n, 4) + rest) == Ok((List(kind, []), rest))
  {
    Pow256Widths();
    KindsComplete(kind);
    var s := [Id(kind) as u8] + Signed(n, 4) + rest;
    TypeIds(Id(kind) as u8, Signed(n, 4) + rest);
    assert s == [Id(kind) as u8] + (Signed(n, 4) + rest);
    FromIdOfId(kind);
    var s1 := Signed(n, 4) + rest;
    assert s1[..4] == Signed(n, 4) && s1[4..] == rest;
    SignedRoundTrip(n, 4);
    assert DecodeType(s) == Ok((kind, s1));
    assert ReadSigned(s1, 4) == Ok((n, rest));
    assert DecodeElems(kind, 0, rest, []) == Ok(([], rest));
    assert DecodeList(s) == Ok((List(kind, []), rest));
  }

  /** A list declared `END` reads no payload: its count of `null`s, and nothing consumed. */
  lemma EndListOfNulls(n: nat, s: seq<u8>, acc: seq<Value>)
    ensures DecodeElems(TagEnd, n, s, acc) == Ok((acc + Nulls(n), s))
    decreases n
  {
    if n > 0 {
      EndListOfNulls(n - 1, s, acc + [Null]);
      assert acc + [Null] + Nulls(n - 1) == acc + Nulls(n);
    } else {
      assert acc + Nulls(0) == acc;
    }
  }

  function Nulls(n: nat): (r: seq<Value>)
    ensures |r| == n && forall i :: 0 <= i < n ==> r[i] == Null
  {
    seq(n, _ => Null)
  }

  /** The root: byte 0 is an empty compound with no name; an id 0..12 other than
      0 and 10 is rejected as a root, and a byte outside 0..12 as an invalid id. */
  lemma RootKinds(b: u8, rest: seq<u8>)
    ensures b == 0 ==> DecodeRoot([b] + rest) == Ok((map[], rest))
    ensures b <= 12 && b != 0 && b != 10 ==> DecodeRoot([b] + rest) == Err(UnexpectedRoot(FromId(b).value))
    ensures b > 12 ==> DecodeRoot([b] + rest) == Err(InvalidTagId(SignedValue([b])))
  {
    TypeIds(b, rest);
  }

  /** A compound root's name is read and dropped: the result is the same whatever the
      name. */
  lemma RootNameDropped(name1: JString, name2: JString, body: seq<u8>)
    requires |name1| < 0x1_0000 && |name2| < 0x1_0000
    ensures DecodeRoot([10] + Utf(name1) + body) == DecodeRoot([10] + Utf(name2) + body)
  {
    RootCompound(name1, body);
    RootCompound(name2, body);
  }

  /** The bytes `writeUTF` emits for a string of fewer than 65536 bytes. */
  function Utf(str: JString): (r: seq<u8>)
    requires |str| < 0x1_0000
    ensures |r| == 2 + |str|
  {
    Pow256Widths();
    BigEndian(|str|, 2) + str
  }

  lemma UtfRoundTrip(str: JString, rest: seq<u8>)
    requires |str| < 0x1_0000
    ensures DecodeUtf(Utf(str) + rest) == Ok((str, rest))
  {
    Pow256Widths();
    var s := Utf(str) + rest;
    assert s[..2] == BigEndian(|str|, 2);
    UnsignedOfBigEndian(|str|, 2);
    assert s[2..2 + |str|] == str;
    assert s[2 + |str|..] == rest;
  }

  lemma RootCompound(name: JString, body: seq<u8>)
    requires |name| < 0x1_0000
    ensures DecodeRoot([10] + Utf(name) + body) == DecodeEntries(body, map[])
  {
    var s := [10] + Utf(name) + body;
    TypeIds(10, Utf(name) + body);
    assert s == [10] + (Utf(name) + body);
    UtfRoundTrip(name, body);
  }
}
