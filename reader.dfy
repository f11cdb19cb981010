/**
 * `NBTReader`: consumes its input stream one read at a time. Each method is
 * proved to return what the matching function of `Decoding` gives for the
 * bytes the stream held when it was called, and to leave the bytes that
 * function leaves.
 */
module Reader {
  import opened Options
  import opened Bytes
  import opened TagTypes
  import opened Values
  import opened Decoding
  import opened Compounds
  import opened Lists

  /** `rest` is what is left of `before` once some bytes have been read from its front. */
  predicate Consumed(before: seq<u8>, rest: seq<u8>) {
    |rest| <= |before| && rest == before[|before| - |rest|..]
  }

  lemma ConsumedTrans(a: seq<u8>, b: seq<u8>, c: seq<u8>)
    requires Consumed(a, b) && Consumed(b, c)
    ensures Consumed(a, c)
  {
    assert a[|a| - |c|..] == a[|a| - |b|..][|b| - |c|..];
  }

  /** A read method's result `r` and the stream `rest` it leaves of `before` agree with
      `spec`: the same value and the same bytes left, or the same exception. Bytes are
      only ever taken from the front, and an end of stream leaves none, because
      `DataInputStream` keeps reading until the stream under it reports its end. */
  predicate Reads<T(==)>(spec: Result<(T, seq<u8>)>, r: Result<T>, before: seq<u8>, rest: seq<u8>) {
    Consumed(before, rest) &&
    match spec
    case Err(e) => r == Err(e) && (e == EndOfStream ==> rest == [])
    case Ok((x, left)) => r == Ok(x) && rest == left
  }

  /** A list read with the elements so far, as `readList` returns it. */
  function AsList(kind: TagType, r: Result<(seq<Value>, seq<u8>)>): Result<(Value, seq<u8>)> {
    match r
    case Err(e) => Err(e)
    case Ok((elems, rest)) => Ok((List(kind, elems), rest))
  }

  /** `new NBTReader(in)`: decides the framing of `stream`, and reads from the stream
      itself or from what it inflates to; an empty stream throws. */
  method Open(stream: seq<u8>, inflate: seq<u8> -> seq<u8>) returns (r: Result<NBTReader>)
    ensures ReaderInput(stream, inflate).Err? ==> r == Err(ReaderInput(stream, inflate).error)
    ensures ReaderInput(stream, inflate).Ok? ==>
      r.Ok? && fresh(r.value) && r.value.input == ReaderInput(stream, inflate).value
  {
    var framing := DetectFraming(stream);
    match framing
    case Err(e) =>
      r := Err(e);
    case Ok(Plain) =>
      var reader := new NBTReader(stream);
      r := Ok(reader);
    case Ok(Gzip) =>
      var reader := new NBTReader(inflate(stream));
      r := Ok(reader);
  }

  class NBTReader {
    /** The bytes not yet read. */
    var input: seq<u8>

    constructor (input: seq<u8>)
      ensures this.input == input
    {
      this.input := input;
    }

    /** `readByte`, `readShort`, `readInt`, `readLong` of the underlying
        `DataInputStream`, for `n` = 1, 2, 4, 8. */
    method ReadNumber(n: nat) returns (r: Result<int>)
      requires n > 0
      modifies this
      ensures Reads(ReadSigned(old(input), n), r, old(input), input)
    {
      if |input| < n {
        input := [];
        return Err(EndOfStream);
      }
      r := Ok(SignedValue(input[..n]));
      input := input[n..];
    }

    /** `readUTF` of the underlying `DataInputStream`. */
    method ReadUTF() returns (r: Result<JString>)
      modifies this
      ensures Reads(DecodeUtf(old(input)), r, old(input), input)
    {
      if |input| < 2 {
        input := [];
        return Err(EndOfStream);
      }
      var n := Unsigned(input[..2]);
      if |input| - 2 < n {
        input := [];
        return Err(EndOfStream);
      }
      r := Ok(input[2..2 + n]);
      input := input[2 + n..];
    }

    /** `read()`: the root of the stream, as an unnamed compound. */
    method Read() returns (r: Result<NBTCompound>)
      modifies this
      ensures DecodeRoot(old(input)).Err? ==> r == Err(DecodeRoot(old(input)).error)
      ensures DecodeRoot(old(input)).Ok? ==>
        r.Ok? && fresh(r.value) && r.value.name == None
        && r.value.data == DecodeRoot(old(input)).value.0 && input == DecodeRoot(old(input)).value.1
      ensures Consumed(old(input), input)
      ensures r == Err(EndOfStream) ==> input == []
      ensures DecodeType(old(input)).Ok? && DecodeType(old(input)).value.0 !in {TagEnd, TagCompound} ==>
        input == old(input)[1..]
    {
      var ty := ReadType();
      if ty.Err? {
        return Err(ty.error);
      }
      if ty.value == TagEnd {
        var empty := new NBTCompound();
        return Ok(empty);
      }
      if ty.value != TagCompound {
        return Err(UnexpectedRoot(ty.value));
      }
      var name := ReadUTF();
      if name.Err? {
        return Err(name.error);
      }
      ghost var before := input;
      r := ReadCompound();
      ConsumedTrans(old(input), before, input);
    }

    /** `readType()`: one byte, which must be a kind id. */
    method ReadType() returns (r: Result<TagType>)
      modifies this
      ensures Reads(DecodeType(old(input)), r, old(input), input)
      ensures r.Err? && r.error.InvalidTagId? ==> input == old(input)[1..]
    {
      var id := ReadNumber(1);
      if id.Err? {
        return Err(id.error);
      }
      match FromId(id.value)
      case None => r := Err(InvalidTagId(id.value));
      case Some(t) => r := Ok(t);
    }

    /** `readCompound()`: (kind id, key, payload) entries until kind id 0, each stored
        with `set(value, key)`. */
    method ReadCompound() returns (r: Result<NBTCompound>)
      modifies this
      ensures DecodeEntries(old(input), map[]).Err? ==> r == Err(DecodeEntries(old(input), map[]).error)
      ensures DecodeEntries(old(input), map[]).Ok? ==>
        r.Ok? && fresh(r.value) && r.value.name == None
        && r.value.data == DecodeEntries(old(input), map[]).value.0
        && input == DecodeEntries(old(input), map[]).value.1
      ensures Consumed(old(input), input)
      ensures r == Err(EndOfStream) ==> input == []
      decreases |input|, 1
    {
      var comp := new NBTCompound();
      var ty := ReadType();
      if ty.Err? {
        return Err(ty.error);
      }
      var t := ty.value;
      while t != TagEnd
        invariant fresh(comp) && comp.name == None
        invariant |input| < |old(input)|
        invariant Consumed(old(input), input)
        invariant DecodeEntries(old(input), map[]) == EntriesFrom(t, input, comp.data)
        decreases |input|
      {
        ghost var before := input;
        var key := ReadUTF();
        ConsumedTrans(old(input), before, input);
        if key.Err? {
          return Err(key.error);
        }
        before := input;
        var value := ReadTag(t);
        ConsumedTrans(old(input), before, input);
        if value.Err? {
          return Err(value.error);
        }
        var _ := comp.Set(value.value, [key.value]);
        before := input;
        ty := ReadType();
        ConsumedTrans(old(input), before, input);
        if ty.Err? {
          return Err(ty.error);
        }
        t := ty.value;
      }
      r := Ok(comp);
    }

    /** `readTag(type)`: one payload of the given kind; `END` reads nothing and gives `null`. */
    method ReadTag(t: TagType) returns (r: Result<Value>)
      modifies this
      ensures Reads(DecodeTag(t, old(input)), r, old(input), input)
      decreases |input|, 2
    {
      match t
      case TagEnd =>
        r := Ok(Null);
      case TagByte | TagShort | TagInt | TagLong | TagFloat | TagDouble =>
        r := ReadScalar(t);
      case TagByteArray =>
        r := ReadByteArray();
      case TagString =>
        var x := ReadUTF();
        r := if x.Err? then Err(x.error) else Ok(String(x.value));
      case TagList =>
        r := ReadList();
      case TagCompound =>
        var c := ReadCompound();
        r := if c.Err? then Err(c.error) else Ok(Compound(c.value.data));
      case TagIntArray =>
        r := ReadIntArray();
      case TagLongArray =>
        r := ReadLongArray();
    }

    /** The scalar arms of `readTag`: `readByte`, `readShort`, `readInt`, `readLong`,
        `readFloat`, `readDouble`, each boxed. */
    method ReadScalar(t: TagType) returns (r: Result<Value>)
      requires t in {TagByte, TagShort, TagInt, TagLong, TagFloat, TagDouble}
      modifies this
      ensures Reads(DecodeScalar(t, old(input)), r, old(input), input)
    {
      InRangeWidths();
      match t
      case TagByte =>
        var x := ReadNumber(1);
        r := if x.Err? then Err(x.error) else Ok(Byte(x.value));
      case TagShort =>
        var x := ReadNumber(2);
        r := if x.Err? then Err(x.error) else Ok(Short(x.value));
      case TagInt =>
        var x := ReadNumber(4);
        r := if x.Err? then Err(x.error) else Ok(Int(x.value));
      case TagLong =>
        var x := ReadNumber(8);
        r := if x.Err? then Err(x.error) else Ok(Long(x.value));
      case TagFloat =>
        var x := ReadNumber(4);
        r := if x.Err? then Err(x.error) else Ok(Float(x.value));
      case TagDouble =>
        var x := ReadNumber(8);
        r := if x.Err? then Err(x.error) else Ok(Double(x.value));
    }

    /** `readByteArray()`: a 4-byte count, then that many bytes into a new `byte[]`. */
    method ReadByteArray() returns (r: Result<Value>)
      modifies this
      ensures Reads(DecodeByteArray(old(input)), r, old(input), input)
      ensures r == Err(NegativeArraySize) ==> input == old(input)[4..]
    {
      InRangeWidths();
      var len := ReadNumber(4);
      if len.Err? {
        return Err(len.error);
      }
      if len.value < 0 {
        return Err(NegativeArraySize);
      }
      var value := new i8[len.value];
      for i := 0 to len.value
        invariant Consumed(old(input), input)
        invariant DecodeArray(1, old(input)) == DecodeWords(len.value - i, 1, input, value[..i])
      {
        ghost var before := input;
        var b := ReadNumber(1);
        ConsumedTrans(old(input), before, input);
        if b.Err? {
          return Err(b.error);
        }
        value[i] := b.value;
        assert value[..i + 1] == value[..i] + [b.value];
      }
      assert value[..len.value] == value[..];
      r := Ok(ByteArray(value[..]));
    }

    /** `readIntArray()`: a 4-byte count, then that many 4-byte numbers into a new `int[]`. */
    method ReadIntArray() returns (r: Result<Value>)
      modifies this
      ensures Reads(DecodeIntArray(old(input)), r, old(input), input)
      ensures r == Err(NegativeArraySize) ==> input == old(input)[4..]
    {
      InRangeWidths();
      var len := ReadNumber(4);
      if len.Err? {
        return Err(len.error);
      }
      if len.value < 0 {
        return Err(NegativeArraySize);
      }
      var value := new i32[len.value];
      for i := 0 to len.value
        invariant Consumed(old(input), input)
        invariant DecodeArray(4, old(input)) == DecodeWords(len.value - i, 4, input, value[..i])
      {
        ghost var before := input;
        var x := ReadNumber(4);
        ConsumedTrans(old(input), before, input);
        if x.Err? {
          return Err(x.error);
        }
        value[i] := x.value;
        assert value[..i + 1] == value[..i] + [x.value];
      }
      assert value[..len.value] == value[..];
      r := Ok(IntArray(value[..]));
    }

    /** `readLongArray()`: a 4-byte count, then that many 8-byte numbers into a new `long[]`. */
    method ReadLongArray() returns (r: Result<Value>)
      modifies this
      ensures Reads(DecodeLongArray(old(input)), r, old(input), input)
      ensures r == Err(NegativeArraySize) ==> input == old(input)[4..]
    {
      InRangeWidths();
      var len := ReadNumber(4);
      if len.Err? {
        return Err(len.error);
      }
      if len.value < 0 {
        return Err(NegativeArraySize);
      }
      var value := new i64[len.value];
      for i := 0 to len.value
        invariant Consumed(old(input), input)
        invariant DecodeArray(8, old(input)) == DecodeWords(len.value - i, 8, input, value[..i])
      {
        ghost var before := input;
        var x := ReadNumber(8);
        ConsumedTrans(old(input), before, input);
        if x.Err? {
          return Err(x.error);
        }
        value[i] := x.value;
        assert value[..i + 1] == value[..i] + [x.value];
      }
      assert value[..len.value] == value[..];
      r := Ok(LongArray(value[..]));
    }

    /** `readList()`: the element kind, a 4-byte count clamped to 0 when negative, then
        that many payloads added to a new `NBTList`. */
    method ReadList() returns (r: Result<Value>)
      modifies this
      ensures Reads(DecodeList(old(input)), r, old(input), input)
      decreases |input|, 1
    {
      var kind := ReadType();
      if kind.Err? {
        return Err(kind.error);
      }
      ghost var afterKind := input;
      var len := ReadNumber(4);
      ConsumedTrans(old(input), afterKind, input);
      if len.Err? {
        return Err(len.error);
      }
      var n := len.value;
      if n < 0 {
        n := 0;
      }
      var list := new NBTList(kind.value);
      for i := 0 to n
        invariant fresh(list) && list.kind == kind.value
        invariant |input| < |old(input)|
        invariant Consumed(old(input), input)
        invariant DecodeList(old(input)) == AsList(kind.value, DecodeElems(kind.value, n - i, input, list.elems))
      {
        ghost var before := input;
        var v := ReadTag(kind.value);
        ConsumedTrans(old(input), before, input);
        if v.Err? {
          return Err(v.error);
        }
        list.Add(v.value);
      }
      r := Ok(List(list.kind, list.elems));
    }
  }
}
