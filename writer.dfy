/**
 * `NBTWriter`: appends to its output stream one write at a time. Each method is
 * proved to append exactly the bytes the matching function of `Encoding` gives,
 * or, where that function gives an exception, to return that exception having
 * appended something (the stream is not rolled back).
 */
module Writer {
  import opened Options
  import opened Bytes
  import opened TagTypes
  import opened Values
  import opened Decoding
  import opened Encoding
  import opened Compounds

  /** A write method's result `r` and the stream it turned `before` into `after` agree
      with `spec`: the same exception after some output, or exactly the spec's bytes
      appended. */
  predicate Wrote(spec: Result<seq<u8>>, r: Result<()>, before: seq<u8>, after: seq<u8>) {
    match spec
    case Err(e) => r == Err(e) && before <= after
    case Ok(bytes) => r == Ok(()) && after == before + bytes
  }

  /** Once `before` extends `start`, writing `piece` moves it from the output still to
      come into the output already written. */
  lemma Extended(start: seq<u8>, before: seq<u8>, piece: seq<u8>, rest: Result<seq<u8>>)
    requires start <= before
    ensures start <= before + piece
    ensures Cat(Ok(before[|start|..]), Cat(Ok(piece), rest)) == Cat(Ok((before + piece)[|start|..]), rest)
  {
    CatAssoc(before[|start|..], piece, rest);
    assert (before + piece)[|start|..] == before[|start|..] + piece;
  }

  class NBTWriter {
    /** The iteration order of every `HashMap` this writer visits. */
    const order: Order
    /** Everything written so far. */
    var out: seq<u8>

    /** `new NBTWriter(out, false)`: nothing written yet. */
    constructor (order: Order)
      requires ValidOrder(order)
      ensures this.order == order && out == []
    {
      this.order := order;
      out := [];
    }

    /** `writeByte(v)` of the underlying `DataOutputStream`: the low 8 bits of `v`. */
    method WriteByte(x: int)
      modifies this
      ensures out == old(out) + [LowByte(x)]
    {
      out := out + [LowByte(x)];
    }

    /** `writeByte`, `writeShort`, `writeInt`, `writeLong` of a Java value of `n` bytes. */
    method WriteNumber(x: int, n: nat)
      requires InRange(x, n)
      modifies this
      ensures out == old(out) + Signed(x, n)
    {
      out := out + Signed(x, n);
    }

    /** `writeInt(data.length)`. */
    method WriteLength(n: nat)
      modifies this
      ensures out == old(out) + Length(n)
    {
      out := out + Length(n);
    }

    /** `writeUTF(str)` of the underlying `DataOutputStream`. */
    method WriteUTF(str: JString) returns (r: Result<()>)
      modifies this
      ensures Wrote(EncodeUtf(str), r, old(out), out)
      ensures r.Err? ==> out == old(out)
    {
      if |str| > 0xffff {
        return Err(UtfTooLong);
      }
      out := out + BigEndian(|str|, 2) + str;
      r := Ok(());
    }

    /** `writeTagId(type)`: the kind's id as one byte. */
    method WriteTagId(t: TagType)
      modifies this
      ensures out == old(out) + [Id(t) as u8]
    {
      WriteByte(Id(t));
    }

    /** `write(nbt)`: `null` throws before anything is written; otherwise the root as
        `EncodeRoot` gives it for the compound's name and entries. */
    method Write(nbt: NBTCompound?) returns (r: Result<()>)
      requires ValidOrder(order)
      modifies this
      ensures nbt == null ==> r == Err(NullPointer) && out == old(out)
      ensures nbt != null ==> Wrote(EncodeRoot(nbt.name, nbt.data, order), r, old(out), out)
    {
      if nbt == null {
        return Err(NullPointer);
      }
      WriteTagId(TagCompound);
      var name := nbt.GetName();
      if name.Err? {
        return Err(name.error);
      }
      r := WriteUTF(name.value);
      if r.Err? {
        return;
      }
      r := WriteCompound(nbt.data);
      CatAssoc(old(out) + [Id(TagCompound) as u8], Utf(name.value), EncodeCompound(nbt.data, order));
      CatAssoc([Id(TagCompound) as u8], Utf(name.value), EncodeCompound(nbt.data, order));
      if r.Ok? {
        Assoc(old(out), [Id(TagCompound) as u8], Utf(name.value) + EncodeCompound(nbt.data, order).value);
      }
    }

    /** `writeTag(key, value)`: the kind of the value's class, which must exist, then the
        key, then the payload. */
    method WriteTag(key: JString, v: Value) returns (r: Result<()>)
      requires ValidOrder(order)
      modifies this
      ensures Wrote(EncodeTag(key, v, order), r, old(out), out)
      decreases v, 3
    {
      if v.Null? {
        return Err(NullPointer);
      }
      var t := KindOf(v);
      if t.None? {
        return Err(UnmappedClass(ClassOf(v)));
      }
      WriteTagId(t.value);
      r := WriteUTF(key);
      if r.Err? {
        return;
      }
      r := WriteValue(t.value, v);
      CatAssoc([Id(t.value) as u8], Utf(key), EncodeValue(t.value, v, order));
      if r.Ok? {
        Assoc(old(out), [Id(t.value) as u8], Utf(key) + EncodeValue(t.value, v, order).value);
      }
    }

    /** `writeValue(type, value)`: the payload of `v` cast to the kind's Java type. */
    method WriteValue(t: TagType, v: Value) returns (r: Result<()>)
      requires ValidOrder(order)
      modifies this
      ensures Wrote(EncodeValue(t, v, order), r, old(out), out)
      decreases v, 2
    {
      InRangeWidths();
      if t != TagEnd && v.Null? {
        return Err(NullPointer);
      }
      match t
      case TagEnd =>
        r := Ok(());
      case TagByte =>
        if !v.Byte? { return Err(ClassCast); }
        WriteNumber(v.b, 1);
        r := Ok(());
      case TagShort =>
        if !v.Short? { return Err(ClassCast); }
        WriteNumber(v.s, 2);
        r := Ok(());
      case TagInt =>
        if !v.Int? { return Err(ClassCast); }
        WriteNumber(v.i, 4);
        r := Ok(());
      case TagLong =>
        if !v.Long? { return Err(ClassCast); }
        WriteNumber(v.l, 8);
        r := Ok(());
      case TagFloat =>
        if !v.Float? { return Err(ClassCast); }
        WriteNumber(v.fbits, 4);
        r := Ok(());
      case TagDouble =>
        if !v.Double? { return Err(ClassCast); }
        WriteNumber(v.dbits, 8);
        r := Ok(());
      case TagByteArray =>
        if !v.ByteArray? { return Err(ClassCast); }
        WriteArray(v.bytes, 1);
        r := Ok(());
      case TagString =>
        if !v.String? { return Err(ClassCast); }
        r := WriteUTF(v.str);
      case TagList =>
        if !v.List? { return Err(ClassCast); }
        r := WriteList(v);
      case TagCompound =>
        if !v.Compound? { return Err(ClassCast); }
        r := WriteCompound(v.entries);
      case TagIntArray =>
        if !v.IntArray? { return Err(ClassCast); }
        WriteArray(v.ints, 4);
        r := Ok(());
      case TagLongArray =>
        if !v.LongArray? { return Err(ClassCast); }
        WriteArray(v.longs, 8);
        r := Ok(());
    }

    /** `writeByteArray`, `writeIntArray`, `writeLongArray` for `w` = 1, 4, 8: the
        length, then each element in turn. */
    method WriteArray(xs: seq<int>, w: nat)
      requires forall i :: 0 <= i < |xs| ==> InRange(xs[i], w)
      modifies this
      ensures out == old(out) + EncodeArray(xs, w)
    {
      WriteLength(|xs|);
      for i := 0 to |xs|
        invariant out == old(out) + Length(|xs|) + Words(xs[..i], w)
      {
        WriteNumber(xs[i], w);
        assert xs[..i + 1][..i] == xs[..i];
      }
      assert xs[..|xs|] == xs;
    }

    /** `writeList(data)`: the declared kind's id, the size as one byte, then each
        element as a payload of the declared kind. */
    method WriteList(v: Value) returns (r: Result<()>)
      requires v.List? && ValidOrder(order)
      modifies this
      ensures Wrote(EncodeList(v, order), r, old(out), out)
      decreases v, 1
    {
      WriteByte(Id(v.kind));
      WriteByte(|v.elems|);
      assert out[|old(out)|..] == [Id(v.kind) as u8, LowByte(|v.elems|)];
      for i := 0 to |v.elems|
        invariant old(out) <= out
        invariant EncodeList(v, order) == Cat(Ok(out[|old(out)|..]), EncodeElemsFrom(v, i, order))
      {
        var before := out;
        r := WriteValue(v.kind, v.elems[i]);
        if r.Err? {
          return;
        }
        Extended(old(out), before, EncodeValue(v.kind, v.elems[i], order).value, EncodeElemsFrom(v, i + 1, order));
      }
      r := Ok(());
      assert out[|old(out)|..] + [] == out[|old(out)|..];
    }

    /** `writeCompound(comp)`: each entry in the map's iteration order, then id 0. */
    method WriteCompound(m: map<JString, Value>) returns (r: Result<()>)
      requires ValidOrder(order)
      modifies this
      ensures Wrote(EncodeCompound(m, order), r, old(out), out)
      decreases Compound(m), 1
    {
      var ks := order(m);
      assert out[|old(out)|..] == [];
      CatUnit(EncodeEntriesFrom(m, ks, 0, order));
      for i := 0 to |ks|
        invariant old(out) <= out
        invariant EncodeEntriesFrom(m, ks, 0, order) == Cat(Ok(out[|old(out)|..]), EncodeEntriesFrom(m, ks, i, order))
      {
        var before := out;
        r := WriteTag(ks[i], m[ks[i]]);
        if r.Err? {
          return;
        }
        Extended(old(out), before, EncodeTag(ks[i], m[ks[i]], order).value, EncodeEntriesFrom(m, ks, i + 1, order));
      }
      assert out[|old(out)|..] + [] == out[|old(out)|..];
      WriteTagId(TagEnd);
      r := Ok(());
    }
  }
}
