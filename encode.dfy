/**
 * What `NBTWriter` emits, stated as functions: each gives the bytes one write
 * method appends to the stream, or the exception it throws. `HashMap`
 * iteration order is not specified by Java, so the order in which a
 * compound's entries are visited is a parameter, `order`.
 */
module Encoding {
  import opened Options
  import opened Bytes
  import opened TagTypes
  import opened Values
  import opened Decoding

  /** The order in which `entrySet()` visits the keys of each map. */
  type Order = map<JString, Value> -> seq<JString>

  /** `ks` lists every key of `m` exactly once. */
  predicate Enumerates(ks: seq<JString>, m: map<JString, Value>) {
    (forall i :: 0 <= i < |ks| ==> ks[i] in m)
    && (forall k :: k in m ==> k in ks)
    && (forall i, j :: 0 <= i < j < |ks| ==> ks[i] != ks[j])
  }

  /** An iteration order of `HashMap`: every map's keys, each once. */
  ghost predicate ValidOrder(order: Order) {
    forall m :: Enumerates(order(m), m)
  }

  /** Both parts in turn; the first exception wins. */
  function Cat(a: Result<seq<u8>>, b: Result<seq<u8>>): (r: Result<seq<u8>>)
    ensures a.Err? ==> r == a
    ensures a.Ok? && b.Err? ==> r == b
    ensures a.Ok? && b.Ok? ==> r == Ok(a.value + b.value)
  {
    match a
    case Err(e) => Err(e)
    case Ok(x) => (match b case Err(e) => Err(e) case Ok(y) => Ok(x + y))
  }

  lemma CatAssoc(a: seq<u8>, b: seq<u8>, c: Result<seq<u8>>)
    ensures Cat(Ok(a), Cat(Ok(b), c)) == Cat(Ok(a + b), c)
  {
    if c.Ok? {
      assert a + (b + c.value) == a + b + c.value;
    }
  }

  lemma CatUnit(c: Result<seq<u8>>)
    ensures Cat(Ok([]), c) == c
  {
    if c.Ok? {
      assert [] + c.value == c.value;
    }
  }

  /** `writeUTF(str)`: a 2-byte length and the bytes; over 65535 bytes it throws. */
  function EncodeUtf(str: JString): (r: Result<seq<u8>>)
    ensures r.Err? <==> |str| > 0xffff
    ensures r.Err? ==> r.error == UtfTooLong
    ensures r.Ok? ==> r.value == Utf(str)
  {
    if |str| > 0xffff then Err(UtfTooLong) else Ok(Utf(str))
  }

  /** `writeByte(v)` of an `int`: its low 8 bits. */
  function LowByte(x: int): u8 {
    x % 0x100
  }

  /** `writeInt(data.length)`: the length as a 4-byte `int`. */
  function Length(n: nat): seq<u8> {
    Pow256Widths();
    BigEndian(n % 0x1_0000_0000, 4)
  }

  /** The `w`-byte big-endian forms of `xs`, one after the other: the element loops of
      the three array writers. */
  function Words(xs: seq<int>, w: nat): (r: seq<u8>)
    requires forall i :: 0 <= i < |xs| ==> InRange(xs[i], w)
    ensures |r| == |xs| * w
  {
    if xs == [] then [] else Words(xs[..|xs| - 1], w) + Signed(xs[|xs| - 1], w)
  }

  /** `writeByteArray`, `writeIntArray`, `writeLongArray`: the length, then the elements. */
  function EncodeArray(xs: seq<int>, w: nat): (r: seq<u8>)
    requires forall i :: 0 <= i < |xs| ==> InRange(xs[i], w)
    ensures |r| == 4 + |xs| * w
    ensures r[..4] == Length(|xs|)
  {
    Length(|xs|) + Words(xs, w)
  }

  /** `writeValue(type, value)`: the payload of `v` as kind `t`. `END` writes nothing,
      whatever `v` is; otherwise `v` is cast to the kind's Java type, so `null` throws
      `NullPointerException` and a value of another class `ClassCastException`. */
  function EncodeValue(t: TagType, v: Value, order: Order): (r: Result<seq<u8>>)
    requires ValidOrder(order)
    ensures t == TagEnd ==> r == Ok([])
    ensures t != TagEnd && v.Null? ==> r == Err(NullPointer)
    ensures t != TagEnd && !v.Null? && Shape(v) != t ==> r == Err(ClassCast)
    ensures t != TagEnd && r.Ok? ==> !v.Null? && Shape(v) == t
    decreases v, 2
  {
    InRangeWidths();
    if t == TagEnd then Ok([])
    else if v.Null? then Err(NullPointer)
    else
      match t
      case TagByte => if v.Byte? then Ok(Signed(v.b, 1)) else Err(ClassCast)
      case TagShort => if v.Short? then Ok(Signed(v.s, 2)) else Err(ClassCast)
      case TagInt => if v.Int? then Ok(Signed(v.i, 4)) else Err(ClassCast)
      case TagLong => if v.Long? then Ok(Signed(v.l, 8)) else Err(ClassCast)
      case TagFloat => if v.Float? then Ok(Signed(v.fbits, 4)) else Err(ClassCast)
      case TagDouble => if v.Double? then Ok(Signed(v.dbits, 8)) else Err(ClassCast)
      case TagByteArray => if v.ByteArray? then Ok(EncodeArray(v.bytes, 1)) else Err(ClassCast)
      case TagString => if v.String? then EncodeUtf(v.str) else Err(ClassCast)
      case TagList => if v.List? then EncodeList(v, order) else Err(ClassCast)
      case TagCompound => if v.Compound? then EncodeCompound(v.entries, order) else Err(ClassCast)
      case TagIntArray => if v.IntArray? then Ok(EncodeArray(v.ints, 4)) else Err(ClassCast)
      case TagLongArray => if v.LongArray? then Ok(EncodeArray(v.longs, 8)) else Err(ClassCast)
  }

  /** `writeList(data)`: the declared kind's id, the size as one byte (its low 8 bits),
      then each element's payload as the declared kind, with no ids or keys. */
  function EncodeList(v: Value, order: Order): (r: Result<seq<u8>>)
    requires v.List? && ValidOrder(order)
    ensures r.Ok? ==> |r.value| >= 2 && r.value[0] == Id(v.kind) as u8 && r.value[1] == LowByte(|v.elems|)
    decreases v, 1
  {
    Cat(Ok([Id(v.kind) as u8, LowByte(|v.elems|)]), EncodeElemsFrom(v, 0, order))
  }

  /** The payloads of the list elements from index `i` on. */
  function EncodeElemsFrom(v: Value, i: nat, order: Order): Result<seq<u8>>
    requires v.List? && i <= |v.elems| && ValidOrder(order)
    decreases v, 0, |v.elems| - i
  {
    if i == |v.elems| then Ok([])
    else Cat(EncodeValue(v.kind, v.elems[i], order), EncodeElemsFrom(v, i + 1, order))
  }

  /** `writeCompound(comp)`: each entry in iteration order, then byte 0. */
  function EncodeCompound(m: map<JString, Value>, order: Order): (r: Result<seq<u8>>)
    requires ValidOrder(order)
    ensures r.Ok? ==> |r.value| >= 1 && r.value[|r.value| - 1] == 0
    ensures m == map[] ==> r == Ok([0])
    decreases Compound(m), 1
  {
    assert Enumerates(order(m), m);
    assert m == map[] ==> EncodeEntriesFrom(m, order(m), 0, order) == Ok([]);
    assert [] + [Id(TagEnd) as u8] == [0];
    Cat(EncodeEntriesFrom(m, order(m), 0, order), Ok([Id(TagEnd) as u8]))
  }

  /** The entries of `m` under the keys `ks[i..]`. */
  function EncodeEntriesFrom(m: map<JString, Value>, ks: seq<JString>, i: nat, order: Order): Result<seq<u8>>
    requires i <= |ks| && (forall j :: 0 <= j < |ks| ==> ks[j] in m) && ValidOrder(order)
    decreases Compound(m), 0, |ks| - i
  {
    if i == |ks| then Ok([])
    else Cat(EncodeTag(ks[i], m[ks[i]], order), EncodeEntriesFrom(m, ks, i + 1, order))
  }

  /** `writeTag(key, value)`: the kind `TagType.from(value.getClass())`, which must exist,
      as an id byte, then the key, then the payload. */
  function EncodeTag(key: JString, v: Value, order: Order): (r: Result<seq<u8>>)
    requires ValidOrder(order)
    ensures v.Null? ==> r == Err(NullPointer)
    ensures r.Ok? ==> !v.Null? && |r.value| >= 3 && r.value[0] == Id(Shape(v)) as u8
    decreases v, 3
  {
    if v.Null? then Err(NullPointer)
    else
      match KindOf(v)
      case None => Err(UnmappedClass(ClassOf(v)))
      case Some(t) => Cat(Ok([Id(t) as u8]), Cat(EncodeUtf(key), EncodeValue(t, v, order)))
  }

  /** An entry the writer can write is its kind's id, the key, then the payload; the
      kind is the one of the value's shape, and the value is not an `Integer`. */
  lemma TagLayout(key: JString, v: Value, order: Order)
    requires ValidOrder(order) && EncodeTag(key, v, order).Ok?
    ensures !v.Null? && !v.Int? && KindOf(v) == Some(Shape(v)) && |key| < 0x1_0000
    ensures EncodeValue(Shape(v), v, order).Ok?
    ensures EncodeTag(key, v, order).value == [Id(Shape(v)) as u8] + (Utf(key) + EncodeValue(Shape(v), v, order).value)
  {
  }

  /** `write(nbt)` of a compound named `name` holding `m`: the compound id 10, the
      name, then the body. `getName()` throws for a compound without a name, after the
      id has been written. */
  function EncodeRoot(name: Option<JString>, m: map<JString, Value>, order: Order): (r: Result<seq<u8>>)
    requires ValidOrder(order)
    ensures name.None? ==> r == Err(NullPointer)
    ensures r.Ok? ==> name.Some? && |r.value| >= 4 && r.value[0] == 10 && r.value[|r.value| - 1] == 0
  {
    match name
    case None => Err(NullPointer)
    case Some(n) => Cat(Ok([Id(TagCompound) as u8]), Cat(EncodeUtf(n), EncodeCompound(m, order)))
  }

  // ---------------------------------------------------------------------
  // Properties of the encoder

  /** An `Integer` cannot be written as an entry: `TagType.from(Integer.class)` is
      `null`, so `writeTag` throws. */
  lemma IntegerNotWritable(key: JString, x: i32, order: Order)
    requires ValidOrder(order)
    ensures EncodeTag(key, Int(x), order) == Err(UnmappedClass(Boxed(IntType)))
  {
  }

  /** One entry that cannot be written makes its whole compound fail (with the first
      failure in iteration order, which may be another entry's). */
  lemma {:induction false} EntryFailureFails(m: map<JString, Value>, ks: seq<JString>, i: nat, j: nat, order: Order)
    requires ValidOrder(order) && i <= j < |ks| && (forall n :: 0 <= n < |ks| ==> ks[n] in m)
    requires EncodeTag(ks[j], m[ks[j]], order).Err?
    ensures EncodeEntriesFrom(m, ks, i, order).Err?
    decreases j - i
  {
    if i < j {
      EntryFailureFails(m, ks, i + 1, j, order);
    }
  }

  /** So a compound holding an `Integer` under any key cannot be written. */
  lemma CompoundWithIntegerFails(m: map<JString, Value>, k: JString, order: Order)
    requires ValidOrder(order) && k in m && m[k].Int?
    ensures EncodeCompound(m, order).Err?
  {
    var ks := order(m);
    assert k in ks;
    var j :| 0 <= j < |ks| && ks[j] == k;
    IntegerNotWritable(k, m[k].i, order);
    EntryFailureFails(m, ks, 0, j, order);
  }

  /** Every compound body the writer completes ends with the single byte 0. */
  lemma CompoundEnds(m: map<JString, Value>, order: Order)
    requires ValidOrder(order) && EncodeCompound(m, order).Ok?
    ensures var b := EncodeCompound(m, order).value;
      |b| >= 1 && b[|b| - 1] == 0 && b == EncodeEntriesFrom(m, order(m), 0, order).value + [0]
  {
  }

  /** A list starts with the declared kind's id and then its size as one byte, so a
      list of 256 elements announces 0. */
  lemma ListHeader(v: Value, order: Order)
    requires v.List? && ValidOrder(order) && EncodeList(v, order).Ok?
    ensures var b := EncodeList(v, order).value;
      |b| >= 2 && b[0] == Id(v.kind) && b[1] == |v.elems| % 0x100
    ensures |v.elems| == 0x100 ==> EncodeList(v, order).value[1] == 0
  {
  }

  /** The scalars take 1, 2, 4, 8, 4 and 8 bytes, the widths the reader reads. */
  lemma ScalarLayout(v: Value, order: Order)
    requires ValidOrder(order) && (v.Byte? || v.Short? || v.Int? || v.Long? || v.Float? || v.Double?)
    ensures EncodeValue(Shape(v), v, order).Ok?
    ensures |EncodeValue(Shape(v), v, order).value| == ScalarWidth(Shape(v))
  {
    InRangeWidths();
  }

  /** The array length as `writeInt` writes it, for a length Java can hold. */
  lemma LengthIsSigned(n: nat)
    requires n <= MaxLength
    ensures InRange(n, 4) && Length(n) == Signed(n, 4)
  {
    Pow256Widths();
  }

  /** Element `i` of an array sits at bytes `4 + i·w` to `4 + (i+1)·w`, after the
      4-byte length. */
  lemma ArrayLayout(xs: seq<int>, w: nat, i: nat)
    requires (forall j :: 0 <= j < |xs| ==> InRange(xs[j], w)) && |xs| <= MaxLength && i < |xs|
    ensures var b := EncodeArray(xs, w);
      b[..4] == Signed(|xs|, 4) && 4 + (i + 1) * w <= |b| && b[4 + i * w..4 + (i + 1) * w] == Signed(xs[i], w)
  {
    LengthIsSigned(|xs|);
    WordAt(xs, w, i);
    var lo, hi := i * w, (i + 1) * w;
    SliceAfter(Length(|xs|), Words(xs, w), lo, hi);
    assert EncodeArray(xs, w)[..4] == Length(|xs|);
  }

  lemma SliceAfter(a: seq<u8>, c: seq<u8>, lo: nat, hi: nat)
    requires lo <= hi <= |c|
    ensures (a + c)[|a| + lo..|a| + hi] == c[lo..hi]
  {
  }

  lemma {:induction false} WordAt(xs: seq<int>, w: nat, i: nat)
    requires (forall j :: 0 <= j < |xs| ==> InRange(xs[j], w)) && i < |xs|
    ensures (i + 1) * w <= |Words(xs, w)| && Words(xs, w)[i * w..(i + 1) * w] == Signed(xs[i], w)
    decreases |xs|
  {
    var n := |xs|;
    var init := xs[..n - 1];
    assert Words(xs, w) == Words(init, w) + Signed(xs[n - 1], w);
    if i < n - 1 {
      WordAt(init, w, i);
      MulMono(i + 1, n - 1, w);
    } else {
      assert i * w == |Words(init, w)|;
    }
  }
}
