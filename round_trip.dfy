/**
 * What the reader makes of what the writer wrote. A root compound whose tree holds
 * no `NBTList` reads back as exactly the entries written, whatever order the
 * entries were written in; a list does not, because the writer gives its size one
 * byte where the reader expects four.
 */
module RoundTrip {
  import opened Options
  import opened Bytes
  import opened TagTypes
  import opened Values
  import opened Decoding
  import opened Encoding

  /** The entries of a compound that starts as `acc` after `set(m[k], k)` for each key
      `k` of `ks[i..]` in turn, as `readCompound` stores them. */
  function Stored(acc: map<JString, Value>, m: map<JString, Value>, ks: seq<JString>, i: nat): map<JString, Value>
    requires i <= |ks| && forall j :: 0 <= j < |ks| ==> ks[j] in m
    decreases |ks| - i
  {
    if i == |ks| then acc else Stored(acc[ks[i] := m[ks[i]]], m, ks, i + 1)
  }

  /** The keys stored are the earlier ones and `ks[i..]`; each of `ks[i..]` holds its
      value in `m`, each other key keeps its earlier value. */
  lemma {:induction false} StoredEntries(acc: map<JString, Value>, m: map<JString, Value>, ks: seq<JString>, i: nat)
    requires i <= |ks| && forall j :: 0 <= j < |ks| ==> ks[j] in m
    ensures forall k :: k in Stored(acc, m, ks, i) <==> k in acc || k in ks[i..]
    ensures forall k :: k in ks[i..] ==> Stored(acc, m, ks, i)[k] == m[k]
    ensures forall k :: k in acc && k !in ks[i..] ==> Stored(acc, m, ks, i)[k] == acc[k]
    decreases |ks| - i
  {
    if i < |ks| {
      StoredEntries(acc[ks[i] := m[ks[i]]], m, ks, i + 1);
      assert ks[i..] == [ks[i]] + ks[i + 1..];
    }
  }

  /** Storing every key of `m`, starting from nothing, rebuilds `m`. */
  lemma StoredAll(m: map<JString, Value>, ks: seq<JString>)
    requires Enumerates(ks, m)
    ensures Stored(map[], m, ks, 0) == m
  {
    StoredEntries(map[], m, ks, 0);
    assert ks[0..] == ks;
  }

  lemma ScalarRoundTrip(x: int, n: nat, rest: seq<u8>)
    requires InRange(x, n)
    ensures ReadSigned(Signed(x, n) + rest, n) == Ok((x, rest))
  {
    var s := Signed(x, n) + rest;
    assert s[..n] == Signed(x, n) && s[n..] == rest;
    SignedRoundTrip(x, n);
  }

  /** The writer's element loop, seen from the front. */
  lemma {:induction false} WordsCons(xs: seq<int>, w: nat)
    requires |xs| > 0 && forall i :: 0 <= i < |xs| ==> InRange(xs[i], w)
    ensures Words(xs, w) == Signed(xs[0], w) + Words(xs[1..], w)
    decreases |xs|
  {
    var n := |xs|;
    if n == 1 {
      assert xs[..0] == [] && xs[1..] == [];
    } else {
      var init := xs[..n - 1];
      WordsCons(init, w);
      assert init[1..] == xs[1..][..n - 2];
      // The tail ends with the same last element as `xs`, after `init`'s own tail.
      assert Words(xs[1..], w) == Words(init[1..], w) + Signed(xs[n - 1], w);
      Assoc(Signed(xs[0], w), Words(init[1..], w), Signed(xs[n - 1], w));
    }
  }

  /** The array readers' element loop reads back the elements the writers' loop wrote. */
  lemma {:induction false} WordsRoundTrip(xs: seq<int>, w: nat, rest: seq<u8>, acc: seq<int>)
    requires w > 0 && forall i :: 0 <= i < |xs| ==> InRange(xs[i], w)
    ensures DecodeWords(|xs|, w, Words(xs, w) + rest, acc) == Ok((acc + xs, rest))
    decreases |xs|
  {
    if xs == [] {
      assert acc + [] == acc;
    } else {
      WordsCons(xs, w);
      var tail := Words(xs[1..], w) + rest;
      Assoc(Signed(xs[0], w), Words(xs[1..], w), rest);
      ScalarRoundTrip(xs[0], w, tail);
      DecodeWordsStep(|xs|, w, xs[0], tail, acc);
      WordsRoundTrip(xs[1..], w, rest, acc + [xs[0]]);
      assert acc + [xs[0]] + xs[1..] == acc + xs;
    }
  }

  lemma DecodeWordsStep(n: nat, w: nat, x: int, tail: seq<u8>, acc: seq<int>)
    requires n > 0 && InRange(x, w)
    ensures DecodeWords(n, w, Signed(x, w) + tail, acc) == DecodeWords(n - 1, w, tail, acc + [x])
  {
    ScalarRoundTrip(x, w, tail);
  }

  /** An array Java can hold reads back as written. */
  lemma ArrayRoundTrip(xs: seq<int>, w: nat, rest: seq<u8>)
    requires w > 0 && forall i :: 0 <= i < |xs| ==> InRange(xs[i], w)
    requires |xs| <= MaxLength
    ensures DecodeArray(w, EncodeArray(xs, w) + rest) == Ok((xs, rest))
  {
    InRangeWidths();
    LengthIsSigned(|xs|);
    var tail := Words(xs, w) + rest;
    assert EncodeArray(xs, w) + rest == Signed(|xs|, 4) + tail;
    ScalarRoundTrip(|xs|, 4, tail);
    WordsRoundTrip(xs, w, rest, []);
    assert [] + xs == xs;
  }

  /** A payload the writer could write, for the kind of the value's shape, reads back
      as the same value. */
  lemma {:induction false} ValueRoundTrip(t: TagType, v: Value, rest: seq<u8>, order: Order)
    requires ValidOrder(order) && !v.Null? && Shape(v) == t
    requires ListFree(v) && Representable(v)
    requires EncodeValue(t, v, order).Ok?
    ensures DecodeTag(t, EncodeValue(t, v, order).value + rest) == Ok((v, rest))
    decreases v, 1
  {
    InRangeWidths();
    if v.Byte? {
      ScalarRoundTrip(v.b, 1, rest);
    } else if v.Short? {
      ScalarRoundTrip(v.s, 2, rest);
    } else if v.Int? {
      ScalarRoundTrip(v.i, 4, rest);
    } else if v.Long? {
      ScalarRoundTrip(v.l, 8, rest);
    } else if v.Float? {
      ScalarRoundTrip(v.fbits, 4, rest);
    } else if v.Double? {
      ScalarRoundTrip(v.dbits, 8, rest);
    } else if v.ByteArray? {
      ArrayRoundTrip(v.bytes, 1, rest);
    } else if v.String? {
      UtfRoundTrip(v.str, rest);
    } else if v.Compound? {
      var m := v.entries;
      var ks := order(m);
      EntriesRoundTrip(m, ks, 0, map[], rest, order);
      StoredAll(m, ks);
      assert EncodeValue(t, v, order).value + rest == EncodeEntriesFrom(m, ks, 0, order).value + [0] + rest;
    } else if v.IntArray? {
      ArrayRoundTrip(v.ints, 4, rest);
    } else {
      ArrayRoundTrip(v.longs, 8, rest);
    }
  }

  /** The list elements from index `i` on, written one payload after the other with
      no ids or keys, read back as the next elements of the list being built. */
  lemma {:induction false} ElemsRoundTrip(v: Value, i: nat, acc: seq<Value>, rest: seq<u8>, order: Order)
    requires ValidOrder(order) && v.List? && v.kind != TagEnd && i <= |v.elems|
    requires forall j :: 0 <= j < |v.elems| ==> ListFree(v.elems[j]) && Representable(v.elems[j])
    requires EncodeElemsFrom(v, i, order).Ok?
    ensures DecodeElems(v.kind, |v.elems| - i, EncodeElemsFrom(v, i, order).value + rest, acc)
      == Ok((acc + v.elems[i..], rest))
    decreases |v.elems| - i
  {
    if i == |v.elems| {
      assert EncodeElemsFrom(v, i, order).value + rest == rest;
      assert acc + v.elems[i..] == acc;
    } else {
      var e := v.elems[i];
      var payload := EncodeValue(v.kind, e, order).value;
      var more := EncodeElemsFrom(v, i + 1, order).value;
      assert EncodeElemsFrom(v, i, order).value == payload + more;
      Assoc(payload, more, rest);
      ValueRoundTrip(v.kind, e, more + rest, order);
      ElemsRoundTrip(v, i + 1, acc + [e], rest, order);
      assert acc + [e] + v.elems[i + 1..] == acc + v.elems[i..];
    }
  }

  /** `writeList` and `readList` agree on everything but the width of the count: the
      writer emits the kind's id, one count byte and the payloads with no ids or keys;
      the same id and payloads behind a 4-byte count read back as the list. */
  lemma ListRoundTrip(v: Value, rest: seq<u8>, order: Order)
    requires ValidOrder(order) && v.List? && v.kind != TagEnd && |v.elems| <= MaxLength
    requires forall j :: 0 <= j < |v.elems| ==> ListFree(v.elems[j]) && Representable(v.elems[j])
    requires EncodeElemsFrom(v, 0, order).Ok?
    ensures EncodeList(v, order) == Ok([Id(v.kind) as u8, LowByte(|v.elems|)] + EncodeElemsFrom(v, 0, order).value)
    ensures DecodeList([Id(v.kind) as u8] + Signed(|v.elems|, 4) + EncodeElemsFrom(v, 0, order).value + rest)
      == Ok((v, rest))
  {
    var n := |v.elems|;
    var elems := EncodeElemsFrom(v, 0, order).value;
    var count := Signed(n, 4);
    LengthIsSigned(n);
    Assoc([Id(v.kind) as u8], count, elems);
    Assoc([Id(v.kind) as u8], count + elems, rest);
    Assoc(count, elems, rest);
    TypeIds(Id(v.kind) as u8, count + (elems + rest));
    FromIdOfId(v.kind);
    ScalarRoundTrip(n, 4, elems + rest);
    ElemsRoundTrip(v, 0, [], rest, order);
    assert [] + v.elems[0..] == v.elems;
  }

  /** A list declared `END` writes no payload for its elements, whatever they are. */
  lemma {:induction false} EndElemsWriteNothing(v: Value, i: nat, order: Order)
    requires ValidOrder(order) && v.List? && v.kind == TagEnd && i <= |v.elems|
    ensures EncodeElemsFrom(v, i, order) == Ok([])
    decreases |v.elems| - i
  {
    if i < |v.elems| {
      EndElemsWriteNothing(v, i + 1, order);
      assert EncodeValue(TagEnd, v.elems[i], order) == Ok([]);
      var none: seq<u8> := [];
      assert none + none == none;
    }
  }

  /** A list declared `END` is written as its id and one count byte only; behind a 4-byte
      count those bytes read back as the same number of `null`s, so its elements are lost. */
  lemma EndListRoundTrip(v: Value, rest: seq<u8>, order: Order)
    requires ValidOrder(order) && v.List? && v.kind == TagEnd && |v.elems| <= MaxLength
    ensures EncodeList(v, order) == Ok([0, LowByte(|v.elems|)])
    ensures DecodeList([0] + Signed(|v.elems|, 4) + rest) == Ok((List(TagEnd, Nulls(|v.elems|)), rest))
  {
    var n := |v.elems|;
    EndElemsWriteNothing(v, 0, order);
    assert [Id(TagEnd) as u8, LowByte(n)] + [] == [0, LowByte(n)];
    LengthIsSigned(n);
    Assoc([0], Signed(n, 4), rest);
    TypeIds(0, Signed(n, 4) + rest);
    ScalarRoundTrip(n, 4, rest);
    EndListOfNulls(n, rest, []);
    assert [] + Nulls(n) == Nulls(n);
  }

  /** One entry of a compound body: its kind id, its key and a payload that reads as
      `v` are stored as `set(v, k)`, and the body goes on after them. */
  lemma DecodeEntry(t: TagType, k: JString, payload: seq<u8>, v: Value, tail: seq<u8>, acc: map<JString, Value>)
    requires t != TagEnd && |k| < 0x1_0000
    requires DecodeTag(t, payload + tail) == Ok((v, tail))
    ensures DecodeEntries([Id(t) as u8] + (Utf(k) + (payload + tail)), acc) == DecodeEntries(tail, acc[k := v])
  {
    TypeIds(Id(t) as u8, Utf(k) + (payload + tail));
    FromIdOfId(t);
    UtfRoundTrip(k, payload + tail);
  }

  /** Kind id 0 ends a compound body. */
  lemma DecodeEnd(rest: seq<u8>, acc: map<JString, Value>)
    ensures DecodeEntries([0] + rest, acc) == Ok((acc, rest))
  {
    TypeIds(0, rest);
  }

  /** The entries under `ks[i..]` followed by the end byte read back into the compound
      being built as `set` would store them. */
  lemma {:induction false} EntriesRoundTrip(m: map<JString, Value>, ks: seq<JString>, i: nat, acc: map<JString, Value>,
                                            rest: seq<u8>, order: Order)
    requires ValidOrder(order) && i <= |ks| && (forall j :: 0 <= j < |ks| ==> ks[j] in m)
    requires ListFree(Compound(m)) && Representable(Compound(m))
    requires EncodeEntriesFrom(m, ks, i, order).Ok?
    ensures DecodeEntries(EncodeEntriesFrom(m, ks, i, order).value + [0] + rest, acc) == Ok((Stored(acc, m, ks, i), rest))
    decreases Compound(m), 0, |ks| - i
  {
    if i == |ks| {
      DecodeEnd(rest, acc);
      assert EncodeEntriesFrom(m, ks, i, order).value + [0] + rest == [0] + rest;
    } else {
      var k := ks[i];
      var v := m[k];
      TagLayout(k, v, order);
      var t := Shape(v);
      var payload := EncodeValue(t, v, order).value;
      var entry := EncodeTag(k, v, order).value;
      var more := EncodeEntriesFrom(m, ks, i + 1, order).value;
      var tail := more + [0] + rest;
      assert EncodeEntriesFrom(m, ks, i, order).value == entry + more;
      Assoc(entry, more, [0]);
      Assoc(entry, more + [0], rest);
      Assoc([Id(t) as u8], Utf(k) + payload, tail);
      Assoc(Utf(k), payload, tail);
      ValueRoundTrip(t, v, tail, order);
      DecodeEntry(t, k, payload, v, tail, acc);
      EntriesRoundTrip(m, ks, i + 1, acc[k := v], rest, order);
    }
  }

  /** Reading back what `write` wrote for a named compound with no `NBTList` in it
      gives its entries and leaves whatever followed. */
  lemma WriteThenRead(name: JString, m: map<JString, Value>, order: Order, rest: seq<u8>)
    requires ValidOrder(order) && ListFree(Compound(m)) && Representable(Compound(m))
    requires EncodeRoot(Some(name), m, order).Ok?
    ensures DecodeRoot(EncodeRoot(Some(name), m, order).value + rest) == Ok((m, rest))
  {
    var ks := order(m);
    var entries := EncodeEntriesFrom(m, ks, 0, order).value;
    var body := entries + [0] + rest;
    assert EncodeCompound(m, order).value == entries + [0];
    assert EncodeRoot(Some(name), m, order).value == [10] + (Utf(name) + (entries + [0]));
    Assoc([10], Utf(name), entries + [0]);
    Assoc([10] + Utf(name), entries + [0], rest);
    RootCompound(name, body);
    EntriesRoundTrip(m, ks, 0, map[], rest, order);
    StoredAll(m, ks);
  }

  lemma TwoKeys(ks: seq<JString>, m: map<JString, Value>)
    requires Enumerates(ks, m) && |ks| > 1
    ensures ks[0] in m && ks[1] in m && ks[0] != ks[1]
  {
  }

  /** A map with one key is enumerated in one way only. */
  lemma SingleKey(ks: seq<JString>, k: JString, v: Value)
    requires Enumerates(ks, map[k := v])
    ensures ks == [k]
  {
    assert k in ks;
    if |ks| > 1 {
      TwoKeys(ks, map[k := v]);
      assert false;
    }
  }

  /** A list does not survive: `{k: [x]}`, a list of one byte, is written as the
      root id, the name, then 9, the key, 1 (the element kind), 1 (the size) and the
      byte, then 0; the reader, after the element kind, wants a 4-byte count where only
      3 bytes are left. */
  lemma ListBreaksRoundTrip(name: JString, k: JString, x: i8, order: Order)
    requires ValidOrder(order) && |name| < 0x1_0000 && |k| < 0x1_0000
    ensures var v := List(TagByte, [Byte(x)]);
      var bytes := [10] + Utf(name) + [9] + Utf(k) + [1, 1] + Signed(x, 1) + [0];
      EncodeRoot(Some(name), map[k := v], order) == Ok(bytes)
      && DecodeRoot(bytes) == Err(EndOfStream)
  {
    InRangeWidths();
    var v := List(TagByte, [Byte(x)]);
    var m := map[k := v];
    SingleKey(order(m), k, v);

    var p := Signed(x, 1);
    var l := [1, 1] + p;
    OneByteList(x, order);
    var tag := [9] + (Utf(k) + l);
    assert EncodeTag(k, v, order) == Ok(tag);
    assert EncodeEntriesFrom(m, [k], 0, order) == Ok(tag) by {
      assert EncodeEntriesFrom(m, [k], 1, order) == Ok([]);
      assert tag + [] == tag;
    }
    assert EncodeCompound(m, order) == Ok(tag + [0]);
    assert EncodeRoot(Some(name), m, order) == Ok([10] + (Utf(name) + (tag + [0])));
    Regroup([10], Utf(name), [9], Utf(k), [1, 1], p, [0]);
    ShortListCount(name, k, x);
  }

  /** `[x]` as a list of bytes: kind 1, size 1, the byte. */
  lemma OneByteList(x: i8, order: Order)
    requires ValidOrder(order)
    ensures EncodeList(List(TagByte, [Byte(x)]), order) == Ok([1, 1] + Signed(x, 1))
  {
    InRangeWidths();
    var v := List(TagByte, [Byte(x)]);
    var p := Signed(x, 1);
    assert EncodeElemsFrom(v, 1, order) == Ok([]);
    assert EncodeValue(TagByte, Byte(x), order) == Ok(p);
    assert p + [] == p;
    assert EncodeElemsFrom(v, 0, order) == Ok(p);
  }

  lemma Regroup(a: seq<u8>, b: seq<u8>, c: seq<u8>, d: seq<u8>, e: seq<u8>, f: seq<u8>, g: seq<u8>)
    ensures a + (b + ((c + (d + (e + f))) + g)) == a + b + c + d + e + f + g
  {
  }

  /** The stream of the lemma above ends inside the list's count. */
  lemma ShortListCount(name: JString, k: JString, x: i8)
    requires |name| < 0x1_0000 && |k| < 0x1_0000
    ensures DecodeRoot([10] + Utf(name) + [9] + Utf(k) + [1, 1] + Signed(x, 1) + [0]) == Err(EndOfStream)
  {
    var list := [1, 1] + Signed(x, 1) + [0];
    ListCountCut(x);
    RootEntryFails(name, TagList, k, list);
    assert [10] + Utf(name) + [9] + Utf(k) + [1, 1] + Signed(x, 1) + [0]
        == [10] + Utf(name) + ([Id(TagList) as u8] + (Utf(k) + list));
  }

  /** A root whose first entry cannot be read fails. */
  lemma RootEntryFails(name: JString, t: TagType, k: JString, payload: seq<u8>)
    requires t != TagEnd && |name| < 0x1_0000 && |k| < 0x1_0000
    requires DecodeTag(t, payload).Err?
    ensures DecodeRoot([10] + Utf(name) + ([Id(t) as u8] + (Utf(k) + payload))) == Err(DecodeTag(t, payload).error)
  {
    RootCompound(name, [Id(t) as u8] + (Utf(k) + payload));
    DecodeEntryFails(t, k, payload, map[]);
  }

  lemma ListCountCut(x: i8)
    ensures DecodeList([1, 1] + Signed(x, 1) + [0]) == Err(EndOfStream)
  {
    InRangeWidths();
    var list := [1, 1] + Signed(x, 1) + [0];
    TypeIds(1, list[1..]);
    assert list == [1] + list[1..];
  }

  /** An entry whose payload cannot be read fails the whole compound. */
  lemma DecodeEntryFails(t: TagType, k: JString, payload: seq<u8>, acc: map<JString, Value>)
    requires t != TagEnd && |k| < 0x1_0000
    requires DecodeTag(t, payload).Err?
    ensures DecodeEntries([Id(t) as u8] + (Utf(k) + payload), acc) == Err(DecodeTag(t, payload).error)
  {
    TypeIds(Id(t) as u8, Utf(k) + payload);
    FromIdOfId(t);
    UtfRoundTrip(k, payload);
  }

  /** A compound body that repeats a key keeps the value read last. */
  lemma LastKeyWins(k: JString, x: i8, y: i8, rest: seq<u8>, acc: map<JString, Value>)
    requires |k| < 0x1_0000
    ensures DecodeEntries([1] + (Utf(k) + (Signed(x, 1) +
                          ([1] + (Utf(k) + (Signed(y, 1) +
                          ([0] + rest)))))), acc)
         == Ok((acc[k := Byte(y)], rest))
  {
    InRangeWidths();
    var tail2 := [0] + rest;
    var tail1 := [1] + (Utf(k) + (Signed(y, 1) + tail2));
    ScalarRoundTrip(x, 1, tail1);
    DecodeEntry(TagByte, k, Signed(x, 1), Byte(x), tail1, acc);
    ScalarRoundTrip(y, 1, tail2);
    DecodeEntry(TagByte, k, Signed(y, 1), Byte(y), tail2, acc[k := Byte(x)]);
    DecodeEnd(rest, acc[k := Byte(x)][k := Byte(y)]);
    assert acc[k := Byte(x)][k := Byte(y)] == acc[k := Byte(y)];
  }
}
