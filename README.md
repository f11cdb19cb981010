# enbeet core, modelled in Dafny

enbeet is a small Java library for Minecraft's NBT ("Named Binary Tag") format.
This project models its core and proves properties of that model:

- the tag kind registry `TagType`;
- the tree classes `NBTCompound` and `NBTList`;
- the stream codec `NBTReader` / `NBTWriter`.

The tree's contents are one datatype, `Values.Value`. It covers `null`, the six boxed
scalars, the three primitive arrays, `String`, lists and compounds. A Java `String` is
given by its modified UTF-8 bytes. `float` and `double` are carried as their IEEE bit
patterns.

`NBTCompound`, `NBTList`, `NBTReader` and `NBTWriter` are classes whose fields the
methods update:

- `NBTReader` holds the bytes not yet read.
- `NBTWriter` holds the bytes written so far.

Each reader and writer method is proved against a function on byte sequences:

- `Decoding.DecodeRoot` and the functions below it give what each read returns and
  the bytes it leaves.
- `Encoding.EncodeRoot` and the functions below it give what each write appends.

Java's `HashMap` iteration order is a parameter of the writer, `Encoding.Order`. It may
be any order that lists every key exactly once (`ValidOrder`).

The model follows the code as written, including behaviour that looks unintended:

- `TagType.unboxType` maps `Integer.class` to itself rather than to `int.class`:
  - `NBTList.getInt` never returns anything (`Lists.GetIntNeverFinds`);
  - no `Integer` can be written (`Encoding.IntegerNotWritable`,
    `Encoding.CompoundWithIntegerFails`).
- `getName()` is `Optional.of(name)`. So it throws for an unnamed compound, and
  `write` cannot write the unnamed compound that `read` returns.
- `writeList` writes the element count as one byte, but `readList` reads four. So the
  reader takes three bytes beyond the ones written for the count. At the end of the
  stream the read fails (`RoundTrip.ListBreaksRoundTrip`); elsewhere the three bytes
  that follow are read as part of the count. Apart from the count, writer and reader
  agree on the layout of a list of a declared kind other than END whose elements hold
  no list (`RoundTrip.ListRoundTrip`). A list declared END is written without its
  elements and reads back as that many `null`s (`RoundTrip.EndListRoundTrip`). The general round trip
  `RoundTrip.WriteThenRead` is therefore stated for trees without lists.
- A negative list count reads as an empty list. A negative array count throws.
- `getVarIntArray` reads the bytes E5 8E 26 as 624485 = 0x65 + 0x0E·2^7 + 0x26·2^14
  (`Compounds.VarIntExample`).

Source paths below are relative to the repository root.

## Model

| member | source | states |
|---|---|---|
| TagTypes.Id | src/main/java/org/mattrick/enbeet/TagType.java:12-24 | every kind's id is one of 0..12 |
| TagTypes.IdsInDeclarationOrder | src/main/java/org/mattrick/enbeet/TagType.java:12-24 | `values()` has thirteen constants; the i-th has id i, and every kind is among them |
| TagTypes.IdsAndTypesDistinct | src/main/java/org/mattrick/enbeet/TagType.java:26-30 | no two kinds share an id or a class, so collecting them into the two maps loses none |
| TagTypes.IdMapKeys | src/main/java/org/mattrick/enbeet/TagType.java:26-27 | `ID_MAP` has exactly the keys 0..12 and maps each kind's id to that kind |
| TagTypes.TypeMapKeys | src/main/java/org/mattrick/enbeet/TagType.java:29-30 | `TYPE_MAP` has exactly the thirteen registered classes as keys, each mapped to its kind |
| TagTypes.FromIdOfId | src/main/java/org/mattrick/enbeet/TagType.java:59-61 | `from(t.getId())` is `t` for every kind |
| TagTypes.FromId | src/main/java/org/mattrick/enbeet/TagType.java:59-61 | `from(id)` finds a kind exactly for ids 0..12, and that kind has the id asked for |
| TagTypes.UnboxType | src/main/java/org/mattrick/enbeet/TagType.java:68-92 | the only boxed class it returns is `Integer`, given for `Integer` itself; every other boxed class becomes its primitive, and a class that is not boxed is returned unchanged |
| TagTypes.FromClass | src/main/java/org/mattrick/enbeet/TagType.java:63-66 | a kind found for a class is the one whose `getType()` is the unboxed class; a class the registry does not name finds none |
| TagTypes.FromClassOfType | src/main/java/org/mattrick/enbeet/TagType.java:63-66 | a registered class passes `unboxType` unchanged, and `from(t.getType())` is `t` |
| TagTypes.FromBoxedClass | src/main/java/org/mattrick/enbeet/TagType.java:63-92 | `Void`, `Byte`, `Short`, `Long`, `Float`, `Double` find their primitive's kind; `Integer` finds none |
| TagTypes.FromClassNone | src/main/java/org/mattrick/enbeet/TagType.java:63-92 | `from(Class)` finds a kind if and only if the class is registered or is one of the six boxed classes that unbox |
| Values.Cast | src/main/java/org/mattrick/enbeet/NBTCompound.java:111-120 | the caught cast never gives anything but the value; `null` and primitive classes give nothing; for a class the registry names it gives the value exactly when that is the value's own class; `Object.class` accepts every value, and `ArrayList.class` every list |
| Values.KindOf | src/main/java/org/mattrick/enbeet/io/NBTWriter.java:61-65 | a stored value has a kind if and only if it is not an `Integer`, and that kind matches the value's shape |
| Values.AccessorMatchesShape | src/main/java/org/mattrick/enbeet/NBTCompound.java:127-228 | each typed getter's cast succeeds on a value exactly when the value's shape is the getter's kind |
| Values.AccessorKind | src/main/java/org/mattrick/enbeet/NBTList.java:65-166 | `TagType.from` of each getter's class is the getter's kind, except `getInt`, whose class has no kind |
| Lists.NBTList.constructor | src/main/java/org/mattrick/enbeet/NBTList.java:17-19 | a new list has the given kind and no elements |
| Lists.NBTList.Add | src/main/java/org/mattrick/enbeet/NBTList.java:9 | the inherited `add` appends any value, whatever the declared kind |
| Lists.NBTList.Get | src/main/java/org/mattrick/enbeet/NBTList.java:34-36 | succeeds exactly for an index inside the list holding a non-null element; otherwise index-out-of-bounds, or a null pointer for a stored `null` |
| Lists.NBTList.GetTyped | src/main/java/org/mattrick/enbeet/NBTList.java:46-58 | empty when the class's kind is not the declared kind (checked before the index); otherwise it fails as `get(index)` fails, and a found value is that element and an instance of the class |
| Lists.NBTList.GetAs | src/main/java/org/mattrick/enbeet/NBTList.java:65-166 | what a typed getter returns has the getter's kind |
| Lists.GetIntNeverFinds | src/main/java/org/mattrick/enbeet/NBTList.java:83-85 | `getInt` is empty at every index of every list |
| Lists.GetAsFinds | src/main/java/org/mattrick/enbeet/NBTList.java:46-58 | any other getter finds the element at `i` if and only if the list's kind and the element's shape are the getter's kind; on a list of another kind it is empty even outside the list |
| Lists.PrimitiveClassNeverFinds | src/main/java/org/mattrick/enbeet/NBTList.java:46-58 | asking for a primitive class such as `byte.class` never finds a value |
| Compounds.NBTCompound.constructor | src/main/java/org/mattrick/enbeet/NBTCompound.java:16-18 | a new compound has no name and no entries |
| Compounds.NBTCompound.Named | src/main/java/org/mattrick/enbeet/NBTCompound.java:23-25 | a new compound with the given name and no entries |
| Compounds.NBTCompound.GetName | src/main/java/org/mattrick/enbeet/NBTCompound.java:31-33 | gives the name when there is one, and a null pointer for an unnamed compound |
| Compounds.NBTCompound.SetName | src/main/java/org/mattrick/enbeet/NBTCompound.java:39-41 | the name is replaced and the entries are kept |
| Compounds.NBTCompound.Set | src/main/java/org/mattrick/enbeet/NBTCompound.java:48-72 | the loop computes `SetPath` of the old entries; an empty path throws index-out-of-bounds and changes nothing; the name is kept |
| Compounds.GetAfterSet | src/main/java/org/mattrick/enbeet/NBTCompound.java:48-102 | after `set(v, path)`, `path` leads to `v`, and `get(path)` returns it or throws for `null` |
| Compounds.SetAlongPath | src/main/java/org/mattrick/enbeet/NBTCompound.java:56-68 | after `set`, each proper prefix of the path leads to a compound that keeps every other entry of the old one and gains the next key |
| Compounds.SetLeavesOthers | src/main/java/org/mattrick/enbeet/NBTCompound.java:48-72 | `set` leaves unchanged whatever a path diverging from the set path leads to |
| Compounds.SetOnEmpty | src/main/java/org/mattrick/enbeet/NBTCompound.java:56-68 | `set(v, a, b, c)` on an empty compound builds `{a: {b: {c: v}}}` |
| Compounds.Walk | src/main/java/org/mattrick/enbeet/NBTCompound.java:84-99 | the empty path reaches the value itself; a longer path reaches something only through a compound holding its first key, so nothing but a compound has anything below it |
| Compounds.SetPath | src/main/java/org/mattrick/enbeet/NBTCompound.java:48-72 | `set` adds the first key and no other at the top, keeps every other top entry, binds the last key to the value, and puts a compound under a key that is not the last |
| Compounds.WalkAppend | src/main/java/org/mattrick/enbeet/NBTCompound.java:84-99 | walking `p + q` is walking `p` and then `q` |
| Compounds.GetTypedIn | src/main/java/org/mattrick/enbeet/NBTCompound.java:111-120 | `get(Class, path)` on a compound's entries (the definition `Compounds.NBTCompound.GetTyped` applies to its own): fails exactly when `get(path)` fails; keeps the found value exactly when it is an instance of the class; with `Object.class` it is `get(path)` |
| Compounds.GetIn | src/main/java/org/mattrick/enbeet/NBTCompound.java:79-102 | `get(path)` is the walk's result; it throws exactly when the walk ends at a stored `null` |
| Compounds.NBTCompound.Get | src/main/java/org/mattrick/enbeet/NBTCompound.java:79-102 | the empty path gives the compound itself |
| Compounds.NBTCompound.GetTyped | src/main/java/org/mattrick/enbeet/NBTCompound.java:111-120 | fails exactly when `get(path)` fails; gives the found value exactly when it is an instance of the class or of one of its Java supertypes; with `Object.class` it is `get(path)` |
| Compounds.NBTCompound.GetAs | src/main/java/org/mattrick/enbeet/NBTCompound.java:127-228 | a typed getter returns the found value exactly when its shape is the getter's kind, and only such values |
| Compounds.TypedGetAfterSet | src/main/java/org/mattrick/enbeet/NBTCompound.java:111-120 | a typed get right after `set(v, path)` returns `v` if it is an instance of the class (its own class or a Java supertype), and is empty otherwise |
| Compounds.EqualsIgnoresName | src/main/java/org/mattrick/enbeet/NBTCompound.java:287-296 | `equals` is symmetric and compares the entries only, never the names |
| Compounds.NBTCompound.Equals | src/main/java/org/mattrick/enbeet/NBTCompound.java:287-296 | `equals` is reflexive and false for `null` |
| Compounds.NBTCompound.GetVarIntArray | src/main/java/org/mattrick/enbeet/NBTCompound.java:235-270 | the byte array at the path decoded as VarInts, empty when no byte array is there |
| Compounds.VarIntArrayIn | src/main/java/org/mattrick/enbeet/NBTCompound.java:235-270 | empty exactly when the typed get of a `byte[]` is empty; a result is the VarInts of the `byte[]` found at the path; it throws only a null pointer, an index-out-of-bounds or "VarInt too big" |
| Compounds.ReadVarInt | src/main/java/org/mattrick/enbeet/NBTCompound.java:252-263 | one VarInt read fails only by running past the end, which needs a last byte with the high bit set, or with "VarInt too big", which needs more than five bytes left |
| Compounds.VarInts | src/main/java/org/mattrick/enbeet/NBTCompound.java:248-267 | at most one number per byte, and only the two failures of a single read |
| Compounds.DecodeVarInts | src/main/java/org/mattrick/enbeet/NBTCompound.java:242-269 | the nested loops compute `VarInts` of the bytes, including both failures |
| Compounds.ToInt32 | src/main/java/org/mattrick/enbeet/NBTCompound.java:253 | the `int` agrees with the accumulated 32 bits modulo 2^32 |
| Compounds.ReadVarIntConsumes | src/main/java/org/mattrick/enbeet/NBTCompound.java:252-263 | one VarInt read consumes at least one byte and ends on a byte whose high bit is clear |
| Compounds.SingleVarInt | src/main/java/org/mattrick/enbeet/NBTCompound.java:252-263 | a single VarInt of up to five bytes is the low 32 bits of the sum of its 7-bit groups, least significant first |
| Compounds.VarIntExample | src/main/java/org/mattrick/enbeet/NBTCompound.java:248-267 | E5 8E 26 decodes to the one number 624485 |
| Compounds.VarIntCount | src/main/java/org/mattrick/enbeet/NBTCompound.java:248-267 | the array has as many numbers as bytes with a clear high bit |
| Compounds.TrailingContinuationFails | src/main/java/org/mattrick/enbeet/NBTCompound.java:252-263 | data whose last byte has the high bit set fails, reading past the end |
| Compounds.TooLongVarInt | src/main/java/org/mattrick/enbeet/NBTCompound.java:253-256 | five continuation bytes followed by a sixth byte give "VarInt too big"; with no sixth byte the read runs past the end |
| Bytes.UnsignedOfBigEndian | src/main/java/org/mattrick/enbeet/io/NBTReader.java:70 | the unsigned big-endian bytes of `x` read back as `x` |
| Bytes.BigEndianOfUnsigned | src/main/java/org/mattrick/enbeet/io/NBTReader.java:70 | any bytes are the big-endian form of the number they read as |
| Bytes.SignedRoundTrip | src/main/java/org/mattrick/enbeet/io/NBTWriter.java:75-80 | the two's-complement bytes of `x` read back as `x` |
| Bytes.SignedValueRoundTrip | src/main/java/org/mattrick/enbeet/io/NBTReader.java:84-87 | any bytes are the two's-complement form of the number they read as |
| Bytes.NegativeIffHighBit | src/main/java/org/mattrick/enbeet/io/NBTReader.java:84-87 | a read number is negative if and only if its first byte has the high bit set |
| Decoding.ReadSigned | src/main/java/org/mattrick/enbeet/io/NBTReader.java:84-87 | fails with end-of-stream exactly when fewer than `n` bytes are left; otherwise an `n`-byte number, consuming `n` bytes |
| Decoding.DecodeType | src/main/java/org/mattrick/enbeet/io/NBTReader.java:54-63 | a successful read consumes exactly one byte |
| Decoding.TypeIds | src/main/java/org/mattrick/enbeet/io/NBTReader.java:54-63 | an id byte is accepted if and only if it is 0..12, and then names the kind with that id; any other byte is rejected with its signed value |
| Decoding.DecodeUtf | src/main/java/org/mattrick/enbeet/io/NBTReader.java:70 | a string read is under 65536 bytes and consumes its length prefix and its bytes |
| Decoding.UtfRoundTrip | src/main/java/org/mattrick/enbeet/io/NBTReader.java:70 | a string written with its 2-byte length reads back, leaving what follows |
| Decoding.DecodeWords | src/main/java/org/mattrick/enbeet/io/NBTReader.java:103-105 | the element loop adds exactly `n` numbers after those already read |
| Decoding.DecodeArray | src/main/java/org/mattrick/enbeet/io/NBTReader.java:99-108 | every element read fits its width, and the read consumes at least one byte |
| Decoding.DecodeByteArray | src/main/java/org/mattrick/enbeet/io/NBTReader.java:99-108 | a `byte[]` as long as the 4-byte count says; fails only with end of stream or a negative count |
| Decoding.DecodeIntArray | src/main/java/org/mattrick/enbeet/io/NBTReader.java:125-134 | an `int[]` as long as the 4-byte count says; fails only with end of stream or a negative count |
| Decoding.DecodeLongArray | src/main/java/org/mattrick/enbeet/io/NBTReader.java:136-145 | a `long[]` as long as the 4-byte count says; fails only with end of stream or a negative count |
| Decoding.DecodeScalar | src/main/java/org/mattrick/enbeet/io/NBTReader.java:84-89 | a scalar read consumes at least one byte |
| Decoding.ScalarWidths | src/main/java/org/mattrick/enbeet/io/NBTReader.java:84-89 | the scalars read exactly 1, 2, 4, 8, 4 and 8 bytes, and fail exactly when fewer are left |
| Decoding.NegativeArrayCount | src/main/java/org/mattrick/enbeet/io/NBTReader.java:99-108 | a negative count makes any array read throw `NegativeArraySizeException` |
| Decoding.NegativeListCount | src/main/java/org/mattrick/enbeet/io/NBTReader.java:110-123 | a negative list count gives an empty list that ends right after the count |
| Decoding.EndListOfNulls | src/main/java/org/mattrick/enbeet/io/NBTReader.java:83 | a list declared `END` holds its count of `null`s and consumes no payload |
| Decoding.DecodeList | src/main/java/org/mattrick/enbeet/io/NBTReader.java:110-123 | a list read takes the element kind, a 4-byte count and then that many payloads of that kind with no ids or keys (`RoundTrip.ListRoundTrip`, for a kind other than END and elements that hold no list; `RoundTrip.EndListRoundTrip` for END); it consumes at least one byte |
| Decoding.DecodeElems | src/main/java/org/mattrick/enbeet/io/NBTReader.java:119-121 | the element loop adds exactly `n` elements, each the next payload of the declared kind (`RoundTrip.ElemsRoundTrip`, for a kind other than END and elements that hold no list; `Decoding.EndListOfNulls` for END) |
| Decoding.DecodeTag | src/main/java/org/mattrick/enbeet/io/NBTReader.java:81-97 | a payload read never grows the stream |
| Decoding.DecodeEntries | src/main/java/org/mattrick/enbeet/io/NBTReader.java:65-79 | a compound body read consumes at least its end byte |
| Decoding.EntriesFrom | src/main/java/org/mattrick/enbeet/io/NBTReader.java:69-76 | one step of the entry loop never grows the stream |
| Decoding.DecodeRoot | src/main/java/org/mattrick/enbeet/io/NBTReader.java:37-52 | an empty stream throws end of stream; a root that reads starts with byte 0 or 10 and consumes at least that byte; byte 0 consumes nothing more and gives no entries |
| Decoding.RootKinds | src/main/java/org/mattrick/enbeet/io/NBTReader.java:37-46 | root byte 0 gives an empty compound; any other kind but 10 is rejected as a root; a byte above 12 is rejected as an invalid id |
| Decoding.RootCompound | src/main/java/org/mattrick/enbeet/io/NBTReader.java:48-51 | a compound root is its compound body, read after the name |
| Decoding.RootNameDropped | src/main/java/org/mattrick/enbeet/io/NBTReader.java:48-49 | the root's name does not change what is read |
| Decoding.DetectFraming | src/main/java/org/mattrick/enbeet/io/NBTReader.java:147-159 | fails exactly for an empty stream, where pushing back -1 bytes throws |
| Decoding.MagicOf | src/main/java/org/mattrick/enbeet/io/NBTReader.java:153 | the magic equals `GZIP_MAGIC` if and only if the bytes are 1F 8B, and is negative exactly when the first byte has its high bit set |
| Decoding.ReaderInput | src/main/java/org/mattrick/enbeet/io/NBTReader.java:28-30 | fails exactly for an empty stream; a stream starting with 1F 8B is inflated, and any other is parsed as it is |
| Decoding.GzipDetected | src/main/java/org/mattrick/enbeet/io/NBTReader.java:153-154 | gzip framing is chosen if and only if the stream starts with 1F 8B |
| Decoding.PlainKeepsEveryByte | src/main/java/org/mattrick/enbeet/io/NBTReader.java:148-158 | without gzip framing, the peeked bytes are pushed back and the whole stream is parsed |
| Reader.Open | src/main/java/org/mattrick/enbeet/io/NBTReader.java:28-30 | a new reader over the stream, or over what it inflates to; an empty stream throws |
| Reader.NBTReader.ReadNumber | src/main/java/org/mattrick/enbeet/io/NBTReader.java:84-87 | returns `ReadSigned` of the input and leaves its rest; at the end of the stream it throws and leaves nothing |
| Reader.NBTReader.ReadUTF | src/main/java/org/mattrick/enbeet/io/NBTReader.java:70 | returns `DecodeUtf` of the input and leaves its rest; at the end of the stream it throws and leaves nothing |
| Reader.NBTReader.Read | src/main/java/org/mattrick/enbeet/io/NBTReader.java:37-52 | returns a fresh unnamed compound holding `DecodeRoot`'s entries, or its exception; only bytes from the front are taken, an end of stream leaves none, and a root of another kind takes one byte |
| Reader.NBTReader.ReadType | src/main/java/org/mattrick/enbeet/io/NBTReader.java:54-63 | returns `DecodeType` of the input and leaves its rest; an invalid id takes its one byte, an end of stream leaves nothing |
| Reader.NBTReader.ReadCompound | src/main/java/org/mattrick/enbeet/io/NBTReader.java:65-79 | the loop builds, with `set(value, key)`, a fresh compound holding `DecodeEntries`' result, or throws its exception; only bytes from the front are taken, and an end of stream leaves none |
| Reader.NBTReader.ReadTag | src/main/java/org/mattrick/enbeet/io/NBTReader.java:81-97 | returns `DecodeTag` of the input for each kind and leaves its rest, or throws its exception having taken bytes from the front only, all of them at an end of stream |
| Reader.NBTReader.ReadScalar | src/main/java/org/mattrick/enbeet/io/NBTReader.java:84-89 | returns `DecodeScalar` of the input for each scalar kind and leaves its rest; at the end of the stream it throws and leaves nothing |
| Reader.NBTReader.ReadByteArray | src/main/java/org/mattrick/enbeet/io/NBTReader.java:99-108 | the loop fills a new `byte[]` with what `DecodeByteArray` gives, or throws its exception; a negative count takes the 4 count bytes, an end of stream leaves nothing |
| Reader.NBTReader.ReadList | src/main/java/org/mattrick/enbeet/io/NBTReader.java:110-123 | the loop fills a new `NBTList` with what `DecodeList` gives, the count clamped at 0, or throws its exception having taken bytes from the front only, all of them at an end of stream |
| Reader.NBTReader.ReadIntArray | src/main/java/org/mattrick/enbeet/io/NBTReader.java:125-134 | the loop fills a new `int[]` with what `DecodeIntArray` gives, or throws its exception; a negative count takes the 4 count bytes, an end of stream leaves nothing |
| Reader.NBTReader.ReadLongArray | src/main/java/org/mattrick/enbeet/io/NBTReader.java:136-145 | the loop fills a new `long[]` with what `DecodeLongArray` gives, or throws its exception; a negative count takes the 4 count bytes, an end of stream leaves nothing |
| Encoding.EncodeUtf | src/main/java/org/mattrick/enbeet/io/NBTWriter.java:68 | throws exactly for strings over 65535 bytes; otherwise the 2-byte length and the bytes |
| Encoding.Words | src/main/java/org/mattrick/enbeet/io/NBTWriter.java:93-95 | the element loop writes `w` bytes per element |
| Encoding.EncodeArray | src/main/java/org/mattrick/enbeet/io/NBTWriter.java:90-96 | an array takes 4 bytes for its length, then `w` bytes per element, and starts with the 4-byte length |
| Encoding.EncodeValue | src/main/java/org/mattrick/enbeet/io/NBTWriter.java:72-88 | `END` writes nothing; otherwise `null` throws a null pointer, a value of another shape a class cast, and a written value has the kind's shape |
| Encoding.EncodeList | src/main/java/org/mattrick/enbeet/io/NBTWriter.java:98-105 | a written list starts with the declared kind's id and its size's low 8 bits, followed by the element payloads with no ids (`RoundTrip.ListRoundTrip`; for END, no payloads at all: `RoundTrip.EndListRoundTrip`) |
| Encoding.EncodeCompound | src/main/java/org/mattrick/enbeet/io/NBTWriter.java:107-112 | a written body ends with byte 0, and an empty compound is that byte alone |
| Encoding.EncodeTag | src/main/java/org/mattrick/enbeet/io/NBTWriter.java:60-70 | a `null` value throws a null pointer; a written entry starts with the id of the value's shape |
| Encoding.EncodeRoot | src/main/java/org/mattrick/enbeet/io/NBTWriter.java:48-54 | an unnamed compound throws a null pointer; a written root starts with byte 10 and ends with byte 0 |
| Encoding.TagLayout | src/main/java/org/mattrick/enbeet/io/NBTWriter.java:60-70 | a written entry is its shape's id, the key and the payload; its value is neither `null` nor an `Integer` |
| Encoding.IntegerNotWritable | src/main/java/org/mattrick/enbeet/io/NBTWriter.java:61-65 | an `Integer` entry throws "Cannot write java.lang.Integer" |
| Encoding.EntryFailureFails | src/main/java/org/mattrick/enbeet/io/NBTWriter.java:107-110 | an entry that cannot be written makes the compound's entries fail |
| Encoding.CompoundWithIntegerFails | src/main/java/org/mattrick/enbeet/io/NBTWriter.java:107-110 | a compound holding an `Integer` under any key cannot be written |
| Encoding.CompoundEnds | src/main/java/org/mattrick/enbeet/io/NBTWriter.java:107-112 | a written compound body is its entries followed by the single byte 0 |
| Encoding.ListHeader | src/main/java/org/mattrick/enbeet/io/NBTWriter.java:98-101 | a list starts with its kind's id and its size modulo 256, so 256 elements announce 0 |
| Encoding.ScalarLayout | src/main/java/org/mattrick/enbeet/io/NBTWriter.java:72-80 | each scalar is written in 1, 2, 4, 8, 4 or 8 bytes, the widths the reader reads |
| Encoding.LengthIsSigned | src/main/java/org/mattrick/enbeet/io/NBTWriter.java:91 | an array length Java can hold is written as a 4-byte `int` |
| Encoding.ArrayLayout | src/main/java/org/mattrick/enbeet/io/NBTWriter.java:90-96 | an array is its length, then element `i` at bytes `4 + i·w` to `4 + (i+1)·w` |
| Writer.NBTWriter.constructor | src/main/java/org/mattrick/enbeet/io/NBTWriter.java:33-41 | a new writer has written nothing |
| Writer.NBTWriter.WriteByte | src/main/java/org/mattrick/enbeet/io/NBTWriter.java:100-101 | appends the low 8 bits of the `int` |
| Writer.NBTWriter.WriteNumber | src/main/java/org/mattrick/enbeet/io/NBTWriter.java:75-80 | appends the number's two's-complement bytes |
| Writer.NBTWriter.WriteLength | src/main/java/org/mattrick/enbeet/io/NBTWriter.java:91 | appends the 4-byte length |
| Writer.NBTWriter.WriteUTF | src/main/java/org/mattrick/enbeet/io/NBTWriter.java:68 | appends `EncodeUtf`'s bytes, or throws for a string that is too long, having written nothing |
| Writer.NBTWriter.WriteTagId | src/main/java/org/mattrick/enbeet/io/NBTWriter.java:56-58 | appends the kind's id |
| Writer.NBTWriter.Write | src/main/java/org/mattrick/enbeet/io/NBTWriter.java:48-54 | `null` throws with nothing written; otherwise appends `EncodeRoot` of the compound's name and entries, or throws its exception |
| Writer.NBTWriter.WriteTag | src/main/java/org/mattrick/enbeet/io/NBTWriter.java:60-70 | appends `EncodeTag`'s bytes, or throws its exception |
| Writer.NBTWriter.WriteValue | src/main/java/org/mattrick/enbeet/io/NBTWriter.java:72-88 | appends `EncodeValue`'s bytes for each kind, or throws a null pointer or a class cast |
| Writer.NBTWriter.WriteArray | src/main/java/org/mattrick/enbeet/io/NBTWriter.java:114-128 | the loop appends the length and then each element |
| Writer.NBTWriter.WriteList | src/main/java/org/mattrick/enbeet/io/NBTWriter.java:98-105 | the loop appends `EncodeList`'s bytes, or throws the first element's exception |
| Writer.NBTWriter.WriteCompound | src/main/java/org/mattrick/enbeet/io/NBTWriter.java:107-112 | the loop appends `EncodeCompound`'s bytes in the iteration order, or throws the first entry's exception |
| RoundTrip.StoredEntries | src/main/java/org/mattrick/enbeet/io/NBTReader.java:69-76 | storing entries one by one keeps the earlier keys, and each stored key holds its value |
| RoundTrip.StoredAll | src/main/java/org/mattrick/enbeet/io/NBTReader.java:65-79 | storing every key of a map in any enumeration order rebuilds the map |
| RoundTrip.ScalarRoundTrip | src/main/java/org/mattrick/enbeet/io/NBTWriter.java:75-80 | a written scalar reads back, leaving what follows |
| RoundTrip.WordsRoundTrip | src/main/java/org/mattrick/enbeet/io/NBTWriter.java:117-119 | the readers' element loop reads back what the writers' element loop wrote |
| RoundTrip.ArrayRoundTrip | src/main/java/org/mattrick/enbeet/io/NBTWriter.java:90-96 | an array Java can hold reads back as written |
| RoundTrip.ValueRoundTrip | src/main/java/org/mattrick/enbeet/io/NBTWriter.java:72-88 | a payload written without error for the value's own shape reads back as the same value, in trees without lists |
| RoundTrip.DecodeEntry | src/main/java/org/mattrick/enbeet/io/NBTReader.java:69-76 | an entry's id, key and payload read as one more stored entry |
| RoundTrip.EntriesRoundTrip | src/main/java/org/mattrick/enbeet/io/NBTWriter.java:107-112 | written entries followed by the end byte read back into those entries, in trees without lists |
| RoundTrip.ElemsRoundTrip | src/main/java/org/mattrick/enbeet/io/NBTReader.java:119-121 | for a declared kind other than END, with elements that hold no list: the payloads `writeList` writes one after the other, with no ids or keys, are read back by `readList`'s element loop as the list's elements, leaving what follows |
| RoundTrip.ListRoundTrip | src/main/java/org/mattrick/enbeet/io/NBTWriter.java:98-105 | for a declared kind other than END, with elements that hold no list: `writeList` writes the kind's id, one count byte and the payloads; the same id and payloads behind a 4-byte count read back as the list, so the count's width is the only mismatch |
| RoundTrip.EndElemsWriteNothing | src/main/java/org/mattrick/enbeet/io/NBTWriter.java:102-104 | the elements of a list declared END are written as no bytes at all, whatever they hold, since `writeValue(END, …)` writes nothing |
| RoundTrip.EndListRoundTrip | src/main/java/org/mattrick/enbeet/io/NBTWriter.java:98-105 | a list declared END is written as id 0 and one count byte; the same id behind a 4-byte count reads back as a list of that many `null`s, leaving what follows, so its elements are lost |
| RoundTrip.WriteThenRead | src/main/java/org/mattrick/enbeet/io/NBTWriter.java:48-54 | `read` after `write` of a named compound with no list gives back its entries and leaves what follows |
| RoundTrip.ListBreaksRoundTrip | src/main/java/org/mattrick/enbeet/io/NBTWriter.java:98-105 | `{k: [x]}` is written with a 1-byte count, and reading those bytes back fails at end of stream |
| RoundTrip.ListCountCut | src/main/java/org/mattrick/enbeet/io/NBTReader.java:110-116 | the bytes `[1, 1, x]` of a one-element BYTE list with a 1-byte count, followed only by a compound's closing 0, cannot be read as a list: the 4-byte count runs out of stream |
| RoundTrip.ShortListCount | src/main/java/org/mattrick/enbeet/io/NBTReader.java:110-116 | the root holding that list fails with end of stream |
| RoundTrip.DecodeEntryFails | src/main/java/org/mattrick/enbeet/io/NBTReader.java:69-76 | an unreadable payload fails the compound with the payload's exception |
| RoundTrip.RootEntryFails | src/main/java/org/mattrick/enbeet/io/NBTReader.java:48-51 | an unreadable first entry fails the whole read |
| RoundTrip.LastKeyWins | src/main/java/org/mattrick/enbeet/io/NBTReader.java:73 | a body that repeats a key keeps the value read last |

## Left out

- Gzip compression and decompression are not modelled:
  - the writer's `gzip` flag and its one-argument constructor are left out;
  - `Reader.Open` takes the inflated stream as the parameter `inflate`.
- Modified UTF-8 is not encoded or validated. A string is its encoded bytes, and
  `readUTF` accepts any bytes of the given length.
- `float` and `double` are their IEEE bit patterns. NaN canonicalisation by
  `floatToIntBits` and `doubleToLongBits` is not modelled.
- Short reads by `PushbackInputStream.read` on a stream of two or more bytes are not
  modelled; both bytes are taken to be peeked.
- `toString`, `hashCode` and `data()` are left out, because they expose Java objects
  the model does not have.
- A `null` path, a `null` key and a `null` list kind are left out. The model's paths,
  keys and kinds are values that cannot be `null`.
- Objects of classes outside the library's twelve value classes cannot be stored.
  The writer's handling of them (`UnmappedClass`) is modelled only for `Integer`.
- Nested compounds and lists are values. Aliasing between a tree and an object stored
  in it, and updates made through such an alias, are not modelled.
- `equals` on arrays compares contents here, where Java compares identity. A list's
  declared kind is kept, but `ArrayList.equals` would ignore it.
- Writer.NBTWriter.Write: on an exception, it states only that the bytes written so
  far extend the old output, not which bytes they are.
- Writer.NBTWriter.WriteTag: on an exception, it states only that the output was
  extended, not by which bytes.
- Writer.NBTWriter.WriteValue: on an exception, it states only that the output was
  extended, not by which bytes.
- Writer.NBTWriter.WriteList: on an exception, it states only that the output was
  extended, not by which bytes.
- Writer.NBTWriter.WriteCompound: on an exception, it states only that the output was
  extended, not by which bytes.
- Reader.NBTReader.ReadTag: when a nested read throws an invalid id or a negative
  array count, it states only that bytes were taken from the front, not how many.
- Reader.NBTReader.ReadList: when an element's read throws an invalid id or a
  negative array count, it states only that bytes were taken from the front, not how
  many.
- Reader.NBTReader.ReadCompound: for an exception other than end of stream, it states
  only that bytes were taken from the front, not how many.
- Reader.NBTReader.Read: for an exception thrown inside the root compound other than
  end of stream, it states only that bytes were taken from the front, not how many.
- A nested compound is stored as the `NBTCompound` that `readCompound` returns, whose
  name is always `null`. `Values.Value.Compound` holds only the entries, so the name
  of a compound stored inside another, and `setName` on it, are not modelled.
- RoundTrip.WriteThenRead: stated for trees without lists, because a written list's one-byte
  count is read as four bytes (`RoundTrip.ListBreaksRoundTrip`); the rest of the list
  layout is covered by `RoundTrip.ListRoundTrip` and `RoundTrip.EndListRoundTrip`, for
  lists whose elements hold no list.
- RoundTrip.ValueRoundTrip: stated for trees without lists, because a written list's one-byte
  count is read as four bytes (`RoundTrip.ListBreaksRoundTrip`); the rest of the list
  layout is covered by `RoundTrip.ListRoundTrip` and `RoundTrip.EndListRoundTrip`, for
  lists whose elements hold no list.
- RoundTrip.EntriesRoundTrip: stated for trees without lists, because a written list's one-byte
  count is read as four bytes (`RoundTrip.ListBreaksRoundTrip`); the rest of the list
  layout is covered by `RoundTrip.ListRoundTrip` and `RoundTrip.EndListRoundTrip`, for
  lists whose elements hold no list.
- RoundTrip.ElemsRoundTrip: stated for a declared kind other than END, because an END
  list's elements are written as nothing and read back as `null`s
  (`RoundTrip.EndElemsWriteNothing`, `Decoding.EndListOfNulls`); and for elements that
  hold no list, because a nested list's own count has the same width mismatch.
- RoundTrip.ListRoundTrip: stated for a declared kind other than END, because an END
  list reads back as `null`s (`RoundTrip.EndListRoundTrip`); and for elements that hold
  no list, because a nested list's own count has the same width mismatch.
