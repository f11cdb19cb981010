/**
 * The registry of NBT tag kinds: the thirteen kinds with their wire ids and
 * the Java classes that hold their payloads, and the two lookups, by id and
 * by class.
 */
module TagTypes {
  import opened Options

  datatype TagType =
    | TagEnd | TagByte | TagShort | TagInt | TagLong | TagFloat | TagDouble
    | TagByteArray | TagString | TagList | TagCompound | TagIntArray | TagLongArray

  /** Java's eight primitive types but `boolean` and `char`, with `void`. */
  datatype Primitive = VoidType | ByteType | ShortType | IntType | LongType | FloatType | DoubleType

  /** A `java.lang.Class` token: `byte.class` is `Primitive(ByteType)`,
      `Byte.class` is `Boxed(ByteType)`, and any class the registry does not
      mention is `Other(name)`. */
  datatype JavaClass =
    | Primitive(prim: Primitive)
    | Boxed(boxed: Primitive)
    | ByteArrayClass | IntArrayClass | LongArrayClass
    | StringClass | NBTListClass | NBTCompoundClass
    | Other(name: string)

  /** `values()`: the constants in declaration order. */
  const Kinds: seq<TagType> := [
    TagEnd, TagByte, TagShort, TagInt, TagLong, TagFloat, TagDouble,
    TagByteArray, TagString, TagList, TagCompound, TagIntArray, TagLongArray
  ]

  /** `getId()`: the wire id given to each constant. */
  function Id(t: TagType): (id: int)
    ensures 0 <= id <= 12
  {
    match t
    case TagEnd => 0
    case TagByte => 1
    case TagShort => 2
    case TagInt => 3
    case TagLong => 4
    case TagFloat => 5
    case TagDouble => 6
    case TagByteArray => 7
    case TagString => 8
    case TagList => 9
    case TagCompound => 10
    case TagIntArray => 11
    case TagLongArray => 12
  }

  /** `getType()`: the class given to each constant. */
  function Type(t: TagType): JavaClass {
    match t
    case TagEnd => Primitive(VoidType)
    case TagByte => Primitive(ByteType)
    case TagShort => Primitive(ShortType)
    case TagInt => Primitive(IntType)
    case TagLong => Primitive(LongType)
    case TagFloat => Primitive(FloatType)
    case TagDouble => Primitive(DoubleType)
    case TagByteArray => ByteArrayClass
    case TagString => StringClass
    case TagList => NBTListClass
    case TagCompound => NBTCompoundClass
    case TagIntArray => IntArrayClass
    case TagLongArray => LongArrayClass
  }

  /** `ID_MAP`: `values()` collected by id. `IdMapKeys` shows it holds every
      constant under its own id and nothing else. */
  const IdMap: map<int, TagType> := map[
    0 := TagEnd, 1 := TagByte, 2 := TagShort, 3 := TagInt, 4 := TagLong,
    5 := TagFloat, 6 := TagDouble, 7 := TagByteArray, 8 := TagString,
    9 := TagList, 10 := TagCompound, 11 := TagIntArray, 12 := TagLongArray
  ]

  /** `TYPE_MAP`: `values()` collected by class. `TypeMapKeys` shows it holds
      every constant under its own class and nothing else. */
  const TypeMap: map<JavaClass, TagType> := map[
    Primitive(VoidType) := TagEnd, Primitive(ByteType) := TagByte,
    Primitive(ShortType) := TagShort, Primitive(IntType) := TagInt,
    Primitive(LongType) := TagLong, Primitive(FloatType) := TagFloat,
    Primitive(DoubleType) := TagDouble, ByteArrayClass := TagByteArray,
    StringClass := TagString, NBTListClass := TagList,
    NBTCompoundClass := TagCompound, IntArrayClass := TagIntArray,
    LongArrayClass := TagLongArray
  ]

  /** `from(byte)`: the kind with the given id, if any. */
  function FromId(id: int): (r: Option<TagType>)
    ensures r.Some? <==> 0 <= id <= 12
    ensures r.Some? ==> Id(r.value) == id
  {
    if id in IdMap then Some(IdMap[id]) else None
  }

  /** `unboxType`: maps each boxed class to its primitive class, except
      `Integer.class`, which it returns unchanged. */
  function UnboxType(c: JavaClass): (r: JavaClass)
    ensures r.Boxed? ==> r == c == Boxed(IntType)
    ensures !c.Boxed? ==> r == c
    ensures c.Boxed? && c.boxed != IntType ==> r == Primitive(c.boxed)
  {
    if c.Boxed? && c.boxed != IntType then Primitive(c.boxed) else c
  }

  /** `from(Class)`: the kind registered for the unboxed class, if any. */
  function FromClass(c: JavaClass): (r: Option<TagType>)
    ensures r.Some? ==> Type(r.value) == UnboxType(c)
    ensures c.Other? ==> r == None
  {
    var u := UnboxType(c);
    if u in TypeMap then Some(TypeMap[u]) else None
  }

  /** The kind whose payload is the primitive `p`. */
  function KindOfPrimitive(p: Primitive): TagType {
    match p
    case VoidType => TagEnd
    case ByteType => TagByte
    case ShortType => TagShort
    case IntType => TagInt
    case LongType => TagLong
    case FloatType => TagFloat
    case DoubleType => TagDouble
  }

  /** The classes the registry knows: the thirteen `getType()` classes. */
  predicate Registered(c: JavaClass) {
    exists t :: Type(t) == c
  }

  // ---------------------------------------------------------------------
  // Properties of the registry

  /** The kinds are exactly the thirteen constants, ids 0..12 in declaration order. */
  lemma IdsInDeclarationOrder()
    ensures |Kinds| == 13
    ensures forall i :: 0 <= i < 13 ==> Id(Kinds[i]) == i
    ensures forall t: TagType :: t in Kinds
  {
    forall t: TagType ensures t in Kinds {
      KindsComplete(t);
    }
  }

  lemma KindsComplete(t: TagType)
    ensures 0 <= Id(t) < |Kinds| && Kinds[Id(t)] == t
  {
    match t {
      case TagEnd =>
      case TagByte =>
      case TagShort =>
      case TagInt =>
      case TagLong =>
      case TagFloat =>
      case TagDouble =>
      case TagByteArray =>
      case TagString =>
      case TagList =>
      case TagCompound =>
      case TagIntArray =>
      case TagLongArray =>
    }
  }

  /** No two kinds share an id or a class, so both maps lose no constant. */
  lemma IdsAndTypesDistinct(s: TagType, t: TagType)
    ensures Id(s) == Id(t) ==> s == t
    ensures Type(s) == Type(t) ==> s == t
  {
  }

  lemma IdMapKeys()
    ensures forall i :: i in IdMap <==> 0 <= i <= 12
    ensures forall t :: Id(t) in IdMap && IdMap[Id(t)] == t
  {
    forall t ensures Id(t) in IdMap && IdMap[Id(t)] == t {
      KindsComplete(t);
    }
  }

  lemma TypeMapKeys()
    ensures forall t :: Type(t) in TypeMap && TypeMap[Type(t)] == t
    ensures forall c :: c in TypeMap <==> Registered(c)
  {
    forall t ensures Type(t) in TypeMap && TypeMap[Type(t)] == t {
      KindsComplete(t);
    }
    forall c | c in TypeMap ensures Registered(c) {
      assert Type(TypeMap[c]) == c;
    }
  }

  /** `from(t.getId()) == t` for every kind. */
  lemma FromIdOfId(t: TagType)
    ensures FromId(Id(t)) == Some(t)
  {
    IdMapKeys();
  }

  /** `from(t.getType()) == t`: the registered classes pass through `unboxType` unchanged. */
  lemma FromClassOfType(t: TagType)
    ensures UnboxType(Type(t)) == Type(t)
    ensures FromClass(Type(t)) == Some(t)
  {
    TypeMapKeys();
  }

  /** The boxed classes `Void`, `Byte`, `Short`, `Long`, `Float`, `Double` find the kind of
      their primitive; `Integer` finds none, because `unboxType` leaves it boxed. */
  lemma FromBoxedClass(p: Primitive)
    ensures p != IntType ==> FromClass(Boxed(p)) == Some(KindOfPrimitive(p))
    ensures FromClass(Boxed(IntType)) == None
  {
    TypeMapKeys();
    assert Type(KindOfPrimitive(p)) == Primitive(p);
  }

  /** Every class other than the thirteen registered ones and the six boxed ones
      that unbox finds no kind. */
  lemma FromClassNone(c: JavaClass)
    ensures FromClass(c).Some? <==> Registered(c) || (c.Boxed? && c.boxed != IntType)
  {
    TypeMapKeys();
    if c.Boxed? && c.boxed != IntType {
      assert Type(KindOfPrimitive(c.boxed)) == Primitive(c.boxed);
    }
  }
}
