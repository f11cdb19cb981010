/**
 * The objects an NBT tree holds. `NBTCompound` and `NBTList` store plain
 * `Object`s; the ones the library reads, writes and returns are the boxed
 * scalars, the three primitive arrays, `String`, `NBTList` and `NBTCompound`,
 * plus `null`, which the decoder stores for each element of a list declared
 * `END`. This module gives them as one datatype, with the Java class of each
 * and the exceptions the core throws.
 */
module Values {
  import opened Options
  import opened Bytes
  import opened TagTypes

  /** A `java.lang.String`, given by its modified UTF-8 bytes. */
  type JString = seq<u8>

  datatype Value =
    | Null
    | Byte(b: i8)
    | Short(s: i16)
    | Int(i: i32)
    | Long(l: i64)
    | Float(fbits: i32)           // Float.floatToIntBits of the value
    | Double(dbits: i64)          // Double.doubleToLongBits of the value
    | ByteArray(bytes: seq<i8>)
    | String(str: JString)
    | List(kind: TagType, elems: seq<Value>)
    | Compound(entries: map<JString, Value>)
    | IntArray(ints: seq<i32>)
    | LongArray(longs: seq<i64>)

  /** The Java exceptions the core raises. */
  datatype Exception =
    | NullPointer                      // NullPointerException
    | IndexOutOfBounds                 // (Array)IndexOutOfBoundsException
    | ClassCast                        // ClassCastException
    | NegativeArraySize                // NegativeArraySizeException
    | EndOfStream                      // EOFException
    | UtfTooLong                       // UTFDataFormatException: string over 65535 bytes
    | InvalidTagId(id: int)            // NBTException "Invalid NBT tag type id"
    | UnexpectedRoot(kind: TagType)    // IOException "Expected COMPOUND at root"
    | UnmappedClass(cls: JavaClass)    // NBTException "Cannot write ... object to NBT"
    | VarIntTooBig                     // RuntimeException "VarInt too big"

  /** A result, or the exception that aborted the call. */
  datatype Result<+T> = Ok(value: T) | Err(error: Exception)

  /** `value.getClass()`: a stored scalar is boxed. `null` has no class. */
  function ClassOf(v: Value): JavaClass
    requires !v.Null?
  {
    match v
    case Byte(_) => Boxed(ByteType)
    case Short(_) => Boxed(ShortType)
    case Int(_) => Boxed(IntType)
    case Long(_) => Boxed(LongType)
    case Float(_) => Boxed(FloatType)
    case Double(_) => Boxed(DoubleType)
    case ByteArray(_) => ByteArrayClass
    case String(_) => StringClass
    case List(_, _) => NBTListClass
    case Compound(_) => NBTCompoundClass
    case IntArray(_) => IntArrayClass
    case LongArray(_) => LongArrayClass
  }

  /** The names of the classes and interfaces that a stored value's class extends or
      implements in Java 17. A class the registry does not name is `Other(name)`, so these
      are the `Other` classes a value is also an instance of. */
  function Supertypes(c: JavaClass): set<string> {
    var number := {"java.lang.Object", "java.lang.Number", "java.io.Serializable",
                   "java.lang.Comparable", "java.lang.constant.Constable"};
    match c
    case Boxed(ByteType) => number
    case Boxed(ShortType) => number
    case Boxed(_) => number + {"java.lang.constant.ConstantDesc"}
    case StringClass =>
      {"java.lang.Object", "java.io.Serializable", "java.lang.Comparable", "java.lang.CharSequence",
       "java.lang.constant.Constable", "java.lang.constant.ConstantDesc"}
    case ByteArrayClass => {"java.lang.Object", "java.lang.Cloneable", "java.io.Serializable"}
    case IntArrayClass => {"java.lang.Object", "java.lang.Cloneable", "java.io.Serializable"}
    case LongArrayClass => {"java.lang.Object", "java.lang.Cloneable", "java.io.Serializable"}
    case NBTListClass =>
      {"java.lang.Object", "java.util.ArrayList", "java.util.AbstractList", "java.util.AbstractCollection",
       "java.util.List", "java.util.Collection", "java.lang.Iterable", "java.util.RandomAccess",
       "java.lang.Cloneable", "java.io.Serializable"}
    case _ => {"java.lang.Object"}
  }

  /** `c.isInstance(v)`: `v` is not `null`, and `c` is its class or one of its supertypes.
      A primitive class has no instances. */
  predicate InstanceOf(v: Value, c: JavaClass) {
    !v.Null? && (ClassOf(v) == c || (c.Other? && c.name in Supertypes(ClassOf(v))))
  }

  /** The class-typed cast that both typed `get` methods apply to a found value:
      `Class.cast` throws unless the value is an instance, and that exception is caught
      and, like a null, leaves the result empty. For the classes the registry names the
      test is the exact class, since those are final classes or arrays; `Object.class`
      accepts every value. */
  function Cast(c: JavaClass, v: Value): (r: Option<Value>)
    ensures r.Some? ==> r.value == v
    ensures v.Null? || c.Primitive? ==> r == None
    ensures !c.Other? ==> (r.Some? <==> !v.Null? && ClassOf(v) == c)
    ensures !v.Null? && c == Other("java.lang.Object") ==> r == Some(v)
    ensures !v.Null? && v.List? && c == Other("java.util.ArrayList") ==> r == Some(v)
  {
    if InstanceOf(v, c) then Some(v) else None
  }

  /** The kind the writer derives from a stored value: `TagType.from(value.getClass())`.
      Every stored value but an `Integer` has one, the kind of its shape. */
  function KindOf(v: Value): (r: Option<TagType>)
    requires !v.Null?
    ensures v.Int? <==> r == None
    ensures !v.Int? ==> r == Some(Shape(v))
  {
    FromClass(ClassOf(v))
  }

  /** The kind whose payload class `v` has, by the shape of `v`. */
  function Shape(v: Value): TagType
    requires !v.Null?
  {
    match v
    case Byte(_) => TagByte
    case Short(_) => TagShort
    case Int(_) => TagInt
    case Long(_) => TagLong
    case Float(_) => TagFloat
    case Double(_) => TagDouble
    case ByteArray(_) => TagByteArray
    case String(_) => TagString
    case List(_, _) => TagList
    case Compound(_) => TagCompound
    case IntArray(_) => TagIntArray
    case LongArray(_) => TagLongArray
  }

  /** The typed accessors `getByte` .. `getLongArray` of `NBTCompound` and `NBTList`:
      each one is the class-typed `get` with the class named below. */
  datatype Accessor =
    | GetByte | GetShort | GetInt | GetLong | GetFloat | GetDouble
    | GetByteArray | GetString | GetList | GetCompound | GetIntArray | GetLongArray
  {
    function Class(): JavaClass {
      match this
      case GetByte => Boxed(ByteType)
      case GetShort => Boxed(ShortType)
      case GetInt => Boxed(IntType)
      case GetLong => Boxed(LongType)
      case GetFloat => Boxed(FloatType)
      case GetDouble => Boxed(DoubleType)
      case GetByteArray => ByteArrayClass
      case GetString => StringClass
      case GetList => NBTListClass
      case GetCompound => NBTCompoundClass
      case GetIntArray => IntArrayClass
      case GetLongArray => LongArrayClass
    }

    /** The kind whose values this accessor returns. */
    function Kind(): TagType {
      match this
      case GetByte => TagByte
      case GetShort => TagShort
      case GetInt => TagInt
      case GetLong => TagLong
      case GetFloat => TagFloat
      case GetDouble => TagDouble
      case GetByteArray => TagByteArray
      case GetString => TagString
      case GetList => TagList
      case GetCompound => TagCompound
      case GetIntArray => TagIntArray
      case GetLongArray => TagLongArray
    }
  }

  /** An accessor's cast succeeds on a stored value exactly when the value's shape is the
      accessor's kind: over all twelve accessors and all stored shapes. */
  lemma AccessorMatchesShape(a: Accessor, v: Value)
    requires !v.Null?
    ensures Cast(a.Class(), v).Some? <==> Shape(v) == a.Kind()
  {
  }

  /** `TagType.from` of an accessor's class: its kind, except for `getInt`, whose
      class `Integer` has none. */
  lemma AccessorKind(a: Accessor)
    ensures a != GetInt ==> FromClass(a.Class()) == Some(a.Kind())
    ensures a == GetInt ==> FromClass(a.Class()) == None
  {
    FromBoxedClass(IntType);
    match a
    case GetByte => FromBoxedClass(ByteType);
    case GetShort => FromBoxedClass(ShortType);
    case GetInt =>
    case GetLong => FromBoxedClass(LongType);
    case GetFloat => FromBoxedClass(FloatType);
    case GetDouble => FromBoxedClass(DoubleType);
    case _ => FromClassOfType(a.Kind());
  }

  /** The largest length of a Java array or `ArrayList`. */
  const MaxLength: int := 0x7fff_ffff

  /** The sizes Java can hold: arrays and lists below 2^31 elements, at every depth. */
  predicate Representable(v: Value)
    decreases v
  {
    match v
    case ByteArray(xs) => |xs| <= MaxLength
    case IntArray(xs) => |xs| <= MaxLength
    case LongArray(xs) => |xs| <= MaxLength
    case List(_, elems) => |elems| <= MaxLength && forall i :: 0 <= i < |elems| ==> Representable(elems[i])
    case Compound(m) => forall k :: k in m ==> Representable(m[k])
    case _ => true
  }

  /** No `NBTList` anywhere in `v`. */
  predicate ListFree(v: Value)
    decreases v
  {
    match v
    case List(_, _) => false
    case Compound(m) => forall k :: k in m ==> ListFree(m[k])
    case _ => true
  }
}
