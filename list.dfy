/**
 * `NBTList`: an `ArrayList` of stored values together with the kind it was
 * declared with. The kind is not enforced when elements are added; it only
 * gates the typed getters.
 */
module Lists {
  import opened Options
  import opened TagTypes
  import opened Values

  class NBTList {
    /** The declared element kind, `getType()`. */
    const kind: TagType
    var elems: seq<Value>

    /** `new NBTList(type)`: an empty list of the given kind. */
    constructor (kind: TagType)
      ensures this.kind == kind && elems == []
    {
      this.kind := kind;
      elems := [];
    }

    /** `add(value)`, inherited from `ArrayList`: appends whatever it is given. */
    method Add(v: Value)
      modifies this
      ensures elems == old(elems) + [v]
    {
      elems := elems + [v];
    }

    /** `get(index)`: `Optional.of(super.get(index))`, so an index outside the list
        throws, and so does a stored `null`. */
    function Get(i: int): (r: Result<Value>)
      reads this
      ensures r.Ok? <==> 0 <= i < |elems| && !elems[i].Null?
      ensures r.Ok? ==> r.value == elems[i]
      ensures r.Err? ==> r.error == if 0 <= i < |elems| then NullPointer else IndexOutOfBounds
    {
      if !(0 <= i < |elems|) then Err(IndexOutOfBounds)
      else if elems[i].Null? then Err(NullPointer)
      else Ok(elems[i])
    }

    /** `get(Class, index)`: empty unless the class maps to the declared kind, which is
        decided before the index is looked at; otherwise `get(index)` and the
        class-typed cast. */
    function GetTyped(c: JavaClass, i: int): (r: Result<Option<Value>>)
      reads this
      ensures FromClass(c) != Some(kind) ==> r == Ok(None)
      ensures FromClass(c) == Some(kind) ==> (r.Err? <==> Get(i).Err?)
      ensures r.Ok? && r.value.Some? ==>
        FromClass(c) == Some(kind) && Get(i) == Ok(r.value.value) && ClassOf(r.value.value) == c
    {
      if FromClass(c) != Some(kind) then Ok(None)
      else
        match Get(i)
        case Err(e) => Err(e)
        case Ok(v) => Ok(Cast(c, v))
    }

    /** `getByte(index)` .. `getLongArray(index)`. */
    function GetAs(a: Accessor, i: int): (r: Result<Option<Value>>)
      reads this
      ensures r.Ok? && r.value.Some? ==> !r.value.value.Null? && Shape(r.value.value) == a.Kind()
    {
      GetTyped(a.Class(), i)
    }
  }

  /** `getInt` never returns anything, at any index of any list, even one declared
      `INT` and holding `Integer`s: `TagType.from(Integer.class)` is `null`. */
  lemma GetIntNeverFinds(l: NBTList, i: int)
    ensures l.GetAs(GetInt, i) == Ok(None)
  {
    FromBoxedClass(IntType);
  }

  /** Every other typed getter finds the element at `i` exactly when the list is declared
      with the getter's kind and the element, present and not `null`, has that kind;
      on a list of another kind it returns empty even for an index outside the list. */
  lemma GetAsFinds(l: NBTList, a: Accessor, i: int)
    requires a != GetInt
    ensures l.kind != a.Kind() ==> l.GetAs(a, i) == Ok(None)
    ensures l.GetAs(a, i).Ok? && l.GetAs(a, i).value.Some? <==>
      l.kind == a.Kind() && 0 <= i < |l.elems| && !l.elems[i].Null? && Shape(l.elems[i]) == a.Kind()
    ensures l.GetAs(a, i).Ok? && l.GetAs(a, i).value.Some? ==> l.GetAs(a, i).value.value == l.elems[i]
  {
    AccessorKind(a);
    if 0 <= i < |l.elems| && !l.elems[i].Null? {
      AccessorMatchesShape(a, l.elems[i]);
    }
  }

  /** Asking for a primitive class such as `byte.class` passes the kind check but never
      the cast, since stored scalars are boxed. */
  lemma PrimitiveClassNeverFinds(l: NBTList, p: Primitive, i: int)
    ensures l.GetTyped(Primitive(p), i).Ok? ==> l.GetTyped(Primitive(p), i) == Ok(None)
  {
  }
}
