/**
 * `NBTCompound`: a named map from strings to stored values, addressed by
 * paths of keys through nested compounds. The path operations are given as
 * functions on the tree (`Walk`, `SetPath`); the class's `set` is the loop
 * the library runs, proved to compute `SetPath`.
 */
module Compounds {
  import opened Options
  import opened Bytes
  import opened TagTypes
  import opened Values

  // ---------------------------------------------------------------------
  // Paths through a tree

  /** The value reached from `v` by following `path`: at each step the current value
      must be a compound holding the next key. The empty path reaches `v` itself. */
  function Walk(v: Value, path: seq<JString>): (r: Option<Value>)
    ensures path == [] ==> r == Some(v)
    ensures r.Some? && path != [] ==> v.Compound? && path[0] in v.entries
    ensures !v.Compound? ==> (r.Some? <==> path == [])
    decreases |path|
  {
    if path == [] then Some(v)
    else if v.Compound? && path[0] in v.entries then Walk(v.entries[path[0]], path[1..])
    else None
  }

  /** `get(path)` on a compound whose contents are `root`: empty where the walk fails;
      a stored `null` found at the end makes `Optional.of` throw. */
  function GetIn(root: Value, path: seq<JString>): (r: Result<Option<Value>>)
    ensures r.Err? <==> Walk(root, path) == Some(Null)
    ensures r.Err? ==> r.error == NullPointer
    ensures r.Ok? ==> r.value == Walk(root, path)
  {
    match Walk(root, path)
    case None => Ok(None)
    case Some(Null) => Err(NullPointer)
    case Some(v) => Ok(Some(v))
  }

  /** `get(Class, path)` on a compound whose contents are `root`: `get(path)`, then the
      class-typed cast, so the value found is kept exactly when it is an instance of `c`. */
  function GetTypedIn(root: Value, c: JavaClass, path: seq<JString>): (r: Result<Option<Value>>)
    ensures r.Err? <==> GetIn(root, path).Err?
    ensures r.Ok? && r.value.Some? ==> GetIn(root, path) == r && InstanceOf(r.value.value, c)
    ensures (GetIn(root, path).Ok? && GetIn(root, path).value.Some?
             && InstanceOf(GetIn(root, path).value.value, c)) ==> r == GetIn(root, path)
    ensures c == Other("java.lang.Object") ==> r == GetIn(root, path)
  {
    match GetIn(root, path)
    case Err(e) => Err(e)
    case Ok(None) => Ok(None)
    case Ok(Some(v)) => Ok(Cast(c, v))
  }

  /** The entries of a compound after `set(v, path)`: every key but the last names a
      compound, reused when one is stored there and otherwise a fresh empty one
      replacing whatever was there; the last key is bound to `v`. */
  function SetPath(m: map<JString, Value>, path: seq<JString>, v: Value): (r: map<JString, Value>)
    requires |path| > 0
    ensures r.Keys == m.Keys + {path[0]}
    ensures forall k :: k in m && k != path[0] ==> r[k] == m[k]
    ensures |path| == 1 ==> r[path[0]] == v
    ensures |path| > 1 ==> r[path[0]].Compound?
    decreases |path|
  {
    if |path| == 1 then m[path[0] := v]
    else m[path[0] := Compound(SetPath(ChildEntries(m, path[0]), path[1..], v))]
  }

  /** The entries of the compound stored under `key`, or none when no compound is stored there. */
  function ChildEntries(m: map<JString, Value>, key: JString): map<JString, Value> {
    if key in m && m[key].Compound? then m[key].entries else map[]
  }

  /** The entries of the compound that `path` reaches in `m`, or none when it reaches none. */
  function EntriesAt(m: map<JString, Value>, path: seq<JString>): map<JString, Value> {
    var w := Walk(Compound(m), path);
    if w.Some? && w.value.Compound? then w.value.entries else map[]
  }

  /** One compound left behind while `set` descends: its entries and the key taken. */
  datatype Frame = Frame(entries: map<JString, Value>, key: JString)

  /** Puts the compounds left behind back together around the entries `leaf` of the
      innermost one. */
  function Rebuild(frames: seq<Frame>, leaf: map<JString, Value>): map<JString, Value>
    decreases |frames|
  {
    if frames == [] then leaf
    else
      var f := frames[|frames| - 1];
      Rebuild(frames[..|frames| - 1], f.entries[f.key := Compound(leaf)])
  }

  // ---------------------------------------------------------------------
  // VarInt arrays

  /** 2^(7k), the weight of the k-th seven-bit group of a VarInt, for the five groups
      that fit in an `int`. */
  function GroupWeight(k: nat): nat
    requires k < 5
  {
    [0x1, 0x80, 0x4000, 0x20_0000, 0x1000_0000][k]
  }

  const TwoTo32: nat := 0x1_0000_0000

  /** The `int` whose 32 bits are the unsigned number `u`. */
  function ToInt32(u: nat): (x: i32)
    requires u < TwoTo32
    ensures x % TwoTo32 == u
  {
    if u < 0x8000_0000 then u else u - TwoTo32
  }

  /** Reads one VarInt from `s` after `k` of its groups have been read into the 32 bits
      `acc`: the next byte is read (failing at the end of the data), a sixth one is
      rejected, and a byte whose high bit is clear ends the number. Returns the number
      and the bytes after it. */
  function ReadVarInt(s: seq<i8>, k: nat, acc: nat): (r: Result<(i32, seq<i8>)>)
    requires k <= 5 && acc < TwoTo32
    ensures r.Err? ==> r.error == IndexOutOfBounds || r.error == VarIntTooBig
    ensures r.Err? && r.error == VarIntTooBig ==> |s| > 5 - k
    ensures r.Err? && r.error == IndexOutOfBounds ==> s == [] || s[|s| - 1] < 0
    decreases |s|
  {
    if s == [] then Err(IndexOutOfBounds)
    else if k == 5 then Err(VarIntTooBig)
    else
      // Dafny's `%` is Euclidean, so `s[0] % 128` is Java's `s[0] & 127`
      var acc' := (acc + (s[0] % 128) * GroupWeight(k)) % TwoTo32;
      if s[0] >= 0 then Ok((ToInt32(acc'), s[1..]))
      else ReadVarInt(s[1..], k + 1, acc')
  }

  /** The VarInts packed one after the other in `s`. */
  function VarInts(s: seq<i8>): (r: Result<seq<i32>>)
    ensures r.Ok? ==> |r.value| <= |s|
    ensures r.Err? ==> r.error == IndexOutOfBounds || r.error == VarIntTooBig
    decreases |s|
  {
    if s == [] then Ok([])
    else
      match ReadVarInt(s, 0, 0)
      case Err(e) => Err(e)
      case Ok((x, rest)) =>
        ReadVarIntConsumes(s, 0, 0);
        Prepend([x], VarInts(rest))
  }

  /** `xs` followed by the numbers in `r`, or the exception in `r`. */
  function Prepend(xs: seq<i32>, r: Result<seq<i32>>): Result<seq<i32>> {
    match r
    case Ok(ys) => Ok(xs + ys)
    case Err(e) => Err(e)
  }

  /** `getVarIntArray(path)` on a compound whose contents are `root`. */
  function VarIntArrayIn(root: Value, path: seq<JString>): (r: Result<Option<seq<i32>>>)
    ensures r == Ok(None) <==> GetTypedIn(root, ByteArrayClass, path) == Ok(None)
    ensures r.Ok? && r.value.Some? ==>
      Walk(root, path).Some? && Walk(root, path).value.ByteArray?
      && VarInts(Walk(root, path).value.bytes) == Ok(r.value.value)
    ensures r.Err? ==> r.error in {NullPointer, IndexOutOfBounds, VarIntTooBig}
  {
    match GetTypedIn(root, ByteArrayClass, path)
    case Err(e) => Err(e)
    case Ok(None) => Ok(None)
    case Ok(Some(v)) =>
      match VarInts(v.bytes)
      case Ok(xs) => Ok(Some(xs))
      case Err(e) => Err(e)
  }

  // ---------------------------------------------------------------------
  // The class

  class NBTCompound {
    /** `null` when the compound has no name. */
    var name: Option<JString>
    var data: map<JString, Value>

    /** `new NBTCompound()`: no name, no entries. */
    constructor ()
      ensures name == None && data == map[]
    {
      name := None;
      data := map[];
    }

    /** `new NBTCompound(name)`. */
    constructor Named(name: JString)
      ensures this.name == Some(name) && data == map[]
    {
      this.name := Some(name);
      data := map[];
    }

    /** `getName()`: `Optional.of(name)`, which throws for a compound without a name
        instead of returning an empty `Optional`. */
    function GetName(): (r: Result<JString>)
      reads this
      ensures r.Ok? <==> name.Some?
      ensures r.Ok? ==> r.value == name.value
      ensures r.Err? ==> r.error == NullPointer
    {
      match name
      case Some(n) => Ok(n)
      case None => Err(NullPointer)
    }

    method SetName(name: Option<JString>)
      modifies this
      ensures this.name == name && data == old(data)
    {
      this.name := name;
    }

    /** `set(value, path)`: descends along all keys but the last, creating or replacing
        the compounds on the way, and stores `value` under the last key. An empty path
        makes `path[path.length - 1]` throw and changes nothing. */
    method Set(value: Value, path: seq<JString>) returns (r: Result<()>)
      modifies this
      ensures path == [] ==> r == Err(IndexOutOfBounds) && data == old(data)
      ensures path != [] ==> r == Ok(()) && data == SetPath(old(data), path, value)
      ensures name == old(name)
    {
      if path == [] {
        return Err(IndexOutOfBounds);
      }
      var frames: seq<Frame> := [];
      var curr := data;
      for i := 0 to |path| - 1
        invariant Rebuild(frames, SetPath(curr, path[i..], value)) == SetPath(old(data), path, value)
      {
        var part := path[i];
        var child := ChildEntries(curr, part);
        assert path[i..][0] == part && path[i..][1..] == path[i + 1..];
        var outer := frames + [Frame(curr, part)];
        assert outer[..|outer| - 1] == frames;
        frames := outer;
        curr := child;
      }
      data := Rebuild(frames, curr[path[|path| - 1] := value]);
      r := Ok(());
    }

    /** `get(path)` on this compound. */
    function Get(path: seq<JString>): (r: Result<Option<Value>>)
      reads this
      ensures path == [] ==> r == Ok(Some(Compound(data)))
    {
      GetIn(Compound(data), path)
    }

    /** `get(Class, path)` on this compound: the value at `path` when it is an instance of
        `c`, and empty when nothing or something of another class is there. */
    function GetTyped(c: JavaClass, path: seq<JString>): (r: Result<Option<Value>>)
      reads this
      ensures r.Err? <==> Get(path).Err?
      ensures r.Ok? && r.value.Some? ==>
        Get(path) == r && InstanceOf(r.value.value, c)
      ensures (Get(path).Ok? && Get(path).value.Some? && InstanceOf(Get(path).value.value, c)) ==>
        r == Get(path)
      ensures c == Other("java.lang.Object") ==> r == Get(path)
    {
      GetTypedIn(Compound(data), c, path)
    }

    /** `getByte(path)` .. `getLongArray(path)`. */
    function GetAs(a: Accessor, path: seq<JString>): (r: Result<Option<Value>>)
      reads this
      ensures r.Ok? && r.value.Some? ==> !r.value.value.Null? && Shape(r.value.value) == a.Kind()
      ensures (Get(path).Ok? && Get(path).value.Some? && !Get(path).value.value.Null?
               && Shape(Get(path).value.value) == a.Kind()) ==> r == Get(path)
    {
      GetTyped(a.Class(), path)
    }

    /** `getVarIntArray(path)`: decodes the byte array at `path` as VarInts, seven bits
        per byte, least significant group first, a clear high bit ending each number. */
    method GetVarIntArray(path: seq<JString>) returns (r: Result<Option<seq<i32>>>)
      ensures r == VarIntArrayIn(Compound(data), path)
    {
      var found := GetAs(GetByteArray, path);
      if found.Err? {
        return Err(found.error);
      }
      if found.value.None? {
        return Ok(None);
      }
      var xs := DecodeVarInts(found.value.value.bytes);
      match xs
      case Ok(ys) => r := Ok(Some(ys));
      case Err(e) => r := Err(e);
    }

    /** `equals`: two compounds are equal when their entries are, whatever their names. */
    predicate Equals(that: NBTCompound?)
      reads this, that
      ensures that == this ==> Equals(that)
      ensures that == null ==> !Equals(that)
    {
      that != null && data == that.data
    }
  }

  /** `equals` is symmetric, and two compounds are equal exactly when their entries
      are, whatever names they carry. */
  lemma EqualsIgnoresName(a: NBTCompound, b: NBTCompound?)
    ensures b != null ==> (a.Equals(b) <==> b.Equals(a))
    ensures b != null ==> (a.Equals(b) <==> a.data == b.data)
  {
  }

  /** The decoding loop of `getVarIntArray`: reads VarInts until the bytes run out. */
  method DecodeVarInts(bytes: seq<i8>) returns (r: Result<seq<i32>>)
    ensures r == VarInts(bytes)
  {
    var result: seq<i32> := [];
    var i := 0;
    assert bytes[i..] == bytes;
    if VarInts(bytes).Ok? {
      assert [] + VarInts(bytes).value == VarInts(bytes).value;
    }
    while i < |bytes|
      invariant 0 <= i <= |bytes|
      invariant VarInts(bytes) == Prepend(result, VarInts(bytes[i..]))
      decreases |bytes| - i
    {
      var start := i;
      var value: nat := 0;
      var length := 0;
      while true
        invariant start <= i <= |bytes| && 0 <= length <= 5 && value < TwoTo32
        invariant ReadVarInt(bytes[start..], 0, 0) == ReadVarInt(bytes[i..], length, value)
        decreases |bytes| - i
      {
        if i >= |bytes| {
          // the next byte is past the end of the array
          VarIntsOfError(bytes, start);
          return Err(IndexOutOfBounds);
        }
        if length == 5 {
          VarIntsOfError(bytes, start);
          return Err(VarIntTooBig);
        }
        value := (value + (bytes[i] % 128) * GroupWeight(length)) % TwoTo32;
        length := length + 1;
        assert bytes[i..][1..] == bytes[i + 1..];
        if bytes[i] >= 0 {
          i := i + 1;
          break;
        }
        i := i + 1;
      }
      VarIntsStep(bytes, start, i, ToInt32(value));
      PrependTwice(result, [ToInt32(value)], VarInts(bytes[i..]));
      result := result + [ToInt32(value)];
    }
    assert bytes[i..] == [] && result + [] == result;
    r := Ok(result);
  }

  // ---------------------------------------------------------------------
  // Lemmas about VarInts

  /** A VarInt read consumes at least one byte and leaves a suffix; when it consumes the
      rest of the data, the last byte is the one that ended the number. */
  lemma {:induction false} ReadVarIntConsumes(s: seq<i8>, k: nat, acc: nat)
    requires k <= 5 && acc < TwoTo32
    requires ReadVarInt(s, k, acc).Ok?
    ensures var rest := ReadVarInt(s, k, acc).value.1;
      |rest| < |s| && rest == s[|s| - |rest|..] && s[|s| - |rest| - 1] >= 0
  {
    var acc' := (acc + (s[0] % 128) * GroupWeight(k)) % TwoTo32;
    if s[0] < 0 {
      ReadVarIntConsumes(s[1..], k + 1, acc');
      var rest := ReadVarInt(s, k, acc).value.1;
      assert s[1..][|s| - 1 - |rest|..] == s[|s| - |rest|..];
    }
  }

  lemma PrependTwice(xs: seq<i32>, ys: seq<i32>, r: Result<seq<i32>>)
    ensures Prepend(xs, Prepend(ys, r)) == Prepend(xs + ys, r)
  {
    if r.Ok? {
      assert xs + (ys + r.value) == xs + ys + r.value;
    }
  }

  lemma VarIntsOfError(bytes: seq<i8>, start: nat)
    requires start < |bytes|
    requires ReadVarInt(bytes[start..], 0, 0).Err?
    ensures VarInts(bytes[start..]) == Err(ReadVarInt(bytes[start..], 0, 0).error)
  {
  }

  lemma VarIntsStep(bytes: seq<i8>, start: nat, i: nat, x: i32)
    requires start < i <= |bytes|
    requires ReadVarInt(bytes[start..], 0, 0) == Ok((x, bytes[i..]))
    ensures VarInts(bytes[start..]) == Prepend([x], VarInts(bytes[i..]))
  {
  }

  /** The number of bytes in `s` that end a VarInt: those whose high bit is clear. */
  function Terminators(s: seq<i8>): nat
    decreases |s|
  {
    if s == [] then 0 else (if s[0] >= 0 then 1 else 0) + Terminators(s[1..])
  }

  /** Σ (t[j] & 127) · 2^(7(k + j)): the groups `t` contribute from position `k` on. */
  function GroupSum(t: seq<i8>, k: nat): nat
    requires k + |t| <= 5
    decreases |t|
  {
    if t == [] then 0 else (t[0] % 128) * GroupWeight(k) + GroupSum(t[1..], k + 1)
  }

  /** `t` is one whole VarInt: at most five bytes, every one but the last with its
      high bit set. */
  predicate IsVarInt(t: seq<i8>) {
    0 < |t| <= 5 && t[|t| - 1] >= 0 && forall j :: 0 <= j < |t| - 1 ==> t[j] < 0
  }

  /** Reducing the first summand modulo 2^32 first does not change a sum modulo 2^32. */
  lemma ModAdd(a: nat, b: nat)
    ensures (a % TwoTo32 + b) % TwoTo32 == (a + b) % TwoTo32
  {
  }

  /** Reading a whole VarInt `t` that starts `s`, after `k` groups read into `acc`, adds
      the groups of `t` to `acc` in 32 bits and leaves what follows `t`. */
  lemma {:induction false} ReadVarIntValue(s: seq<i8>, n: nat, k: nat, acc: nat)
    requires n < |s| && k + n < 5 && acc < TwoTo32
    requires forall j :: 0 <= j < n ==> s[j] < 0
    requires s[n] >= 0
    ensures ReadVarInt(s, k, acc) == Ok((ToInt32((acc + GroupSum(s[..n + 1], k)) % TwoTo32), s[n + 1..]))
  {
    var g := (s[0] % 128) * GroupWeight(k);
    var acc' := (acc + g) % TwoTo32;
    var t := s[..n + 1];
    assert t[1..] == s[1..][..n];
    assert GroupSum(t, k) == g + GroupSum(t[1..], k + 1);
    if n == 0 {
      assert t[1..] == [];
    } else {
      ReadVarIntValue(s[1..], n - 1, k + 1, acc');
      assert s[1..][n..] == s[n + 1..];
      ModAdd(acc + g, GroupSum(t[1..], k + 1));
    }
  }

  /** The value of a single VarInt: the low 32 bits of Σ (b_j & 127) << 7j. */
  lemma SingleVarInt(t: seq<i8>)
    requires IsVarInt(t)
    ensures VarInts(t) == Ok([ToInt32(GroupSum(t, 0) % TwoTo32)])
  {
    ReadVarIntValue(t, |t| - 1, 0, 0);
    var x := ToInt32(GroupSum(t, 0) % TwoTo32);
    assert t[..|t|] == t;
    assert t[|t|..] == [];
    assert VarInts([]) == Ok([]) && [x] + [] == [x];
  }

  /** Bytes E5 8E 26 hold the one number 624485 = 0x65 + 0x0E·2^7 + 0x26·2^14. */
  lemma VarIntExample()
    ensures VarInts([-27, -114, 38]) == Ok([624485])
  {
    var t: seq<i8> := [-27, -114, 38];
    assert t[1..] == [-114, 38] && t[1..][1..] == [38] && [38][1..] == [];
    assert ReadVarInt([38], 2, 1893) == Ok((624485, []));
    assert ReadVarInt([-114, 38], 1, 101) == Ok((624485, []));
    assert ReadVarInt(t, 0, 0) == Ok((624485, []));
    assert VarInts([]) == Ok([]);
    assert [624485] + [] == [624485];
    assert VarInts(t) == Prepend([624485], VarInts([]));
  }

  /** A VarInt array decodes to as many numbers as it has bytes with a clear high bit. */
  lemma {:induction false} VarIntCount(s: seq<i8>)
    requires VarInts(s).Ok?
    ensures |VarInts(s).value| == Terminators(s)
    decreases |s|
  {
    if s != [] {
      var rest := ReadVarInt(s, 0, 0).value.1;
      ReadVarIntConsumes(s, 0, 0);
      TerminatorsOfRead(s, 0, 0);
      VarIntCount(rest);
    }
  }

  /** The bytes one VarInt read consumes hold exactly one terminator. */
  lemma {:induction false} TerminatorsOfRead(s: seq<i8>, k: nat, acc: nat)
    requires k <= 5 && acc < TwoTo32
    requires ReadVarInt(s, k, acc).Ok?
    ensures Terminators(s) == 1 + Terminators(ReadVarInt(s, k, acc).value.1)
    decreases |s|
  {
    if s[0] < 0 {
      TerminatorsOfRead(s[1..], k + 1, (acc + (s[0] % 128) * GroupWeight(k)) % TwoTo32);
    }
  }

  /** Data that ends in a byte with its high bit set fails: the last VarInt runs past
      the end of the array. */
  lemma {:induction false} TrailingContinuationFails(s: seq<i8>)
    requires s != [] && s[|s| - 1] < 0
    ensures VarInts(s).Err?
    decreases |s|
  {
    var r := ReadVarInt(s, 0, 0);
    if r.Ok? {
      var rest := r.value.1;
      ReadVarIntConsumes(s, 0, 0);
      assert rest != [] && rest[|rest| - 1] == s[|s| - 1];
      TrailingContinuationFails(rest);
    }
  }

  /** Five bytes with the high bit set start a number that does not fit in an `int`: a
      sixth byte is rejected, and without one the read runs past the end. */
  lemma TooLongVarInt(s: seq<i8>)
    requires |s| >= 5 && forall j :: 0 <= j < 5 ==> s[j] < 0
    ensures |s| > 5 ==> VarInts(s) == Err(VarIntTooBig)
    ensures |s| == 5 ==> VarInts(s) == Err(IndexOutOfBounds)
  {
    TooLongRead(s, 0, 0);
  }

  lemma {:induction false} TooLongRead(s: seq<i8>, k: nat, acc: nat)
    requires k <= 5 && acc < TwoTo32
    requires |s| >= 5 - k && forall j :: 0 <= j < 5 - k ==> s[j] < 0
    ensures |s| > 5 - k ==> ReadVarInt(s, k, acc) == Err(VarIntTooBig)
    ensures |s| == 5 - k ==> ReadVarInt(s, k, acc) == Err(IndexOutOfBounds)
    decreases 5 - k
  {
    if k < 5 {
      TooLongRead(s[1..], k + 1, (acc + (s[0] % 128) * GroupWeight(k)) % TwoTo32);
    }
  }

  // ---------------------------------------------------------------------
  // Lemmas about paths

  /** Walking `p` and then `q` is walking `p + q`. */
  lemma {:induction false} WalkAppend(v: Value, p: seq<JString>, q: seq<JString>)
    ensures Walk(v, p + q) == (match Walk(v, p) case None => None case Some(w) => Walk(w, q))
    decreases |p|
  {
    if p == [] {
      assert p + q == q;
    } else {
      assert (p + q)[0] == p[0] && (p + q)[1..] == p[1..] + q;
      if v.Compound? && p[0] in v.entries {
        WalkAppend(v.entries[p[0]], p[1..], q);
      }
    }
  }

  /** After `set(v, path)`, `path` leads to `v`; so `get(path)` returns it, or throws
      when `v` is `null`. */
  lemma {:induction false} GetAfterSet(m: map<JString, Value>, path: seq<JString>, v: Value)
    requires |path| > 0
    ensures Walk(Compound(SetPath(m, path, v)), path) == Some(v)
    ensures GetIn(Compound(SetPath(m, path, v)), path) == if v.Null? then Err(NullPointer) else Ok(Some(v))
    decreases |path|
  {
    if |path| > 1 {
      GetAfterSet(ChildEntries(m, path[0]), path[1..], v);
    }
  }

  /** The entries at a non-empty path are those at its tail within the compound under
      its first key. */
  lemma EntriesAtStep(m: map<JString, Value>, p: seq<JString>)
    requires |p| > 0
    ensures EntriesAt(m, p) == EntriesAt(ChildEntries(m, p[0]), p[1..])
  {
    if p[0] in m && m[p[0]].Compound? {
      assert m[p[0]] == Compound(ChildEntries(m, p[0]));
    } else if |p| > 1 {
      assert Walk(Compound(map[]), p[1..]) == None;
      assert Walk(Compound(m), p) == None;
    } else {
      assert p[1..] == [];
      assert Walk(Compound(map[]), p[1..]) == Some(Compound(map[]));
      if p[0] in m {
        assert Walk(Compound(m), p) == Walk(m[p[0]], p[1..]) == Some(m[p[0]]);
      }
    }
  }

  /** After `set(v, path)`, each proper prefix `path[..j]` leads to a compound: the one
      that was there, with every other entry kept, or a fresh one where none was; and
      the key `path[j]` is added to it. */
  lemma {:induction false} SetAlongPath(m: map<JString, Value>, path: seq<JString>, v: Value, j: nat)
    requires j < |path|
    ensures var w := Walk(Compound(SetPath(m, path, v)), path[..j]);
      w.Some? && w.value.Compound?
    ensures var e := EntriesAt(SetPath(m, path, v), path[..j]);
      var before := EntriesAt(m, path[..j]);
      e.Keys == before.Keys + {path[j]} &&
      forall k :: k in before && k != path[j] ==> e[k] == before[k]
    decreases j
  {
    if j > 0 {
      var c := ChildEntries(m, path[0]);
      SetAlongPath(c, path[1..], v, j - 1);
      assert path[..j][1..] == path[1..][..j - 1];
      assert path[..j][0] == path[0];
      EntriesAtStep(m, path[..j]);
      EntriesAtStep(SetPath(m, path, v), path[..j]);
    }
  }

  /** `set(v, path)` changes nothing a diverging path leads to: a path that agrees
      with `path` on its first `i` keys and differs at key `i`. */
  lemma {:induction false} SetLeavesOthers(m: map<JString, Value>, path: seq<JString>, v: Value, q: seq<JString>, i: nat)
    requires i < |q| && i < |path|
    requires q[..i] == path[..i] && q[i] != path[i]
    ensures Walk(Compound(SetPath(m, path, v)), q) == Walk(Compound(m), q)
    decreases i
  {
    if i > 0 {
      assert q[0] == path[0];
      var c := ChildEntries(m, path[0]);
      assert q[1..][..i - 1] == path[1..][..i - 1];
      SetLeavesOthers(c, path[1..], v, q[1..], i - 1);
      if !(q[0] in m && m[q[0]].Compound?) {
        assert Walk(Compound(map[]), q[1..]) == None;
      }
    }
  }

  /** Setting along a path through an empty compound builds one new compound per key
      but the last: `set(v, a, b, c)` gives `{a: {b: {c: v}}}`. */
  lemma SetOnEmpty(a: JString, b: JString, c: JString, v: Value)
    ensures SetPath(map[], [a, b, c], v) == map[a := Compound(map[b := Compound(map[c := v])])]
  {
    assert [a, b, c][1..] == [b, c] && [b, c][1..] == [c];
    assert SetPath(map[], [c], v) == map[c := v];
    assert SetPath(map[], [b, c], v) == map[b := Compound(map[c := v])];
  }

  /** A typed `get` right after `set(v, path)` returns `v` exactly when `v` is an
      instance of the class asked for, and is empty otherwise. */
  lemma TypedGetAfterSet(m: map<JString, Value>, path: seq<JString>, v: Value, c: JavaClass)
    requires |path| > 0 && !v.Null?
    ensures GetTypedIn(Compound(SetPath(m, path, v)), c, path) == Ok(if InstanceOf(v, c) then Some(v) else None)
  {
    GetAfterSet(m, path, v);
  }
}
