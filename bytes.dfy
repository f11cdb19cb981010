/**
 * Fixed-width big-endian integers, as `java.io.DataInputStream` reads them and
 * `java.io.DataOutputStream` writes them. A byte on the wire is a `u8`; Java's
 * signed integer types are the ranges `i8` .. `i64`, stored in two's complement.
 */
module Bytes {

  type u8 = x: int | 0 <= x < 0x100
  type i8 = x: int | -0x80 <= x < 0x80
  type i16 = x: int | -0x8000 <= x < 0x8000
  type i32 = x: int | -0x8000_0000 <= x < 0x8000_0000
  type i64 = x: int | -0x8000_0000_0000_0000 <= x < 0x8000_0000_0000_0000

  function Pow256(n: nat): (p: nat)
    ensures p > 0
  {
    if n == 0 then 1 else 256 * Pow256(n - 1)
  }

  lemma Pow256Widths()
    ensures Pow256(1) == 0x100 && Pow256(2) == 0x1_0000
    ensures Pow256(4) == 0x1_0000_0000 && Pow256(8) == 0x1_0000_0000_0000_0000
  {
  }

  /** The `n` big-endian bytes of the unsigned number `x`. */
  function BigEndian(x: nat, n: nat): (r: seq<u8>)
    requires x < Pow256(n)
    ensures |r| == n
  {
    if n == 0 then [] else BigEndian(x / 256, n - 1) + [x % 256]
  }

  /** The unsigned number whose big-endian bytes are `s`. */
  function Unsigned(s: seq<u8>): (x: nat)
    ensures x < Pow256(|s|)
  {
    if s == [] then 0 else Unsigned(s[..|s| - 1]) * 256 + s[|s| - 1]
  }

  lemma {:induction false} UnsignedOfBigEndian(x: nat, n: nat)
    requires x < Pow256(n)
    ensures Unsigned(BigEndian(x, n)) == x
  {
    if n > 0 {
      var r := BigEndian(x, n);
      assert r[..n - 1] == BigEndian(x / 256, n - 1);
      UnsignedOfBigEndian(x / 256, n - 1);
    }
  }

  lemma {:induction false} BigEndianOfUnsigned(s: seq<u8>)
    ensures BigEndian(Unsigned(s), |s|) == s
  {
    if s != [] {
      var n := |s|;
      var init := s[..n - 1];
      BigEndianOfUnsigned(init);
      assert Unsigned(s) / 256 == Unsigned(init);
      assert Unsigned(s) % 256 == s[n - 1];
      assert s == init + [s[n - 1]];
    }
  }

  /** `x` fits in `n` bytes of two's complement. */
  predicate InRange(x: int, n: nat) {
    var half: int := Pow256(n) / 2;
    n > 0 && -half <= x < half
  }

  /** The ranges of Java's `byte`, `short`, `int` and `long`. */
  lemma InRangeWidths()
    ensures forall x :: InRange(x, 1) <==> -0x80 <= x < 0x80
    ensures forall x :: InRange(x, 2) <==> -0x8000 <= x < 0x8000
    ensures forall x :: InRange(x, 4) <==> -0x8000_0000 <= x < 0x8000_0000
    ensures forall x :: InRange(x, 8) <==> -0x8000_0000_0000_0000 <= x < 0x8000_0000_0000_0000
  {
    Pow256Widths();
  }

  /** The `n` bytes of `x` in two's complement, most significant first
      (`writeByte`, `writeShort`, `writeInt`, `writeLong` for n = 1, 2, 4, 8). */
  function Signed(x: int, n: nat): (r: seq<u8>)
    requires InRange(x, n)
    ensures |r| == n
  {
    BigEndian(if x < 0 then x + Pow256(n) else x, n)
  }

  /** The two's-complement value of the bytes `s`
      (`readByte`, `readShort`, `readInt`, `readLong` for |s| = 1, 2, 4, 8). */
  function SignedValue(s: seq<u8>): (x: int)
    requires |s| > 0
    ensures InRange(x, |s|)
  {
    var u := Unsigned(s);
    if u < Pow256(|s|) / 2 then u else u - Pow256(|s|)
  }

  lemma SignedRoundTrip(x: int, n: nat)
    requires InRange(x, n)
    ensures SignedValue(Signed(x, n)) == x
  {
    UnsignedOfBigEndian(if x < 0 then x + Pow256(n) else x, n);
  }

  lemma SignedValueRoundTrip(s: seq<u8>)
    requires |s| > 0
    ensures Signed(SignedValue(s), |s|) == s
  {
    BigEndianOfUnsigned(s);
  }

  /** A negative value is exactly one whose first byte has its high bit set. */
  lemma {:induction false} NegativeIffHighBit(s: seq<u8>)
    requires |s| > 0
    ensures SignedValue(s) < 0 <==> s[0] >= 0x80
  {
    var q := Pow256(|s| - 1);
    assert Pow256(|s|) / 2 == 128 * q;
    UnsignedLeading(s);
    if s[0] >= 0x80 {
      MulMono(0x80, s[0], q);
    } else {
      MulMono(s[0] + 1, 0x80, q);
    }
  }

  /** Concatenation of byte strings is associative. */
  lemma Assoc(a: seq<u8>, b: seq<u8>, c: seq<u8>)
    ensures a + b + c == a + (b + c)
  {
  }

  lemma MulMono(a: nat, b: nat, q: nat)
    requires a <= b
    ensures a * q <= b * q
  {
  }

  lemma {:induction false} UnsignedLeading(s: seq<u8>)
    requires |s| > 0
    ensures s[0] * Pow256(|s| - 1) <= Unsigned(s) < (s[0] + 1) * Pow256(|s| - 1)
  {
    var n := |s|;
    if n > 1 {
      var init := s[..n - 1];
      UnsignedLeading(init);
      assert init[0] == s[0];
      LeadingStep(s[0], Unsigned(init), s[n - 1], Pow256(n - 2));
    }
  }

  /** One more byte after a number whose leading byte is `a` keeps `a` leading. */
  lemma LeadingStep(a: nat, u: nat, last: nat, p: nat)
    requires a * p <= u < (a + 1) * p && last < 256
    ensures a * (256 * p) <= u * 256 + last < (a + 1) * (256 * p)
  {
    assert a * (256 * p) == 256 * (a * p);
    assert (a + 1) * (256 * p) == 256 * ((a + 1) * p);
  }
}
