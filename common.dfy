/** Machine-integer helpers shared by the profiling runtimes and passes:
    powers of two, the 32- and 64-bit wrap-around of C's unsigned types and
    the reinterpretation of an unsigned 64-bit word as a signed `long`. */
module Common {

  datatype Option<T> = None | Some(value: T)

  const TWO_31: int := 0x8000_0000
  const TWO_32: int := 0x1_0000_0000
  const TWO_63: int := 0x8000_0000_0000_0000
  const TWO_64: int := 0x1_0000_0000_0000_0000

  /** 2^k */
  function Pow2(k: nat): (r: nat)
    ensures r >= 1
  {
    if k == 0 then 1 else 2 * Pow2(k - 1)
  }

  lemma {:induction false} Pow2Monotone(j: nat, k: nat)
    requires j <= k
    ensures Pow2(j) <= Pow2(k)
  {
    if j < k {
      Pow2Monotone(j, k - 1);
    }
  }

  lemma {:induction false} Pow2Add(j: nat, k: nat)
    ensures Pow2(j + k) == Pow2(j) * Pow2(k)
  {
    if k > 0 {
      Pow2Add(j, k - 1);
    }
  }

  predicate IsU64(x: int) { 0 <= x < TWO_64 }
  predicate IsI64(x: int) { -TWO_63 <= x < TWO_63 }
  predicate IsU32(x: int) { 0 <= x < TWO_32 }
  predicate IsI32(x: int) { -0x8000_0000 <= x < 0x8000_0000 }

  /** Unsigned 64-bit arithmetic result: reduction modulo 2^64. */
  function WrapU64(x: int): (r: int)
    ensures IsU64(r)
    ensures IsU64(x) ==> r == x
  {
    x % TWO_64
  }

  /** Unsigned 32-bit arithmetic result: reduction modulo 2^32. */
  function WrapU32(x: int): (r: int)
    ensures IsU32(r)
    ensures IsU32(x) ==> r == x
  {
    x % TWO_32
  }

  /** The signed `long` that has the same 64 bits as the unsigned word `x`. */
  function ToSigned64(x: int): (r: int)
    requires IsU64(x)
    ensures IsI64(r)
    ensures (r - x) % TWO_64 == 0
  {
    if x < TWO_63 then x else x - TWO_64
  }

  /** The unsigned word that has the same 64 bits as the signed `long` `x`. */
  function ToUnsigned64(x: int): (r: int)
    requires IsI64(x)
    ensures IsU64(r)
    ensures (r - x) % TWO_64 == 0
  {
    if x >= 0 then x else x + TWO_64
  }

  lemma SignedUnsignedRoundTrip(x: int)
    requires IsU64(x)
    ensures ToUnsigned64(ToSigned64(x)) == x
  {
  }

  lemma UnsignedSignedRoundTrip(x: int)
    requires IsI64(x)
    ensures ToSigned64(ToUnsigned64(x)) == x
  {
  }

  /** A signed 64-bit result computed with two's-complement wrap-around. */
  function WrapI64(x: int): (r: int)
    ensures IsI64(r)
    ensures IsI64(x) ==> r == x
    ensures (r - x) % TWO_64 == 0
  {
    ToSigned64(WrapU64(x))
  }

  /** A signed 32-bit `int` holding `x` with two's-complement wrap-around,
      as a store of a wider value into an `int` does. */
  function WrapI32(x: int): (r: int)
    ensures IsI32(r)
    ensures IsI32(x) ==> r == x
  {
    var u := WrapU32(x);
    if u < 0x8000_0000 then u else u - TWO_32
  }

  /** C's `/` on integers: the quotient truncated toward zero, so that the
      remainder `a - q * b` has the sign of `a` and is smaller than `b` in
      magnitude. */
  function TruncDiv(a: int, b: int): (q: int)
    requires b != 0
    ensures a >= 0 && b > 0 ==> q == a / b
    ensures a >= 0 ==> 0 <= a - q * b < (if b > 0 then b else -b)
    ensures a < 0 ==> -(if b > 0 then b else -b) < a - q * b <= 0
  {
    if (a >= 0) == (b > 0) then
      (if a >= 0 then a else -a) / (if b > 0 then b else -b)
    else
      -((if a >= 0 then a else -a) / (if b > 0 then b else -b))
  }

  function Count<T(==)>(s: seq<T>, x: T): (n: nat)
    ensures n <= |s|
  {
    if s == [] then 0 else Count(s[..|s| - 1], x) + (if s[|s| - 1] == x then 1 else 0)
  }

  lemma {:induction false} CountIsMultiplicity<T>(s: seq<T>, x: T)
    ensures Count(s, x) == multiset(s)[x]
  {
    if s != [] {
      CountIsMultiplicity(s[..|s| - 1], x);
      assert s == s[..|s| - 1] + [s[|s| - 1]];
    }
  }

  lemma CountSnoc<T>(s: seq<T>, x: T, y: T)
    ensures Count(s + [x], y) == Count(s, y) + (if x == y then 1 else 0)
  {
    assert (s + [x])[..|s|] == s;
  }

  lemma {:induction false} CountPositive<T>(s: seq<T>, x: T)
    ensures Count(s, x) > 0 <==> x in s
  {
    if s != [] {
      CountPositive(s[..|s| - 1], x);
      assert s == s[..|s| - 1] + [s[|s| - 1]];
    }
  }

  /** Two's-complement subtraction of two `long`s is zero exactly when they are equal. */
  lemma WrapI64Zero(a: int, b: int)
    requires IsI64(a) && IsI64(b)
    ensures WrapI64(a - b) == 0 <==> a == b
  {
    var d := a - b;
    assert -TWO_64 < d < TWO_64;
    if d < 0 {
      assert d % TWO_64 == d + TWO_64;
    } else {
      assert d % TWO_64 == d;
    }
  }
}
