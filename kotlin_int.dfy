/**
 * Kotlin's `Int` on the JVM: 32-bit two's complement, with wrap-around on
 * overflow, and a remainder operator `%` that truncates toward zero.
 */
module KotlinInt {

  const MIN_VALUE: int := -0x8000_0000
  const MAX_VALUE: int := 0x7fff_ffff
  const MODULUS: int := 0x1_0000_0000

  type Int32 = x: int | -0x8000_0000 <= x <= 0x7fff_ffff

  function Abs(x: int): nat
  {
    if x < 0 then -x else x
  }

  /** Division with remainder has a single answer: the remainder in [0, m)
      fixes both the quotient and the remainder. */
  lemma DivModUnique(n: int, m: int, q: int, r: int)
    requires m > 0
    requires n == q * m + r && 0 <= r < m
    ensures n / m == q && n % m == r
  {
    var q', r' := n / m, n % m;
    if q > q' {
      MulDistributes(q - q', q', m);
      MulAtLeast(q - q', m);
    } else if q < q' {
      MulDistributes(q' - q, q, m);
      MulAtLeast(q' - q, m);
    }
  }

  lemma MulDistributes(a: int, b: int, m: int)
    ensures (a + b) * m == a * m + b * m
  {
  }

  lemma {:induction false} MulAtLeast(d: int, m: int)
    requires d >= 1 && m > 0
    ensures d * m >= m
  {
    if d > 1 {
      MulAtLeast(d - 1, m);
      MulDistributes(d - 1, 1, m);
    }
  }

  /** The 32-bit value an `Int` operation yields for the mathematical result `x`. */
  function Wrap32(x: int): (r: Int32)
    ensures MIN_VALUE <= x <= MAX_VALUE ==> r == x
    ensures (x - r) % MODULUS == 0
  {
    var k := (x - MIN_VALUE) / MODULUS;
    var r := x - k * MODULUS;
    assert (x - r) % MODULUS == 0 by {
      DivModUnique(x - r, MODULUS, k, 0);
    }
    assert MIN_VALUE <= x <= MAX_VALUE ==> r == x by {
      if MIN_VALUE <= x <= MAX_VALUE {
        DivModUnique(x - MIN_VALUE, MODULUS, 0, x - MIN_VALUE);
      }
    }
    r
  }

  /** Values that differ by a multiple of 2^32 wrap to the same `Int`. */
  lemma WrapShift(x: int, k: int)
    ensures Wrap32(x + k * MODULUS) == Wrap32(x)
  {
    var q := (x - MIN_VALUE) / MODULUS;
    var t := (x - MIN_VALUE) % MODULUS;
    DivModUnique(x + k * MODULUS - MIN_VALUE, MODULUS, q + k, t);
  }

  /** Wrapping an intermediate sum does not change the wrapped total. */
  lemma WrapAdd(a: int, b: int)
    ensures Wrap32(Wrap32(a) + b) == Wrap32(a + b)
  {
    var k := (a - MIN_VALUE) / MODULUS;
    assert Wrap32(a) == a - k * MODULUS;
    WrapShift(a + b, -k);
  }

  /** Doubling wraps to an even `Int`: 2^32 is even. */
  lemma WrapOfEvenIsEven(x: int)
    requires x % 2 == 0
    ensures Wrap32(x) % 2 == 0
  {
    var k := (x - MIN_VALUE) / MODULUS;
    assert Wrap32(x) == x - k * MODULUS;
    assert x - k * MODULUS == 2 * (x / 2 - k * 0x8000_0000);
  }

  /** JVM `a % b` on `Int`: the remainder of the division truncated toward
      zero, which has the sign of `a`. `b == 0` throws ArithmeticException. */
  function Rem(a: Int32, b: Int32): (r: Int32)
    requires b != 0
    ensures Abs(r) < Abs(b)
    ensures a >= 0 ==> r >= 0
    ensures a < 0 ==> r <= 0
    ensures (a - r) % Abs(b) == 0
  {
    var q := Abs(a) / Abs(b);
    var t := Abs(a) % Abs(b);
    if a >= 0 then
      DivModUnique(a - t, Abs(b), q, 0);
      t
    else
      DivModUnique(a + t, Abs(b), -q, 0);
      -t
  }

  /** The mathematical sum of a list of `Int`s. */
  function Sum(xs: seq<Int32>): int
  {
    if xs == [] then 0 else Sum(xs[..|xs| - 1]) + xs[|xs| - 1]
  }

  /** Kotlin's `Iterable<Int>.sum()`: adds from left to right with `Int`
      arithmetic, so each partial sum wraps. */
  function SumInt32(xs: seq<Int32>): Int32
  {
    if xs == [] then 0 else Wrap32(SumInt32(xs[..|xs| - 1]) + xs[|xs| - 1])
  }

  /** Wrapping at each step is wrapping the mathematical sum once. */
  lemma {:induction false} SumInt32IsWrappedSum(xs: seq<Int32>)
    ensures SumInt32(xs) == Wrap32(Sum(xs))
  {
    if xs != [] {
      var init := xs[..|xs| - 1];
      SumInt32IsWrappedSum(init);
      WrapAdd(Sum(init), xs[|xs| - 1]);
    }
  }

  /** An even `Int` leaves no remainder under JVM `% 2`. */
  lemma RemOfEven(a: Int32)
    requires a % 2 == 0
    ensures Rem(a, 2) == 0
  {
    var r := Rem(a, 2);
    assert (a - r) % 2 == 0 && -1 <= r <= 1;
  }
}
