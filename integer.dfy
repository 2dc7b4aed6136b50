/** `Int.modulo(m)` of the example application: a remainder that is never
    negative for a positive modulus. */
module Integers {
  import opened KotlinInt

  function Modulo(n: Int32, m: Int32): (r: Int32)
    requires m != 0
    ensures m > 0 ==> 0 <= r < m
    ensures m > 0 ==> (n - r) % m == 0
    ensures m > 0 ==> r == n % m
    ensures 0 <= n < m ==> r == n
  {
    var result := Rem(n, m);
    if result >= 0 then
      RemIsEuclidean(n, m, result);
      result
    else
      RemIsEuclidean(n, m, result);
      Wrap32(result + m)
  }

  /** For a positive modulus, the truncated remainder equals the Euclidean
      one, or falls short of it by exactly `m`. */
  lemma RemIsEuclidean(n: int, m: int, result: int)
    requires Abs(result) < Abs(m)
    requires (n - result) % Abs(m) == 0
    ensures m > 0 && result >= 0 ==> n % m == result
    ensures m > 0 && result < 0 ==> n % m == result + m
    ensures m > 0 ==> (n - n % m) % m == 0
    ensures 0 <= n < m ==> n % m == n
  {
    if m > 0 {
      var k := (n - result) / m;
      assert n == k * m + result;
      if result >= 0 {
        DivModUnique(n, m, k, result);
      } else {
        MulDistributes(k - 1, 1, m);
        DivModUnique(n, m, k - 1, result + m);
      }
      DivModUnique(n - n % m, m, n / m, 0);
      if 0 <= n < m {
        DivModUnique(n, m, 0, n);
      }
    }
  }

  /** For a positive modulus the adjustment `result + m` stays within `Int`
      range, so it never wraps. */
  lemma ModuloAdjustmentFitsInt(n: Int32, m: Int32)
    requires m > 0
    ensures Rem(n, m) < 0 ==> MIN_VALUE <= Rem(n, m) + m <= MAX_VALUE
  {
  }
}
