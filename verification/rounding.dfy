/**
 Python's `round` on the exact quotient n / d: round to the nearest integer,
 and on a tie (a fractional part of exactly one half) to the even neighbour.
 */
module Rounding {

  function Abs(x: int): int
  {
    if x < 0 then -x else x
  }

  /** `r` is a nearest integer to n / d, and the even one when two are nearest. */
  ghost predicate IsNearestEven(n: int, d: int, r: int)
  {
    && 2 * Abs(n - r * d) <= Abs(d)
    && (2 * Abs(n - r * d) == Abs(d) ==> r % 2 == 0)
  }

  /** Round half to even of n / d, computed from the floor quotient and remainder. */
  function RoundHalfEven(n: int, d: int): (r: int)
    requires d != 0
    ensures IsNearestEven(n, d, r)
  {
    if d < 0 then
      var r := RoundHalfEvenPositive(-n, -d);
      NegateBoth(n, d, r);
      r
    else
      RoundHalfEvenPositive(n, d)
  }

  function RoundHalfEvenPositive(n: int, d: int): (r: int)
    requires d > 0
    ensures IsNearestEven(n, d, r)
  {
    var q, m := n / d, n % d;
    assert n - q * d == m && 0 <= m < d;
    assert n - (q + 1) * d == m - d by {
      assert (q + 1) * d == q * d + d;
    }
    if 2 * m > d then q + 1
    else if 2 * m < d then q
    else if q % 2 == 0 then q
    else q + 1
  }

  lemma NegateBoth(n: int, d: int, r: int)
    requires d < 0
    requires IsNearestEven(-n, -d, r)
    ensures IsNearestEven(n, d, r)
  {
  }

  /** At most one integer is a nearest-even rounding of n / d, so the
      characterisation above pins `RoundHalfEven` down completely. */
  lemma NearestEvenUnique(n: int, d: int, r1: int, r2: int)
    requires d != 0
    requires IsNearestEven(n, d, r1) && IsNearestEven(n, d, r2)
    ensures r1 == r2
  {
    var e1, e2, k := n - r1 * d, n - r2 * d, r2 - r1;
    if k != 0 {
      assert Abs(k * d) >= Abs(d) by {
        AbsProduct(k, d);
        MulMonotone(Abs(k), 1, Abs(d));
      }
      assert 2 * Abs(e1) == Abs(d) && 2 * Abs(e2) == Abs(d) by {
        ErrorDifference(n, d, r1, r2);
      }
      assert Abs(k) >= 2 by {
        EvenDifference(r1, r2);
      }
      assert Abs(k * d) >= 2 * Abs(d) by {
        AbsProduct(k, d);
        MulMonotone(Abs(k), 2, Abs(d));
      }
      assert false by {
        ErrorDifference(n, d, r1, r2);
      }
    }
  }

  lemma ErrorDifference(n: int, d: int, r1: int, r2: int)
    ensures (r2 - r1) * d == (n - r1 * d) - (n - r2 * d)
  {
  }

  /** Two distinct even integers are at least 2 apart. */
  lemma EvenDifference(a: int, b: int)
    requires a % 2 == 0 && b % 2 == 0 && a != b
    ensures Abs(b - a) >= 2
  {
  }

  lemma AbsProduct(k: int, d: int)
    ensures Abs(k * d) == Abs(k) * Abs(d)
  {
  }

  lemma MulMonotone(a: int, b: int, c: int)
    requires a >= b && c >= 0
    ensures a * c >= b * c
  {
  }
}
