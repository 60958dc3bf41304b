/**
 * C#'s integer remainder, its truncating conversion from floating point and Unity's
 * `Mathf.Clamp`, with the facts about Euclidean division the model needs.
 */
module CsArith {

  /** C#'s `%` on a positive divisor: the remainder takes the sign of the dividend. */
  function CsRem(a: int, n: int): (r: int)
    requires n > 0
    ensures a >= 0 ==> 0 <= r < n
    ensures a < 0 ==> -n < r <= 0
  {
    if a >= 0 then a % n else -((-a) % n)
  }

  /** The remainder of a number below the divisor is the number, and the divisor leaves none. */
  lemma CsRemCases(a: int, n: int)
    requires n > 0
    ensures 0 <= a < n ==> CsRem(a, n) == a
    ensures a == n ==> CsRem(a, n) == 0
  {
    if 0 <= a < n {
      ModSmall(a, n);
    }
    if a == n {
      ModSelf(n);
    }
  }

  lemma MulAtLeast(a: int, b: int)
    requires a >= 1 && b >= 0
    ensures a * b >= b
  {
    assert a * b == (a - 1) * b + b;
  }

  lemma ModSmall(a: int, n: int)
    requires n > 0 && 0 <= a < n
    ensures a % n == a
  {
    var q, m := a / n, a % n;
    assert a == q * n + m;
    if q > 0 {
      MulAtLeast(q, n);
    } else if q < 0 {
      MulAtLeast(-q, n);
    }
  }

  lemma ModSelf(n: int)
    requires n > 0
    ensures n % n == 0
  {
    var q, m := n / n, n % n;
    assert n == q * n + m;
    if q > 1 {
      MulAtLeast(q - 1, n);
    } else if q < 1 {
      MulAtLeast(1 - q, n);
    }
  }

  /**
   * Unity's `Mathf.Clamp` on integers: the lower bound is checked first, so when the
   * bounds cross a value below the lower bound gives the lower bound and any other
   * value the upper one.
   */
  function MathfClamp(value: int, min: int, max: int): (r: int)
    ensures min <= max ==> min <= r <= max
    ensures min <= value <= max ==> r == value
    ensures value < min ==> r == min
    ensures max < min && value >= min ==> r == max
  {
    if value < min then min else if value > max then max else value
  }

  /** The cast `(int) x` of a floating-point value: the fraction is dropped, toward zero. */
  function TruncToInt(x: real): (r: int)
    ensures x >= 0.0 ==> 0.0 <= r as real <= x < r as real + 1.0
    ensures x < 0.0 ==> r as real - 1.0 < x <= r as real <= 0.0
  {
    if x >= 0.0 then x.Floor else -((-x).Floor)
  }
}
