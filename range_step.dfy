/**
 * `AcceptableValueIntRangeStep`: a configuration range `[MinValue, MaxValue]` that
 * accepts only the values `MinValue + k * Step`. The base class's clamp and range test
 * are the plain ones; the float quotient in `Clamp` is taken as exact and rounded to
 * the nearest integer with ties to even, as `Math.Round` does.
 */
module RangeStep {
  import opened Wrappers
  import SodaliteUtils
  import Formatting
  import CsArith

  datatype IntRangeStep = IntRangeStep(MinValue: int, MaxValue: int, Step: int)

  /** `IsValid` throws `DivideByZeroException` for a zero step once the value is in range. */
  datatype RangeError = DivideByZero

  function Abs(x: int): nat
  {
    if x < 0 then -x else x
  }

  /** The base `Clamp`: below the range gives the minimum, above it the maximum. */
  function BaseClamp(rs: IntRangeStep, v: int): (r: int)
    ensures rs.MinValue <= rs.MaxValue ==> rs.MinValue <= r <= rs.MaxValue
    ensures rs.MinValue <= v <= rs.MaxValue ==> r == v
  {
    if v < rs.MinValue then rs.MinValue else if v > rs.MaxValue then rs.MaxValue else v
  }

  /** `Math.Round(n / d)`: the integer nearest the quotient, and the even one of two equally near. */
  function RoundHalfEven(n: int, d: int): (r: int)
    requires d != 0
    ensures 2 * Abs(n - r * d) <= Abs(d)
    ensures 2 * Abs(n - r * d) == Abs(d) ==> r % 2 == 0
  {
    if d < 0 then
      var r := RoundPositive(-n, -d);
      NegatedRemainder(n, d, r);
      r
    else
      RoundPositive(n, d)
  }

  /** The rounding for a positive divisor, from the Euclidean quotient and remainder. */
  function RoundPositive(n: int, d: int): (r: int)
    requires d > 0
    ensures 2 * Abs(n - r * d) <= d
    ensures 2 * Abs(n - r * d) == d ==> r % 2 == 0
  {
    var q := n / d;
    var m := n % d;
    assert n - q * d == m by { assert n == q * d + m; }
    assert n - (q + 1) * d == m - d by { assert (q + 1) * d == q * d + d; }
    if 2 * m < d then q
    else if 2 * m > d then q + 1
    else if q % 2 == 0 then q
    else q + 1
  }

  /** Negating both operands leaves the distance from a multiple unchanged. */
  lemma NegatedRemainder(n: int, d: int, r: int)
    ensures Abs(n - r * d) == Abs(-n - r * -d)
  {
    assert r * -d == -(r * d);
  }

  /** Only one integer is within half a divisor of a multiple of it: the multiplier. */
  lemma RoundExact(k: int, d: int)
    requires d != 0
    ensures RoundHalfEven(k * d, d) == k
  {
    NearMultiple(k, RoundHalfEven(k * d, d), d);
  }

  /** A multiple of `d` within half of `d` from `k * d` is `k * d` itself. */
  lemma NearMultiple(k: int, r: int, d: int)
    requires d != 0 && 2 * Abs(k * d - r * d) <= Abs(d)
    ensures r == k
  {
    assert k * d - r * d == (k - r) * d;
    if k != r {
      AbsProduct(k - r, d);
      assert Abs(k - r) >= 1;
      CsArith.MulAtLeast(Abs(k - r), Abs(d));
    }
  }

  lemma AbsProduct(a: int, b: int)
    ensures Abs(a * b) == Abs(a) * Abs(b)
  {
    if a < 0 && b < 0 {
      assert a * b == (-a) * (-b);
    } else if a < 0 {
      assert a * b == -((-a) * b);
    } else if b < 0 {
      assert a * b == -(a * (-b));
    }
  }

  /** `Clamp`: into the range, then snapped to the nearest step; a zero step multiplies the quotient away. */
  function Clamp(rs: IntRangeStep, v: int): (r: int)
    ensures exists k :: r == rs.MinValue + k * rs.Step
  {
    var val := BaseClamp(rs, v);
    if rs.Step == 0 then
      assert rs.MinValue == rs.MinValue + 0 * rs.Step;
      rs.MinValue
    else
      var a := RoundHalfEven(val - rs.MinValue, rs.Step);
      rs.MinValue + a * rs.Step
  }

  /** `IsValid`: in range and a whole number of steps above the minimum (C#'s `%`, whose dividend is never negative here). */
  function IsValid(rs: IntRangeStep, v: int): (r: Result<bool, RangeError>)
    ensures r.Err? <==> rs.MinValue <= v <= rs.MaxValue && rs.Step == 0
    ensures r == Ok(true) <==>
      rs.MinValue <= v <= rs.MaxValue && rs.Step != 0 && exists k :: v == rs.MinValue + k * rs.Step
  {
    if !(rs.MinValue <= v <= rs.MaxValue) then Ok(false)
    else if rs.Step == 0 then Err(DivideByZero)
    else
      var n := v - rs.MinValue;
      MultipleIffNoRemainder(n, rs.Step);
      assert (exists k :: n == k * rs.Step) ==> exists k :: v == rs.MinValue + k * rs.Step;
      Ok(n % rs.Step == 0)
  }

  /** A number leaves no remainder exactly when it is a whole multiple of the divisor. */
  lemma MultipleIffNoRemainder(n: int, d: int)
    requires d != 0
    ensures n % d == 0 <==> exists k :: n == k * d
  {
    assert n == (n / d) * d + n % d;
    if exists k :: n == k * d {
      var k :| n == k * d;
      if d > 0 {
        LemmaModMultiple(k, d);
      } else {
        assert n == (-k) * (-d);
        LemmaModMultiple(-k, -d);
        assert n % d == n % (-d);
      }
    }
  }

  lemma LemmaModMultiple(k: int, d: int)
    requires d > 0
    ensures (k * d) % d == 0
  {
    var n := k * d;
    var q, m := n / d, n % d;
    assert n == q * d + m && 0 <= m < d;
    assert (k - q) * d == m;
    if k - q > 0 {
      CsArith.MulAtLeast(k - q, d);
    } else if k - q < 0 {
      CsArith.MulAtLeast(q - k, d);
    }
  }

  /** Every valid value is left where it is by `Clamp`. */
  lemma ValidIsFixedPoint(rs: IntRangeStep, v: int)
    requires IsValid(rs, v) == Ok(true)
    ensures Clamp(rs, v) == v
  {
    var k :| v == rs.MinValue + k * rs.Step;
    assert v - rs.MinValue == k * rs.Step;
    RoundExact(k, rs.Step);
  }

  /** With a positive step that divides the width of the range, `Clamp` always gives a valid value. */
  lemma ClampIsValid(rs: IntRangeStep, v: int)
    requires rs.MinValue <= rs.MaxValue && rs.Step > 0
    requires (rs.MaxValue - rs.MinValue) % rs.Step == 0
    ensures IsValid(rs, Clamp(rs, v)) == Ok(true)
  {
    var n := BaseClamp(rs, v) - rs.MinValue;
    var w := rs.MaxValue - rs.MinValue;
    var K := w / rs.Step;
    assert w == K * rs.Step;
    var a := RoundHalfEven(n, rs.Step);
    SnapWithin(n, rs.Step, K, a);
  }

  /** A non-negative amount at most `K` steps snaps to between 0 and `K` steps. */
  lemma SnapWithin(n: int, d: int, K: int, a: int)
    requires d > 0 && 0 <= n <= K * d && 2 * Abs(n - a * d) <= d
    ensures 0 <= a * d <= K * d
  {
    if a < 0 {
      CsArith.MulAtLeast(-a, d);
    }
    if a > K {
      CsArith.MulAtLeast(a - K, d);
    }
  }

  /** The clamp snaps to the nearest step even past the maximum when the step does not divide the width. */
  lemma ClampLeavesRange()
    ensures Clamp(IntRangeStep(0, 5, 3), 5) == 6
    ensures IsValid(IntRangeStep(0, 5, 3), 6) == Ok(false)
  {
    assert RoundHalfEven(5, 3) == 2;
  }

  /** `Clamp` snapped back into the range: a rounded step count that passes the maximum is lowered by one. */
  function ClampWithinRange(rs: IntRangeStep, v: int): (r: int)
  {
    var c := Clamp(rs, v);
    if rs.Step > 0 && c > rs.MaxValue then c - rs.Step else c
  }

  /** With a positive step, the corrected clamp always gives a valid value, and keeps every valid one. */
  lemma ClampWithinRangeIsValid(rs: IntRangeStep, v: int)
    requires rs.MinValue <= rs.MaxValue && rs.Step > 0
    ensures IsValid(rs, ClampWithinRange(rs, v)) == Ok(true)
    ensures IsValid(rs, v) == Ok(true) ==> ClampWithinRange(rs, v) == v
  {
    var n := BaseClamp(rs, v) - rs.MinValue;
    var a := RoundHalfEven(n, rs.Step);
    var b := SnapBelow(n, rs.Step, rs.MaxValue - rs.MinValue, a);
    assert Clamp(rs, v) == rs.MinValue + a * rs.Step;
    assert ClampWithinRange(rs, v) == rs.MinValue + b * rs.Step;
    StepIsValid(rs, b);
    if IsValid(rs, v) == Ok(true) {
      ValidIsFixedPoint(rs, v);
    }
  }

  /** A whole number of steps from the minimum that stays within the range is valid. */
  lemma StepIsValid(rs: IntRangeStep, b: int)
    requires rs.Step != 0 && 0 <= b * rs.Step <= rs.MaxValue - rs.MinValue
    ensures IsValid(rs, rs.MinValue + b * rs.Step) == Ok(true)
  {
  }

  /**
   * A non-negative amount within a width, snapped to the nearest multiple `a` of a positive
   * step: `a` itself, or `a - 1` when `a` steps pass the width, is a multiple inside the width.
   */
  lemma SnapBelow(n: int, d: int, w: int, a: int) returns (b: int)
    requires d > 0 && 0 <= n <= w && 2 * Abs(n - a * d) <= d
    ensures b == if a * d > w then a - 1 else a
    ensures 0 <= b * d <= w
  {
    if a < 0 {
      CsArith.MulAtLeast(-a, d);
    }
    if a * d > w {
      b := a - 1;
      assert b * d == a * d - d;
    } else {
      b := a;
    }
  }

  /**
   * `ToDescriptionString`: "# Acceptable value range: From {MinValue} to {MaxValue} in
   * increments of {Step}", written as its words joined by single spaces.
   */
  function Description(rs: IntRangeStep): string
  {
    SodaliteUtils.Join(DescriptionWords(rs), ' ')
  }

  function DescriptionWords(rs: IntRangeStep): seq<string>
  {
    ["#", "Acceptable", "value", "range:", "From", Formatting.IntToString(rs.MinValue), "to",
     Formatting.IntToString(rs.MaxValue), "in", "increments", "of", Formatting.IntToString(rs.Step)]
  }

  /** The three numbers read back from a description, or nothing if it does not have that shape. */
  function ReadDescription(d: string): Option<IntRangeStep>
  {
    var w := SodaliteUtils.Split(d, ' ');
    if |w| == 12 && Formatting.ParseInt(w[5]).Some? && Formatting.ParseInt(w[7]).Some? && Formatting.ParseInt(w[11]).Some? then
      Some(IntRangeStep(Formatting.ParseInt(w[5]).value, Formatting.ParseInt(w[7]).value, Formatting.ParseInt(w[11]).value))
    else None
  }

  /** The description names the minimum, the maximum and the step: reading it gives them back. */
  lemma DescriptionRoundTrip(rs: IntRangeStep)
    ensures ReadDescription(Description(rs)) == Some(rs)
  {
    var w := DescriptionWords(rs);
    WordsHaveNoSpace(rs);
    SodaliteUtils.JoinSplit(w, ' ');
    assert SodaliteUtils.Split(Description(rs), ' ') == w;
    Formatting.IntToStringRoundTrip(rs.MinValue);
    Formatting.IntToStringRoundTrip(rs.MaxValue);
    Formatting.IntToStringRoundTrip(rs.Step);
  }

  /** No word of the description holds a space, so splitting at spaces finds the words again. */
  lemma WordsHaveNoSpace(rs: IntRangeStep)
    ensures forall k :: 0 <= k < |DescriptionWords(rs)| ==> ' ' !in DescriptionWords(rs)[k]
  {
    var w := DescriptionWords(rs);
    forall k | 0 <= k < |w|
      ensures ' ' !in w[k]
    {
      if k != 5 && k != 7 && k != 11 {
        assert w[k] in ["#", "Acceptable", "value", "range:", "From", "to", "in", "increments", "of"];
      }
    }
  }
}
