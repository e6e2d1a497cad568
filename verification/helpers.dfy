/**
 * The whole-number helpers `tryInt` and `isWholeNum`.
 *
 * Both round their argument to `crit` decimal places the way numpy's
 * `round` does (scale by 10^crit, round to the nearest integer with ties
 * going to the even one, scale back) and then ask whether the rounded value
 * leaves a remainder of zero modulo 1.  Rounding is defined exactly over
 * `real`; floating-point representation error is not modelled.
 */
module Helpers {
  import opened Basics

  /** The default number of decimal places of both helpers. */
  const DefaultCrit: nat := 6

  function Pow10(n: nat): (r: nat)
    ensures r >= 1
  {
    if n == 0 then 1 else 10 * Pow10(n - 1)
  }

  /** `x` is within half a unit of `1/scale` from the integer `n`. */
  predicate WithinHalfStep(x: real, n: int, scale: nat)
  {
    Dist(x, n) * (scale as real) < 0.5
  }

  /** Distance between a real and an integer. */
  function Dist(y: real, k: int): real
  {
    Abs(y - k as real)
  }

  /** True when `x` has no fractional part. */
  predicate IsInteger(x: real)
  {
    x == x.Floor as real
  }

  /**
   * Round to the nearest integer, ties to even (numpy's `rint`).  The
   * contract characterises the result completely: it is an integer nearest
   * to `y`, and when `y` lies exactly halfway it is the even neighbour.
   */
  function RoundHalfEven(y: real): (n: int)
    ensures Dist(y, n) <= 0.5
    ensures forall k: int {:trigger Dist(y, k)} :: Dist(y, n) <= Dist(y, k)
    ensures Dist(y, n) == 0.5 ==> n % 2 == 0
  {
    var f := y.Floor;
    var d := y - f as real;
    assert 0.0 <= d < 1.0;
    assert forall k: int {:trigger Dist(y, k)} :: k <= f ==> Dist(y, k) == d + (f - k) as real;
    assert forall k: int {:trigger Dist(y, k)} :: k > f ==> Dist(y, k) == (k - f - 1) as real + (1.0 - d);
    if d < 0.5 then f
    else if d > 0.5 then f + 1
    else if f % 2 == 0 then f
    else f + 1
  }

  /** `np.round(x, crit)`: round to `crit` decimal places, ties to even. */
  function Round(x: real, crit: nat): (r: real)
    ensures Abs(x - r) * Pow10(crit) as real <= 0.5
  {
    RoundScaled(x, Pow10(crit))
  }

  /** Round to a multiple of `1/scale`, ties to even: within half a step of `x`. */
  function RoundScaled(x: real, scale: nat): (r: real)
    requires scale >= 1
    ensures Abs(x - r) * scale as real <= 0.5
  {
    var y := x * scale as real;
    var n := RoundHalfEven(y);
    StepBack(x, y, n, scale as real, n as real / scale as real);
    n as real / scale as real
  }

  /** Dividing the integer `n` by `s` gives `n` steps `1/s`, near `x`. */
  lemma StepBack(x: real, y: real, n: int, s: real, r: real)
    requires s >= 1.0 && y == x * s && Dist(y, n) <= 0.5 && r == n as real / s
    ensures r * s == n as real
    ensures Abs(x - r) * s <= 0.5
  {
    assert (x - r) * s == y - n as real;
    assert Abs(x - r) * s == Abs((x - r) * s);
  }

  /**
   * Rounding at `scale` (`np.round(x, crit)` is the scale `10^crit`) gives a
   * whole number of steps `1/scale`: the number of steps nearest to `x`.
   */
  lemma RoundScaledIsNearestStep(x: real, scale: nat)
    requires scale >= 1
    ensures IsInteger(RoundScaled(x, scale) * scale as real)
    ensures forall k: int {:trigger Dist(x * scale as real, k)} ::
      Dist(x * scale as real, (RoundScaled(x, scale) * scale as real).Floor) <= Dist(x * scale as real, k)
  {
    var n := RoundHalfEven(x * scale as real);
    StepBack(x, x * scale as real, n, scale as real, RoundScaled(x, scale));
    NearestStep(x * scale as real, n, RoundScaled(x, scale) * scale as real);
  }

  /** The integer `n` that rounding `y` picks, written as a real, is whole and nearest to `y`. */
  lemma NearestStep(y: real, n: int, t: real)
    requires n == RoundHalfEven(y) && t == n as real
    ensures IsInteger(t)
    ensures forall k: int {:trigger Dist(y, k)} :: Dist(y, t.Floor) <= Dist(y, k)
  {
    assert t.Floor == n;
  }

  /** Python's `x % 1` for a float: the remainder has the sign of the divisor. */
  function Mod1(x: real): (r: real)
    ensures 0.0 <= r < 1.0
    ensures r == 0.0 <==> IsInteger(x)
  {
    x - x.Floor as real
  }

  /** The shared test `np.round(x, crit) % 1 == 0`. */
  predicate IsWhole(x: real, crit: nat): (b: bool)
    ensures b <==> IsInteger(Round(x, crit))
  {
    Mod1(Round(x, crit)) == 0.0
  }

  /** `isWholeNum(arr, crit)`: the whole-number test applied to every entry. */
  function IsWholeNum(arr: seq<real>, crit: nat): (r: seq<bool>)
    ensures |r| == |arr|
    ensures forall i :: 0 <= i < |arr| ==> (r[i] <==> IsWhole(arr[i], crit))
    decreases |arr|
  {
    if |arr| == 0 then [] else [IsWhole(arr[0], crit)] + IsWholeNum(arr[1..], crit)
  }

  /** Integer-valued entries always pass `isWholeNum`. */
  lemma IsWholeNumOfIntegers(arr: seq<real>, crit: nat)
    ensures forall i :: 0 <= i < |arr| && IsInteger(arr[i]) ==> IsWholeNum(arr, crit)[i]
  {
    forall i | 0 <= i < |arr| && IsInteger(arr[i]) ensures IsWholeNum(arr, crit)[i] {
      IntegerIsWhole(arr[i].Floor, crit);
    }
  }

  /** The two results of `tryInt`: a Python `int` or the untouched float. */
  datatype Num = IntValue(i: int) | FloatValue(x: real)

  /**
   * `tryInt(num, crit)`: the integer equal to the rounded value when that
   * value is whole, the input itself otherwise.
   */
  function TryInt(num: real, crit: nat): (r: Num)
    ensures r.IntValue? <==> IsWhole(num, crit)
    ensures r.IntValue? ==> r.i as real == Round(num, crit)
    ensures r.FloatValue? ==> r.x == num
  {
    var rounded := Round(num, crit);
    if Mod1(rounded) == 0.0 then IntValue(rounded.Floor) else FloatValue(num)
  }

  /** Scaling by a positive factor and dividing it out again is the identity. */
  lemma ScaleBack(m: int, n: int, scale: nat)
    requires scale >= 1 && m == n * scale
    ensures m as real / scale as real == n as real
  {
    assert m as real == n as real * scale as real;
  }

  /** Distances scale with their arguments. */
  lemma DistScale(x: real, n: int, scale: nat)
    requires scale >= 1
    ensures Dist(x * scale as real, n * scale) == Dist(x, n) * scale as real
  {
    var s := scale as real;
    assert (n * scale) as real == n as real * s;
    assert x * s - n as real * s == (x - n as real) * s;
  }

  /** The integer that `RoundHalfEven` picks is the only one closer than 1/2. */
  lemma RoundsToClose(y: real, k: int)
    requires Dist(y, k) < 0.5
    ensures RoundHalfEven(y) == k
  {
    var m := RoundHalfEven(y);
    assert Dist(y, m) <= Dist(y, k);
    assert -1.0 < m as real - k as real < 1.0;
  }

  /** An integer is left as it is by rounding at any number of places. */
  lemma RoundInteger(n: int, crit: nat)
    ensures Round(n as real, crit) == n as real
  {
    assert Dist(n as real, n) == 0.0;
    RoundScaledNear(n as real, n, Pow10(crit));
  }

  /** Every integer passes the whole-number test. */
  lemma IntegerIsWhole(n: int, crit: nat)
    ensures IsWhole(n as real, crit)
  {
    RoundInteger(n, crit);
  }

  /** `tryInt` of an integer gives back the same integer. */
  lemma TryIntOfInteger(n: int, crit: nat)
    ensures TryInt(n as real, crit) == IntValue(n)
  {
    RoundInteger(n, crit);
  }

  /** Rounding at a scale moves a value that close to `n` onto `n`. */
  lemma RoundScaledNear(x: real, n: int, scale: nat)
    requires scale >= 1
    requires WithinHalfStep(x, n, scale)
    ensures RoundScaled(x, scale) == n as real
  {
    DistScale(x, n, scale);
    RoundsToClose(x * scale as real, n * scale);
    ScaleBack(RoundHalfEven(x * scale as real), n, scale);
  }

  /**
   * A value closer to the integer `n` than half a unit in the last kept
   * decimal place counts as whole and is displayed as `n`.
   */
  lemma NearWhole(x: real, n: int, crit: nat)
    requires WithinHalfStep(x, n, Pow10(crit))
    ensures IsWhole(x, crit)
    ensures TryInt(x, crit) == IntValue(n)
  {
    RoundScaledNear(x, n, Pow10(crit));
    assert IsInteger(n as real);
  }

  /** 2.0000000001 is displayed as the integer 2 at the default precision. */
  lemma NearWholeExample()
    ensures IsWhole(2.0000000001, DefaultCrit)
    ensures TryInt(2.0000000001, DefaultCrit) == IntValue(2)
  {
    assert Pow10(6) == 1000000;
    NearWhole(2.0000000001, 2, DefaultCrit);
  }
}
