/** Exact-real models of the System.Math routines the switch driver relies on:
    Math.Abs, Math.Round (whose default mode is MidpointRounding.ToEven) and
    Math.IEEERemainder by 1. Doubles are modelled as mathematical reals, so these
    are the ideal functions the floating-point ones approximate. */
module DotNetMath {

  /** Math.Abs. */
  function Abs(x: real): (r: real)
    ensures r >= 0.0
    ensures r == x || r == -x
  {
    if x < 0.0 then -x else x
  }

  /** True when x is a whole number. */
  predicate IsIntegral(x: real)
  {
    x.Floor as real == x
  }

  /** Math.Round(x): the nearest integer, a tie going to the even neighbour. */
  function RoundHalfEven(x: real): (n: int)
    ensures Abs(x - n as real) <= 0.5
    ensures Abs(x - n as real) == 0.5 ==> n % 2 == 0
  {
    var f := x.Floor;
    var frac := x - f as real;
    if frac < 0.5 then f
    else if frac > 0.5 then f + 1
    else if f % 2 == 0 then f
    else f + 1
  }

  /** The two postconditions of RoundHalfEven pin its result down:
      no other integer satisfies both. */
  lemma RoundHalfEvenUnique(x: real, m: int)
    requires Abs(x - m as real) <= 0.5
    requires Abs(x - m as real) == 0.5 ==> m % 2 == 0
    ensures m == RoundHalfEven(x)
  {
  }

  /** No integer lies closer to x than RoundHalfEven(x). */
  lemma RoundHalfEvenNearest(x: real, k: int)
    ensures Abs(x - RoundHalfEven(x) as real) <= Abs(x - k as real)
  {
    var n := RoundHalfEven(x);
    if k != n {
      assert k >= n + 1 || k <= n - 1;
    }
  }

  /** A whole number rounds to itself. */
  lemma RoundHalfEvenOfInteger(k: int)
    ensures RoundHalfEven(k as real) == k
  {
    RoundHalfEvenUnique(k as real, k);
  }

  /** Rounding never leaves an interval whose ends are whole numbers. */
  lemma RoundHalfEvenWithin(x: real, lo: int, hi: int)
    requires lo as real <= x <= hi as real
    ensures lo <= RoundHalfEven(x) <= hi
  {
    var n := RoundHalfEven(x);
    assert (n as real) < hi as real + 1.0;
    assert (n as real) > lo as real - 1.0;
  }

  /** Math.IEEERemainder(x, 1.0), the only divisor the driver uses:
      x - Math.Round(x), what is left of x after removing the nearest whole
      number. */
  function IEEERemainderByOne(x: real): (r: real)
    ensures Abs(r) <= 0.5
    ensures IsIntegral(x - r)
  {
    var n := RoundHalfEven(x);
    assert x - (x - n as real) == n as real;
    assert (n as real).Floor == n;
    x - n as real
  }

  /** The remainder by 1 of a whole number is zero, and only of a whole number. */
  lemma RemainderByOneZeroIffIntegral(x: real)
    ensures IEEERemainderByOne(x) == 0.0 <==> IsIntegral(x)
  {
    if IsIntegral(x) {
      RoundHalfEvenOfInteger(x.Floor);
    }
  }
}
