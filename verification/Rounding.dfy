/** `round(x, 4)` on exact numbers: to the nearest multiple of 1/10000, ties to the even one. */
module Rounding {

  function RoundHalfEven(x: real): int {
    var low := x.Floor;
    var rest := x - low as real;
    if rest < 0.5 then low
    else if rest > 0.5 then low + 1
    else if low % 2 == 0 then low else low + 1
  }

  function Round4(x: real): real {
    RoundHalfEven(x * 10000.0) as real / 10000.0
  }

  /** Rounding moves a number by at most a half, and by a half only to an even number. */
  lemma RoundIsNearest(x: real)
    ensures -0.5 <= RoundHalfEven(x) as real - x <= 0.5
    ensures RoundHalfEven(x) as real - x == 0.5 || RoundHalfEven(x) as real - x == -0.5 ==> RoundHalfEven(x) % 2 == 0
  {}

  lemma RoundIsMonotone(x: real, y: real)
    requires x <= y
    ensures RoundHalfEven(x) <= RoundHalfEven(y)
  {
    if x.Floor < y.Floor && RoundHalfEven(y) == y.Floor {
      assert RoundHalfEven(x) <= x.Floor + 1;
    }
  }

  /** Rounding keeps the order of two values. */
  lemma Round4IsMonotone(x: real, y: real)
    requires x <= y
    ensures Round4(x) <= Round4(y)
  {
    RoundIsMonotone(x * 10000.0, y * 10000.0);
  }

  lemma Round4OfWhole(n: int)
    ensures Round4(n as real) == n as real
  {
    assert n as real * 10000.0 == (n * 10000) as real;
    assert ((n * 10000) as real).Floor == n * 10000;
  }

  /** A rounded value reaches k exactly when the value does within a half, and at a half below only for an even k. */
  lemma RoundReaches(x: real, k: int)
    ensures RoundHalfEven(x) >= k <==> 2.0 * x > (2 * k - 1) as real || (2.0 * x == (2 * k - 1) as real && k % 2 == 0)
  {
    assert (2 * k - 1) as real == 2.0 * k as real - 1.0;
    if x >= k as real {
      assert x.Floor >= k;
    } else if x < k as real - 1.0 {
      assert x.Floor <= k - 2;
    } else {
      assert x.Floor == k - 1;
    }
  }

  /** A rounded value reaches 1 exactly when at most half a step of 1/10000 is missing. */
  lemma Round4ReachesOne(x: real)
    requires x <= 1.0
    ensures Round4(x) >= 1.0 <==> x >= 1.0 - 0.00005
  {
    var y := x * 10000.0;
    assert y <= 10000.0;
    if x >= 1.0 - 0.00005 {
      assert y >= 9999.5;
      assert RoundHalfEven(y) == 10000;
    } else {
      assert y < 9999.5;
      assert RoundHalfEven(y) <= 9999;
    }
  }
}
