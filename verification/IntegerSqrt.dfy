// The Babylonian square root that sizes the first share issue of a pool.
module IntegerSqrt {

  ghost predicate IsSqrt(n: nat, r: nat) {
    r * r <= n < (r + 1) * (r + 1)
  }

  /** The integer square root, by counting up. */
  function Sqrt(n: nat): (r: nat)
    ensures IsSqrt(n, r)
  {
    if n == 0 then 0
    else
      var r := Sqrt(n - 1);
      if (r + 1) * (r + 1) <= n then r + 1 else r
  }

  lemma SqrtUnique(n: nat, r: nat, s: nat)
    requires IsSqrt(n, r) && IsSqrt(n, s)
    ensures r == s
  {
    SquareOrder(r + 1, s);
    SquareOrder(s + 1, r);
  }

  /** A Babylonian step never falls below the root. */
  lemma StepStaysAbove(n: nat, x: nat)
    requires x > 0
    ensures var y := (x + n / x) / 2; n < (y + 1) * (y + 1)
  {
    var q := n / x;
    var y := (x + q) / 2;
    var z := q + 1;
    assert n < x * z by {
      assert n == x * q + n % x;
      assert x * z == x * q + x;
    }
    assert 4 * (x * z) <= (x + z) * (x + z) by {
      SquareDifference(x, z);
    }
    assert x + z <= 2 * (y + 1);
    SquareMonotone(x + z, 2 * (y + 1));
    assert (2 * (y + 1)) * (2 * (y + 1)) == 4 * ((y + 1) * (y + 1));
  }

  lemma SquareDifference(x: int, z: int)
    ensures 4 * (x * z) <= (x + z) * (x + z)
  {
    assert (x - z) * (x - z) >= 0;
    assert (x + z) * (x + z) == (x - z) * (x - z) + 4 * (x * z);
  }

  lemma SquareMonotone(a: nat, b: nat)
    requires a <= b
    ensures a * a <= b * b
  {
    assert a * a <= a * b <= b * b;
  }

  lemma SquareOrder(a: nat, b: nat)
    ensures a <= b ==> a * a <= b * b
  {
    if a <= b {
      SquareMonotone(a, b);
    }
  }

  /** Bounds of a number bound its root. */
  lemma SqrtBounds(n: nat, low: nat, high: nat)
    requires low * low <= n <= high * high
    ensures low <= Sqrt(n) <= high
  {
    SquareOrder(Sqrt(n) + 1, low);
    SquareOrder(high + 1, Sqrt(n));
    assert (high + 1) * (high + 1) == high * high + 2 * high + 1;
  }

  /** When the step no longer decreases, the square is within `n`. */
  lemma StopsBelow(n: nat, x: nat)
    requires x > 0 && (x + n / x) / 2 >= x
    ensures x * x <= n
  {
    assert n / x >= x;
    assert n == x * (n / x) + n % x;
    assert x * (n / x) >= x * x;
  }

  /** The loop of the source terminates and returns the integer square root. */
  method BabylonianSqrt(n: nat) returns (x: nat)
    ensures x * x <= n < (x + 1) * (x + 1)
    ensures x == Sqrt(n)
  {
    if n == 0 {
      return 0;
    }
    x := n;
    var y := (x + 1) / 2;
    assert n / n == 1;
    assert n < (n + 1) * (n + 1);
    while y < x
      invariant x > 0 && y == (x + n / x) / 2
      invariant n < (x + 1) * (x + 1)
      decreases x
    {
      StepStaysAbove(n, x);
      x := y;
      y := (x + n / x) / 2;
    }
    StopsBelow(n, x);
    SqrtUnique(n, x, Sqrt(n));
  }

  /** The geometric mean of two positive amounts lies between them. */
  lemma SqrtBetween(a: nat, b: nat)
    requires 0 < a <= b
    ensures 1 <= a <= Sqrt(a * b) <= b
  {
    assert a * a <= a * b by {
      SquareFactor(a, a, b);
    }
    assert a * b <= b * b by {
      SquareFactor(b, a, b);
    }
    SqrtBounds(a * b, a, b);
  }

  lemma SquareFactor(k: nat, x: nat, y: nat)
    requires x <= y
    ensures k * x <= k * y && x * k <= y * k
  {
  }
}
