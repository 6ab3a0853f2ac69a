// The integer square root of ping_output.c, by Newton's iteration.
module SquareRoot {
  import opened Words

  const LLONG_MAX := 0x7FFF_FFFF_FFFF_FFFF

  /** r is the integer part of the square root of n. */
  predicate IsRoot(r: int, n: int) {
    0 <= r && r * r <= n < (r + 1) * (r + 1)
  }

  function Next(a: int, x: int): int
    requires x > 0
  {
    (x + a / x) / 2
  }

  /** Not below the root of a. */
  predicate High(a: int, x: int) {
    (x + 1) * (x + 1) > a
  }

  lemma Quotient(a: int, x: int)
    requires a >= 1 && x >= 1
    ensures 0 <= a / x <= a && x * (a / x) <= a < x * (a / x + 1) && (x == 1 ==> a / x == a)
  {
    assert a == x * (a / x) + a % x;
    assert x * (a / x + 1) == x * (a / x) + x;
  }

  /** The arithmetic and the geometric mean. */
  lemma Means(x: int, z: int, y: int)
    requires 2 * y >= x + z >= 0
    ensures y * y >= x * z
  {
    Squares(x + z, 2 * y);
    Identity(x, z);
    NonNegative(x - z);
    assert 2 * y * (2 * y) == 4 * (y * y);
  }

  /** One iteration never falls below the root. */
  lemma NextIsHigh(a: int, x: int)
    requires a >= 1 && x >= 1
    ensures High(a, Next(a, x)) && Next(a, x) >= 1
  {
    Quotient(a, x);
    Means(x, a / x + 1, Next(a, x) + 1);
  }

  lemma Identity(x: int, z: int)
    ensures (x + z) * (x + z) - 4 * (x * z) == (x - z) * (x - z)
  {
  }

  lemma NonNegative(x: int)
    ensures x * x >= 0
  {
  }

  lemma Squares(x: nat, y: nat)
    requires x <= y
    ensures x * x <= y * y
  {
    assert y * y - x * x == (y - x) * (y + x);
  }

  /** Above the root the iterate goes down. */
  lemma StopsAtRoot(a: int, x: int)
    requires a >= 1 && x >= 1 && Next(a, x) >= x
    ensures x * x <= a
  {
    var q := a / x;
    assert q >= x;
    assert a == x * q + a % x;
    assert x * q == x * x + x * (q - x);
  }

  lemma Scale(x: nat, j: int, k: int)
    ensures j <= k ==> x * j <= x * k
  {
    if j <= k {
      assert x * k - x * j == x * (k - j);
    }
  }

  /** The iterate after the root: the root again, except just below the next square. */
  lemma AfterRoot(a: int, x: int)
    requires x >= 1 && IsRoot(x, a)
    ensures IsRoot(Next(a, x), a + 1)
  {
    var q := a / x;
    assert a == x * q + a % x;
    assert (x + 1) * (x + 1) == x * x + 2 * x + 1;
    assert x * (q - x) == a - a % x - x * x;
    Scale(x, q - x, -1);
    Scale(x, 3, q - x);
    Scale(x, q - x, 1);
    if q - x == 2 {
      assert a == x * x + 2 * x;
      assert (x + 2) * (x + 2) == x * x + 4 * x + 4;
    } else {
      assert a < x * x + 2 * x;
    }
  }

  lemma StartsHigh(a: int)
    requires a >= 1
    ensures High(a, a)
  {
    assert (a + 1) * (a + 1) == a * a + 2 * a + 1;
  }

  lemma NextIs(a: int, x: int)
    requires x > 0
    ensures Next(a, x) == (x + a / x) / 2
  {
  }

  lemma RootFound(a: int, x: int)
    requires x >= 1 && x * x <= a && High(a, x)
    ensures IsRoot(x, a)
  {
  }

  /** The sum that is halved is at most a + 1, so it does not overflow. */
  lemma SumFits(a: int, x: int)
    requires 1 <= x <= a
    ensures x + a / x <= a + 1
  {
    Quotient(a, x);
    SumAndProduct(x, a / x);
  }

  lemma SumAndProduct(x: nat, q: nat)
    requires x >= 1
    ensures x + q <= x * q + 1 || q == 0
  {
    if q > 1 {
      SumAndProduct(x, q - 1);
      assert x * q == x * (q - 1) + x;
    }
  }

  /** llsqrt: the root of a + 1, for all arguments but the two ends of the range. */
  method LlSqrt(a: int64) returns (r: int64)
    ensures 1 <= a < LLONG_MAX ==> IsRoot(r, a + 1)
    ensures a <= 0 || a == LLONG_MAX ==> r == a
  {
    var prev: int64 := LLONG_MAX;
    var x: int64 := a;
    if x > 0 {
      hide High, Next, IsRoot;
      StartsHigh(a);
      while x < prev
        invariant 1 <= x <= a && High(a, x)
        invariant if prev == LLONG_MAX then x == a
                  else a < LLONG_MAX && 1 <= prev <= a && x == Next(a, prev) && High(a, prev)
        decreases prev
      {
        NextIsHigh(a, x);
        Quotient(a, x);
        prev := x;
        SumFits(a, x);
        var sum: int64 := x + a / x;
        x := sum / 2;
        assert x == Next(a, prev) by { NextIs(a, prev); }
      }
      if prev != LLONG_MAX {
        StopsAtRoot(a, prev);
        RootFound(a, prev);
        AfterRoot(a, prev);
      }
    }
    return x;
  }

  /** So it is one too much exactly when the argument is one below a square. */
  lemma OneTooMuch(a: nat, r: int, root: int)
    requires IsRoot(r, a + 1) && IsRoot(root, a)
    ensures r == if (root + 1) * (root + 1) == a + 1 then root + 1 else root
  {
    RootUnique(a + 1, r, if (root + 1) * (root + 1) == a + 1 then root + 1 else root);
  }

  lemma RootUnique(n: int, x: int, y: int)
    requires IsRoot(x, n) && 0 <= y && y * y <= n < (y + 1) * (y + 1)
    ensures x == y
  {
    if x < y {
      Squares(x + 1, y);
    } else if y < x {
      Squares(y + 1, x);
    }
  }
}
