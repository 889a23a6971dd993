/** NUMERIC(30,10) storage. Amounts are counted in subunits, `d` of them to one stored unit of 10^-10;
    storing rounds to whole units, ties away from zero. With `d == 1` amounts are stored exactly. */
module Rounding {
  function Round(x: int, d: int): int
    requires d > 0
  {
    if x >= 0 then (2 * x + d) / (2 * d) else -((2 * -x + d) / (2 * d))
  }

  /** `x` lies exactly half way between two stored units. */
  predicate Tie(x: int, d: int)
    requires d > 0
  {
    (2 * x) % (2 * d) == d
  }

  function TieUnit(x: int, d: int): int
    requires d > 0
  {
    if Tie(x, d) then 1 else 0
  }

  lemma DivIs(y: int, m: int, k: int)
    requires m > 0 && k * m <= y < k * m + m
    ensures y / m == k
  {
    var q := y / m;
    assert y == q * m + y % m;
    assert q < k ==> (q + 1) * m <= k * m;
    assert q > k ==> (k + 1) * m <= q * m;
  }

  /** What rounding is, for a non-negative amount: the nearest unit, the upper one of two. */
  lemma RoundIs(x: int, d: int, k: int)
    requires d > 0 && x >= 0
    ensures Round(x, d) == k <==> 2 * d * k <= 2 * x + d < 2 * d * k + 2 * d
  {
    var m := 2 * d;
    if m * k <= 2 * x + d < m * k + m { DivIs(2 * x + d, m, k); }
  }

  lemma TieIs(x: int, d: int, k: int)
    requires d > 0 && x >= 0 && k == Round(x, d)
    ensures Tie(x, d) <==> 2 * d * k == 2 * x + d
  {
    RoundIs(x, d, k);
    var m := 2 * d;
    if m * k == 2 * x + d {
      DivIs(2 * x, m, k - 1) by { assert (k - 1) * m == m * k - m; }
    }
    if Tie(x, d) {
      var q := (2 * x) / m;
      assert 2 * x == m * q + d;
      assert m * (q + 1) == 2 * x + d;
      RoundIs(x, d, q + 1);
    }
  }

  lemma RoundNonNegative(x: int, d: int)
    requires d > 0 && x >= 0
    ensures Round(x, d) >= 0
  {
    RoundIs(x, d, Round(x, d));
    var k := Round(x, d);
    assert k < 0 ==> 2 * d * k <= -2 * d;
  }

  /** Whole units are stored exactly. */
  lemma RoundWhole(units: int, d: int)
    requires d > 0
    ensures Round(units * d, d) == units
  {
    var n := if units >= 0 then units else -units;
    assert n * d >= 0;
    assert 2 * d * n == 2 * (n * d);
    RoundIs(n * d, d, n);
    if units < 0 { assert -(units * d) == n * d; }
    assert n > 0 ==> n * d > 0;
  }

  /** Crediting: a stored balance takes in exactly the stored amount. */
  lemma RoundCredit(units: int, x: int, d: int)
    requires d > 0 && units >= 0 && x >= 0
    ensures Round(units * d + x, d) == units + Round(x, d)
  {
    var k := Round(x, d);
    RoundIs(x, d, k);
    assert units * d >= 0;
    assert 2 * d * (units + k) == 2 * (units * d) + 2 * d * k;
    RoundIs(units * d + x, d, units + k);
  }

  /** Debiting: a stored balance gives up the stored amount, except that a tie gives up one unit less. */
  lemma RoundDebit(units: int, x: int, d: int)
    requires d > 0 && 0 <= x <= units * d
    ensures Round(units * d - x, d) == units - Round(x, d) + TieUnit(x, d)
  {
    var k := Round(x, d);
    RoundIs(x, d, k);
    TieIs(x, d, k);
    var r := units - k + TieUnit(x, d);
    assert 2 * d * r == 2 * (units * d) - 2 * d * k + 2 * d * TieUnit(x, d);
    if Tie(x, d) {
      assert 2 * d * TieUnit(x, d) == 2 * d;
    } else {
      assert 2 * d * TieUnit(x, d) == 0;
    }
    RoundIs(units * d - x, d, r);
  }

  lemma RoundOdd(x: int, d: int)
    requires d > 0
    ensures Round(-x, d) == -Round(x, d)
  {
    if x == 0 { DivIs(d, 2 * d, 0); }
  }

  /** Rounding is within half a unit. */
  lemma RoundNear(y: int, d: int)
    requires d > 0
    ensures var k := Round(y, d);
      if y >= 0 then 2 * d * k - d <= 2 * y < 2 * d * k + d else 2 * d * k - d < 2 * y <= 2 * d * k + d
  {
    if y >= 0 {
      RoundIs(y, d, Round(y, d));
    } else {
      RoundIs(-y, d, Round(-y, d));
      RoundOdd(y, d);
      assert 2 * d * -Round(y, d) == -(2 * d * Round(y, d));
    }
  }

  /** Amounts a whole unit apart are stored apart. */
  lemma RoundApart(y: int, z: int, d: int)
    requires d > 0 && z - y >= d
    ensures Round(y, d) < Round(z, d)
  {
    var i, j := Round(y, d), Round(z, d);
    RoundNear(y, d);
    RoundNear(z, d);
    if j < i { StepDown(2 * d, j, i); }
  }

  lemma StepDown(m: int, j: int, i: int)
    requires m > 0 && j < i
    ensures m * j <= m * i - m
  {
    AtLeastOnce(m, i - j);
    assert m * (i - j) == m * i - m * j;
  }

  lemma AtLeastOnce(m: int, n: int)
    requires m > 0 && n > 0
    ensures m * n >= m
  {
  }

  /** Different stored balances stay different when the same amount is added to or taken from them. */
  lemma RoundInjective(a: int, b: int, x: int, d: int)
    requires d > 0 && a < b
    ensures Round(a * d + x, d) < Round(b * d + x, d)
  {
    AtLeastOnce(d, b - a);
    assert d * (b - a) == b * d - a * d;
    RoundApart(a * d + x, b * d + x, d);
  }

  /** What is stored is what was meant exactly for whole numbers of units. */
  lemma StoredIsWhole(x: int, d: int)
    requires d > 0
    ensures Round(x, d) * d == x <==> x % d == 0
  {
    if x % d == 0 {
      assert x == (x / d) * d;
      RoundWhole(x / d, d);
    }
    if Round(x, d) * d == x { DivIs(x, d, Round(x, d)); }
  }

  /** In exact arithmetic there are no half units, and rounding does nothing. */
  lemma ExactStorage(x: int)
    ensures !Tie(x, 1) && Round(x, 1) == x
  {
    DivIs(2 * x, 2, x);
    RoundWhole(x, 1);
    assert x * 1 == x;
  }
}
