/**
 * Fixed-point decimals with 18 digits. A decimal is the integer number of units in
 * the last place (ulps), so one is the integer `ONE`.
 */
module Dec {

  const ONE: int := 1_000_000_000_000_000_000
  const HALF: int := 500_000_000_000_000_000

  function Abs(x: int): nat {
    if x < 0 then -x else x
  }

  /** Integer quotient rounded toward zero, as `big.Int.Quo`. */
  function Quot(a: int, b: int): int
    requires b != 0
  {
    if a >= 0 then a / b else -((-a) / b)
  }

  /** Removes 18 digits from a magnitude, rounding half to even. */
  function ChopMagnitude(x: nat): int {
    var q, r := x / ONE, x % ONE;
    if r < HALF || (r == HALF && q % 2 == 0) then q else q + 1
  }

  /** Removes 18 digits, rounding half to even and symmetrically around zero. */
  function Chop(x: int): int {
    if x >= 0 then ChopMagnitude(x) else -ChopMagnitude(-x)
  }

  function Mul(a: int, b: int): int {
    Chop(a * b)
  }

  /** Division keeps 36 digits by truncation, then rounds the last 18 half to even. */
  function Quo(a: int, b: int): int
    requires b != 0
  {
    Chop(Quot(a * ONE * ONE, b))
  }

  /** Division by a plain integer truncates. */
  function QuoInt(a: int, n: int): int
    requires n != 0
  {
    Quot(a, n)
  }

  function TruncateInt(a: int): int {
    Quot(a, ONE)
  }

  function RoundInt(a: int): int {
    Chop(a)
  }

  // ---------- rounding bounds ----------

  lemma ChopBounds(x: int)
    ensures -ONE <= 2 * (Chop(x) * ONE - x) <= ONE
    ensures x >= 0 ==> Chop(x) >= 0
    ensures x <= 0 ==> Chop(x) <= 0
  {
  }

  lemma ChopMonotone(x: int, y: int)
    requires x <= y
    ensures Chop(x) <= Chop(y)
  {
    if 0 <= x {
      ChopMagnitudeMonotone(x, y);
    } else if y < 0 {
      ChopMagnitudeMonotone(-y, -x);
    }
  }

  lemma ChopMagnitudeMonotone(x: nat, y: nat)
    requires x <= y
    ensures ChopMagnitude(x) <= ChopMagnitude(y)
  {
    assert x / ONE <= y / ONE;
    if x / ONE == y / ONE {
      assert x % ONE <= y % ONE;
    }
  }

  /** A whole number of units survives the chop unchanged. */
  lemma ChopExact(k: int)
    ensures Chop(k * ONE) == k
  {
    if k >= 0 {
      assert (k * ONE) / ONE == k && (k * ONE) % ONE == 0;
    } else {
      assert ((-k) * ONE) / ONE == -k && ((-k) * ONE) % ONE == 0;
    }
  }

  lemma DivMonotone(a: int, b: int, d: int)
    requires a <= b && d > 0
    ensures a / d <= b / d
  {
    DivBounds(a, d);
    DivBounds(b, d);
    if a / d > b / d {
      MulLe(b / d + 1, a / d, d);
    }
  }

  lemma DivBounds(a: int, d: int)
    requires d > 0
    ensures (a / d) * d <= a < (a / d) * d + d
  {
  }

  lemma MulLe(a: int, b: int, c: int)
    requires a <= b && c >= 0
    ensures a * c <= b * c
  {
  }

  lemma DivAntitone(a: int, c: int, d: int)
    requires a >= 0 && 0 < c <= d
    ensures 0 <= a / d <= a / c
  {
    DivBounds(a, c);
    DivBounds(a, d);
    if a / d < 0 {
      MulLe(a / d, -1, d);
    }
    if a / c < a / d {
      MulLe(a / c + 1, a / d, c);
      MulLe2(a / d, c, d);
    }
  }

  lemma MulLe2(a: int, b: int, c: int)
    requires b <= c && a >= 0
    ensures a * b <= a * c
  {
  }

  lemma QuotMonotone(a: int, b: int, d: int)
    requires a <= b && d > 0
    ensures Quot(a, d) <= Quot(b, d)
  {
    if 0 <= a {
      DivMonotone(a, b, d);
    } else if b < 0 {
      DivMonotone(-b, -a, d);
    } else {
      DivAntitone(b, d, d);
      DivAntitone(-a, d, d);
    }
  }

  lemma QuoMonotone(a: int, b: int, d: int)
    requires a <= b && d > 0
    ensures Quo(a, d) <= Quo(b, d)
  {
    QuotMonotone(a * ONE * ONE, b * ONE * ONE, d);
    ChopMonotone(Quot(a * ONE * ONE, d), Quot(b * ONE * ONE, d));
  }

  lemma QuoAntitone(a: int, c: int, d: int)
    requires a >= 0 && 0 < c <= d
    ensures 0 <= Quo(a, d) <= Quo(a, c)
  {
    DivAntitone(a * ONE * ONE, c, d);
    ChopMonotone(a * ONE * ONE / d, a * ONE * ONE / c);
    ChopBounds(a * ONE * ONE / d);
  }

  lemma QuoSelf(a: int)
    requires a > 0
    ensures Quo(a, a) == ONE
  {
    DivExact(ONE * ONE, a);
    assert a * ONE * ONE == (ONE * ONE) * a;
    ChopExact(ONE);
  }

  lemma DivExact(k: int, d: int)
    requires d > 0
    ensures (k * d) / d == k
  {
    DivBounds(k * d, d);
    var q := (k * d) / d;
    if q < k {
      MulLe(q + 1, k, d);
    } else if q > k {
      MulLe(k + 1, q, d);
    }
  }

  lemma DivUnique(x: int, d: int, q: int, r: int)
    requires d > 0 && x == q * d + r && 0 <= r < d
    ensures x / d == q && x % d == r
  {
    DivBounds(x, d);
    var p := x / d;
    if p < q {
      MulLe(p + 1, q, d);
    } else if p > q {
      MulLe(q + 1, p, d);
    }
  }

  /** The quotient misses the exact one by at most half an ulp plus the truncated tail. */
  lemma QuoBounds(a: int, b: int)
    requires a >= 0 && b > 0
    ensures 2 * Quo(a, b) * b <= 2 * a * ONE + b
    ensures 2 * Quo(a, b) * b * ONE > 2 * a * ONE * ONE - 2 * b - ONE * b
  {
    hide Chop;
    var t := a * ONE * ONE / b;
    DivBounds(a * ONE * ONE, b);
    ChopBounds(t);
    var q := Chop(t);
    MulLe(2 * q * ONE, 2 * t + ONE, b);
    MulLe(2 * t - ONE, 2 * q * ONE, b);
    assert (2 * q * ONE) * b == (2 * q * b) * ONE;
    assert (2 * t + ONE) * b == 2 * (t * b) + ONE * b;
    assert (2 * t - ONE) * b == 2 * (t * b) - ONE * b;
  }

  /** Rounding is symmetric around zero. */
  lemma QuoNegates(a: int, b: int)
    requires a > 0 && b > 0
    ensures Quo(-a, b) == -Quo(a, b)
  {
    assert (-a) * ONE * ONE == -(a * ONE * ONE);
    var t := a * ONE * ONE / b;
    DivAntitone(a * ONE * ONE, b, b);
    assert Quot((-a) * ONE * ONE, b) == -t;
  }

  /** A quotient times its divisor is within one divisor of what was divided. */
  lemma QuoWithin(a: int, b: int)
    requires b > 0
    ensures -b <= Quo(a, b) * b - a * ONE <= b
  {
    hide Chop, Quo;
    if a >= 0 {
      QuoBounds(a, b);
    } else {
      QuoBounds(-a, b);
      QuoNegates(-a, b);
      assert Quo(a, b) * b == -(Quo(-a, b) * b);
    }
  }

  /** A tie rounds to the even neighbour. */
  lemma ChopTie(k: nat)
    ensures Chop(k * ONE + HALF) % 2 == 0
  {
    DivUnique(k * ONE + HALF, ONE, k, HALF);
  }

  lemma MulBounds(a: int, b: int)
    ensures -ONE <= 2 * (Mul(a, b) * ONE - a * b) <= ONE
    ensures a >= 0 && b >= 0 ==> Mul(a, b) >= 0
  {
    ChopBounds(a * b);
  }

  /** A product with a factor of at most one does not exceed the other factor. */
  lemma MulAtMost(a: int, b: int)
    requires 0 <= a <= ONE && b >= 0
    ensures 0 <= Mul(a, b) <= b
  {
    MulLe(a, ONE, b);
    MulLe2(b, 0, a);
    ChopMonotone(a * b, ONE * b);
    ChopExact(b);
    ChopBounds(a * b);
  }
}
