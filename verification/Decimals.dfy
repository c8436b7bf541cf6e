/** Fixed-point decimals as the SDK's LegacyDec keeps them: an unbounded integer
    scaled by 10^18. Addition, subtraction and comparison are the integer ones. */
module Decimals {
  type Dec = int

  const PRECISION: nat := 18
  const ONE: int := 1_000_000_000_000_000_000
  const HALF: int := 500_000_000_000_000_000

  function Pow10(n: nat): (r: int)
    ensures r > 0
  {
    if n == 0 then 1 else 10 * Pow10(n - 1)
  }

  lemma Pow10Values()
    ensures Pow10(6) == 1_000_000
    ensures Pow10(12) == 1_000_000_000_000
    ensures Pow10(PRECISION) == ONE
  {
    Pow10Add(6, 6);
    Pow10Add(12, 6);
  }

  lemma {:induction false} Pow10Add(a: nat, b: nat)
    ensures Pow10(a + b) == Pow10(a) * Pow10(b)
  {
    if a > 0 {
      Pow10Add(a - 1, b);
    }
  }

  /** Integer division that truncates toward zero, as big.Int.Quo does. */
  function TruncDiv(a: int, b: int): (r: int)
    requires b > 0
  {
    if a < 0 then -((-a) / b) else a / b
  }

  /** Drops 18 digits, rounding half to even (negatives symmetrically). */
  function ChopRound(x: int): (r: int)
  {
    if x < 0 then 0 - ChopRoundNat(-x) else ChopRoundNat(x)
  }

  function ChopRoundNat(x: nat): (r: nat)
    ensures 2 * x - ONE <= 2 * r * ONE <= 2 * x + ONE
    ensures x % ONE == 0 ==> r == x / ONE
  {
    var q, rem := x / ONE, x % ONE;
    if rem < HALF || (rem == HALF && q % 2 == 0) then q else q + 1
  }

  function Quo(a: Dec, b: Dec): Dec
    requires b > 0
  {
    ChopRound(TruncDiv(a * ONE * ONE, b))
  }

  function Mul(a: Dec, b: Dec): Dec {
    ChopRound(a * b)
  }

  function MulInt(a: Dec, k: int): Dec {
    a * k
  }

  function QuoInt(a: Dec, k: int): Dec
    requires k > 0
  {
    TruncDiv(a, k)
  }

  function TruncateDec(a: Dec): Dec {
    TruncDiv(a, ONE) * ONE
  }

  /** The decimal with whole value k. */
  function Whole(k: int): Dec {
    k * ONE
  }

  /** Multiplying by a whole decimal loses nothing. */
  lemma MulWholeExact(a: Dec, k: nat)
    requires a >= 0
    ensures Mul(a, Whole(k)) == a * k
  {
    assert a * (k * ONE) == (a * k) * ONE;
    assert a * k >= 0;
    var y := a * k;
    assert (y * ONE) % ONE == 0;
    assert ChopRoundNat(y * ONE) == y;
  }

  lemma MulGrows(d: int, u: int)
    requires u > 0
    ensures d >= 1 ==> d * u >= u
    ensures d <= -1 ==> d * u <= -u
  {
    if d >= 1 {
      assert (d - 1) * u >= 0;
    } else if d <= -1 {
      assert (-d - 1) * u >= 0;
    }
  }

  /** The quotient is the only k whose multiple of u starts the interval that holds x. */
  lemma DivUnique(x: int, u: int, k: int)
    requires u > 0 && k * u <= x < k * u + u
    ensures x / u == k
  {
    var d := x / u - k;
    assert d * u == (x / u) * u - k * u;
    MulGrows(d, u);
  }

  lemma MulMonotone(a: int, b: int, u: int)
    requires u >= 0 && a <= b
    ensures a * u <= b * u
  {
    assert (b - a) * u >= 0;
  }

  lemma DivByMultiple(x: int, k: int, u: int)
    requires u > 0
    ensures (x + k * u) / u == x / u + k
    ensures (x + k * u) % u == x % u
  {
    assert (x / u + k) * u == (x / u) * u + k * u;
    DivUnique(x + k * u, u, x / u + k);
  }

  /** The multiple of u at or below x. */
  function FloorTo(x: int, u: int): int
    requires u > 0
  {
    x / u * u
  }

  lemma FloorToIsGreatest(x: int, u: int, g: int)
    requires u > 0 && g % u == 0 && g <= x
    ensures FloorTo(x, u) % u == 0 && g <= FloorTo(x, u) <= x < FloorTo(x, u) + u
  {
    DivByMultiple(0, x / u, u);
    var d := x / u - g / u;
    assert d * u == x / u * u - g / u * u;
    assert g == g / u * u;
    MulGrows(d, u);
  }

  lemma FloorToShift(x: int, k: int, u: int)
    requires u > 0 && k % u == 0
    ensures FloorTo(x + k, u) == FloorTo(x, u) + k
  {
    var j := k / u;
    assert k == j * u;
    DivByMultiple(x, j, u);
    assert (x / u + j) * u == x / u * u + j * u;
  }

  lemma MultipleOfMultiple(k: int, a: int, u: int)
    requires u > 0 && a % u == 0
    ensures (k * a) % u == 0
  {
    var j := a / u;
    assert a == j * u;
    assert k * (j * u) == (k * j) * u;
    DivByMultiple(0, k * j, u);
  }

  lemma SumOfMultiples(a: int, b: int, u: int)
    requires u > 0 && a % u == 0 && b % u == 0
    ensures (a + b) % u == 0 && (a - b) % u == 0
  {
    var j := b / u;
    assert b == j * u;
    DivByMultiple(a, j, u);
    assert a - b == a + (-j) * u;
    DivByMultiple(a, -j, u);
  }
}
