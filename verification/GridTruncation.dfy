/** Truncation of a price to the decimals of the price step. The number of decimals is
    read off the step's printed six-decimal form. */
module GridTruncation {
  import opened Decimals
  import opened PriceText

  const MILLION: int := 1_000_000
  const MICRO: int := 1_000_000_000_000

  /** The step in millionths, rounded as "%f" prints it. */
  function Millionths(step: Dec): (m: nat)
    requires step >= 0
    ensures step % MICRO == 0 ==> m * MICRO == step
  {
    var q, rem := step / MICRO, step % MICRO;
    if 2 * rem < MICRO || (2 * rem == MICRO && q % 2 == 0) then q else q + 1
  }

  function StepText(step: Dec): string
    requires step >= 0
  {
    Pow10Values();
    var m := Millionths(step);
    NatText(m / MILLION) + "." + FixedText(m % MILLION, 6)
  }

  /** The length of what stands after the dot once trailing zeros are trimmed. */
  function StepDecimals(step: Dec): int
    requires step >= 0
  {
    var t := TrimRight(StepText(step), '0');
    |t| - FirstDot(t) - 1
  }

  /** The spacing of the grid that prices are truncated to: 10^-d as a decimal. */
  function Unit(step: Dec): (u: int)
    requires step >= 0
    ensures u > 0
  {
    var d := StepDecimals(step);
    Pow10(if 0 <= d <= PRECISION then PRECISION - d else 0)
  }

  function TruncateToStep(num: Dec, step: Dec): Dec
    requires step >= 0
  {
    StepDecimalsBound(step);
    var factor := Pow10(StepDecimals(step));
    QuoInt(TruncateDec(MulInt(num, factor)), factor)
  }

  // ----- the decimals of the step -----

  lemma TenfoldBoth(n: nat, p: int)
    requires p > 0 && n % 10 == 0
    ensures n % (10 * p) == 0 <==> (n / 10) % p == 0
    ensures n % (10 * (10 * p)) == 0 <==> (n / 10) % (10 * p) == 0
  {
    TenfoldDivides(n, p);
    TenfoldDivides(n, 10 * p);
  }

  lemma {:induction false} TrimmedFixedText(n: nat, w: nat)
    requires n < Pow10(w)
    ensures var c := |TrimRight(FixedText(n, w), '0')|;
            n % Pow10(w - c) == 0 && (c > 0 ==> n % (10 * Pow10(w - c)) != 0)
  {
    if w > 0 {
      var s := FixedText(n, w);
      var head := FixedText(n / 10, w - 1);
      assert s[..w - 1] == head;
      var c := |TrimRight(s, '0')|;
      if n % 10 == 0 {
        assert TrimRight(s, '0') == TrimRight(head, '0');
        TrimmedFixedText(n / 10, w - 1);
        TenfoldBoth(n, Pow10(w - 1 - c));
      } else {
        assert c == w;
      }
    }
  }

  lemma TenfoldDivides(n: nat, p: int)
    requires p > 0 && n % 10 == 0
    ensures n % (10 * p) == 0 <==> (n / 10) % p == 0
  {
    var a, b := n / 10, n / (10 * p);
    var r := a % p;
    assert a == (a / p) * p + r;
    assert n == (a / p) * (10 * p) + 10 * r;
    DivUnique(n, 10 * p, a / p);
  }

  lemma StepDecimalsBound(step: Dec)
    requires step >= 0
    ensures 0 <= StepDecimals(step) <= 6
    ensures Unit(step) == Pow10(PRECISION - StepDecimals(step))
    ensures var n := Millionths(step) % MILLION;
            StepDecimals(step) == |TrimRight(FixedText(n, 6), '0')|
  {
    Pow10Values();
    var m := Millionths(step);
    var w, f := NatText(m / MILLION), FixedText(m % MILLION, 6);
    TrimRightOfDigitsAfterDot(w, f);
    var t := w + "." + TrimRight(f, '0');
    assert t[..|w|] == w;
    FirstDotUnique(t, |w|);
  }

  lemma SmallPowers(d: int)
    requires 0 <= d <= 6
    ensures Pow10(6 - d) == (if d == 0 then 1000000 else if d == 1 then 100000 else if d == 2 then 10000
                             else if d == 3 then 1000 else if d == 4 then 100 else if d == 5 then 10 else 1)
    ensures d > 0 ==> Pow10(7 - d) == 10 * Pow10(6 - d)
    ensures Pow10(PRECISION - d) == Pow10(6 - d) * MICRO
    ensures Pow10(d) * Pow10(6 - d) == MILLION && Pow10(PRECISION - d) * Pow10(d) == ONE
  {
    Pow10Values();
    Pow10Add(6 - d, 12);
    Pow10Add(d, 6 - d);
    Pow10Add(PRECISION - d, d);
  }

  lemma ModOfRemainder(m: nat, big: int, p: int)
    requires big > 0 && p > 0 && big % p == 0
    ensures m % p == (m % big) % p
  {
    MultipleOfMultiple(m / big, big, p);
    var j := (m / big) * big / p;
    assert m == m % big + j * p;
    DivByMultiple(m % big, j, p);
  }

  lemma MillionSplits(d: int)
    requires 0 <= d <= 6
    ensures MILLION % Pow10(6 - d) == 0
    ensures d > 0 ==> Pow10(7 - d) == 10 * Pow10(6 - d) && MILLION % Pow10(7 - d) == 0
  {
    SmallPowers(d);
  }

  /** StepDecimals is the least number of decimals that writes the printed step. */
  lemma StepDecimalsLeast(step: Dec)
    requires step >= 0
    ensures var d, m := StepDecimals(step), Millionths(step);
            0 <= d <= 6 && m % Pow10(6 - d) == 0 && (d > 0 ==> m % Pow10(7 - d) != 0)
  {
    StepDecimalsBound(step);
    var d, m := StepDecimals(step), Millionths(step);
    Pow10Values();
    TrimmedFixedText(m % MILLION, 6);
    MillionSplits(d);
    ModOfRemainder(m, MILLION, Pow10(6 - d));
    if d > 0 {
      ModOfRemainder(m, MILLION, Pow10(7 - d));
    }
  }

  lemma GridOfMillionths(step: int, m: nat, p: int, u: int)
    requires p > 0 && m % p == 0 && u == p * MICRO
    requires step % MICRO == 0 ==> m * MICRO == step
    ensures step % u == 0 <==> step % MICRO == 0
  {
    if step % u == 0 {
      DivByMultiple(0, p, MICRO);
      MultipleOfMultiple(step / u, u, MICRO);
    }
    if step % MICRO == 0 {
      var j := m / p;
      assert m == j * p;
      assert step == j * u;
      DivByMultiple(0, j, u);
    }
  }

  /** The step lies on its own grid exactly when it needs no more than six decimals. */
  lemma StepOnGridIff(step: Dec)
    requires step >= 0
    ensures step % Unit(step) == 0 <==> step % MICRO == 0
  {
    StepDecimalsBound(step);
    StepDecimalsLeast(step);
    SmallPowers(StepDecimals(step));
    GridOfMillionths(step, Millionths(step), Pow10(6 - StepDecimals(step)), Unit(step));
  }

  // ----- truncation -----

  /** On non-negative prices truncation is the greatest grid price not above. */
  lemma TruncatesToGrid(num: Dec, step: Dec)
    requires num >= 0 && step >= 0
    ensures TruncateToStep(num, step) == FloorTo(num, Unit(step))
  {
    StepDecimalsBound(step);
    SmallPowers(StepDecimals(step));
    ScaledTruncation(num, Unit(step), Pow10(StepDecimals(step)));
  }

  lemma ScaledTruncation(x: nat, u: int, f: int)
    requires u > 0 && f > 0 && u * f == ONE
    ensures QuoInt(TruncateDec(MulInt(x, f)), f) == FloorTo(x, u)
  {
    ScaledDivision(x, u, f);
    var k := x / u;
    assert k * ONE == (k * u) * f;
    ExactQuotient(k * u, f);
  }

  lemma ScaledDivision(x: nat, u: int, f: int)
    requires u > 0 && f > 0 && u * f == ONE
    ensures x * f >= 0 && (x * f) / ONE == x / u
  {
    var k := x / u;
    assert k * u <= x < k * u + u;
    MulMonotone(k * u, x, f);
    MulMonotone(x + 1, k * u + u, f);
    assert k * u * f == k * ONE;
    assert (k * u + u) * f == k * ONE + ONE;
    DivUnique(x * f, ONE, k);
  }

  lemma ExactQuotient(x: nat, f: int)
    requires f > 0
    ensures x * f >= 0 && (x * f) / f == x
  {
    DivUnique(x * f, f, x);
  }

  /** The greatest grid price not above the input, stated without division. */
  lemma TruncateIsGreatest(num: Dec, step: Dec, g: Dec)
    requires num >= 0 && step >= 0
    requires g % Unit(step) == 0 && g <= num
    ensures var t := TruncateToStep(num, step);
            t % Unit(step) == 0 && g <= t <= num < t + Unit(step)
  {
    TruncatesToGrid(num, step);
    FloorToIsGreatest(num, Unit(step), g);
  }

  lemma TruncateIdempotent(num: Dec, step: Dec)
    requires num >= 0 && step >= 0
    ensures TruncateToStep(TruncateToStep(num, step), step) == TruncateToStep(num, step)
    ensures num % Unit(step) == 0 ==> TruncateToStep(num, step) == num
  {
    TruncateIsGreatest(num, step, 0);
    var t := TruncateToStep(num, step);
    TruncateIsGreatest(t, step, t);
    if num % Unit(step) == 0 {
      TruncateIsGreatest(num, step, num);
    }
  }

  lemma TruncateMonotone(a: Dec, b: Dec, step: Dec)
    requires 0 <= a <= b && step >= 0
    ensures TruncateToStep(a, step) <= TruncateToStep(b, step)
  {
    TruncateIsGreatest(a, step, 0);
    TruncateIsGreatest(b, step, TruncateToStep(a, step));
  }

  /** Moving by whole steps commutes with truncation, for every step that its own
      printed form describes. */
  lemma TruncateCommutesWithSteps(num: Dec, step: Dec, k: int)
    requires num >= 0 && step >= 0 && step % MICRO == 0
    requires num + k * step >= 0
    ensures TruncateToStep(num + k * step, step) == TruncateToStep(num, step) + k * step
  {
    StepOnGridIff(step);
    MultipleOfMultiple(k, step, Unit(step));
    TruncatesToGrid(num, step);
    TruncatesToGrid(num + k * step, step);
    FloorToShift(num, k * step, Unit(step));
  }

  /** Below six decimals the grid is lost: a step of 10^-7 prints as zero, so prices
      are truncated to whole numbers. */
  lemma TinyStepTruncatesToWholes(num: Dec)
    requires num >= 0
    ensures TruncateToStep(num, MICRO / 10) == num / ONE * ONE
  {
    var step := MICRO / 10;
    Pow10Values();
    StepDecimalsBound(step);
    StepDecimalsLeast(step);
    assert Millionths(step) == 0;
    SmallPowers(StepDecimals(step));
    TruncatesToGrid(num, step);
  }

  /** The printed step is the nearest one with six decimals, the even one of two. */
  lemma PrintsNearest(step: Dec)
    requires step >= 0
    ensures var d := 2 * (Millionths(step) * 1_000_000_000_000 - step);
            -1_000_000_000_000 <= d <= 1_000_000_000_000
            && (d == 1_000_000_000_000 || d == -1_000_000_000_000 ==> Millionths(step) % 2 == 0)
  {
  }

  /** Negative prices are truncated toward zero, as mirror images. */
  lemma TruncateTowardZero(num: Dec, step: Dec)
    requires num >= 0 && step >= 0
    ensures TruncateToStep(-num, step) == -TruncateToStep(num, step)
  {
    StepDecimalsBound(step);
    var factor := Pow10(StepDecimals(step));
    MirroredTruncation(num, factor);
  }

  lemma MirroredTruncation(x: int, f: int)
    requires x >= 0 && f > 0
    ensures QuoInt(TruncateDec(MulInt(-x, f)), f) == -QuoInt(TruncateDec(MulInt(x, f)), f)
  {
    assert (-x) * f == -(x * f) && x * f >= 0;
    var t := x * f / ONE * ONE;
    assert TruncateDec(MulInt(x, f)) == t;
    assert TruncateDec(MulInt(-x, f)) == -t;
  }
}
