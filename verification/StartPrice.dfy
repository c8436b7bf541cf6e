/** Where the ladders start: the middle of the spread in whole steps, or the last trade. */
module StartPrice {
  import opened Decimals
  import opened Options
  import opened GridTruncation
  import opened Orders

  datatype OrdersConfig = OrdersConfig(buyNo: int, sellNo: int, startPrice: Dec, step: Dec, spreadSteps: int,
                                       minAmount: int, maxAmount: int, holdBackSeconds: int)
  {
    predicate Valid() {
      && buyNo > 0 && sellNo > 0
      && step > 0 && startPrice > 0
      && minAmount > 0 && maxAmount > 0
    }

    /** Half of the configured empty spread, in whole steps. */
    function SideSteps(): nat {
      if spreadSteps > 0 then spreadSteps / 2 else 0
    }
  }

  /** The last trade of the market, as the history query answers. */
  datatype HistoryOrder = HistoryOrder(orderType: OrderType, price: Dec, maker: string, taker: string, executedAt: int)

  /** The best price of a side, zero when the side is empty. */
  function Best(book: seq<AggregatedOrder>): Dec {
    if book == [] then 0 else PriceAt(book, 0)
  }

  /** Half of the steps that fit between the two prices, with the decimals' own rounding. */
  function HalfSteps(diff: Dec, step: Dec): Dec
    requires step > 0
  {
    TruncateDec(Quo(Quo(diff, step), Whole(2)))
  }

  function GetStartPriceFromSpread(biggestBuy: Dec, smallestSell: Dec, configured: Dec, step: Dec): Dec
    requires step > 0
  {
    if biggestBuy == 0 && smallestSell == 0 then configured
    else if biggestBuy == 0 then smallestSell
    else if smallestSell == 0 then biggestBuy + step
    else
      var diff := smallestSell - biggestBuy;
      if diff <= step then smallestSell
      else smallestSell - Mul(step, HalfSteps(diff, step))
  }

  function GetStartPrice(cfg: OrdersConfig, history: Option<HistoryOrder>, biggestBuy: Dec, smallestSell: Dec): Dec
    requires cfg.step > 0
  {
    var fromSpread := GetStartPriceFromSpread(biggestBuy, smallestSell, cfg.startPrice, cfg.step);
    if cfg.spreadSteps > 0 || history.None? then fromSpread
    else
      var price := history.value.price;
      if price <= 0 || price > smallestSell || price < biggestBuy then fromSpread
      else if history.value.orderType == Sell then price + cfg.step
      else price
  }

  // ----- rounding -----

  lemma ChopRoundAtLeast(x: nat, k: nat)
    requires x >= k * ONE
    ensures ChopRoundNat(x) >= k
  {
  }

  lemma QuotientAtLeast(diff: nat, step: int, k: nat)
    requires step > 0 && k * step <= diff
    ensures Quo(diff, step) >= k * ONE
  {
    var y := diff * ONE * ONE;
    var d := y / step - k * ONE * ONE;
    assert d * step == (y / step) * step - (k * step) * ONE * ONE;
    MulGrows(d, step);
    ChopRoundAtLeast(y / step, k * ONE);
  }

  lemma QuotientAtMost(diff: nat, step: int)
    requires step > 0
    ensures Quo(diff, step) >= 0 && 2 * (Quo(diff, step) * step) <= 2 * diff * ONE + step
  {
    var x := diff * ONE * ONE / step;
    var q := ChopRoundNat(x);
    assert Quo(diff, step) == q;
    MulMonotone(2 * q * ONE, 2 * x + ONE, step);
    assert (2 * q * ONE) * step == 2 * (q * step) * ONE;
    assert (2 * x + ONE) * step == 2 * (x * step) + ONE * step;
  }

  /** Halving and truncating q, itself rounded: n whole steps. */
  lemma HalveBounds(q: nat, m: nat)
    requires q >= 2 * m * ONE
    ensures var n := TruncDiv(Quo(q, Whole(2)), ONE);
            n >= m && 2 * n * ONE <= q + 1 && TruncateDec(Quo(q, Whole(2))) == Whole(n)
  {
    var x := q * ONE * ONE / (2 * ONE);
    assert x == q * HALF;
    ChopRoundAtLeast(x, m * ONE);
    assert 2 * ChopRoundNat(x) * ONE <= 2 * x + ONE;
  }

  /** The steps taken down from the best sell, two roundings included: n is half of the
      gap in steps, up to one step either way. */
  lemma HalfStepsBounds(diff: nat, step: int) returns (n: nat)
    requires step > 0
    ensures HalfSteps(diff, step) == Whole(n)
    ensures 2 * (n * step) < diff + step
    ensures diff < 2 * (n * step) + 2 * step
  {
    var q, k := QuotientBounds(diff, step);
    HalveBounds(q, k / 2);
    n := TruncDiv(Quo(q, Whole(2)), ONE);
    StepsWithin(diff, step, q, n, k);
  }

  lemma QuotientBounds(diff: nat, step: int) returns (q: nat, k: nat)
    requires step > 0
    ensures q == Quo(diff, step)
    ensures diff < k * step + step
    ensures q >= 2 * (k / 2) * ONE && 2 * (q * step) <= 2 * diff * ONE + step
  {
    k := diff / step;
    var e := 2 * (k / 2);
    MulMonotone(e, k, step);
    QuotientAtLeast(diff, step, e);
    QuotientAtMost(diff, step);
    q := Quo(diff, step);
  }

  lemma StepsWithin(diff: nat, step: int, q: int, n: nat, k: nat)
    requires step > 0 && diff < k * step + step
    requires n >= k / 2 && 2 * n * ONE <= q + 1
    requires 2 * (q * step) <= 2 * diff * ONE + step
    ensures 2 * (n * step) < diff + step
    ensures diff < 2 * (n * step) + 2 * step
  {
    MulMonotone(2 * n * ONE, q + 1, step);
    assert (2 * n * ONE) * step == 2 * (n * step) * ONE;
    assert (q + 1) * step == q * step + step;
    MulMonotone(k, 2 * n + 1, step);
    assert (2 * n + 1) * step == 2 * (n * step) + step;
  }

  /** The start price between two book prices: whole steps below the best sell. */
  lemma StartFromSpread(bb: Dec, ss: Dec, configured: Dec, step: Dec) returns (n: nat)
    requires step > 0 && 0 < bb < ss
    ensures GetStartPriceFromSpread(bb, ss, configured, step) == ss - n * step
    ensures 2 * (n * step) < (ss - bb) + step
    ensures ss - bb < 2 * (n * step) + 2 * step
  {
    n := 0;
    if ss - bb > step {
      n := HalfStepsBounds(ss - bb, step);
      MulWholeExact(step, n);
    }
  }

  /** The bound of the start price: inside the spread, on the best sell's steps, and
      nearly in the middle. */
  lemma StartPriceBounds(bb: Dec, ss: Dec, configured: Dec, step: Dec)
    requires step > 0 && 0 < bb && ss - bb > step
    ensures var start := GetStartPriceFromSpread(bb, ss, configured, step);
            && bb < start <= ss
            && (ss - start) % step == 0
            && -2 * step < (ss - start) - (start - bb) < 2 * step
  {
    var n := StartFromSpread(bb, ss, configured, step);
    DivByMultiple(0, n, step);
  }

  lemma MulCancel(a: int, b: int, u: int)
    requires u > 0 && a * u < b * u
    ensures a < b
  {
    if a >= b {
      MulMonotone(b, a, u);
    }
  }

  /** On a gap of whole steps nothing is lost to rounding: exactly half, rounded down. */
  lemma WholeGapIsHalved(bb: Dec, ss: Dec, configured: Dec, step: Dec, k: nat)
    requires step > 0 && 0 < bb < ss && ss - bb == k * step
    ensures GetStartPriceFromSpread(bb, ss, configured, step) == ss - (k / 2) * step
  {
    var n := StartFromSpread(bb, ss, configured, step);
    HalfIsUnique(n, k, step, ss - bb);
  }

  lemma HalfIsUnique(n: int, h: int, step: int, diff: int)
    requires step > 0 && diff == h * step
    requires 2 * (n * step) < diff + step
    requires diff < 2 * (n * step) + 2 * step
    ensures n == h / 2
  {
    assert 2 * (n * step) == (2 * n) * step;
    assert h * step + step == (h + 1) * step;
    assert (2 * n) * step + 2 * step == (2 * n + 2) * step;
    MulCancel(2 * n, h + 1, step);
    MulCancel(h, 2 * n + 2, step);
  }

  // ----- the steps taken down, exactly -----

  /** Rounding to an odd number from below takes more than half. */
  lemma ChopReachesOdd(x: nat, b: nat)
    requires b % 2 == 1
    ensures ChopRoundNat(x) >= b <==> 2 * x > 2 * b * ONE - ONE
  {
  }

  /** Halving and truncating q reaches m already from one unit below 2m: the half is a tie
      that rounds to the even number. */
  lemma HalveReaches(q: nat, m: nat)
    requires m > 0
    ensures TruncDiv(Quo(q, Whole(2)), ONE) >= m <==> q >= 2 * m * ONE - 1
  {
    var x := q * ONE * ONE / (2 * ONE);
    assert x == q * HALF;
    var j := q / 2;
    assert x / ONE == j && x % ONE == (q % 2) * HALF;
    assert (m * ONE) % 2 == 0;
  }

  lemma QuotientReaches(a: nat, d: int, t: nat)
    requires d > 0
    ensures a / d >= t <==> a >= t * d
  {
    if a >= t * d {
      MulCancelAtMost(t, a / d, d, a);
    } else if a / d >= t {
      MulMonotone(t, a / d, d);
    }
  }

  lemma MulCancelAtMost(t: int, q: int, d: int, a: int)
    requires d > 0 && t * d <= a < q * d + d
    ensures t <= q
  {
    assert q * d + d == (q + 1) * d;
    MulCancel(t, q + 1, d);
  }

  /** The gap misses the next even number of steps by less than the roundings add. */
  predicate RoundsUp(diff: nat, step: int)
    requires step > 0
  {
    (2 * step - diff % (2 * step)) * ONE * ONE <= step * (ONE + HALF - 1)
  }

  /** Half of the gap in whole steps, and one more in the rounded-up cases. */
  function HalfOfGap(diff: nat, step: int): (n: nat)
    requires step > 0
  {
    assert diff / (2 * step) >= 0;
    diff / (2 * step) + if RoundsUp(diff, step) then 1 else 0
  }

  /** The quotient of the gap comes one unit near to 2m exactly when the gap itself is
      within the roundings of 2m steps. */
  lemma QuotientNears(diff: nat, step: int, m: nat)
    requires step > 0 && m > 0
    ensures Quo(diff, step) >= 2 * m * ONE - 1
       <==> (2 * m * step - diff) * ONE * ONE <= step * (ONE + HALF - 1)
  {
    var b := 2 * m * ONE - 1;
    var t := b * ONE - HALF + 1;
    ChopReachesOdd(diff * ONE * ONE / step, b);
    QuotientReaches(diff * ONE * ONE, step, t);
    NearsArithmetic(diff, step, m, m * step, t);
  }

  lemma NearsArithmetic(diff: nat, step: int, m: nat, ms: int, t: int)
    requires ms == m * step && t == (2 * m * ONE - 1) * ONE - HALF + 1
    ensures diff * ONE * ONE >= t * step <==> (2 * m * step - diff) * ONE * ONE <= step * (ONE + HALF - 1)
  {
    assert t * step == 2 * (m * step) * ONE * ONE - step * (ONE + HALF - 1);
    assert 2 * m * step == 2 * ms;
  }

  /** The number of steps taken down, for every gap and step: half of the gap in whole
      steps, and one more exactly when the gap misses it by no more than the roundings. */
  lemma HalfStepsExact(diff: nat, step: int)
    requires step > 0
    ensures HalfSteps(diff, step) == Whole(HalfOfGap(diff, step))
  {
    var f := diff / (2 * step);
    var n := HalfStepsBounds(diff, step);
    EitherOr(diff, step, n, f);
    ReachesNext(diff, step, n, f + 1);
    NextGap(diff, step, f);
  }

  lemma ReachesNext(diff: nat, step: int, n: nat, m: nat)
    requires step > 0 && m > 0 && HalfSteps(diff, step) == Whole(n)
    ensures n >= m <==> (2 * m * step - diff) * ONE * ONE <= step * (ONE + HALF - 1)
  {
    QuotientAtMost(diff, step);
    HalveReaches(Quo(diff, step), m);
    QuotientNears(diff, step, m);
  }

  lemma NextGap(diff: nat, step: int, f: int)
    requires step > 0 && f == diff / (2 * step)
    ensures f >= 0 && 2 * (f + 1) * step - diff == 2 * step - diff % (2 * step)
  {
    assert diff == f * (2 * step) + diff % (2 * step);
    assert 2 * (f + 1) * step == f * (2 * step) + 2 * step;
  }

  lemma EitherOr(diff: nat, step: int, n: nat, f: int)
    requires step > 0 && f == diff / (2 * step)
    requires 2 * (n * step) < diff + step
    requires diff < 2 * (n * step) + 2 * step
    ensures n == f || n == f + 1
  {
    assert f * (2 * step) <= diff < f * (2 * step) + 2 * step;
    assert n * (2 * step) == 2 * (n * step);
    MulCancelStrict(f, n + 1, 2 * step);
    MulCancelStrict(n, f + 2, 2 * step);
  }

  lemma MulCancelStrict(a: int, b: int, u: int)
    requires u > 0
    ensures a * u < b * u ==> a < b
    ensures b * u == (b - 1) * u + u && b * u == (b - 2) * u + 2 * u
  {
    if a * u < b * u {
      MulCancel(a, b, u);
    }
  }

  /** Nothing is rounded up on a grid of u that the step is not 10^18 times coarser than.
      With u = 1 it is about any prices and every step up to two thirds. */
  lemma NoRoundingUp(diff: nat, step: int, u: int)
    requires step > 0 && u > 0 && diff % u == 0 && step % u == 0
    requires 3 * step <= 2 * u * ONE
    ensures !RoundsUp(diff, step)
  {
    var r := 2 * step - diff % (2 * step);
    var k := diff / (2 * step);
    assert diff % (2 * step) == diff - k * (2 * step);
    MultipleOfMultiple(2 * k, step, u);
    assert (2 * k) * step == k * (2 * step);
    SumOfMultiples(diff, k * (2 * step), u);
    SumOfMultiples(step, step, u);
    SumOfMultiples(2 * step, diff % (2 * step), u);
    AtLeastUnit(r, u);
    MulMonotone(u, r, ONE * ONE);
    assert r * ONE * ONE == r * (ONE * ONE) && u * ONE * ONE == u * (ONE * ONE);
  }

  lemma AtLeastUnit(r: int, u: int)
    requires u > 0 && r > 0 && r % u == 0
    ensures r >= u
  {
  }

  /** The start price between two book prices, exactly: half of the gap in whole steps below
      the best sell, one more step in the rounded-up cases. */
  lemma StartExactly(bb: Dec, ss: Dec, configured: Dec, step: Dec)
    requires step > 0 && 0 < bb < ss
    ensures GetStartPriceFromSpread(bb, ss, configured, step)
         == ss - HalfOfGap(ss - bb, step) * step
  {
    if ss - bb > step {
      HalfStepsExact(ss - bb, step);
      StepsDown(bb, ss, configured, step, HalfOfGap(ss - bb, step));
    } else {
      SmallGap(ss - bb, step);
    }
  }

  lemma StepsDown(bb: Dec, ss: Dec, configured: Dec, step: Dec, n: nat)
    requires step > 0 && 0 < bb && ss - bb > step && HalfSteps(ss - bb, step) == Whole(n)
    ensures GetStartPriceFromSpread(bb, ss, configured, step) == ss - n * step
  {
    MulWholeExact(step, n);
  }

  lemma SmallGap(diff: nat, step: int)
    requires step > 0 && diff <= step
    ensures diff / (2 * step) == 0 && !RoundsUp(diff, step)
  {
    DivUnique(diff, 2 * step, 0);
    NextGap(diff, step, 0);
    var r := 2 * step - diff;
    assert r * ONE * ONE >= step * ONE * ONE;
    assert step * ONE * ONE == step * (ONE * ONE);
  }

  /** One of the rounded-up cases: with a step of one, a sell at 3 and a buy the least bit
      above 1 leave room for no two steps, and yet the start is 2. */
  lemma RoundedUpStart(configured: Dec)
    ensures GetStartPriceFromSpread(ONE + 1, 3 * ONE, configured, ONE) == 2 * ONE
    ensures (3 * ONE - (ONE + 1)) / (2 * ONE) == 0
  {
    StartExactly(ONE + 1, 3 * ONE, configured, ONE);
  }

  lemma RawStartOnGrid(bb: Dec, ss: Dec, configured: Dec, step: Dec, u: int)
    requires step > 0 && u > 0 && step % u == 0
    requires bb >= 0 && ss >= 0 && (bb > 0 || ss > 0) && (bb > 0 && ss > 0 ==> bb < ss)
    requires bb % u == 0 && ss % u == 0
    ensures var raw := GetStartPriceFromSpread(bb, ss, configured, step);
            raw > bb && (ss > 0 ==> raw <= ss) && raw % u == 0
  {
    if bb > 0 && ss > 0 {
      var n := StartFromSpread(bb, ss, configured, step);
      StepsBelow(bb, ss, step, n, u);
    } else if bb > 0 {
      SumOfMultiples(bb, step, u);
    }
  }

  lemma StepsBelow(bb: int, ss: int, step: int, n: nat, u: int)
    requires step > 0 && u > 0 && step % u == 0 && ss % u == 0 && bb < ss
    requires 2 * (n * step) < (ss - bb) + step
    ensures bb < ss - n * step <= ss && (ss - n * step) % u == 0
  {
    MultipleOfMultiple(n, step, u);
    SumOfMultiples(ss, n * step, u);
    MulMonotone(0, n, step);
    if n > 0 {
      MulMonotone(1, n, step);
    }
  }

  /** Truncation to the step's decimals keeps the start price of an aligned book. */
  lemma AlignedStart(bb: Dec, ss: Dec, configured: Dec, step: Dec)
    requires step > 0 && step % MICRO == 0
    requires bb >= 0 && ss >= 0 && (bb > 0 || ss > 0) && (bb > 0 && ss > 0 ==> bb < ss)
    requires bb % Unit(step) == 0 && ss % Unit(step) == 0
    ensures var raw := GetStartPriceFromSpread(bb, ss, configured, step);
            && raw > bb && (ss > 0 ==> raw <= ss)
            && raw % Unit(step) == 0 && TruncateToStep(raw, step) == raw
  {
    StepOnGridIff(step);
    RawStartOnGrid(bb, ss, configured, step, Unit(step));
    TruncateIdempotent(GetStartPriceFromSpread(bb, ss, configured, step), step);
  }
}
