/** Two cycles: the book that the first one leaves behind leads the second to the same
    start price, and then to nothing new to place. */
module FixedPoint {
  import opened Decimals
  import opened Options
  import opened GridTruncation
  import opened Orders
  import opened StartPrice
  import opened Ladder
  import opened OrderFiller
  import opened SpreadMode

  function PriceSet(placed: seq<Dec>): set<Dec> {
    set q | q in placed
  }

  /** The side after the placed orders joined it and nothing was traded. */
  predicate Joined(side: OrderType, book: seq<AggregatedOrder>, placed: seq<Dec>, after: seq<AggregatedOrder>) {
    SortedSide(side, after) && Prices(after) == Prices(book) + PriceSet(placed)
  }

  /** The market after a cycle that started from p and whose orders were all accepted,
      nothing being traded or cancelled, with the wallet's own list complete. */
  predicate AfterCycle(cfg: OrdersConfig, p: Dec, m: Market, after: Market)
    requires cfg.step > 0
  {
    && Joined(Sell, m.sells, SellsFrom(cfg, m, p), after.sells)
    && Joined(Buy, m.buys, BuysFrom(cfg, m, p), after.buys)
    && after.mySells == m.mySells + PriceSet(SellsFrom(cfg, m, p))
    && after.myBuys == m.myBuys + PriceSet(BuysFrom(cfg, m, p))
  }

  predicate OwnOrdersOnBook(m: Market) {
    m.myBuys <= Prices(m.buys) && m.mySells <= Prices(m.sells)
  }

  // ----- the best prices after a cycle -----

  lemma FirstRungTaken(side: OrderType, book: seq<AggregatedOrder>, owned: set<Dec>, step: Dec, f: Dec, needed: int)
    requires SortedSide(side, book) && step > 0 && needed > 0 && f > 0 && owned <= Prices(book)
    ensures f in Prices(book) || f in PlacedPrices(Climb(side, book, owned, step, f, needed).rungs)
  {
    ScanIsMembership(side, book, f);
    ClimbUnfolds(side, book, owned, step, needed, Rung(f, KindOf(side, book, owned, f)));
    PlacedAre(Climb(side, book, owned, step, f, needed).rungs, f);
  }

  lemma NothingBelowZero(side: OrderType, book: seq<AggregatedOrder>, owned: set<Dec>, step: Dec, f: Dec, needed: int)
    requires SortedSide(side, book) && step > 0 && f <= 0 && f !in owned
    ensures PlacedPrices(Climb(side, book, owned, step, f, needed).rungs) == []
  {
    ScanIsMembership(side, book, f);
  }

  lemma NearestUnique(side: OrderType, after: seq<AggregatedOrder>, b: Dec)
    requires SortedSide(side, after) && b in Prices(after)
    requires forall q :: q in Prices(after) ==> !Before(side, q, b)
    ensures after != [] && Best(after) == b
  {
    InPrices(after, b);
    BestIsNearest(side, after);
  }

  /** The nearer of the first rung and the best price there was. */
  function NearerOf(side: OrderType, book: seq<AggregatedOrder>, f: Dec): Dec {
    if book == [] || Before(side, f, Best(book)) then f else Best(book)
  }

  lemma BestAfter(side: OrderType, book: seq<AggregatedOrder>, owned: set<Dec>, step: Dec, f: Dec, needed: int, after: seq<AggregatedOrder>)
    requires SortedSide(side, book) && step > 0 && needed > 0 && f > 0 && owned <= Prices(book)
    requires Joined(side, book, PlacedPrices(Climb(side, book, owned, step, f, needed).rungs), after)
    ensures after != [] && Best(after) == NearerOf(side, book, f)
  {
    var placed := PlacedPrices(Climb(side, book, owned, step, f, needed).rungs);
    FirstRungTaken(side, book, owned, step, f, needed);
    forall q | q in placed
      ensures !Before(side, q, f)
    {
      var k :| 0 <= k < |placed| && placed[k] == q;
      PlacedOrders(side, book, owned, step, f, needed, k);
    }
    if book != [] {
      BestIsNearest(side, book);
    } else {
      assert Prices(book) == {};
    }
    NearestUnique(side, after, NearerOf(side, book, f));
  }

  lemma BestAfterNothing(side: OrderType, book: seq<AggregatedOrder>, after: seq<AggregatedOrder>)
    requires SortedSide(side, book) && Joined(side, book, [], after)
    ensures after == [] <==> book == []
    ensures Best(after) == Best(book)
  {
    assert Prices(after) == Prices(book);
    if book != [] {
      BestIsNearest(side, book);
      NearestUnique(side, after, Best(book));
    } else if after != [] {
      BestIsNearest(side, after);
    }
  }

  // ----- the start price again, in integers -----

  lemma Nearest(n: nat, h: nat, step: int, diff: int)
    requires step > 0
    requires 2 * (n * step) < diff + step && diff < 2 * (n * step) + 2 * step
    requires 2 * (h * step) < diff <= 2 * (h * step) + step
    ensures n == h
  {
    if n < h {
      MulMonotone(n + 1, h, step);
    }
    if n > h {
      MulMonotone(h + 1, n, step);
    }
  }

  lemma FirstRungs(n: nat, h: nat, step: int)
    requires step > 0
    ensures n < h ==> n * step + step <= h * step
    ensures n > h ==> h * step + step <= n * step
  {
    if n < h {
      MulMonotone(n + 1, h, step);
    }
    if n > h {
      MulMonotone(h + 1, n, step);
    }
  }

  /** Both sides present: whatever the width of the spread, the first rungs P + h·step and
      P - (h+1)·step together with the old best prices give P again. */
  lemma SameStartBothSides(bb: Dec, ss: Dec, configured: Dec, step: Dec, h: nat, p: Dec, s2: Dec, b2: Dec)
    requires step > 0 && 0 < bb < ss && p == GetStartPriceFromSpread(bb, ss, configured, step)
    requires s2 == (if p + h * step < ss then p + h * step else ss)
    requires b2 == (if p - step - h * step > bb then p - step - h * step else bb)
    ensures b2 < s2 && GetStartPriceFromSpread(b2, s2, configured, step) == p
  {
    var n := StartFromSpread(bb, ss, configured, step);
    FirstRungs(n, h, step);
    MulMonotone(0, h, step);
    StepsBelow(bb, ss, step, n, 1);
    if s2 != ss || b2 != bb {
      assert s2 == p + h * step;
      var n2 := StartFromSpread(b2, s2, configured, step);
      Nearest(n2, h, step, s2 - b2);
    }
  }

  /** Only buys on the book: the sells come to stand h steps above the start, and the gap
      to the best buy is one step wider. */
  lemma SameStartOnlyBuys(bb: Dec, configured: Dec, step: Dec, h: nat)
    requires step > 0 && bb > 0
    ensures var p := bb + step;
            GetStartPriceFromSpread(bb, p + h * step, configured, step) == p <==> h <= 1
  {
    MulMonotone(0, h, step);
    assert (h + 1) * step == h * step + step;
    WholeGapIsHalved(bb, bb + step + h * step, configured, step, h + 1);
    SameSteps(h, (h + 1) / 2, step);
  }

  lemma SameSteps(a: int, b: int, step: int)
    requires step > 0
    ensures a * step == b * step <==> a == b
  {
    assert (a - b) * step == a * step - b * step;
    MulGrows(a - b, step);
  }

  lemma SameStartOnlySells(ss: Dec, configured: Dec, step: Dec, h: nat)
    requires step > 0 && ss - step - h * step > 0
    ensures GetStartPriceFromSpread(ss - step - h * step, ss, configured, step) == ss <==> h == 0
  {
    MulMonotone(0, h, step);
    assert (h + 1) * step == h * step + step;
    WholeGapIsHalved(ss - step - h * step, ss, configured, step, h + 1);
    MulGrows((h + 1) / 2, step);
  }

  lemma OddSteps(h: nat, step: int) returns (k: nat, t: int)
    requires step > 0
    ensures k / 2 == h && t == h * step && t >= 0 && k * step == 2 * t + step
  {
    k, t := 2 * h + 1, h * step;
    MulMonotone(0, h, step);
  }

  lemma SameStartFreshBook(p: Dec, configured: Dec, step: Dec, h: nat)
    requires step > 0 && p - step - h * step > 0
    ensures GetStartPriceFromSpread(p - step - h * step, p + h * step, configured, step) == p
  {
    var k, t := OddSteps(h, step);
    WholeGapIsHalved(p - step - t, p + t, configured, step, k);
  }

  // ----- the start price again, on books -----

  /** When the second cycle starts from the same price: P is the first start price, h the
      configured half spread in steps. */
  predicate KeepsStart(cfg: OrdersConfig, m: Market, p: Dec) {
    var h := cfg.SideSteps();
    if m.buys != [] && m.sells != [] then true
    else if m.buys == [] && m.sells == [] then h == 0 || p > cfg.step + h * cfg.step
    else if m.sells == [] then h <= 1
    else h == 0 || p <= cfg.step + h * cfg.step
  }

  /** The best prices after a cycle that started from p with half spread t: zero stands
      for an empty side. */
  function SellAfter(ss: Dec, p: Dec, t: Dec): Dec {
    if ss == 0 || p + t < ss then p + t else ss
  }

  function BuyAfter(bb: Dec, p: Dec, step: Dec, t: Dec): Dec {
    if p - step - t > bb then p - step - t else bb
  }

  /** The configured half spread as a price distance. */
  function HalfSpread(cfg: OrdersConfig): Dec {
    MulInt(cfg.step, cfg.SideSteps())
  }

  predicate PositiveSide(side: OrderType, book: seq<AggregatedOrder>) {
    SortedSide(side, book) && forall q :: q in Prices(book) ==> q > 0
  }

  /** The best price of a side after its ladder, whether or not the ladder could start. */
  lemma BestAfterLadder(side: OrderType, book: seq<AggregatedOrder>, owned: set<Dec>, step: Dec, f: Dec, needed: int, after: seq<AggregatedOrder>)
    requires PositiveSide(side, book) && step > 0 && needed > 0 && owned <= Prices(book)
    requires Joined(side, book, PlacedPrices(Climb(side, book, owned, step, f, needed).rungs), after)
    ensures Best(after) == if f > 0 then NearerOf(side, book, f) else Best(book)
    ensures Best(book) >= 0 && (Best(book) > 0 <==> book != [])
  {
    if f > 0 {
      BestAfter(side, book, owned, step, f, needed, after);
    } else {
      NothingBelowZero(side, book, owned, step, f, needed);
      BestAfterNothing(side, book, after);
    }
    if book != [] {
      BestIsNearest(side, book);
    }
  }

  lemma BestSellAfter(cfg: OrdersConfig, p: Dec, m: Market, after: Market)
    requires cfg.Valid() && cfg.spreadSteps > 0 && PositiveSide(Sell, m.sells) && OwnOrdersOnBook(m)
    requires Joined(Sell, m.sells, SellsFrom(cfg, m, p), after.sells)
    requires p + HalfSpread(cfg) > 0 || (m.sells == [] && p + HalfSpread(cfg) == 0)
    ensures Best(after.sells) == SellAfter(Best(m.sells), p, HalfSpread(cfg))
  {
    BestAfterLadder(Sell, m.sells, m.mySells, cfg.step, FirstRung(cfg, Sell, p), cfg.sellNo, after.sells);
  }

  lemma BuyArithmetic(book: seq<AggregatedOrder>, f: Dec, p: Dec, step: Dec, t: Dec)
    requires f == p - step - t && Best(book) >= 0 && (Best(book) > 0 <==> book != [])
    ensures (if f > 0 then NearerOf(Buy, book, f) else Best(book)) == BuyAfter(Best(book), p, step, t)
  {
  }

  lemma BestBuyAfter(cfg: OrdersConfig, p: Dec, m: Market, after: Market)
    requires cfg.Valid() && cfg.spreadSteps > 0 && PositiveSide(Buy, m.buys) && OwnOrdersOnBook(m)
    requires Joined(Buy, m.buys, BuysFrom(cfg, m, p), after.buys)
    ensures Best(after.buys) == BuyAfter(Best(m.buys), p, cfg.step, HalfSpread(cfg))
  {
    var f := FirstRung(cfg, Buy, p - cfg.step);
    BestAfterLadder(Buy, m.buys, m.myBuys, cfg.step, f, cfg.buyNo, after.buys);
    BuyArithmetic(m.buys, f, p, cfg.step, HalfSpread(cfg));
  }

  /** When the start price of numbers bb and ss is found again: zero is an empty side. */
  predicate Regains(bb: Dec, ss: Dec, step: Dec, h: nat, p: Dec) {
    (bb > 0 && ss > 0) || (ss == 0 && h <= 1) || (bb == 0 && (h == 0 || p <= step + h * step))
  }

  predicate BookPrices(bb: Dec, ss: Dec) {
    bb >= 0 && ss >= 0 && (bb > 0 || ss > 0) && (bb > 0 && ss > 0 ==> bb < ss)
  }

  /** The raw start price of the second cycle is P exactly in these cases. */
  lemma RawStartAgain(bb: Dec, ss: Dec, configured: Dec, step: Dec, h: nat, t: Dec, p: Dec)
    requires step > 0 && BookPrices(bb, ss) && t == h * step
    requires p == GetStartPriceFromSpread(bb, ss, configured, step)
    ensures GetStartPriceFromSpread(BuyAfter(bb, p, step, t), SellAfter(ss, p, t), configured, step) == p
       <==> Regains(bb, ss, step, h, p)
  {
    MulMonotone(0, h, step);
    if bb > 0 && ss > 0 {
      SameStartBothSides(bb, ss, configured, step, h, p, SellAfter(ss, p, t), BuyAfter(bb, p, step, t));
    } else if ss == 0 {
      SameStartOnlyBuys(bb, configured, step, h);
    } else if ss - step - h * step > 0 {
      SameStartOnlySells(ss, configured, step, h);
    }
  }

  lemma PositiveBooks(cfg: OrdersConfig, m: Market)
    requires cfg.step > 0 && Healthy(cfg, m)
    ensures Best(m.buys) >= 0 && (Best(m.buys) > 0 <==> m.buys != [])
    ensures Best(m.sells) >= 0 && (Best(m.sells) > 0 <==> m.sells != [])
    ensures Best(m.buys) % Unit(cfg.step) == 0 && Best(m.sells) % Unit(cfg.step) == 0
  {
    BestAligned(Buy, m.buys, Unit(cfg.step));
    BestAligned(Sell, m.sells, Unit(cfg.step));
  }

  lemma RungsOnGrid(p: Dec, step: Dec, t: Dec, u: int)
    requires u > 0 && p % u == 0 && step % u == 0 && t % u == 0
    ensures (p + t) % u == 0 && (p - step - t) % u == 0
  {
    SumOfMultiples(p, t, u);
    SumOfMultiples(p, step, u);
    SumOfMultiples(p - step, t, u);
  }

  lemma BestsOnGrid(bb: Dec, ss: Dec, p: Dec, step: Dec, t: Dec, u: int)
    requires u > 0 && step > 0 && t >= 0 && BookPrices(bb, ss)
    requires bb < p && (ss > 0 ==> p <= ss)
    requires bb % u == 0 && ss % u == 0 && p % u == 0 && step % u == 0 && t % u == 0
    ensures var b2, s2 := BuyAfter(bb, p, step, t), SellAfter(ss, p, t);
            BookPrices(b2, s2) && b2 % u == 0 && s2 % u == 0
  {
    RungsOnGrid(p, step, t, u);
  }

  /** The truncated start price is the raw one, before and after. */
  lemma StartAgainOnPrices(bb: Dec, ss: Dec, configured: Dec, step: Dec, h: nat, t: Dec, p: Dec, p2: Dec)
    requires step > 0 && step % MICRO == 0 && BookPrices(bb, ss) && t == h * step
    requires bb % Unit(step) == 0 && ss % Unit(step) == 0
    requires p == GetStartPriceFromSpread(bb, ss, configured, step)
    requires p2 == GetStartPriceFromSpread(BuyAfter(bb, p, step, t), SellAfter(ss, p, t), configured, step)
    ensures TruncateToStep(p2, step) == p <==> Regains(bb, ss, step, h, p)
  {
    var u := Unit(step);
    StepOnGridIff(step);
    MulMonotone(0, h, step);
    MultipleOfMultiple(h, step, u);
    AlignedStart(bb, ss, configured, step);
    BestsOnGrid(bb, ss, p, step, t, u);
    RawStartAgain(bb, ss, configured, step, h, t, p);
    AlignedStart(BuyAfter(bb, p, step, t), SellAfter(ss, p, t), configured, step);
  }

  /** An empty book, P being the truncated configured price. */
  lemma StartAgainFresh(configured: Dec, step: Dec, h: nat, t: Dec, p: Dec, p2: Dec)
    requires step > 0 && step % MICRO == 0 && t == h * step
    requires p >= 0 && p % Unit(step) == 0 && TruncateToStep(configured, step) == p
    requires p2 == GetStartPriceFromSpread(BuyAfter(0, p, step, t), SellAfter(0, p, t), configured, step)
    ensures TruncateToStep(p2, step) == p <==> h == 0 || p > step + t
  {
    var u := Unit(step);
    MulMonotone(0, h, step);
    if p - step - t > 0 {
      SameStartFreshBook(p, configured, step, h);
      TruncateIdempotent(p, step);
    } else {
      StepOnGridIff(step);
      MultipleOfMultiple(h, step, u);
      RungsOnGrid(p, step, t, u);
      TruncateIdempotent(p + t, step);
      SameSteps(h, 0, step);
    }
  }

  lemma SpreadStart(cfg: OrdersConfig, history: HistoryAnswer, m: Market)
    requires cfg.step > 0 && cfg.spreadSteps > 0
    ensures Start(cfg, history, m)
         == TruncateToStep(GetStartPriceFromSpread(Best(m.buys), Best(m.sells), cfg.startPrice, cfg.step), cfg.step)
  {
  }

  /** The start price of the next cycle is the same exactly when KeepsStart holds: always
      with both sides on the book. */
  lemma StartAgain(cfg: OrdersConfig, history: HistoryAnswer, next: HistoryAnswer, m: Market, after: Market, p: Dec)
    requires SpreadConfig(cfg) && Healthy(cfg, m) && OwnOrdersOnBook(m)
    requires p == Start(cfg, history, m) && AfterCycle(cfg, p, m, after)
    ensures Start(cfg, next, after) == p <==> KeepsStart(cfg, m, p)
  {
    var h, t := cfg.SideSteps(), HalfSpread(cfg);
    var p2 := GetStartPriceFromSpread(Best(after.buys), Best(after.sells), cfg.startPrice, cfg.step);
    PositiveBooks(cfg, m);
    SpreadStart(cfg, history, m);
    SpreadStart(cfg, next, after);
    MulMonotone(0, h, cfg.step);
    if m.buys == [] && m.sells == [] {
      TruncateIsGreatest(cfg.startPrice, cfg.step, 0);
      BestSellAfter(cfg, p, m, after);
      BestBuyAfter(cfg, p, m, after);
      StartAgainFresh(cfg.startPrice, cfg.step, h, t, p, p2);
    } else {
      StartInSpread(cfg, history, m);
      BestSellAfter(cfg, p, m, after);
      BestBuyAfter(cfg, p, m, after);
      StartAgainOnPrices(Best(m.buys), Best(m.sells), cfg.startPrice, cfg.step, h, t, p, p2);
    }
  }

  // ----- nothing new to place -----

  /** Climbing again over rungs that are all owned or on the book by now places nothing,
      even if fewer orders are needed than before. */
  lemma {:induction false} NothingNew(side: OrderType, book: seq<AggregatedOrder>, owned: set<Dec>, step: Dec, p: Dec, needed: int,
                                      after: seq<AggregatedOrder>, owned': set<Dec>, needed': int)
    requires step > 0 && SortedSide(side, book) && SortedSide(side, after) && needed' <= needed
    requires Prices(book) <= Prices(after) && owned <= owned'
    requires forall q :: q in owned' && q <= 0 ==> q in owned
    requires forall q :: q in PlacedPrices(Climb(side, book, owned, step, p, needed).rungs) ==> q in owned'
    ensures PlacedPrices(Climb(side, after, owned', step, p, needed').rungs) == []
    decreases (if needed > 0 then needed else 0) + |Ahead(side, book, p)|
  {
    if needed' > 0 {
      ScanIsMembership(side, book, p);
      ScanIsMembership(side, after, p);
      if p in owned || p > 0 {
        var r := Rung(p, KindOf(side, book, owned, p));
        ClimbUnfolds(side, book, owned, step, needed, r);
        ClimbDecreases(side, book, owned, step, needed, r);
        var rest := Climb(side, book, owned, step, Move(side, p, step), Fewer(needed, r));
        assert ([r] + rest.rungs)[1..] == rest.rungs;
        var r' := Rung(p, KindOf(side, after, owned', p));
        ClimbUnfolds(side, after, owned', step, needed', r');
        assert r'.kind != Placed;
        NothingNew(side, book, owned, step, Move(side, p, step), Fewer(needed, r), after, owned', Fewer(needed', r'));
        var rest' := Climb(side, after, owned', step, Move(side, p, step), Fewer(needed', r'));
        assert ([r'] + rest'.rungs)[1..] == rest'.rungs;
      }
    }
  }

  lemma PlacedArePositive(side: OrderType, book: seq<AggregatedOrder>, owned: set<Dec>, step: Dec, p: Dec, needed: int, q: Dec)
    requires SortedSide(side, book) && step > 0
    requires q in PlacedPrices(Climb(side, book, owned, step, p, needed).rungs)
    ensures q > 0
  {
    var s := PlacedPrices(Climb(side, book, owned, step, p, needed).rungs);
    var k :| 0 <= k < |s| && s[k] == q;
    PlacedOrders(side, book, owned, step, p, needed, k);
  }

  lemma SideIsDone(side: OrderType, book: seq<AggregatedOrder>, owned: set<Dec>, step: Dec, f: Dec, needed: int, after: seq<AggregatedOrder>)
    requires SortedSide(side, book) && step > 0
    requires Joined(side, book, PlacedPrices(Climb(side, book, owned, step, f, needed).rungs), after)
    ensures var placed := PlacedPrices(Climb(side, book, owned, step, f, needed).rungs);
            PlacedPrices(Climb(side, after, owned + PriceSet(placed), step, f, needed).rungs) == []
  {
    var placed := PlacedPrices(Climb(side, book, owned, step, f, needed).rungs);
    forall q | q in placed
      ensures q > 0
    {
      PlacedArePositive(side, book, owned, step, f, needed, q);
    }
    NothingNew(side, book, owned, step, f, needed, after, owned + PriceSet(placed), needed);
  }

  lemma LadderIsDone(cfg: OrdersConfig, side: OrderType, book: seq<AggregatedOrder>, owned: set<Dec>, start: Dec,
                     placed: seq<Dec>, after: seq<AggregatedOrder>)
    requires cfg.step > 0 && SortedSide(side, book)
    requires placed == PlacedPrices(LadderOf(cfg, side, book, owned, start).rungs) && Joined(side, book, placed, after)
    ensures PlacedPrices(LadderOf(cfg, side, after, owned + PriceSet(placed), start).rungs) == []
  {
    SideIsDone(side, book, owned, cfg.step, FirstRung(cfg, side, start), Needed(cfg, side), after);
  }

  /** From the same start price, the second cycle places nothing on either side. */
  lemma NoSellsFromSamePrice(cfg: OrdersConfig, p: Dec, m: Market, after: Market)
    requires cfg.step > 0 && SortedSide(Sell, m.sells)
    requires Joined(Sell, m.sells, SellsFrom(cfg, m, p), after.sells)
    requires after.mySells == m.mySells + PriceSet(SellsFrom(cfg, m, p))
    ensures SellsFrom(cfg, after, p) == []
  {
    LadderIsDone(cfg, Sell, m.sells, m.mySells, p, SellsFrom(cfg, m, p), after.sells);
  }

  lemma NoBuysFromSamePrice(cfg: OrdersConfig, p: Dec, m: Market, after: Market)
    requires cfg.step > 0 && SortedSide(Buy, m.buys)
    requires Joined(Buy, m.buys, BuysFrom(cfg, m, p), after.buys)
    requires after.myBuys == m.myBuys + PriceSet(BuysFrom(cfg, m, p))
    ensures BuysFrom(cfg, after, p) == []
  {
    LadderIsDone(cfg, Buy, m.buys, m.myBuys, p - cfg.step, BuysFrom(cfg, m, p), after.buys);
  }

  /** The fixed point: on a healthy book that keeps the start price, the second cycle
      starts from the same price and places neither a sell nor a buy. */
  lemma SecondCycleIsDone(cfg: OrdersConfig, history: HistoryAnswer, next: HistoryAnswer, m: Market, after: Market, p: Dec)
    requires SpreadConfig(cfg) && Healthy(cfg, m) && OwnOrdersOnBook(m)
    requires p == Start(cfg, history, m) && AfterCycle(cfg, p, m, after) && KeepsStart(cfg, m, p)
    ensures Start(cfg, next, after) == p
    ensures NewSells(cfg, next, after) == [] && NewBuys(cfg, next, after) == []
  {
    StartAgain(cfg, history, next, m, after, p);
    NoSellsFromSamePrice(cfg, p, m, after);
    NoBuysFromSamePrice(cfg, p, m, after);
  }

  /** Nothing placed means nothing submitted, and no error. */
  lemma NoRungsNoBatch(cfg: OrdersConfig, m: Market, p: Dec, sellPart: seq<Submission>, buyPart: seq<Submission>, err: Option<Error>)
    requires cfg.Valid() && SortedSide(Sell, m.sells) && SortedSide(Buy, m.buys)
    requires SellsFrom(cfg, m, p) == [] && BuysFrom(cfg, m, p) == []
    requires FillSubmits(cfg, SellLadder(cfg, m.sells, m.mySells, p), BuyLadder(cfg, m.buys, m.myBuys, p), sellPart, buyPart, err)
    ensures sellPart == [] && buyPart == [] && err == None
  {
    ClimbAccounting(Sell, m.sells, m.mySells, cfg.step, FirstRung(cfg, Sell, p), cfg.sellNo);
    ClimbAccounting(Buy, m.buys, m.myBuys, cfg.step, FirstRung(cfg, Buy, p - cfg.step), cfg.buyNo);
  }
}
