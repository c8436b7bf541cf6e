/** Runs of cycles: the book stays healthy, and after the first cycle nothing is placed. */
module CycleRuns {
  import opened Decimals
  import opened PriceText
  import opened GridTruncation
  import opened Orders
  import opened StableSorting
  import opened StartPrice
  import opened Ladder
  import opened OrderFiller
  import opened SpreadMode
  import opened FixedPoint

  // ----- a book that takes the orders in -----

  function LevelKey(side: OrderType): AggregatedOrder -> int {
    (o: AggregatedOrder) => if side == Buy then -PriceOf(o.price) else PriceOf(o.price)
  }

  function NewLevels(side: OrderType, placed: seq<Dec>): seq<AggregatedOrder> {
    if placed == [] then [] else NewLevels(side, placed[..|placed| - 1]) + [AggregatedOrder(side, 1, Text(placed[|placed| - 1]))]
  }

  /** The smallest book that shows the placed orders beside the old levels. */
  function BookAfter(side: OrderType, book: seq<AggregatedOrder>, placed: seq<Dec>): seq<AggregatedOrder> {
    StableSort(book + NewLevels(side, placed), LevelKey(side))
  }

  lemma PricesConcat(a: seq<AggregatedOrder>, b: seq<AggregatedOrder>)
    ensures Prices(a + b) == Prices(a) + Prices(b)
  {
    assert forall o :: o in a + b <==> o in a || o in b;
  }

  lemma OneLevelPrice(side: OrderType, q: Dec)
    ensures Prices([AggregatedOrder(side, 1, Text(q))]) == {q}
  {
    TextRoundTrip(q);
    var o := AggregatedOrder(side, 1, Text(q));
    assert PriceOf(o.price) == q;
    assert forall x :: x in [o] <==> x == o;
  }

  lemma {:induction false} NewLevelPrices(side: OrderType, placed: seq<Dec>)
    ensures Prices(NewLevels(side, placed)) == PriceSet(placed)
    ensures forall o :: o in NewLevels(side, placed) ==> o.orderType == side
  {
    if placed == [] {
      assert Prices(NewLevels(side, placed)) == {};
    } else {
      var init, q := placed[..|placed| - 1], placed[|placed| - 1];
      NewLevelPrices(side, init);
      OneLevelPrice(side, q);
      PricesConcat(NewLevels(side, init), [AggregatedOrder(side, 1, Text(q))]);
      assert forall p :: p in placed <==> p in init || p == q;
    }
  }

  lemma SortKeepsLevels(levels: seq<AggregatedOrder>, key: AggregatedOrder -> int)
    ensures Prices(StableSort(levels, key)) == Prices(levels)
    ensures forall o :: o in StableSort(levels, key) ==> o in levels
  {
    var sorted := StableSort(levels, key);
    forall o
      ensures o in sorted <==> o in levels
    {
      assert o in multiset(sorted) <==> o in multiset(levels);
    }
  }

  lemma SortedLevels(side: OrderType, levels: seq<AggregatedOrder>)
    requires forall o :: o in levels ==> o.orderType == side
    ensures SortedSide(side, StableSort(levels, LevelKey(side)))
  {
    var key := LevelKey(side);
    var after := StableSort(levels, key);
    SortKeepsLevels(levels, key);
    StableSortSorts(levels, key, 0);
    forall i | 0 <= i < |after|
      ensures after[i].orderType == side
    {
      assert after[i] in after;
    }
    forall i, j | 0 <= i < j < |after|
      ensures !Before(side, PriceAt(after, j), PriceAt(after, i))
    {
      assert key(after[i]) <= key(after[j]);
    }
  }

  /** Such a book exists for every ladder, so a cycle's effect is never impossible. */
  lemma BookAfterJoins(side: OrderType, book: seq<AggregatedOrder>, placed: seq<Dec>)
    requires SortedSide(side, book)
    ensures Joined(side, book, placed, BookAfter(side, book, placed))
  {
    var levels := NewLevels(side, placed);
    NewLevelPrices(side, placed);
    PricesConcat(book, levels);
    SortKeepsLevels(book + levels, LevelKey(side));
    SortedLevels(side, book + levels);
  }

  // ----- health is kept -----

  lemma PlacedOnGrid(side: OrderType, book: seq<AggregatedOrder>, owned: set<Dec>, step: Dec, f: Dec, needed: int, u: int, q: Dec)
    requires SortedSide(side, book) && step > 0 && u > 0 && f % u == 0 && step % u == 0
    requires q in PlacedPrices(Climb(side, book, owned, step, f, needed).rungs)
    ensures q > 0 && q % u == 0
  {
    var rungs := Climb(side, book, owned, step, f, needed).rungs;
    PlacedAre(rungs, q);
    var i :| 0 <= i < |rungs| && rungs[i] == Rung(q, Placed);
    ClimbCoverage(side, book, owned, step, f, needed, i);
    MultipleOfMultiple(i, step, u);
    SumOfMultiples(f, i * step, u);
  }

  lemma SideStaysAligned(side: OrderType, book: seq<AggregatedOrder>, owned: set<Dec>, step: Dec, f: Dec, needed: int, u: int,
                         after: seq<AggregatedOrder>)
    requires u > 0 && AlignedSide(side, book, u) && step > 0 && f % u == 0 && step % u == 0
    requires Joined(side, book, PlacedPrices(Climb(side, book, owned, step, f, needed).rungs), after)
    ensures AlignedSide(side, after, u)
  {
    forall q | q in Prices(after)
      ensures q > 0 && q % u == 0
    {
      if q !in Prices(book) {
        PlacedOnGrid(side, book, owned, step, f, needed, u, q);
      }
    }
  }

  /** The start price of any healthy book is on the grid and not negative. */
  lemma StartOnGrid(cfg: OrdersConfig, history: HistoryAnswer, m: Market)
    requires SpreadConfig(cfg) && Healthy(cfg, m)
    ensures Start(cfg, history, m) >= 0 && Start(cfg, history, m) % Unit(cfg.step) == 0
  {
    if m.buys == [] && m.sells == [] {
      SpreadStart(cfg, history, m);
      TruncateIsGreatest(cfg.startPrice, cfg.step, 0);
    } else {
      StartInSpread(cfg, history, m);
      PositiveBooks(cfg, m);
    }
  }

  lemma FirstRungOnGrid(cfg: OrdersConfig, side: OrderType, p: Dec, u: int)
    requires u > 0 && cfg.step % u == 0 && p % u == 0
    ensures FirstRung(cfg, side, p) % u == 0
  {
    MultipleOfMultiple(cfg.SideSteps(), cfg.step, u);
    SumOfMultiples(p, HalfSpread(cfg), u);
  }

  lemma SellsStayAligned(cfg: OrdersConfig, p: Dec, m: Market, after: Market, u: int)
    requires cfg.Valid() && u > 0 && cfg.step % u == 0
    requires AlignedSide(Sell, m.sells, u) && p % u == 0
    requires Joined(Sell, m.sells, SellsFrom(cfg, m, p), after.sells)
    ensures AlignedSide(Sell, after.sells, u)
  {
    var f := FirstRung(cfg, Sell, p);
    FirstRungOnGrid(cfg, Sell, p, u);
    SideStaysAligned(Sell, m.sells, m.mySells, cfg.step, f, cfg.sellNo, u, after.sells);
  }

  lemma BuysStayAligned(cfg: OrdersConfig, p: Dec, m: Market, after: Market, u: int)
    requires cfg.Valid() && u > 0 && cfg.step % u == 0
    requires AlignedSide(Buy, m.buys, u) && p % u == 0
    requires Joined(Buy, m.buys, BuysFrom(cfg, m, p), after.buys)
    ensures AlignedSide(Buy, after.buys, u)
  {
    var f := FirstRung(cfg, Buy, p - cfg.step);
    SumOfMultiples(p, cfg.step, u);
    FirstRungOnGrid(cfg, Buy, p - cfg.step, u);
    SideStaysAligned(Buy, m.buys, m.myBuys, cfg.step, f, cfg.buyNo, u, after.buys);
  }

  lemma StaysUncrossed(cfg: OrdersConfig, history: HistoryAnswer, m: Market, after: Market, p: Dec)
    requires SpreadConfig(cfg) && Healthy(cfg, m) && OwnOrdersOnBook(m)
    requires p == Start(cfg, history, m) && AfterCycle(cfg, p, m, after)
    ensures Best(after.sells) > 0 ==> Best(after.buys) < Best(after.sells)
  {
    PositiveBooks(cfg, m);
    StartOnGrid(cfg, history, m);
    MulMonotone(0, cfg.SideSteps(), cfg.step);
    if m.buys != [] || m.sells != [] {
      StartInSpread(cfg, history, m);
    }
    BestSellAfter(cfg, p, m, after);
    BestBuyAfter(cfg, p, m, after);
  }

  /** A cycle that nothing disturbs leaves a healthy book that shows all own orders. */
  lemma StaysHealthy(cfg: OrdersConfig, history: HistoryAnswer, m: Market, after: Market, p: Dec)
    requires SpreadConfig(cfg) && Healthy(cfg, m) && OwnOrdersOnBook(m)
    requires p == Start(cfg, history, m) && AfterCycle(cfg, p, m, after)
    ensures Healthy(cfg, after) && OwnOrdersOnBook(after)
  {
    StartOnGrid(cfg, history, m);
    StepOnGridIff(cfg.step);
    SellsStayAligned(cfg, p, m, after, Unit(cfg.step));
    BuysStayAligned(cfg, p, m, after, Unit(cfg.step));
    StaysUncrossed(cfg, history, m, after, p);
    if after.sells != [] {
      BestAligned(Sell, after.sells, Unit(cfg.step));
    }
  }

  // ----- a run of cycles -----

  /** One cycle after the other, whatever the trade history answers meanwhile. */
  predicate IsRun(cfg: OrdersConfig, history: seq<HistoryAnswer>, run: seq<Market>)
    requires cfg.step > 0
  {
    && |history| == |run|
    && forall i :: 0 <= i < |run| - 1 ==> AfterCycle(cfg, Start(cfg, history[i], run[i]), run[i], run[i + 1])
  }

  /** No run ever gets stuck: from any sorted market, for any answers of the history, there
      is one (for instance from the empty book, which is healthy). */
  lemma {:induction false} RunsExist(cfg: OrdersConfig, history: seq<HistoryAnswer>, m: Market) returns (run: seq<Market>)
    requires cfg.step > 0 && |history| > 0
    requires SortedSide(Sell, m.sells) && SortedSide(Buy, m.buys)
    ensures IsRun(cfg, history, run) && run[0] == m
    ensures SortedSide(Sell, run[|run| - 1].sells) && SortedSide(Buy, run[|run| - 1].buys)
  {
    if |history| == 1 {
      return [m];
    }
    var n := |history| - 1;
    var before := RunsExist(cfg, history[..n], m);
    var last := before[n - 1];
    var p := Start(cfg, history[n - 1], last);
    var newSells, newBuys := SellsFrom(cfg, last, p), BuysFrom(cfg, last, p);
    BookAfterJoins(Sell, last.sells, newSells);
    BookAfterJoins(Buy, last.buys, newBuys);
    var after := Market(BookAfter(Buy, last.buys, newBuys), BookAfter(Sell, last.sells, newSells),
                        last.myBuys + PriceSet(newBuys), last.mySells + PriceSet(newSells));
    assert AfterCycle(cfg, p, last, after);
    run := before + [after];
    forall i | 0 <= i < n
      ensures AfterCycle(cfg, Start(cfg, history[i], run[i]), run[i], run[i + 1])
    {
      assert run[i] == before[i] && (i < n - 1 ==> run[i + 1] == before[i + 1]) && history[..n][i] == history[i];
    }
  }

  lemma {:induction false} RunStaysHealthy(cfg: OrdersConfig, history: seq<HistoryAnswer>, run: seq<Market>, i: nat)
    requires SpreadConfig(cfg) && IsRun(cfg, history, run) && i < |run|
    requires Healthy(cfg, run[0]) && OwnOrdersOnBook(run[0])
    ensures Healthy(cfg, run[i]) && OwnOrdersOnBook(run[i])
  {
    if i > 0 {
      RunStaysHealthy(cfg, history, run, i - 1);
      StaysHealthy(cfg, history[i - 1], run[i - 1], run[i], Start(cfg, history[i - 1], run[i - 1]));
    }
  }

  /** Once a cycle places nothing, the book stands still, and so does the start price. */
  lemma StandsStill(cfg: OrdersConfig, history: HistoryAnswer, next: HistoryAnswer, m: Market, after: Market, p: Dec)
    requires SpreadConfig(cfg) && SortedSide(Sell, m.sells) && SortedSide(Buy, m.buys)
    requires p == Start(cfg, history, m) && SellsFrom(cfg, m, p) == [] && BuysFrom(cfg, m, p) == []
    requires AfterCycle(cfg, p, m, after)
    ensures Start(cfg, next, after) == p && SellsFrom(cfg, after, p) == [] && BuysFrom(cfg, after, p) == []
  {
    SpreadStart(cfg, history, m);
    SpreadStart(cfg, next, after);
    BestAfterNothing(Sell, m.sells, after.sells);
    BestAfterNothing(Buy, m.buys, after.buys);
    NoSellsFromSamePrice(cfg, p, m, after);
    NoBuysFromSamePrice(cfg, p, m, after);
  }

  /** Over a whole run: every cycle starts from the price of the first, and every cycle
      after the first places nothing. */
  lemma {:induction false} RunPlacesOnce(cfg: OrdersConfig, history: seq<HistoryAnswer>, run: seq<Market>, i: nat)
    requires SpreadConfig(cfg) && IsRun(cfg, history, run) && i < |run|
    requires Healthy(cfg, run[0]) && OwnOrdersOnBook(run[0])
    requires KeepsStart(cfg, run[0], Start(cfg, history[0], run[0]))
    ensures Start(cfg, history[i], run[i]) == Start(cfg, history[0], run[0])
    ensures i > 0 ==> NewSells(cfg, history[i], run[i]) == [] && NewBuys(cfg, history[i], run[i]) == []
  {
    if i == 1 {
      SecondCycleIsDone(cfg, history[0], history[1], run[0], run[1], Start(cfg, history[0], run[0]));
    } else if i > 1 {
      RunPlacesOnce(cfg, history, run, i - 1);
      RunStaysHealthy(cfg, history, run, i - 1);
      StandsStill(cfg, history[i - 1], history[i], run[i - 1], run[i], Start(cfg, history[i - 1], run[i - 1]));
    }
  }
}
