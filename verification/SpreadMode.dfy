/** Spread mode: the new orders never cross the book, and the book they produce leads the
    next cycle back to the same start price and to nothing new to place. */
module SpreadMode {
  import opened Decimals
  import opened GridTruncation
  import opened Orders
  import opened StartPrice
  import opened Ladder
  import opened OrderFiller

  /** The two sides of the book and the wallet's own prices in it. */
  datatype Market = Market(buys: seq<AggregatedOrder>, sells: seq<AggregatedOrder>, myBuys: set<Dec>, mySells: set<Dec>)

  predicate SpreadConfig(cfg: OrdersConfig) {
    cfg.Valid() && cfg.spreadSteps > 0 && cfg.step % MICRO == 0
  }

  predicate AlignedSide(side: OrderType, book: seq<AggregatedOrder>, unit: int)
    requires unit > 0
  {
    && SortedSide(side, book)
    && forall p :: p in Prices(book) ==> p > 0 && p % unit == 0
  }

  /** Sorted, on the grid of the step's decimals, and uncrossed; a side may be empty. */
  predicate Healthy(cfg: OrdersConfig, m: Market)
    requires cfg.step > 0
  {
    && AlignedSide(Buy, m.buys, Unit(cfg.step))
    && AlignedSide(Sell, m.sells, Unit(cfg.step))
    && (m.buys != [] && m.sells != [] ==> Best(m.buys) < Best(m.sells))
  }

  function Start(cfg: OrdersConfig, history: HistoryAnswer, m: Market): Dec
    requires cfg.step > 0
  {
    StartPriceOf(cfg, history, m.buys, m.sells)
  }

  /** The sells and buys that a cycle places when it starts from price p. */
  function SellsFrom(cfg: OrdersConfig, m: Market, p: Dec): seq<Dec>
    requires cfg.step > 0
  {
    PlacedPrices(SellLadder(cfg, m.sells, m.mySells, p).rungs)
  }

  function BuysFrom(cfg: OrdersConfig, m: Market, p: Dec): seq<Dec>
    requires cfg.step > 0
  {
    PlacedPrices(BuyLadder(cfg, m.buys, m.myBuys, p).rungs)
  }

  function NewSells(cfg: OrdersConfig, history: HistoryAnswer, m: Market): seq<Dec>
    requires cfg.step > 0
  {
    SellsFrom(cfg, m, Start(cfg, history, m))
  }

  function NewBuys(cfg: OrdersConfig, history: HistoryAnswer, m: Market): seq<Dec>
    requires cfg.step > 0
  {
    BuysFrom(cfg, m, Start(cfg, history, m))
  }

  lemma BestIsNearest(side: OrderType, book: seq<AggregatedOrder>)
    requires SortedSide(side, book) && book != []
    ensures Best(book) in Prices(book)
    ensures forall q :: q in Prices(book) ==> !Before(side, q, Best(book))
  {
    InPrices(book, Best(book));
    forall q | q in Prices(book)
      ensures !Before(side, q, Best(book))
    {
      InPrices(book, q);
      var i :| 0 <= i < |book| && PriceAt(book, i) == q;
      assert i > 0 ==> !Before(side, PriceAt(book, i), PriceAt(book, 0));
    }
  }

  lemma BestAligned(side: OrderType, book: seq<AggregatedOrder>, unit: int)
    requires unit > 0 && AlignedSide(side, book, unit)
    ensures Best(book) >= 0 && Best(book) % unit == 0 && (Best(book) > 0 <==> book != [])
  {
    if book != [] {
      BestIsNearest(side, book);
    }
  }

  /** The start price of a healthy book with at least one order: above the best buy, not
      above the best sell, on the grid. */
  lemma StartInSpread(cfg: OrdersConfig, history: HistoryAnswer, m: Market)
    requires SpreadConfig(cfg) && Healthy(cfg, m) && (m.buys != [] || m.sells != [])
    ensures Start(cfg, history, m) == GetStartPriceFromSpread(Best(m.buys), Best(m.sells), cfg.startPrice, cfg.step)
    ensures Best(m.buys) < Start(cfg, history, m) && (m.sells != [] ==> Start(cfg, history, m) <= Best(m.sells))
    ensures Start(cfg, history, m) % Unit(cfg.step) == 0
  {
    BestAligned(Buy, m.buys, Unit(cfg.step));
    BestAligned(Sell, m.sells, Unit(cfg.step));
    AlignedStart(Best(m.buys), Best(m.sells), cfg.startPrice, cfg.step);
  }

  lemma NewSellBounds(cfg: OrdersConfig, history: HistoryAnswer, m: Market, i: nat)
    requires cfg.Valid() && SortedSide(Sell, m.sells) && i < |NewSells(cfg, history, m)|
    ensures NewSells(cfg, history, m)[i] > 0
    ensures NewSells(cfg, history, m)[i] >= Start(cfg, history, m) + cfg.step * cfg.SideSteps()
  {
    PlacedOrders(Sell, m.sells, m.mySells, cfg.step, FirstRung(cfg, Sell, Start(cfg, history, m)), cfg.sellNo, i);
  }

  lemma NewBuyBounds(cfg: OrdersConfig, history: HistoryAnswer, m: Market, j: nat)
    requires cfg.Valid() && SortedSide(Buy, m.buys) && j < |NewBuys(cfg, history, m)|
    ensures NewBuys(cfg, history, m)[j] > 0
    ensures NewBuys(cfg, history, m)[j] <= Start(cfg, history, m) - cfg.step - cfg.step * cfg.SideSteps()
  {
    PlacedOrders(Buy, m.buys, m.myBuys, cfg.step, FirstRung(cfg, Buy, Start(cfg, history, m) - cfg.step), cfg.buyNo, j);
  }

  lemma EmptySpread(p: int, step: int, h: nat, s: int, b: int)
    requires step > 0 && s >= p + step * h && b <= p - step - step * h
    ensures s - b >= (2 * h + 1) * step && s >= p && b < p
  {
    MulMonotone(0, h, step);
    assert (2 * h + 1) * step == 2 * (step * h) + step;
  }

  /** No crossing: every new sell stands above the best buy. */
  lemma NewSellsDoNotCross(cfg: OrdersConfig, history: HistoryAnswer, m: Market, i: nat)
    requires SpreadConfig(cfg) && Healthy(cfg, m) && i < |NewSells(cfg, history, m)|
    ensures NewSells(cfg, history, m)[i] > Best(m.buys)
  {
    NewSellBounds(cfg, history, m, i);
    if m.buys != [] {
      StartInSpread(cfg, history, m);
      MulMonotone(0, cfg.step, cfg.SideSteps());
    }
  }

  /** No crossing: every new buy stands below the best sell. */
  lemma NewBuysDoNotCross(cfg: OrdersConfig, history: HistoryAnswer, m: Market, j: nat)
    requires SpreadConfig(cfg) && Healthy(cfg, m) && m.sells != [] && j < |NewBuys(cfg, history, m)|
    ensures NewBuys(cfg, history, m)[j] < Best(m.sells)
  {
    NewBuyBounds(cfg, history, m, j);
    StartInSpread(cfg, history, m);
    MulMonotone(0, cfg.step, cfg.SideSteps());
  }

  /** Between any new sell and any new buy the configured spread stays empty. */
  lemma SpreadStaysEmpty(cfg: OrdersConfig, history: HistoryAnswer, m: Market, i: nat, j: nat)
    requires SpreadConfig(cfg) && SortedSide(Buy, m.buys) && SortedSide(Sell, m.sells)
    requires i < |NewSells(cfg, history, m)| && j < |NewBuys(cfg, history, m)|
    ensures NewSells(cfg, history, m)[i] - NewBuys(cfg, history, m)[j] >= (2 * (cfg.spreadSteps / 2) + 1) * cfg.step
  {
    NewSellBounds(cfg, history, m, i);
    NewBuyBounds(cfg, history, m, j);
    EmptySpread(Start(cfg, history, m), cfg.step, cfg.SideSteps(), NewSells(cfg, history, m)[i], NewBuys(cfg, history, m)[j]);
  }
}
