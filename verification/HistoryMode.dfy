/** Without spread mode the ladders start at the last traded price when it lies between the
    best prices. New orders can then cross the book; here is exactly when. */
module HistoryMode {
  import opened Decimals
  import opened Options
  import opened GridTruncation
  import opened Orders
  import opened StartPrice
  import opened Ladder
  import opened OrderFiller
  import opened SpreadMode
  import opened FixedPoint

  predicate HistoryConfig(cfg: OrdersConfig) {
    cfg.Valid() && cfg.spreadSteps <= 0 && cfg.step % MICRO == 0
  }

  /** The last trade decides the start price: it is known, positive and between the best
      prices, an empty side counting as zero. */
  predicate UsesLastTrade(history: HistoryAnswer, m: Market) {
    history.LastTrade? && history.order.price > 0 && Best(m.buys) <= history.order.price <= Best(m.sells)
  }

  /** The last trade was a buy in the grid cell of the best buy, or a sell in that of the
      best sell. */
  predicate TradedAtOwnBest(cfg: OrdersConfig, history: HistoryAnswer, m: Market)
    requires cfg.step > 0
  {
    && UsesLastTrade(history, m)
    && var price := TruncateToStep(history.order.price, cfg.step);
       if history.order.orderType.Sell? then price == Best(m.sells) else m.buys != [] && price == Best(m.buys)
  }

  /** All new sells are above the best buy and all new buys below the best sell. */
  predicate NoCrossing(cfg: OrdersConfig, history: HistoryAnswer, m: Market)
    requires cfg.step > 0
  {
    && (forall i :: 0 <= i < |NewSells(cfg, history, m)| ==> NewSells(cfg, history, m)[i] > Best(m.buys))
    && (m.sells != [] ==> forall j :: 0 <= j < |NewBuys(cfg, history, m)| ==> NewBuys(cfg, history, m)[j] < Best(m.sells))
  }

  /** A start price that keeps clear of the book on both sides. */
  lemma ClearStart(cfg: OrdersConfig, history: HistoryAnswer, m: Market)
    requires cfg.Valid() && SortedSide(Buy, m.buys) && SortedSide(Sell, m.sells)
    requires m.buys != [] ==> Start(cfg, history, m) > Best(m.buys)
    requires m.sells != [] ==> Start(cfg, history, m) <= Best(m.sells) + cfg.step - 1
    ensures NoCrossing(cfg, history, m)
  {
    MulMonotone(0, cfg.step, cfg.SideSteps());
    forall i | 0 <= i < |NewSells(cfg, history, m)|
      ensures NewSells(cfg, history, m)[i] > Best(m.buys)
    {
      NewSellBounds(cfg, history, m, i);
    }
    forall j | 0 <= j < |NewBuys(cfg, history, m)| && m.sells != []
      ensures NewBuys(cfg, history, m)[j] < Best(m.sells)
    {
      NewBuyBounds(cfg, history, m, j);
    }
  }

  /** Otherwise the start comes from the spread, as in spread mode. */
  lemma FallbackIsClear(cfg: OrdersConfig, history: HistoryAnswer, m: Market)
    requires HistoryConfig(cfg) && Healthy(cfg, m) && !UsesLastTrade(history, m)
    ensures NoCrossing(cfg, history, m)
  {
    BestAligned(Buy, m.buys, Unit(cfg.step));
    BestAligned(Sell, m.sells, Unit(cfg.step));
    if m.buys != [] || m.sells != [] {
      AlignedStart(Best(m.buys), Best(m.sells), cfg.startPrice, cfg.step);
    }
    ClearStart(cfg, history, m);
  }

  /** The raw start price after a trade at the given price. */
  lemma RawFromLastTrade(cfg: OrdersConfig, last: HistoryOrder, bb: Dec, ss: Dec)
    requires cfg.step > 0 && cfg.spreadSteps <= 0 && last.price > 0 && bb <= last.price <= ss
    ensures GetStartPrice(cfg, Some(last), bb, ss) == last.price + if last.orderType.Sell? then cfg.step else 0
  {
  }

  /** With the last trade, the start is its truncated price, one step up after a sell. */
  lemma StartFromLastTrade(cfg: OrdersConfig, history: HistoryAnswer, m: Market)
    requires HistoryConfig(cfg) && UsesLastTrade(history, m)
    ensures Start(cfg, history, m)
         == TruncateToStep(history.order.price, cfg.step) + if history.order.orderType.Sell? then cfg.step else 0
  {
    RawFromLastTrade(cfg, history.order, Best(m.buys), Best(m.sells));
    TruncateCommutesWithSteps(history.order.price, cfg.step, 1);
  }

  /** Truncation does not lead out of the spread. */
  lemma TruncatedTrade(cfg: OrdersConfig, history: HistoryAnswer, m: Market)
    requires HistoryConfig(cfg) && Healthy(cfg, m) && UsesLastTrade(history, m)
    ensures Best(m.buys) <= TruncateToStep(history.order.price, cfg.step) <= Best(m.sells)
  {
    BestAligned(Buy, m.buys, Unit(cfg.step));
    TruncateIsGreatest(history.order.price, cfg.step, Best(m.buys));
  }

  /** No price at or beyond the best of the other side is on a side's own book. */
  lemma NotOnOwnSide(side: OrderType, book: seq<AggregatedOrder>, p: Dec)
    requires SortedSide(side, book) && (book != [] ==> Before(side, p, Best(book)))
    ensures p !in Prices(book)
  {
    if book != [] {
      BestIsNearest(side, book);
    } else {
      assert Prices(book) == {};
    }
  }

  /** Without spread steps, a positive start price that is not on the side is placed first. */
  lemma StartIsPlaced(cfg: OrdersConfig, side: OrderType, book: seq<AggregatedOrder>, owned: set<Dec>, start: Dec)
    requires cfg.Valid() && cfg.spreadSteps <= 0 && SortedSide(side, book) && owned <= Prices(book)
    requires start > 0 && (book != [] ==> Before(side, start, Best(book)))
    ensures start in PlacedPrices(LadderOf(cfg, side, book, owned, start).rungs)
  {
    assert FirstRung(cfg, side, start) == start;
    NotOnOwnSide(side, book, start);
    FirstRungTaken(side, book, owned, cfg.step, start, Needed(cfg, side));
  }

  /** A start price one step above the best sell puts the first buy on the best sell. */
  lemma BuyAtBestSell(cfg: OrdersConfig, history: HistoryAnswer, m: Market)
    requires HistoryConfig(cfg) && SortedSide(Buy, m.buys) && OwnOrdersOnBook(m)
    requires Best(m.sells) > 0 && (m.buys != [] ==> Best(m.buys) < Best(m.sells))
    requires Start(cfg, history, m) == Best(m.sells) + cfg.step
    ensures Best(m.sells) in NewBuys(cfg, history, m)
  {
    StartIsPlaced(cfg, Buy, m.buys, m.myBuys, Best(m.sells));
  }

  /** A start price at the best buy puts the first sell there. */
  lemma SellAtBestBuy(cfg: OrdersConfig, history: HistoryAnswer, m: Market)
    requires HistoryConfig(cfg) && SortedSide(Sell, m.sells) && OwnOrdersOnBook(m)
    requires Best(m.buys) > 0 && (m.sells != [] ==> Best(m.buys) < Best(m.sells))
    requires Start(cfg, history, m) == Best(m.buys)
    ensures Best(m.buys) in NewSells(cfg, history, m)
  {
    StartIsPlaced(cfg, Sell, m.sells, m.mySells, Best(m.buys));
  }

  /** After a trade at its own side's best, an order of the other side is placed right there:
      a sell at the best buy, or a buy at the best sell. */
  lemma CrossesAtOwnBest(cfg: OrdersConfig, history: HistoryAnswer, m: Market)
    requires HistoryConfig(cfg) && Healthy(cfg, m) && OwnOrdersOnBook(m) && TradedAtOwnBest(cfg, history, m)
    ensures if history.order.orderType.Sell? then m.sells != [] && Best(m.sells) in NewBuys(cfg, history, m)
            else m.buys != [] && Best(m.buys) in NewSells(cfg, history, m)
  {
    PositiveBooks(cfg, m);
    StartFromLastTrade(cfg, history, m);
    if history.order.orderType.Sell? {
      BuyAtBestSell(cfg, history, m);
    } else {
      SellAtBestBuy(cfg, history, m);
    }
  }

  /** No crossing without spread mode, for every answer of the history and every healthy
      book, empty or one-sided books included: new orders keep clear of the other side
      exactly when the last trade was not at the best price of its own side. */
  lemma HistoryModeCrossing(cfg: OrdersConfig, history: HistoryAnswer, m: Market)
    requires HistoryConfig(cfg) && Healthy(cfg, m) && OwnOrdersOnBook(m)
    ensures NoCrossing(cfg, history, m) <==> !TradedAtOwnBest(cfg, history, m)
  {
    if !UsesLastTrade(history, m) {
      FallbackIsClear(cfg, history, m);
    } else if TradedAtOwnBest(cfg, history, m) {
      CrossesAtOwnBest(cfg, history, m);
    } else {
      TruncatedTrade(cfg, history, m);
      StartFromLastTrade(cfg, history, m);
      ClearStart(cfg, history, m);
    }
  }
}
