/** What one run of the filler does, in terms of the configuration, the answers and the
    submitted batches alone: when it holds back, where its first orders stand, what it
    cancels. */
module FillerOutcome {
  import opened Decimals
  import opened Options
  import opened PriceText
  import opened GridTruncation
  import opened Orders
  import opened CancelSelection
  import opened StartPrice
  import opened Ladder
  import opened OrderFiller
  import opened SpreadMode
  import opened FixedPoint

  /** The queries before the hold-back decision answered. */
  predicate Begun(ans: Answers) {
    ans.balancesOk && ans.ownOrders.Some?
  }

  // ----- holding back -----

  /** A run fills nothing, and does not fail, when the last trade is unknown, or when one
      of its parties was somebody else and the hold-back has not passed. */
  lemma HoldsBack(cfg: OrdersConfig, address: string, ans: Answers, t: Trace, err: Option<Error>)
    requires cfg.Valid() && CycleSubmits(cfg, address, ans, t, err) && Begun(ans)
    requires match ans.holdHistory
             case HistoryFailed => true
             case NoTrades => false
             case LastTrade(o) => (o.maker != address || o.taker != address) && ans.now - o.executedAt <= cfg.holdBackSeconds
    ensures t.sells == [] && t.buys == [] && err == None
  {
  }

  /** One batch that places orders at these prices, in this order, or none. */
  predicate Places(cfg: OrdersConfig, side: OrderType, prices: seq<Dec>, part: seq<Submission>) {
    if prices == [] then part == []
    else
      && |part| == 1 && part[0].Creates? && |part[0].creates| == |prices|
      && forall k :: 0 <= k < |prices| ==>
           var msg := part[0].creates[k];
           && msg.orderType == side && Parse(msg.price) == Some(prices[k])
           && cfg.minAmount <= msg.amount && (msg.amount < cfg.maxAmount || msg.amount == cfg.minAmount == cfg.maxAmount)
  }

  lemma PlacedPricesAreSent(cfg: OrdersConfig, side: OrderType, l: Ladder, part: seq<Submission>, ok: bool)
    requires cfg.minAmount <= cfg.maxAmount && l.ending != Mismatch && SideSubmits(cfg, side, l, part, ok)
    ensures Places(cfg, side, PlacedPrices(l.rungs), part) && (ok <==> part == [] || part[0].accepted)
  {
    var placed := PlacedPrices(l.rungs);
    forall k | 0 <= k < |placed|
      ensures var msg := part[0].creates[k];
              msg.orderType == side && Parse(msg.price) == Some(placed[k])
    {
      assert PlacesRung(cfg, side, placed[k], part[0].creates[k]);
      TextRoundTrip(placed[k]);
    }
  }

  /** In every other case the run fills: it places the ladders of both sides, the buys only
      after the sells were accepted. It fails exactly when a batch is refused, or an order of
      the other type is met. */
  lemma FillsOtherwise(cfg: OrdersConfig, address: string, ans: Answers, t: Trace, err: Option<Error>, m: Market)
    requires cfg.Valid() && cfg.minAmount <= cfg.maxAmount && CycleSubmits(cfg, address, ans, t, err) && Begun(ans)
    requires match ans.holdHistory
             case HistoryFailed => false
             case NoTrades => true
             case LastTrade(o) => (o.maker == address && o.taker == address) || ans.now - o.executedAt > cfg.holdBackSeconds
    requires ans.activeOrders == Some((m.buys, m.sells))
    requires m.myBuys == OwnPrices(ans.ownOrders.value.0) && m.mySells == OwnPrices(ans.ownOrders.value.1)
    ensures var p := Start(cfg, ans.startHistory, m);
            if SellLadder(cfg, m.sells, m.mySells, p).ending == Mismatch then t.sells == [] && t.buys == [] && err == Some(SellsFailed)
            else
              && Places(cfg, Sell, NewSells(cfg, ans.startHistory, m), t.sells)
              && if t.sells != [] && !t.sells[0].accepted then t.buys == [] && err == Some(SellsFailed)
                 else if BuyLadder(cfg, m.buys, m.myBuys, p).ending == Mismatch then t.buys == [] && err == Some(BuysFailed)
                 else
                   && Places(cfg, Buy, NewBuys(cfg, ans.startHistory, m), t.buys)
                   && err == if t.buys != [] && !t.buys[0].accepted then Some(BuysFailed) else None
  {
    var p := Start(cfg, ans.startHistory, m);
    var sells, buys := SellLadder(cfg, m.sells, m.mySells, p), BuyLadder(cfg, m.buys, m.myBuys, p);
    if sells.ending != Mismatch {
      PlacedPricesAreSent(cfg, Sell, sells, t.sells, err != Some(SellsFailed));
      if err != Some(SellsFailed) && buys.ending != Mismatch {
        PlacedPricesAreSent(cfg, Buy, buys, t.buys, err.None?);
      }
    }
  }

  /** On sorted books no other type is ever met. */
  lemma SortedNeverMismatches(cfg: OrdersConfig, side: OrderType, book: seq<AggregatedOrder>, owned: set<Dec>, start: Dec)
    requires cfg.Valid() && SortedSide(side, book)
    ensures LadderOf(cfg, side, book, owned, start).ending != Mismatch
  {
    ClimbAccounting(side, book, owned, cfg.step, FirstRung(cfg, side, start), Needed(cfg, side));
  }

  // ----- where the first orders stand -----

  lemma FirstFreeRungIsPlaced(side: OrderType, book: seq<AggregatedOrder>, owned: set<Dec>, step: Dec, f: Dec, needed: int)
    requires SortedSide(side, book) && step > 0 && needed > 0 && f > 0 && f !in owned && f !in Prices(book)
    ensures var placed := PlacedPrices(Climb(side, book, owned, step, f, needed).rungs);
            placed != [] && placed[0] == f
  {
    ScanIsMembership(side, book, f);
    ClimbUnfolds(side, book, owned, step, needed, Rung(f, Placed));
  }

  lemma FirstOnSide(cfg: OrdersConfig, side: OrderType, book: seq<AggregatedOrder>, owned: set<Dec>, start: Dec, h: nat, f: Dec)
    requires cfg.Valid() && SortedSide(side, book)
    requires h == (if cfg.spreadSteps > 0 then cfg.spreadSteps / 2 else 0) && f == Move(side, start, h * cfg.step)
    requires f > 0 && f !in owned && f !in Prices(book)
    ensures var placed := PlacedPrices(LadderOf(cfg, side, book, owned, start).rungs);
            placed != [] && placed[0] == f
  {
    assert h * cfg.step == cfg.step * h;
    FirstFreeRungIsPlaced(side, book, owned, cfg.step, f, Needed(cfg, side));
  }

  /** The first new sell stands half of the configured spread above the start price, in whole
      steps rounded down, whenever that place is free. */
  lemma FirstSell(cfg: OrdersConfig, history: HistoryAnswer, m: Market, f: Dec)
    requires cfg.Valid() && SortedSide(Sell, m.sells)
    requires f == Start(cfg, history, m) + (if cfg.spreadSteps > 0 then cfg.spreadSteps / 2 else 0) * cfg.step
    requires f > 0 && f !in m.mySells && f !in Prices(m.sells)
    ensures NewSells(cfg, history, m) != [] && NewSells(cfg, history, m)[0] == f
  {
    FirstOnSide(cfg, Sell, m.sells, m.mySells, Start(cfg, history, m), if cfg.spreadSteps > 0 then cfg.spreadSteps / 2 else 0, f);
  }

  /** The first new buy stands one step, and as many more, below it. */
  lemma FirstBuy(cfg: OrdersConfig, history: HistoryAnswer, m: Market, f: Dec)
    requires cfg.Valid() && SortedSide(Buy, m.buys)
    requires f == Start(cfg, history, m) - cfg.step - (if cfg.spreadSteps > 0 then cfg.spreadSteps / 2 else 0) * cfg.step
    requires f > 0 && f !in m.myBuys && f !in Prices(m.buys)
    ensures NewBuys(cfg, history, m) != [] && NewBuys(cfg, history, m)[0] == f
  {
    FirstOnSide(cfg, Buy, m.buys, m.myBuys, Start(cfg, history, m) - cfg.step,
                if cfg.spreadSteps > 0 then cfg.spreadSteps / 2 else 0, f);
  }

  /** When both first places are free, the nearest new orders are exactly the configured
      steps apart: an odd number, one more than the even part of the setting. */
  lemma NearestNewOrders(cfg: OrdersConfig, history: HistoryAnswer, m: Market, sell: Dec, buy: Dec)
    requires cfg.Valid() && cfg.spreadSteps > 0 && SortedSide(Sell, m.sells) && SortedSide(Buy, m.buys)
    requires sell == Start(cfg, history, m) + (cfg.spreadSteps / 2) * cfg.step
    requires buy == Start(cfg, history, m) - cfg.step - (cfg.spreadSteps / 2) * cfg.step
    requires sell > 0 && sell !in m.mySells && sell !in Prices(m.sells)
    requires buy > 0 && buy !in m.myBuys && buy !in Prices(m.buys)
    ensures var sells, buys := NewSells(cfg, history, m), NewBuys(cfg, history, m);
            sells != [] && buys != [] && sells[0] - buys[0] == (2 * (cfg.spreadSteps / 2) + 1) * cfg.step
  {
    FirstSell(cfg, history, m, sell);
    FirstBuy(cfg, history, m, buy);
    Apart(Start(cfg, history, m), cfg.spreadSteps / 2, cfg.step, sell, buy);
  }

  lemma Apart(p: int, h: int, step: int, sell: int, buy: int)
    requires sell == p + h * step && buy == p - step - h * step
    ensures sell - buy == (2 * h + 1) * step
  {
  }

  lemma OnStepsOfSide(cfg: OrdersConfig, side: OrderType, book: seq<AggregatedOrder>, owned: set<Dec>, start: Dec, h: nat, q: Dec)
    returns (k: nat)
    requires cfg.Valid() && SortedSide(side, book)
    requires h == if cfg.spreadSteps > 0 then cfg.spreadSteps / 2 else 0
    requires q in PlacedPrices(LadderOf(cfg, side, book, owned, start).rungs)
    ensures q == Move(side, start, (h + k) * cfg.step)
  {
    k := RungOf(side, book, owned, cfg.step, FirstRung(cfg, side, start), Needed(cfg, side), q);
    assert (h + k) * cfg.step == cfg.step * h + k * cfg.step;
  }

  /** Every new order stands whole steps away from the first place of its side. */
  lemma NewSellsOnSteps(cfg: OrdersConfig, history: HistoryAnswer, m: Market, q: Dec) returns (k: nat)
    requires cfg.Valid() && SortedSide(Sell, m.sells) && q in NewSells(cfg, history, m)
    ensures q == Start(cfg, history, m) + ((if cfg.spreadSteps > 0 then cfg.spreadSteps / 2 else 0) + k) * cfg.step
  {
    k := OnStepsOfSide(cfg, Sell, m.sells, m.mySells, Start(cfg, history, m), if cfg.spreadSteps > 0 then cfg.spreadSteps / 2 else 0, q);
  }

  lemma NewBuysOnSteps(cfg: OrdersConfig, history: HistoryAnswer, m: Market, q: Dec) returns (k: nat)
    requires cfg.Valid() && SortedSide(Buy, m.buys) && q in NewBuys(cfg, history, m)
    ensures q == Start(cfg, history, m) - cfg.step - ((if cfg.spreadSteps > 0 then cfg.spreadSteps / 2 else 0) + k) * cfg.step
  {
    k := OnStepsOfSide(cfg, Buy, m.buys, m.myBuys, Start(cfg, history, m) - cfg.step,
                       if cfg.spreadSteps > 0 then cfg.spreadSteps / 2 else 0, q);
  }

  lemma RungOf(side: OrderType, book: seq<AggregatedOrder>, owned: set<Dec>, step: Dec, f: Dec, needed: int, q: Dec) returns (i: nat)
    requires SortedSide(side, book) && step > 0
    requires q in PlacedPrices(Climb(side, book, owned, step, f, needed).rungs)
    ensures q == Move(side, f, i * step)
  {
    var rungs := Climb(side, book, owned, step, f, needed).rungs;
    PlacedAre(rungs, q);
    i :| 0 <= i < |rungs| && rungs[i] == Rung(q, Placed);
    ClimbCoverage(side, book, owned, step, f, needed, i);
  }

  // ----- where the start price is -----

  /** Without spread mode, a last trade that is unknown, not positive or outside the best
      prices leaves the start price to the spread, as in spread mode. */
  lemma StartWithoutTrade(cfg: OrdersConfig, history: HistoryAnswer, m: Market, spread: int)
    requires cfg.step > 0 && spread > 0
    requires history.LastTrade? ==> cfg.spreadSteps > 0 || history.order.price <= 0
                                    || history.order.price < Best(m.buys) || history.order.price > Best(m.sells)
    ensures Start(cfg, history, m) == Start(cfg.(spreadSteps := spread), HistoryFailed, m)
  {
  }

  lemma MiddleOfGap(bb: Dec, ss: Dec, configured: Dec, step: Dec, u: int)
    requires step > 0 && 0 < bb < ss && u > 0 && bb % u == 0 && ss % u == 0 && step % u == 0 && 3 * step <= 2 * u * ONE
    ensures GetStartPriceFromSpread(bb, ss, configured, step) == ss - (ss - bb) / (2 * step) * step
  {
    SumOfMultiples(ss, bb, u);
    NoRoundingUp(ss - bb, step, u);
    StartExactly(bb, ss, configured, step);
  }

  /** On a healthy book with both sides, in spread mode: half of the gap in whole steps
      below the best sell. */
  lemma StartInTheMiddle(cfg: OrdersConfig, history: HistoryAnswer, m: Market, bb: Dec, ss: Dec)
    requires SpreadConfig(cfg) && Healthy(cfg, m) && m.buys != [] && m.sells != []
    requires bb == Best(m.buys) && ss == Best(m.sells)
    requires 3 * cfg.step <= 2 * Unit(cfg.step) * ONE
    ensures bb < ss && Start(cfg, history, m) == ss - (ss - bb) / (2 * cfg.step) * cfg.step
  {
    PositiveBooks(cfg, m);
    StartInSpread(cfg, history, m);
    StepOnGridIff(cfg.step);
    MiddleOfGap(bb, ss, cfg.startPrice, cfg.step, Unit(cfg.step));
  }

  /** With an empty side: the best price of the other one, one step up from the buys; with
      both empty the configured price, cut to the grid. */
  lemma StartOnOpenBook(cfg: OrdersConfig, history: HistoryAnswer, m: Market)
    requires SpreadConfig(cfg) && Healthy(cfg, m) && (m.buys == [] || m.sells == [])
    ensures var p := Start(cfg, history, m);
            if m.sells != [] then p == Best(m.sells)
            else if m.buys != [] then p == Best(m.buys) + cfg.step
            else p % Unit(cfg.step) == 0 && p <= cfg.startPrice < p + Unit(cfg.step)
  {
    PositiveBooks(cfg, m);
    SpreadStart(cfg, history, m);
    if m.buys != [] || m.sells != [] {
      StartInSpread(cfg, history, m);
    } else {
      TruncateIsGreatest(cfg.startPrice, cfg.step, 0);
    }
  }

  // ----- cancelling -----

  /** One side cut down to a number of orders: what is kept and what is cancelled make up the
      side, the kept ones are at least as close to the spread, and one batch cancels the
      others, each by market, id and type. */
  ghost predicate CutTo(orders: seq<Order>, side: OrderType, keep: nat, part: seq<Submission>) {
    exists kept: seq<Order>, gone: seq<Order> :: CutInto(orders, side, keep, part, kept, gone)
  }

  predicate CutInto(orders: seq<Order>, side: OrderType, keep: nat, part: seq<Submission>, kept: seq<Order>, gone: seq<Order>) {
    && multiset(gone) + multiset(kept) == multiset(orders)
    && |kept| == (if |orders| > keep then keep else |orders|)
    && (forall k, g :: k in kept && g in gone ==>
          if side == Buy then PriceOf(k.price) >= PriceOf(g.price) else PriceOf(k.price) <= PriceOf(g.price))
    && CancelsThese(gone, part)
  }

  predicate CancelsThese(gone: seq<Order>, part: seq<Submission>) {
    if gone == [] then part == []
    else
      && |part| == 1 && part[0].Cancels? && |part[0].cancels| == |gone|
      && forall i :: 0 <= i < |gone| ==> part[0].cancels[i] == CancelMsg(gone[i].marketId, gone[i].id, gone[i].orderType)
  }

  lemma CutsTo(orders: seq<Order>, side: OrderType, keep: nat, part: seq<Submission>)
    requires SideCancels(orders, side, keep, part)
    ensures CutTo(orders, side, keep, part)
  {
    var kept, gone := Kept(orders, side, keep), Cancelled(orders, side, keep);
    CancelPartitions(orders, side, keep);
    forall k, g | k in kept && g in gone
      ensures if side == Buy then PriceOf(k.price) >= PriceOf(g.price) else PriceOf(k.price) <= PriceOf(g.price)
    {
      SurvivorsAreCloser(orders, side, keep, g, k);
    }
    assert CutInto(orders, side, keep, part, kept, gone);
  }

  lemma CutsBothSides(cfg: OrdersConfig, buys: seq<Order>, sells: seq<Order>, buyPart: seq<Submission>, sellPart: seq<Submission>)
    requires cfg.Valid() && CancelSubmits(cfg, buys, sells, buyPart, sellPart)
    ensures CutTo(buys, Buy, cfg.buyNo, buyPart)
    ensures if buyPart != [] && !buyPart[0].accepted then sellPart == [] else CutTo(sells, Sell, cfg.sellNo, sellPart)
  {
    CutsTo(buys, Buy, cfg.buyNo, buyPart);
    FirstDecides(buys, Buy, cfg.buyNo, buyPart);
    if Accepted(buyPart) {
      CutsTo(sells, Sell, cfg.sellNo, sellPart);
    }
  }

  lemma FirstDecides(orders: seq<Order>, side: OrderType, keep: nat, part: seq<Submission>)
    requires SideCancels(orders, side, keep, part)
    ensures Accepted(part) <==> part == [] || part[0].accepted
  {
    assert part != [] ==> part == [part[0]];
  }

  lemma RunCancels(cfg: OrdersConfig, address: string, ans: Answers, t: Trace, err: Option<Error>)
    requires cfg.Valid() && CycleSubmits(cfg, address, ans, t, err) && Begun(ans)
    ensures CycleCancels(cfg, ans, t.buyCancels, t.sellCancels)
  {
  }

  predicate FewOrders(cfg: OrdersConfig, ans: Answers)
    requires ans.ownOrders.Some?
  {
    |ans.ownOrders.value.0| + |ans.ownOrders.value.1| <= cfg.buyNo + cfg.sellNo + 5
  }

  /** What a run cancels: nothing while the wallet has at most five orders more than both
      counts together; else each side is cut down to its own count, the sells only if the
      cancelled buys were accepted. */
  lemma CancelsExactly(cfg: OrdersConfig, address: string, ans: Answers, t: Trace, err: Option<Error>)
    requires cfg.Valid() && CycleSubmits(cfg, address, ans, t, err) && Begun(ans)
    ensures if FewOrders(cfg, ans) then t.buyCancels == [] && t.sellCancels == []
            else
              && CutTo(ans.ownOrders.value.0, Buy, cfg.buyNo, t.buyCancels)
              && if t.buyCancels != [] && !t.buyCancels[0].accepted then t.sellCancels == []
                 else CutTo(ans.ownOrders.value.1, Sell, cfg.sellNo, t.sellCancels)
  {
    RunCancels(cfg, address, ans, t, err);
    if !FewOrders(cfg, ans) {
      CutsBothSides(cfg, ans.ownOrders.value.0, ans.ownOrders.value.1, t.buyCancels, t.sellCancels);
    }
  }
}
