/** One cycle of the order filler: cancel what is too much, pick the start price, lay the
    sell ladder upward and the buy ladder downward, submit. */
module OrderFiller {
  import opened Decimals
  import opened Options
  import opened PriceText
  import opened GridTruncation
  import opened Orders
  import opened CancelSelection
  import opened StartPrice
  import opened Ladder

  const CANCEL_ORDERS_DELTA: int := 5

  datatype Submission = Creates(creates: seq<CreateMsg>, accepted: bool)
                      | Cancels(cancels: seq<CancelMsg>, accepted: bool)

  datatype Error = BalancesFailed | OwnOrdersFailed | ActiveOrdersFailed
                 | SellsFailed | BuysFailed | TypeMismatch | SubmitFailed | CancelFailed

  /** The transaction service as the filler sees it: every batch is accepted or refused. */
  class OrderSubmitter {
    var log: seq<Submission>

    constructor ()
      ensures log == []
    {
      log := [];
    }

    method AddOrders(msgs: seq<CreateMsg>) returns (ok: bool)
      modifies this
      ensures log == old(log) + [Creates(msgs, ok)]
    {
      ok := *;
      log := log + [Creates(msgs, ok)];
    }

    method CancelOrders(msgs: seq<CancelMsg>) returns (ok: bool)
      modifies this
      ensures log == old(log) + [Cancels(msgs, ok)]
    {
      ok := *;
      log := log + [Cancels(msgs, ok)];
    }
  }

  datatype HistoryAnswer = HistoryFailed | NoTrades | LastTrade(order: HistoryOrder)

  /** What the queries of one cycle answer. */
  datatype Answers = Answers(balancesOk: bool,
                             ownOrders: Option<(seq<Order>, seq<Order>)>,
                             holdHistory: HistoryAnswer, now: int,
                             activeOrders: Option<(seq<AggregatedOrder>, seq<AggregatedOrder>)>,
                             startHistory: HistoryAnswer)
  {
    predicate Parses() {
      && (ownOrders.Some? ==> OwnPricesParse(ownOrders.value.0) && OwnPricesParse(ownOrders.value.1))
      && (activeOrders.Some? ==> PricesParse(activeOrders.value.0) && PricesParse(activeOrders.value.1))
    }
  }

  // ----- the specification of a cycle -----

  /** The first rung of a side: half of the configured spread away from the start. */
  function FirstRung(cfg: OrdersConfig, side: OrderType, start: Dec): Dec {
    Move(side, start, MulInt(cfg.step, cfg.SideSteps()))
  }

  function Needed(cfg: OrdersConfig, side: OrderType): int {
    if side.Buy? then cfg.buyNo else cfg.sellNo
  }

  function LadderOf(cfg: OrdersConfig, side: OrderType, book: seq<AggregatedOrder>, owned: set<Dec>, start: Dec): Ladder
    requires cfg.step > 0
  {
    Climb(side, book, owned, cfg.step, FirstRung(cfg, side, start), Needed(cfg, side))
  }

  /** The messages place exactly the ladder's placed rungs, at their canonical texts and
      with amounts in the configured range. */
  predicate PlacesLadder(cfg: OrdersConfig, side: OrderType, placed: seq<Dec>, msgs: seq<CreateMsg>) {
    && |msgs| == |placed|
    && forall k :: 0 <= k < |msgs| ==> PlacesRung(cfg, side, placed[k], msgs[k])
  }

  predicate PlacesRung(cfg: OrdersConfig, side: OrderType, p: Dec, msg: CreateMsg) {
    && msg.orderType == side
    && msg.price == Text(p)
    && cfg.minAmount <= msg.amount <= cfg.maxAmount && (cfg.minAmount < cfg.maxAmount ==> msg.amount < cfg.maxAmount)
  }

  /** What one side submits: nothing, or one batch with the placed rungs. */
  predicate SideSubmits(cfg: OrdersConfig, side: OrderType, l: Ladder, part: seq<Submission>, ok: bool) {
    var placed := PlacedPrices(l.rungs);
    if l.ending == Mismatch then part == [] && !ok
    else if placed == [] then part == [] && ok
    else |part| == 1 && part[0].Creates? && part[0].accepted == ok && PlacesLadder(cfg, side, placed, part[0].creates)
  }

  function StartPriceOf(cfg: OrdersConfig, history: HistoryAnswer, buys: seq<AggregatedOrder>, sells: seq<AggregatedOrder>): Dec
    requires cfg.step > 0
  {
    var last := if history.LastTrade? then Some(history.order) else None;
    TruncateToStep(GetStartPrice(cfg, last, Best(buys), Best(sells)), cfg.step)
  }

  function SellLadder(cfg: OrdersConfig, sells: seq<AggregatedOrder>, mySells: set<Dec>, start: Dec): Ladder
    requires cfg.step > 0
  {
    LadderOf(cfg, Sell, sells, mySells, start)
  }

  /** The buy ladder starts one step lower. */
  function BuyLadder(cfg: OrdersConfig, buys: seq<AggregatedOrder>, myBuys: set<Dec>, start: Dec): Ladder
    requires cfg.step > 0
  {
    LadderOf(cfg, Buy, buys, myBuys, start - cfg.step)
  }

  /** Both sides: the buys only after the sells went through. */
  predicate FillSubmits(cfg: OrdersConfig, sellLadder: Ladder, buyLadder: Ladder,
                        sellPart: seq<Submission>, buyPart: seq<Submission>, err: Option<Error>)
  {
    && SideSubmits(cfg, Sell, sellLadder, sellPart, err != Some(SellsFailed))
    && if err == Some(SellsFailed) then buyPart == []
       else SideSubmits(cfg, Buy, buyLadder, buyPart, err.None?) && err in {None, Some(BuysFailed)}
  }

  /** Hold back while a trade with someone else is recent, or the history is unknown. */
  predicate ShouldFill(cfg: OrdersConfig, address: string, history: HistoryAnswer, now: int) {
    match history
    case HistoryFailed => false
    case NoTrades => true
    case LastTrade(o) => (o.maker == address && o.taker == address) || now - o.executedAt > cfg.holdBackSeconds
  }

  predicate TooMany(cfg: OrdersConfig, buys: seq<Order>, sells: seq<Order>) {
    |buys| + |sells| > cfg.buyNo + cfg.sellNo + CANCEL_ORDERS_DELTA
  }

  predicate SideCancels(orders: seq<Order>, side: OrderType, keep: nat, part: seq<Submission>) {
    var chosen := Cancelled(orders, side, keep);
    if chosen == [] then part == []
    else |part| == 1 && part[0].Cancels? && part[0].cancels == CancelMsgs(chosen)
  }

  predicate Accepted(part: seq<Submission>) {
    forall s :: s in part ==> s.accepted
  }

  /** At most one cancel batch a side, the sells only after the buys went through. */
  predicate CancelSubmits(cfg: OrdersConfig, buys: seq<Order>, sells: seq<Order>,
                          buyPart: seq<Submission>, sellPart: seq<Submission>)
    requires cfg.buyNo >= 0 && cfg.sellNo >= 0
  {
    && SideCancels(buys, Buy, cfg.buyNo, buyPart)
    && if Accepted(buyPart) then SideCancels(sells, Sell, cfg.sellNo, sellPart) else sellPart == []
  }

  /** The batches of one cycle, in the order they are submitted. */
  datatype Trace = Trace(buyCancels: seq<Submission>, sellCancels: seq<Submission>, sells: seq<Submission>, buys: seq<Submission>)

  predicate CycleCancels(cfg: OrdersConfig, ans: Answers, buyPart: seq<Submission>, sellPart: seq<Submission>)
    requires cfg.buyNo >= 0 && cfg.sellNo >= 0
  {
    if ans.ownOrders.Some? && TooMany(cfg, ans.ownOrders.value.0, ans.ownOrders.value.1)
    then CancelSubmits(cfg, ans.ownOrders.value.0, ans.ownOrders.value.1, buyPart, sellPart)
    else buyPart == [] && sellPart == []
  }

  predicate PhaseFills(cfg: OrdersConfig, address: string, ans: Answers, myBuys: set<Dec>, mySells: set<Dec>,
                       sellPart: seq<Submission>, buyPart: seq<Submission>, err: Option<Error>)
    requires cfg.step > 0
  {
    if !ShouldFill(cfg, address, ans.holdHistory, ans.now) then err == None && sellPart == [] && buyPart == []
    else if ans.activeOrders.None? then err == Some(ActiveOrdersFailed) && sellPart == [] && buyPart == []
    else
      var start := StartPriceOf(cfg, ans.startHistory, ans.activeOrders.value.0, ans.activeOrders.value.1);
      FillSubmits(cfg, SellLadder(cfg, ans.activeOrders.value.1, mySells, start),
                  BuyLadder(cfg, ans.activeOrders.value.0, myBuys, start), sellPart, buyPart, err)
  }

  predicate CycleSubmits(cfg: OrdersConfig, address: string, ans: Answers, t: Trace, err: Option<Error>)
    requires cfg.Valid()
  {
    if !ans.balancesOk then err == Some(BalancesFailed) && t == Trace([], [], [], [])
    else if ans.ownOrders.None? then err == Some(OwnOrdersFailed) && t == Trace([], [], [], [])
    else
      && CycleCancels(cfg, ans, t.buyCancels, t.sellCancels)
      && PhaseFills(cfg, address, ans, OwnPrices(ans.ownOrders.value.0), OwnPrices(ans.ownOrders.value.1), t.sells, t.buys, err)
  }

  // ----- the filler -----

  datatype Visit = Pass(kind: Kind) | StopMismatch | StopNonPositive

  class Filler {
    const cfg: OrdersConfig
    const address: string
    const submitter: OrderSubmitter

    constructor (cfg: OrdersConfig, address: string, submitter: OrderSubmitter)
      ensures this.cfg == cfg && this.address == address && this.submitter == submitter
    {
      this.cfg := cfg;
      this.address := address;
      this.submitter := submitter;
    }

    /** Whether a new order belongs at price p: the scan over the book, which stops at the
        price itself, at a price beyond it, or at an order of the other type. */
    method ScanBook(existingOrders: seq<AggregatedOrder>, side: OrderType, p: Dec) returns (outcome: ScanOutcome)
      requires PricesParse(existingOrders)
      ensures outcome == Scan(side, existingOrders, p)
    {
      outcome := Absent;
      var i := 0;
      while i < |existingOrders|
        invariant 0 <= i <= |existingOrders|
        invariant Scan(side, existingOrders, p) == Scan(side, existingOrders[i..], p)
      {
        assert existingOrders[i..][1..] == existingOrders[i + 1..];
        var existing := existingOrders[i];
        if existing.orderType != side {
          return WrongType;
        }
        var existingPrice := PriceOf(existing.price);
        if existingPrice == p {
          return Found;
        }
        if (side == Buy && existingPrice < p) || (side == Sell && existingPrice > p) {
          return Absent;
        }
        i := i + 1;
      }
    }

    /** Whether the wallet already has an order at price p, looked up by canonical text. */
    method IsExcluded(excludedPrices: set<string>, p: Dec, ghost owned: set<Dec>) returns (found: bool)
      requires excludedPrices == Texts(owned)
      ensures found <==> p in owned
    {
      TextsAreNumeric(owned, p);
      found := Text(p) in excludedPrices;
    }

    method NewOrderMsg(side: OrderType, p: Dec) returns (msg: CreateMsg)
      requires cfg.minAmount <= cfg.maxAmount
      ensures PlacesRung(cfg, side, p, msg)
    {
      var source := RandomSource();
      var randAmount := MustRandomInt(cfg.minAmount, cfg.maxAmount, source);
      msg := CreateMsg(side, randAmount, Text(p));
    }

    /** One rung: owned, on the book, or placed with a message; or the reason to stop. */
    method VisitRung(existingOrders: seq<AggregatedOrder>, p: Dec, side: OrderType, excludedPrices: set<string>, ghost owned: set<Dec>)
      returns (visit: Visit, added: seq<CreateMsg>)
      requires cfg.minAmount <= cfg.maxAmount
      requires PricesParse(existingOrders) && excludedPrices == Texts(owned)
      ensures match visit
              case Pass(kind) =>
                && GoodRung(side, existingOrders, owned, Rung(p, kind))
                && PlacesLadder(cfg, side, if kind == Placed then [p] else [], added)
              case StopMismatch => p !in owned && Scan(side, existingOrders, p) == WrongType
              case StopNonPositive => p !in owned && Scan(side, existingOrders, p) != WrongType && p <= 0
    {
      added := [];
      var excluded := IsExcluded(excludedPrices, p, owned);
      if excluded {
        return Pass(Owned), [];
      }
      var scan := ScanBook(existingOrders, side, p);
      if scan == WrongType {
        return StopMismatch, [];
      }
      if p <= 0 {
        return StopNonPositive, [];
      }
      if scan == Found {
        return Pass(OnBook), [];
      }
      var msg := NewOrderMsg(side, p);
      return Pass(Placed), [msg];
    }

    /** The loop over the rungs, for any book: it ends, it reports an order of the other
        type that its scan meets, and else its messages place the ladder. */
    method LayLadder(existingOrders: seq<AggregatedOrder>, firstPrice: Dec, side: OrderType, neededOrders: int,
                     excludedPrices: set<string>, ghost owned: set<Dec>)
      returns (mismatch: bool, newOrdersMsgs: seq<CreateMsg>, ghost passes: nat)
      requires cfg.step > 0 && cfg.minAmount <= cfg.maxAmount
      requires PricesParse(existingOrders) && excludedPrices == Texts(owned)
      ensures passes <= (if neededOrders > 0 then neededOrders else 0) + |existingOrders| + 1
      ensures var l := Climb(side, existingOrders, owned, cfg.step, firstPrice, neededOrders);
              && passes == |l.rungs| + (if l.ending == Filled then 0 else 1)
              && (mismatch <==> l.ending == Mismatch)
              && (!mismatch ==> PlacesLadder(cfg, side, PlacedPrices(l.rungs), newOrdersMsgs))
    {
      ghost var l := Climb(side, existingOrders, owned, cfg.step, firstPrice, neededOrders);
      ghost var rungs: seq<Rung> := [];
      PassesAtMost(side, existingOrders, owned, cfg.step, firstPrice, neededOrders);
      var newStartPrice, needed := firstPrice, neededOrders;
      newOrdersMsgs, passes := [], 0;
      while needed > 0
        invariant passes == |rungs|
        invariant Progress(cfg, side, existingOrders, owned, l, rungs, newOrdersMsgs, newStartPrice, needed)
        decreases PassesLeft(side, existingOrders, newStartPrice, needed)
      {
        passes := passes + 1;
        var visit, added := VisitRung(existingOrders, newStartPrice, side, excludedPrices, owned);
        if visit == StopMismatch {
          return true, [], passes;
        }
        if visit == StopNonPositive {
          break;
        }
        ghost var r := Rung(newStartPrice, visit.kind);
        OnePass(cfg, side, existingOrders, owned, l, rungs, newOrdersMsgs, needed, r, added);
        rungs := rungs + [r];
        newOrdersMsgs := newOrdersMsgs + added;
        if visit.kind != OnBook {
          needed := needed - 1;
        }
        newStartPrice := Move(side, newStartPrice, cfg.step);
      }
      assert l.rungs == rungs;
      mismatch := false;
    }

    method FillOrders(existingOrders: seq<AggregatedOrder>, startPrice: Dec, side: OrderType, neededOrders: int,
                      excludedPrices: set<string>, ghost owned: set<Dec>)
      returns (err: Option<Error>, ghost part: seq<Submission>)
      requires cfg.step > 0 && cfg.minAmount <= cfg.maxAmount
      requires PricesParse(existingOrders) && excludedPrices == Texts(owned)
      modifies submitter
      ensures submitter.log == old(submitter.log) + part
      ensures var l := Climb(side, existingOrders, owned, cfg.step, FirstRung(cfg, side, startPrice), neededOrders);
              SideSubmits(cfg, side, l, part, err.None?)
    {
      if neededOrders <= 0 {
        return None, [];
      }
      var newStartPrice := startPrice;
      if cfg.spreadSteps > 0 {
        var sideSpreadSteps := cfg.spreadSteps / 2;
        var spreadTotal := MulInt(cfg.step, sideSpreadSteps);
        if side == Buy {
          newStartPrice := newStartPrice - spreadTotal;
        } else {
          newStartPrice := newStartPrice + spreadTotal;
        }
      }
      ghost var passes;
      var mismatch, newOrdersMsgs;
      mismatch, newOrdersMsgs, passes := LayLadder(existingOrders, newStartPrice, side, neededOrders, excludedPrices, owned);
      if mismatch {
        return Some(TypeMismatch), [];
      }
      if |newOrdersMsgs| == 0 {
        return None, [];
      }
      var ok := submitter.AddOrders(newOrdersMsgs);
      part := [Creates(newOrdersMsgs, ok)];
      err := if ok then None else Some(SubmitFailed);
    }

    method CancelOrders(sortedOrders: array<Order>, limit: nat) returns (ok: bool)
      requires limit <= sortedOrders.Length
      modifies submitter
      ensures submitter.log == old(submitter.log) + [Cancels(CancelMsgs(old(sortedOrders[..limit])), ok)]
    {
      ghost var orders := sortedOrders[..];
      var msgs: seq<CancelMsg> := [];
      for i := 0 to limit
        invariant msgs == CancelMsgs(orders[..i])
      {
        var order := sortedOrders[i];
        assert orders[..i + 1][..i] == orders[..i];
        msgs := msgs + [CancelMsg(order.marketId, order.id, order.orderType)];
      }
      assert orders[..limit] == sortedOrders[..limit];
      ok := submitter.CancelOrders(msgs);
    }

    /** Sort so that the orders to cancel come first. */
    method FarthestFirst(orders: array<Order>, side: OrderType, keep: nat)
      requires OwnPricesParse(orders[..]) && keep < orders.Length
      modifies orders
      ensures orders[..orders.Length - keep] == Cancelled(old(orders[..]), side, keep)
      ensures OwnPricesParse(orders[..]) && OwnPrices(orders[..]) == old(OwnPrices(orders[..]))
    {
      SortKeepsPrices(orders[..], PriceKey(side == Sell));
      SortOrdersByPrice(orders, side == Sell);
      assert orders[..orders.Length - keep] == orders[..][..orders.Length - keep];
    }

    /** One side: cancel what exceeds the configured count. */
    method CancelSide(orders: array<Order>, side: OrderType, keep: nat) returns (ok: bool, ghost part: seq<Submission>)
      requires OwnPricesParse(orders[..])
      modifies orders, submitter
      ensures SideCancels(old(orders[..]), side, keep, part) && ok == Accepted(part)
      ensures submitter.log == old(submitter.log) + part
      ensures OwnPricesParse(orders[..]) && OwnPrices(orders[..]) == old(OwnPrices(orders[..]))
    {
      part := [];
      ok := true;
      if orders.Length > keep {
        FarthestFirst(orders, side, keep);
        ghost var chosen := orders[..orders.Length - keep];
        ghost var now := orders[..];
        ok := CancelOrders(orders, orders.Length - keep);
        part := [Cancels(CancelMsgs(chosen), ok)];
        assert part[0] in part && orders[..] == now;
      }
    }

    method CancelExtraOrders(buys: array<Order>, sells: array<Order>)
      returns (ok: bool, ghost buyPart: seq<Submission>, ghost sellPart: seq<Submission>)
      requires cfg.buyNo >= 0 && cfg.sellNo >= 0 && buys != sells
      requires OwnPricesParse(buys[..]) && OwnPricesParse(sells[..])
      modifies buys, sells, submitter
      ensures CancelSubmits(cfg, old(buys[..]), old(sells[..]), buyPart, sellPart)
      ensures ok == (Accepted(buyPart) && Accepted(sellPart))
      ensures submitter.log == old(submitter.log) + buyPart + sellPart
      ensures OwnPricesParse(buys[..]) && OwnPrices(buys[..]) == old(OwnPrices(buys[..]))
      ensures OwnPricesParse(sells[..]) && OwnPrices(sells[..]) == old(OwnPrices(sells[..]))
    {
      ghost var was := sells[..];
      sellPart := [];
      ok, buyPart := CancelSide(buys, Buy, cfg.buyNo);
      assert sells[..] == was;
      if ok {
        ok, sellPart := CancelSide(sells, Sell, cfg.sellNo);
      }
    }

    method FindStartPrice(history: HistoryAnswer, buys: seq<AggregatedOrder>, sells: seq<AggregatedOrder>) returns (startPrice: Dec)
      requires cfg.step > 0 && PricesParse(buys) && PricesParse(sells)
      ensures startPrice == StartPriceOf(cfg, history, buys, sells)
    {
      var last := if history.LastTrade? then Some(history.order) else None;
      var toTruncate := GetStartPrice(cfg, last, Best(buys), Best(sells));
      startPrice := TruncateToStep(toTruncate, cfg.step);
    }

    /** Sells from the start price up, then buys from one step below it down. */
    method FillBothSides(startPrice: Dec, buys: seq<AggregatedOrder>, sells: seq<AggregatedOrder>,
                         myBuys: seq<Order>, mySells: seq<Order>)
      returns (err: Option<Error>, ghost sellPart: seq<Submission>, ghost buyPart: seq<Submission>)
      requires cfg.step > 0 && cfg.minAmount <= cfg.maxAmount
      requires PricesParse(buys) && PricesParse(sells) && OwnPricesParse(myBuys) && OwnPricesParse(mySells)
      modifies submitter
      ensures submitter.log == old(submitter.log) + sellPart + buyPart
      ensures FillSubmits(cfg, SellLadder(cfg, sells, OwnPrices(mySells), startPrice),
                          BuyLadder(cfg, buys, OwnPrices(myBuys), startPrice), sellPart, buyPart, err)
    {
      buyPart := [];
      var sellPrices := BuildPricesMap(mySells);
      err, sellPart := FillOrders(sells, startPrice, Sell, cfg.sellNo, sellPrices, OwnPrices(mySells));
      if err.Some? {
        return Some(SellsFailed), sellPart, [];
      }
      var buyStartPrice := startPrice - cfg.step;
      var buyPrices := BuildPricesMap(myBuys);
      err, buyPart := FillOrders(buys, buyStartPrice, Buy, cfg.buyNo, buyPrices, OwnPrices(myBuys));
      if err.Some? {
        err := Some(BuysFailed);
      }
    }

    /** The first half of a cycle: the extra orders. */
    method CancelPhase(ans: Answers, myBuys: array<Order>, mySells: array<Order>)
      returns (ghost buyPart: seq<Submission>, ghost sellPart: seq<Submission>)
      requires cfg.Valid() && myBuys != mySells && OwnPricesParse(myBuys[..]) && OwnPricesParse(mySells[..])
      requires ans.balancesOk && ans.ownOrders == Some((myBuys[..], mySells[..]))
      modifies myBuys, mySells, submitter
      ensures CycleCancels(cfg, ans, buyPart, sellPart)
      ensures submitter.log == old(submitter.log) + buyPart + sellPart
      ensures OwnPricesParse(myBuys[..]) && OwnPrices(myBuys[..]) == old(OwnPrices(myBuys[..]))
      ensures OwnPricesParse(mySells[..]) && OwnPrices(mySells[..]) == old(OwnPrices(mySells[..]))
    {
      buyPart, sellPart := [], [];
      var myOrdersCount := myBuys.Length + mySells.Length;
      if myOrdersCount > cfg.buyNo + cfg.sellNo + CANCEL_ORDERS_DELTA {
        var ok;
        ok, buyPart, sellPart := CancelExtraOrders(myBuys, mySells);
      }
    }

    /** The second half: the new orders. */
    method FillPhase(ans: Answers, myBuys: seq<Order>, mySells: seq<Order>)
      returns (err: Option<Error>, ghost sellPart: seq<Submission>, ghost buyPart: seq<Submission>)
      requires cfg.step > 0 && cfg.minAmount <= cfg.maxAmount && ans.Parses()
      requires OwnPricesParse(myBuys) && OwnPricesParse(mySells)
      modifies submitter
      ensures submitter.log == old(submitter.log) + sellPart + buyPart
      ensures PhaseFills(cfg, address, ans, OwnPrices(myBuys), OwnPrices(mySells), sellPart, buyPart, err)
    {
      if !ShouldFill(cfg, address, ans.holdHistory, ans.now) {
        return None, [], [];
      }
      if ans.activeOrders.None? {
        return Some(ActiveOrdersFailed), [], [];
      }
      var buys, sells := ans.activeOrders.value.0, ans.activeOrders.value.1;
      var startPrice := FindStartPrice(ans.startHistory, buys, sells);
      err, sellPart, buyPart := FillBothSides(startPrice, buys, sells, myBuys, mySells);
    }

    method FillOrderBook(ans: Answers) returns (err: Option<Error>, ghost t: Trace)
      requires cfg.Valid() && cfg.minAmount <= cfg.maxAmount && ans.Parses()
      modifies submitter
      ensures submitter.log == old(submitter.log) + t.buyCancels + t.sellCancels + t.sells + t.buys
      ensures CycleSubmits(cfg, address, ans, t, err)
    {
      t := Trace([], [], [], []);
      if !ans.balancesOk {
        return Some(BalancesFailed), t;
      }
      if ans.ownOrders.None? {
        return Some(OwnOrdersFailed), t;
      }
      var ownBuys, ownSells := ans.ownOrders.value.0, ans.ownOrders.value.1;
      var myBuys := new Order[|ownBuys|](i requires 0 <= i < |ownBuys| => ownBuys[i]);
      var mySells := new Order[|ownSells|](i requires 0 <= i < |ownSells| => ownSells[i]);
      assert myBuys[..] == ownBuys && mySells[..] == ownSells;
      ghost var buyCancels, sellCancels := CancelPhase(ans, myBuys, mySells);
      ghost var sells, buys;
      err, sells, buys := FillPhase(ans, myBuys[..], mySells[..]);
      t := Trace(buyCancels, sellCancels, sells, buys);
    }
  }

  /** The whole ladder is what has been climbed and what remains. */
  predicate Remaining(l: Ladder, rungs: seq<Rung>, rest: Ladder) {
    l.rungs == rungs + rest.rungs && l.ending == rest.ending
  }

  lemma TakeOver(l: Ladder, rungs: seq<Rung>, r: Rung, rest: Ladder)
    requires Remaining(l, rungs, Prepend(r, rest))
    ensures Remaining(l, rungs + [r], rest)
  {
    assert rungs + ([r] + rest.rungs) == rungs + [r] + rest.rungs;
  }

  lemma Climbed(l: Ladder, rungs: seq<Rung>, r: Rung, side: OrderType, book: seq<AggregatedOrder>, owned: set<Dec>, step: Dec, needed: int)
    requires step > 0 && needed > 0 && GoodRung(side, book, owned, r)
    requires Remaining(l, rungs, Climb(side, book, owned, step, r.price, needed))
    ensures var next := Move(side, r.price, step);
            && Remaining(l, rungs + [r], Climb(side, book, owned, step, next, Fewer(needed, r)))
            && Fewer(needed, r) + |Ahead(side, book, next)| < needed + |Ahead(side, book, r.price)|
  {
    ClimbUnfolds(side, book, owned, step, needed, r);
    ClimbDecreases(side, book, owned, step, needed, r);
    TakeOver(l, rungs, r, Climb(side, book, owned, step, Move(side, r.price, step), Fewer(needed, r)));
  }

  /** The invariant of the loop over the rungs. */
  predicate Progress(cfg: OrdersConfig, side: OrderType, book: seq<AggregatedOrder>, owned: set<Dec>, l: Ladder,
                     rungs: seq<Rung>, msgs: seq<CreateMsg>, p: Dec, needed: int)
    requires cfg.step > 0
  {
    && Remaining(l, rungs, Climb(side, book, owned, cfg.step, p, needed))
    && PlacesLadder(cfg, side, PlacedPrices(rungs), msgs)
  }

  /** Needed orders and distinct book prices still ahead: what every pass uses up. */
  function PassesLeft(side: OrderType, book: seq<AggregatedOrder>, p: Dec, needed: int): int {
    needed + |Ahead(side, book, p)|
  }

  /** One pass: a placed rung adds its message, any other rung none. */
  lemma OnePass(cfg: OrdersConfig, side: OrderType, book: seq<AggregatedOrder>, owned: set<Dec>, l: Ladder,
                rungs: seq<Rung>, msgs: seq<CreateMsg>, needed: int, r: Rung, added: seq<CreateMsg>)
    requires cfg.step > 0 && needed > 0 && GoodRung(side, book, owned, r)
    requires Progress(cfg, side, book, owned, l, rungs, msgs, r.price, needed)
    requires PlacesLadder(cfg, side, if r.kind == Placed then [r.price] else [], added)
    ensures var next := Move(side, r.price, cfg.step);
            && Progress(cfg, side, book, owned, l, rungs + [r], msgs + added, next, Fewer(needed, r))
            && PassesLeft(side, book, next, Fewer(needed, r)) < PassesLeft(side, book, r.price, needed)
  {
    Climbed(l, rungs, r, side, book, owned, cfg.step, needed);
    PlacedSnoc(rungs, r);
    MorePlaced(cfg, side, PlacedPrices(rungs), msgs, if r.kind == Placed then [r.price] else [], added);
  }

  lemma MorePlaced(cfg: OrdersConfig, side: OrderType, placed: seq<Dec>, msgs: seq<CreateMsg>, more: seq<Dec>, added: seq<CreateMsg>)
    requires PlacesLadder(cfg, side, placed, msgs) && PlacesLadder(cfg, side, more, added)
    ensures PlacesLadder(cfg, side, placed + more, msgs + added)
  {
  }

  lemma {:induction false} PlacedSnoc(rungs: seq<Rung>, r: Rung)
    ensures PlacedPrices(rungs + [r]) == PlacedPrices(rungs) + if r.kind == Placed then [r.price] else []
  {
    if rungs != [] {
      assert (rungs + [r])[1..] == rungs[1..] + [r];
      PlacedSnoc(rungs[1..], r);
    }
  }

  method RandomSource() returns (n: nat) {
    n := *;
  }
}
