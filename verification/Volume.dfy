/** The volume maker: one strategy object that trades cycle by cycle and is replaced when
    its budget or the book no longer allows it. Every cycle is a run of the protocol. */
module Volume {
  import opened Decimals
  import opened Options
  import opened PriceText
  import opened Orders
  import opened StartPrice
  import opened OrderFiller
  import opened VolumeProtocol

  const ZERO_TIME: int := -62_135_596_800

  /** A strategy for one side. Its bounds are copied from the configuration. */
  class VolumeStrategy {
    const minVolume: int
    const maxVolume: int
    const extraMinVolume: int
    const extraMaxVolume: int
    const orderType: OrderType
    const carousel: bool
    var remainingVolume: int
    var lastRun: int
    var tradesCount: nat

    constructor (cfg: VolumeConfig, orderType: OrderType, remaining: int, tradesCount: nat)
      ensures Of(cfg) && this.orderType == orderType
      ensures remainingVolume == remaining && this.tradesCount == tradesCount && lastRun == ZERO_TIME
    {
      this.minVolume, this.maxVolume := cfg.min, cfg.max;
      this.extraMinVolume, this.extraMaxVolume := cfg.extraMin, cfg.extraMax;
      this.orderType, this.carousel := orderType, cfg.carousel;
      this.remainingVolume, this.lastRun, this.tradesCount := remaining, ZERO_TIME, tradesCount;
    }

    predicate Of(cfg: VolumeConfig) {
      && minVolume == cfg.min && maxVolume == cfg.max
      && extraMinVolume == cfg.extraMin && extraMaxVolume == cfg.extraMax && carousel == cfg.carousel
    }

    /** Never below zero. */
    method SetRemainingAmount(amount: int)
      modifies this`remainingVolume
      ensures remainingVolume == Clamped(amount)
    {
      remainingVolume := amount;
      if remainingVolume <= 0 {
        remainingVolume := 0;
      }
    }

    method IncrementTradesCount()
      modifies this`tradesCount
      ensures tradesCount == old(tradesCount) + 1
    {
      tradesCount := tradesCount + 1;
    }
  }

  /** What the queries of one cycle answer, and the clock at its three readings. */
  datatype Inputs = Inputs(balances: Option<(int, int)>,
                           active: Option<(seq<AggregatedOrder>, seq<AggregatedOrder>)>,
                           own: Option<(seq<Order>, seq<Order>)>,
                           strategyHistory: HistoryAnswer, lastTrade: HistoryAnswer,
                           now: int, holdBackNow: int, ackNow: int)
  {
    /** The spread strategy needs both sides of the book; prices must be decimals. */
    predicate Usable(cfg: VolumeConfig) {
      active.Some? ==>
        && PricesParse(active.value.0) && PricesParse(active.value.1)
        && (!cfg.carousel ==> active.value.0 != [] && active.value.1 != [])
    }
  }

  datatype VolumeError = NoBalances | OrdersFailed | StrategyFailed | HistoryUnknown | SubmissionFailed

  // ----- choosing a side -----

  predicate IsMyOrder(myOrders: seq<Order>, order: AggregatedOrder) {
    exists i :: 0 <= i < |myOrders|
             && myOrders[i].price == order.price && myOrders[i].orderType == order.orderType && myOrders[i].amount == order.amount
  }

  predicate OwnsFirst(myOrders: seq<Order>, market: seq<AggregatedOrder>) {
    market != [] && IsMyOrder(myOrders, market[0])
  }

  /** The side of the next strategy; None when neither can be tried. */
  function ChooseSide(cfg: VolumeConfig, base: int, quote: int, myBuys: seq<Order>, mySells: seq<Order>,
                      buys: seq<AggregatedOrder>, sells: seq<AggregatedOrder>, history: HistoryAnswer): Option<OrderType>
  {
    var canSell := base > 0 && buys != [];
    var canBuy := quote > 0 && sells != [];
    if !canSell && !canBuy then None
    else if !canSell then Some(Buy)
    else if !canBuy then Some(Sell)
    else
      var ownsFirstSell, ownsFirstBuy := OwnsFirst(mySells, sells), OwnsFirst(myBuys, buys);
      if cfg.carousel && !ownsFirstSell && ownsFirstBuy then Some(Sell)
      else if cfg.carousel && ownsFirstSell && !ownsFirstBuy then Some(Buy)
      else if cfg.carousel && !ownsFirstSell then
        if sells[0].amount < buys[0].amount then Some(Buy) else Some(Sell)
      else if history.LastTrade? && history.order.orderType == Sell then Some(Sell)
      else Some(Buy)
  }

  /** The orders that a strategy of a side trades against. */
  function Opposite<T>(side: OrderType, buys: seq<T>, sells: seq<T>): seq<T> {
    if side.Buy? then sells else buys
  }

  /** A side that can be paid for and has somebody to trade with. A carousel that may trade
      either way trades against its own order whenever one leads its side, else against the
      smaller of the two first orders. */
  lemma ChosenSideTrades(cfg: VolumeConfig, base: int, quote: int, myBuys: seq<Order>, mySells: seq<Order>,
                         buys: seq<AggregatedOrder>, sells: seq<AggregatedOrder>, history: HistoryAnswer)
    ensures var side := ChooseSide(cfg, base, quote, myBuys, mySells, buys, sells, history);
            && (side.None? <==> !(base > 0 && buys != []) && !(quote > 0 && sells != []))
            && (side.Some? ==> Opposite(side.value, buys, sells) != [] && (if side.value.Buy? then quote else base) > 0)
            && (cfg.carousel && base > 0 && quote > 0 && buys != [] && sells != []
                && (OwnsFirst(myBuys, buys) || OwnsFirst(mySells, sells)) ==>
                  OwnsFirst(Opposite(side.value, myBuys, mySells), Opposite(side.value, buys, sells)))
            && (cfg.carousel && base > 0 && quote > 0 && buys != [] && sells != []
                && !OwnsFirst(myBuys, buys) && !OwnsFirst(mySells, sells) ==>
                  Opposite(side.value, buys, sells)[0].amount <= Opposite(TheOtherOrderType(side.value), buys, sells)[0].amount)
  {
  }

  // ----- when to trade -----

  predicate TooSoon(cfg: VolumeConfig, lastRun: int, inp: Inputs) {
    lastRun > inp.now - cfg.tradeInterval
  }

  /** The market's last trade is recent, or was with somebody else and is held back for. */
  predicate MarketBusy(cfg: VolumeConfig, address: string, inp: Inputs) {
    inp.lastTrade.LastTrade? &&
    var o := inp.lastTrade.order;
    || o.executedAt > inp.now - cfg.tradeInterval
    || ((o.maker != address || o.taker != address) && o.executedAt + cfg.holdBackSeconds > inp.holdBackNow)
  }

  // ----- what to submit -----

  /** A carousel's messages: an own order next to the first level for the extra volume, and
      one order at that level's price that takes the amount and the extra. */
  predicate CarouselMsgs(side: OrderType, level: AggregatedOrder, a: Ack, msgs: seq<CreateMsg>) {
    var extraPart := if a.extra > 0 then [CreateMsg(level.orderType, a.extra, level.price)] else [];
    msgs == extraPart + [CreateMsg(side, a.amount + a.extra, level.price)]
  }

  /** A spread pair: the same amount at the same price, bought and sold. */
  predicate SpreadMsgs(side: OrderType, price: Dec, a: Ack, msgs: seq<CreateMsg>) {
    msgs == [CreateMsg(side, a.amount + a.extra, Render(price)), CreateMsg(TheOtherOrderType(side), a.amount + a.extra, Render(price))]
  }

  function SpreadPrice(side: OrderType, bestBuy: Dec, bestSell: Dec, step: Dec): Dec {
    if side.Buy? then bestSell - step else bestBuy + step
  }

  /** One step inside the book's spread; impossible when the spread has no room for it. */
  predicate SpreadPossible(side: OrderType, bestBuy: Dec, bestSell: Dec, step: Dec) {
    0 < SpreadPrice(side, bestBuy, bestSell, step) && bestBuy <= SpreadPrice(side, bestBuy, bestSell, step) <= bestSell
  }

  /** On a positive, uncrossed book the price is possible exactly when the spread is at
      least one step wide: both sides of the strategy agree. */
  lemma SpreadPossibleIff(side: OrderType, bestBuy: Dec, bestSell: Dec, step: Dec)
    requires 0 < bestBuy <= bestSell && step > 0
    ensures SpreadPossible(side, bestBuy, bestSell, step) <==> step <= bestSell - bestBuy
  {
  }

  // ----- the strategy of a cycle -----

  /** A strategy as values: its side, last run, budget left and count. */
  datatype Chosen = Chosen(side: OrderType, lastRun: int, remaining: int, count: nat)

  /** Whether a strategy can trade on: budget left and, for a carousel, the first order of
      the other side its own. */
  predicate Kept(cfg: VolumeConfig, s: Chosen, myBuys: seq<Order>, mySells: seq<Order>, buys: seq<AggregatedOrder>, sells: seq<AggregatedOrder>) {
    && cfg.min <= s.remaining
    && (cfg.carousel ==> OwnsFirst(Opposite(s.side, myBuys, mySells), Opposite(s.side, buys, sells)))
  }

  /** Which strategy a cycle uses: the one there was exactly when it can trade on; else a new
      one for the chosen side, if the wallet has orders to trade against; else none, and the
      old one is dropped. */
  predicate Chooses(cfg: VolumeConfig, inp: Inputs, was: Option<Chosen>, now: Option<Chosen>, events: seq<Event>)
    requires inp.balances.Some? && inp.active.Some?
  {
    var buys, sells := inp.active.value.0, inp.active.value.1;
    if inp.own.None? then now == None && events == []
    else if was.Some? && Kept(cfg, was.value, inp.own.value.0, inp.own.value.1, buys, sells) then now == was && events == []
    else
      var side := ChooseSide(cfg, inp.balances.value.0, inp.balances.value.1, inp.own.value.0, inp.own.value.1,
                             buys, sells, inp.strategyHistory);
      if side.Some? && Opposite(side.value, inp.own.value.0, inp.own.value.1) != [] then
        && |events| == 1 && events[0].Renew?
        && Drawable(VOLUME_MUL * cfg.min, VOLUME_MUL * cfg.max, events[0].budget)
        && now == Some(Chosen(side.value, ZERO_TIME, events[0].budget, if was.Some? then was.value.count else 0))
      else now == None && events == [Dropped]
  }

  /** A strategy that a cycle uses has its minimum left and a market to trade against. */
  lemma ChosenCanTrade(cfg: VolumeConfig, inp: Inputs, was: Option<Chosen>, now: Option<Chosen>, events: seq<Event>)
    requires cfg.Valid() && inp.balances.Some? && inp.active.Some? && inp.Usable(cfg)
    requires Chooses(cfg, inp, was, now, events) && now.Some?
    ensures now.value.remaining >= cfg.min && Opposite(now.value.side, inp.active.value.0, inp.active.value.1) != []
  {
  }

  // ----- the amount of a trade -----

  /** What bounds a trade's amount: the draw, what remains unless a carousel adds extra
      volume, and for a carousel the level it trades against. */
  function Caps(cfg: VolumeConfig, remaining: int, level: int, draw: int, extra: int): set<int> {
    {draw} + (if cfg.carousel && extra > 0 then {} else {remaining}) + (if cfg.carousel then {level} else {})
  }

  predicate IsLeast(x: int, s: set<int>) {
    x in s && forall y :: y in s ==> x <= y
  }

  /** A trade drawn for a strategy: the amount is the least of its bounds. */
  predicate Planned(cfg: VolumeConfig, remaining: int, count: nat, level: int, draw: int, a: Ack)
    requires cfg.Valid()
  {
    && Drawable(cfg.min, cfg.max, draw) && ExtraDrawn(cfg, count, a.extra)
    && IsLeast(a.amount, Caps(cfg, remaining, level, draw, a.extra))
  }

  /** A planned trade of a positive amount is one that the protocol allows. */
  lemma PlannedIsEnabled(cfg: VolumeConfig, s: State, level: int, draw: int, a: Ack)
    requires cfg.Valid() && s.strategy.Some? && s.strategy.value.remaining >= cfg.min
    requires Planned(cfg, s.strategy.value.remaining, s.strategy.value.count, level, draw, a)
    ensures a.amount > 0 <==> Enabled(cfg, s, Trade(a))
    ensures a.amount > 0 <==> draw > 0 && (s.strategy.value.remaining > 0 || (cfg.carousel && a.extra > 0)) && (cfg.carousel ==> level > 0)
  {
    var caps := Caps(cfg, s.strategy.value.remaining, level, draw, a.extra);
    assert draw in caps;
    assert cfg.carousel ==> level in caps;
    assert !(cfg.carousel && a.extra > 0) ==> s.strategy.value.remaining in caps;
  }

  // ----- a cycle -----

  /** What a cycle did: how the strategy changed and which one it used, the draw and the
      planned trade, and what it submitted. */
  datatype Cycle = Cycle(choice: seq<Event>, chosen: Option<Chosen>, draw: int, ack: Ack, sent: seq<Submission>)
  {
    /** An accepted batch is the trade, a refused one drops the strategy. */
    function Traded(): seq<Event> {
      if sent == [] then [] else if sent[0].accepted then [Trade(ack)] else [Dropped]
    }

    function Events(): seq<Event> {
      choice + Traded()
    }
  }

  /** There is something to trade against, and room for the price. */
  predicate HasRoom(cfg: VolumeConfig, step: Dec, side: OrderType, buys: seq<AggregatedOrder>, sells: seq<AggregatedOrder>) {
    if cfg.carousel then Opposite(side, buys, sells) != [] else SpreadPossible(side, Best(buys), Best(sells), step)
  }

  /** The messages of a trade, against the book the cycle saw. */
  predicate MsgsOf(cfg: VolumeConfig, step: Dec, buys: seq<AggregatedOrder>, sells: seq<AggregatedOrder>, side: OrderType, a: Ack, msgs: seq<CreateMsg>) {
    if cfg.carousel then Opposite(side, buys, sells) != [] && CarouselMsgs(side, Opposite(side, buys, sells)[0], a, msgs)
    else SpreadMsgs(side, SpreadPrice(side, Best(buys), Best(sells), step), a, msgs)
  }

  function LevelAmount(market: seq<AggregatedOrder>): int {
    if market == [] then 0 else market[0].amount
  }

  /** When the time has come and the market is quiet: one batch with the planned trade if
      there is room and its amount is positive, else nothing. */
  predicate TradeOk(cfg: VolumeConfig, step: Dec, inp: Inputs, c: Cycle, err: Option<VolumeError>)
    requires cfg.Valid() && inp.active.Some? && c.chosen.Some?
  {
    var buys, sells, s := inp.active.value.0, inp.active.value.1, c.chosen.value;
    && (HasRoom(cfg, step, s.side, buys, sells) ==>
          Planned(cfg, s.remaining, s.count, LevelAmount(Opposite(s.side, buys, sells)), c.draw, c.ack))
    && if HasRoom(cfg, step, s.side, buys, sells) && c.ack.amount > 0 then
         && |c.sent| == 1 && c.sent[0].Creates?
         && MsgsOf(cfg, step, buys, sells, s.side, c.ack, c.sent[0].creates)
         && err == (if c.sent[0].accepted then None else Some(SubmissionFailed))
       else c.sent == [] && err == None
  }

  /** What follows on the choice of the strategy, for every answer of the queries. */
  predicate ChosenOk(cfg: VolumeConfig, step: Dec, address: string, inp: Inputs, c: Cycle, err: Option<VolumeError>)
    requires cfg.Valid() && inp.active.Some? && c.chosen.Some?
  {
    if TooSoon(cfg, c.chosen.value.lastRun, inp) then c.sent == [] && err == None
    else if inp.lastTrade.HistoryFailed? then c.sent == [] && err == Some(HistoryUnknown)
    else if MarketBusy(cfg, address, inp) then c.sent == [] && err == None
    else TradeOk(cfg, step, inp, c, err)
  }

  /** The whole cycle, given the strategy there was. */
  predicate CycleOk(cfg: VolumeConfig, step: Dec, address: string, inp: Inputs, was: Option<Chosen>, c: Cycle, err: Option<VolumeError>)
    requires cfg.Valid()
  {
    if inp.balances.None? then c.choice == [] && c.sent == [] && err == Some(NoBalances)
    else if inp.active.None? then c.choice == [] && c.sent == [] && err == Some(OrdersFailed)
    else
      && Chooses(cfg, inp, was, c.chosen, c.choice)
      && if c.chosen.None? then c.sent == [] && err == Some(StrategyFailed) else ChosenOk(cfg, step, address, inp, c, err)
  }

  /** The cycle reaches its trade: everything answers, a strategy is there, it is time, and
      the market is quiet and has room. */
  predicate Reached(cfg: VolumeConfig, step: Dec, address: string, inp: Inputs, c: Cycle) {
    && inp.balances.Some? && inp.active.Some? && inp.own.Some? && c.chosen.Some?
    && !TooSoon(cfg, c.chosen.value.lastRun, inp) && !inp.lastTrade.HistoryFailed? && !MarketBusy(cfg, address, inp)
    && HasRoom(cfg, step, c.chosen.value.side, inp.active.value.0, inp.active.value.1)
  }

  /** When a batch has to be sent: exactly when the cycle reaches its trade and the draw is
      positive, something remains or extra volume is added, and a carousel's level is not
      empty. With a positive minimum the draw and the budget never stand in the way. */
  lemma SendsIff(cfg: VolumeConfig, step: Dec, address: string, inp: Inputs, was: Option<Chosen>, c: Cycle, err: Option<VolumeError>)
    requires cfg.Valid() && inp.Usable(cfg) && CycleOk(cfg, step, address, inp, was, c, err)
    ensures c.sent != [] <==>
              && Reached(cfg, step, address, inp, c)
              && c.draw > 0 && (c.chosen.value.remaining > 0 || (cfg.carousel && c.ack.extra > 0))
              && (cfg.carousel ==> Opposite(c.chosen.value.side, inp.active.value.0, inp.active.value.1)[0].amount > 0)
    ensures cfg.min > 0 ==>
              (c.sent != [] <==>
                 && Reached(cfg, step, address, inp, c)
                 && (cfg.carousel ==> Opposite(c.chosen.value.side, inp.active.value.0, inp.active.value.1)[0].amount > 0))
  {
    if Reached(cfg, step, address, inp, c) {
      ChosenCanTrade(cfg, inp, was, c.chosen, c.choice);
      var s := c.chosen.value;
      var level := LevelAmount(Opposite(s.side, inp.active.value.0, inp.active.value.1));
      PlannedIsEnabled(cfg, State(Some(Strategy(s.remaining, s.remaining, s.count, [])), 0, 0), level, c.draw, c.ack);
    }
  }

  /** A spread strategy that has spent everything under a zero minimum is kept by every
      cycle, whatever the market does, and never trades again. */
  lemma SpentSpreadIsKept(cfg: VolumeConfig, step: Dec, address: string, inp: Inputs, was: Chosen, c: Cycle, err: Option<VolumeError>)
    requires cfg.Valid() && inp.Usable(cfg) && CycleOk(cfg, step, address, inp, Some(was), c, err)
    requires !cfg.carousel && cfg.min == 0 && was.remaining == 0
    ensures c.sent == [] && c.Events() == []
  {
    SendsIff(cfg, step, address, inp, Some(was), c, err);
  }

  // ----- the volume maker -----

  class VolumeMaker {
    const cfg: VolumeConfig
    const step: Dec
    const address: string
    const submitter: OrderSubmitter
    var strategy: VolumeStrategy?
    // the strategy's first budget and acknowledged trades, and all trades made
    ghost var initial: int
    ghost var acks: seq<Ack>
    ghost var trades: nat
    ghost var extras: nat
    // every event since the maker was made
    ghost var history: seq<Event>

    /** The maker's state is the one its history leads to. */
    ghost predicate Alive()
      reads this, strategy
    {
      Valid() && ValidRun(cfg, Initial(), history) && After(cfg, Initial(), history) == View()
    }

    ghost predicate Valid()
      reads this, strategy
    {
      cfg.Valid() && step > 0 && (strategy != null ==> strategy.Of(cfg))
    }

    ghost function View(): State
      reads this, strategy
    {
      State(if strategy == null then None else Some(Strategy(initial, strategy.remainingVolume, strategy.tradesCount, acks)),
            trades, extras)
    }

    constructor (cfg: VolumeConfig, step: Dec, address: string, submitter: OrderSubmitter)
      requires cfg.Valid() && step > 0
      ensures Alive() && View() == Initial() && this.cfg == cfg && this.submitter == submitter
    {
      this.cfg, this.step, this.address, this.submitter := cfg, step, address, submitter;
      strategy := null;
      initial, acks, trades, extras, history := 0, [], 0, 0, [];
    }

    /** A new strategy for the side, keeping the old one's count; null without orders. */
    method MakeBaseStrategy(side: OrderType, myOrders: seq<Order>, marketOrders: seq<AggregatedOrder>) returns (s: VolumeStrategy?)
      requires Valid()
      ensures s != null <==> myOrders != [] && marketOrders != []
      ensures s != null ==> fresh(s) && s.Of(cfg) && s.orderType == side && s.lastRun == ZERO_TIME
      ensures s != null ==> Drawable(VOLUME_MUL * cfg.min, VOLUME_MUL * cfg.max, s.remainingVolume)
      ensures s != null ==> s.tradesCount == if strategy == null then 0 else strategy.tradesCount
    {
      if |myOrders| == 0 || |marketOrders| == 0 {
        return null;
      }
      var source := RandomSource();
      var remaining := MustRandomInt(cfg.min * VOLUME_MUL, cfg.max * VOLUME_MUL, source);
      var tradesCount := 0;
      if strategy != null {
        tradesCount := strategy.tradesCount;
      }
      s := new VolumeStrategy(cfg, side, remaining, tradesCount);
    }

    ghost function Current(): Option<Chosen>
      reads this, strategy
    {
      if strategy == null then None
      else Some(Chosen(strategy.orderType, strategy.lastRun, strategy.remainingVolume, strategy.tradesCount))
    }

    /** Replaces the strategy, or drops it when no new one can be made. */
    method NewStrategy(inp: Inputs, myBuys: seq<Order>, mySells: seq<Order>, buys: seq<AggregatedOrder>, sells: seq<AggregatedOrder>)
      returns (ok: bool, ghost e: Event)
      requires Valid() && inp.balances.Some? && inp.own == Some((myBuys, mySells)) && inp.active == Some((buys, sells))
      requires strategy == null || !Kept(cfg, Current().value, myBuys, mySells, buys, sells)
      modifies this`strategy, this`initial, this`acks
      ensures Valid() && Enabled(cfg, old(View()), e) && View() == Apply(old(View()), e)
      ensures ok == (strategy != null) && (ok ==> fresh(strategy))
      ensures Chooses(cfg, inp, old(Current()), Current(), [e])
    {
      var side := ChooseSide(cfg, inp.balances.value.0, inp.balances.value.1, myBuys, mySells, buys, sells, inp.strategyHistory);
      var s: VolumeStrategy? := null;
      if side.Some? {
        s := MakeBaseStrategy(side.value, Opposite(side.value, myBuys, mySells), Opposite(side.value, buys, sells));
      }
      strategy := s;
      ok := s != null;
      if s != null {
        e := Renew(s.remainingVolume);
        initial, acks := s.remainingVolume, [];
      } else {
        e := Dropped;
      }
    }

    /** Keeps the strategy exactly when it can trade on, else makes a new one. */
    method GetStrategy(inp: Inputs, buys: seq<AggregatedOrder>, sells: seq<AggregatedOrder>)
      returns (ok: bool, ghost events: seq<Event>, ghost chosen: Option<Chosen>)
      requires Valid() && inp.balances.Some? && inp.active == Some((buys, sells))
      modifies this`strategy, this`initial, this`acks
      ensures Valid() && ValidRun(cfg, old(View()), events) && View() == After(cfg, old(View()), events)
      ensures Chooses(cfg, inp, old(Current()), chosen, events)
      ensures ok == chosen.Some? && (ok ==> chosen == Current())
      ensures if events == [] then strategy == old(strategy) else strategy != null ==> fresh(strategy)
    {
      events, chosen := [], None;
      if inp.own.None? {
        return false, [], None;
      }
      var myBuys, mySells := inp.own.value.0, inp.own.value.1;
      ghost var e;
      if strategy == null || strategy.minVolume > strategy.remainingVolume {
        ok, e := NewStrategy(inp, myBuys, mySells, buys, sells);
        return ok, [e], Current();
      }
      if !cfg.carousel {
        return true, [], Current();
      }
      if strategy.orderType == Buy {
        if |sells| == 0 || !IsMyOrder(mySells, sells[0]) {
          ok, e := NewStrategy(inp, myBuys, mySells, buys, sells);
          return ok, [e], Current();
        }
      }
      if strategy.orderType == Sell {
        if |buys| == 0 || !IsMyOrder(myBuys, buys[0]) {
          ok, e := NewStrategy(inp, myBuys, mySells, buys, sells);
          return ok, [e], Current();
        }
      }
      return true, [], Current();
    }

    /** The extra amount of the next trade: drawn every extraEvery trades, else zero. */
    method DrawExtra(s: VolumeStrategy) returns (extra: int)
      requires Valid() && s.Of(cfg)
      ensures ExtraDrawn(cfg, s.tradesCount, extra)
    {
      extra := 0;
      if s.extraMaxVolume > 0 && s.tradesCount % cfg.extraEvery == 0 && s.tradesCount > 0 {
        var source := RandomSource();
        extra := MustRandomInt(s.extraMinVolume, s.extraMaxVolume, source);
      }
    }

    /** Trades against the first level: no more than it holds, and no more than remains
        unless extra volume is added. */
    method MakeCarouselOrder(s: VolumeStrategy, bookOrder: AggregatedOrder)
      returns (orderAmount: int, msgs: seq<CreateMsg>, ghost draw: int, ghost a: Ack)
      requires Valid() && s.Of(cfg) && cfg.carousel
      ensures a.amount == orderAmount && Planned(cfg, s.remainingVolume, s.tradesCount, bookOrder.amount, draw, a)
      ensures CarouselMsgs(s.orderType, bookOrder, a, msgs)
    {
      msgs := [];
      var extraAmount := DrawExtra(s);
      if extraAmount > 0 {
        msgs := msgs + [CreateMsg(bookOrder.orderType, extraAmount, bookOrder.price)];
      }
      var source := RandomSource();
      orderAmount := MustRandomInt(s.minVolume, s.maxVolume, source);
      draw := orderAmount;
      if extraAmount <= 0 && orderAmount > s.remainingVolume {
        orderAmount := s.remainingVolume;
      }
      if orderAmount > bookOrder.amount {
        orderAmount := bookOrder.amount;
      }
      msgs := msgs + [CreateMsg(s.orderType, orderAmount + extraAmount, bookOrder.price)];
      a := Ack(orderAmount, extraAmount);
    }

    /** The price one step inside the spread, and whether there is room for it. */
    method PriceInSpread(s: VolumeStrategy, buys: seq<AggregatedOrder>, sells: seq<AggregatedOrder>) returns (possible: bool, priceDec: Dec)
      requires buys != [] && sells != []
      ensures priceDec == SpreadPrice(s.orderType, Best(buys), Best(sells), step)
      ensures possible <==> SpreadPossible(s.orderType, Best(buys), Best(sells), step)
    {
      var bookBuyPrice, bookSellPrice := PriceOf(buys[0].price), PriceOf(sells[0].price);
      priceDec := if s.orderType == Buy then bookSellPrice - step else bookBuyPrice + step;
      possible := !(priceDec <= 0 || priceDec < bookBuyPrice || priceDec > bookSellPrice);
    }

    /** The amounts of a spread trade: within the budget, with or without extra volume. */
    method DrawSpreadAmounts(s: VolumeStrategy, ghost level: int) returns (orderAmount: int, extraAmount: int, ghost draw: int)
      requires Valid() && s.Of(cfg) && !cfg.carousel
      ensures Planned(cfg, s.remainingVolume, s.tradesCount, level, draw, Ack(orderAmount, extraAmount))
    {
      extraAmount := DrawExtra(s);
      var source := RandomSource();
      orderAmount := MustRandomInt(s.minVolume, s.maxVolume, source);
      draw := orderAmount;
      if orderAmount > s.remainingVolume {
        orderAmount := s.remainingVolume;
      }
    }

    /** Buys and sells the same amount one step inside the spread, if there is room. */
    method MakeSpreadOrder(s: VolumeStrategy, buys: seq<AggregatedOrder>, sells: seq<AggregatedOrder>, ghost level: int)
      returns (possible: bool, orderAmount: int, msgs: seq<CreateMsg>, ghost draw: int, ghost a: Ack)
      requires Valid() && s.Of(cfg) && !cfg.carousel && buys != [] && sells != []
      ensures possible <==> SpreadPossible(s.orderType, Best(buys), Best(sells), step)
      ensures !possible ==> msgs == []
      ensures possible ==>
                && a.amount == orderAmount && Planned(cfg, s.remainingVolume, s.tradesCount, level, draw, a)
                && SpreadMsgs(s.orderType, SpreadPrice(s.orderType, Best(buys), Best(sells), step), a, msgs)
    {
      msgs, orderAmount, draw, a := [], 0, 0, Ack(0, 0);
      var priceDec;
      possible, priceDec := PriceInSpread(s, buys, sells);
      if !possible {
        return;
      }
      var price := Render(priceDec);
      var extraAmount;
      orderAmount, extraAmount, draw := DrawSpreadAmounts(s, level);
      a := Ack(orderAmount, extraAmount);
      msgs := [CreateMsg(s.orderType, orderAmount + extraAmount, price),
               CreateMsg(TheOtherOrderType(s.orderType), orderAmount + extraAmount, price)];
    }

    method AckOrder(orderAmount: int, now: int, ghost a: Ack)
      requires Valid() && strategy != null && a.amount == orderAmount
      modifies this`acks, this`trades, this`extras, strategy
      ensures Valid() && View() == Apply(old(View()), Trade(a)) && strategy.lastRun == now
    {
      strategy.lastRun := now;
      strategy.SetRemainingAmount(strategy.remainingVolume - orderAmount);
      strategy.IncrementTradesCount();
      acks := acks + [a];
      trades := trades + 1;
      extras := extras + if a.extra > 0 then 1 else 0;
    }

    /** The strategy's order for this cycle; not possible when the spread is too narrow. */
    method MakeOrder(s: VolumeStrategy, buys: seq<AggregatedOrder>, sells: seq<AggregatedOrder>)
      returns (possible: bool, orderAmount: int, msgs: seq<CreateMsg>, ghost draw: int, ghost a: Ack)
      requires Valid() && s.Of(cfg) && Opposite(s.orderType, buys, sells) != []
      requires !cfg.carousel ==> buys != [] && sells != []
      ensures possible <==> HasRoom(cfg, step, s.orderType, buys, sells)
      ensures possible ==>
                && a.amount == orderAmount && msgs != []
                && Planned(cfg, s.remainingVolume, s.tradesCount, LevelAmount(Opposite(s.orderType, buys, sells)), draw, a)
                && MsgsOf(cfg, step, buys, sells, s.orderType, a, msgs)
    {
      if s.carousel {
        possible := true;
        var bookOrder := if s.orderType == Buy then sells[0] else buys[0];
        orderAmount, msgs, draw, a := MakeCarouselOrder(s, bookOrder);
      } else {
        ghost var level := LevelAmount(Opposite(s.orderType, buys, sells));
        possible, orderAmount, msgs, draw, a := MakeSpreadOrder(s, buys, sells, level);
      }
    }

    /** Submits; an accepted batch is acknowledged, a refused one drops the strategy. */
    method SubmitAndAck(orderAmount: int, msgs: seq<CreateMsg>, now: int, ghost a: Ack)
      returns (ok: bool, ghost e: Event)
      requires Valid() && strategy != null && a.amount == orderAmount && Enabled(cfg, View(), Trade(a))
      modifies this`strategy, this`acks, this`trades, this`extras, strategy, submitter
      ensures Valid() && Enabled(cfg, old(View()), e) && View() == Apply(old(View()), e)
      ensures submitter.log == old(submitter.log) + [Creates(msgs, ok)]
      ensures e == (if ok then Trade(a) else Dropped)
      ensures strategy == (if ok then old(strategy) else null)
      ensures ok ==> strategy.lastRun == now
    {
      ok := submitter.AddOrders(msgs);
      if !ok {
        strategy := null;
        e := Dropped;
        return;
      }
      AckOrder(orderAmount, now, a);
      e := Trade(a);
    }

    ghost function Owned(): set<object>
      reads this
    {
      if strategy == null then {} else {strategy}
    }

    /** One cycle under the volume lock: its effect is a run of the protocol. */
    method MakeVolume(inp: Inputs) returns (err: Option<VolumeError>, ghost c: Cycle)
      requires Alive() && inp.Usable(cfg)
      modifies this, Owned(), submitter
      ensures Alive() && history == old(history) + c.Events()
      ensures submitter.log == old(submitter.log) + c.sent
      ensures CycleOk(cfg, step, address, inp, old(Current()), c, err)
      ensures c.Events() == [] ==> strategy == old(strategy) && Current() == old(Current())
      ensures c.sent != [] && c.sent[0].accepted ==> strategy != null && strategy.lastRun == inp.ackNow
    {
      ghost var past := history;
      err, c := MakeVolumeLocked(inp);
      RunConcat(cfg, Initial(), past, c.Events());
      history := past + c.Events();
    }

    method MakeVolumeLocked(inp: Inputs) returns (err: Option<VolumeError>, ghost c: Cycle)
      requires Valid() && inp.Usable(cfg)
      modifies this`strategy, this`initial, this`acks, this`trades, this`extras, Owned(), submitter
      ensures Valid()
      ensures ValidRun(cfg, old(View()), c.Events()) && View() == After(cfg, old(View()), c.Events())
      ensures submitter.log == old(submitter.log) + c.sent
      ensures CycleOk(cfg, step, address, inp, old(Current()), c, err)
      ensures c.Events() == [] ==> strategy == old(strategy) && Current() == old(Current())
      ensures c.sent != [] && c.sent[0].accepted ==> strategy != null && strategy.lastRun == inp.ackNow
    {
      c := Cycle([], None, 0, Ack(0, 0), []);
      if inp.balances.None? {
        return Some(NoBalances), c;
      }
      if inp.active.None? {
        return Some(OrdersFailed), c;
      }
      var ready;
      ghost var choice, chosen;
      ready, choice, chosen := GetStrategy(inp, inp.active.value.0, inp.active.value.1);
      c := c.(choice := choice, chosen := chosen);
      if !ready {
        return Some(StrategyFailed), c;
      }
      ChosenCanTrade(cfg, inp, old(Current()), chosen, choice);
      ghost var s0 := old(View());
      ghost var sent, draw, a;
      err, sent, draw, a := TradeChosen(inp);
      c := c.(sent := sent, draw := draw, ack := a);
      RunConcat(cfg, s0, choice, c.Traded());
    }

    /** The rest of a cycle, with the strategy at hand. */
    method TradeChosen(inp: Inputs) returns (err: Option<VolumeError>, ghost sent: seq<Submission>, ghost draw: int, ghost a: Ack)
      requires Valid() && inp.Usable(cfg) && inp.active.Some? && strategy != null && strategy.remainingVolume >= cfg.min
      requires Opposite(strategy.orderType, inp.active.value.0, inp.active.value.1) != []
      modifies this`strategy, this`acks, this`trades, this`extras, strategy, submitter
      ensures Valid() && submitter.log == old(submitter.log) + sent
      ensures var c := Cycle([], old(Current()), draw, a, sent);
              && ChosenOk(cfg, step, address, inp, c, err)
              && ValidRun(cfg, old(View()), c.Traded()) && View() == After(cfg, old(View()), c.Traded())
      ensures sent == [] ==> strategy == old(strategy) && Current() == old(Current())
      ensures sent != [] && sent[0].accepted ==> strategy != null && strategy.lastRun == inp.ackNow
    {
      sent, draw, a := [], 0, Ack(0, 0);
      if TooSoon(cfg, strategy.lastRun, inp) {
        err := None;
        return;
      }
      if inp.lastTrade.HistoryFailed? {
        err := Some(HistoryUnknown);
        return;
      }
      if MarketBusy(cfg, address, inp) {
        err := None;
        return;
      }
      var possible, orderAmount, msgs;
      possible, orderAmount, msgs, draw, a := MakeOrder(strategy, inp.active.value.0, inp.active.value.1);
      if !possible || orderAmount <= 0 || |msgs| == 0 {
        err := None;
        return;
      }
      ghost var s0 := View();
      PlannedIsEnabled(cfg, s0, LevelAmount(Opposite(strategy.orderType, inp.active.value.0, inp.active.value.1)), draw, a);
      var ok;
      ghost var e;
      ok, e := SubmitAndAck(orderAmount, msgs, inp.ackNow, a);
      sent := [Creates(msgs, ok)];
      RunSnoc(cfg, s0, [], e);
      assert [] + [e] == [e];
      err := if ok then None else Some(SubmissionFailed);
    }
  }

  /** The budget, read off a maker at any moment of its life. */
  lemma MakerKeepsBudget(v: VolumeMaker)
    requires v.Alive() && v.strategy != null
    ensures v.strategy.remainingVolume >= 0 && v.strategy.remainingVolume == Clamped(v.initial - Sum(v.acks))
    ensures v.cfg.carousel && OverrunsOnce(v.cfg) ==> Sum(v.acks) <= v.initial + (v.cfg.max - v.cfg.min)
    ensures !v.cfg.carousel ==> Sum(v.acks) == v.initial - v.strategy.remainingVolume
  {
    RemainsWhatIsLeft(v.cfg, v.history);
    if !v.cfg.carousel {
      SpreadConserves(v.cfg, v.history);
    } else if OverrunsOnce(v.cfg) {
      CarouselBudget(v.cfg, v.history);
    }
  }
}
