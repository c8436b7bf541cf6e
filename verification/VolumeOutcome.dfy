/** What one cycle of the volume maker does, in terms of the configuration, the answers and
    the submitted batch alone: which strategy it keeps or makes, when it trades, how much,
    with whom, and how it ends. */
module VolumeOutcome {
  import opened Decimals
  import opened Options
  import opened PriceText
  import opened Orders
  import opened StartPrice
  import opened OrderFiller
  import opened VolumeProtocol
  import opened Volume

  /** One of the orders is the whole level: same price text, same type, same amount. */
  predicate IsWhole(orders: seq<Order>, level: AggregatedOrder) {
    exists o :: o in orders && o.price == level.price && o.orderType == level.orderType && o.amount == level.amount
  }

  /** The first level that a strategy of the side trades against is the wallet's own. */
  predicate OwnLevel(side: OrderType, myBuys: seq<Order>, mySells: seq<Order>, buys: seq<AggregatedOrder>, sells: seq<AggregatedOrder>) {
    if side == Buy then sells != [] && IsWhole(mySells, sells[0]) else buys != [] && IsWhole(myBuys, buys[0])
  }

  lemma WholeIsMine(orders: seq<Order>, level: AggregatedOrder)
    ensures IsWhole(orders, level) <==> IsMyOrder(orders, level)
  {
    if IsWhole(orders, level) {
      var o :| o in orders && o.price == level.price && o.orderType == level.orderType && o.amount == level.amount;
      var i :| 0 <= i < |orders| && orders[i] == o;
    }
  }

  lemma OwnLevelIsFirst(side: OrderType, myBuys: seq<Order>, mySells: seq<Order>, buys: seq<AggregatedOrder>, sells: seq<AggregatedOrder>)
    ensures OwnLevel(side, myBuys, mySells, buys, sells)
       <==> OwnsFirst(Opposite(side, myBuys, mySells), Opposite(side, buys, sells))
  {
    if buys != [] {
      WholeIsMine(myBuys, buys[0]);
    }
    if sells != [] {
      WholeIsMine(mySells, sells[0]);
    }
  }

  // ----- keeping and replacing the strategy -----

  /** A strategy is kept exactly when its minimum is left and, for a carousel, the level it
      trades against is the wallet's own. */
  lemma KeepsIff(cfg: VolumeConfig, step: Dec, address: string, inp: Inputs, was: Option<Chosen>, c: Cycle, err: Option<VolumeError>)
    requires cfg.Valid() && CycleOk(cfg, step, address, inp, was, c, err)
    requires inp.balances.Some? && inp.active.Some? && inp.own.Some?
    ensures c.choice == [] <==>
              && was.Some? && cfg.min <= was.value.remaining
              && (cfg.carousel ==>
                    OwnLevel(was.value.side, inp.own.value.0, inp.own.value.1, inp.active.value.0, inp.active.value.1))
    ensures c.choice == [] ==> c.chosen == was
  {
    if was.Some? {
      OwnLevelIsFirst(was.value.side, inp.own.value.0, inp.own.value.1, inp.active.value.0, inp.active.value.1);
    }
  }

  /** Which side a new strategy takes. A side needs a positive balance and a market. A
      carousel that could take either takes the one whose level is its own if only one is,
      and the smaller level, sells last, if neither is. In all other cases the last trade
      decides: sell again after a sell, else buy. */
  function NewSide(cfg: VolumeConfig, inp: Inputs): Option<OrderType>
    requires inp.balances.Some? && inp.active.Some? && inp.own.Some?
  {
    var (base, quote) := inp.balances.value;
    var (buys, sells) := inp.active.value;
    var ownBuy := OwnLevel(Sell, inp.own.value.0, inp.own.value.1, buys, sells);
    var ownSell := OwnLevel(Buy, inp.own.value.0, inp.own.value.1, buys, sells);
    if (base <= 0 || buys == []) && (quote <= 0 || sells == []) then None
    else if base <= 0 || buys == [] then Some(Buy)
    else if quote <= 0 || sells == [] then Some(Sell)
    else if cfg.carousel && ownBuy != ownSell then Some(if ownSell then Buy else Sell)
    else if cfg.carousel && !ownBuy then Some(if sells[0].amount < buys[0].amount then Buy else Sell)
    else Some(if inp.strategyHistory.LastTrade? && inp.strategyHistory.order.orderType == Sell then Sell else Buy)
  }

  /** What replaces a strategy: a new one for that side with five draws' worth of budget, due
      at once, going on with the count; or nothing, without own orders on the other side. */
  lemma ReplacesWith(cfg: VolumeConfig, step: Dec, address: string, inp: Inputs, was: Option<Chosen>, c: Cycle, err: Option<VolumeError>)
    requires cfg.Valid() && CycleOk(cfg, step, address, inp, was, c, err)
    requires inp.balances.Some? && inp.active.Some? && inp.own.Some? && c.choice != []
    ensures var side := NewSide(cfg, inp);
            c.chosen.Some? <==> side.Some? && (if side.value == Buy then inp.own.value.1 else inp.own.value.0) != []
    ensures c.chosen.Some? ==>
              && Some(c.chosen.value.side) == NewSide(cfg, inp) && c.chosen.value.lastRun == -62_135_596_800
              && 5 * cfg.min <= c.chosen.value.remaining <= 5 * cfg.max
              && (cfg.min < cfg.max ==> c.chosen.value.remaining < 5 * cfg.max)
              && c.chosen.value.count == (if was.Some? then was.value.count else 0)
              && c.choice == [Renew(c.chosen.value.remaining)]
    ensures c.chosen.None? ==> c.choice == [Dropped]
  {
    OwnLevelIsFirst(Buy, inp.own.value.0, inp.own.value.1, inp.active.value.0, inp.active.value.1);
    OwnLevelIsFirst(Sell, inp.own.value.0, inp.own.value.1, inp.active.value.0, inp.active.value.1);
  }

  // ----- when and how much -----

  /** The last trade stands in the way: it is recent, or a party of it was somebody else and
      the hold-back has not passed. */
  predicate TradeStandsInTheWay(cfg: VolumeConfig, address: string, inp: Inputs, o: HistoryOrder) {
    || inp.now - o.executedAt < cfg.tradeInterval
    || (!(o.maker == address && o.taker == address) && inp.holdBackNow - o.executedAt < cfg.holdBackSeconds)
  }

  /** How a cycle ends: the first thing that fails or is not yet due decides. */
  lemma EndsWith(cfg: VolumeConfig, step: Dec, address: string, inp: Inputs, was: Option<Chosen>, c: Cycle, err: Option<VolumeError>)
    requires cfg.Valid() && CycleOk(cfg, step, address, inp, was, c, err)
    ensures inp.balances.None? ==> err == Some(NoBalances) && c.sent == []
    ensures inp.balances.Some? && inp.active.None? ==> err == Some(OrdersFailed) && c.sent == []
    ensures inp.balances.Some? && inp.active.Some? && c.chosen.None? ==> err == Some(StrategyFailed) && c.sent == []
    ensures inp.balances.Some? && inp.active.Some? && c.chosen.Some? ==>
              if inp.now - c.chosen.value.lastRun < cfg.tradeInterval then err == None && c.sent == []
              else match inp.lastTrade
                   case HistoryFailed => err == Some(HistoryUnknown) && c.sent == []
                   case NoTrades => err in {None, Some(SubmissionFailed)}
                   case LastTrade(o) =>
                     && err in {None, Some(SubmissionFailed)}
                     && (TradeStandsInTheWay(cfg, address, inp, o) ==> err == None && c.sent == [])
    ensures err == Some(SubmissionFailed) <==> c.sent != [] && !c.sent[0].accepted
    ensures |c.sent| <= 1
  {
  }

  /** The price of a spread trade: one step inside the better side for the strategy. */
  function InnerPrice(side: OrderType, buys: seq<AggregatedOrder>, sells: seq<AggregatedOrder>, step: Dec): Dec
    requires buys != [] && sells != []
  {
    if side == Buy then PriceOf(sells[0].price) - step else PriceOf(buys[0].price) + step
  }

  /** A batch is sent exactly when all queries answer, a strategy is there and due, no trade
      stands in the way, and the amount and the price come out right. */
  lemma TradesIff(cfg: VolumeConfig, step: Dec, address: string, inp: Inputs, was: Option<Chosen>, c: Cycle, err: Option<VolumeError>)
    requires cfg.Valid() && inp.Usable(cfg) && CycleOk(cfg, step, address, inp, was, c, err)
    ensures c.sent != [] <==>
              && inp.balances.Some? && inp.active.Some? && inp.own.Some? && c.chosen.Some?
              && cfg.tradeInterval <= inp.now - c.chosen.value.lastRun
              && inp.lastTrade != HistoryFailed
              && (inp.lastTrade.LastTrade? ==> !TradeStandsInTheWay(cfg, address, inp, inp.lastTrade.order))
              && c.draw > 0 && (c.chosen.value.remaining > 0 || (cfg.carousel && c.ack.extra > 0))
              && var (buys, sells) := inp.active.value;
                 if cfg.carousel then (if c.chosen.value.side == Buy then sells else buys)[0].amount > 0
                 else
                   var p := InnerPrice(c.chosen.value.side, buys, sells, step);
                   0 < p && PriceOf(buys[0].price) <= p <= PriceOf(sells[0].price)
  {
    if inp.balances.Some? && inp.active.Some? && c.chosen.Some? {
      ChosenCanTrade(cfg, inp, was, c.chosen, c.choice);
    }
    SendsIff(cfg, step, address, inp, was, c, err);
  }

  /** The amount of a trade: the draw, cut to the level of a carousel and to what remains,
      the latter not when a carousel adds extra volume. */
  lemma TradeAmount(cfg: VolumeConfig, step: Dec, address: string, inp: Inputs, was: Option<Chosen>, c: Cycle, err: Option<VolumeError>)
    requires cfg.Valid() && inp.Usable(cfg) && CycleOk(cfg, step, address, inp, was, c, err) && c.sent != []
    ensures cfg.min <= c.draw <= cfg.max && (cfg.min < cfg.max ==> c.draw < cfg.max)
    ensures var kept := if (cfg.carousel && c.ack.extra > 0) || c.draw <= c.chosen.value.remaining then c.draw else c.chosen.value.remaining;
            var (buys, sells) := inp.active.value;
            if cfg.carousel then
              var level := (if c.chosen.value.side == Buy then sells else buys)[0].amount;
              c.ack.amount == if kept <= level then kept else level
            else c.ack.amount == kept
    ensures if cfg.extraMax > 0 && c.chosen.value.count > 0 && c.chosen.value.count % cfg.extraEvery == 0
            then cfg.extraMin <= c.ack.extra <= cfg.extraMax && (cfg.extraMin < cfg.extraMax ==> c.ack.extra < cfg.extraMax)
            else c.ack.extra == 0
  {
    var s := c.chosen.value;
    ChosenCanTrade(cfg, inp, was, c.chosen, c.choice);
    var level := LevelAmount(Opposite(s.side, inp.active.value.0, inp.active.value.1));
    var caps := Caps(cfg, s.remaining, level, c.draw, c.ack.extra);
    assert Planned(cfg, s.remaining, s.count, level, c.draw, c.ack);
    assert c.draw in caps;
    assert cfg.carousel ==> level in caps;
    assert !(cfg.carousel && c.ack.extra > 0) ==> s.remaining in caps;
  }

  // ----- what the messages achieve -----

  /** The volume that the messages offer on one side. */
  function VolumeOf(side: OrderType, msgs: seq<CreateMsg>): int {
    if msgs == [] then 0
    else (if msgs[0].orderType == side then msgs[0].amount else 0) + VolumeOf(side, msgs[1..])
  }

  /** A carousel's batch: one order of the strategy's side, at the level's own price, that
      the level and the extra volume put beside it fill completely; the level keeps the rest,
      which is not negative. */
  lemma CarouselBatch(cfg: VolumeConfig, step: Dec, address: string, inp: Inputs, was: Option<Chosen>, c: Cycle, err: Option<VolumeError>)
    requires cfg.Valid() && inp.Usable(cfg) && CycleOk(cfg, step, address, inp, was, c, err)
    requires c.sent != [] && cfg.carousel
    requires SortedSide(Buy, inp.active.value.0) && SortedSide(Sell, inp.active.value.1)
    ensures var side := c.chosen.value.side;
            var level := if side == Buy then inp.active.value.1[0] else inp.active.value.0[0];
            var msgs := c.sent[0].creates;
            && (forall i :: 0 <= i < |msgs| ==> msgs[i].price == level.price)
            && VolumeOf(side, msgs) == c.ack.amount + c.ack.extra
            && VolumeOf(TheOtherOrderType(side), msgs) == (if c.ack.extra > 0 then c.ack.extra else 0)
            && level.orderType == TheOtherOrderType(side)
            && (c.ack.extra >= 0 ==>
                  level.amount + VolumeOf(TheOtherOrderType(side), msgs) - VolumeOf(side, msgs) == level.amount - c.ack.amount >= 0)
            && msgs[|msgs| - 1].orderType == side
  {
    ChosenCanTrade(cfg, inp, was, c.chosen, c.choice);
    TradeAmount(cfg, step, address, inp, was, c, err);
    var side := c.chosen.value.side;
    var level := if side == Buy then inp.active.value.1[0] else inp.active.value.0[0];
    assert CarouselMsgs(side, level, c.ack, c.sent[0].creates);
    CarouselVolumes(side, level, c.ack, c.sent[0].creates);
  }

  lemma CarouselVolumes(side: OrderType, level: AggregatedOrder, a: Ack, msgs: seq<CreateMsg>)
    requires CarouselMsgs(side, level, a, msgs) && level.orderType == TheOtherOrderType(side)
    ensures VolumeOf(side, msgs) == a.amount + a.extra
    ensures VolumeOf(TheOtherOrderType(side), msgs) == if a.extra > 0 then a.extra else 0
    ensures forall i :: 0 <= i < |msgs| ==> msgs[i].price == level.price
    ensures msgs != [] && msgs[|msgs| - 1].orderType == side
  {
    var taking := CreateMsg(side, a.amount + a.extra, level.price);
    assert [taking][1..] == [];
    if a.extra > 0 {
      assert msgs == [CreateMsg(level.orderType, a.extra, level.price), taking];
      assert msgs[1..] == [taking];
      assert VolumeOf(side, msgs[1..]) == a.amount + a.extra && VolumeOf(TheOtherOrderType(side), msgs[1..]) == 0;
    } else {
      assert msgs == [taking];
    }
  }

  /** A carousel that keeps its strategy trades with itself only: the order it takes from is
      one whole order of its own, of the other side, at the same price, and large enough. */
  lemma KeptCarouselTradesWithItself(cfg: VolumeConfig, step: Dec, address: string, inp: Inputs, was: Option<Chosen>, c: Cycle, err: Option<VolumeError>)
    returns (own: Order)
    requires cfg.Valid() && inp.Usable(cfg) && CycleOk(cfg, step, address, inp, was, c, err)
    requires cfg.carousel && c.choice == [] && c.sent != []
    requires SortedSide(Buy, inp.active.value.0) && SortedSide(Sell, inp.active.value.1)
    ensures own in (if c.chosen.value.side == Buy then inp.own.value.1 else inp.own.value.0)
    ensures own.orderType == TheOtherOrderType(c.chosen.value.side)
    ensures forall i :: 0 <= i < |c.sent[0].creates| ==> c.sent[0].creates[i].price == own.price
    ensures own.amount == (if c.chosen.value.side == Buy then inp.active.value.1 else inp.active.value.0)[0].amount
    ensures own.amount >= c.ack.amount > 0
  {
    KeepsIff(cfg, step, address, inp, was, c, err);
    CarouselBatch(cfg, step, address, inp, was, c, err);
    TradeAmount(cfg, step, address, inp, was, c, err);
    TradesIff(cfg, step, address, inp, was, c, err);
    var mine := if c.chosen.value.side == Buy then inp.own.value.1 else inp.own.value.0;
    var level := if c.chosen.value.side == Buy then inp.active.value.1[0] else inp.active.value.0[0];
    own :| own in mine && own.price == level.price && own.orderType == level.orderType && own.amount == level.amount;
  }

  lemma SpreadPair(side: OrderType, price: Dec, a: Ack, msgs: seq<CreateMsg>)
    requires SpreadMsgs(side, price, a, msgs)
    ensures |msgs| == 2 && msgs[0].orderType == side && msgs[1].orderType == TheOtherOrderType(side)
    ensures msgs[0].amount == msgs[1].amount == a.amount + a.extra
    ensures forall i :: 0 <= i < 2 ==> Parse(msgs[i].price) == Some(price)
  {
    RenderRoundTrip(price);
  }

  /** A spread batch: the strategy's order first and an equal one of the other side against
      it, both at the price one step inside, so that they fill each other. */
  lemma SpreadBatch(cfg: VolumeConfig, step: Dec, address: string, inp: Inputs, was: Option<Chosen>, c: Cycle, err: Option<VolumeError>)
    requires cfg.Valid() && inp.Usable(cfg) && CycleOk(cfg, step, address, inp, was, c, err)
    requires c.sent != [] && !cfg.carousel
    ensures var side, msgs := c.chosen.value.side, c.sent[0].creates;
            && |msgs| == 2 && msgs[0].orderType == side && msgs[1].orderType == TheOtherOrderType(side)
            && msgs[0].amount == msgs[1].amount == c.ack.amount + c.ack.extra
            && (forall i :: 0 <= i < 2 ==>
                  Parse(msgs[i].price) == Some(InnerPrice(side, inp.active.value.0, inp.active.value.1, step)))
  {
    SpreadPair(c.chosen.value.side, InnerPrice(c.chosen.value.side, inp.active.value.0, inp.active.value.1, step), c.ack,
               c.sent[0].creates);
  }
}
