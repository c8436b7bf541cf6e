/** Runs of the filler, told by what it submits: the books and own orders of the later runs
    are the earlier ones with the price texts of the submitted messages. */
module FillerRuns {
  import opened Decimals
  import opened Options
  import opened PriceText
  import opened Orders
  import opened StartPrice
  import opened Ladder
  import opened OrderFiller
  import opened SpreadMode
  import opened FixedPoint
  import opened CycleRuns

  /** The prices that the messages of some batches denote. */
  function SentPrices(part: seq<Submission>): set<Dec> {
    set s, msg | s in part && s.Creates? && msg in s.creates :: PriceOf(msg.price)
  }

  /** One run of the filler: the answers of its queries, the batches it submitted, how it
      ended. */
  datatype Run = Run(ans: Answers, t: Trace, err: Option<Error>)
  {
    predicate Answered() {
      ans.balancesOk && ans.ownOrders.Some? && ans.activeOrders.Some?
    }

    /** The market as the run sees it. */
    function Sees(): Market
      requires Answered()
    {
      Market(ans.activeOrders.value.0, ans.activeOrders.value.1,
             OwnPrices(ans.ownOrders.value.0), OwnPrices(ans.ownOrders.value.1))
    }
  }

  predicate RunOf(cfg: OrdersConfig, address: string, r: Run)
    requires cfg.Valid()
  {
    r.Answered() && CycleSubmits(cfg, address, r.ans, r.t, r.err)
  }

  predicate Filled(cfg: OrdersConfig, address: string, r: Run) {
    r.err == None && ShouldFill(cfg, address, r.ans.holdHistory, r.ans.now)
  }

  predicate Took(side: OrderType, book: seq<AggregatedOrder>, part: seq<Submission>, after: seq<AggregatedOrder>) {
    SortedSide(side, after) && Prices(after) == Prices(book) + SentPrices(part)
  }

  /** The next run sees what the run before saw and what it sent, nothing else. */
  predicate SeesSent(r: Run, next: Run)
    requires r.Answered() && next.Answered()
  {
    && Took(Sell, r.Sees().sells, r.t.sells, next.Sees().sells)
    && Took(Buy, r.Sees().buys, r.t.buys, next.Sees().buys)
    && next.Sees().mySells == r.Sees().mySells + SentPrices(r.t.sells)
    && next.Sees().myBuys == r.Sees().myBuys + SentPrices(r.t.buys)
  }

  // ----- what was sent is what the ladder placed -----

  lemma MessagesDenoteRungs(cfg: OrdersConfig, side: OrderType, placed: seq<Dec>, msgs: seq<CreateMsg>)
    requires PlacesLadder(cfg, side, placed, msgs)
    ensures (set msg | msg in msgs :: PriceOf(msg.price)) == PriceSet(placed)
  {
    forall k | 0 <= k < |msgs|
      ensures PriceOf(msgs[k].price) == placed[k]
    {
      assert PlacesRung(cfg, side, placed[k], msgs[k]);
      TextRoundTrip(placed[k]);
    }
    forall q | q in placed
      ensures exists msg :: msg in msgs && PriceOf(msg.price) == q
    {
      var k :| 0 <= k < |placed| && placed[k] == q;
      assert msgs[k] in msgs;
    }
  }

  lemma SentIsPlaced(cfg: OrdersConfig, side: OrderType, l: Ladder, part: seq<Submission>)
    requires SideSubmits(cfg, side, l, part, true)
    ensures SentPrices(part) == PriceSet(PlacedPrices(l.rungs))
  {
    var placed := PlacedPrices(l.rungs);
    if placed != [] {
      MessagesDenoteRungs(cfg, side, placed, part[0].creates);
      assert part == [part[0]];
    }
  }

  /** What a run sent are the ladders from its start price, if it filled. */
  lemma FilledSends(cfg: OrdersConfig, address: string, r: Run)
    requires cfg.Valid() && RunOf(cfg, address, r) && Filled(cfg, address, r)
    ensures SentPrices(r.t.sells) == PriceSet(NewSells(cfg, r.ans.startHistory, r.Sees()))
    ensures SentPrices(r.t.buys) == PriceSet(NewBuys(cfg, r.ans.startHistory, r.Sees()))
  {
    var m, p := r.Sees(), Start(cfg, r.ans.startHistory, r.Sees());
    SentIsPlaced(cfg, Sell, SellLadder(cfg, m.sells, m.mySells, p), r.t.sells);
    SentIsPlaced(cfg, Buy, BuyLadder(cfg, m.buys, m.myBuys, p), r.t.buys);
  }

  /** A run with nothing to place sends nothing, whether it fills or holds back. */
  lemma NothingSent(cfg: OrdersConfig, address: string, r: Run)
    requires cfg.Valid() && RunOf(cfg, address, r)
    requires SortedSide(Sell, r.Sees().sells) && SortedSide(Buy, r.Sees().buys)
    requires NewSells(cfg, r.ans.startHistory, r.Sees()) == [] && NewBuys(cfg, r.ans.startHistory, r.Sees()) == []
    ensures r.t.sells == [] && r.t.buys == [] && r.err == None
  {
    if ShouldFill(cfg, address, r.ans.holdHistory, r.ans.now) {
      NoRungsNoBatch(cfg, r.Sees(), Start(cfg, r.ans.startHistory, r.Sees()), r.t.sells, r.t.buys, r.err);
    }
  }

  // ----- runs after runs -----

  predicate IsHistory(cfg: OrdersConfig, address: string, runs: seq<Run>)
    requires cfg.Valid()
  {
    && (forall i :: 0 <= i < |runs| ==> RunOf(cfg, address, runs[i]))
    && (forall i :: 0 <= i < |runs| - 1 ==> SeesSent(runs[i], runs[i + 1]))
  }

  /** The first run, filling from a price that the next one finds again. */
  predicate GoodFirst(cfg: OrdersConfig, address: string, r: Run)
    requires cfg.Valid() && r.Answered()
  {
    && Filled(cfg, address, r)
    && Healthy(cfg, r.Sees()) && OwnOrdersOnBook(r.Sees())
    && KeepsStart(cfg, r.Sees(), Start(cfg, r.ans.startHistory, r.Sees()))
  }

  /** The later runs see one market that has nothing left to place. */
  lemma {:induction false} LaterRunsAreDone(cfg: OrdersConfig, address: string, runs: seq<Run>, i: nat)
    requires SpreadConfig(cfg) && IsHistory(cfg, address, runs) && 0 < i < |runs|
    requires GoodFirst(cfg, address, runs[0])
    ensures var r, m := runs[i], runs[i].Sees();
            && SortedSide(Sell, m.sells) && SortedSide(Buy, m.buys)
            && Start(cfg, r.ans.startHistory, m) == Start(cfg, runs[0].ans.startHistory, runs[0].Sees())
            && NewSells(cfg, r.ans.startHistory, m) == [] && NewBuys(cfg, r.ans.startHistory, m) == []
  {
    var before, r := runs[i - 1], runs[i];
    var p := Start(cfg, before.ans.startHistory, before.Sees());
    assert RunOf(cfg, address, before) && SeesSent(before, runs[i - 1 + 1]);
    if i == 1 {
      FilledSends(cfg, address, before);
      SecondCycleIsDone(cfg, before.ans.startHistory, r.ans.startHistory, before.Sees(), r.Sees(), p);
    } else {
      LaterRunsAreDone(cfg, address, runs, i - 1);
      NothingSent(cfg, address, before);
      StandsStill(cfg, before.ans.startHistory, r.ans.startHistory, before.Sees(), r.Sees(), p);
    }
  }

  /** The fixed point, told by what FillOrderBook submits. If the first run fills, ends
      without error and keeps its start price, and each run sees the book and the own orders
      of the run before together with the messages it sent, then no later run creates an
      order, and none fails. */
  lemma OnlyFirstRunCreates(cfg: OrdersConfig, address: string, runs: seq<Run>, i: nat)
    requires SpreadConfig(cfg) && IsHistory(cfg, address, runs) && 0 < i < |runs|
    requires GoodFirst(cfg, address, runs[0])
    ensures runs[i].t.sells == [] && runs[i].t.buys == [] && runs[i].err == None
  {
    LaterRunsAreDone(cfg, address, runs, i);
    NothingSent(cfg, address, runs[i]);
  }
}
