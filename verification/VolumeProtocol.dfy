/** The volume maker's strategies over whole runs: budgets, replacement, extra trades. */
module VolumeProtocol {
  import opened Decimals
  import opened Options

  const VOLUME_MUL: int := 5

  datatype VolumeConfig = VolumeConfig(min: int, max: int, extraMin: int, extraMax: int, extraEvery: int, carousel: bool,
                                       tradeInterval: int, holdBackSeconds: int)
  {
    /** Validated configuration; whole minimum volumes can still be zero. Extra bounds are
        only drawn from when the upper one is positive. */
    predicate Valid() {
      0 <= min <= max && extraEvery > 0 && (extraMax > 0 ==> extraMin <= extraMax)
    }

    /** Some draw of the extra amount is positive. */
    predicate CanDrawExtra() {
      extraMax > 0 && (extraMin == extraMax || extraMax >= 2)
    }
  }

  /** One acknowledged trade. */
  datatype Ack = Ack(amount: int, extra: int)

  /** A strategy with its history: the first budget and what was acknowledged on it. */
  datatype Strategy = Strategy(initial: int, remaining: int, count: nat, acks: seq<Ack>)

  /** All trades ever made, and how many of them carried extra volume. */
  datatype State = State(strategy: Option<Strategy>, trades: nat, extras: nat)

  datatype Event = Renew(budget: int)   // created, or replaced: the count goes on
                 | Dropped              // creation or submission failed
                 | Trade(ack: Ack)

  /** Every draw of MustRandomInt(lo, hi). */
  predicate Drawable(lo: int, hi: int, r: int) {
    lo <= r <= hi && (lo < hi ==> r < hi)
  }

  predicate ExtraSlot(cfg: VolumeConfig, count: nat)
    requires cfg.extraEvery > 0
  {
    cfg.extraMax > 0 && count > 0 && count % cfg.extraEvery == 0
  }

  predicate ExtraDrawn(cfg: VolumeConfig, count: nat, extra: int)
    requires cfg.extraEvery > 0
  {
    if ExtraSlot(cfg, count) then Drawable(cfg.extraMin, cfg.extraMax, extra) else extra == 0
  }

  /** At most some draw from [min, max]. */
  predicate UpToDraw(cfg: VolumeConfig, amount: int) {
    amount <= cfg.max && (cfg.min < cfg.max ==> amount < cfg.max)
  }

  predicate Enabled(cfg: VolumeConfig, s: State, e: Event)
    requires cfg.Valid()
  {
    match e
    case Renew(b) => Drawable(VOLUME_MUL * cfg.min, VOLUME_MUL * cfg.max, b)
    case Dropped => true
    case Trade(a) =>
      && s.strategy.Some? && s.strategy.value.remaining >= cfg.min
      && a.amount > 0 && UpToDraw(cfg, a.amount)
      && ExtraDrawn(cfg, s.strategy.value.count, a.extra)
      && (!cfg.carousel || a.extra <= 0 ==> a.amount <= s.strategy.value.remaining)
      && (!cfg.carousel ==> a.amount >= cfg.min)
  }

  function Clamped(x: int): int {
    if x > 0 then x else 0
  }

  function Apply(s: State, e: Event): State
    requires e.Trade? ==> s.strategy.Some?
  {
    match e
    case Renew(b) => s.(strategy := Some(Strategy(b, b, if s.strategy.Some? then s.strategy.value.count else 0, [])))
    case Dropped => s.(strategy := None)
    case Trade(a) =>
      var t := s.strategy.value;
      State(Some(Strategy(t.initial, Clamped(t.remaining - a.amount), t.count + 1, t.acks + [a])),
            s.trades + 1, s.extras + if a.extra > 0 then 1 else 0)
  }

  predicate ValidRun(cfg: VolumeConfig, s: State, events: seq<Event>)
    requires cfg.Valid()
    decreases |events|
  {
    events == [] || (Enabled(cfg, s, events[0]) && ValidRun(cfg, Apply(s, events[0]), events[1..]))
  }

  function After(cfg: VolumeConfig, s: State, events: seq<Event>): State
    requires cfg.Valid() && ValidRun(cfg, s, events)
    decreases |events|
  {
    if events == [] then s else After(cfg, Apply(s, events[0]), events[1..])
  }

  /** Runs compose: the cycles of a maker's life are one run. */
  lemma {:induction false} RunConcat(cfg: VolumeConfig, s: State, a: seq<Event>, b: seq<Event>)
    requires cfg.Valid() && ValidRun(cfg, s, a) && ValidRun(cfg, After(cfg, s, a), b)
    ensures ValidRun(cfg, s, a + b) && After(cfg, s, a + b) == After(cfg, After(cfg, s, a), b)
    decreases |a|
  {
    if a == [] {
      assert a + b == b;
    } else {
      assert (a + b)[1..] == a[1..] + b;
      RunConcat(cfg, Apply(s, a[0]), a[1..], b);
    }
  }

  lemma RunSnoc(cfg: VolumeConfig, s: State, events: seq<Event>, e: Event)
    requires cfg.Valid() && ValidRun(cfg, s, events) && Enabled(cfg, After(cfg, s, events), e)
    ensures ValidRun(cfg, s, events + [e]) && After(cfg, s, events + [e]) == Apply(After(cfg, s, events), e)
  {
    var t := After(cfg, s, events);
    assert [e][1..] == [];
    assert ValidRun(cfg, Apply(t, e), []) && After(cfg, Apply(t, e), []) == Apply(t, e);
    assert ValidRun(cfg, t, [e]) && After(cfg, t, [e]) == Apply(t, e);
    RunConcat(cfg, s, events, [e]);
  }

  function Initial(): State {
    State(None, 0, 0)
  }

  function Sum(acks: seq<Ack>): int {
    if acks == [] then 0 else Sum(acks[..|acks| - 1]) + acks[|acks| - 1].amount
  }

  lemma SumSnoc(acks: seq<Ack>, a: Ack)
    ensures Sum(acks + [a]) == Sum(acks) + a.amount
  {
    assert (acks + [a])[..|acks|] == acks;
  }

  // ----- one strategy's budget -----

  /** While the acknowledged volume fits the first budget, the rest is what remains. What
      goes beyond came from one extra trade, and then nothing remains. */
  predicate BudgetOk(cfg: VolumeConfig, t: Strategy)
    requires cfg.Valid()
  {
    var sum := Sum(t.acks);
    && t.initial >= VOLUME_MUL * cfg.min && t.remaining >= 0
    && (sum <= t.initial ==> t.remaining == t.initial - sum)
    && (sum > t.initial ==>
          && t.remaining == 0 && cfg.carousel && sum <= t.initial + (cfg.max - cfg.min)
          && cfg.CanDrawExtra() && (cfg.min > 0 || cfg.max >= 2)
          && t.count >= 2 && (t.count - 1) % cfg.extraEvery == 0)
  }

  /** Under which configurations a strategy overruns its budget at most once. */
  predicate OverrunsOnce(cfg: VolumeConfig) {
    cfg.min > 0 || cfg.extraEvery != 1 || cfg.max < 2 || !cfg.CanDrawExtra()
  }

  predicate StateOk(cfg: VolumeConfig, s: State)
    requires cfg.Valid()
  {
    s.strategy.Some? ==> BudgetOk(cfg, s.strategy.value)
  }

  lemma NextCountIsNoSlot(count: nat, every: int)
    requires every > 1 && count >= 1 && (count - 1) % every == 0
    ensures count % every != 0
  {
    DivUnique(count, every, (count - 1) / every);
  }

  lemma StepKeepsBudget(cfg: VolumeConfig, s: State, e: Event)
    requires cfg.Valid() && OverrunsOnce(cfg) && StateOk(cfg, s) && Enabled(cfg, s, e)
    ensures StateOk(cfg, Apply(s, e))
  {
    if e.Trade? {
      var t := s.strategy.value;
      SumSnoc(t.acks, e.ack);
      if Sum(t.acks) > t.initial && cfg.extraEvery > 1 {
        NextCountIsNoSlot(t.count, cfg.extraEvery);
      }
    }
  }

  lemma {:induction false} RunKeepsBudget(cfg: VolumeConfig, s: State, events: seq<Event>)
    requires cfg.Valid() && OverrunsOnce(cfg) && StateOk(cfg, s) && ValidRun(cfg, s, events)
    ensures StateOk(cfg, After(cfg, s, events))
    decreases |events|
  {
    if events != [] {
      StepKeepsBudget(cfg, s, events[0]);
      RunKeepsBudget(cfg, Apply(s, events[0]), events[1..]);
    }
  }

  /** Carousel budget, over every run: what a strategy acknowledges is at most its first
      budget and one draw's width; the remaining amount never is negative. */
  lemma CarouselBudget(cfg: VolumeConfig, events: seq<Event>)
    requires cfg.Valid() && OverrunsOnce(cfg) && ValidRun(cfg, Initial(), events)
    requires After(cfg, Initial(), events).strategy.Some?
    ensures var t := After(cfg, Initial(), events).strategy.value;
            t.remaining >= 0 && Sum(t.acks) <= t.initial + (cfg.max - cfg.min)
  {
    RunKeepsBudget(cfg, Initial(), events);
  }

  /** A trade beyond what remains is an extra trade of a carousel. With a positive minimum
      the strategy is then spent: nothing but its replacement can follow on it. */
  lemma OverrunIsLast(cfg: VolumeConfig, s: State, a: Ack, next: Ack)
    requires cfg.Valid() && Enabled(cfg, s, Trade(a)) && a.amount > s.strategy.value.remaining
    ensures cfg.carousel && a.extra > 0 && ExtraSlot(cfg, s.strategy.value.count)
    ensures cfg.min > 0 ==> !Enabled(cfg, Apply(s, Trade(a)), Trade(next))
  {
  }

  // ----- what remains, under every configuration -----

  /** The first budget less what was acknowledged, or nothing. */
  predicate RemainsOk(s: State) {
    s.strategy.Some? ==>
      var t := s.strategy.value;
      t.initial >= 0 && t.remaining == Clamped(t.initial - Sum(t.acks))
  }

  lemma {:induction false} RunKeepsRemains(cfg: VolumeConfig, s: State, events: seq<Event>)
    requires cfg.Valid() && RemainsOk(s) && ValidRun(cfg, s, events)
    ensures RemainsOk(After(cfg, s, events))
    decreases |events|
  {
    if events != [] {
      if events[0].Trade? {
        SumSnoc(s.strategy.value.acks, events[0].ack);
      }
      RunKeepsRemains(cfg, Apply(s, events[0]), events[1..]);
    }
  }

  /** Over every run and for every configuration: clamping at each trade is clamping once,
      so what remains is what the acknowledged volume leaves, and never negative. */
  lemma RemainsWhatIsLeft(cfg: VolumeConfig, events: seq<Event>)
    requires cfg.Valid() && ValidRun(cfg, Initial(), events)
    requires After(cfg, Initial(), events).strategy.Some?
    ensures var t := After(cfg, Initial(), events).strategy.value;
            t.remaining == if Sum(t.acks) < t.initial then t.initial - Sum(t.acks) else 0
  {
    RunKeepsRemains(cfg, Initial(), events);
  }

  predicate TradesOnly(events: seq<Event>) {
    forall i :: 0 <= i < |events| ==> events[i].Trade?
  }

  lemma {:induction false} TradesSpend(cfg: VolumeConfig, s: State, events: seq<Event>)
    requires cfg.Valid() && s.strategy.Some? && s.strategy.value.remaining >= 0
    requires ValidRun(cfg, s, events) && TradesOnly(events)
    ensures var t, r := s.strategy.value, After(cfg, s, events).strategy;
            && r.Some? && r.value.initial == t.initial && 0 <= r.value.remaining <= t.remaining
            && (events != [] && t.remaining > 0 ==> r.value.remaining < t.remaining)
    decreases |events|
  {
    if events != [] {
      assert events[0].Trade?;
      TradesSpend(cfg, Apply(s, events[0]), events[1..]);
    }
  }

  /** While a strategy lives, what remains never grows, and shrinks with every trade until
      nothing is left; under every configuration and from every state a run can reach. */
  lemma TradesOnlySpend(cfg: VolumeConfig, past: seq<Event>, events: seq<Event>)
    requires cfg.Valid() && ValidRun(cfg, Initial(), past)
    requires ValidRun(cfg, After(cfg, Initial(), past), events) && TradesOnly(events)
    requires After(cfg, Initial(), past).strategy.Some?
    ensures var s, r := After(cfg, Initial(), past), After(cfg, After(cfg, Initial(), past), events);
            && r.strategy.Some? && r.strategy.value.initial == s.strategy.value.initial
            && 0 <= r.strategy.value.remaining <= s.strategy.value.remaining
            && (events != [] && s.strategy.value.remaining > 0 ==> r.strategy.value.remaining < s.strategy.value.remaining)
  {
    RunKeepsRemains(cfg, Initial(), past);
    TradesSpend(cfg, After(cfg, Initial(), past), events);
  }

  // ----- the configuration that overruns without end -----

  function Overrun(cfg: VolumeConfig, n: nat): seq<Event> {
    var a := Ack(1, if cfg.extraMin == cfg.extraMax then cfg.extraMax else cfg.extraMax - 1);
    [Renew(1), Trade(Ack(1, 0))] + seq(n, _ => Trade(a))
  }

  /** Otherwise the bound fails, by any margin: with a minimum of zero and an extra trade
      every time, the spent strategy is kept and every extra trade overruns it. */
  lemma {:induction false} OverrunsWithoutEnd(cfg: VolumeConfig, n: nat)
    requires cfg.Valid() && !OverrunsOnce(cfg) && cfg.carousel
    ensures ValidRun(cfg, Initial(), Overrun(cfg, n))
    ensures var t := After(cfg, Initial(), Overrun(cfg, n)).strategy;
            t.Some? && t.value.initial == 1 && t.value.remaining == 0 && t.value.count == n + 1 && Sum(t.value.acks) == n + 1
  {
    if n == 0 {
      var first: seq<Event> := [Renew(1)];
      RunSnoc(cfg, Initial(), [], Renew(1));
      assert [] + [Renew(1)] == first;
      RunSnoc(cfg, Initial(), first, Trade(Ack(1, 0)));
      assert first + [Trade(Ack(1, 0))] == Overrun(cfg, 0);
      SumSnoc([], Ack(1, 0));
    } else {
      OverrunsWithoutEnd(cfg, n - 1);
      var a := Ack(1, if cfg.extraMin == cfg.extraMax then cfg.extraMax else cfg.extraMax - 1);
      var t := After(cfg, Initial(), Overrun(cfg, n - 1)).strategy.value;
      RunSnoc(cfg, Initial(), Overrun(cfg, n - 1), Trade(a));
      assert Overrun(cfg, n) == Overrun(cfg, n - 1) + [Trade(a)];
      SumSnoc(t.acks, a);
    }
  }

  ghost predicate BudgetBoundHolds(cfg: VolumeConfig)
    requires cfg.Valid()
  {
    forall events :: ValidRun(cfg, Initial(), events) && After(cfg, Initial(), events).strategy.Some? ==>
      var t := After(cfg, Initial(), events).strategy.value;
      Sum(t.acks) <= t.initial + (cfg.max - cfg.min)
  }

  /** The carousel's bound holds over all runs exactly under these configurations. */
  lemma CarouselBudgetIff(cfg: VolumeConfig)
    requires cfg.Valid() && cfg.carousel
    ensures BudgetBoundHolds(cfg) <==> OverrunsOnce(cfg)
  {
    if OverrunsOnce(cfg) {
      forall events | ValidRun(cfg, Initial(), events) && After(cfg, Initial(), events).strategy.Some?
        ensures var t := After(cfg, Initial(), events).strategy.value;
                Sum(t.acks) <= t.initial + (cfg.max - cfg.min)
      {
        CarouselBudget(cfg, events);
      }
    } else {
      OverrunsWithoutEnd(cfg, cfg.max + 1);
      assert ValidRun(cfg, Initial(), Overrun(cfg, cfg.max + 1));
    }
  }

  // ----- the spread strategy -----

  predicate SpreadOk(cfg: VolumeConfig, t: Strategy) {
    && t.remaining == t.initial - Sum(t.acks) && t.remaining >= 0
    && VOLUME_MUL * cfg.min <= t.initial <= VOLUME_MUL * cfg.max
    && (forall i :: 0 <= i < |t.acks| ==> cfg.min <= t.acks[i].amount <= cfg.max)
    && |t.acks| * cfg.min <= Sum(t.acks)
  }

  lemma StepKeepsSpread(cfg: VolumeConfig, s: State, e: Event)
    requires cfg.Valid() && !cfg.carousel && Enabled(cfg, s, e)
    requires s.strategy.Some? ==> SpreadOk(cfg, s.strategy.value)
    ensures Apply(s, e).strategy.Some? ==> SpreadOk(cfg, Apply(s, e).strategy.value)
    ensures e.Trade? ==> Apply(s, e).strategy.value.remaining == s.strategy.value.remaining - e.ack.amount
  {
    if e.Trade? {
      var t := s.strategy.value;
      SumSnoc(t.acks, e.ack);
      assert (|t.acks| + 1) * cfg.min == |t.acks| * cfg.min + cfg.min;
    }
  }

  lemma {:induction false} RunKeepsSpread(cfg: VolumeConfig, s: State, events: seq<Event>)
    requires cfg.Valid() && !cfg.carousel && ValidRun(cfg, s, events)
    requires s.strategy.Some? ==> SpreadOk(cfg, s.strategy.value)
    ensures After(cfg, s, events).strategy.Some? ==> SpreadOk(cfg, After(cfg, s, events).strategy.value)
    decreases |events|
  {
    if events != [] {
      StepKeepsSpread(cfg, s, events[0]);
      RunKeepsSpread(cfg, Apply(s, events[0]), events[1..]);
    }
  }

  /** Spread budget, over every run: what was acknowledged is exactly what is gone from the
      first budget, each amount within the bounds; so with a positive minimum a strategy
      makes at most initial / min trades. */
  lemma SpreadConserves(cfg: VolumeConfig, events: seq<Event>)
    requires cfg.Valid() && !cfg.carousel && ValidRun(cfg, Initial(), events)
    requires After(cfg, Initial(), events).strategy.Some?
    ensures var t := After(cfg, Initial(), events).strategy.value;
            && Sum(t.acks) == t.initial - t.remaining && t.remaining >= 0
            && 5 * cfg.min <= t.initial <= 5 * cfg.max
            && (forall i :: 0 <= i < |t.acks| ==> cfg.min <= t.acks[i].amount <= cfg.max)
            && (cfg.min > 0 ==> |t.acks| <= t.initial / cfg.min)
  {
    RunKeepsSpread(cfg, Initial(), events);
    var t := After(cfg, Initial(), events).strategy.value;
    if cfg.min > 0 {
      QuotientAtLeast(t.initial, cfg.min, |t.acks|);
    }
  }

  lemma QuotientAtLeast(x: int, d: int, k: nat)
    requires d > 0 && k * d <= x
    ensures k <= x / d
  {
    var e := k - x / d;
    assert e * d == k * d - (x / d) * d;
    MulGrows(e, d);
  }

  // ----- strategies that are kept and cannot trade -----

  /** Some draw of the amount is positive. */
  predicate CanDrawAmount(cfg: VolumeConfig) {
    cfg.max > 0 && (cfg.min == cfg.max || cfg.max >= 2)
  }

  /** A strategy with enough budget to be kept can trade, with some draw, exactly when a
      positive amount can be drawn and either something remains or a carousel can add extra
      volume now. So a spread strategy that spends all under a zero minimum is kept and
      never trades again. */
  lemma CanTradeIff(cfg: VolumeConfig, s: State)
    requires cfg.Valid() && s.strategy.Some? && s.strategy.value.remaining >= cfg.min
    ensures (exists a :: Enabled(cfg, s, Trade(a)))
       <==> CanDrawAmount(cfg) && (|| s.strategy.value.remaining > 0
                                   || (cfg.carousel && ExtraSlot(cfg, s.strategy.value.count) && cfg.CanDrawExtra()))
  {
    var t := s.strategy.value;
    var amount := if cfg.min > 0 then cfg.min else 1;
    var least := if ExtraSlot(cfg, t.count) then cfg.extraMin else 0;
    var most := if cfg.extraMin == cfg.extraMax then cfg.extraMax else cfg.extraMax - 1;
    if CanDrawAmount(cfg) && t.remaining > 0 {
      assert Enabled(cfg, s, Trade(Ack(amount, least)));
    } else if CanDrawAmount(cfg) && cfg.carousel && ExtraSlot(cfg, t.count) && cfg.CanDrawExtra() {
      assert Enabled(cfg, s, Trade(Ack(amount, most)));
    }
  }

  // ----- the cadence of extra trades -----

  predicate NothingDropped(events: seq<Event>) {
    forall i :: 0 <= i < |events| ==> !events[i].Dropped?
  }

  /** Of the first n trades, how many come right after a multiple of the cadence. */
  function ExtrasAmong(n: nat, every: int): int
    requires every > 0
  {
    if n == 0 then 0 else (n - 1) / every
  }

  lemma OneMoreTrade(n: nat, every: int)
    requires every > 0
    ensures ExtrasAmong(n + 1, every) == ExtrasAmong(n, every) + if n > 0 && n % every == 0 then 1 else 0
  {
    if n > 0 {
      var q, r := (n - 1) / every, (n - 1) % every;
      assert n - 1 == q * every + r;
      if r == every - 1 {
        assert n == (q + 1) * every;
        DivUnique(n, every, q + 1);
      } else {
        DivUnique(n, every, q);
      }
    }
  }

  predicate CadenceOk(cfg: VolumeConfig, s: State)
    requires cfg.Valid()
  {
    && (if s.strategy.Some? then s.strategy.value.count == s.trades else s.trades == 0)
    && s.extras == ExtrasAmong(s.trades, cfg.extraEvery)
  }

  lemma {:induction false} RunKeepsCadence(cfg: VolumeConfig, s: State, events: seq<Event>)
    requires cfg.Valid() && cfg.extraMin > 0 && cfg.extraMax > 0
    requires CadenceOk(cfg, s) && ValidRun(cfg, s, events) && NothingDropped(events)
    ensures CadenceOk(cfg, After(cfg, s, events))
    decreases |events|
  {
    if events != [] {
      assert !events[0].Dropped?;
      if events[0].Trade? {
        OneMoreTrade(s.trades, cfg.extraEvery);
      }
      RunKeepsCadence(cfg, Apply(s, events[0]), events[1..]);
    }
  }

  /** The cadence survives replacement: without a failure, the count is the number of all
      trades so far, and exactly (N - 1) / extraEvery of the first N carry extra volume. */
  lemma ExtraCadence(cfg: VolumeConfig, events: seq<Event>)
    requires cfg.Valid() && cfg.extraMin > 0 && cfg.extraMax > 0
    requires ValidRun(cfg, Initial(), events) && NothingDropped(events)
    ensures var s := After(cfg, Initial(), events);
            && (s.strategy.Some? ==> s.strategy.value.count == s.trades)
            && (s.trades >= 1 ==> s.extras == (s.trades - 1) / cfg.extraEvery)
  {
    RunKeepsCadence(cfg, Initial(), events);
  }
}
