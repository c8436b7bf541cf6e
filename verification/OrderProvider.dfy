/** Reading orders through the cache, by any number of threads at once. */
module OrderProvider {
  import opened Options
  import opened Orders
  import opened CacheProtocol
  import opened MemoryCache

  /** What identifies an order: market, type and id. */
  datatype OrderRef = OrderRef(marketId: string, orderType: string, orderId: string)

  predicate NoUnderscore(s: string) {
    forall i :: 0 <= i < |s| ==> s[i] != '_'
  }

  predicate PlainRef(r: OrderRef) {
    NoUnderscore(r.orderType) && NoUnderscore(r.orderId)
  }

  function OrderKey(r: OrderRef): string {
    "order_" + r.marketId + "_" + r.orderType + "_" + r.orderId
  }

  // ----- the key -----

  /** What follows the last underscore is determined. */
  lemma LastUnderscore(a: string, x: string, b: string, y: string)
    requires NoUnderscore(x) && NoUnderscore(y) && a + "_" + x == b + "_" + y
    ensures a == b && x == y
  {
    var s := a + "_" + x;
    assert s[|a|] == '_' && s[|b|] == '_';
    assert forall i :: |a| < i < |s| ==> s[i] == x[i - |a| - 1];
    assert forall i :: |b| < i < |s| ==> s[i] == y[i - |b| - 1];
    assert |a| == |b|;
    assert a == s[..|a|] && b == s[..|b|];
    assert x == s[|a| + 1..] && y == s[|b| + 1..];
  }

  /** No two orders share a key, as long as type and id contain no underscore; the market
      may be anything. */
  lemma KeyInjective(r: OrderRef, q: OrderRef)
    requires PlainRef(r) && PlainRef(q)
    ensures OrderKey(r) == OrderKey(q) <==> r == q
  {
    if OrderKey(r) == OrderKey(q) {
      var a, b := "order_" + r.marketId, "order_" + q.marketId;
      LastUnderscore(a + "_" + r.orderType, r.orderId, b + "_" + q.orderType, q.orderId);
      LastUnderscore(a, r.orderType, b, q.orderType);
      assert a[|"order_"|..] == r.marketId && b[|"order_"|..] == q.marketId;
    }
  }

  function Underscores(s: string): nat {
    if s == "" then 0 else Underscores(s[..|s| - 1]) + if s[|s| - 1] == '_' then 1 else 0
  }

  lemma {:induction false} UnderscoresConcat(a: string, b: string)
    ensures Underscores(a + b) == Underscores(a) + Underscores(b)
  {
    if b == "" {
      assert a + b == a;
    } else {
      UnderscoresConcat(a, b[..|b| - 1]);
      assert (a + b)[..|a + b| - 1] == a + b[..|b| - 1];
    }
  }

  lemma {:induction false} NoUnderscoreIff(s: string)
    ensures NoUnderscore(s) <==> Underscores(s) == 0
  {
    if s != "" {
      var init := s[..|s| - 1];
      NoUnderscoreIff(init);
      assert s == init + [s[|s| - 1]];
      assert NoUnderscore(s) <==> NoUnderscore(init) && s[|s| - 1] != '_';
    }
  }

  lemma KeyUnderscores(r: OrderRef)
    ensures Underscores(OrderKey(r)) == Underscores("order_") + 2 * Underscores("_")
                                        + Underscores(r.marketId) + Underscores(r.orderType) + Underscores(r.orderId)
  {
    var p := "order_" + r.marketId;
    UnderscoresConcat("order_", r.marketId);
    UnderscoresConcat(p, "_");
    UnderscoresConcat(p + "_", r.orderType);
    UnderscoresConcat(p + "_" + r.orderType, "_");
    UnderscoresConcat(p + "_" + r.orderType + "_", r.orderId);
  }

  /** No order but r has r's key. */
  ghost predicate KeyIsOwn(r: OrderRef) {
    forall q: OrderRef :: OrderKey(q) == OrderKey(r) ==> q == r
  }

  /** Two ways to read one text as market, type and id. */
  lemma KeyReadTwice(a: string, b: string, c: string, d: string)
    ensures OrderKey(OrderRef(a, b, c + "_" + d)) == OrderKey(OrderRef(a + "_" + b, c, d))
    ensures OrderKey(OrderRef(a, b + "_" + c, d)) == OrderKey(OrderRef(a + "_" + b, c, d))
  {
    var text := "order_" + a + "_" + b + "_" + c + "_" + d;
    assert OrderKey(OrderRef(a, b, c + "_" + d)) == text;
    assert OrderKey(OrderRef(a, b + "_" + c, d)) == text;
    assert OrderKey(OrderRef(a + "_" + b, c, d)) == text;
  }

  lemma SplitAtUnderscore(s: string) returns (a: string, b: string)
    requires !NoUnderscore(s)
    ensures s == a + "_" + b
  {
    var i :| 0 <= i < |s| && s[i] == '_';
    a, b := s[..i], s[i + 1..];
  }

  /** An underscore anywhere makes a second order with the same key. */
  lemma KeyTwin(r: OrderRef) returns (q: OrderRef)
    requires !(NoUnderscore(r.marketId) && PlainRef(r))
    ensures OrderKey(q) == OrderKey(r) && q.marketId != r.marketId
  {
    if !NoUnderscore(r.marketId) {
      var a, b := SplitAtUnderscore(r.marketId);
      q := OrderRef(a, b, r.orderType + "_" + r.orderId);
      KeyReadTwice(a, b, r.orderType, r.orderId);
      assert |q.marketId| < |r.marketId|;
    } else if !NoUnderscore(r.orderType) {
      var b, c := SplitAtUnderscore(r.orderType);
      q := OrderRef(r.marketId + "_" + b, c, r.orderId);
      KeyReadTwice(r.marketId, b, c, r.orderId);
      assert |q.marketId| > |r.marketId|;
    } else {
      var c, d := SplitAtUnderscore(r.orderId);
      q := OrderRef(r.marketId + "_" + r.orderType, c, d);
      KeyReadTwice(r.marketId, r.orderType, c, d);
      assert |q.marketId| > |r.marketId|;
    }
  }

  /** A key belongs to one order among all there could be exactly when market, type and id
      are all free of underscores. */
  lemma KeyIsOwnIff(r: OrderRef)
    ensures KeyIsOwn(r) <==> NoUnderscore(r.marketId) && PlainRef(r)
  {
    if NoUnderscore(r.marketId) && PlainRef(r) {
      forall q: OrderRef | OrderKey(q) == OrderKey(r)
        ensures q == r
      {
        KeyUnderscores(q);
        KeyUnderscores(r);
        NoUnderscoreIff(r.marketId);
        NoUnderscoreIff(r.orderType);
        NoUnderscoreIff(r.orderId);
        NoUnderscoreIff(q.orderType);
        NoUnderscoreIff(q.orderId);
        KeyInjective(q, r);
      }
    } else {
      var q := KeyTwin(r);
    }
  }

  // ----- the interleavings -----

  /** Where one call of GetCachedOrder stands. */
  datatype Call = Missed(ref: OrderRef) | Fetched(ref: OrderRef, order: Order)

  /** The cache, the calls under way, and every answer the chain has given. */
  datatype State = State(cache: Cache<Order>, calls: map<nat, Call>, answers: set<(OrderRef, Order)>)

  datatype Step = Lookup(thread: nat, ref: OrderRef)
                | Fetch(thread: nat, order: Order) | FetchFails(thread: nat)
                | Store(thread: nat)
                | Timer(event: Event<Order>)

  predicate CanStep(s: State, e: Step) {
    && TimersExist(s.cache)
    && match e
       case Lookup(t, r) => t !in s.calls && PlainRef(r)
       case Fetch(t, _) => t in s.calls && s.calls[t].Missed?
       case FetchFails(t) => t in s.calls && s.calls[t].Missed?
       case Store(t) => t in s.calls && s.calls[t].Fetched?
       case Timer(x) => !x.Set? && Enabled(s.cache, x)
  }

  function NextState(s: State, e: Step): State
    requires CanStep(s, e)
  {
    match e
    case Lookup(t, r) => if OrderKey(r) in s.cache.entries then s else s.(calls := s.calls[t := Missed(r)])
    case Fetch(t, o) => s.(calls := s.calls[t := Fetched(s.calls[t].ref, o)], answers := s.answers + {(s.calls[t].ref, o)})
    case FetchFails(t) => s.(calls := s.calls - {t})
    case Store(t) => State(Apply(s.cache, Event<Order>.Set(OrderKey(s.calls[t].ref), s.calls[t].order)), s.calls - {t}, s.answers)
    case Timer(x) => s.(cache := Apply(s.cache, x))
  }

  /** What the call answers in this step, if it ends here. */
  function Answer(s: State, e: Step): Option<(OrderRef, Order)>
    requires CanStep(s, e)
  {
    match e
    case Lookup(t, r) =>
      var hit := Get(s.cache, OrderKey(r));
      if hit.Some? then Some((r, hit.value)) else None
    case Store(t) => Some((s.calls[t].ref, s.calls[t].order))
    case _ => None
  }

  ghost predicate FromChain(s: State, k: string, o: Order) {
    exists r :: PlainRef(r) && OrderKey(r) == k && (r, o) in s.answers
  }

  ghost predicate Inv(s: State) {
    && OwnTimersPending(s.cache) && TimersExist(s.cache)
    && (forall k :: k in s.cache.entries ==> FromChain(s, k, s.cache.entries[k].data))
    && (forall t :: t in s.calls ==> PlainRef(s.calls[t].ref) && (s.calls[t].Fetched? ==> (s.calls[t].ref, s.calls[t].order) in s.answers))
  }

  lemma FromChainGrows(s: State, s': State, k: string, o: Order)
    requires FromChain(s, k, o) && s.answers <= s'.answers
    ensures FromChain(s', k, o)
  {
    var r :| PlainRef(r) && OrderKey(r) == k && (r, o) in s.answers;
    assert (r, o) in s'.answers;
  }

  lemma StepKeepsInv(s: State, e: Step)
    requires Inv(s) && CanStep(s, e)
    ensures Inv(NextState(s, e)) && s.answers <= NextState(s, e).answers
  {
    var s' := NextState(s, e);
    if e.Store? {
      StepKeepsTimers(s.cache, Event<Order>.Set(OrderKey(s.calls[e.thread].ref), s.calls[e.thread].order));
    } else if e.Timer? {
      StepKeepsTimers(s.cache, e.event);
    }
    forall k | k in s'.cache.entries
      ensures FromChain(s', k, s'.cache.entries[k].data)
    {
      if k in s.cache.entries && s'.cache.entries[k] == s.cache.entries[k] {
        FromChainGrows(s, s', k, s.cache.entries[k].data);
      } else {
        var c := s.calls[e.thread];
        assert PlainRef(c.ref) && OrderKey(c.ref) == k && (c.ref, c.order) in s'.answers;
      }
    }
  }

  predicate ValidRun(s: State, steps: seq<Step>)
    decreases |steps|
  {
    steps == [] || (CanStep(s, steps[0]) && ValidRun(NextState(s, steps[0]), steps[1..]))
  }

  function After(s: State, steps: seq<Step>): State
    requires ValidRun(s, steps)
    decreases |steps|
  {
    if steps == [] then s else After(NextState(s, steps[0]), steps[1..])
  }

  function Initial(): State {
    State(EmptyCache<Order>(), map[], {})
  }

  lemma {:induction false} RunKeepsInv(s: State, steps: seq<Step>)
    requires Inv(s) && ValidRun(s, steps)
    ensures Inv(After(s, steps))
    decreases |steps|
  {
    if steps != [] {
      StepKeepsInv(s, steps[0]);
      RunKeepsInv(NextState(s, steps[0]), steps[1..]);
    }
  }

  /** Over every interleaving: an order that is returned for a market, type and id is one
      the chain returned for exactly these. A hit's cache timer has not run yet. */
  lemma ReadThroughAgrees(steps: seq<Step>, e: Step)
    requires ValidRun(Initial(), steps) && CanStep(After(Initial(), steps), e)
    requires Answer(After(Initial(), steps), e).Some?
    ensures var s := After(Initial(), steps);
            && Answer(s, e).value in s.answers
            && (e.Lookup? ==>
                  var entry := s.cache.entries[OrderKey(e.ref)];
                  entry.timer < |s.cache.timers| && !s.cache.timers[entry.timer].Done?)
  {
    RunKeepsInv(Initial(), steps);
    var s := After(Initial(), steps);
    if e.Lookup? {
      var k := OrderKey(e.ref);
      assert FromChain(s, k, s.cache.entries[k].data);
      var r :| PlainRef(r) && OrderKey(r) == k && (r, s.cache.entries[k].data) in s.answers;
      KeyInjective(r, e.ref);
    }
  }

  // ----- one call, as the code runs it -----

  class OrderDataProvider {
    const cache: InMemoryCache<Order>

    constructor (cache: InMemoryCache<Order>)
      ensures this.cache == cache
    {
      this.cache := cache;
    }

    /** The chain's answer for one order; None is a query error. */
    method GetOrder(ref: OrderRef, chain: OrderRef -> Option<Order>) returns (order: Option<Order>)
      ensures order == chain(ref)
    {
      order := chain(ref);
    }

    /** A hit answers from the cache and changes nothing; a miss answers what the chain says
        for that very order and leaves it in the cache under the order's key; an error leaves
        the cache alone. */
    method GetCachedOrder(ref: OrderRef, chain: OrderRef -> Option<Order>) returns (order: Option<Order>)
      requires cache.Valid()
      modifies cache
      ensures cache.Valid()
      ensures var k := OrderKey(ref);
              if k in old(cache.cache) then order == Some(old(cache.cache)[k].data) && cache.View() == old(cache.View())
              else order == chain(ref) && cache.View() == (if order.None? then old(cache.View())
                                                           else Apply(old(cache.View()), Event<Order>.Set(k, order.value)))
    {
      var key := OrderKey(ref);
      var data := cache.Get(key);
      if data.Some? {
        return data;
      }
      order := GetOrder(ref, chain);
      if order.Some? {
        cache.Set(key, order.value);
      }
    }
  }
}
