/** Which orders are cancelled when the wallet has too many: the ones farthest from the
    spread. */
module CancelSelection {
  import opened PriceText
  import opened Orders
  import opened StableSorting

  function PriceKey(reverse: bool): Order -> int {
    (o: Order) => if reverse then -PriceOf(o.price) else PriceOf(o.price)
  }

  /** Ascending, or descending when reversed; equal prices keep their order. */
  method SortOrdersByPrice(orders: array<Order>, reverse: bool)
    requires OwnPricesParse(orders[..])
    modifies orders
    ensures orders[..] == StableSort(old(orders[..]), PriceKey(reverse))
  {
    SortStable(orders, PriceKey(reverse));
  }

  /** The orders to cancel on one side, and the ones that stay. */
  function Cancelled(orders: seq<Order>, side: OrderType, keep: nat): (r: seq<Order>)
    ensures |r| == if |orders| > keep then |orders| - keep else 0
  {
    if |orders| > keep then StableSort(orders, PriceKey(side == Sell))[..|orders| - keep] else []
  }

  function Kept(orders: seq<Order>, side: OrderType, keep: nat): (r: seq<Order>)
    ensures |r| == if |orders| > keep then keep else |orders|
  {
    if |orders| > keep then StableSort(orders, PriceKey(side == Sell))[|orders| - keep..] else orders
  }

  /** Cancelled and kept orders are together the wallet's own, each once. */
  lemma CancelPartitions(orders: seq<Order>, side: OrderType, keep: nat)
    ensures multiset(Cancelled(orders, side, keep)) + multiset(Kept(orders, side, keep)) == multiset(orders)
  {
    if |orders| > keep {
      var t := StableSort(orders, PriceKey(side == Sell));
      assert t == Cancelled(orders, side, keep) + Kept(orders, side, keep);
    } else {
      assert Kept(orders, side, keep) == orders;
    }
  }

  /** Every survivor is at least as close to the spread as every cancelled order. */
  lemma SurvivorsAreCloser(orders: seq<Order>, side: OrderType, keep: nat, c: Order, s: Order)
    requires c in Cancelled(orders, side, keep) && s in Kept(orders, side, keep)
    ensures !Before(side, PriceOf(c.price), PriceOf(s.price))
  {
    var key := PriceKey(side == Sell);
    StableSortSorts(orders, key, 0);
    SplitSorted(StableSort(orders, key), key, |orders| - keep, c, s);
    assert key(c) <= key(s);
  }

  predicate DistinctIds(orders: seq<Order>) {
    forall i, j :: 0 <= i < j < |orders| ==> orders[i].id != orders[j].id
  }

  predicate IdNotIn(id: string, orders: seq<Order>) {
    forall i :: 0 <= i < |orders| ==> orders[i].id != id
  }

  lemma {:induction false} InsertKeepsDistinct(s: seq<Order>, x: Order, key: Order -> int)
    requires DistinctIds(s) && IdNotIn(x.id, s)
    ensures DistinctIds(Insert(s, x, key))
  {
    if s != [] && key(s[|s| - 1]) > key(x) {
      var init, y := s[..|s| - 1], s[|s| - 1];
      InsertKeepsDistinct(init, x, key);
      forall z | z in Insert(init, x, key)
        ensures z.id != y.id
      {
        assert z in init || z == x;
      }
    }
  }

  lemma {:induction false} SortKeepsDistinct(s: seq<Order>, key: Order -> int)
    requires DistinctIds(s)
    ensures DistinctIds(StableSort(s, key))
  {
    if s != [] {
      var init, x := s[..|s| - 1], s[|s| - 1];
      SortKeepsDistinct(init, key);
      var t := StableSort(init, key);
      forall i | 0 <= i < |t|
        ensures t[i].id != x.id
      {
        assert t[i] in multiset(t);
        assert t[i] in init;
      }
      InsertKeepsDistinct(t, x, key);
    }
  }

  /** No order is cancelled twice. */
  lemma CancelledOnce(orders: seq<Order>, side: OrderType, keep: nat)
    requires DistinctIds(orders)
    ensures DistinctIds(Cancelled(orders, side, keep))
  {
    SortKeepsDistinct(orders, PriceKey(side == Sell));
  }

  function CancelMsgs(orders: seq<Order>): (msgs: seq<CancelMsg>)
    ensures |msgs| == |orders|
    ensures forall i :: 0 <= i < |orders| ==> msgs[i] == CancelMsg(orders[i].marketId, orders[i].id, orders[i].orderType)
  {
    if orders == [] then []
    else
      var o := orders[|orders| - 1];
      CancelMsgs(orders[..|orders| - 1]) + [CancelMsg(o.marketId, o.id, o.orderType)]
  }

  lemma SortKeepsPrices(orders: seq<Order>, key: Order -> int)
    ensures OwnPricesParse(orders) ==> OwnPricesParse(StableSort(orders, key))
    ensures OwnPrices(StableSort(orders, key)) == OwnPrices(orders)
  {
    var sorted := StableSort(orders, key);
    forall o
      ensures o in sorted <==> o in orders
    {
      assert o in multiset(sorted) <==> o in multiset(orders);
    }
  }
}
