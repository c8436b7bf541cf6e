/** The market's orders as the queries return them, and the random amounts. */
module Orders {
  import opened Decimals
  import opened PriceText

  datatype OrderType = Buy | Sell

  /** One price level of the public book. */
  datatype AggregatedOrder = AggregatedOrder(orderType: OrderType, amount: int, price: string)

  /** One order of the wallet. */
  datatype Order = Order(id: string, marketId: string, orderType: OrderType, amount: int, price: string)

  datatype CreateMsg = CreateMsg(orderType: OrderType, amount: int, price: string)

  datatype CancelMsg = CancelMsg(marketId: string, orderId: string, orderType: OrderType)

  function TheOtherOrderType(t: OrderType): (r: OrderType)
    ensures r != t
  {
    if t.Buy? then Sell else Buy
  }

  /** LegacyMustNewDecFromStr panics on text that is not a decimal. */
  predicate PricesParse(book: seq<AggregatedOrder>) {
    forall o :: o in book ==> Parse(o.price).Some?
  }

  predicate OwnPricesParse(orders: seq<Order>) {
    forall o :: o in orders ==> Parse(o.price).Some?
  }

  function PriceAt(book: seq<AggregatedOrder>, i: nat): Dec
    requires i < |book|
  {
    PriceOf(book[i].price)
  }

  function Prices(book: seq<AggregatedOrder>): set<Dec> {
    set o | o in book :: PriceOf(o.price)
  }

  function OwnPrices(orders: seq<Order>): set<Dec> {
    set o | o in orders :: PriceOf(o.price)
  }

  /** A price d ahead of p on the given side: away from the spread. */
  function Move(side: OrderType, p: Dec, d: int): Dec {
    if side.Buy? then p - d else p + d
  }

  /** a is strictly nearer the spread than b. */
  predicate Before(side: OrderType, a: Dec, b: Dec) {
    if side.Buy? then a > b else a < b
  }

  /** One order type, and sorted away from the spread, as the aggregated query asks:
      sells ascending, buys (queried in reverse) descending. */
  predicate SortedSide(side: OrderType, book: seq<AggregatedOrder>)
  {
    && (forall i :: 0 <= i < |book| ==> book[i].orderType == side)
    && (forall i, j :: 0 <= i < j < |book| ==> !Before(side, PriceAt(book, j), PriceAt(book, i)))
  }

  /** A number in [min, max), or min itself when the range is empty. The source value
      stands for the random generator: any natural number. */
  function MustRandomInt(min: int, max: int, source: nat): (r: int)
    requires min <= max
    ensures min <= r <= max && (min < max ==> r < max)
  {
    if min == max then min else min + source % (max - min)
  }

  /** Every value of the range can be drawn. */
  lemma EveryValueIsDrawn(min: int, max: int, r: int)
    requires min <= r < max
    ensures MustRandomInt(min, max, r - min) == r
  {
  }

  lemma PricesSplit(book: seq<AggregatedOrder>)
    requires book != []
    ensures Prices(book) == {PriceAt(book, 0)} + Prices(book[1..])
  {
    assert forall o :: o in book <==> o == book[0] || o in book[1..];
  }

  lemma InPrices(book: seq<AggregatedOrder>, p: Dec)
    ensures p in Prices(book) <==> exists i :: 0 <= i < |book| && PriceAt(book, i) == p
  {
    if p in Prices(book) {
      var o :| o in book && PriceOf(o.price) == p;
      var i :| 0 <= i < |book| && book[i] == o;
      assert PriceAt(book, i) == p;
    }
  }

  lemma OwnPricesSnoc(orders: seq<Order>, n: nat)
    requires n < |orders|
    ensures OwnPrices(orders[..n + 1]) == OwnPrices(orders[..n]) + {PriceOf(orders[n].price)}
  {
    assert forall o :: o in orders[..n + 1] <==> o in orders[..n] || o == orders[n];
  }

  function Texts(prices: set<Dec>): set<string> {
    set d | d in prices :: Text(d)
  }

  lemma TextsAreNumeric(prices: set<Dec>, d: Dec)
    ensures Text(d) in Texts(prices) <==> d in prices
  {
    if Text(d) in Texts(prices) {
      var e :| e in prices && Text(d) == Text(e);
      TextInjective(d, e);
    }
  }

  /** The canonical texts of the wallet's own prices: looking a price up by its text is
      looking it up by its value. */
  method BuildPricesMap(orders: seq<Order>) returns (prices: set<string>)
    requires OwnPricesParse(orders)
    ensures prices == Texts(OwnPrices(orders))
    ensures forall d: Dec :: Text(d) in prices <==> d in OwnPrices(orders)
  {
    prices := {};
    for i := 0 to |orders|
      invariant prices == Texts(OwnPrices(orders[..i]))
    {
      OwnPricesSnoc(orders, i);
      var orderPriceDec := PriceOf(orders[i].price);
      prices := prices + {Text(orderPriceDec)};
    }
    assert orders[..|orders|] == orders;
    forall d: Dec
      ensures Text(d) in prices <==> d in OwnPrices(orders)
    {
      TextsAreNumeric(OwnPrices(orders), d);
    }
  }
}
