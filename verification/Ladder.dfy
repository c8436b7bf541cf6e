/** The order ladder: rungs one step apart, each owned already, on the book already, or
    to be placed. */
module Ladder {
  import opened Decimals
  import opened Orders

  datatype Kind = Owned | OnBook | Placed
  datatype Rung = Rung(price: Dec, kind: Kind)
  datatype Ending = Filled | NonPositive | Mismatch
  datatype Ladder = Ladder(rungs: seq<Rung>, ending: Ending)

  datatype ScanOutcome = Found | Absent | WrongType

  /** What scanning the book for price p meets first: an order of the other type, the
      price itself, or a price beyond it (or the end). */
  function Scan(side: OrderType, book: seq<AggregatedOrder>, p: Dec): ScanOutcome
  {
    if book == [] then Absent
    else if book[0].orderType != side then WrongType
    else if PriceAt(book, 0) == p then Found
    else if Before(side, p, PriceAt(book, 0)) then Absent
    else Scan(side, book[1..], p)
  }

  /** The early exit is exact on a sorted list of one type: it finds p exactly when some
      order has that price. */
  lemma {:induction false} ScanIsMembership(side: OrderType, book: seq<AggregatedOrder>, p: Dec)
    requires SortedSide(side, book)
    ensures Scan(side, book, p) == if p in Prices(book) then Found else Absent
  {
    InPrices(book, p);
    if book != [] && PriceAt(book, 0) != p && !Before(side, p, PriceAt(book, 0)) {
      var rest := book[1..];
      assert forall i :: 0 <= i < |rest| ==> PriceAt(rest, i) == PriceAt(book, i + 1);
      ScanIsMembership(side, rest, p);
      PricesSplit(book);
    }
  }

  lemma {:induction false} FoundIsOnBook(side: OrderType, book: seq<AggregatedOrder>, p: Dec)
    ensures Scan(side, book, p) == Found ==> p in Prices(book)
    ensures Scan(side, book, p) == WrongType ==> exists i :: 0 <= i < |book| && book[i].orderType != side
  {
    if book != [] {
      var rest := book[1..];
      FoundIsOnBook(side, rest, p);
      assert forall i :: 0 <= i < |rest| ==> PriceAt(rest, i) == PriceAt(book, i + 1) && rest[i] == book[i + 1];
    }
  }

  /** The distinct book prices at p or ahead of it. */
  function Ahead(side: OrderType, book: seq<AggregatedOrder>, p: Dec): set<Dec>
  {
    set q | q in Prices(book) && !Before(side, q, p)
  }

  lemma SubsetSize<T>(a: set<T>, b: set<T>)
    requires a <= b
    ensures |a| <= |b|
    ensures a != b ==> |a| < |b|
  {
    assert b == a + (b - a);
    if a != b {
      var x :| x in b && x !in a;
      assert |b - a| > 0;
    }
  }

  /** A rung never brings prices back, and one found on the book uses its price up. */
  lemma AheadShrinks(side: OrderType, book: seq<AggregatedOrder>, p: Dec, step: Dec)
    requires step > 0
    ensures |Ahead(side, book, Move(side, p, step))| <= |Ahead(side, book, p)|
    ensures p in Prices(book) ==> |Ahead(side, book, Move(side, p, step))| < |Ahead(side, book, p)|
  {
    var a, b := Ahead(side, book, Move(side, p, step)), Ahead(side, book, p);
    if p in Prices(book) {
      assert p in b && p !in a;
    }
    SubsetSize(a, b);
  }

  lemma {:induction false} PricesSize(book: seq<AggregatedOrder>)
    ensures |Prices(book)| <= |book|
  {
    if book == [] {
      assert Prices(book) == {};
    } else {
      PricesSize(book[1..]);
      PricesSplit(book);
    }
  }

  /** The ladder from price p that still needs the given number of orders. */
  function Climb(side: OrderType, book: seq<AggregatedOrder>, owned: set<Dec>, step: Dec, p: Dec, needed: int): Ladder
    requires step > 0
    decreases (if needed > 0 then needed else 0) + |Ahead(side, book, p)|
  {
    AheadShrinks(side, book, p, step);
    FoundIsOnBook(side, book, p);
    var next := Move(side, p, step);
    if needed <= 0 then Ladder([], Filled)
    else if p in owned then Prepend(Rung(p, Owned), Climb(side, book, owned, step, next, needed - 1))
    else if Scan(side, book, p) == WrongType then Ladder([], Mismatch)
    else if p <= 0 then Ladder([], NonPositive)
    else if Scan(side, book, p) == Found then Prepend(Rung(p, OnBook), Climb(side, book, owned, step, next, needed))
    else Prepend(Rung(p, Placed), Climb(side, book, owned, step, next, needed - 1))
  }

  function Prepend(r: Rung, l: Ladder): Ladder {
    Ladder([r] + l.rungs, l.ending)
  }

  /** The rungs that count toward the needed number. */
  function Counted(rungs: seq<Rung>): nat {
    if rungs == [] then 0
    else (if rungs[0].kind == OnBook then 0 else 1) + Counted(rungs[1..])
  }

  function PlacedPrices(rungs: seq<Rung>): (s: seq<Dec>)
    ensures |s| <= |rungs|
  {
    if rungs == [] then []
    else (if rungs[0].kind == Placed then [rungs[0].price] else []) + PlacedPrices(rungs[1..])
  }

  // ----- what a ladder is, stated without the climb -----

  function KindOf(side: OrderType, book: seq<AggregatedOrder>, owned: set<Dec>, p: Dec): Kind
  {
    if p in owned then Owned else if Scan(side, book, p) == Found then OnBook else Placed
  }

  predicate GoodRung(side: OrderType, book: seq<AggregatedOrder>, owned: set<Dec>, r: Rung)
  {
    && r.kind == KindOf(side, book, owned, r.price)
    && (r.kind != Owned ==> r.price > 0 && Scan(side, book, r.price) != WrongType)
  }

  /** The price of rung i of a ladder that starts at p. */
  function Nth(side: OrderType, p: Dec, step: Dec, i: nat): Dec
    decreases i
  {
    if i == 0 then p else Nth(side, Move(side, p, step), step, i - 1)
  }

  lemma {:induction false} NthIsStepsAway(side: OrderType, p: Dec, step: Dec, i: nat)
    ensures Nth(side, p, step, i) == Move(side, p, i * step)
    decreases i
  {
    if i > 0 {
      NthIsStepsAway(side, Move(side, p, step), step, i - 1);
      assert (i - 1) * step + step == i * step;
    }
  }

  predicate RungOk(side: OrderType, book: seq<AggregatedOrder>, owned: set<Dec>, step: Dec, p: Dec, needed: int, rungs: seq<Rung>, i: nat)
    requires i < |rungs|
  {
    && rungs[i].price == Nth(side, p, step, i)
    && GoodRung(side, book, owned, rungs[i])
    && Counted(rungs[..i]) < needed
  }

  predicate EndOk(side: OrderType, book: seq<AggregatedOrder>, owned: set<Dec>, end: Dec, needed: int, l: Ladder)
  {
    match l.ending
    case Filled => Counted(l.rungs) == if needed > 0 then needed else 0
    case Mismatch => Counted(l.rungs) < needed && end !in owned && Scan(side, book, end) == WrongType
    case NonPositive => Counted(l.rungs) < needed && end !in owned && Scan(side, book, end) != WrongType && end <= 0
  }

  /** The rungs are evenly spaced and of the right kind, no rung comes after the needed
      number is reached, and the ladder ends for a reason. */
  ghost predicate IsLadder(side: OrderType, book: seq<AggregatedOrder>, owned: set<Dec>, step: Dec, p: Dec, needed: int, l: Ladder)
  {
    && (forall i :: 0 <= i < |l.rungs| ==> RungOk(side, book, owned, step, p, needed, l.rungs, i))
    && EndOk(side, book, owned, Nth(side, p, step, |l.rungs|), needed, l)
  }

  function Fewer(needed: int, r: Rung): int {
    if r.kind == OnBook then needed else needed - 1
  }

  lemma RungOkShift(side: OrderType, book: seq<AggregatedOrder>, owned: set<Dec>, step: Dec, p: Dec, needed: int, r: Rung, rungs: seq<Rung>, i: nat)
    requires i < |rungs|
    ensures RungOk(side, book, owned, step, p, needed, [r] + rungs, i + 1)
       <==> RungOk(side, book, owned, step, Move(side, p, step), Fewer(needed, r), rungs, i)
  {
    assert ([r] + rungs)[..i + 1] == [r] + rungs[..i];
    assert ([r] + rungs[..i])[1..] == rungs[..i];
  }

  lemma PrependLadder(side: OrderType, book: seq<AggregatedOrder>, owned: set<Dec>, step: Dec, p: Dec, needed: int, r: Rung, t: Ladder)
    requires needed > 0
    requires GoodRung(side, book, owned, r) && r.price == p
    ensures IsLadder(side, book, owned, step, p, needed, Prepend(r, t))
       <==> IsLadder(side, book, owned, step, Move(side, p, step), Fewer(needed, r), t)
  {
    var l := Prepend(r, t);
    assert l.rungs[1..] == t.rungs;
    forall i | 0 <= i < |t.rungs|
      ensures RungOk(side, book, owned, step, p, needed, l.rungs, i + 1)
         <==> RungOk(side, book, owned, step, Move(side, p, step), Fewer(needed, r), t.rungs, i)
    {
      RungOkShift(side, book, owned, step, p, needed, r, t.rungs, i);
    }
    assert RungOk(side, book, owned, step, p, needed, l.rungs, 0);
    if IsLadder(side, book, owned, step, p, needed, l) {
      forall i | 0 <= i < |t.rungs|
        ensures RungOk(side, book, owned, step, Move(side, p, step), Fewer(needed, r), t.rungs, i)
      {
        assert RungOk(side, book, owned, step, p, needed, l.rungs, i + 1);
      }
    } else if IsLadder(side, book, owned, step, Move(side, p, step), Fewer(needed, r), t) {
      forall i | 0 <= i < |l.rungs|
        ensures RungOk(side, book, owned, step, p, needed, l.rungs, i)
      {
        assert i > 0 ==> RungOk(side, book, owned, step, Move(side, p, step), Fewer(needed, r), t.rungs, i - 1);
      }
    }
  }

  lemma {:induction false} ClimbIsLadder(side: OrderType, book: seq<AggregatedOrder>, owned: set<Dec>, step: Dec, p: Dec, needed: int)
    requires step > 0
    ensures IsLadder(side, book, owned, step, p, needed, Climb(side, book, owned, step, p, needed))
    decreases (if needed > 0 then needed else 0) + |Ahead(side, book, p)|
  {
    AheadShrinks(side, book, p, step);
    FoundIsOnBook(side, book, p);
    var l := Climb(side, book, owned, step, p, needed);
    if l.rungs != [] {
      var r := l.rungs[0];
      ClimbIsLadder(side, book, owned, step, Move(side, p, step), Fewer(needed, r));
      PrependLadder(side, book, owned, step, p, needed, r,
                    Climb(side, book, owned, step, Move(side, p, step), Fewer(needed, r)));
    }
  }

  /** The statement determines the ladder: nothing but the climb satisfies it. */
  lemma {:induction false} LadderIsClimb(side: OrderType, book: seq<AggregatedOrder>, owned: set<Dec>, step: Dec, p: Dec, needed: int, l: Ladder)
    requires step > 0
    requires IsLadder(side, book, owned, step, p, needed, l)
    ensures l == Climb(side, book, owned, step, p, needed)
    decreases |l.rungs|
  {
    if l.rungs != [] {
      var r, t := l.rungs[0], Ladder(l.rungs[1..], l.ending);
      assert RungOk(side, book, owned, step, p, needed, l.rungs, 0);
      assert l == Prepend(r, t);
      PrependLadder(side, book, owned, step, p, needed, r, t);
      LadderIsClimb(side, book, owned, step, Move(side, p, step), Fewer(needed, r), t);
    }
  }

  /** One pass: a good rung comes first, and the rest is a smaller climb. */
  lemma ClimbUnfolds(side: OrderType, book: seq<AggregatedOrder>, owned: set<Dec>, step: Dec, needed: int, r: Rung)
    requires step > 0 && needed > 0 && GoodRung(side, book, owned, r)
    ensures Climb(side, book, owned, step, r.price, needed)
         == Prepend(r, Climb(side, book, owned, step, Move(side, r.price, step), Fewer(needed, r)))
  {
  }

  lemma ClimbDecreases(side: OrderType, book: seq<AggregatedOrder>, owned: set<Dec>, step: Dec, needed: int, r: Rung)
    requires step > 0 && needed > 0 && GoodRung(side, book, owned, r)
    ensures Fewer(needed, r) + |Ahead(side, book, Move(side, r.price, step))| < needed + |Ahead(side, book, r.price)|
  {
    AheadShrinks(side, book, r.price, step);
    FoundIsOnBook(side, book, r.price);
  }

  /** Passes of the loop: one per rung, plus a last one when it stops early. */
  lemma {:induction false} PassesBounded(side: OrderType, book: seq<AggregatedOrder>, owned: set<Dec>, step: Dec, p: Dec, needed: int)
    requires step > 0 && needed >= 0
    ensures |Climb(side, book, owned, step, p, needed).rungs| <= needed + |Ahead(side, book, p)|
    decreases needed + |Ahead(side, book, p)|
  {
    AheadShrinks(side, book, p, step);
    FoundIsOnBook(side, book, p);
    var l := Climb(side, book, owned, step, p, needed);
    if l.rungs != [] {
      var needed', next := Fewer(needed, l.rungs[0]), Move(side, p, step);
      PassesBounded(side, book, owned, step, next, needed');
      assert l == Prepend(l.rungs[0], Climb(side, book, owned, step, next, needed'));
    }
  }

  lemma AheadBounded(side: OrderType, book: seq<AggregatedOrder>, p: Dec)
    ensures |Ahead(side, book, p)| <= |book|
  {
    PricesSize(book);
    SubsetSize(Ahead(side, book, p), Prices(book));
  }

  /** So for any book and any needed number the loop makes at most that many passes, one a
      book order, and one more. */
  lemma PassesAtMost(side: OrderType, book: seq<AggregatedOrder>, owned: set<Dec>, step: Dec, p: Dec, needed: int)
    requires step > 0
    ensures |Climb(side, book, owned, step, p, needed).rungs| <= (if needed > 0 then needed else 0) + |book|
  {
    AheadBounded(side, book, p);
    if needed > 0 {
      PassesBounded(side, book, owned, step, p, needed);
    }
  }

  // ----- the placed orders -----

  lemma {:induction false} PlacedAre(rungs: seq<Rung>, q: Dec)
    ensures q in PlacedPrices(rungs) <==> exists i :: 0 <= i < |rungs| && rungs[i] == Rung(q, Placed)
  {
    if rungs != [] {
      PlacedAre(rungs[1..], q);
      assert forall i :: 1 <= i < |rungs| ==> rungs[i] == rungs[1..][i - 1];
      assert forall i :: 0 <= i < |rungs| - 1 ==> rungs[1..][i] == rungs[i + 1];
      if exists i :: 0 <= i < |rungs[1..]| && rungs[1..][i] == Rung(q, Placed) {
        var i :| 0 <= i < |rungs[1..]| && rungs[1..][i] == Rung(q, Placed);
        assert rungs[i + 1] == Rung(q, Placed);
      }
    }
  }

  /** Coverage: rung i lies i steps from the start, and its kind says where its price is. */
  lemma ClimbCoverage(side: OrderType, book: seq<AggregatedOrder>, owned: set<Dec>, step: Dec, p: Dec, needed: int, i: nat)
    requires SortedSide(side, book) && step > 0
    requires i < |Climb(side, book, owned, step, p, needed).rungs|
    ensures var r := Climb(side, book, owned, step, p, needed).rungs[i];
            && r.price == Move(side, p, i * step)
            && (r.kind == Owned <==> r.price in owned)
            && (r.kind == OnBook ==> r.price in Prices(book) && r.price > 0)
            && (r.kind == Placed ==> r.price !in Prices(book) && r.price > 0)
  {
    ClimbIsLadder(side, book, owned, step, p, needed);
    var rungs := Climb(side, book, owned, step, p, needed).rungs;
    assert RungOk(side, book, owned, step, p, needed, rungs, i);
    NthIsStepsAway(side, p, step, i);
    ScanIsMembership(side, book, rungs[i].price);
  }

  /** Accounting: placed and owned rungs together are exactly the needed orders, unless
      the ladder came down to a price that is not positive. */
  lemma ClimbAccounting(side: OrderType, book: seq<AggregatedOrder>, owned: set<Dec>, step: Dec, p: Dec, needed: int)
    requires SortedSide(side, book) && step > 0 && needed >= 0
    ensures var l := Climb(side, book, owned, step, p, needed);
            && l.ending != Mismatch
            && Counted(l.rungs) <= needed
            && (Counted(l.rungs) == needed <==> l.ending == Filled)
            && (l.ending == NonPositive ==> Move(side, p, |l.rungs| * step) <= 0)
  {
    ClimbIsLadder(side, book, owned, step, p, needed);
    var l := Climb(side, book, owned, step, p, needed);
    NthIsStepsAway(side, p, step, |l.rungs|);
    ScanIsMembership(side, book, Nth(side, p, step, |l.rungs|));
  }

  /** Rungs that run strictly away from the spread, none nearer than p. */
  ghost predicate Climbing(side: OrderType, p: Dec, rungs: seq<Rung>) {
    && (forall i :: 0 <= i < |rungs| ==> !Before(side, rungs[i].price, p))
    && (forall i, j :: 0 <= i < j < |rungs| ==> Before(side, rungs[i].price, rungs[j].price))
  }

  lemma {:induction false} PlacedClimbing(side: OrderType, p: Dec, rungs: seq<Rung>, k: nat)
    requires Climbing(side, p, rungs) && k < |PlacedPrices(rungs)|
    ensures var s := PlacedPrices(rungs);
            !Before(side, s[k], p) && (k + 1 < |s| ==> Before(side, s[k], s[k + 1]))
  {
    var tail := PlacedPrices(rungs[1..]);
    if rungs[0].kind != Placed {
      PlacedClimbing(side, p, rungs[1..], k);
    } else if k > 0 {
      PlacedClimbing(side, p, rungs[1..], k - 1);
    } else if |tail| > 0 {
      PlacedAre(rungs[1..], tail[0]);
    }
  }

  lemma {:induction false} FartherRung(side: OrderType, p: Dec, step: Dec, i: nat, j: nat)
    requires step > 0 && i < j
    ensures !Before(side, Nth(side, p, step, i), p)
    ensures Before(side, Nth(side, p, step, i), Nth(side, p, step, j))
    decreases j
  {
    if i > 0 {
      FartherRung(side, Move(side, p, step), step, i - 1, j - 1);
    } else if j > 1 {
      FartherRung(side, Move(side, p, step), step, 0, j - 1);
    }
  }

  lemma EvenlySpacedClimbs(side: OrderType, p: Dec, step: Dec, rungs: seq<Rung>)
    requires step > 0
    requires forall i :: 0 <= i < |rungs| ==> rungs[i].price == Nth(side, p, step, i)
    ensures Climbing(side, p, rungs)
  {
    forall i, j | 0 <= i < |rungs| && i < j
      ensures !Before(side, rungs[i].price, p)
      ensures j < |rungs| ==> Before(side, rungs[i].price, rungs[j].price)
    {
      FartherRung(side, p, step, i, j);
    }
    forall i | 0 <= i < |rungs|
      ensures !Before(side, rungs[i].price, p)
    {
      FartherRung(side, p, step, i, i + 1);
    }
  }

  /** Every placed price is positive, at or beyond the first rung, neither owned nor on
      the book, and the placed prices run strictly away from the spread. */
  lemma PlacedOrders(side: OrderType, book: seq<AggregatedOrder>, owned: set<Dec>, step: Dec, p: Dec, needed: int, k: nat)
    requires SortedSide(side, book) && step > 0
    requires k < |PlacedPrices(Climb(side, book, owned, step, p, needed).rungs)|
    ensures var s := PlacedPrices(Climb(side, book, owned, step, p, needed).rungs);
            && s[k] > 0 && s[k] !in owned && s[k] !in Prices(book)
            && !Before(side, s[k], p)
            && (k + 1 < |s| ==> Before(side, s[k], s[k + 1]))
  {
    ClimbIsLadder(side, book, owned, step, p, needed);
    var rungs := Climb(side, book, owned, step, p, needed).rungs;
    forall i | 0 <= i < |rungs|
      ensures rungs[i].price == Nth(side, p, step, i)
    {
      assert RungOk(side, book, owned, step, p, needed, rungs, i);
    }
    var q := PlacedPrices(rungs)[k];
    PlacedAre(rungs, q);
    var i :| 0 <= i < |rungs| && rungs[i] == Rung(q, Placed);
    ClimbCoverage(side, book, owned, step, p, needed, i);
    EvenlySpacedClimbs(side, p, step, rungs);
    PlacedClimbing(side, p, rungs, k);
  }
}
