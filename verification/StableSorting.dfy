/** A stable in-place sort by an integer key, and what determines its result. */
module StableSorting {
  function Insert<T(!new)>(s: seq<T>, x: T, key: T -> int): (r: seq<T>)
    ensures |r| == |s| + 1
    ensures multiset(r) == multiset(s) + multiset{x}
    ensures forall y :: y in r <==> y in s || y == x
  {
    if s == [] || key(s[|s| - 1]) <= key(x) then s + [x]
    else
      assert s == s[..|s| - 1] + [s[|s| - 1]];
      Insert(s[..|s| - 1], x, key) + [s[|s| - 1]]
  }

  function StableSort<T(!new)>(s: seq<T>, key: T -> int): (r: seq<T>)
    ensures |r| == |s|
    ensures multiset(r) == multiset(s)
  {
    if s == [] then []
    else
      assert s == s[..|s| - 1] + [s[|s| - 1]];
      Insert(StableSort(s[..|s| - 1], key), s[|s| - 1], key)
  }

  predicate SortedByKey<T(!new)>(s: seq<T>, key: T -> int) {
    forall i, j :: 0 <= i < j < |s| ==> key(s[i]) <= key(s[j])
  }

  /** The elements of one key, in the order they stand. */
  function WithKey<T(!new)>(s: seq<T>, key: T -> int, k: int): seq<T> {
    if s == [] then []
    else WithKey(s[..|s| - 1], key, k) + if key(s[|s| - 1]) == k then [s[|s| - 1]] else []
  }

  lemma WithKeySnoc<T(!new)>(s: seq<T>, x: T, key: T -> int, k: int)
    ensures WithKey(s + [x], key, k) == WithKey(s, key, k) + if key(x) == k then [x] else []
  {
    assert (s + [x])[..|s|] == s;
  }

  lemma {:induction false} InsertSorts<T(!new)>(s: seq<T>, x: T, key: T -> int)
    requires SortedByKey(s, key)
    ensures SortedByKey(Insert(s, x, key), key)
  {
    if s != [] && key(s[|s| - 1]) > key(x) {
      var init, y := s[..|s| - 1], s[|s| - 1];
      InsertSorts(init, x, key);
      forall z | z in Insert(init, x, key)
        ensures key(z) <= key(y)
      {
      }
    }
  }

  lemma {:induction false} InsertIsStable<T(!new)>(s: seq<T>, x: T, key: T -> int, k: int)
    ensures WithKey(Insert(s, x, key), key, k) == WithKey(s, key, k) + if key(x) == k then [x] else []
  {
    if s == [] || key(s[|s| - 1]) <= key(x) {
      WithKeySnoc(s, x, key, k);
    } else {
      var init, y := s[..|s| - 1], s[|s| - 1];
      InsertIsStable(init, x, key, k);
      WithKeySnoc(Insert(init, x, key), y, key, k);
      var w := WithKey(init, key, k);
      if key(x) == k {
        assert WithKey(s, key, k) == w + [];
        assert w + [x] + [] == w + [x];
      } else {
        assert w + [] == w;
      }
    }
  }

  /** Sorted, and the elements of every single key keep their order. */
  lemma {:induction false} StableSortSorts<T(!new)>(s: seq<T>, key: T -> int, k: int)
    ensures SortedByKey(StableSort(s, key), key)
    ensures WithKey(StableSort(s, key), key, k) == WithKey(s, key, k)
  {
    if s != [] {
      StableSortSorts(s[..|s| - 1], key, k);
      InsertSorts(StableSort(s[..|s| - 1], key), s[|s| - 1], key);
      InsertIsStable(StableSort(s[..|s| - 1], key), s[|s| - 1], key, k);
    }
  }

  lemma {:induction false} LastHasKey<T(!new)>(s: seq<T>, key: T -> int, k: int)
    requires SortedByKey(s, key) && WithKey(s, key, k) != []
    ensures s != [] && key(s[|s| - 1]) >= k
  {
    if key(s[|s| - 1]) != k {
      LastHasKey(s[..|s| - 1], key, k);
    }
  }

  ghost predicate SameByKey<T(!new)>(s: seq<T>, t: seq<T>, key: T -> int) {
    forall k :: WithKey(s, key, k) == WithKey(t, key, k)
  }

  lemma LastAgrees<T(!new)>(s: seq<T>, t: seq<T>, key: T -> int)
    requires SortedByKey(s, key) && SortedByKey(t, key) && SameByKey(s, t, key) && s != []
    ensures t != [] && s[|s| - 1] == t[|t| - 1]
  {
    var a, k := s[|s| - 1], key(s[|s| - 1]);
    assert WithKey(s, key, k) == WithKey(t, key, k);
    LastHasKey(t, key, k);
    var b, l := t[|t| - 1], key(t[|t| - 1]);
    assert WithKey(s, key, l) == WithKey(t, key, l);
    LastHasKey(s, key, l);
    assert WithKey(s, key, k)[|WithKey(s, key, k)| - 1] == a;
    assert WithKey(t, key, k)[|WithKey(t, key, k)| - 1] == b;
  }

  /** Nothing else is sorted and stable: the two properties are the whole specification. */
  lemma {:induction false} StableSortUnique<T(!new)>(s: seq<T>, t: seq<T>, key: T -> int)
    requires SortedByKey(s, key) && SortedByKey(t, key) && SameByKey(s, t, key)
    ensures s == t
  {
    if s == [] {
      if t != [] {
        LastAgrees(t, s, key);
      }
    } else {
      LastAgrees(s, t, key);
      var a := s[|s| - 1];
      var s', t' := s[..|s| - 1], t[..|t| - 1];
      forall k
        ensures WithKey(s', key, k) == WithKey(t', key, k)
      {
        assert WithKey(s, key, k) == WithKey(t, key, k);
        var x, y := WithKey(s', key, k), WithKey(t', key, k);
        if key(a) == k {
          assert x == (x + [a])[..|x|] && y == (y + [a])[..|y|];
        } else {
          assert x + [] == x && y + [] == y;
        }
      }
      StableSortUnique(s', t', key);
      assert s == s' + [a] && t == t' + [a];
    }
  }

  lemma SplitSorted<T(!new)>(s: seq<T>, key: T -> int, n: nat, x: T, y: T)
    requires SortedByKey(s, key) && n <= |s|
    requires x in s[..n] && y in s[n..]
    ensures key(x) <= key(y)
  {
    var i :| 0 <= i < n && s[i] == x;
    var j :| 0 <= j < |s[n..]| && s[n..][j] == y;
    assert s[n + j] == y;
  }

  /** The array while x moves down through the sorted prefix s: it stands at j. */
  function Moving<T(!new)>(s: seq<T>, j: nat, x: T, tail: seq<T>): (r: seq<T>)
    requires j <= |s|
    ensures |r| == |s| + 1 + |tail| && r[j] == x && (j > 0 ==> r[j - 1] == s[j - 1])
  {
    s[..j] + [x] + s[j..] + tail
  }

  lemma MoveDown<T(!new)>(s: seq<T>, j: nat, x: T, tail: seq<T>)
    requires 0 < j <= |s|
    ensures Moving(s, j - 1, x, tail) == Moving(s, j, x, tail)[j - 1 := x][j := s[j - 1]]
  {
  }

  lemma InsertMovesDown<T(!new)>(s: seq<T>, j: nat, x: T, key: T -> int)
    requires 0 < j <= |s| && key(s[j - 1]) > key(x)
    ensures Insert(s[..j], x, key) + s[j..] == Insert(s[..j - 1], x, key) + s[j - 1..]
  {
    assert s[..j][..j - 1] == s[..j - 1];
    assert [s[j - 1]] + s[j..] == s[j - 1..];
    assert Insert(s[..j], x, key) == Insert(s[..j - 1], x, key) + [s[j - 1]];
  }

  lemma MovedInPlace<T(!new)>(s: seq<T>, j: nat, x: T, tail: seq<T>, key: T -> int)
    requires j <= |s| && (j > 0 ==> key(s[j - 1]) <= key(x))
    ensures Moving(s, j, x, tail) == Insert(s[..j], x, key) + s[j..] + tail
  {
  }

  method SwapDown<T(!new)>(a: array<T>, j: nat, ghost s: seq<T>, ghost tail: seq<T>)
    requires 0 < j <= |s| && j < a.Length
    requires a[..] == Moving(s, j, a[j], tail)
    modifies a
    ensures a[..] == Moving(s, j - 1, old(a[j]), tail)
  {
    MoveDown(s, j, a[j], tail);
    ghost var before := a[..];
    assert a[j - 1] == before[j - 1];
    a[j - 1], a[j] := a[j], a[j - 1];
    assert a[..] == before[j - 1 := before[j]][j := before[j - 1]];
  }

  method InsertInPlace<T(!new)>(a: array<T>, i: nat, key: T -> int)
    requires i < a.Length
    modifies a
    ensures a[..] == Insert(old(a[..i]), old(a[i]), key) + old(a[i + 1..])
  {
    ghost var s, tail := a[..i], a[i + 1..];
    var x := a[i];
    var j := i;
    assert s[..i] == s && s[i..] == [];
    while j > 0 && key(a[j - 1]) > key(x)
      invariant 0 <= j <= i && a[j] == x
      invariant a[..] == Moving(s, j, x, tail)
      invariant Insert(s, x, key) == Insert(s[..j], x, key) + s[j..]
    {
      assert a[j - 1] == a[..][j - 1];
      InsertMovesDown(s, j, x, key);
      SwapDown(a, j, s, tail);
      j := j - 1;
      assert a[j] == a[..][j];
    }
    assert j > 0 ==> a[j - 1] == a[..][j - 1];
    MovedInPlace(s, j, x, tail, key);
  }

  lemma SortOneMore<T(!new)>(was: seq<T>, i: nat, key: T -> int, now: seq<T>)
    requires i < |was| && now == StableSort(was[..i], key) + was[i..]
    ensures Insert(now[..i], now[i], key) + now[i + 1..] == StableSort(was[..i + 1], key) + was[i + 1..]
  {
    assert now[..i] == StableSort(was[..i], key);
    assert now[i + 1..] == was[i + 1..];
    assert was[..i + 1][..i] == was[..i];
  }

  method SortStable<T(!new)>(a: array<T>, key: T -> int)
    modifies a
    ensures a[..] == StableSort(old(a[..]), key)
  {
    ghost var was := a[..];
    var i := 0;
    while i < a.Length
      invariant 0 <= i <= a.Length
      invariant a[..] == StableSort(was[..i], key) + was[i..]
    {
      SortOneMore(was, i, key, a[..]);
      InsertInPlace(a, i, key);
      i := i + 1;
    }
    assert was[..|was|] == was && was[|was|..] == [];
  }
}
