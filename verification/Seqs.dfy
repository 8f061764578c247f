/** Sequence and set helpers: filtering, truncation and Python's stable `sorted(xs, key=...)`. */
module Seqs {

  datatype Option<+T> = None | Some(value: T)

  ghost predicate Distinct<T>(xs: seq<T>) {
    forall i, j :: 0 <= i < j < |xs| ==> xs[i] != xs[j]
  }

  function Filter<T>(xs: seq<T>, keep: T -> bool): (ys: seq<T>)
    ensures |ys| <= |xs|
    ensures forall y <- ys :: y in xs && keep(y)
    ensures forall x <- xs :: keep(x) ==> x in ys
  {
    if xs == [] then []
    else if keep(xs[0]) then [xs[0]] + Filter(xs[1..], keep)
    else Filter(xs[1..], keep)
  }

  /** At most the first two elements. */
  function FirstTwo<T>(xs: seq<T>): (ys: seq<T>)
    ensures |ys| == if |xs| < 2 then |xs| else 2
    ensures ys <= xs
  {
    if |xs| < 2 then xs else xs[..2]
  }

  lemma FilterAll<T>(xs: seq<T>, keep: T -> bool)
    requires forall x <- xs :: keep(x)
    ensures Filter(xs, keep) == xs
  {
  }

  lemma FilterSame<T>(xs: seq<T>, p: T -> bool, q: T -> bool)
    requires forall x <- xs :: p(x) == q(x)
    ensures Filter(xs, p) == Filter(xs, q)
  {
  }

  lemma FilterDistinct<T>(xs: seq<T>, keep: T -> bool)
    requires Distinct(xs)
    ensures Distinct(Filter(xs, keep))
  {
    if xs != [] {
      FilterDistinct(xs[1..], keep);
      assert xs[0] !in xs[1..];
    }
  }

  lemma {:induction false} FilterAppend<T>(xs: seq<T>, ys: seq<T>, keep: T -> bool)
    ensures Filter(xs + ys, keep) == Filter(xs, keep) + Filter(ys, keep)
  {
    if xs == [] {
      assert xs + ys == ys;
    } else {
      assert (xs + ys)[1..] == xs[1..] + ys;
      FilterAppend(xs[1..], ys, keep);
    }
  }

  lemma {:induction false} SubsetSize<T>(a: set<T>, b: set<T>)
    requires a <= b
    ensures |a| <= |b|
  {
    assert b == a + (b - a);
  }

  // Stable sort, smallest key first, equal keys in their original order.

  function Insert<T>(x: T, xs: seq<T>, key: T -> int): (ys: seq<T>)
    ensures multiset(ys) == multiset(xs) + multiset{x}
    ensures |ys| == |xs| + 1
  {
    if xs == [] || key(x) <= key(xs[0]) then [x] + xs
    else
      assert xs == [xs[0]] + xs[1..];
      [xs[0]] + Insert(x, xs[1..], key)
  }

  function SortBy<T>(xs: seq<T>, key: T -> int): (ys: seq<T>)
    ensures multiset(ys) == multiset(xs)
    ensures |ys| == |xs|
  {
    if xs == [] then []
    else
      assert xs == [xs[0]] + xs[1..];
      Insert(xs[0], SortBy(xs[1..], key), key)
  }

  ghost predicate Ascending<T>(xs: seq<T>, key: T -> int) {
    forall i, j :: 0 <= i < j < |xs| ==> key(xs[i]) <= key(xs[j])
  }

  lemma SortMember<T>(xs: seq<T>, key: T -> int, x: T)
    ensures x in SortBy(xs, key) <==> x in xs
  {
    assert x in SortBy(xs, key) <==> x in multiset(SortBy(xs, key));
    assert x in xs <==> x in multiset(xs);
  }

  lemma InsertAscending<T>(x: T, xs: seq<T>, key: T -> int)
    requires Ascending(xs, key)
    ensures Ascending(Insert(x, xs, key), key)
  {
    if xs != [] && key(x) > key(xs[0]) {
      var rest := Insert(x, xs[1..], key);
      InsertAscending(x, xs[1..], key);
      forall y | y in rest
        ensures key(xs[0]) <= key(y)
      {
        assert y in multiset(rest);
        assert y == x || y in multiset(xs[1..]);
      }
    }
  }

  lemma SortAscending<T>(xs: seq<T>, key: T -> int)
    ensures Ascending(SortBy(xs, key), key)
  {
    if xs != [] {
      SortAscending(xs[1..], key);
      InsertAscending(xs[0], SortBy(xs[1..], key), key);
    }
  }

  /** An element that is not among the first `i` of the order is not before position `i`. */
  lemma {:induction false} SortedBefore<T>(xs: seq<T>, key: T -> int, i: nat, x: T)
    requires i < |xs| && x in xs
    requires forall k :: 0 <= k < i ==> SortBy(xs, key)[k] != x
    ensures key(SortBy(xs, key)[i]) <= key(x)
  {
    var order := SortBy(xs, key);
    SortAscending(xs, key);
    SortMember(xs, key, x);
    var j :| 0 <= j < |order| && order[j] == x;
    assert i <= j;
  }

  lemma SortDistinct<T>(xs: seq<T>, key: T -> int)
    requires Distinct(xs)
    ensures Distinct(SortBy(xs, key))
  {
    var ys := SortBy(xs, key);
    forall x
      ensures multiset(xs)[x] <= 1
    {
      DistinctMultiplicity(xs, x);
    }
    MultiplicityDistinct(ys);
  }

  lemma DistinctMultiplicity<T>(xs: seq<T>, x: T)
    requires Distinct(xs)
    ensures multiset(xs)[x] <= 1
  {
    if xs != [] {
      assert xs == [xs[0]] + xs[1..];
      DistinctMultiplicity(xs[1..], x);
      assert xs[0] !in xs[1..];
      assert xs[0] !in multiset(xs[1..]);
    }
  }

  lemma MultiplicityDistinct<T>(xs: seq<T>)
    requires forall x :: multiset(xs)[x] <= 1
    ensures Distinct(xs)
  {
    forall i, j | 0 <= i < j < |xs|
      ensures xs[i] != xs[j]
    {
      assert xs == xs[..j] + xs[j..];
      assert xs[i] in multiset(xs[..j]) by { assert xs[..j][i] == xs[i]; }
      assert xs[j] in multiset(xs[j..]) by { assert xs[j..][0] == xs[j]; }
      assert multiset(xs)[xs[i]] == multiset(xs[..j])[xs[i]] + multiset(xs[j..])[xs[i]];
    }
  }

  lemma SortSame<T>(xs: seq<T>, f: T -> int, g: T -> int)
    requires forall x <- xs :: f(x) == g(x)
    ensures SortBy(xs, f) == SortBy(xs, g)
  {
    if xs != [] {
      SortSame(xs[1..], f, g);
      var rest := SortBy(xs[1..], f);
      forall y | y in rest
        ensures f(y) == g(y)
      {
        SortMember(xs[1..], f, y);
        assert y in xs[1..];
      }
      InsertSame(xs[0], rest, f, g);
    }
  }

  lemma InsertSame<T>(x: T, xs: seq<T>, f: T -> int, g: T -> int)
    requires f(x) == g(x)
    requires forall y <- xs :: f(y) == g(y)
    ensures Insert(x, xs, f) == Insert(x, xs, g)
  {
  }

  /** Ties keep their order: the elements with one key come out exactly as they went in. */
  lemma {:induction false} SortStable<T>(xs: seq<T>, key: T -> int, k: int)
    ensures Filter(SortBy(xs, key), x => key(x) == k) == Filter(xs, x => key(x) == k)
  {
    var same := x => key(x) == k;
    SortStableFor(xs, key, same, k);
    FilterSame(xs, same, x => key(x) == k);
    FilterSame(SortBy(xs, key), same, x => key(x) == k);
  }

  lemma SortStableFor<T>(xs: seq<T>, key: T -> int, same: T -> bool, k: int)
    requires forall x :: same(x) <==> key(x) == k
    ensures Filter(SortBy(xs, key), same) == Filter(xs, same)
  {
    if xs != [] {
      SortStableFor(xs[1..], key, same, k);
      SortAscending(xs[1..], key);
      InsertStable(xs[0], SortBy(xs[1..], key), key, same, k);
    }
  }

  lemma InsertStable<T>(x: T, xs: seq<T>, key: T -> int, same: T -> bool, k: int)
    requires forall y :: same(y) <==> key(y) == k
    requires Ascending(xs, key)
    ensures Filter(Insert(x, xs, key), same) == if same(x) then [x] + Filter(xs, same) else Filter(xs, same)
  {
    if xs == [] || key(x) <= key(xs[0]) {
      assert ([x] + xs)[1..] == xs;
    } else {
      InsertStable(x, xs[1..], key, same, k);
      assert Insert(x, xs, key)[1..] == Insert(x, xs[1..], key);
    }
  }

  /** Sorting and filtering commute. */
  lemma {:induction false} SortFilter<T>(xs: seq<T>, keep: T -> bool, key: T -> int)
    ensures SortBy(Filter(xs, keep), key) == Filter(SortBy(xs, key), keep)
  {
    if xs != [] {
      SortFilter(xs[1..], keep, key);
      SortAscending(xs[1..], key);
      InsertFilter(xs[0], SortBy(xs[1..], key), keep, key);
    }
  }

  lemma {:induction false} InsertFilter<T>(x: T, xs: seq<T>, keep: T -> bool, key: T -> int)
    requires Ascending(xs, key)
    ensures Filter(Insert(x, xs, key), keep) ==
            if keep(x) then Insert(x, Filter(xs, keep), key) else Filter(xs, keep)
  {
    if xs == [] || key(x) <= key(xs[0]) {
      FilterCons(x, xs, keep);
      InsertFirst(x, Filter(xs, keep), key);
    } else {
      var rest := xs[1..];
      InsertFilter(x, rest, keep, key);
      FilterCons(xs[0], Insert(x, rest, key), keep);
      FilterCons(xs[0], rest, keep);
      assert xs == [xs[0]] + rest;
      InsertLater(x, xs[0], Filter(rest, keep), key);
    }
  }

  lemma {:induction false} FilterCons<T>(x: T, xs: seq<T>, keep: T -> bool)
    ensures Filter([x] + xs, keep) == if keep(x) then [x] + Filter(xs, keep) else Filter(xs, keep)
  {
    assert ([x] + xs)[1..] == xs;
  }

  lemma {:induction false} InsertFirst<T>(x: T, xs: seq<T>, key: T -> int)
    requires forall y <- xs :: key(x) <= key(y)
    ensures Insert(x, xs, key) == [x] + xs
  {
  }

  lemma {:induction false} InsertLater<T>(x: T, y: T, xs: seq<T>, key: T -> int)
    requires key(x) > key(y)
    ensures Insert(x, [y] + xs, key) == [y] + Insert(x, xs, key)
  {
    assert ([y] + xs)[1..] == xs;
  }

  /** Of distinct elements, those not among the first `n` are the rest, in order. */
  lemma {:induction false} FilterSuffix<T>(xs: seq<T>, keep: T -> bool, n: nat)
    requires Distinct(xs) && n <= |xs|
    requires forall x <- xs :: keep(x) <==> x !in xs[..n]
    ensures Filter(xs, keep) == xs[n..]
  {
    if n == 0 {
      FilterAll(xs, keep);
    } else {
      var rest := xs[1..];
      assert xs[0] in xs[..n];
      assert forall x :: x in xs[..n] <==> x == xs[0] || x in rest[..n - 1] by {
        assert xs[..n] == [xs[0]] + rest[..n - 1];
      }
      assert forall x <- rest :: x in xs && x != xs[0];
      FilterSuffix(rest, keep, n - 1);
    }
  }
}
