/**
 * The list operations the back end builds its answers from: list comprehensions with an
 * `if` (Filter), element-wise mapping (Map), slicing a prefix (`xs[:n]`, Take), Python's
 * stable `sorted(..., key=...)` (SortBy) and `sorted(set(...))` (SortedSetBy).
 */
module Sequences {

  /** `[x for x in xs if keep(x)]`: the kept elements, in their original order. */
  function Filter<T(!new)>(xs: seq<T>, keep: T -> bool): (r: seq<T>)
    ensures |r| <= |xs|
    ensures forall x :: x in r <==> x in xs && keep(x)
  {
    if xs == [] then []
    else if keep(xs[0]) then [xs[0]] + Filter(xs[1..], keep)
    else Filter(xs[1..], keep)
  }

  /** Filtering a concatenation filters each part: with the one-element case this pins
      Filter down to "keep the order, drop the rejected elements". */
  lemma {:induction false} FilterAppend<T(!new)>(a: seq<T>, b: seq<T>, keep: T -> bool)
    ensures Filter(a + b, keep) == Filter(a, keep) + Filter(b, keep)
  {
    if a == [] {
      assert a + b == b;
    } else {
      assert (a + b)[0] == a[0];
      assert (a + b)[1..] == a[1..] + b;
      FilterAppend(a[1..], b, keep);
    }
  }

  /** Filtering a prefix gives a prefix of the filtered list. */
  lemma FilterPrefix<T(!new)>(p: seq<T>, xs: seq<T>, keep: T -> bool)
    requires p <= xs
    ensures Filter(p, keep) <= Filter(xs, keep)
  {
    assert xs == p + xs[|p|..];
    FilterAppend(p, xs[|p|..], keep);
  }

  /** Two kept elements of xs come out of Filter in the same order they went in. */
  lemma FilterKeepsOrder<T(!new)>(xs: seq<T>, keep: T -> bool, i: nat, j: nat)
    requires i < j < |xs| && keep(xs[i]) && keep(xs[j])
    ensures exists x, y :: 0 <= x < y < |Filter(xs, keep)|
                           && Filter(xs, keep)[x] == xs[i] && Filter(xs, keep)[y] == xs[j]
  {
    var front, back := xs[..j], xs[j..];
    assert xs == front + back;
    FilterAppend(front, back, keep);
    assert xs[i] == front[i];
    assert front[i] in Filter(front, keep);
    var x :| 0 <= x < |Filter(front, keep)| && Filter(front, keep)[x] == xs[i];
    assert back[0] == xs[j];
    assert back == [back[0]] + back[1..];
    var y := |Filter(front, keep)|;
    assert Filter(xs, keep)[x] == xs[i];
    assert Filter(xs, keep)[y] == xs[j];
  }

  /** `[f(x) for x in xs]`. */
  function Map<T, U>(xs: seq<T>, f: T -> U): (r: seq<U>)
    ensures |r| == |xs|
    ensures forall i :: 0 <= i < |xs| ==> r[i] == f(xs[i])
  {
    if xs == [] then [] else [f(xs[0])] + Map(xs[1..], f)
  }

  /** What Map(xs, f) holds: the images of the elements of xs and nothing else. */
  lemma MapMembers<T(!new), U(!new)>(xs: seq<T>, f: T -> U)
    ensures forall x :: x in xs ==> f(x) in Map(xs, f)
    ensures forall y :: y in Map(xs, f) ==> exists x :: x in xs && f(x) == y
  {
    var r := Map(xs, f);
    forall x | x in xs ensures f(x) in r {
      var k :| 0 <= k < |xs| && xs[k] == x;
      assert r[k] == f(x);
    }
    forall y | y in r ensures exists x :: x in xs && f(x) == y {
      var k :| 0 <= k < |r| && r[k] == y;
      assert xs[k] in xs;
    }
  }

  /** The slice `xs[:n]`, which is the whole list when it is shorter than n. */
  function Take<T>(xs: seq<T>, n: nat): (r: seq<T>)
    ensures |r| <= n && |r| <= |xs|
    ensures |xs| <= n ==> r == xs
    ensures |xs| > n ==> |r| == n
    ensures r <= xs
  {
    if |xs| <= n then xs else xs[..n]
  }

  /** Ordered by key, ties allowed. */
  ghost predicate SortedBy<T>(s: seq<T>, key: T -> real) {
    forall i, j :: 0 <= i < j < |s| ==> key(s[i]) <= key(s[j])
  }

  /** Ordered by key with no two keys equal. */
  ghost predicate StrictlySortedBy<T>(s: seq<T>, key: T -> real) {
    forall i, j :: 0 <= i < j < |s| ==> key(s[i]) < key(s[j])
  }

  /** Inserts x in front of the first element whose key is not smaller; into a sorted
      list, that keeps it sorted. */
  function InsertBy<T>(x: T, s: seq<T>, key: T -> real): (r: seq<T>)
    ensures |r| == |s| + 1
    ensures SortedBy(s, key) ==> SortedBy(r, key)
    ensures r[0] == x || (|s| > 0 && r[0] == s[0])
  {
    if s == [] || key(x) <= key(s[0]) then [x] + s
    else
      var rest := InsertBy(x, s[1..], key);
      assert SortedBy(s, key) ==> key(s[0]) <= key(rest[0]);
      [s[0]] + rest
  }

  /** Insertion adds x and loses nothing. */
  lemma {:induction false} InsertByMultiset<T>(x: T, s: seq<T>, key: T -> real)
    ensures multiset(InsertBy(x, s, key)) == multiset(s) + multiset{x}
  {
    if s == [] || key(x) <= key(s[0]) {
    } else {
      var rest := InsertBy(x, s[1..], key);
      InsertByMultiset(x, s[1..], key);
      calc {
        multiset(InsertBy(x, s, key));
        multiset([s[0]] + rest);
        multiset{s[0]} + multiset(rest);
        multiset{s[0]} + multiset(s[1..]) + multiset{x};
        { assert s == [s[0]] + s[1..]; }
        multiset(s) + multiset{x};
      }
    }
  }

  /** Python's `sorted(s, key=key)`: a reordering of s by ascending key. Elements are
      inserted from the back, each in front of its equals, so equal keys keep their
      input order, as Python's stable sort does. */
  function SortBy<T>(s: seq<T>, key: T -> real): (r: seq<T>)
    ensures SortedBy(r, key)
    ensures multiset(r) == multiset(s)
  {
    if s == [] then []
    else
      assert s == [s[0]] + s[1..];
      InsertByMultiset(s[0], SortBy(s[1..], key), key);
      InsertBy(s[0], SortBy(s[1..], key), key)
  }

  /** Sorting keeps exactly the elements it was given. */
  lemma SortByMembers<T(!new)>(s: seq<T>, key: T -> real)
    ensures |SortBy(s, key)| == |s|
    ensures forall x :: x in SortBy(s, key) <==> x in s
  {
    var r := SortBy(s, key);
    assert |multiset(r)| == |multiset(s)|;
    forall x ensures x in r <==> x in s {
      assert x in r <==> x in multiset(r);
      assert x in s <==> x in multiset(s);
    }
  }

  /** The elements whose key is v. */
  function KeyIs<T>(key: T -> real, v: real): T -> bool {
    (x: T) => key(x) == v
  }

  /** Inserting x lands it before every element of equal key: those that come out with
      key v are x (if its key is v) followed by the ones of s, in their order. */
  lemma {:induction false} InsertByEqualKeys<T(!new)>(x: T, s: seq<T>, key: T -> real, v: real)
    ensures Filter(InsertBy(x, s, key), KeyIs(key, v)) == Filter([x], KeyIs(key, v)) + Filter(s, KeyIs(key, v))
  {
    var keep := KeyIs(key, v);
    if s == [] || key(x) <= key(s[0]) {
      FilterAppend([x], s, keep);
    } else {
      var rest := InsertBy(x, s[1..], key);
      FilterAppend([s[0]], rest, keep);
      InsertByEqualKeys(x, s[1..], key, v);
      assert s == [s[0]] + s[1..];
      FilterAppend([s[0]], s[1..], keep);
      assert Filter([x], keep) == [] || Filter([s[0]], keep) == [];
    }
  }

  /** SortBy is stable, as Python's sorted is: elements of equal key keep their order. */
  lemma {:induction false} SortByStable<T(!new)>(s: seq<T>, key: T -> real, v: real)
    ensures Filter(SortBy(s, key), KeyIs(key, v)) == Filter(s, KeyIs(key, v))
  {
    if s != [] {
      InsertByEqualKeys(s[0], SortBy(s[1..], key), key, v);
      SortByStable(s[1..], key, v);
      assert s == [s[0]] + s[1..];
      FilterAppend([s[0]], s[1..], KeyIs(key, v));
    }
  }

  /** Cutting a list sorted by key to its first n elements keeps the least keys: an
      element left out has a key no smaller than any kept one, and n were kept. */
  lemma TakeKeepsLeast<T>(sorted: seq<T>, key: T -> real, n: nat, out: T, kept: T)
    requires SortedBy(sorted, key)
    requires out in sorted && out !in Take(sorted, n) && kept in Take(sorted, n)
    ensures |Take(sorted, n)| == n
    ensures key(kept) <= key(out)
  {
    var r := Take(sorted, n);
    var k :| 0 <= k < |sorted| && sorted[k] == out;
    var j :| 0 <= j < |r| && r[j] == kept;
    assert r == sorted[..|r|];
    assert k >= |r|;
    assert sorted[j] == kept;
  }

  /** Something left out by a cut means the cut is full. */
  lemma TakeFull<T>(xs: seq<T>, n: nat, out: T)
    requires out in xs && out !in Take(xs, n)
    ensures |Take(xs, n)| == n
  {
  }

  /** The same, counting copies: when fewer copies of x were kept than the sorted list
      holds, the cut is full and every kept element has a key no greater than x's. */
  lemma TakeCountsLeast<T>(sorted: seq<T>, key: T -> real, n: nat, x: T)
    requires SortedBy(sorted, key)
    requires multiset(Take(sorted, n))[x] < multiset(sorted)[x]
    ensures |Take(sorted, n)| == n
    ensures forall y :: y in Take(sorted, n) ==> key(y) <= key(x)
  {
    var r := Take(sorted, n);
    var rest := sorted[|r|..];
    assert sorted == r + rest;
    assert multiset(sorted) == multiset(r) + multiset(rest);
    assert x in multiset(rest);
    var i :| 0 <= i < |rest| && rest[i] == x;
    assert sorted[|r| + i] == x;
    forall y | y in r ensures key(y) <= key(x) {
      var j :| 0 <= j < |r| && r[j] == y;
      assert sorted[j] == y;
    }
  }

  /** The n elements of xs that pass keep with the least keys: kept elements are passing
      members of xs; a passing member is left out only when n were kept, and then its key
      is no smaller than any kept one. They come out in key order, and among passing
      elements of one key those kept are the first ones of xs, as a stable sort leaves them.
      The fullness and key bounds hold copy by copy: fewer copies of x kept than pass
      means n were kept, all with keys no greater than x's. */
  function LeastN<T(!new)>(xs: seq<T>, keep: T -> bool, key: T -> real, n: nat): (r: seq<T>)
    ensures |r| <= n
    ensures forall x :: x in r ==> x in xs && keep(x)
    ensures forall x :: x in xs && keep(x) && x !in r ==> |r| == n
    ensures forall x, y :: x in xs && keep(x) && x !in r && y in r ==> key(y) <= key(x)
    ensures forall x :: multiset(r)[x] < multiset(Filter(xs, keep))[x] ==> |r| == n
    ensures forall x, y :: multiset(r)[x] < multiset(Filter(xs, keep))[x] && y in r ==> key(y) <= key(x)
    ensures SortedBy(r, key)
    ensures forall v :: Filter(r, KeyIs(key, v)) <= Filter(Filter(xs, keep), KeyIs(key, v))
  {
    var passing := Filter(xs, keep);
    CutByMembership(passing, key, n);
    CutByCount(passing, key, n);
    CutIsStable(passing, key, n);
    Take(SortBy(passing, key), n)
  }

  /** Sorting then cutting: kept elements come from the input; one left out means n were
      kept, all with keys no greater than its key. */
  lemma CutByMembership<T(!new)>(passing: seq<T>, key: T -> real, n: nat)
    ensures forall x :: x in Take(SortBy(passing, key), n) ==> x in passing
    ensures forall x :: x in passing && x !in Take(SortBy(passing, key), n) ==>
      |Take(SortBy(passing, key), n)| == n
    ensures forall x, y :: x in passing && x !in Take(SortBy(passing, key), n) && y in Take(SortBy(passing, key), n) ==>
      key(y) <= key(x)
  {
    var sorted := SortBy(passing, key);
    SortByMembers(passing, key);
    var r := Take(sorted, n);
    forall x | x in passing && x !in r ensures |r| == n {
      TakeFull(sorted, n, x);
    }
    forall x, y | x in passing && x !in r && y in r ensures key(y) <= key(x) {
      TakeKeepsLeast(sorted, key, n, x, y);
    }
  }

  /** The same, copy by copy. */
  lemma CutByCount<T(!new)>(passing: seq<T>, key: T -> real, n: nat)
    ensures forall x :: multiset(Take(SortBy(passing, key), n))[x] < multiset(passing)[x] ==>
      |Take(SortBy(passing, key), n)| == n
    ensures forall x, y ::
      multiset(Take(SortBy(passing, key), n))[x] < multiset(passing)[x] && y in Take(SortBy(passing, key), n) ==>
      key(y) <= key(x)
  {
    var sorted := SortBy(passing, key);
    forall x | multiset(Take(sorted, n))[x] < multiset(passing)[x]
      ensures |Take(sorted, n)| == n && forall y :: y in Take(sorted, n) ==> key(y) <= key(x)
    {
      TakeCountsLeast(sorted, key, n, x);
    }
  }

  /** The cut is in key order, and for each key it keeps the first elements of that key. */
  lemma CutIsStable<T(!new)>(passing: seq<T>, key: T -> real, n: nat)
    ensures SortedBy(Take(SortBy(passing, key), n), key)
    ensures forall v :: Filter(Take(SortBy(passing, key), n), KeyIs(key, v)) <= Filter(passing, KeyIs(key, v))
  {
    var sorted := SortBy(passing, key);
    var r := Take(sorted, n);
    forall v ensures Filter(r, KeyIs(key, v)) <= Filter(passing, KeyIs(key, v)) {
      FilterPrefix(r, sorted, KeyIs(key, v));
      SortByStable(passing, key, v);
    }
  }

  /** No two different elements share a key, as for the identity on numbers. */
  ghost predicate Injective<T(!new)>(key: T -> real) {
    forall a, b :: key(a) == key(b) ==> a == b
  }

  /** Drops every element equal to the one after it. */
  function DedupSorted<T(==, !new)>(s: seq<T>, key: T -> real): (r: seq<T>)
    requires SortedBy(s, key) && Injective(key)
    ensures StrictlySortedBy(r, key)
    ensures |r| <= |s|
    ensures |s| > 0 ==> |r| > 0 && r[0] == s[0]
    ensures forall x :: x in r <==> x in s
  {
    if |s| <= 1 then s
    else
      var rest := DedupSorted(s[1..], key);
      assert s == [s[0]] + s[1..];
      if s[0] == s[1] then rest
      else
        assert key(s[0]) < key(rest[0]);
        assert forall k :: 0 < k < |rest| ==> key(rest[0]) < key(rest[k]);
        [s[0]] + rest
  }

  /** Python's `sorted(set(xs))` where key orders the elements: each distinct element
      once, in ascending order. */
  function SortedSetBy<T(==, !new)>(xs: seq<T>, key: T -> real): (r: seq<T>)
    requires Injective(key)
    ensures StrictlySortedBy(r, key)
    ensures |r| <= |xs|
    ensures forall x :: x in r <==> x in xs
  {
    SortByMembers(xs, key);
    DedupSorted(SortBy(xs, key), key)
  }

  /** Filtering a strictly sorted list leaves it strictly sorted. */
  lemma {:induction false} FilterStrictlySorted<T(!new)>(xs: seq<T>, keep: T -> bool, key: T -> real)
    requires StrictlySortedBy(xs, key)
    ensures StrictlySortedBy(Filter(xs, keep), key)
  {
    if xs != [] {
      FilterStrictlySorted(xs[1..], keep, key);
      var rest := Filter(xs[1..], keep);
      forall y | y in rest ensures key(xs[0]) < key(y) {
        var k :| 0 <= k < |xs[1..]| && xs[1..][k] == y;
        assert xs[k + 1] == y;
      }
    }
  }
}
