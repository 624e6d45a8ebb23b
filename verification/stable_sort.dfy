/**
 * `Array.prototype.sort(compare)`. Since ECMAScript 2019 the sort is stable, and every comparator
 * in the application is consistent: `compare(a, b) < 0` is a strict weak order. Such a sort has
 * exactly one possible result (lemma StableSortIsUnique), so any correct stable algorithm models
 * it; an insertion sort is used here.
 */
module StableSort {
  import opened Seqs

  /** `before(a, b)`: the comparator places `a` strictly before `b`. */
  ghost predicate StrictWeakOrder<T(!new)>(before: (T, T) -> bool) {
    && (forall a, b :: before(a, b) ==> !before(b, a))
    && (forall a, b, c :: before(a, c) ==> before(a, b) || before(b, c))
  }

  /** No element is placed after one that should come later. */
  predicate Sorted<T>(s: seq<T>, before: (T, T) -> bool) {
    forall i, j :: 0 <= i < j < |s| ==> !before(s[j], s[i])
  }

  /** Neither element has to come before the other. */
  predicate Tied<T>(a: T, b: T, before: (T, T) -> bool) {
    !before(a, b) && !before(b, a)
  }

  /** The elements of `s` tied with `y`, in their order in `s`. */
  function TiedWith<T>(s: seq<T>, y: T, before: (T, T) -> bool): seq<T>
  {
    if |s| == 0 then []
    else (if Tied(s[0], y, before) then [s[0]] else []) + TiedWith(s[1..], y, before)
  }

  /**
   * `r` is a stable sort of `s`: a permutation, in order, in which every class of tied
   * elements keeps its order from `s`.
   */
  ghost predicate IsStableSortOf<T(!new)>(r: seq<T>, s: seq<T>, before: (T, T) -> bool) {
    && multiset(r) == multiset(s)
    && Sorted(r, before)
    && forall y :: TiedWith(r, y, before) == TiedWith(s, y, before)
  }

  lemma {:induction false} TiedWithAppend<T>(a: seq<T>, b: seq<T>, y: T, before: (T, T) -> bool)
    ensures TiedWith(a + b, y, before) == TiedWith(a, y, before) + TiedWith(b, y, before)
  {
    if |a| > 0 {
      assert (a + b)[1..] == a[1..] + b;
      TiedWithAppend(a[1..], b, y, before);
    } else {
      assert a + b == b;
    }
  }

  /** Ties form an equivalence class under a strict weak order. */
  lemma TiedTransitive<T(!new)>(a: T, b: T, c: T, before: (T, T) -> bool)
    requires StrictWeakOrder(before)
    requires Tied(a, b, before) && Tied(b, c, before)
    ensures Tied(a, c, before)
  {
  }

  /** Places `x` in front of the first element of `t` it does not have to follow. */
  function Insert<T>(x: T, t: seq<T>, before: (T, T) -> bool): (r: seq<T>)
    ensures multiset(r) == multiset([x] + t)
    ensures |r| == |t| + 1
  {
    if |t| == 0 || !before(t[0], x) then [x] + t
    else
      var r := [t[0]] + Insert(x, t[1..], before);
      assert multiset([x] + t) == multiset([t[0]]) + multiset([x] + t[1..]) by {
        assert t == [t[0]] + t[1..];
      }
      r
  }

  lemma {:induction false} InsertSorted<T(!new)>(x: T, t: seq<T>, before: (T, T) -> bool)
    requires StrictWeakOrder(before)
    requires Sorted(t, before)
    ensures Sorted(Insert(x, t, before), before)
    decreases |t|
  {
    if |t| > 0 && before(t[0], x) {
      var tail := Insert(x, t[1..], before);
      InsertSorted(x, t[1..], before);
      forall j | 0 <= j < |tail|
        ensures !before(tail[j], t[0])
      {
        assert tail[j] in multiset(tail);
        assert tail[j] in multiset([x] + t[1..]);
        if tail[j] != x {
          assert tail[j] in t[1..];
        }
      }
      assert Insert(x, t, before) == [t[0]] + tail;
    } else if |t| > 0 {
      forall j | 0 <= j < |t|
        ensures !before(t[j], x)
      {
        if j > 0 {
          assert !before(t[j], t[0]);
        }
      }
    }
  }

  lemma {:induction false} InsertKeepsTies<T(!new)>(x: T, t: seq<T>, y: T, before: (T, T) -> bool)
    requires StrictWeakOrder(before)
    ensures TiedWith(Insert(x, t, before), y, before) == TiedWith([x] + t, y, before)
    decreases |t|
  {
    if |t| > 0 && before(t[0], x) {
      var tail := Insert(x, t[1..], before);
      var tx, t0, tt := TiedWith([x], y, before), TiedWith([t[0]], y, before), TiedWith(t[1..], y, before);
      InsertKeepsTies(x, t[1..], y, before);
      TiedWithAppend([x], t[1..], y, before);
      InsertPassing(x, t, before);
      TiedWithAppend([t[0]], tail, y, before);
      TiedWithAppend([x], t, y, before);
      TiedWithCons(t, y, before);
      PassedNotBothTied(x, t[0], y, before);
      SwapAroundEmpty(tx, t0, tt);
    }
  }

  /** Inserting past the first element keeps that element in front. */
  lemma InsertPassing<T>(x: T, t: seq<T>, before: (T, T) -> bool)
    requires |t| > 0 && before(t[0], x)
    ensures Insert(x, t, before) == [t[0]] + Insert(x, t[1..], before)
  {
  }

  lemma TiedWithCons<T>(t: seq<T>, y: T, before: (T, T) -> bool)
    requires |t| > 0
    ensures TiedWith(t, y, before) == TiedWith([t[0]], y, before) + TiedWith(t[1..], y, before)
  {
    assert [t[0]][1..] == [];
  }

  /** An element that must come before `x` is not in the same class of ties as `x`. */
  lemma PassedNotBothTied<T(!new)>(x: T, a: T, y: T, before: (T, T) -> bool)
    requires StrictWeakOrder(before)
    requires before(a, x)
    ensures TiedWith([x], y, before) == [] || TiedWith([a], y, before) == []
  {
    assert TiedWith([x], y, before) == (if Tied(x, y, before) then [x] else []) + TiedWith([], y, before);
    assert TiedWith([a], y, before) == (if Tied(a, y, before) then [a] else []) + TiedWith([], y, before);
    assert !(Tied(x, y, before) && Tied(a, y, before));
  }

  lemma SwapAroundEmpty<T>(a: seq<T>, b: seq<T>, c: seq<T>)
    requires a == [] || b == []
    ensures b + (a + c) == a + (b + c)
  {
    if a == [] {
      assert a + c == c && a + (b + c) == b + c;
    } else {
      assert b + (a + c) == a + c && b + c == c;
    }
  }

  /** The stable sort: insert each element in front of the sorted rest. */
  function Sort<T(!new)>(s: seq<T>, before: (T, T) -> bool): (r: seq<T>)
    requires StrictWeakOrder(before)
    ensures IsStableSortOf(r, s, before)
  {
    if |s| == 0 then []
    else
      var rest := Sort(s[1..], before);
      var r := Insert(s[0], rest, before);
      InsertSorted(s[0], rest, before);
      SortKeepsTies(s, rest, r, before);
      assert s == [s[0]] + s[1..];
      r
  }

  lemma SortKeepsTies<T(!new)>(s: seq<T>, rest: seq<T>, r: seq<T>, before: (T, T) -> bool)
    requires StrictWeakOrder(before)
    requires |s| > 0 && r == Insert(s[0], rest, before)
    requires forall y :: TiedWith(rest, y, before) == TiedWith(s[1..], y, before)
    ensures forall y :: TiedWith(r, y, before) == TiedWith(s, y, before)
  {
    forall y
      ensures TiedWith(r, y, before) == TiedWith(s, y, before)
    {
      InsertKeepsTies(s[0], rest, y, before);
      TiedWithAppend([s[0]], rest, y, before);
      TiedWithAppend([s[0]], s[1..], y, before);
      assert s == [s[0]] + s[1..];
    }
  }

  /** A stable sort has exactly one result, whichever algorithm computes it. */
  lemma {:induction false} StableSortIsUnique<T(!new)>(r1: seq<T>, r2: seq<T>, s: seq<T>, before: (T, T) -> bool)
    requires StrictWeakOrder(before)
    requires IsStableSortOf(r1, s, before) && IsStableSortOf(r2, s, before)
    ensures r1 == r2
  {
    SortedTiesDetermine(r1, r2, before);
  }

  lemma {:induction false} SortedTiesDetermine<T(!new)>(r1: seq<T>, r2: seq<T>, before: (T, T) -> bool)
    requires StrictWeakOrder(before)
    requires multiset(r1) == multiset(r2)
    requires Sorted(r1, before) && Sorted(r2, before)
    requires forall y :: TiedWith(r1, y, before) == TiedWith(r2, y, before)
    ensures r1 == r2
    decreases |r1|
  {
    if |r1| == 0 {
      assert |multiset(r2)| == 0;
    } else {
      assert |r2| == |r1| by {
        assert |multiset(r1)| == |r1| && |multiset(r2)| == |r2|;
      }
      SameHead(r1, r2, before);
      var a := r1[0];
      TailMultiset(r1, r2);
      forall y
        ensures TiedWith(r1[1..], y, before) == TiedWith(r2[1..], y, before)
      {
        TailTies(r1, r2, y, before);
      }
      SortedTail(r1, before);
      SortedTail(r2, before);
      SortedTiesDetermine(r1[1..], r2[1..], before);
      assert r1 == [a] + r1[1..] && r2 == [a] + r2[1..];
    }
  }

  /** Two sorted arrangements with the same ties start with the same element. */
  lemma SameHead<T(!new)>(r1: seq<T>, r2: seq<T>, before: (T, T) -> bool)
    requires StrictWeakOrder(before)
    requires |r1| > 0 && |r2| > 0 && multiset(r1) == multiset(r2)
    requires Sorted(r1, before) && Sorted(r2, before)
    requires forall y :: TiedWith(r1, y, before) == TiedWith(r2, y, before)
    ensures r1[0] == r2[0]
  {
    var a, b := r1[0], r2[0];
    assert !before(a, b) by {
      assert a in multiset(r2);
      var j :| 0 <= j < |r2| && r2[j] == a;
      assert j == 0 || !before(r2[j], r2[0]);
    }
    assert !before(b, a) by {
      assert b in multiset(r1);
      var j :| 0 <= j < |r1| && r1[j] == b;
      assert j == 0 || !before(r1[j], r1[0]);
    }
    assert TiedWith(r1, a, before)[0] == a;
    assert TiedWith(r2, a, before)[0] == b;
  }

  lemma TailMultiset<T>(r1: seq<T>, r2: seq<T>)
    requires |r1| > 0 && |r2| > 0 && r1[0] == r2[0] && multiset(r1) == multiset(r2)
    ensures multiset(r1[1..]) == multiset(r2[1..])
  {
    assert r1 == [r1[0]] + r1[1..] && r2 == [r2[0]] + r2[1..];
    assert multiset(r1[1..]) == multiset(r1) - multiset([r1[0]]);
    assert multiset(r2[1..]) == multiset(r2) - multiset([r2[0]]);
  }

  lemma TailTies<T>(r1: seq<T>, r2: seq<T>, y: T, before: (T, T) -> bool)
    requires |r1| > 0 && |r2| > 0 && r1[0] == r2[0]
    requires TiedWith(r1, y, before) == TiedWith(r2, y, before)
    ensures TiedWith(r1[1..], y, before) == TiedWith(r2[1..], y, before)
  {
    var p := TiedWith([r1[0]], y, before);
    assert r1 == [r1[0]] + r1[1..] && r2 == [r2[0]] + r2[1..];
    TiedWithAppend([r1[0]], r1[1..], y, before);
    TiedWithAppend([r2[0]], r2[1..], y, before);
    assert TiedWith(r1[1..], y, before) == (p + TiedWith(r1[1..], y, before))[|p|..];
    assert TiedWith(r2[1..], y, before) == (p + TiedWith(r2[1..], y, before))[|p|..];
  }

  lemma SortedTail<T>(r: seq<T>, before: (T, T) -> bool)
    requires |r| > 0 && Sorted(r, before)
    ensures Sorted(r[1..], before)
  {
    forall i, j | 0 <= i < j < |r| - 1
      ensures !before(r[1..][j], r[1..][i])
    {
      assert r[1..][j] == r[j + 1] && r[1..][i] == r[i + 1];
    }
  }

  /** Sorting what is already in order changes nothing. */
  lemma SortOfSorted<T(!new)>(s: seq<T>, before: (T, T) -> bool)
    requires StrictWeakOrder(before)
    requires Sorted(s, before)
    ensures Sort(s, before) == s
  {
    StableSortIsUnique(Sort(s, before), s, s, before);
  }

  /** A filter keeps the order of what it keeps. */
  lemma {:induction false} FilterKeepsSorted<T(!new)>(s: seq<T>, p: T -> bool, before: (T, T) -> bool)
    requires Sorted(s, before)
    ensures Sorted(Filter(s, p), before)
    decreases |s|
  {
    if |s| > 0 {
      SortedTail(s, before);
      FilterKeepsSorted(s[1..], p, before);
      var rest := Filter(s[1..], p);
      if p(s[0]) {
        forall j | 0 <= j < |rest|
          ensures !before(rest[j], s[0])
        {
          assert rest[j] in s[1..];
        }
      }
    }
  }
}
