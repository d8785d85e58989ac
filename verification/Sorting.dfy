/** Stable sorting, best first, as `sorted(..., reverse=True)` does it. */
module Sorting {
  import opened Seqs

  type Order<!T> = (T, T) -> bool

  /** `ge(a, b)`: a is at least as good as b. */
  ghost predicate TotalPreorder<T(!new)>(ge: Order<T>) {
    && (forall a, b :: ge(a, b) || ge(b, a))
    && (forall a, b, c :: ge(a, b) && ge(b, c) ==> ge(a, c))
  }

  ghost predicate Sorted<T>(xs: seq<T>, ge: Order<T>) {
    forall i, j :: 0 <= i < j < |xs| ==> ge(xs[i], xs[j])
  }

  function Insert<T>(xs: seq<T>, x: T, ge: Order<T>): seq<T> {
    if xs == [] then [x]
    else if ge(xs[0], x) then [xs[0]] + Insert(xs[1..], x, ge)
    else [x] + xs
  }

  /** Equally good elements keep their order. */
  function Sort<T>(xs: seq<T>, ge: Order<T>): seq<T> {
    if xs == [] then [] else Insert(Sort(xs[..|xs| - 1], ge), xs[|xs| - 1], ge)
  }

  lemma {:induction false} InsertMembers<T>(xs: seq<T>, x: T, ge: Order<T>)
    ensures multiset(Insert(xs, x, ge)) == multiset(xs) + multiset{x}
  {
    if xs != [] {
      assert xs == [xs[0]] + xs[1..];
      if ge(xs[0], x) {
        InsertMembers(xs[1..], x, ge);
      }
    }
  }

  lemma {:induction false} InsertSorted<T(!new)>(xs: seq<T>, x: T, ge: Order<T>)
    requires TotalPreorder(ge) && Sorted(xs, ge)
    ensures Sorted(Insert(xs, x, ge), ge)
    ensures multiset(Insert(xs, x, ge)) == multiset(xs) + multiset{x}
  {
    InsertMembers(xs, x, ge);
    if xs != [] && ge(xs[0], x) {
      var rest := Insert(xs[1..], x, ge);
      InsertSorted(xs[1..], x, ge);
      forall y | y in rest ensures ge(xs[0], y) {
        assert y in multiset(xs[1..]) + multiset{x};
      }
    } else if xs != [] {
      assert ge(x, xs[0]);
      forall y | y in xs ensures ge(x, y) {
        var i :| 0 <= i < |xs| && xs[i] == y;
        assert ge(xs[0], xs[i]);
      }
    }
  }

  lemma {:induction false} SortSorts<T(!new)>(xs: seq<T>, ge: Order<T>)
    requires TotalPreorder(ge)
    ensures Sorted(Sort(xs, ge), ge)
    ensures multiset(Sort(xs, ge)) == multiset(xs)
  {
    if xs != [] {
      var n := |xs| - 1;
      SortSorts(xs[..n], ge);
      InsertSorted(Sort(xs[..n], ge), xs[n], ge);
      assert xs == xs[..n] + [xs[n]];
    }
  }

  /** Elements of a class that the order does not tell apart stay in their order. */
  lemma {:induction false} InsertIsStable<T(!new)>(xs: seq<T>, x: T, ge: Order<T>, p: T -> bool)
    requires TotalPreorder(ge) && Sorted(xs, ge) && forall a, b :: p(a) && p(b) ==> ge(a, b)
    ensures Keep(Insert(xs, x, ge), p) == Keep(xs, p) + if p(x) then [x] else []
  {
    if xs != [] && ge(xs[0], x) {
      InsertIsStable(xs[1..], x, ge, p);
    } else if p(x) {
      assert forall i :: 0 <= i < |xs| ==> !p(xs[i]) || ge(xs[0], xs[i]);
      KeepNone(xs, p);
    }
  }

  lemma {:induction false} SortIsStable<T(!new)>(xs: seq<T>, ge: Order<T>, p: T -> bool)
    requires TotalPreorder(ge) && forall a, b :: p(a) && p(b) ==> ge(a, b)
    ensures Keep(Sort(xs, ge), p) == Keep(xs, p)
  {
    if xs != [] {
      var n := |xs| - 1;
      SortSorts(xs[..n], ge);
      SortIsStable(xs[..n], ge, p);
      InsertIsStable(Sort(xs[..n], ge), xs[n], ge, p);
      assert xs == xs[..n] + [xs[n]];
      KeepLast(xs[..n], xs[n], p);
    }
  }

  lemma SortMembers<T(!new)>(xs: seq<T>, ge: Order<T>)
    requires TotalPreorder(ge)
    ensures |Sort(xs, ge)| == |xs| && forall x :: x in Sort(xs, ge) <==> x in xs
  {
    SortSorts(xs, ge);
    assert |multiset(Sort(xs, ge))| == |multiset(xs)|;
    forall x ensures x in Sort(xs, ge) <==> x in xs {
      assert x in multiset(Sort(xs, ge)) <==> x in multiset(xs);
    }
  }
}
