/**
  Greedy selection of non-overlapping hits: longest and strongest first.  The same loop serves the
  exact and the fuzzy pass over a query and the exact pass over a document.
*/
module Spans {
  import opened Sorting

  /** A hit on text[start..end] with its ranking weights, best weight first, and what it refers to. */
  datatype Hit<+T> = Hit(start: nat, end: nat, weight: real, second: real, data: T)

  predicate Overlap<T>(a: Hit<T>, b: Hit<T>) {
    !(a.end <= b.start || a.start >= b.end)
  }

  predicate OverlapsAny<T>(h: Hit<T>, hs: seq<Hit<T>>) {
    exists i :: 0 <= i < |hs| && Overlap(h, hs[i])
  }

  /** The sort order: length, then weight, then the secondary weight. */
  predicate Stronger<T>(a: Hit<T>, b: Hit<T>) {
    var la, lb := a.end - a.start, b.end - b.start;
    la > lb || (la == lb && (a.weight > b.weight || (a.weight == b.weight && a.second >= b.second)))
  }

  lemma StrongerIsPreorder<T(!new)>()
    ensures TotalPreorder<Hit<T>>(Stronger)
  {
  }

  ghost predicate Covers<T>(h: Hit<T>, p: int) { h.start <= p < h.end }

  /** Two hits overlap when each starts before the other ends; for hits that are not empty: when they share a position. */
  lemma OverlapIff<T>(a: Hit<T>, b: Hit<T>)
    ensures Overlap(a, b) <==> a.start < b.end && b.start < a.end
    ensures a.start < a.end && b.start < b.end ==>
              (Overlap(a, b) <==> exists p :: Covers(a, p) && Covers(b, p))
  {
    var p := if a.start < b.start then b.start else a.start;
    assert Overlap(a, b) && a.start < a.end && b.start < b.end ==> Covers(a, p) && Covers(b, p);
  }

  /** The longer hit is the stronger one, at equal length the one of greater weight, then of greater second weight. */
  lemma StrongerIff<T>(a: Hit<T>, b: Hit<T>)
    ensures a.end - a.start != b.end - b.start ==> (Stronger(a, b) <==> a.end - a.start > b.end - b.start)
    ensures a.end - a.start == b.end - b.start && a.weight != b.weight ==> (Stronger(a, b) <==> a.weight > b.weight)
    ensures a.end - a.start == b.end - b.start && a.weight == b.weight ==> (Stronger(a, b) <==> a.second >= b.second)
  {
  }

  /** Hits are taken in the given order unless they overlap an occupied or an accepted one. */
  function Greedy<T>(hits: seq<Hit<T>>, occupied: seq<Hit<T>>): seq<Hit<T>> {
    if hits == [] then []
    else
      var n := |hits| - 1;
      var accepted := Greedy(hits[..n], occupied);
      if OverlapsAny(hits[n], occupied + accepted) then accepted else accepted + [hits[n]]
  }

  predicate Earlier<T>(a: Hit<T>, b: Hit<T>) { a.start <= b.start }

  /** The accepted hits in text order. */
  function Selected<T>(hits: seq<Hit<T>>, occupied: seq<Hit<T>>): seq<Hit<T>> {
    Sort(Greedy(Sort(hits, Stronger), occupied), Earlier)
  }

  method SelectSpans<T>(hits: seq<Hit<T>>, occupied: seq<Hit<T>>) returns (accepted: seq<Hit<T>>)
    ensures accepted == Selected(hits, occupied)
  {
    var order := Sort(hits, Stronger);
    accepted := [];
    var used := occupied;
    var i := 0;
    while i < |order|
      invariant 0 <= i <= |order|
      invariant accepted == Greedy(order[..i], occupied) && used == occupied + accepted
    {
      assert order[..i + 1][..i] == order[..i];
      if !OverlapsAny(order[i], used) {
        accepted := accepted + [order[i]];
        used := used + [order[i]];
      }
      i := i + 1;
    }
    assert order[..i] == order;
    accepted := Sort(accepted, Earlier);
  }

  ghost predicate PairwiseDisjoint<T>(hs: seq<Hit<T>>) {
    forall i, j :: 0 <= i < j < |hs| ==> !Overlap(hs[i], hs[j])
  }

  lemma {:induction false} GreedyIsDisjoint<T>(hits: seq<Hit<T>>, occupied: seq<Hit<T>>)
    ensures PairwiseDisjoint(Greedy(hits, occupied))
    ensures forall h :: h in Greedy(hits, occupied) ==> h in hits && !OverlapsAny(h, occupied)
  {
    if hits != [] {
      var n := |hits| - 1;
      var before := Greedy(hits[..n], occupied);
      GreedyIsDisjoint(hits[..n], occupied);
      if !OverlapsAny(hits[n], occupied + before) {
        forall i | 0 <= i < |occupied| ensures !Overlap(hits[n], occupied[i]) {
          assert (occupied + before)[i] == occupied[i];
        }
        forall i | 0 <= i < |before| ensures !Overlap(before[i], hits[n]) {
          assert (occupied + before)[|occupied| + i] == before[i];
        }
      }
    }
  }

  /** A hit that was not accepted overlaps an occupied span or an accepted hit that came before it. */
  lemma {:induction false} RejectedOverlaps<T>(hits: seq<Hit<T>>, occupied: seq<Hit<T>>, k: nat)
    requires k < |hits|
    ensures hits[k] in Greedy(hits, occupied) || OverlapsAny(hits[k], occupied) ||
            exists j :: 0 <= j < k && hits[j] in Greedy(hits, occupied) && Overlap(hits[k], hits[j])
  {
    var n := |hits| - 1;
    var before := Greedy(hits[..n], occupied);
    if k < n {
      RejectedOverlaps(hits[..n], occupied, k);
      assert hits[..n][k] == hits[k];
    } else if OverlapsAny(hits[n], occupied + before) {
      var i :| 0 <= i < |occupied + before| && Overlap(hits[n], (occupied + before)[i]);
      if i < |occupied| {
        assert Overlap(hits[n], occupied[i]);
      } else {
        var h := before[i - |occupied|];
        GreedyIsDisjoint(hits[..n], occupied);
        assert h in before;
        var j :| 0 <= j < n && hits[..n][j] == h;
        assert hits[j] == h;
      }
    }
  }

  lemma SelectedMembers<T(!new)>(hits: seq<Hit<T>>, occupied: seq<Hit<T>>)
    ensures forall h :: h in Selected(hits, occupied) <==> h in Greedy(Sort(hits, Stronger), occupied)
  {
    SortMembers(Greedy(Sort(hits, Stronger), occupied), Earlier);
  }

  /**
    The selection is sound and maximal: two accepted hits are disjoint or the same, accepted hits
    avoid the occupied spans and come in text order, and every hit left out overlaps an occupied span
    or an accepted hit at least as strong.
  */
  lemma SelectionIsMaximal<T(!new)>(hits: seq<Hit<T>>, occupied: seq<Hit<T>>)
    ensures var accepted := Selected(hits, occupied);
            && (forall a, b :: a in accepted && b in accepted ==> a == b || !Overlap(a, b))
            && (forall i, j :: 0 <= i < j < |accepted| ==> accepted[i].start <= accepted[j].start)
            && (forall h :: h in accepted ==> h in hits && !OverlapsAny(h, occupied))
            && forall h :: h in hits && h !in accepted ==>
                 OverlapsAny(h, occupied) || exists a :: a in accepted && Overlap(h, a) && Stronger(a, h)
  {
    StrongerIsPreorder<T>();
    SortSorts(hits, Stronger);
    SortMembers(hits, Stronger);
    SelectedMembers(hits, occupied);
    var order := Sort(hits, Stronger);
    var greedy := Greedy(order, occupied);
    GreedyIsDisjoint(order, occupied);
    SortSorts(greedy, Earlier);
    hide Sort, Greedy, OverlapsAny;
    var accepted := Selected(hits, occupied);
    forall a, b | a in accepted && b in accepted ensures a == b || !Overlap(a, b) {
      var i :| 0 <= i < |greedy| && greedy[i] == a;
      var j :| 0 <= j < |greedy| && greedy[j] == b;
    }
    forall h | h in hits && h !in accepted
      ensures OverlapsAny(h, occupied) || exists a :: a in accepted && Overlap(h, a) && Stronger(a, h)
    {
      var k :| 0 <= k < |order| && order[k] == h;
      RejectedOverlaps(order, occupied, k);
    }
  }
}
