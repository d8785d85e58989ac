/**
  The boolean query for a batch of file ids: a balanced tree of ORs, as the file server evaluates it.
*/
module FileIdQuery {
  import opened Wrappers
  import opened Seqs
  import opened Text

  datatype Expr = Eq(id: string) | Or(left: Expr, right: Expr)

  function Leaves(e: Expr): seq<string> {
    match e
    case Eq(id) => [id]
    case Or(l, r) => Leaves(l) + Leaves(r)
  }

  /** How the file server evaluates a query on one file. */
  predicate Holds(e: Expr, id: string) {
    match e
    case Eq(x) => x == id
    case Or(l, r) => Holds(l, id) || Holds(r, id)
  }

  function Depth(e: Expr): nat {
    match e
    case Eq(_) => 0
    case Or(l, r) => 1 + Max(Depth(l), Depth(r))
  }

  function InnerNodes(e: Expr): nat {
    match e
    case Eq(_) => 0
    case Or(l, r) => 1 + InnerNodes(l) + InnerNodes(r)
  }

  function LeavesOf(es: seq<Expr>): seq<string> {
    if es == [] then [] else Leaves(es[0]) + LeavesOf(es[1..])
  }

  function InnerOf(es: seq<Expr>): nat {
    if es == [] then 0 else InnerNodes(es[0]) + InnerOf(es[1..])
  }

  lemma {:induction false} LeavesConcat(a: seq<Expr>, b: seq<Expr>)
    ensures LeavesOf(a + b) == LeavesOf(a) + LeavesOf(b)
    ensures InnerOf(a + b) == InnerOf(a) + InnerOf(b)
  {
    if a == [] {
      assert a + b == b;
    } else {
      assert (a + b)[1..] == a[1..] + b;
      LeavesConcat(a[1..], b);
    }
  }

  /** The rounds of pairwise folding that `n` expressions need. */
  function Rounds(n: nat): nat {
    if n <= 1 then 0 else 1 + Rounds((n + 1) / 2)
  }

  function Power2(n: nat): nat {
    if n == 0 then 1 else 2 * Power2(n - 1)
  }

  /** `Rounds` is the binary logarithm, rounded up. */
  lemma {:induction false} RoundsIsLog2(n: nat)
    requires n >= 1
    ensures n <= Power2(Rounds(n))
    ensures n > 1 ==> Power2(Rounds(n) - 1) < n
  {
    if n > 1 {
      RoundsIsLog2((n + 1) / 2);
    }
  }

  /** Pairwise folding to one balanced tree; no expression at all is an error. */
  method NestedOr(expressions: seq<Expr>) returns (tree: Option<Expr>)
    ensures tree.None? <==> expressions == []
    ensures tree.Some? ==> Leaves(tree.value) == LeavesOf(expressions)
    ensures tree.Some? ==> InnerNodes(tree.value) == InnerOf(expressions) + |expressions| - 1
    ensures tree.Some? && (forall i :: 0 <= i < |expressions| ==> expressions[i].Eq?) ==>
              Depth(tree.value) == Rounds(|expressions|)
  {
    if expressions == [] {
      return None;
    }
    var level := expressions;
    ghost var round := 0;
    ghost var flat := forall i :: 0 <= i < |expressions| ==> expressions[i].Eq?;
    while |level| > 1
      invariant level != []
      invariant LeavesOf(level) == LeavesOf(expressions)
      invariant InnerOf(level) + |level| == InnerOf(expressions) + |expressions|
      invariant Rounds(|level|) + round == Rounds(|expressions|)
      invariant flat ==> Depth(level[0]) == round && forall i :: 0 <= i < |level| ==> Depth(level[i]) <= round
    {
      level := FoldPairs(level, round);
      round := round + 1;
    }
    assert level == [level[0]];
    tree := Some(level[0]);
  }

  /** The i-th expression of the next level: two neighbours joined, or an odd last one passed on. */
  function PairAt(level: seq<Expr>, i: nat): Expr
    requires 2 * i < |level|
  {
    if 2 * i + 1 < |level| then Or(level[2 * i], level[2 * i + 1]) else level[2 * i]
  }

  ghost predicate FoldedPrefix(level: seq<Expr>, next: seq<Expr>) {
    && 2 * |next| <= |level| + 1
    && (forall i :: 0 <= i < |next| ==> next[i] == PairAt(level, i))
    && var done := Min(2 * |next|, |level|);
       LeavesOf(next) == LeavesOf(level[..done]) && InnerOf(next) + |next| == InnerOf(level[..done]) + done
  }

  /** One round of the folding. */
  method FoldPairs(level: seq<Expr>, ghost round: nat) returns (next: seq<Expr>)
    requires |level| > 1
    ensures |next| == (|level| + 1) / 2
    ensures LeavesOf(next) == LeavesOf(level)
    ensures InnerOf(next) + |next| == InnerOf(level) + |level|
    ensures (Depth(level[0]) == round && forall i :: 0 <= i < |level| ==> Depth(level[i]) <= round) ==>
              Depth(next[0]) == round + 1 && forall i :: 0 <= i < |next| ==> Depth(next[i]) <= round + 1
  {
    next := [];
    var index := 0;
    assert level[..0] == [] && FoldedPrefix(level, []);
    while index < |level|
      invariant index == 2 * |next| && FoldedPrefix(level, next)
    {
      PairStep(level, next);
      if index + 1 >= |level| {
        next := next + [level[index]];
      } else {
        next := next + [Or(level[index], level[index + 1])];
      }
      index := index + 2;
    }
    assert level[..|level|] == level;
    PairDepth(level, next, round);
  }

  lemma PairStep(level: seq<Expr>, next: seq<Expr>)
    requires FoldedPrefix(level, next) && 2 * |next| < |level|
    ensures FoldedPrefix(level, next + [PairAt(level, |next|)])
  {
    hide LeavesOf, InnerOf;
    var index := 2 * |next|;
    var node := PairAt(level, |next|);
    var done := Min(index + 2, |level|);
    var step := level[index..done];
    assert level[..done] == level[..index] + step;
    LeavesConcat(level[..index], step);
    LeavesConcat(next, [node]);
    StepLeaves(step, node);
  }

  lemma StepLeaves(step: seq<Expr>, node: Expr)
    requires step == [node] || (|step| == 2 && node == Or(step[0], step[1]))
    ensures LeavesOf([node]) == LeavesOf(step)
    ensures InnerOf([node]) + 1 == InnerOf(step) + |step|
  {
    if |step| == 2 {
      assert step[1..] == [step[1]] && [step[1]][1..] == [];
      assert LeavesOf(step) == Leaves(step[0]) + LeavesOf([step[1]]);
    }
  }

  lemma PairDepth(level: seq<Expr>, next: seq<Expr>, round: nat)
    requires |level| > 1 && |next| == (|level| + 1) / 2
    requires forall i :: 0 <= i < |next| ==> next[i] == PairAt(level, i)
    ensures (Depth(level[0]) == round && forall i :: 0 <= i < |level| ==> Depth(level[i]) <= round) ==>
              Depth(next[0]) == round + 1 && forall i :: 0 <= i < |next| ==> Depth(next[i]) <= round + 1
  {
    assert level[2 * 0] == level[0];
  }

  lemma {:induction false} HoldsIffLeaf(e: Expr, id: string)
    ensures Holds(e, id) <==> id in Leaves(e)
  {
    if e.Or? {
      HoldsIffLeaf(e.left, id);
      HoldsIffLeaf(e.right, id);
    }
  }

  // ----- querying in batches -----

  /** First occurrences, in order. */
  function Unique(ids: seq<string>): (r: seq<string>)
    ensures Distinct(r)
    ensures forall id :: id in r <==> id in ids
  {
    if ids == [] then []
    else
      var r := Unique(ids[..|ids| - 1]);
      var last := ids[|ids| - 1];
      assert ids == ids[..|ids| - 1] + [last];
      if last in r then r else r + [last]
  }

  /** The ids that are numeric once stripped. */
  function Numeric(ids: seq<string>): seq<string> {
    if ids == [] then []
    else
      var text := Strip(ids[|ids| - 1]);
      Numeric(ids[..|ids| - 1]) + if Digits(text) then [text] else []
  }

  lemma {:induction false} DigitsAreNumeric(ids: seq<string>)
    requires forall i :: 0 <= i < |ids| ==> Digits(ids[i])
    ensures Numeric(ids) == ids
  {
    if ids != [] {
      DigitsAreNumeric(ids[..|ids| - 1]);
      StripTight(ids[|ids| - 1]);
    }
  }

  /** The query for one batch: stripped, numeric, without repetition; `None` if nothing is left. */
  method BuildFileIdSearch(fileIds: seq<string>) returns (tree: Option<Expr>)
    ensures tree.None? <==> Numeric(fileIds) == []
    ensures tree.Some? ==> forall id :: Holds(tree.value, id) <==> id in Numeric(fileIds)
    ensures tree.Some? ==>
              var ids := Unique(Numeric(fileIds));
              InnerNodes(tree.value) == |ids| - 1 && Depth(tree.value) == Rounds(|ids|)
  {
    hide Strip, Digits, Unique, Numeric;
    var clean: seq<string> := [];
    var comparisons: seq<Expr> := [];
    var i := 0;
    assert clean == Unique(Numeric(fileIds[..0])) by { NoneNumeric(); }
    while i < |fileIds|
      invariant 0 <= i <= |fileIds|
      invariant clean == Unique(Numeric(fileIds[..i]))
      invariant |comparisons| == |clean|
      invariant forall j :: 0 <= j < |clean| ==> comparisons[j] == Eq(clean[j])
    {
      var text := Strip(fileIds[i]);
      NumericStep(fileIds, i);
      if Digits(text) && text !in clean {
        clean := clean + [text];
        comparisons := comparisons + [Eq(text)];
      }
      i := i + 1;
    }
    assert fileIds[..i] == fileIds;
    assert Numeric(fileIds) != [] ==> Numeric(fileIds)[0] in clean;
    assert clean != [] ==> clean[0] in Numeric(fileIds);
    EqLeaves(comparisons, clean);
    tree := NestedOr(comparisons);
    if tree.Some? {
      forall id ensures Holds(tree.value, id) <==> id in Numeric(fileIds) {
        HoldsIffLeaf(tree.value, id);
      }
    }
  }

  lemma NoneNumeric()
    ensures Unique(Numeric([])) == []
  {
  }

  lemma NumericStep(ids: seq<string>, i: nat)
    requires i < |ids|
    ensures var text, before := Strip(ids[i]), Unique(Numeric(ids[..i]));
            Unique(Numeric(ids[..i + 1])) == if Digits(text) && text !in before then before + [text] else before
  {
    hide Strip, Digits;
    var text, before := Strip(ids[i]), Numeric(ids[..i]);
    assert ids[..i + 1][..i] == ids[..i];
    assert (before + [text])[..|before|] == before;
    assert before + [] == before;
  }

  lemma {:induction false} EqLeaves(es: seq<Expr>, ids: seq<string>)
    requires |es| == |ids| && forall j :: 0 <= j < |ids| ==> es[j] == Eq(ids[j])
    ensures LeavesOf(es) == ids && InnerOf(es) == 0
  {
    if es != [] {
      EqLeaves(es[1..], ids[1..]);
      assert ids == [ids[0]] + ids[1..];
    }
  }
}
