/**
  Adaptive re-splitting: a chunk on which structured extraction fails is cut into smaller
  overlapping parts, up to a depth limit.  The extractor is an arbitrary oracle of the chunk and of
  the path of the attempt.
*/
module AdaptiveSplit {
  import opened Seqs
  import opened Text
  import opened Chunking

  datatype Limits = Limits(minChars: int, overlapChars: int, maxDepth: int)

  /** `Malformed` is structured output that stayed invalid; `Broken` is any other exception. */
  datatype Outcome<+T> = Extracted(found: seq<T>) | Malformed | Broken

  /** Path of part numbers, the root number first. */
  type Label = seq<nat>

  type Extractor<!T> = (string, Label) -> Outcome<T>

  /** One final attempt: where its text starts in the document, the text, and how it ended. */
  datatype Leaf<+T> = Leaf(start: nat, text: string, path: Label, outcome: Outcome<T>)

  function PartTarget(l: Limits, chunk: string): int { Max(l.minChars, |chunk| / 2) }

  function PartOverlap(l: Limits, chunk: string): int { Min(l.overlapChars, Max(0, PartTarget(l, chunk) / 4)) }

  function Candidates(l: Limits, chunk: string): seq<Window> {
    ChunkWindows(chunk, PartTarget(l, chunk), PartOverlap(l, chunk))
  }

  /** A part is not blank and not the chunk itself. */
  function ProperPart(chunk: string): Window -> bool {
    w => Strip(Slice(chunk, w)) != "" && Slice(chunk, w) != chunk
  }

  function Parts(l: Limits, chunk: string): seq<Window> {
    Keep(Candidates(l, chunk), ProperPart(chunk))
  }

  predicate Splits(l: Limits, chunk: string, depth: nat) {
    depth < l.maxDepth && |chunk| > l.minChars && |Parts(l, chunk)| >= 2
  }

  function Height(l: Limits, depth: nat): nat { Max(0, l.maxDepth - depth) }

  function Leaves<T>(l: Limits, ex: Extractor<T>, chunk: string, start: nat, depth: nat, path: Label): seq<Leaf<T>>
    decreases Height(l, depth), 1, 0
  {
    if ex(chunk, path).Malformed? && Splits(l, chunk, depth)
    then PartLeaves(l, ex, chunk, start, 0, depth, path)
    else [Leaf(start, chunk, path, ex(chunk, path))]
  }

  /** The leaves of the parts of `chunk` from part `k` on. */
  function PartLeaves<T>(l: Limits, ex: Extractor<T>, chunk: string, start: nat, k: nat, depth: nat, path: Label): seq<Leaf<T>>
    requires k <= |Parts(l, chunk)| && depth < l.maxDepth
    decreases Height(l, depth), 0, |Parts(l, chunk)| - k
  {
    var parts := Parts(l, chunk);
    if k == |parts| then []
    else Leaves(l, ex, Slice(chunk, parts[k]), start + parts[k].start, depth + 1, path + [k + 1])
         + PartLeaves(l, ex, chunk, start, k + 1, depth, path)
  }

  function Attempts<T>(l: Limits, ex: Extractor<T>, chunk: string, depth: nat, path: Label): nat
    decreases Height(l, depth), 1, 0
  {
    if ex(chunk, path).Malformed? && Splits(l, chunk, depth) then 1 + PartAttempts(l, ex, chunk, 0, depth, path) else 1
  }

  function PartAttempts<T>(l: Limits, ex: Extractor<T>, chunk: string, k: nat, depth: nat, path: Label): nat
    requires k <= |Parts(l, chunk)| && depth < l.maxDepth
    decreases Height(l, depth), 0, |Parts(l, chunk)| - k
  {
    var parts := Parts(l, chunk);
    if k == |parts| then 0
    else Attempts(l, ex, Slice(chunk, parts[k]), depth + 1, path + [k + 1]) + PartAttempts(l, ex, chunk, k + 1, depth, path)
  }

  /** When an attempt is split, and into what: the parts are the chunks of the text at half its size, or at the least size. */
  lemma SplitsExactly<T>(l: Limits, ex: Extractor<T>, chunk: string, start: nat, depth: nat, path: Label)
    ensures var target := if |chunk| / 2 > l.minChars then |chunk| / 2 else l.minChars;
            var quarter := if target >= 0 then target / 4 else 0;
            var overlap := if l.overlapChars < quarter then l.overlapChars else quarter;
            Parts(l, chunk) == Keep(ChunkWindows(chunk, target, overlap), ProperPart(chunk))
    ensures ex(chunk, path) == Malformed && depth < l.maxDepth && l.minChars < |chunk| && |Parts(l, chunk)| >= 2 ==>
              Leaves(l, ex, chunk, start, depth, path) == PartLeaves(l, ex, chunk, start, 0, depth, path)
    ensures ex(chunk, path) != Malformed || depth >= l.maxDepth || l.minChars >= |chunk| || |Parts(l, chunk)| < 2 ==>
              Leaves(l, ex, chunk, start, depth, path) == [Leaf(start, chunk, path, ex(chunk, path))]
    ensures forall w :: w in Parts(l, chunk) ==> !Blank(Slice(chunk, w)) && Slice(chunk, w) != chunk
  {
    hide ChunkWindows, Keep, PartLeaves;
    forall w | w in Parts(l, chunk) ensures !Blank(Slice(chunk, w)) && Slice(chunk, w) != chunk {
      KeepMembers(Candidates(l, chunk), ProperPart(chunk), w);
      StripBlank(Slice(chunk, w));
    }
  }

  /** Everything the successful attempts found, in order. */
  function Found<T>(leaves: seq<Leaf<T>>): seq<T> {
    if leaves == [] then []
    else (if leaves[0].outcome.Extracted? then leaves[0].outcome.found else []) + Found(leaves[1..])
  }

  /** The labels of the failed attempts, in order. */
  function Failures<T>(leaves: seq<Leaf<T>>): seq<Label> {
    if leaves == [] then []
    else (if leaves[0].outcome.Extracted? then [] else [leaves[0].path]) + Failures(leaves[1..])
  }

  predicate AnySuccess<T>(leaves: seq<Leaf<T>>) {
    exists i :: 0 <= i < |leaves| && leaves[i].outcome.Extracted?
  }

  lemma {:induction false} LeavesConcat<T>(a: seq<Leaf<T>>, b: seq<Leaf<T>>)
    ensures Found(a + b) == Found(a) + Found(b)
    ensures Failures(a + b) == Failures(a) + Failures(b)
    ensures AnySuccess(a + b) <==> AnySuccess(a) || AnySuccess(b)
  {
    hide AnySuccess;
    SuccessConcat(a, b);
    if a == [] {
      assert a + b == b;
    } else {
      assert (a + b)[1..] == a[1..] + b;
      LeavesConcat(a[1..], b);
    }
  }

  lemma SuccessConcat<T>(a: seq<Leaf<T>>, b: seq<Leaf<T>>)
    ensures AnySuccess(a + b) <==> AnySuccess(a) || AnySuccess(b)
  {
    if AnySuccess(a) {
      var i :| 0 <= i < |a| && a[i].outcome.Extracted?;
      assert (a + b)[i] == a[i];
    }
    if AnySuccess(b) {
      var i :| 0 <= i < |b| && b[i].outcome.Extracted?;
      assert (a + b)[|a| + i] == b[i];
    }
  }

  // ----- cost -----

  /** A split gives at most four parts. */
  lemma AtMostFourParts(l: Limits, chunk: string)
    ensures |Parts(l, chunk)| <= 4
  {
    var target, overlap := PartTarget(l, chunk), PartOverlap(l, chunk);
    var c := ChunkChars(target);
    KeepLength(Candidates(l, chunk), ProperPart(chunk));
    hide Keep;
    if |chunk| > c {
      var ws := AllWindows(chunk, target, overlap);
      WindowCount(chunk, target, overlap);
      KeptLength(chunk, ws);
      assert 3 * Advance(c) >= c + 1 >= |chunk| - c;
      if |ws| >= 5 {
        MulAtLeast(|ws| - 2, 3, Advance(c));
      }
    }
  }

  lemma MulAtLeast(a: int, b: int, d: nat)
    requires a >= b
    ensures a * d >= b * d
  {
    assert (a - b) * d >= 0;
  }

  lemma {:induction false} KeptLength(text: string, ws: seq<Window>)
    ensures |Kept(text, ws)| <= |ws|
  {
    if ws != [] {
      KeptLength(text, ws[1..]);
    }
  }

  function Power4(n: nat): nat {
    if n == 0 then 1 else 4 * Power4(n - 1)
  }

  /**
    One root costs at most (4^(h+1) - 1) / 3 extraction attempts, h being the remaining depth,
    whatever the extractor answers.
  */
  lemma {:induction false} AttemptBound<T>(l: Limits, ex: Extractor<T>, chunk: string, depth: nat, path: Label)
    ensures 3 * Attempts(l, ex, chunk, depth, path) + 1 <= Power4(Height(l, depth) + 1)
    decreases Height(l, depth), 1, 0
  {
    hide Parts;
    var h := Height(l, depth);
    Power4Positive(h);
    if ex(chunk, path).Malformed? && Splits(l, chunk, depth) {
      AtMostFourParts(l, chunk);
      PartAttemptBound(l, ex, chunk, 0, depth, path);
      assert 3 * PartAttempts(l, ex, chunk, 0, depth, path) <= |Parts(l, chunk)| * (Power4(h) - 1);
      MulAtLeast(4, |Parts(l, chunk)|, Power4(h) - 1);
    }
  }

  lemma {:induction false} Power4Positive(n: nat)
    ensures Power4(n) >= 1
  {
    if n > 0 {
      Power4Positive(n - 1);
    }
  }

  lemma {:induction false} PartAttemptBound<T>(l: Limits, ex: Extractor<T>, chunk: string, k: nat, depth: nat, path: Label)
    requires k <= |Parts(l, chunk)| && depth < l.maxDepth
    ensures 3 * PartAttempts(l, ex, chunk, k, depth, path) <= (|Parts(l, chunk)| - k) * (Power4(Height(l, depth)) - 1)
    decreases Height(l, depth), 0, |Parts(l, chunk)| - k
  {
    hide Parts, Attempts, Power4, Slice;
    var parts := Parts(l, chunk);
    if k < |parts| {
      AttemptBound(l, ex, Slice(chunk, parts[k]), depth + 1, path + [k + 1]);
      PartAttemptBound(l, ex, chunk, k + 1, depth, path);
      var p := Power4(Height(l, depth)) - 1;
      assert Height(l, depth + 1) + 1 == Height(l, depth);
      assert (|parts| - k) * p == p + (|parts| - (k + 1)) * p;
    }
  }

  /** Every leaf is one attempt, and every other attempt was split in two or more. */
  lemma {:induction false} AttemptsAndLeaves<T>(l: Limits, ex: Extractor<T>, chunk: string, start: nat, depth: nat, path: Label)
    ensures var n := |Leaves(l, ex, chunk, start, depth, path)|;
            1 <= n <= Attempts(l, ex, chunk, depth, path) < 2 * n
    decreases Height(l, depth), 1, 0
  {
    hide Parts;
    if ex(chunk, path).Malformed? && Splits(l, chunk, depth) {
      PartAttemptsAndLeaves(l, ex, chunk, start, 0, depth, path);
    }
  }

  lemma {:induction false} PartAttemptsAndLeaves<T>(l: Limits, ex: Extractor<T>, chunk: string, start: nat, k: nat, depth: nat, path: Label)
    requires k <= |Parts(l, chunk)| && depth < l.maxDepth
    ensures var n, m := |PartLeaves(l, ex, chunk, start, k, depth, path)|, |Parts(l, chunk)| - k;
            m <= n <= PartAttempts(l, ex, chunk, k, depth, path) <= 2 * n - m
    decreases Height(l, depth), 0, |Parts(l, chunk)| - k
  {
    hide Parts, Leaves, Attempts, Slice;
    var parts := Parts(l, chunk);
    if k < |parts| {
      AttemptsAndLeaves(l, ex, Slice(chunk, parts[k]), start + parts[k].start, depth + 1, path + [k + 1]);
      PartAttemptsAndLeaves(l, ex, chunk, start, k + 1, depth, path);
    }
  }

  // ----- nothing is lost -----

  /** `leaf` is a contiguous piece of `text`, whose first character has document position `start`. */
  ghost predicate PieceOf<T>(leaf: Leaf<T>, text: string, start: nat) {
    && start <= leaf.start && leaf.start + |leaf.text| <= start + |text|
    && leaf.text == text[leaf.start - start..leaf.start - start + |leaf.text|]
  }

  lemma PartInChunk(l: Limits, chunk: string, k: nat)
    requires k < |Parts(l, chunk)|
    ensures var w := Parts(l, chunk)[k]; w.start < w.end <= |chunk| && Slice(chunk, w) == chunk[w.start..w.end]
  {
    var w := Parts(l, chunk)[k];
    ChunksFit(chunk, PartTarget(l, chunk), PartOverlap(l, chunk));
    KeepMembers(Candidates(l, chunk), ProperPart(chunk), w);
  }

  lemma PieceOfPiece<T>(leaf: Leaf<T>, chunk: string, start: nat, w: Window)
    requires w.start < w.end <= |chunk| && PieceOf(leaf, chunk[w.start..w.end], start + w.start)
    ensures PieceOf(leaf, chunk, start)
  {
    var o := leaf.start - start - w.start;
    SliceOfSlice(chunk, w.start, w.end, o, o + |leaf.text|);
  }

  lemma {:induction false} LeavesArePieces<T>(l: Limits, ex: Extractor<T>, chunk: string, start: nat, depth: nat, path: Label)
    ensures forall x :: x in Leaves(l, ex, chunk, start, depth, path) ==> PieceOf(x, chunk, start)
    ensures forall x :: x in Leaves(l, ex, chunk, start, depth, path) ==> x.outcome == ex(x.text, x.path)
    decreases Height(l, depth), 1, 0
  {
    hide Parts;
    if ex(chunk, path).Malformed? && Splits(l, chunk, depth) {
      PartLeavesArePieces(l, ex, chunk, start, 0, depth, path);
    } else {
      assert chunk[0..|chunk|] == chunk;
    }
  }

  lemma {:induction false} PartLeavesArePieces<T>(l: Limits, ex: Extractor<T>, chunk: string, start: nat, k: nat, depth: nat, path: Label)
    requires k <= |Parts(l, chunk)| && depth < l.maxDepth
    ensures forall x :: x in PartLeaves(l, ex, chunk, start, k, depth, path) ==> PieceOf(x, chunk, start)
    ensures forall x :: x in PartLeaves(l, ex, chunk, start, k, depth, path) ==> x.outcome == ex(x.text, x.path)
    decreases Height(l, depth), 0, |Parts(l, chunk)| - k
  {
    hide Parts, Leaves, PieceOf;
    var parts := Parts(l, chunk);
    if k < |parts| {
      var w := parts[k];
      PartInChunk(l, chunk, k);
      var first := Leaves(l, ex, Slice(chunk, w), start + w.start, depth + 1, path + [k + 1]);
      LeavesArePieces(l, ex, Slice(chunk, w), start + w.start, depth + 1, path + [k + 1]);
      forall x | x in first ensures PieceOf(x, chunk, start) {
        PieceOfPiece(x, chunk, start, w);
      }
      PartLeavesArePieces(l, ex, chunk, start, k + 1, depth, path);
    }
  }

  /** The part of a split chunk that contains position `p`. */
  lemma PartAt(l: Limits, chunk: string, depth: nat, p: nat) returns (k: nat)
    requires Splits(l, chunk, depth) && p < |chunk| && !Whitespace(chunk[p])
    ensures k < |Parts(l, chunk)| && Parts(l, chunk)[k].start <= p < Parts(l, chunk)[k].end <= |chunk|
  {
    hide Splits, Parts, Whitespace;
    var w := PartWindow(l, chunk, depth, p);
    k :| 0 <= k < |Parts(l, chunk)| && Parts(l, chunk)[k] == w;
  }

  lemma PartWindow(l: Limits, chunk: string, depth: nat, p: nat) returns (w: Window)
    requires Splits(l, chunk, depth) && p < |chunk| && !Whitespace(chunk[p])
    ensures w in Parts(l, chunk) && w.start <= p < w.end <= |chunk|
  {
    SplitMeansLong(l, chunk, depth);
    OneCharIsNotBlank(chunk, p);
    hide ChunkWindows, PartTarget, PartOverlap, Blank, Keep, ChunkChars, Splits, Overlap, Whitespace, ProperPart;
    w := StretchInOneChunk(chunk, PartTarget(l, chunk), PartOverlap(l, chunk), p, p + 1);
    ChunksFit(chunk, PartTarget(l, chunk), PartOverlap(l, chunk));
    WindowIsProperPart(chunk, p, w);
    KeepMembers(Candidates(l, chunk), ProperPart(chunk), w);
  }

  lemma OneCharIsNotBlank(chunk: string, p: nat)
    requires p < |chunk| && !Whitespace(chunk[p])
    ensures !Blank(chunk[p..p + 1])
  {
    assert chunk[p..p + 1][0] == chunk[p];
  }

  lemma WindowIsProperPart(chunk: string, p: nat, w: Window)
    requires w.start <= p < w.end <= |chunk| && w.end - w.start < |chunk| && !Whitespace(chunk[p])
    ensures ProperPart(chunk)(w)
  {
    hide Whitespace, Strip;
    OneCharIsNotBlank(chunk, p);
    NonBlankInside(chunk, p, p + 1, w);
    assert |Slice(chunk, w)| < |chunk|;
  }

  /** A chunk that fits in one window has no proper part. */
  lemma SplitMeansLong(l: Limits, chunk: string, depth: nat)
    requires Splits(l, chunk, depth)
    ensures |chunk| > ChunkChars(PartTarget(l, chunk))
  {
    if |chunk| <= ChunkChars(PartTarget(l, chunk)) {
      assert chunk[0..|chunk|] == chunk;
      KeepNone(Candidates(l, chunk), ProperPart(chunk));
    }
  }

  ghost predicate Covers<T>(leaf: Leaf<T>, position: int) {
    leaf.start <= position < leaf.start + |leaf.text|
  }

  /**
    For any pattern of extractor failures, every non-whitespace position of a root chunk lies in some
    leaf: in one that succeeded, or in one whose path is recorded among the errors.
  */
  lemma {:induction false} NothingIsLost<T>(l: Limits, ex: Extractor<T>, chunk: string, start: nat, depth: nat, path: Label, p: nat)
    returns (leaf: Leaf<T>)
    requires p < |chunk| && !Whitespace(chunk[p])
    ensures leaf in Leaves(l, ex, chunk, start, depth, path) && Covers(leaf, start + p)
    ensures leaf.outcome.Extracted? || leaf.path in Failures(Leaves(l, ex, chunk, start, depth, path))
    decreases Height(l, depth)
  {
    hide Parts, Slice;
    var leaves := Leaves(l, ex, chunk, start, depth, path);
    if ex(chunk, path).Malformed? && Splits(l, chunk, depth) {
      var k := PartAt(l, chunk, depth, p);
      var w := Parts(l, chunk)[k];
      PartInChunk(l, chunk, k);
      leaf := NothingIsLost(l, ex, Slice(chunk, w), start + w.start, depth + 1, path + [k + 1], p - w.start);
      PartLeavesContain(l, ex, chunk, start, 0, depth, path, k, leaf);
    } else {
      leaf := leaves[0];
    }
    FailureRecorded(leaves, leaf);
  }

  lemma {:induction false} PartLeavesContain<T>(l: Limits, ex: Extractor<T>, chunk: string, start: nat, j: nat, depth: nat, path: Label,
                                                k: nat, leaf: Leaf<T>)
    requires j <= k < |Parts(l, chunk)| && depth < l.maxDepth
    requires var w := Parts(l, chunk)[k];
             leaf in Leaves(l, ex, Slice(chunk, w), start + w.start, depth + 1, path + [k + 1])
    ensures leaf in PartLeaves(l, ex, chunk, start, j, depth, path)
    decreases k - j
  {
    hide Parts, Leaves, Slice;
    if j < k {
      PartLeavesContain(l, ex, chunk, start, j + 1, depth, path, k, leaf);
    }
  }

  lemma {:induction false} FailureRecorded<T>(leaves: seq<Leaf<T>>, leaf: Leaf<T>)
    requires leaf in leaves
    ensures leaf.outcome.Extracted? || leaf.path in Failures(leaves)
  {
    if leaves[0] != leaf {
      FailureRecorded(leaves[1..], leaf);
    }
  }

  lemma {:induction false} FoundSomewhere<T>(leaves: seq<Leaf<T>>, x: T) returns (leaf: Leaf<T>)
    requires x in Found(leaves)
    ensures leaf in leaves && leaf.outcome.Extracted? && x in leaf.outcome.found
  {
    if leaves[0].outcome.Extracted? && x in leaves[0].outcome.found {
      leaf := leaves[0];
    } else {
      leaf := FoundSomewhere(leaves[1..], x);
    }
  }

  // ----- all root chunks of a document -----

  /** The root chunks of a document; a positive limit caps their number. */
  function Roots(text: string, chunkChars: int, overlapChars: int, maxChunks: int): seq<Window> {
    var ws := ChunkWindows(text, chunkChars, overlapChars);
    if maxChunks > 0 then ws[..Min(maxChunks, |ws|)] else ws
  }

  lemma RootsAre(text: string, chunkChars: int, overlapChars: int, maxChunks: int)
    ensures var ws, roots := ChunkWindows(text, chunkChars, overlapChars), Roots(text, chunkChars, overlapChars, maxChunks);
            && roots <= ws && |roots| == if maxChunks >= 1 && maxChunks < |ws| then maxChunks else |ws|
  {
    hide ChunkWindows;
  }

  /** The leaves of the root chunks from number `k` on; root numbers start at 1. */
  function RootLeaves<T>(l: Limits, ex: Extractor<T>, text: string, ws: seq<Window>, k: nat): seq<Leaf<T>>
    requires k <= |ws|
    decreases |ws| - k
  {
    if k == |ws| then []
    else Leaves(l, ex, Slice(text, ws[k]), ws[k].start, 0, [k + 1]) + RootLeaves(l, ex, text, ws, k + 1)
  }

  lemma {:induction false} RootLeavesArePieces<T>(l: Limits, ex: Extractor<T>, text: string, ws: seq<Window>, k: nat)
    requires k <= |ws| && forall i :: 0 <= i < |ws| ==> ws[i].start < ws[i].end <= |text|
    ensures forall x :: x in RootLeaves(l, ex, text, ws, k) ==> PieceOf(x, text, 0) && x.outcome == ex(x.text, x.path)
    decreases |ws| - k
  {
    hide Leaves, PieceOf;
    if k < |ws| {
      var w := ws[k];
      LeavesArePieces(l, ex, Slice(text, w), w.start, 0, [k + 1]);
      forall x | x in Leaves(l, ex, Slice(text, w), w.start, 0, [k + 1]) ensures PieceOf(x, text, 0) {
        PieceOfPiece(x, text, 0, w);
      }
      RootLeavesArePieces(l, ex, text, ws, k + 1);
    }
  }
}
