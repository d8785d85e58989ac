/**
  Overlapping text windows: the chunker of the graph indexer and the chunker of the vector index.
*/
module Chunking {
  import opened Seqs
  import opened Text

  /** Text positions start <= p < end. */
  datatype Window = Window(start: nat, end: nat)

  function Slice(text: string, w: Window): string {
    if w.start <= w.end <= |text| then text[w.start..w.end] else ""
  }

  // ----- the graph indexer's windows -----

  /** The window length in force; 0 selects the default, and there is a floor of 2000. */
  function ChunkChars(chunkChars: int): (c: int)
    ensures c >= 2000
  {
    Max(2000, if chunkChars == 0 then 12000 else chunkChars)
  }

  function Overlap(overlapChars: int, c: int): (o: int)
    requires c >= 0
    ensures 0 <= o <= c / 3
  {
    Max(0, Min(overlapChars, c / 3))
  }

  /** The last page, paragraph or line boundary of text[floor..target], or -1. */
  function Boundary(text: string, floor: nat, target: nat): int
    requires floor <= target <= |text|
  {
    Max(Max(RFind(text, "\n\U{c}", floor, target), RFind(text, "\n\n", floor, target)), RFind(text, "\n", floor, target))
  }

  /** Page and paragraph boundaries never win over the last line boundary. */
  lemma BoundaryIsLastNewline(text: string, floor: nat, target: nat)
    requires floor <= target <= |text|
    ensures Boundary(text, floor, target) == RFind(text, "\n", floor, target)
  {
    NewlineAtLeast(text, "\n\U{c}", floor, target);
    NewlineAtLeast(text, "\n\n", floor, target);
  }

  /** For example here: the page break after the first letter loses to the later line break. */
  lemma PageBreakLoses()
    ensures var text := "a\n\U{c}b\nc";
            RFind(text, "\n\U{c}", 0, 6) == 1 && Boundary(text, 0, 6) == 4
  {
    var text := "a\n\U{c}b\nc";
    assert text[1..3] == "\n\U{c}" && text[4..5] == "\n";
    assert Occurs(text, "\n\U{c}", 1) && Occurs(text, "\n", 4);
    var page, line := RFind(text, "\n\U{c}", 0, 6), RFind(text, "\n", 0, 6);
    assert text[page..page + 2][0] == '\n' && text[page..page + 2][1] == '\U{c}';
    assert text[line..line + 1][0] == '\n';
    BoundaryIsLastNewline(text, 0, 6);
  }

  lemma NewlineAtLeast(text: string, pattern: string, floor: nat, target: nat)
    requires floor <= target <= |text| && |pattern| == 2 && pattern[0] == '\n'
    ensures RFind(text, pattern, floor, target) <= RFind(text, "\n", floor, target)
  {
    var i := RFind(text, pattern, floor, target);
    if i != -1 {
      assert text[i..i + 2][0] == '\n';
      assert Occurs(text, "\n", i);
    }
  }

  function WindowEnd(text: string, c: int, start: nat): (end: nat)
    requires c >= 2000 && start < |text|
    ensures start < end <= |text| && end - start <= c
    ensures end < |text| ==> end >= start + c * 7 / 10 + 1 && start + c < |text|
  {
    var target := Min(|text|, start + c);
    if target < |text| then
      var boundary := Boundary(text, start + c * 7 / 10, target);
      if boundary > start then boundary + 1 else target
    else target
  }

  function NextStart(start: nat, end: nat, overlap: nat): int { Max(start + 1, end - overlap) }

  function Windows(text: string, c: int, overlap: nat, start: nat): seq<Window>
    requires c >= 2000 && start < |text|
    decreases |text| - start
  {
    var end := WindowEnd(text, c, start);
    [Window(start, end)] + if end >= |text| then [] else Windows(text, c, overlap, NextStart(start, end, overlap))
  }

  function AllWindows(text: string, chunkChars: int, overlapChars: int): seq<Window> {
    var c := ChunkChars(chunkChars);
    if text == "" then []
    else if |text| <= c then [Window(0, |text|)]
    else Windows(text, c, Overlap(overlapChars, c), 0)
  }

  ghost predicate InText(ws: seq<Window>, text: string) {
    forall i :: 0 <= i < |ws| ==> ws[i].start < ws[i].end <= |text|
  }

  lemma {:induction false} WindowsInText(text: string, c: int, overlap: nat, start: nat)
    requires c >= 2000 && start < |text|
    ensures InText(Windows(text, c, overlap, start), text)
    decreases |text| - start
  {
    var end := WindowEnd(text, c, start);
    if end < |text| {
      WindowsInText(text, c, overlap, NextStart(start, end, overlap));
    }
  }

  /** The windows that become chunks: a text that fits is passed on whole, otherwise blank windows are dropped. */
  function Kept(text: string, ws: seq<Window>): seq<Window> {
    if ws == [] then []
    else (if Strip(Slice(text, ws[0])) != "" then [ws[0]] else []) + Kept(text, ws[1..])
  }

  function ChunkWindows(text: string, chunkChars: int, overlapChars: int): seq<Window> {
    var ws := AllWindows(text, chunkChars, overlapChars);
    if |text| <= ChunkChars(chunkChars) then ws else Kept(text, ws)
  }

  function Slices(text: string, ws: seq<Window>): (r: seq<string>)
    ensures |r| == |ws| && forall i :: 0 <= i < |ws| ==> r[i] == Slice(text, ws[i])
  {
    seq(|ws|, i requires 0 <= i < |ws| => Slice(text, ws[i]))
  }

  /** The non-blank windows' texts. */
  function KeptTexts(text: string, ws: seq<Window>): seq<string> {
    if ws == [] then []
    else (if Strip(Slice(text, ws[0])) != "" then [Slice(text, ws[0])] else []) + KeptTexts(text, ws[1..])
  }

  lemma {:induction false} KeptTextsAreSlices(text: string, ws: seq<Window>)
    ensures KeptTexts(text, ws) == Slices(text, Kept(text, ws))
  {
    hide Strip, Slice;
    if ws != [] {
      KeptTextsAreSlices(text, ws[1..]);
      SlicesCons(text, ws[0], Kept(text, ws[1..]));
    }
  }

  lemma SlicesCons(text: string, w: Window, rest: seq<Window>)
    ensures Slices(text, [w] + rest) == [Slice(text, w)] + Slices(text, rest)
    ensures Slices(text, [] + rest) == [] + Slices(text, rest)
  {
    hide Slice;
    assert [] + rest == rest;
  }

  method ChunkText(text: string, chunkChars: int, overlapChars: int) returns (out: seq<string>)
    ensures out == Slices(text, ChunkWindows(text, chunkChars, overlapChars))
  {
    hide ChunkChars, Overlap, RFind, Kept, KeptTexts;
    if text == "" {
      return [];
    }
    var c := ChunkChars(chunkChars);
    var overlap := Overlap(overlapChars, c);
    if |text| <= c {
      assert Slice(text, Window(0, |text|)) == text;
      return [text];
    }
    out := WindowLoop(text, c, overlap);
    KeptTextsAreSlices(text, Windows(text, c, overlap, 0));
  }

  method WindowLoop(text: string, c: int, overlap: nat) returns (out: seq<string>)
    requires c >= 2000 && text != ""
    ensures out == KeptTexts(text, Windows(text, c, overlap, 0))
  {
    hide WindowEnd, Strip, Windows, KeptTexts;
    out := [];
    var start := 0;
    while true
      invariant start < |text|
      invariant out + KeptTexts(text, Windows(text, c, overlap, start)) == KeptTexts(text, Windows(text, c, overlap, 0))
      decreases |text| - start
    {
      var end := WindowEnd(text, c, start);
      WindowStep(text, c, overlap, start);
      var chunk := text[start..end];
      if Strip(chunk) != "" {
        out := out + [chunk];
      }
      if end >= |text| {
        return;
      }
      start := NextStart(start, end, overlap);
    }
  }

  /** One turn of the loop. */
  lemma WindowStep(text: string, c: int, overlap: nat, start: nat)
    requires c >= 2000 && start < |text|
    ensures var end := WindowEnd(text, c, start);
            KeptTexts(text, Windows(text, c, overlap, start)) ==
            (if Strip(text[start..end]) != "" then [text[start..end]] else [])
            + if end >= |text| then [] else KeptTexts(text, Windows(text, c, overlap, NextStart(start, end, overlap)))
  {
    hide WindowEnd, Strip;
    var ws := Windows(text, c, overlap, start);
    var end := WindowEnd(text, c, start);
    assert ws[0] == Window(start, end);
    assert ws[1..] == if end >= |text| then [] else Windows(text, c, overlap, NextStart(start, end, overlap));
  }

  // ----- what the windows guarantee -----

  /** The least distance between the starts of two consecutive windows. */
  function Advance(c: int): int { c * 7 / 10 + 1 - c / 3 }

  /** From window to window: exactly `overlap` characters are shared and the start moves on. */
  ghost predicate Chained(ws: seq<Window>, c: int, overlap: nat, n: nat) {
    && ws != []
    && ws[|ws| - 1].end == n
    && (forall i :: 0 <= i < |ws| ==> 0 < ws[i].end - ws[i].start <= c)
    && (forall i :: 0 <= i < |ws| - 1 ==>
          && ws[i + 1].start == ws[i].end - overlap
          && ws[i + 1].start >= ws[i].start + Advance(c)
          && ws[i].start + c < n)
  }

  lemma {:induction false} WindowsChained(text: string, c: int, overlap: nat, start: nat)
    requires c >= 2000 && start < |text| && overlap <= c / 3
    ensures Chained(Windows(text, c, overlap, start), c, overlap, |text|)
    ensures Windows(text, c, overlap, start)[0].start == start
    decreases |text| - start
  {
    hide WindowEnd;
    var end := WindowEnd(text, c, start);
    if end < |text| {
      assert end - overlap >= start + Advance(c) > start;
      WindowsChained(text, c, overlap, NextStart(start, end, overlap));
      var rest := Windows(text, c, overlap, NextStart(start, end, overlap));
      assert Windows(text, c, overlap, start) == [Window(start, end)] + rest;
    }
  }

  lemma {:induction false} StartsAdvance(ws: seq<Window>, c: int, overlap: nat, n: nat, i: nat)
    requires Chained(ws, c, overlap, n) && i < |ws|
    ensures ws[i].start >= ws[0].start + i * Advance(c)
  {
    if i > 0 {
      StartsAdvance(ws, c, overlap, n, i - 1);
      hide Advance;
      assert i * Advance(c) == (i - 1) * Advance(c) + Advance(c);
    }
  }

  /**
    Number of windows of a text longer than one window: at most 1 + ceil((n - c) / A) for the
    advance A, stated without division.
  */
  lemma WindowCount(text: string, chunkChars: int, overlapChars: int)
    requires |text| > ChunkChars(chunkChars)
    ensures var c, ws := ChunkChars(chunkChars), AllWindows(text, chunkChars, overlapChars);
            |ws| >= 2 && (|ws| - 2) * Advance(c) < |text| - c
  {
    var c := ChunkChars(chunkChars);
    var o := Overlap(overlapChars, c);
    var ws := Windows(text, c, o, 0);
    WindowsChained(text, c, o, 0);
    if |ws| >= 2 {
      StartsAdvance(ws, c, o, |text|, |ws| - 2);
    }
  }

  /** A stretch of at most overlap + 1 characters lies whole inside one window. */
  lemma {:induction false} StretchInOneWindow(ws: seq<Window>, c: int, overlap: nat, n: nat, a: nat, b: nat) returns (i: nat)
    requires Chained(ws, c, overlap, n) && ws[0].start <= a <= b <= n && b - a <= overlap + 1
    ensures i < |ws| && ws[i].start <= a && b <= ws[i].end
  {
    if b <= ws[0].end {
      i := 0;
    } else {
      var rest := ws[1..];
      var k := StretchInOneWindow(rest, c, overlap, n, a, b);
      i := k + 1;
    }
  }

  lemma {:induction false} KeptMembers(text: string, ws: seq<Window>, w: Window)
    ensures w in Kept(text, ws) <==> w in ws && Strip(Slice(text, w)) != ""
  {
    hide Strip, Slice;
    if ws != [] {
      KeptMembers(text, ws[1..], w);
      assert ws == [ws[0]] + ws[1..];
    }
  }

  /** Every chunk is verbatim text and never longer than the window length. */
  lemma ChunksFit(text: string, chunkChars: int, overlapChars: int)
    ensures forall w :: w in ChunkWindows(text, chunkChars, overlapChars) ==>
              w.start < w.end <= |text| && w.end - w.start <= ChunkChars(chunkChars)
  {
    hide Windows, Kept, ChunkChars, Overlap;
    var c := ChunkChars(chunkChars);
    var o := Overlap(overlapChars, c);
    if |text| > c {
      WindowsInText(text, c, o, 0);
      WindowsChained(text, c, o, 0);
      forall w | w in ChunkWindows(text, chunkChars, overlapChars) ensures w in Windows(text, c, o, 0) {
        KeptMembers(text, Windows(text, c, o, 0), w);
      }
    }
  }

  /**
    Every non-blank stretch of at most overlap + 1 characters lies whole in some chunk; in
    particular no non-whitespace character is lost.
  */
  lemma StretchInOneChunk(text: string, chunkChars: int, overlapChars: int, a: nat, b: nat) returns (w: Window)
    requires a < b <= |text| && !Blank(text[a..b])
    requires b - a <= Overlap(overlapChars, ChunkChars(chunkChars)) + 1 || |text| <= ChunkChars(chunkChars)
    ensures w in ChunkWindows(text, chunkChars, overlapChars) && w.start <= a && b <= w.end <= |text|
  {
    hide Windows, Strip, Blank, ChunkChars, Overlap;
    var c := ChunkChars(chunkChars);
    var o := Overlap(overlapChars, c);
    if |text| <= c {
      w := Window(0, |text|);
    } else {
      var ws := Windows(text, c, o, 0);
      WindowsInText(text, c, o, 0);
      WindowsChained(text, c, o, 0);
      var i := StretchInOneWindow(ws, c, o, |text|, a, b);
      w := ws[i];
      KeptMembers(text, ws, w);
      NonBlankInside(text, a, b, w);
    }
  }

  lemma NonBlankInside(text: string, a: nat, b: nat, w: Window)
    requires w.start <= a < b <= w.end <= |text| && !Blank(text[a..b])
    ensures Strip(Slice(text, w)) != ""
  {
    var k :| 0 <= k < b - a && !Whitespace(text[a..b][k]);
    assert Slice(text, w)[a + k - w.start] == text[a..b][k];
    StripBlank(Slice(text, w));
  }

  // ----- the vector index's windows -----

  function VectorEnd(text: string, chunkSize: nat, start: nat): (end: nat)
    requires chunkSize >= 1 && start < |text|
    ensures start < end <= |text| && end - start <= chunkSize
  {
    var end := Min(start + chunkSize, |text|);
    if end < |text| then
      var from := Max(start, end - 500);
      var cut := Max(RFind(text, "\n\n", from, end), RFind(text, ". ", from, end));
      if cut > start then cut + 1 else end
    else end
  }

  function VectorWindows(text: string, chunkSize: nat, overlap: nat, start: nat): (ws: seq<Window>)
    requires chunkSize >= 1 && start < |text|
    decreases |text| - start
  {
    var end := VectorEnd(text, chunkSize, start);
    [Window(start, end)] + if end >= |text| then []
                           else VectorWindows(text, chunkSize, overlap, Max(end - overlap, start + 1))
  }

  /** The windows leave no gap, keep to the chunk size and reach the end. */
  ghost predicate Gapless(ws: seq<Window>, text: string, chunkSize: nat) {
    && InText(ws, text)
    && ws != [] && ws[|ws| - 1].end == |text|
    && (forall i :: 0 <= i < |ws| ==> ws[i].end - ws[i].start <= chunkSize)
    && (forall i :: 0 <= i < |ws| - 1 ==> ws[i].start < ws[i + 1].start <= ws[i].end)
  }

  lemma {:induction false} VectorWindowsGapless(text: string, chunkSize: nat, overlap: nat, start: nat)
    requires chunkSize >= 1 && start < |text|
    ensures Gapless(VectorWindows(text, chunkSize, overlap, start), text, chunkSize)
    ensures VectorWindows(text, chunkSize, overlap, start)[0].start == start
    decreases |text| - start
  {
    hide VectorEnd;
    var end := VectorEnd(text, chunkSize, start);
    if end < |text| {
      var next := Max(end - overlap, start + 1);
      VectorWindowsGapless(text, chunkSize, overlap, next);
      var rest := VectorWindows(text, chunkSize, overlap, next);
      assert VectorWindows(text, chunkSize, overlap, start) == [Window(start, end)] + rest;
      hide VectorWindows;
      GaplessCons(Window(start, end), rest, text, chunkSize);
    }
  }

  lemma GaplessCons(w: Window, rest: seq<Window>, text: string, chunkSize: nat)
    requires Gapless(rest, text, chunkSize) && w.start < w.end <= |text| && w.end - w.start <= chunkSize
    requires w.start < rest[0].start <= w.end
    ensures Gapless([w] + rest, text, chunkSize)
  {
  }

  /** Every position of the text lies in a window, so no non-whitespace character is lost. */
  lemma {:induction false} GaplessCovers(ws: seq<Window>, text: string, chunkSize: nat, p: nat) returns (i: nat)
    requires Gapless(ws, text, chunkSize) && ws[0].start <= p < |text|
    ensures i < |ws| && ws[i].start <= p < ws[i].end
  {
    if p < ws[0].end {
      i := 0;
    } else {
      var k := GaplessCovers(ws[1..], text, chunkSize, p);
      i := k + 1;
    }
  }

  /** The windows' texts, stripped, without the empty ones. */
  function StrippedTexts(text: string, ws: seq<Window>): seq<string> {
    if ws == [] then []
    else (if Strip(Slice(text, ws[0])) != "" then [Strip(Slice(text, ws[0]))] else []) + StrippedTexts(text, ws[1..])
  }

  /** The chunker of the vector index, on normalised text. */
  method VectorChunks(text: string, chunkSize: nat, overlap: nat) returns (chunks: seq<string>)
    requires chunkSize >= 1
    ensures chunks == if text == "" then [] else StrippedTexts(text, VectorWindows(text, chunkSize, overlap, 0))
  {
    hide VectorEnd, Strip, VectorWindows, StrippedTexts;
    chunks := [];
    if text == "" {
      return;
    }
    var start := 0;
    while start < |text|
      invariant start < |text|
      invariant chunks + StrippedTexts(text, VectorWindows(text, chunkSize, overlap, start)) ==
                StrippedTexts(text, VectorWindows(text, chunkSize, overlap, 0))
      decreases |text| - start
    {
      var end := VectorEnd(text, chunkSize, start);
      VectorStep(text, chunkSize, overlap, start);
      var chunk := Strip(text[start..end]);
      if chunk != "" {
        chunks := chunks + [chunk];
      }
      if end >= |text| {
        return;
      }
      start := Max(end - overlap, start + 1);
    }
  }

  lemma VectorStep(text: string, chunkSize: nat, overlap: nat, start: nat)
    requires chunkSize >= 1 && start < |text|
    ensures var end := VectorEnd(text, chunkSize, start);
            StrippedTexts(text, VectorWindows(text, chunkSize, overlap, start)) ==
            (if Strip(text[start..end]) != "" then [Strip(text[start..end])] else [])
            + if end >= |text| then []
              else StrippedTexts(text, VectorWindows(text, chunkSize, overlap, Max(end - overlap, start + 1)))
  {
    hide VectorEnd, Strip;
    var ws := VectorWindows(text, chunkSize, overlap, start);
    var end := VectorEnd(text, chunkSize, start);
    assert ws[0] == Window(start, end);
    assert ws[1..] == if end >= |text| then []
                      else VectorWindows(text, chunkSize, overlap, Max(end - overlap, start + 1));
  }

  /** No non-whitespace character is lost, for every chunk size and overlap. */
  lemma VectorChunksCover(text: string, chunkSize: nat, overlap: nat, p: nat) returns (w: Window)
    requires chunkSize >= 1 && p < |text| && !Whitespace(text[p])
    ensures w.start <= p < w.end <= |text| && w.end - w.start <= chunkSize
    ensures Strip(Slice(text, w)) in StrippedTexts(text, VectorWindows(text, chunkSize, overlap, 0))
  {
    assert !Blank(text[p..p + 1]) by {
      assert text[p..p + 1][0] == text[p];
    }
    hide VectorWindows, Strip, Slice, Blank, StrippedTexts;
    var ws := VectorWindows(text, chunkSize, overlap, 0);
    VectorWindowsGapless(text, chunkSize, overlap, 0);
    var i := GaplessCovers(ws, text, chunkSize, p);
    w := ws[i];
    NonBlankInside(text, p, p + 1, w);
    StrippedMember(text, ws, i);
  }

  lemma {:induction false} StrippedMember(text: string, ws: seq<Window>, i: nat)
    requires i < |ws| && Strip(Slice(text, ws[i])) != ""
    ensures Strip(Slice(text, ws[i])) in StrippedTexts(text, ws)
  {
    hide Strip, Slice;
    if i > 0 {
      StrippedMember(text, ws[1..], i - 1);
    }
  }
}
