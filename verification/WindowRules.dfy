/** Where the windows of both chunkers end and where the next one begins, read off the text. */
module WindowRules {
  import opened Seqs
  import opened Text
  import opened Chunking

  function NonBlankIn(text: string): Window -> bool { (w: Window) => !Blank(Slice(text, w)) }

  // ----- the graph indexer's windows -----

  /**
    A window reaches the end of the text if that is within its length; otherwise it ends behind the last line
    break of its last three tenths, or, without one, at its full length.
  */
  ghost predicate EndsAtBreak(text: string, c: nat, w: Window) {
    if w.start + c >= |text| then w.end == |text|
    else
      var floor, target := w.start + c * 7 / 10, w.start + c;
      || (floor < w.end <= target && text[w.end - 1] == '\n' && forall j :: w.end <= j < target ==> text[j] != '\n')
      || (w.end == target && forall j :: floor <= j < target ==> text[j] != '\n')
  }

  lemma WindowEndsAtBreak(text: string, c: nat, start: nat)
    requires c >= 2000 && start < |text|
    ensures EndsAtBreak(text, c, Window(start, WindowEnd(text, c, start)))
  {
    if start + c < |text| {
      var floor := start + c * 7 / 10;
      assert start < floor < start + c;
      var i := BreakFound(text, c, start, floor);
      hide WindowEnd;
    } else {
      hide RFind, Boundary, Occurs;
    }
  }

  lemma BreakFound(text: string, c: nat, start: nat, floor: nat) returns (i: int)
    requires c >= 2000 && start + c < |text| && floor == start + c * 7 / 10 && start < floor < start + c
    ensures WindowEnd(text, c, start) == if i != -1 then i + 1 else start + c
    ensures if i == -1 then forall j :: floor <= j < start + c ==> text[j] != '\n'
            else floor <= i < start + c && text[i] == '\n' && forall j :: i < j < start + c ==> text[j] != '\n'
  {
    hide WindowEnd, RFind;
    LongWindowEnd(text, c, start, floor);
    i := LastBreak(text, floor, start + c);
  }

  lemma LongWindowEnd(text: string, c: nat, start: nat, floor: nat)
    requires c >= 2000 && start + c < |text| && floor == start + c * 7 / 10 && start < floor < start + c
    ensures var i := RFind(text, "\n", floor, start + c); WindowEnd(text, c, start) == if i != -1 then i + 1 else start + c
  {
    hide RFind, Boundary, Occurs;
    ShortBoundary(text, c, start, floor);
    hide WindowEnd;
    BoundaryIsLastNewline(text, floor, start + c);
  }

  lemma ShortBoundary(text: string, c: nat, start: nat, floor: nat)
    requires c >= 2000 && start + c < |text| && floor == start + c * 7 / 10 && start < floor < start + c
    ensures var b := Boundary(text, floor, start + c); WindowEnd(text, c, start) == if b > start then b + 1 else start + c
  {
    hide RFind, Boundary, Occurs;
  }

  lemma LastBreak(text: string, floor: nat, target: nat) returns (i: int)
    requires floor <= target <= |text|
    ensures i == RFind(text, "\n", floor, target)
    ensures if i == -1 then forall j :: floor <= j < target ==> text[j] != '\n'
            else floor <= i < target && text[i] == '\n' && forall j :: i < j < target ==> text[j] != '\n'
  {
    i := RFind(text, "\n", floor, target);
    forall j | floor <= j < target ensures text[j] == '\n' <==> Occurs(text, "\n", j) {
      assert text[j..j + 1] == [text[j]];
    }
    hide RFind, Occurs;
  }

  /** Every window ends where it should, each next one starts `overlap` characters before that end, the last one ends the text. */
  ghost predicate FollowRules(text: string, c: nat, overlap: nat, ws: seq<Window>) {
    && ws != [] && ws[|ws| - 1].end == |text|
    && (forall i :: 0 <= i < |ws| ==> EndsAtBreak(text, c, ws[i]))
    && forall i :: 0 <= i < |ws| - 1 ==> ws[i].end < |text| && ws[i + 1].start == ws[i].end - overlap
  }

  lemma {:induction false} WindowsFollowRules(text: string, c: nat, overlap: nat, start: nat)
    requires c >= 2000 && start < |text| && overlap <= c / 3
    ensures var ws := Windows(text, c, overlap, start); FollowRules(text, c, overlap, ws) && ws[0].start == start
    decreases |text| - start
  {
    hide WindowEnd, EndsAtBreak;
    var end := WindowEnd(text, c, start);
    WindowEndsAtBreak(text, c, start);
    if end < |text| {
      assert end - overlap >= start + Advance(c) > start;
      WindowsFollowRules(text, c, overlap, NextStart(start, end, overlap));
      var rest := Windows(text, c, overlap, NextStart(start, end, overlap));
      assert Windows(text, c, overlap, start) == [Window(start, end)] + rest;
    }
  }

  lemma {:induction false} KeptIsKeep(text: string, ws: seq<Window>)
    ensures Kept(text, ws) == Keep(ws, NonBlankIn(text))
  {
    if ws != [] {
      StripBlank(Slice(text, ws[0]));
      hide Strip, Blank, Slice;
      KeptIsKeep(text, ws[1..]);
    }
  }

  /**
    The chunks, from the two settings: a length of 0 means 12000 and 2000 is the least, the overlap is at most a
    third of it; a text that fits is one chunk, blank or not, and otherwise the blank windows are dropped.
  */
  lemma ChunksAre(text: string, chunkChars: int, overlapChars: int)
    ensures var c := if chunkChars == 0 then 12000 else if chunkChars < 2000 then 2000 else chunkChars;
            var overlap := if overlapChars < 0 then 0 else if overlapChars < c / 3 then overlapChars else c / 3;
            if |text| <= c then ChunkWindows(text, chunkChars, overlapChars) == if text == "" then [] else [Window(0, |text|)]
            else
              exists ws: seq<Window> :: FollowRules(text, c, overlap, ws) && ws[0].start == 0 &&
                ChunkWindows(text, chunkChars, overlapChars) == Keep(ws, NonBlankIn(text))
  {
    var c := ChunkChars(chunkChars);
    hide Windows, FollowRules, Kept, Keep;
    var o := Overlap(overlapChars, c);
    SettingsAre(chunkChars, overlapChars);
    hide ChunkChars, Overlap;
    if |text| > c {
      var ws := Windows(text, c, o, 0);
      WindowsFollowRules(text, c, o, 0);
      KeptIsKeep(text, ws);
    }
  }

  lemma SettingsAre(chunkChars: int, overlapChars: int)
    ensures var c := ChunkChars(chunkChars);
            && c == (if chunkChars == 0 then 12000 else if chunkChars < 2000 then 2000 else chunkChars)
            && Overlap(overlapChars, c) == if overlapChars < 0 then 0 else if overlapChars < c / 3 then overlapChars else c / 3
  {
  }

  // ----- the vector index's windows -----

  /** A paragraph break or a full stop with a blank at `i`, wholly inside the last 500 characters before `target`. */
  ghost predicate CutAt(text: string, start: nat, target: nat, i: int) {
    && start <= i && target - 500 <= i && 0 <= i && i + 2 <= target <= |text|
    && (text[i..i + 2] == "\n\n" || text[i..i + 2] == ". ")
  }

  ghost predicate NoCutAfter(text: string, start: nat, target: nat, i: int) {
    forall j :: j > i ==> !CutAt(text, start, target, j)
  }

  /** A window that does not reach the end of the text ends behind the last cut after its start, or at its full length. */
  ghost predicate EndsAtCut(text: string, size: nat, w: Window) {
    if w.start + size >= |text| then w.end == |text|
    else
      var target := w.start + size;
      || (w.end - 1 > w.start && CutAt(text, w.start, target, w.end - 1) && NoCutAfter(text, w.start, target, w.end - 1))
      || (w.end == target && NoCutAfter(text, w.start, target, w.start))
  }

  lemma VectorEndsAtCut(text: string, size: nat, start: nat)
    requires size >= 1 && start < |text|
    ensures EndsAtCut(text, size, Window(start, VectorEnd(text, size, start)))
  {
    if start + size < |text| {
      var cut := VectorCut(text, size, start);
      if cut <= start {
        FewerAfter(text, start, start + size, cut, start);
      }
      hide CutAt, NoCutAfter, VectorEnd;
    } else {
      hide CutAt, NoCutAfter, RFind, Occurs;
    }
  }

  lemma VectorCut(text: string, size: nat, start: nat) returns (cut: int)
    requires size >= 1 && start + size < |text|
    ensures (cut == -1 || CutAt(text, start, start + size, cut)) && NoCutAfter(text, start, start + size, cut)
    ensures VectorEnd(text, size, start) == if cut > start then cut + 1 else start + size
  {
    hide RFind, CutAt, NoCutAfter, Occurs, VectorEnd;
    var target := start + size;
    var from := Max(start, target - 500);
    cut := Max(RFind(text, "\n\n", from, target), RFind(text, ". ", from, target));
    LastCut(text, start, target);
    LongVectorEnd(text, size, start, cut);
  }

  lemma FewerAfter(text: string, start: nat, target: nat, i: int, j: int)
    requires NoCutAfter(text, start, target, i) && i <= j
    ensures NoCutAfter(text, start, target, j)
  {
    hide CutAt;
  }

  lemma LongVectorEnd(text: string, size: nat, start: nat, cut: int)
    requires size >= 1 && start + size < |text|
    requires var from, target := Max(start, start + size - 500), start + size;
             cut == Max(RFind(text, "\n\n", from, target), RFind(text, ". ", from, target))
    ensures VectorEnd(text, size, start) == if cut > start then cut + 1 else start + size
  {
    hide RFind, Occurs;
  }

  lemma LastCut(text: string, start: nat, target: nat)
    requires start <= target <= |text|
    ensures var from := Max(start, target - 500);
            var cut := Max(RFind(text, "\n\n", from, target), RFind(text, ". ", from, target));
            (cut == -1 || CutAt(text, start, target, cut)) && NoCutAfter(text, start, target, cut)
  {
    var from := Max(start, target - 500);
    hide RFind;
    var a, b := RFind(text, "\n\n", from, target), RFind(text, ". ", from, target);
    forall j ensures CutAt(text, start, target, j) <==>
      from <= j && j + 2 <= target && (Occurs(text, "\n\n", j) || Occurs(text, ". ", j))
    {
    }
    hide CutAt, Occurs;
  }

  ghost predicate VectorFollowRules(text: string, size: nat, overlap: nat, ws: seq<Window>) {
    && ws != [] && ws[|ws| - 1].end == |text|
    && (forall i :: 0 <= i < |ws| ==> EndsAtCut(text, size, ws[i]))
    && forall i :: 0 <= i < |ws| - 1 ==>
         && ws[i].end < |text|
         && ws[i + 1].start == if ws[i].end - overlap > ws[i].start then ws[i].end - overlap else ws[i].start + 1
  }

  lemma {:induction false} VectorWindowsFollowRules(text: string, size: nat, overlap: nat, start: nat)
    requires size >= 1 && start < |text|
    ensures var ws := VectorWindows(text, size, overlap, start); VectorFollowRules(text, size, overlap, ws) && ws[0].start == start
    decreases |text| - start
  {
    hide VectorEnd, EndsAtCut;
    var end := VectorEnd(text, size, start);
    VectorEndsAtCut(text, size, start);
    if end < |text| {
      var next := Max(end - overlap, start + 1);
      VectorWindowsFollowRules(text, size, overlap, next);
      var rest := VectorWindows(text, size, overlap, next);
      assert VectorWindows(text, size, overlap, start) == [Window(start, end)] + rest;
      hide VectorWindows;
      VectorCons(text, size, overlap, Window(start, end), rest);
    } else {
      assert VectorWindows(text, size, overlap, start) == [Window(start, end)];
    }
  }

  lemma VectorCons(text: string, size: nat, overlap: nat, w: Window, rest: seq<Window>)
    requires VectorFollowRules(text, size, overlap, rest) && EndsAtCut(text, size, w) && w.end < |text|
    requires rest[0].start == if w.end - overlap > w.start then w.end - overlap else w.start + 1
    ensures VectorFollowRules(text, size, overlap, [w] + rest)
  {
    hide EndsAtCut;
  }

  /** The chunks are the texts of the windows that are not blank, stripped and in order. */
  lemma {:induction false} StrippedTextsAre(text: string, ws: seq<Window>)
    ensures var kept := Keep(ws, NonBlankIn(text));
            |StrippedTexts(text, ws)| == |kept| && forall i :: 0 <= i < |kept| ==> StrippedTexts(text, ws)[i] == Strip(Slice(text, kept[i]))
  {
    if ws != [] {
      StripBlank(Slice(text, ws[0]));
      hide Strip, Blank, Slice;
      StrippedTextsAre(text, ws[1..]);
    }
  }
}
