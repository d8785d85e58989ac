/** Reciprocal rank fusion of a lexical and a vector result list, over exact reals. */
module RankFusion {
  import opened Wrappers
  import opened Sorting

  /** One ranked result of an arm. */
  datatype Hit = Hit(documentId: string, rank: nat, score: real, title: string, snippet: string, chunkNo: Option<int>)

  /** One chunk found by the vector store; `documentId` may be missing. */
  datatype Chunk = Chunk(documentId: Option<string>, score: real, title: string, text: string, chunkNo: Option<int>)

  datatype Record = Record(documentId: string, title: string, rrf: real,
                           esRank: Option<nat>, esScore: Option<real>, vectorRank: Option<nat>, vectorScore: Option<real>,
                           snippet: string, chunkNo: Option<int>)

  // ----- the vector arm: best chunk per document, ranked afterwards -----

  function Doc(c: Chunk): string { if c.documentId.Some? then c.documentId.value else "" }

  predicate Usable(c: Chunk, threshold: real) {
    c.score >= threshold && Doc(c) != ""
  }

  predicate HasDoc(cs: seq<Chunk>, id: string) {
    exists i :: 0 <= i < |cs| && Doc(cs[i]) == id
  }

  /** The first usable chunk of each document, in order. */
  function FirstChunks(raw: seq<Chunk>, threshold: real): seq<Chunk> {
    if raw == [] then []
    else
      var kept := FirstChunks(raw[..|raw| - 1], threshold);
      var c := raw[|raw| - 1];
      if Usable(c, threshold) && !HasDoc(kept, Doc(c)) then kept + [c] else kept
  }

  lemma HasDocAppend(cs: seq<Chunk>, c: Chunk)
    ensures forall id :: HasDoc(cs + [c], id) <==> HasDoc(cs, id) || id == Doc(c)
  {
    forall id ensures HasDoc(cs + [c], id) <==> HasDoc(cs, id) || id == Doc(c) {
      assert (cs + [c])[|cs|] == c;
      if HasDoc(cs, id) {
        var i :| 0 <= i < |cs| && Doc(cs[i]) == id;
        assert (cs + [c])[i] == cs[i];
      }
    }
  }

  ghost predicate ByScore(cs: seq<Chunk>) {
    forall i, j :: 0 <= i < j < |cs| ==> cs[i].score >= cs[j].score
  }

  /** The chunks kept stand for pairwise different documents and miss none that has a usable chunk. */
  lemma {:induction false} OneChunkPerDocument(raw: seq<Chunk>, threshold: real)
    ensures var kept := FirstChunks(raw, threshold);
            && (forall i :: 0 <= i < |kept| ==> kept[i] in raw && Usable(kept[i], threshold))
            && (forall i, j :: 0 <= i < j < |kept| ==> Doc(kept[i]) != Doc(kept[j]))
            && (forall c :: c in raw && Usable(c, threshold) ==> HasDoc(kept, Doc(c)))
  {
    if raw != [] {
      var n := |raw| - 1;
      OneChunkPerDocument(raw[..n], threshold);
      assert raw == raw[..n] + [raw[n]];
      HasDocAppend(FirstChunks(raw[..n], threshold), raw[n]);
    }
  }

  lemma {:induction false} OrderIsKept(raw: seq<Chunk>, threshold: real)
    requires ByScore(raw)
    ensures ByScore(FirstChunks(raw, threshold))
  {
    if raw != [] {
      var n := |raw| - 1;
      OrderIsKept(raw[..n], threshold);
      OneChunkPerDocument(raw[..n], threshold);
      hide Usable, HasDoc;
    }
  }

  /** When the store answers best first, the chunk kept is its document's best and the order stays best first. */
  lemma {:induction false} BestChunkIsKept(raw: seq<Chunk>, threshold: real, c: Chunk, i: nat)
    requires ByScore(raw) && c in raw && Usable(c, threshold)
    requires i < |FirstChunks(raw, threshold)| && Doc(FirstChunks(raw, threshold)[i]) == Doc(c)
    ensures ByScore(FirstChunks(raw, threshold))
    ensures FirstChunks(raw, threshold)[i].score >= c.score
  {
    var n := |raw| - 1;
    OrderIsKept(raw, threshold);
    OneChunkPerDocument(raw[..n], threshold);
    var before := FirstChunks(raw[..n], threshold);
    assert c in raw[..n] || c == raw[n];
    if i < |before| {
      assert before[i] == FirstChunks(raw, threshold)[i];
      if c in raw[..n] {
        BestChunkIsKept(raw[..n], threshold, c, i);
      } else {
        assert before[i] in raw[..n];
      }
    } else {
      assert FirstChunks(raw, threshold)[i] == raw[n] && !HasDoc(before, Doc(c));
    }
  }

  function RankedHit(c: Chunk, rank: nat): Hit {
    Hit(Doc(c), rank, c.score, c.title, c.text, c.chunkNo)
  }

  /** Ranks are given after deduplication: 1, 2, 3, ... */
  method VectorSearch(raw: seq<Chunk>, threshold: real) returns (documents: seq<Hit>)
    ensures Ranked(documents)
    ensures var kept := FirstChunks(raw, threshold);
            |documents| == |kept| && forall i :: 0 <= i < |kept| ==> documents[i] == RankedHit(kept[i], i + 1)
  {
    hide HasDoc, Doc;
    var kept: seq<Chunk> := [];
    var seen: set<string> := {};
    var i := 0;
    assert forall id :: !HasDoc([], id) by { NoDocs(); }
    while i < |raw|
      invariant 0 <= i <= |raw| && kept == FirstChunks(raw[..i], threshold)
      invariant forall id :: id in seen <==> HasDoc(kept, id)
    {
      assert raw[..i + 1][..i] == raw[..i];
      var c := raw[i];
      if Usable(c, threshold) && Doc(c) !in seen {
        HasDocAppend(kept, c);
        seen := seen + {Doc(c)};
        kept := kept + [c];
      }
      i := i + 1;
    }
    assert raw[..i] == raw;
    documents := [];
    var k := 0;
    while k < |kept|
      invariant 0 <= k == |documents| <= |kept|
      invariant forall j :: 0 <= j < k ==> documents[j] == RankedHit(kept[j], j + 1)
    {
      documents := documents + [RankedHit(kept[k], k + 1)];
      k := k + 1;
    }
    OneChunkPerDocument(raw, threshold);
  }

  lemma NoDocs()
    ensures forall id :: !HasDoc([], id)
  {
  }

  /** An arm's list: ranks are positions from 1, and no document occurs twice. */
  ghost predicate Ranked(hits: seq<Hit>) {
    && (forall i :: 0 <= i < |hits| ==> hits[i].rank == i + 1)
    && forall i, j :: 0 <= i < j < |hits| ==> hits[i].documentId != hits[j].documentId
  }

  // ----- fusion -----

  function Reciprocal(k: nat, rank: nat): (x: real)
    requires rank > 0
  {
    1.0 / ((k + rank) as real)
  }

  function IndexOf(rs: seq<Record>, id: string): (i: nat)
    ensures i <= |rs| && (i < |rs| ==> rs[i].documentId == id)
    ensures forall j :: 0 <= j < i ==> rs[j].documentId != id
  {
    if rs == [] || rs[0].documentId == id then 0 else 1 + IndexOf(rs[1..], id)
  }

  function Fresh(h: Hit): Record {
    Record(h.documentId, h.title, 0.0, None, None, None, None, "", None)
  }

  function WithLexical(r: Record, h: Hit, k: nat): Record
    requires h.rank > 0
  {
    r.(esRank := Some(h.rank), esScore := Some(h.score), rrf := r.rrf + Reciprocal(k, h.rank),
       snippet := if h.snippet != "" then h.snippet else r.snippet)
  }

  function WithVector(r: Record, h: Hit, k: nat): Record
    requires h.rank > 0
  {
    r.(title := if r.title == "" then h.title else r.title,
       vectorRank := Some(h.rank), vectorScore := Some(h.score), chunkNo := h.chunkNo,
       rrf := r.rrf + Reciprocal(k, h.rank),
       snippet := if h.snippet != "" then h.snippet else r.snippet)
  }

  /** Look a document up, creating its record on first sight, and add one arm's contribution. */
  function Put(rs: seq<Record>, h: Hit, k: nat, lexical: bool): seq<Record>
    requires h.rank > 0
  {
    var i := IndexOf(rs, h.documentId);
    var r := if i < |rs| then rs[i] else Fresh(h);
    var r' := if lexical then WithLexical(r, h, k) else WithVector(r, h, k);
    if i < |rs| then rs[i := r'] else rs + [r']
  }

  function PutAll(rs: seq<Record>, hits: seq<Hit>, k: nat, lexical: bool): seq<Record>
    requires forall i :: 0 <= i < |hits| ==> hits[i].rank > 0
  {
    if hits == [] then rs
    else Put(PutAll(rs, hits[..|hits| - 1], k, lexical), hits[|hits| - 1], k, lexical)
  }

  predicate ScoredAtLeast(a: Record, b: Record) { a.rrf >= b.rrf }

  function Fused(es: seq<Hit>, vec: seq<Hit>, k: nat): seq<Record>
    requires forall i :: 0 <= i < |es| ==> es[i].rank > 0
    requires forall i :: 0 <= i < |vec| ==> vec[i].rank > 0
  {
    Sort(PutAll(PutAll([], es, k, true), vec, k, false), ScoredAtLeast)
  }

  method FuseResults(es: seq<Hit>, vec: seq<Hit>, k: nat) returns (results: seq<Record>)
    requires forall i :: 0 <= i < |es| ==> es[i].rank > 0
    requires forall i :: 0 <= i < |vec| ==> vec[i].rank > 0
    ensures results == Fused(es, vec, k)
  {
    hide Put;
    var combined: seq<Record> := [];
    var i := 0;
    while i < |es|
      invariant 0 <= i <= |es| && combined == PutAll([], es[..i], k, true)
    {
      assert es[..i + 1][..i] == es[..i];
      combined := Put(combined, es[i], k, true);
      i := i + 1;
    }
    assert es[..i] == es;
    ghost var lexical := combined;
    var j := 0;
    while j < |vec|
      invariant 0 <= j <= |vec| && combined == PutAll(lexical, vec[..j], k, false)
    {
      assert vec[..j + 1][..j] == vec[..j];
      combined := Put(combined, vec[j], k, false);
      j := j + 1;
    }
    assert vec[..j] == vec;
    results := Sort(combined, ScoredAtLeast);
  }

  // ----- what a fused record contains -----

  /** The hit of a document in an arm, `None` if the arm did not find it. */
  function Find(hits: seq<Hit>, id: string): Option<Hit> {
    if hits == [] then None
    else if hits[|hits| - 1].documentId == id then Some(hits[|hits| - 1])
    else Find(hits[..|hits| - 1], id)
  }

  function Part(hit: Option<Hit>, k: nat): real {
    if hit.Some? && hit.value.rank > 0 then Reciprocal(k, hit.value.rank) else 0.0
  }

  /**
    The join of a document's two hits: the score is the sum of the reciprocal ranks, the title is the
    lexical one unless that is empty, the snippet is the vector one unless that is empty.
  */
  function Joined(id: string, e: Option<Hit>, v: Option<Hit>, k: nat): Record {
    Record(id,
           if e.Some? && (e.value.title != "" || v.None?) then e.value.title else if v.Some? then v.value.title else "",
           Part(e, k) + Part(v, k),
           if e.Some? then Some(e.value.rank) else None, if e.Some? then Some(e.value.score) else None,
           if v.Some? then Some(v.value.rank) else None, if v.Some? then Some(v.value.score) else None,
           if v.Some? && v.value.snippet != "" then v.value.snippet else if e.Some? then e.value.snippet else "",
           if v.Some? then v.value.chunkNo else None)
  }

  predicate Found(es: seq<Hit>, vec: seq<Hit>, id: string) {
    Find(es, id).Some? || Find(vec, id).Some?
  }

  predicate HasRecord(rs: seq<Record>, id: string) {
    exists i :: 0 <= i < |rs| && rs[i].documentId == id
  }

  predicate Entry(r: Record, es: seq<Hit>, vec: seq<Hit>, k: nat) {
    Found(es, vec, r.documentId) && r == Joined(r.documentId, Find(es, r.documentId), Find(vec, r.documentId), k)
  }

  ghost predicate UniqueIds(rs: seq<Record>) {
    forall i, j :: 0 <= i < j < |rs| ==> rs[i].documentId != rs[j].documentId
  }

  /** `rs` holds the joined record of every document of either arm, once, and nothing else. */
  ghost predicate Describes(rs: seq<Record>, es: seq<Hit>, vec: seq<Hit>, k: nat) {
    && UniqueIds(rs)
    && (forall i :: 0 <= i < |rs| ==> Entry(rs[i], es, vec, k))
    && forall id :: Found(es, vec, id) ==> HasRecord(rs, id)
  }

  lemma {:induction false} FindRanked(hits: seq<Hit>, id: string)
    requires Ranked(hits)
    ensures Find(hits, id).Some? ==>
              var h := Find(hits, id).value;
              h.documentId == id && 1 <= h.rank <= |hits| && hits[h.rank - 1] == h
    ensures Find(hits, id).None? ==> forall i :: 0 <= i < |hits| ==> hits[i].documentId != id
  {
    if hits != [] {
      FindRanked(hits[..|hits| - 1], id);
    }
  }

  /** The last document of a ranked list was not there before. */
  lemma LastIsNew(hits: seq<Hit>)
    requires Ranked(hits) && hits != []
    ensures Find(hits[..|hits| - 1], hits[|hits| - 1].documentId).None?
  {
    FindRanked(hits[..|hits| - 1], hits[|hits| - 1].documentId);
  }

  lemma FindAppend(hits: seq<Hit>, h: Hit, id: string)
    ensures Find(hits + [h], id) == if id == h.documentId then Some(h) else Find(hits, id)
  {
    assert (hits + [h])[..|hits|] == hits;
  }

  /** A contribution turns the join so far into the join with the new hit. */
  lemma JoinOne(h: Hit, e: Option<Hit>, v: Option<Hit>, k: nat)
    requires h.rank > 0
    ensures v.None? && e.None? ==> WithLexical(Fresh(h), h, k) == Joined(h.documentId, Some(h), None, k)
    ensures v.None? && e.None? ==> WithVector(Fresh(h), h, k) == Joined(h.documentId, None, Some(h), k)
    ensures v.None? && e.Some? ==> WithVector(Joined(h.documentId, e, None, k), h, k) == Joined(h.documentId, e, Some(h), k)
  {
    hide Reciprocal;
  }

  function Lexical(es: seq<Hit>, h: Hit, lexical: bool): seq<Hit> { if lexical then es + [h] else es }

  function Vector(vec: seq<Hit>, h: Hit, lexical: bool): seq<Hit> { if lexical then vec else vec + [h] }

  lemma FoundAfter(es: seq<Hit>, vec: seq<Hit>, h: Hit, lexical: bool, id: string)
    ensures Find(Lexical(es, h, lexical), id) == if lexical && id == h.documentId then Some(h) else Find(es, id)
    ensures Find(Vector(vec, h, lexical), id) == if !lexical && id == h.documentId then Some(h) else Find(vec, id)
  {
    FindAppend(es, h, id);
    FindAppend(vec, h, id);
  }

  lemma OtherEntry(r: Record, es: seq<Hit>, vec: seq<Hit>, h: Hit, k: nat, lexical: bool)
    requires Entry(r, es, vec, k) && r.documentId != h.documentId
    ensures Entry(r, Lexical(es, h, lexical), Vector(vec, h, lexical), k)
  {
    hide Find, Joined, Lexical, Vector;
    FoundAfter(es, vec, h, lexical, r.documentId);
  }

  lemma NewEntry(rs: seq<Record>, es: seq<Hit>, vec: seq<Hit>, h: Hit, k: nat, lexical: bool)
    requires Describes(rs, es, vec, k) && h.rank > 0
    requires if lexical then vec == [] && Find(es, h.documentId).None? else Find(vec, h.documentId).None?
    ensures var p := IndexOf(rs, h.documentId);
            && p < |Put(rs, h, k, lexical)| && Put(rs, h, k, lexical)[p].documentId == h.documentId
            && Entry(Put(rs, h, k, lexical)[p], Lexical(es, h, lexical), Vector(vec, h, lexical), k)
  {
    var id := h.documentId;
    FoundAfter(es, vec, h, lexical, id);
    JoinOne(h, Find(es, id), Find(vec, id), k);
    assert lexical ==> Find(vec, id).None?;
    hide Find, Joined, Lexical, Vector, WithLexical, WithVector, Fresh;
    var p := IndexOf(rs, id);
    if p < |rs| {
      assert Entry(rs[p], es, vec, k);
    } else {
      assert !HasRecord(rs, id);
      assert !Found(es, vec, id);
    }
  }

  /** Only one place of the table changes, the document's own or a new one at the end. */
  lemma PutChangesOne(rs: seq<Record>, h: Hit, k: nat, lexical: bool)
    requires h.rank > 0
    ensures var p, rs' := IndexOf(rs, h.documentId), Put(rs, h, k, lexical);
            && |rs'| == (if p < |rs| then |rs| else |rs| + 1) && rs'[p].documentId == h.documentId
            && (forall i :: 0 <= i < |rs| && i != p ==> rs'[i] == rs[i])
            && (p < |rs| ==> rs[p].documentId == h.documentId)
            && (p == |rs| ==> !HasRecord(rs, h.documentId))
  {
    hide Reciprocal;
  }

  lemma PutKeepsIds(rs: seq<Record>, h: Hit, k: nat, lexical: bool)
    requires UniqueIds(rs) && h.rank > 0
    ensures UniqueIds(Put(rs, h, k, lexical))
    ensures forall id :: HasRecord(rs, id) || id == h.documentId ==> HasRecord(Put(rs, h, k, lexical), id)
  {
    PutChangesOne(rs, h, k, lexical);
    hide Put, IndexOf;
    var p, rs' := IndexOf(rs, h.documentId), Put(rs, h, k, lexical);
    forall i | 0 <= i < |rs| ensures rs'[i].documentId == rs[i].documentId {
      if i == p {
      }
    }
    forall id | HasRecord(rs, id) || id == h.documentId ensures HasRecord(rs', id) {
      if id == h.documentId {
        assert rs'[p].documentId == id;
      } else {
        var i :| 0 <= i < |rs| && rs[i].documentId == id;
        assert rs'[i].documentId == id;
      }
    }
  }

  /** One contribution keeps the table described, with the arm's list one longer. */
  lemma PutDescribes(rs: seq<Record>, es: seq<Hit>, vec: seq<Hit>, h: Hit, k: nat, lexical: bool)
    requires Describes(rs, es, vec, k) && h.rank > 0
    requires if lexical then vec == [] && Find(es, h.documentId).None? else Find(vec, h.documentId).None?
    ensures Describes(Put(rs, h, k, lexical), Lexical(es, h, lexical), Vector(vec, h, lexical), k)
  {
    var es', vec' := Lexical(es, h, lexical), Vector(vec, h, lexical);
    var rs' := Put(rs, h, k, lexical);
    NewEntry(rs, es, vec, h, k, lexical);
    PutChangesOne(rs, h, k, lexical);
    PutKeepsIds(rs, h, k, lexical);
    hide Entry, IndexOf, Put, Lexical, Vector, Find, HasRecord, UniqueIds;
    var p := IndexOf(rs, h.documentId);
    forall i | 0 <= i < |rs'| ensures Entry(rs'[i], es', vec', k) {
      if i != p {
        SameIdSamePlace(rs, h, i);
        OtherEntry(rs[i], es, vec, h, k, lexical);
      }
    }
    forall id | Found(es', vec', id) ensures HasRecord(rs', id) {
      FoundAfter(es, vec, h, lexical, id);
    }
  }

  lemma SameIdSamePlace(rs: seq<Record>, h: Hit, i: nat)
    requires UniqueIds(rs) && i < |rs| && i != IndexOf(rs, h.documentId)
    ensures rs[i].documentId != h.documentId
  {
  }

  lemma {:induction false} PutAllDescribes(rs: seq<Record>, es: seq<Hit>, hits: seq<Hit>, k: nat, lexical: bool)
    requires Ranked(hits) && if lexical then rs == [] && es == [] else Describes(rs, es, [], k)
    ensures if lexical then Describes(PutAll(rs, hits, k, true), hits, [], k)
            else Describes(PutAll(rs, hits, k, false), es, hits, k)
  {
    hide Describes, Put, Find;
    if hits == [] {
      assert Describes([], [], [], k) by { NothingDescribed(k); }
    } else {
      var n := |hits| - 1;
      assert hits == hits[..n] + [hits[n]];
      PutAllDescribes(rs, es, hits[..n], k, lexical);
      LastIsNew(hits);
      PutDescribes(PutAll(rs, hits[..n], k, lexical), if lexical then hits[..n] else es,
                   if lexical then [] else hits[..n], hits[n], k, lexical);
    }
  }

  lemma NothingDescribed(k: nat)
    ensures Describes([], [], [], k)
  {
  }

  /**
    The fused list holds the joined record of every document of either arm exactly once, in
    non-increasing score.
  */
  lemma FusedDescribes(es: seq<Hit>, vec: seq<Hit>, k: nat)
    requires Ranked(es) && Ranked(vec)
    ensures Describes(Fused(es, vec, k), es, vec, k)
    ensures Sorted(Fused(es, vec, k), ScoredAtLeast)
  {
    hide Describes;
    PutAllDescribes([], [], es, k, true);
    PutAllDescribes(PutAll([], es, k, true), es, vec, k, false);
    var combined := PutAll(PutAll([], es, k, true), vec, k, false);
    SortSorts(combined, ScoredAtLeast);
    PermutedDescribes(combined, Sort(combined, ScoredAtLeast), es, vec, k);
  }

  lemma PermutedDescribes(a: seq<Record>, b: seq<Record>, es: seq<Hit>, vec: seq<Hit>, k: nat)
    requires Describes(a, es, vec, k) && multiset(a) == multiset(b)
    ensures Describes(b, es, vec, k)
  {
    hide Found, Entry;
    forall r ensures r in b <==> r in a {
      assert r in multiset(b) <==> r in multiset(a);
    }
    UniqueIdsPermuted(a, b);
    forall i | 0 <= i < |b| ensures Entry(b[i], es, vec, k) {
      assert b[i] in a;
    }
    forall id | Found(es, vec, id) ensures HasRecord(b, id) {
      var j :| 0 <= j < |a| && a[j].documentId == id;
      assert a[j] in b;
    }
  }

  lemma UniqueIdsPermuted(a: seq<Record>, b: seq<Record>)
    requires UniqueIds(a) && multiset(a) == multiset(b)
    ensures UniqueIds(b)
  {
    forall i, j | 0 <= i < j < |b| ensures b[i].documentId != b[j].documentId {
      assert b[i] in multiset(b) && b[j] in multiset(b);
      var p :| 0 <= p < |a| && a[p] == b[i];
      var q :| 0 <= q < |a| && a[q] == b[j];
      OnceIn(a, p);
      TwiceIn(b, i, j);
    }
  }

  lemma TwiceIn(b: seq<Record>, i: nat, j: nat)
    requires i < j < |b|
    ensures b[i] == b[j] ==> multiset(b)[b[i]] >= 2
  {
    assert b == b[..i] + [b[i]] + b[i + 1..j] + [b[j]] + b[j + 1..];
  }

  lemma OnceIn(a: seq<Record>, p: nat)
    requires p < |a| && UniqueIds(a)
    ensures multiset(a)[a[p]] == 1
  {
    assert a == a[..p] + [a[p]] + a[p + 1..];
    assert a[p] !in a[..p] && a[p] !in a[p + 1..];
  }

  // ----- dominance -----

  function ScoreOf(es: seq<Hit>, vec: seq<Hit>, k: nat, id: string): real {
    Part(Find(es, id), k) + Part(Find(vec, id), k)
  }

  /** Document `a` is ranked at least as well as `b`: wherever b is found, a is found no later. */
  predicate AtLeastAsGood(hits: seq<Hit>, a: string, b: string) {
    Find(hits, b).Some? ==> Find(hits, a).Some? && Find(hits, a).value.rank <= Find(hits, b).value.rank
  }

  lemma ReciprocalMonotone(k: nat, r: nat, s: nat)
    requires 0 < r <= s
    ensures 0.0 < Reciprocal(k, s) <= Reciprocal(k, r)
    ensures r < s ==> Reciprocal(k, s) < Reciprocal(k, r)
  {
    DivideMonotone((k + r) as real, (k + s) as real);
  }

  lemma DivideMonotone(x: real, y: real)
    requires 0.0 < x <= y
    ensures 0.0 < 1.0 / y <= 1.0 / x
    ensures x < y ==> 1.0 / y < 1.0 / x
  {
    var p, q := 1.0 / x, 1.0 / y;
    assert p * x == 1.0 && q * y == 1.0;
    Positive(p, x);
    Positive(q, y);
    assert p - q == (p * q) * (y - x) by {
      assert (p * q) * y == p * (q * y) && (p * q) * x == q * (p * x);
    }
    TimesPositive(p * q, y - x);
  }

  lemma Positive(p: real, x: real)
    requires x > 0.0 && p * x == 1.0
    ensures p > 0.0
  {
  }

  lemma TimesPositive(a: real, d: real)
    requires a > 0.0
    ensures d >= 0.0 ==> a * d >= 0.0
    ensures d > 0.0 ==> a * d > 0.0
  {
  }

  lemma PartMonotone(hits: seq<Hit>, k: nat, a: string, b: string)
    requires Ranked(hits) && AtLeastAsGood(hits, a, b)
    ensures Part(Find(hits, a), k) >= Part(Find(hits, b), k) >= 0.0
  {
    FindRanked(hits, a);
    FindRanked(hits, b);
    hide Find, Reciprocal;
    if Find(hits, b).Some? {
      ReciprocalMonotone(k, Find(hits, a).value.rank, Find(hits, b).value.rank);
    } else if Find(hits, a).Some? {
      ReciprocalMonotone(k, Find(hits, a).value.rank, Find(hits, a).value.rank);
    }
  }

  /** A document ranked at least as well in both arms never scores lower. */
  lemma BetterRanksNeverScoreLower(es: seq<Hit>, vec: seq<Hit>, k: nat, a: string, b: string)
    requires Ranked(es) && Ranked(vec) && AtLeastAsGood(es, a, b) && AtLeastAsGood(vec, a, b)
    ensures ScoreOf(es, vec, k, a) >= ScoreOf(es, vec, k, b)
  {
    PartMonotone(es, k, a, b);
    PartMonotone(vec, k, a, b);
  }

  /** Twice the reciprocal of rank r exceeds the best single reciprocal exactly for r <= k + 1; at k + 2 it ties. */
  lemma TwoBeatOne(k: nat, r: nat)
    requires 1 <= r
    ensures r <= k + 1 <==> Reciprocal(k, r) + Reciprocal(k, r) > Reciprocal(k, 1)
    ensures r == k + 2 <==> Reciprocal(k, r) + Reciprocal(k, r) == Reciprocal(k, 1)
  {
    var x, y := (k + r) as real, (k + 1) as real;
    var p, q := 1.0 / x, 1.0 / y;
    assert p * x == 1.0 && q * y == 1.0;
    Positive(p, x);
    Positive(q, y);
    assert (p + p) - q == (p * q) * (2.0 * y - x) by {
      assert (p * q) * x == q * (p * x) && (p * q) * (2.0 * y) == 2.0 * (p * (q * y));
    }
    TimesPositive(p * q, 2.0 * y - x);
    TimesPositive(p * q, x - 2.0 * y);
    assert (p * q) * (x - 2.0 * y) == -((p * q) * (2.0 * y - x));
  }

  predicate FoundByBoth(es: seq<Hit>, vec: seq<Hit>, id: string) {
    Find(es, id).Some? && Find(vec, id).Some?
  }

  /** For lists of these lengths, being found by both arms always beats being found by one. */
  predicate BothWin(k: nat, m: nat, n: nat) {
    m == 0 || n == 0 || (m - 1) * (n - 1) < (k + 1) * (k + 1)
  }

  /** The worst ranks in both arms together beat the best rank in one exactly under that condition. */
  lemma WorstPairIff(k: nat, m: nat, n: nat)
    requires m >= 1 && n >= 1
    ensures Reciprocal(k, m) + Reciprocal(k, n) > Reciprocal(k, 1) <==> BothWin(k, m, n)
  {
    var x, y, z := (k + m) as real, (k + n) as real, (k + 1) as real;
    var p, q, w := 1.0 / x, 1.0 / y, 1.0 / z;
    assert p * x == 1.0 && q * y == 1.0 && w * z == 1.0;
    Positive(p, x);
    Positive(q, y);
    Positive(w, z);
    SumOfReciprocals(p, q, w, x, y, z);
    RealProducts(k, m, n);
    TimesPositive(p * q, w);
    var d := z * z - (x - z) * (y - z);
    TimesPositive(p * q * w, d);
    TimesPositive(p * q * w, -d);
    assert (p * q * w) * -d == -((p * q * w) * d);
  }

  lemma SumOfReciprocals(p: real, q: real, w: real, x: real, y: real, z: real)
    requires p * x == 1.0 && q * y == 1.0 && w * z == 1.0
    ensures p + q - w == (p * q * w) * (z * z - (x - z) * (y - z))
  {
    var v := p * q * w;
    assert z * z - (x - z) * (y - z) == y * z + x * z - x * y;
    assert v * (y * z) == p * (q * y) * (w * z);
    assert v * (x * z) == q * (p * x) * (w * z);
    assert v * (x * y) == w * (p * x) * (q * y);
    assert v * (y * z + x * z - x * y) == v * (y * z) + v * (x * z) - v * (x * y);
  }

  lemma RealProducts(k: nat, m: nat, n: nat)
    requires m >= 1 && n >= 1
    ensures var x, y, z := (k + m) as real, (k + n) as real, (k + 1) as real;
            z * z - (x - z) * (y - z) > 0.0 <==> (m - 1) * (n - 1) < (k + 1) * (k + 1)
  {
    RealProduct(m - 1, n - 1);
    RealProduct(k + 1, k + 1);
    assert (k + m) as real - (k + 1) as real == (m - 1) as real && (k + n) as real - (k + 1) as real == (n - 1) as real;
  }

  lemma {:induction false} RealProduct(a: nat, b: nat)
    ensures (a * b) as real == a as real * b as real
  {
    if a > 0 {
      RealProduct(a - 1, b);
      assert (a - 1) * b == a * b - b && (a - 1) as real * b as real == a as real * b as real - b as real;
    }
  }

  lemma BothOutscoreOne(es: seq<Hit>, vec: seq<Hit>, k: nat, a: string, b: string)
    requires Ranked(es) && Ranked(vec) && BothWin(k, |es|, |vec|)
    requires FoundByBoth(es, vec, a) && !FoundByBoth(es, vec, b)
    ensures ScoreOf(es, vec, k, a) > ScoreOf(es, vec, k, b)
  {
    FindRanked(es, a);
    FindRanked(vec, a);
    FindRanked(es, b);
    FindRanked(vec, b);
    hide Find, Reciprocal, BothWin;
    ReciprocalMonotone(k, Find(es, a).value.rank, |es|);
    ReciprocalMonotone(k, Find(vec, a).value.rank, |vec|);
    WorstPairIff(k, |es|, |vec|);
    ReciprocalMonotone(k, 1, |es|);
    if Find(es, b).Some? {
      ReciprocalMonotone(k, 1, Find(es, b).value.rank);
    } else if Find(vec, b).Some? {
      ReciprocalMonotone(k, 1, Find(vec, b).value.rank);
    }
  }

  /** Every document found by both arms comes strictly before every other one. */
  ghost predicate BothFirst(es: seq<Hit>, vec: seq<Hit>, k: nat)
    requires Ranked(es) && Ranked(vec)
  {
    var rs := Fused(es, vec, k);
    forall i, j :: 0 <= i < |rs| && 0 <= j < |rs|
                   && FoundByBoth(es, vec, rs[i].documentId) && !FoundByBoth(es, vec, rs[j].documentId) ==>
                     i < j && rs[i].rrf > rs[j].rrf
  }

  lemma BothPrecedeOne(es: seq<Hit>, vec: seq<Hit>, k: nat)
    requires Ranked(es) && Ranked(vec) && BothWin(k, |es|, |vec|)
    ensures BothFirst(es, vec, k)
  {
    var rs := Fused(es, vec, k);
    FusedDescribes(es, vec, k);
    hide Fused, Find, Part, BothWin;
    assert forall a, b :: 0 <= a < b < |rs| ==> ScoredAtLeast(rs[a], rs[b]);
    forall i, j | 0 <= i < |rs| && 0 <= j < |rs|
                  && FoundByBoth(es, vec, rs[i].documentId) && !FoundByBoth(es, vec, rs[j].documentId)
      ensures i < j && rs[i].rrf > rs[j].rrf
    {
      BothOutscoreOne(es, vec, k, rs[i].documentId, rs[j].documentId);
      assert Entry(rs[i], es, vec, k) && Entry(rs[j], es, vec, k);
    }
  }

  // ----- the length condition is exact -----

  /** A list of `m` documents whose names are runs of one letter, the last one replaced by "common". */
  function Sample(letter: char, m: nat): (hits: seq<Hit>)
    ensures |hits| == m
  {
    seq(m, i requires 0 <= i < m => Hit(if i == m - 1 then "common" else Run(letter, i + 1), i + 1, 0.0, "", "", None))
  }

  function Run(letter: char, n: nat): string { seq(n, _ => letter) }

  lemma SampleIsRanked(letter: char, m: nat)
    requires letter != 'c'
    ensures Ranked(Sample(letter, m))
  {
    var hits := Sample(letter, m);
    forall i, j | 0 <= i < j < |hits| ensures hits[i].documentId != hits[j].documentId {
      RunIsOwn(letter, i + 1, letter);
      assert |Run(letter, i + 1)| == i + 1 && |Run(letter, j + 1)| == j + 1;
    }
  }

  lemma RunIsOwn(letter: char, n: nat, other: char)
    requires n > 0 && letter != 'c'
    ensures Run(letter, n) != "common" && forall m: nat :: letter != other && m > 0 ==> Run(letter, n) != Run(other, m)
  {
    assert Run(letter, n)[0] == letter && "common"[0] == 'c';
    forall m: nat | letter != other && m > 0 ensures Run(letter, n) != Run(other, m) {
      assert Run(other, m)[0] == other;
    }
  }

  /** From the lengths on where the condition fails there are lists for which the guarantee fails. */
  lemma SampleFails(k: nat, m: nat, n: nat)
    requires !BothWin(k, m, n)
    ensures Ranked(Sample('x', m)) && Ranked(Sample('y', n)) && !BothFirst(Sample('x', m), Sample('y', n), k)
  {
    assert m >= 2 && n >= 2 by { TooShort(k, m, n); }
    var es, vec := Sample('x', m), Sample('y', n);
    SampleIsRanked('x', m);
    SampleIsRanked('y', n);
    var a, b := "common", Run('x', 1);
    assert es[m - 1].documentId == a && vec[n - 1].documentId == a && es[0].documentId == b;
    forall i | 0 <= i < n ensures vec[i].documentId != b {
      RunIsOwn('x', 1, 'y');
    }
    hide Sample, Run, BothWin;
    FoundAt(es, m - 1);
    FoundAt(vec, n - 1);
    FoundAt(es, 0);
    FindRanked(vec, b);
    WorstPairIff(k, m, n);
    SharedLoses(es, vec, k, a, b);
  }

  lemma TooShort(k: nat, m: nat, n: nat)
    requires !BothWin(k, m, n)
    ensures m >= 2 && n >= 2
  {
    assert (k + 1) * (k + 1) > 0;
    assert m == 1 ==> (m - 1) * (n - 1) == 0;
    assert n == 1 ==> (m - 1) * (n - 1) == 0;
  }

  lemma FoundAt(hits: seq<Hit>, i: nat)
    requires Ranked(hits) && i < |hits|
    ensures Find(hits, hits[i].documentId) == Some(hits[i])
  {
    FindRanked(hits, hits[i].documentId);
    SameHit(hits, i, Find(hits, hits[i].documentId).value.rank - 1);
  }

  lemma SharedLoses(es: seq<Hit>, vec: seq<Hit>, k: nat, a: string, b: string)
    requires Ranked(es) && Ranked(vec) && FoundByBoth(es, vec, a)
    requires Find(es, b).Some? && Find(es, b).value.rank == 1 && Find(vec, b).None?
    requires Find(es, a).value.rank > 0 && Find(vec, a).value.rank > 0
    requires Reciprocal(k, Find(es, a).value.rank) + Reciprocal(k, Find(vec, a).value.rank) <= Reciprocal(k, 1)
    ensures !BothFirst(es, vec, k)
  {
    var rs := Fused(es, vec, k);
    FusedDescribes(es, vec, k);
    hide Fused, Find, Reciprocal;
    assert HasRecord(rs, a) && HasRecord(rs, b);
    var i :| 0 <= i < |rs| && rs[i].documentId == a;
    var j :| 0 <= j < |rs| && rs[j].documentId == b;
    assert Entry(rs[i], es, vec, k) && Entry(rs[j], es, vec, k);
  }

  /** For lists of `m` and `n` documents the guarantee holds exactly when (m - 1) (n - 1) < (k + 1)^2 or one is empty. */
  lemma LengthsDecide(k: nat, m: nat, n: nat)
    ensures (forall es, vec :: Ranked(es) && Ranked(vec) && |es| == m && |vec| == n ==> BothFirst(es, vec, k)) <==>
            BothWin(k, m, n)
  {
    hide BothFirst, Ranked, Sample;
    if BothWin(k, m, n) {
      forall es, vec | Ranked(es) && Ranked(vec) && |es| == m && |vec| == n ensures BothFirst(es, vec, k) {
        BothPrecedeOne(es, vec, k);
      }
    } else {
      SampleFails(k, m, n);
    }
  }

  /**
    For two lists longer than k + 1, whatever they hold: a document at rank k + 2 of both arms does not
    outscore the best document of one arm.
  */
  lemma BoundIsTight(es: seq<Hit>, vec: seq<Hit>, k: nat)
    requires Ranked(es) && Ranked(vec) && |es| >= k + 2 && |vec| >= k + 2
    requires es[k + 1].documentId == vec[k + 1].documentId
    requires !FoundByBoth(es, vec, es[0].documentId)
    ensures FoundByBoth(es, vec, es[k + 1].documentId)
    ensures ScoreOf(es, vec, k, es[k + 1].documentId) <= ScoreOf(es, vec, k, es[0].documentId)
  {
    var a, b := es[k + 1].documentId, es[0].documentId;
    FindRanked(es, a);
    FindRanked(vec, a);
    FindRanked(es, b);
    SameHit(es, k + 1, Find(es, a).value.rank - 1);
    SameHit(vec, k + 1, Find(vec, a).value.rank - 1);
    SameHit(es, 0, Find(es, b).value.rank - 1);
    TwoBeatOne(k, k + 2);
  }

  lemma SameHit(hits: seq<Hit>, i: nat, j: nat)
    requires Ranked(hits) && i < |hits| && j < |hits| && hits[i].documentId == hits[j].documentId
    ensures i == j
  {
  }
}
