/** What the fused list holds, read off the two result lists and the raw chunks. */
module FusionRules {
  import opened Wrappers
  import opened Seqs
  import opened Sorting
  import opened RankFusion

  // ----- the vector arm -----

  /** Chunk number `i` is the first of its document that reaches the threshold; chunks without a document do not count. */
  ghost predicate FirstUsable(raw: seq<Chunk>, threshold: real, i: nat) {
    && i < |raw| && raw[i].score >= threshold && raw[i].documentId != None && raw[i].documentId != Some("")
    && forall j :: 0 <= j < i ==> raw[j].score < threshold || raw[j].documentId != raw[i].documentId
  }

  ghost predicate Rising(places: seq<nat>) {
    forall i, j :: 0 <= i < j < |places| ==> places[i] < places[j]
  }

  /** The chunks kept are exactly those, in the order of the store's answer. */
  lemma {:induction false} FirstChunksAre(raw: seq<Chunk>, threshold: real) returns (places: seq<nat>)
    ensures var kept := FirstChunks(raw, threshold);
            && |places| == |kept| && Rising(places)
            && (forall i :: 0 <= i < |kept| ==> FirstUsable(raw, threshold, places[i]) && kept[i] == raw[places[i]])
            && forall i: nat :: FirstUsable(raw, threshold, i) ==> i in places
  {
    places := [];
    if raw != [] {
      var n := |raw| - 1;
      places := FirstChunksAre(raw[..n], threshold);
      assert raw == raw[..n] + [raw[n]];
      LastIsUsable(raw, threshold);
      forall i: nat | i < n ensures FirstUsable(raw[..n], threshold, i) <==> FirstUsable(raw, threshold, i) {
        EarlierIsUsable(raw, threshold, i);
      }
      hide FirstUsable, HasDoc, Usable;
      if FirstUsable(raw, threshold, n) {
        places := places + [n];
      }
    }
  }

  lemma EarlierIsUsable(raw: seq<Chunk>, threshold: real, i: nat)
    requires i < |raw| - 1
    ensures FirstUsable(raw[..|raw| - 1], threshold, i) <==> FirstUsable(raw, threshold, i)
  {
    assert forall j :: 0 <= j <= i ==> raw[..|raw| - 1][j] == raw[j];
  }

  lemma LastIsUsable(raw: seq<Chunk>, threshold: real)
    requires raw != []
    ensures var n := |raw| - 1;
            FirstUsable(raw, threshold, n) <==>
            Usable(raw[n], threshold) && !HasDoc(FirstChunks(raw[..n], threshold), Doc(raw[n]))
  {
    var n := |raw| - 1;
    var kept := FirstChunks(raw[..n], threshold);
    OneChunkPerDocument(raw[..n], threshold);
    if Usable(raw[n], threshold) {
      if HasDoc(kept, Doc(raw[n])) {
        var i :| 0 <= i < |kept| && Doc(kept[i]) == Doc(raw[n]);
        var j :| 0 <= j < n && raw[..n][j] == kept[i];
        assert raw[j] == kept[i];
      } else {
        forall j | 0 <= j < n ensures raw[j].score < threshold || raw[j].documentId != raw[n].documentId {
          assert raw[j] == raw[..n][j] && raw[..n][j] in raw[..n];
        }
      }
    }
  }

  // ----- the fused list -----

  /** `p` is the place of the document in the list, `None` when it is not there. */
  ghost predicate Place(hits: seq<Hit>, id: string, p: Option<nat>) {
    match p
    case Some(i) => i < |hits| && hits[i].documentId == id
    case None => forall i :: 0 <= i < |hits| ==> hits[i].documentId != id
  }

  lemma FindIsPlace(hits: seq<Hit>, id: string, p: Option<nat>)
    requires Ranked(hits) && Place(hits, id, p)
    ensures Find(hits, id) == if p.Some? then Some(hits[p.value]) else None
  {
    FindRanked(hits, id);
    hide Find;
  }

  /**
    Every record of the fused list, from the places of its document in the two lists: the score is the sum of
    1 / (k + place) over the lists that have it, places counted from 1; ranks, scores and the chunk number are
    copied; the lexical title and the vector snippet win unless they are empty.
  */
  lemma RecordIs(es: seq<Hit>, vec: seq<Hit>, k: nat, j: nat, a: Option<nat>, b: Option<nat>)
    requires Ranked(es) && Ranked(vec) && j < |Fused(es, vec, k)|
    requires Place(es, Fused(es, vec, k)[j].documentId, a) && Place(vec, Fused(es, vec, k)[j].documentId, b)
    ensures var r := Fused(es, vec, k)[j];
            && (a.Some? || b.Some?)
            && r.rrf == (if a.Some? then 1.0 / ((k + a.value + 1) as real) else 0.0)
                        + (if b.Some? then 1.0 / ((k + b.value + 1) as real) else 0.0)
            && r.esRank == (if a.Some? then Some(a.value + 1) else None)
            && r.esScore == (if a.Some? then Some(es[a.value].score) else None)
            && r.vectorRank == (if b.Some? then Some(b.value + 1) else None)
            && r.vectorScore == (if b.Some? then Some(vec[b.value].score) else None)
            && r.chunkNo == (if b.Some? then vec[b.value].chunkNo else None)
            && r.title == (if a.Some? && es[a.value].title != "" then es[a.value].title
                           else if b.Some? then vec[b.value].title else "")
            && r.snippet == (if b.Some? && vec[b.value].snippet != "" then vec[b.value].snippet
                             else if a.Some? then es[a.value].snippet else "")
  {
    FusedDescribes(es, vec, k);
    var id := Fused(es, vec, k)[j].documentId;
    FindIsPlace(es, id, a);
    FindIsPlace(vec, id, b);
    hide Find, Fused, Sorted, UniqueIds;
    assert Entry(Fused(es, vec, k)[j], es, vec, k);
  }

  /** Every document of either list has exactly one record, the scores fall, and equal scores keep the order of first sight. */
  lemma FusedListIs(es: seq<Hit>, vec: seq<Hit>, k: nat, score: real)
    requires Ranked(es) && Ranked(vec)
    ensures var r := Fused(es, vec, k);
            && (forall i, j :: 0 <= i < j < |r| ==> r[i].documentId != r[j].documentId && r[i].rrf >= r[j].rrf)
            && (forall i :: 0 <= i < |es| ==> HasRecord(r, es[i].documentId))
            && (forall i :: 0 <= i < |vec| ==> HasRecord(r, vec[i].documentId))
            && Keep(r, HasScore(score)) == Keep(PutAll(PutAll([], es, k, true), vec, k, false), HasScore(score))
  {
    FusedDescribes(es, vec, k);
    forall i | 0 <= i < |es| ensures Found(es, vec, es[i].documentId) {
      FindIsPlace(es, es[i].documentId, Some(i));
    }
    forall i | 0 <= i < |vec| ensures Found(es, vec, vec[i].documentId) {
      FindIsPlace(vec, vec[i].documentId, Some(i));
    }
    SortIsStable(PutAll(PutAll([], es, k, true), vec, k, false), ScoredAtLeast, HasScore(score));
    hide Find, Found, HasRecord, Keep, PutAll, Entry, Sort;
  }

  function HasScore(score: real): Record -> bool { (r: Record) => r.rrf == score }
}
