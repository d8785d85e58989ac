/** What a mention holds and who is allowed, read off the hits. */
module MentionRules {
  import opened Seqs
  import opened Mentions

  // ----- the best candidate of each entity -----

  /** Candidate number `j` is the first of the best-scoring ones of its entity. */
  ghost predicate FirstBest(cs: seq<Candidate>, j: nat) {
    && j < |cs|
    && (forall i :: 0 <= i < |cs| && cs[i].entityId == cs[j].entityId ==> cs[i].score <= cs[j].score)
    && forall i :: 0 <= i < j && cs[i].entityId == cs[j].entityId ==> cs[i].score < cs[j].score
  }

  lemma {:induction false} BestIsFirst(cs: seq<Candidate>, id: string) returns (j: nat)
    ensures id in Best(cs) <==> exists c :: c in cs && c.entityId == id
    ensures id in Best(cs) ==> FirstBest(cs, j) && cs[j] == Best(cs)[id] && cs[j].entityId == id
  {
    j := 0;
    if cs == [] {
      assert Best([]) == map[];
    } else {
      hide Best, FirstBest;
      var n := |cs| - 1;
      var j0 := BestIsFirst(cs[..n], id);
      assert cs == cs[..n] + [cs[n]];
      BestStep(cs[..n], cs[n]);
      if cs[n].entityId == id && (id !in Best(cs[..n]) || cs[n].score > Best(cs[..n])[id].score) {
        NewBest(cs, id);
        j := n;
      } else if id in Best(cs) {
        OldBest(cs, j0);
        j := j0;
      }
    }
  }

  lemma NewBest(cs: seq<Candidate>, id: string)
    requires cs != [] && cs[|cs| - 1].entityId == id
    requires var best := Best(cs[..|cs| - 1]); id !in best || cs[|cs| - 1].score > best[id].score
    ensures FirstBest(cs, |cs| - 1)
  {
    var n := |cs| - 1;
    forall i | 0 <= i < n && cs[i].entityId == id ensures cs[i].score < cs[n].score {
      assert cs[i] == cs[..n][i] && cs[..n][i] in cs[..n];
    }
  }

  lemma OldBest(cs: seq<Candidate>, j: nat)
    requires cs != [] && FirstBest(cs[..|cs| - 1], j)
    requires var c := cs[..|cs| - 1][j]; cs[|cs| - 1].entityId == c.entityId ==> cs[|cs| - 1].score <= c.score
    ensures FirstBest(cs, j) && cs[j] == cs[..|cs| - 1][j]
  {
    assert forall i :: 0 <= i < |cs| - 1 ==> cs[..|cs| - 1][i] == cs[i];
  }

  lemma BestStep(front: seq<Candidate>, c: Candidate)
    ensures var best := Best(front);
            Best(front + [c]) == if c.entityId !in best || c.score > best[c.entityId].score then best[c.entityId := c] else best
  {
    assert (front + [c])[..|front|] == front;
  }

  lemma MergeOneMore(a: map<string, Candidate>, b: map<string, Candidate>, c: Candidate)
    requires forall id :: id in a ==> a[id].entityId == id
    requires forall id :: id in b ==> b[id].entityId == id
    ensures var m, b' := MergeBest(a, b), if c.entityId !in b || c.score > b[c.entityId].score then b[c.entityId := c] else b;
            MergeBest(a, b') == if c.entityId !in m || c.score > m[c.entityId].score then m[c.entityId := c] else m
  {
  }

  /** Merging the best of two lists gives the best of the joined list. */
  lemma {:induction false} MergeIsBest(a: seq<Candidate>, b: seq<Candidate>)
    ensures MergeBest(Best(a), Best(b)) == Best(a + b)
  {
    if b == [] {
      assert a + b == a;
      assert MergeBest(Best(a), map[]) == Best(a);
    } else {
      hide MergeBest, Best;
      var n := |b| - 1;
      assert b == b[..n] + [b[n]] && a + b == (a + b[..n]) + [b[n]];
      MergeIsBest(a, b[..n]);
      BestStep(b[..n], b[n]);
      BestStep(a + b[..n], b[n]);
      MergeOneMore(Best(a), Best(b[..n]), b[n]);
    }
  }

  // ----- what a mention holds -----

  /** The hits collected in a mention: those of its spelling that name one entity, or those that do not. */
  ghost function GroupOf(m: Mention, normalize: Normalizer): FormHit -> bool {
    (h: FormHit) => normalize(h.data.observed) == normalize(m.observed) && (SingleCandidate(h) <==> m.exact)
  }

  ghost function AllCandidates(hits: seq<FormHit>): seq<Candidate> {
    if hits == [] then [] else AllCandidates(hits[..|hits| - 1]) + hits[|hits| - 1].data.candidates
  }

  /** The mention is made of these hits: the first one's text, their number, and the best of all their candidates. */
  ghost predicate MadeOf(m: Mention, own: seq<FormHit>, normalize: Normalizer) {
    && own != [] && m.observed == own[0].data.observed && m.count == |own|
    && (normalize(m.observed) != "" ==> m.normalized == normalize(m.observed))
    && (normalize(m.observed) == "" ==> m.normalized == own[0].data.known)
    && m.candidates == Best(AllCandidates(own))
  }

  ghost predicate AllMade(hits: seq<FormHit>, ms: seq<Mention>, normalize: Normalizer) {
    forall k :: 0 <= k < |ms| ==> MadeOf(ms[k], Keep(hits, GroupOf(ms[k], normalize)), normalize)
  }

  ghost predicate AllGrouped(hits: seq<FormHit>, ms: seq<Mention>, normalize: Normalizer) {
    forall i :: 0 <= i < |hits| ==> Grouped(hits[i], ms, normalize)
  }

  ghost predicate Grouped(h: FormHit, ms: seq<Mention>, normalize: Normalizer) {
    exists k :: 0 <= k < |ms| && GroupOf(ms[k], normalize)(h)
  }

  lemma NewIsMade(h: FormHit, normalize: Normalizer)
    ensures MadeOf(NewMention(h, normalize), [h], normalize)
    ensures GroupOf(NewMention(h, normalize), normalize)(h)
  {
    assert [h][..0] == [] && AllCandidates([h]) == [] + h.data.candidates == h.data.candidates;
    hide Best;
  }

  lemma OneMoreIsMade(m: Mention, own: seq<FormHit>, h: FormHit, normalize: Normalizer)
    requires MadeOf(m, own, normalize)
    ensures MadeOf(m.(count := m.count + 1, candidates := MergeBest(m.candidates, Best(h.data.candidates))), own + [h], normalize)
  {
    assert (own + [h])[..|own|] == own;
    MergeIsBest(AllCandidates(own), h.data.candidates);
    hide Best, MergeBest;
  }

  lemma NoneGrouped(hits: seq<FormHit>, ms: seq<Mention>, m: Mention, normalize: Normalizer)
    requires AllGrouped(hits, ms, normalize) && forall k :: 0 <= k < |ms| ==> !SameKey(ms[k], m, normalize)
    ensures Keep(hits, GroupOf(m, normalize)) == []
  {
    hide SingleCandidate;
    forall h | h in hits ensures !GroupOf(m, normalize)(h) {
      var i :| 0 <= i < |hits| && hits[i] == h;
      assert Grouped(hits[i], ms, normalize);
      var k :| 0 <= k < |ms| && GroupOf(ms[k], normalize)(h);
      assert !SameKey(ms[k], m, normalize);
    }
    KeepNone(hits, GroupOf(m, normalize));
  }

  lemma StillGrouped(h: FormHit, ms: seq<Mention>, r: seq<Mention>, normalize: Normalizer)
    requires Grouped(h, ms, normalize) && |ms| <= |r|
    requires forall k :: 0 <= k < |ms| ==> r[k].observed == ms[k].observed && r[k].exact == ms[k].exact
    ensures Grouped(h, r, normalize)
  {
    hide SingleCandidate;
    var k :| 0 <= k < |ms| && GroupOf(ms[k], normalize)(h);
    assert GroupOf(r[k], normalize)(h);
  }

  /** The place that takes the next hit, and what becomes of the list. */
  lemma AddIs(ms: seq<Mention>, h: FormHit, normalize: Normalizer) returns (p: nat)
    ensures var r := AddMention(ms, h, normalize);
            && p <= |ms| && |r| == (if p < |ms| then |ms| else |ms| + 1) && GroupOf(r[p], normalize)(h)
            && (forall k :: 0 <= k < |ms| && k != p ==> r[k] == ms[k])
            && (p < |ms| ==> r[p] == ms[p].(count := ms[p].count + 1, candidates := MergeBest(ms[p].candidates, Best(h.data.candidates))))
            && (p == |ms| ==> r[p] == NewMention(h, normalize) && forall k :: 0 <= k < |ms| ==> !SameKey(ms[k], r[p], normalize))
  {
    hide Best, MergeBest;
    p := FindMention(ms, normalize(h.data.observed), SingleCandidate(h), normalize);
    FirstOfKey(ms, normalize(h.data.observed), SingleCandidate(h), normalize);
    hide FindMention;
  }

  /**
    The list of mentions, from the hits: every hit is in the group of some mention, no two mentions share a group,
    and each mention is made of the hits of its group, in order.
  */
  lemma {:induction false} MentionsAre(hits: seq<FormHit>, normalize: Normalizer)
    ensures var ms := MentionsOf(hits, normalize);
            && AllGrouped(hits, ms, normalize) && AllMade(hits, ms, normalize)
            && forall a, b :: 0 <= a < b < |ms| ==> !SameKey(ms[a], ms[b], normalize)
  {
    hide AllGrouped, AllMade, AddMention, SameKey;
    if hits != [] {
      var n := |hits| - 1;
      MentionsAre(hits[..n], normalize);
      assert hits == hits[..n] + [hits[n]];
      OneMoreHit(hits[..n], hits[n], MentionsOf(hits[..n], normalize), normalize);
    } else {
      NothingMade(normalize);
    }
  }

  lemma NothingMade(normalize: Normalizer)
    ensures AllGrouped([], [], normalize) && AllMade([], [], normalize)
  {
  }

  lemma OneMoreHit(front: seq<FormHit>, h: FormHit, ms: seq<Mention>, normalize: Normalizer)
    requires AllGrouped(front, ms, normalize) && AllMade(front, ms, normalize)
    requires forall a, b :: 0 <= a < b < |ms| ==> !SameKey(ms[a], ms[b], normalize)
    ensures AllGrouped(front + [h], AddMention(ms, h, normalize), normalize)
    ensures AllMade(front + [h], AddMention(ms, h, normalize), normalize)
    ensures var r := AddMention(ms, h, normalize); forall a, b :: 0 <= a < b < |r| ==> !SameKey(r[a], r[b], normalize)
  {
    var r := AddMention(ms, h, normalize);
    var p := AddIs(ms, h, normalize);
    hide AddMention, Best, MergeBest, SingleCandidate, MadeOf, NewMention, Keep;
    assert AllGrouped(front + [h], r, normalize) by { GroupsKept(front, h, ms, r, p, normalize); }
    forall k | 0 <= k < |r| ensures MadeOf(r[k], Keep(front + [h], GroupOf(r[k], normalize)), normalize) {
      KeepLast(front, h, GroupOf(r[k], normalize));
      if k == p && p < |ms| {
        SameGroup(r[p], ms[p], normalize, front);
        OneMoreIsMade(ms[p], Keep(front, GroupOf(ms[p], normalize)), h, normalize);
      } else if k == p {
        NoneGrouped(front, ms, r[p], normalize);
        NewIsMade(h, normalize);
        assert [] + [h] == [h];
      } else {
        OthersKeepOut(h, r[k], r[p], normalize, ms, k, p);
      }
    }
  }

  lemma SameGroup(a: Mention, b: Mention, normalize: Normalizer, hits: seq<FormHit>)
    requires a.observed == b.observed && a.exact == b.exact
    ensures Keep(hits, GroupOf(a, normalize)) == Keep(hits, GroupOf(b, normalize))
  {
    hide SingleCandidate;
    KeepSame(hits, GroupOf(a, normalize), GroupOf(b, normalize));
  }

  /** A hit of the group of one mention is not in the group of another. */
  lemma OthersKeepOut(h: FormHit, other: Mention, own: Mention, normalize: Normalizer, ms: seq<Mention>, k: nat, p: nat)
    requires GroupOf(own, normalize)(h) && k < |ms| && p <= |ms| && k != p && other == ms[k]
    requires if p < |ms| then own.observed == ms[p].observed && own.exact == ms[p].exact
             else forall j :: 0 <= j < |ms| ==> !SameKey(ms[j], own, normalize)
    requires forall a, b :: 0 <= a < b < |ms| ==> !SameKey(ms[a], ms[b], normalize)
    ensures !GroupOf(other, normalize)(h)
  {
    hide SingleCandidate;
    assert GroupOf(other, normalize)(h) ==> SameKey(other, own, normalize) && SameKey(own, other, normalize);
    assert p < |ms| ==> (SameKey(other, own, normalize) <==> SameKey(ms[k], ms[p], normalize));
    assert p < |ms| ==> (SameKey(own, other, normalize) <==> SameKey(ms[p], ms[k], normalize));
  }

  lemma GroupsKept(front: seq<FormHit>, h: FormHit, ms: seq<Mention>, r: seq<Mention>, p: nat, normalize: Normalizer)
    requires AllGrouped(front, ms, normalize) && p < |r| && |ms| <= |r| && GroupOf(r[p], normalize)(h)
    requires forall k :: 0 <= k < |ms| ==> r[k].observed == ms[k].observed && r[k].exact == ms[k].exact
    ensures AllGrouped(front + [h], r, normalize)
  {
    hide SingleCandidate;
    forall i | 0 <= i < |front + [h]| ensures Grouped((front + [h])[i], r, normalize) {
      if i < |front| {
        assert Grouped(front[i], ms, normalize);
        StillGrouped(front[i], ms, r, normalize);
      } else {
        assert 0 <= p < |r| && GroupOf(r[p], normalize)((front + [h])[i]);
      }
    }
  }

  // ----- who is allowed -----

  /** The mention resolves to this entity: it is exact and has it as its only candidate. */
  ghost predicate ResolvesTo(m: Mention, id: string) {
    m.exact && |m.candidates| == 1 && TheCandidate(m).entityId == id
  }

  /** Allowed are exactly the entities some mention resolves to, with exactly the spellings of those mentions that are not empty. */
  lemma {:induction false} AllowedIff(ms: seq<Mention>, normalize: Normalizer, id: string, form: string)
    ensures id in AllowedOf(ms, normalize) <==> exists k :: 0 <= k < |ms| && ResolvesTo(ms[k], id)
    ensures id in AllowedOf(ms, normalize) ==>
              (form in AllowedOf(ms, normalize)[id].forms <==>
               form != "" && exists k :: 0 <= k < |ms| && ResolvesTo(ms[k], id) && normalize(ms[k].observed) == form)
  {
    hide TheCandidate, Allow, ResolvesTo;
    if ms != [] {
      var n := |ms| - 1;
      AllowedIff(ms[..n], normalize, id, form);
      AllowIs(AllowedOf(ms[..n], normalize), ms[n], normalize, id, form);
      assert forall k :: 0 <= k < n ==> ms[..n][k] == ms[k];
      assert forall k :: 0 <= k < n ==> (ResolvesTo(ms[k], id) <==> ResolvesTo(ms[..n][k], id));
    }
  }

  lemma AllowIs(allowed: Allowed, m: Mention, normalize: Normalizer, id: string, form: string)
    ensures var r := Allow(allowed, m, normalize);
            && (id in r <==> id in allowed || ResolvesTo(m, id))
            && (id in r ==>
                  (form in r[id].forms <==>
                   || (id in allowed && form in allowed[id].forms)
                   || (ResolvesTo(m, id) && form != "" && form == normalize(m.observed))))
  {
    hide TheCandidate;
  }
}
