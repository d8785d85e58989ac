/**
  Context disambiguation of query entities: ambiguous mentions are settled by their links to entities
  that are already resolved, round after round, until a round changes nothing.  The graph is an
  arbitrary oracle.
*/
module EntityResolution {
  import opened Wrappers
  import opened Seqs

  datatype Candidate = Candidate(entityId: string, displayName: string, formValue: string, weight: real)

  datatype Status = Resolved | Ambiguous | FuzzyCandidate

  /** `chosen` holds the fields copied from the candidate that an entity was resolved to. */
  datatype QueryEntity = QueryEntity(mention: string, status: Status, chosen: Option<Candidate>,
                                     candidates: seq<Candidate>, byContext: bool)

  /** Links of candidate ids to resolved ids: per candidate, the number of relations of each link. */
  type Graph = (seq<string>, seq<string>) -> map<string, seq<nat>>

  function ResolvedIds(es: seq<QueryEntity>): seq<string> {
    if es == [] then []
    else
      (if es[0].status == Resolved && es[0].chosen.Some? && es[0].chosen.value.entityId != ""
       then [es[0].chosen.value.entityId] else [])
      + ResolvedIds(es[1..])
  }

  predicate HasResolvedId(e: QueryEntity) {
    e.status == Resolved && e.chosen.Some? && e.chosen.value.entityId != ""
  }

  function WithResolvedId(): QueryEntity -> bool { (e: QueryEntity) => HasResolvedId(e) }

  /** The ids handed to the graph: those of the resolved entities that have one, in order. */
  lemma {:induction false} ResolvedIdsAre(es: seq<QueryEntity>)
    ensures var kept := Keep(es, WithResolvedId());
            && |ResolvedIds(es)| == |kept|
            && forall j :: 0 <= j < |kept| ==>
                 && kept[j].status == Resolved && kept[j].chosen.Some?
                 && kept[j].chosen.value.entityId == ResolvedIds(es)[j] != ""
  {
    if es != [] {
      ResolvedIdsAre(es[1..]);
    }
  }

  function CandidateIds(cs: seq<Candidate>): seq<string> {
    seq(|cs|, i requires 0 <= i < |cs| => cs[i].entityId)
  }

  /** A link without listed relations counts once. */
  function Score(links: seq<nat>): nat {
    if links == [] then 0 else Max(1, links[0]) + Score(links[1..])
  }

  /** The score adds up over the links; each counts its relations, and one when it lists none. */
  lemma {:induction false} ScoreAddsUp(a: seq<nat>, b: seq<nat>, relations: nat)
    ensures Score(a + b) == Score(a) + Score(b)
    ensures Score([relations]) == if relations == 0 then 1 else relations
    ensures Score(a) > 0 <==> a != []
  {
    assert Score([]) == 0 && [relations][1..] == [];
    if a == [] {
      assert a + b == b;
    } else {
      assert (a + b)[1..] == a[1..] + b;
      ScoreAddsUp(a[1..], b, relations);
    }
  }

  function Scores(links: map<string, seq<nat>>): map<string, nat> {
    map id | id in links :: Score(links[id])
  }

  /** `id` has a positive score and every other one a smaller score. */
  predicate UniqueBest(scores: map<string, nat>, id: string) {
    id in scores && scores[id] > 0 && forall x :: x in scores && x != id ==> scores[x] < scores[id]
  }

  /** The first candidate whose id is the unique best one; `|cs|` if there is none. */
  function BestCandidate(cs: seq<Candidate>, scores: map<string, nat>): (i: nat)
    ensures i <= |cs|
    ensures i < |cs| ==> UniqueBest(scores, cs[i].entityId)
    ensures forall j :: 0 <= j < i ==> !UniqueBest(scores, cs[j].entityId)
  {
    if cs == [] || UniqueBest(scores, cs[0].entityId) then 0 else 1 + BestCandidate(cs[1..], scores)
  }

  function ScoresFor(e: QueryEntity, resolved: seq<string>, graph: Graph): map<string, nat> {
    Scores(graph(CandidateIds(e.candidates), resolved))
  }

  function Settle(e: QueryEntity, c: Candidate): QueryEntity {
    e.(status := Resolved, chosen := Some(c), byContext := true)
  }

  /** One entity in one round. */
  function Decide(e: QueryEntity, resolved: seq<string>, graph: Graph): QueryEntity {
    var i := BestCandidate(e.candidates, ScoresFor(e, resolved, graph));
    if e.status == Ambiguous && i < |e.candidates| then Settle(e, e.candidates[i]) else e
  }

  /** The whole round looks at the entities resolved before it. */
  function Round(es: seq<QueryEntity>, graph: Graph): (r: seq<QueryEntity>)
    ensures |r| == |es|
  {
    var resolved := ResolvedIds(es);
    seq(|es|, i requires 0 <= i < |es| => Decide(es[i], resolved, graph))
  }

  function IsOpen(): QueryEntity -> bool { (e: QueryEntity) => e.status == Ambiguous }

  function Open(es: seq<QueryEntity>): nat { |Keep(es, IsOpen())| }

  lemma {:induction false} FewerOpen(a: seq<QueryEntity>, b: seq<QueryEntity>)
    requires |a| == |b|
    requires forall i :: 0 <= i < |a| ==> b[i] == a[i] || (a[i].status == Ambiguous && b[i].status == Resolved)
    ensures Open(b) <= Open(a) && (a != b ==> Open(b) < Open(a))
  {
    if a != [] {
      FewerOpen(a[1..], b[1..]);
      assert a == [a[0]] + a[1..] && b == [b[0]] + b[1..];
    }
  }

  lemma RoundProgress(es: seq<QueryEntity>, graph: Graph)
    ensures Round(es, graph) != es ==> Open(Round(es, graph)) < Open(es)
  {
    FewerOpen(es, Round(es, graph));
  }

  /** Rounds are repeated until nothing is resolved yet or a round changes nothing. */
  function Disambiguated(es: seq<QueryEntity>, graph: Graph): seq<QueryEntity>
    decreases Open(es)
  {
    RoundProgress(es, graph);
    if ResolvedIds(es) == [] || Round(es, graph) == es then es else Disambiguated(Round(es, graph), graph)
  }

  /** The loop in place; it needs at most one round more than there are ambiguous entities. */
  method Disambiguate(entities: array<QueryEntity>, graph: Graph) returns (rounds: nat)
    modifies entities
    ensures entities[..] == Disambiguated(old(entities[..]), graph)
    ensures rounds <= Open(old(entities[..])) + 1
  {
    rounds := 0;
    var changed := true;
    while changed
      invariant changed ==> Disambiguated(entities[..], graph) == Disambiguated(old(entities[..]), graph)
      invariant !changed ==> entities[..] == Disambiguated(old(entities[..]), graph)
      invariant rounds + Open(entities[..]) <= Open(old(entities[..])) + if changed then 0 else 1
      decreases changed, Open(entities[..])
    {
      hide Disambiguated, Open, ResolvedIds, Round;
      ghost var before := entities[..];
      UnfoldDisambiguated(before, graph);
      RoundProgress(before, graph);
      changed := false;
      var resolved := ResolvedIds(entities[..]);
      if resolved == [] {
        break;
      }
      rounds := rounds + 1;
      changed := DecideAll(entities, resolved, graph);
    }
  }

  lemma UnfoldDisambiguated(es: seq<QueryEntity>, graph: Graph)
    ensures Disambiguated(es, graph) ==
            if ResolvedIds(es) == [] || Round(es, graph) == es then es else Disambiguated(Round(es, graph), graph)
  {
  }

  method DecideAll(entities: array<QueryEntity>, resolved: seq<string>, graph: Graph) returns (changed: bool)
    requires resolved == ResolvedIds(entities[..])
    modifies entities
    ensures entities[..] == Round(old(entities[..]), graph)
    ensures changed <==> entities[..] != old(entities[..])
  {
    hide ScoresFor, BestCandidate;
    ghost var before := entities[..];
    changed := false;
    var i := 0;
    while i < entities.Length
      invariant 0 <= i <= entities.Length == |before|
      invariant forall j :: 0 <= j < i ==> entities[j] == Decide(before[j], resolved, graph)
      invariant forall j :: i <= j < entities.Length ==> entities[j] == before[j]
      invariant changed <==> exists j :: 0 <= j < i && entities[j] != before[j]
    {
      var e := entities[i];
      if e.status == Ambiguous {
        var k := BestCandidate(e.candidates, ScoresFor(e, resolved, graph));
        if k < |e.candidates| {
          entities[i] := Settle(e, e.candidates[k]);
          changed := true;
          assert entities[i] != before[i];
        }
      }
      i := i + 1;
    }
    assert entities[..] == Round(before, graph);
    if changed {
      ghost var j :| 0 <= j < i && entities[j] != before[j];
      assert entities[..][j] != before[j];
    }
  }

  // ----- what the result means -----

  /**
    Candidate number `i` wins: it is linked to something resolved, every other linked id has a smaller score,
    and no earlier candidate has the same id.
  */
  ghost predicate Wins(e: QueryEntity, i: nat, resolved: seq<string>, graph: Graph) {
    && i < |e.candidates|
    && var links, id := graph(CandidateIds(e.candidates), resolved), e.candidates[i].entityId;
    && id in links && links[id] != []
    && (forall x :: x in links && x != id ==> Score(links[x]) < Score(links[id]))
    && forall j :: 0 <= j < i ==> e.candidates[j].entityId != id
  }

  /** Some candidate of the ambiguous entity wins in the context of `resolved`. */
  ghost predicate Decidable(e: QueryEntity, resolved: seq<string>, graph: Graph) {
    e.status == Ambiguous && exists i: nat :: Wins(e, i, resolved, graph)
  }

  lemma UniqueBestIff(links: map<string, seq<nat>>, id: string)
    ensures UniqueBest(Scores(links), id) <==>
            && id in links && links[id] != []
            && forall x :: x in links && x != id ==> Score(links[x]) < Score(links[id])
  {
    if id in links {
      ScoreAddsUp(links[id], [], 0);
    }
    hide Score;
    assert forall x :: x in links ==> Scores(links)[x] == Score(links[x]);
  }

  lemma BestIffWins(e: QueryEntity, i: nat, resolved: seq<string>, graph: Graph)
    requires i < |e.candidates|
    ensures i == BestCandidate(e.candidates, ScoresFor(e, resolved, graph)) <==> Wins(e, i, resolved, graph)
  {
    var links := graph(CandidateIds(e.candidates), resolved);
    var best := BestCandidate(e.candidates, Scores(links));
    forall k | 0 <= k < |e.candidates|
      ensures UniqueBest(Scores(links), e.candidates[k].entityId) <==>
              && e.candidates[k].entityId in links && links[e.candidates[k].entityId] != []
              && forall x :: x in links && x != e.candidates[k].entityId ==> Score(links[x]) < Score(links[e.candidates[k].entityId])
    {
      UniqueBestIff(links, e.candidates[k].entityId);
    }
    hide BestCandidate, Score, UniqueBest, Scores;
    assert i == best ==> forall j :: 0 <= j < i ==> e.candidates[j].entityId != e.candidates[i].entityId;
    if Wins(e, i, resolved, graph) {
      assert UniqueBest(Scores(links), e.candidates[i].entityId) && best <= i;
      assert e.candidates[best].entityId == e.candidates[i].entityId;
    }
  }

  /** An entity changes exactly if it is ambiguous and a candidate of its own wins; then it becomes that candidate. */
  lemma DecideChangesIff(e: QueryEntity, resolved: seq<string>, graph: Graph)
    ensures Decide(e, resolved, graph) != e <==> Decidable(e, resolved, graph)
    ensures forall i: nat :: e.status == Ambiguous && Wins(e, i, resolved, graph) ==>
              Decide(e, resolved, graph) == e.(status := Resolved, chosen := Some(e.candidates[i]), byContext := true)
  {
    var best := BestCandidate(e.candidates, ScoresFor(e, resolved, graph));
    forall i: nat | i < |e.candidates| ensures i == best <==> Wins(e, i, resolved, graph) {
      BestIffWins(e, i, resolved, graph);
    }
    assert best < |e.candidates| ==> Wins(e, best, resolved, graph);
    hide BestCandidate, ScoresFor;
  }

  /** One round: every ambiguous entity with a winner in the context of the ids resolved before it, and no other, changes. */
  lemma RoundDecides(es: seq<QueryEntity>, graph: Graph, i: nat)
    requires i < |es|
    ensures if Decidable(es[i], ResolvedIds(es), graph)
            then exists k: nat :: Wins(es[i], k, ResolvedIds(es), graph) &&
                   Round(es, graph)[i] == es[i].(status := Resolved, chosen := Some(es[i].candidates[k]), byContext := true)
            else Round(es, graph)[i] == es[i]
  {
    hide Decide, ResolvedIds, Wins;
    DecideChangesIff(es[i], ResolvedIds(es), graph);
  }

  /** Resolved and fuzzy entities never change; an ambiguous one changes at most by settling on a candidate of its own. */
  ghost predicate Evolves(a: QueryEntity, b: QueryEntity) {
    b == a || (a.status == Ambiguous && exists c :: c in a.candidates && b == Settle(a, c))
  }

  lemma RoundEvolves(es: seq<QueryEntity>, graph: Graph, i: nat)
    requires i < |es|
    ensures Evolves(es[i], Round(es, graph)[i])
  {
    var resolved := ResolvedIds(es);
    var k := BestCandidate(es[i].candidates, ScoresFor(es[i], resolved, graph));
    if k < |es[i].candidates| {
      assert es[i].candidates[k] in es[i].candidates;
    }
  }

  /**
    The loop ends in a true fixpoint: if anything is resolved at all, no ambiguous entity has a unique
    positive best candidate with respect to the final set of resolved entities.
  */
  lemma {:induction false} FinalIsFixpoint(es: seq<QueryEntity>, graph: Graph)
    ensures var r := Disambiguated(es, graph);
            && |r| == |es|
            && (ResolvedIds(r) == [] || forall i :: 0 <= i < |r| ==> !Decidable(r[i], ResolvedIds(r), graph))
            && forall i :: 0 <= i < |es| ==> Evolves(es[i], r[i])
    decreases Open(es)
  {
    hide Evolves, Decidable;
    RoundProgress(es, graph);
    var next := Round(es, graph);
    if ResolvedIds(es) == [] || next == es {
      forall i | 0 <= i < |es| ensures ResolvedIds(es) == [] || !Decidable(es[i], ResolvedIds(es), graph) {
        assert next[i] == Decide(es[i], ResolvedIds(es), graph);
        DecideChangesIff(es[i], ResolvedIds(es), graph);
      }
      forall i | 0 <= i < |es| ensures Evolves(es[i], es[i]) {
        EvolvesToItself(es[i]);
      }
    } else {
      FinalIsFixpoint(next, graph);
      forall i | 0 <= i < |es| ensures Evolves(es[i], Disambiguated(es, graph)[i]) {
        RoundEvolves(es, graph, i);
        EvolvesTransitively(es[i], next[i], Disambiguated(next, graph)[i]);
      }
    }
  }

  lemma EvolvesToItself(e: QueryEntity)
    ensures Evolves(e, e)
  {
  }

  lemma EvolvesTransitively(a: QueryEntity, b: QueryEntity, c: QueryEntity)
    requires Evolves(a, b) && Evolves(b, c)
    ensures Evolves(a, c)
  {
  }
}
