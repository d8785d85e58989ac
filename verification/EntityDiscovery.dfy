/**
  Entity discovery over the chunks of one document: adaptive re-splitting of failing chunks and
  merging of the observations by entity type and normalised name.
*/
module EntityDiscovery {
  import opened Wrappers
  import opened Seqs
  import opened Text
  import opened Chunking
  import opened AdaptiveSplit

  datatype Context = Incidental | Quoted | IdentityMetadata | Actor

  function Rank(c: Context): nat {
    match c
    case Incidental => 0
    case Quoted => 1
    case IdentityMetadata => 2
    case Actor => 3
  }

  /** One validated answer of the extractor. */
  datatype Observation = Observation(entityType: string, name: string, kind: string, context: Context,
                                     observed: string, contextText: string, confidence: real)

  datatype Key = Key(entityType: string, normalized: string)

  /** A merged entity. */
  datatype Entity = Entity(entityType: string, name: string, kind: string, context: Context, observed: string,
                           contextText: string, confidence: real, relevantActor: bool, count: nat)

  type Normalizer = string -> string

  function KeyOf(o: Observation, normalize: Normalizer): Key { Key(o.entityType, normalize(o.name)) }

  function NewEntity(o: Observation): Entity {
    Entity(o.entityType, o.name, o.kind, o.context, o.observed, o.contextText, o.confidence, o.context == Actor, 1)
  }

  /** A more confident observation replaces the evidence and the context; then the context may still be raised. */
  function MergeInto(e: Entity, o: Observation): Entity {
    var e1 := e.(count := e.count + 1);
    var e2 := if o.confidence > e1.confidence
              then e1.(confidence := o.confidence, observed := o.observed, contextText := o.contextText,
                       kind := o.kind, context := o.context)
              else e1;
    var e3 := if Rank(o.context) > Rank(e2.context) then e2.(context := o.context) else e2;
    e3.(relevantActor := e3.context == Actor)
  }

  function MergeOne(m: map<Key, Entity>, o: Observation, normalize: Normalizer): map<Key, Entity> {
    var key := KeyOf(o, normalize);
    m[key := if key in m then MergeInto(m[key], o) else NewEntity(o)]
  }

  function MergeAll(m: map<Key, Entity>, obs: seq<Observation>, normalize: Normalizer): map<Key, Entity> {
    if obs == [] then m else MergeOne(MergeAll(m, obs[..|obs| - 1], normalize), obs[|obs| - 1], normalize)
  }

  lemma {:induction false} MergeAllConcat(m: map<Key, Entity>, a: seq<Observation>, b: seq<Observation>, normalize: Normalizer)
    ensures MergeAll(m, a + b, normalize) == MergeAll(MergeAll(m, a, normalize), b, normalize)
  {
    hide MergeOne;
    if b == [] {
      assert a + b == a;
    } else {
      assert (a + b)[..|a + b| - 1] == a + b[..|b| - 1];
      MergeAllConcat(m, a, b[..|b| - 1], normalize);
    }
  }

  // ----- what a merged entity remembers -----

  /** The entity built from a non-empty sequence of observations with one key. */
  function EntityOf(obs: seq<Observation>): Entity
    requires obs != []
  {
    var n := |obs| - 1;
    if n == 0 then NewEntity(obs[0]) else MergeInto(EntityOf(obs[..n]), obs[n])
  }

  /** The map holds, per key, exactly the entity built from the observations with that key. */
  function WithKey(key: Key, normalize: Normalizer): Observation -> bool {
    (o: Observation) => o.entityType == key.entityType && normalize(o.name) == key.normalized
  }

  lemma {:induction false} MergedByKey(obs: seq<Observation>, normalize: Normalizer, key: Key)
    ensures var mine := Keep(obs, WithKey(key, normalize));
            var m := MergeAll(map[], obs, normalize);
            (key in m <==> mine != []) && (key in m ==> m[key] == EntityOf(mine))
  {
    hide MergeInto, NewEntity;
    if obs != [] {
      var n := |obs| - 1;
      var p := WithKey(key, normalize);
      MergedByKey(obs[..n], normalize, key);
      KeepConcat(obs[..n], [obs[n]], p);
      assert obs == obs[..n] + [obs[n]];
      var before, after := Keep(obs[..n], p), Keep(obs, p);
      assert after == before + if p(obs[n]) then [obs[n]] else [];
      hide Keep, EntityOf;
      if p(obs[n]) {
        EntityOfAppend(before, obs[n]);
      } else {
        assert after == before;
      }
    }
  }

  lemma EntityOfAppend(obs: seq<Observation>, o: Observation)
    ensures EntityOf(obs + [o]) == if obs == [] then NewEntity(o) else MergeInto(EntityOf(obs), o)
  {
    hide MergeInto, NewEntity;
    assert (obs + [o])[..|obs|] == obs;
  }

  /** Index of the first observation with the greatest confidence. */
  function FirstMostConfident(obs: seq<Observation>): (f: nat)
    requires obs != []
    ensures f < |obs|
    ensures forall i :: 0 <= i < |obs| ==> obs[i].confidence <= obs[f].confidence
    ensures forall i :: 0 <= i < f ==> obs[i].confidence < obs[f].confidence
  {
    var n := |obs| - 1;
    if n == 0 then 0
    else
      var f := FirstMostConfident(obs[..n]);
      if obs[n].confidence > obs[f].confidence then n else f
  }

  /** `r` is the greatest context rank among the observations from index `f` on. */
  ghost predicate TopRankFrom(obs: seq<Observation>, f: nat, r: nat) {
    && (forall i :: f <= i < |obs| ==> Rank(obs[i].context) <= r)
    && exists i :: f <= i < |obs| && Rank(obs[i].context) == r
  }

  /**
    Closed form of merging: confidence and evidence are those of the first most confident
    observation, every observation is counted, and the context is the highest-ranked one from that
    observation on.
  */
  lemma {:induction false} EntityClosedForm(obs: seq<Observation>)
    requires obs != []
    ensures var e, f := EntityOf(obs), FirstMostConfident(obs);
            && e.confidence == obs[f].confidence && e.observed == obs[f].observed
            && e.contextText == obs[f].contextText && e.kind == obs[f].kind
            && e.count == |obs| && (e.relevantActor <==> e.context == Actor)
            && TopRankFrom(obs, f, Rank(e.context))
            && e.entityType == obs[0].entityType && e.name == obs[0].name
  {
    var n := |obs| - 1;
    if n == 0 {
      assert Rank(obs[0].context) == Rank(EntityOf(obs).context);
    } else {
      hide Rank, TopRankFrom, MergeInto;
      var init := obs[..n];
      EntityClosedForm(init);
      TopRankStep(obs, FirstMostConfident(init), Rank(EntityOf(init).context));
      MergeIs(EntityOf(init), obs[n]);
      assert EntityOf(obs) == MergeInto(EntityOf(init), obs[n]);
    }
  }

  /** One observation more: a more confident one gives evidence and context, any one counts and may raise the context. */
  lemma MergeIs(e: Entity, o: Observation)
    ensures var r, wins := MergeInto(e, o), o.confidence > e.confidence;
            && r.count == e.count + 1 && r.entityType == e.entityType && r.name == e.name
            && (r.relevantActor <==> r.context == Actor)
            && (wins ==> r.confidence == o.confidence && r.observed == o.observed && r.contextText == o.contextText && r.kind == o.kind)
            && (!wins ==> r.confidence == e.confidence && r.observed == e.observed && r.contextText == e.contextText && r.kind == e.kind)
            && Rank(r.context) == if wins then Rank(o.context) else Max(Rank(e.context), Rank(o.context))
  {
  }

  lemma TopRankStep(obs: seq<Observation>, f: nat, r: nat)
    requires |obs| > 1 && f < |obs| - 1 && TopRankFrom(obs[..|obs| - 1], f, r)
    ensures TopRankFrom(obs, f, Max(r, Rank(obs[|obs| - 1].context)))
    ensures TopRankFrom(obs, |obs| - 1, Rank(obs[|obs| - 1].context))
  {
    var n := |obs| - 1;
    var i :| f <= i < n && Rank(obs[..n][i].context) == r;
    assert forall k :: 0 <= k < n ==> obs[..n][k] == obs[k];
    if r >= Rank(obs[n].context) {
      assert Rank(obs[i].context) == r;
    } else {
      assert Rank(obs[n].context) == Max(r, Rank(obs[n].context));
    }
  }

  /**
    The merged context is not always the strongest one seen: it is exactly when no observation before
    the first most confident one outranks all from that one on.
  */
  lemma ContextIsStrongestIff(obs: seq<Observation>)
    requires obs != []
    ensures (forall i :: 0 <= i < |obs| ==> Rank(obs[i].context) <= Rank(EntityOf(obs).context)) <==>
            (forall i :: 0 <= i < FirstMostConfident(obs) ==>
               exists k :: FirstMostConfident(obs) <= k < |obs| && Rank(obs[i].context) <= Rank(obs[k].context))
  {
    EntityClosedForm(obs);
    var f, r := FirstMostConfident(obs), Rank(EntityOf(obs).context);
    hide EntityOf, FirstMostConfident, Rank;
    var top :| f <= top < |obs| && Rank(obs[top].context) == r;
  }

  /** An actor outranks identity metadata, which outranks a quoted mention, which outranks an incidental one. */
  lemma RankOrders(a: Context, b: Context)
    ensures Rank(a) < Rank(b) <==> a != b && (a == Incidental || b == Actor || (a == Quoted && b == IdentityMetadata))
    ensures Rank(a) == Rank(b) <==> a == b
  {
  }

  /** A more confident incidental mention lowers an actor. */
  lemma ContextCanDrop()
    ensures var obs := [Observation("Person", "n", "Person", Actor, "o", "c", 0.5),
                        Observation("Person", "n", "Person", Incidental, "o", "c", 0.9)];
            EntityOf(obs).context == Incidental && !EntityOf(obs).relevantActor
  {
    var obs := [Observation("Person", "n", "Person", Actor, "o", "c", 0.5),
                Observation("Person", "n", "Person", Incidental, "o", "c", 0.9)];
    assert obs[..1] == [obs[0]];
    assert EntityOf([obs[0]]) == NewEntity(obs[0]);
  }

  // ----- the stateful discovery -----

  datatype DiscoveryError = AllRootsFailed

  datatype Discovered = Discovered(entities: map<Key, Entity>, errors: seq<Label>)

  datatype Config = Config(enabled: bool, chunkChars: int, overlapChars: int, maxChunks: int, limits: Limits,
                           normalize: Normalizer)

  function RootWindows(cfg: Config, text: string): seq<Window> {
    Roots(text, cfg.chunkChars, cfg.overlapChars, cfg.maxChunks)
  }

  /** The state shared by the nested procedures of one discovery. */
  class Discovery {
    const cfg: Config
    const extractor: Extractor<Observation>
    var merged: map<Key, Entity>
    var errors: seq<Label>

    constructor (cfg: Config, extractor: Extractor<Observation>)
      ensures this.cfg == cfg && this.extractor == extractor && merged == map[] && errors == []
    {
      this.cfg, this.extractor, merged, errors := cfg, extractor, map[], [];
    }

    method MergeObservations(obs: seq<Observation>)
      modifies this`merged
      ensures merged == MergeAll(old(merged), obs, cfg.normalize)
    {
      var i := 0;
      while i < |obs|
        invariant 0 <= i <= |obs| && merged == MergeAll(old(merged), obs[..i], cfg.normalize)
      {
        assert obs[..i + 1][..i] == obs[..i];
        merged := MergeOne(merged, obs[i], cfg.normalize);
        i := i + 1;
      }
      assert obs[..i] == obs;
    }

    method ProcessChunk(chunk: string, ghost start: nat, depth: nat, path: Label) returns (ok: bool)
      modifies this`merged, this`errors
      ensures var leaves := Leaves(cfg.limits, extractor, chunk, start, depth, path);
              && ok == AnySuccess(leaves)
              && merged == MergeAll(old(merged), Found(leaves), cfg.normalize)
              && errors == old(errors) + Failures(leaves)
      decreases Height(cfg.limits, depth), 1
    {
      hide Parts, MergeAll;
      match extractor(chunk, path) {
        case Extracted(found) =>
          MergeObservations(found);
          SingleLeaf(Leaf(start, chunk, path, extractor(chunk, path)));
          return true;
        case Malformed =>
          if depth < cfg.limits.maxDepth && |chunk| > cfg.limits.minChars {
            var parts := Parts(cfg.limits, chunk);
            if |parts| >= 2 {
              ok := ProcessParts(chunk, start, depth, path);
              return;
            }
          }
        case Broken =>
      }
      SingleLeaf(Leaf(start, chunk, path, extractor(chunk, path)));
      NoObservations(merged, cfg.normalize);
      errors := errors + [path];
      ok := false;
    }

    method ProcessParts(chunk: string, ghost start: nat, depth: nat, path: Label) returns (anySuccess: bool)
      requires depth < cfg.limits.maxDepth
      modifies this`merged, this`errors
      ensures var leaves := PartLeaves(cfg.limits, extractor, chunk, start, 0, depth, path);
              && anySuccess == AnySuccess(leaves)
              && merged == MergeAll(old(merged), Found(leaves), cfg.normalize)
              && errors == old(errors) + Failures(leaves)
      decreases Height(cfg.limits, depth), 0
    {
      hide Parts, Leaves, MergeAll, AnySuccess, Found, Failures, Slice;
      var parts := Parts(cfg.limits, chunk);
      ghost var all := PartLeaves(cfg.limits, extractor, chunk, start, 0, depth, path);
      anySuccess := false;
      NoLeaves<Observation>();
      var k := 0;
      while k < |parts|
        invariant 0 <= k <= |parts|
        invariant var rest := PartLeaves(cfg.limits, extractor, chunk, start, k, depth, path);
                  && (anySuccess || AnySuccess(rest) <==> AnySuccess(all))
                  && MergeAll(merged, Found(rest), cfg.normalize) == MergeAll(old(merged), Found(all), cfg.normalize)
                  && errors + Failures(rest) == old(errors) + Failures(all)
      {
        ghost var before := merged;
        ghost var first := Leaves(cfg.limits, extractor, Slice(chunk, parts[k]), start + parts[k].start, depth + 1, path + [k + 1]);
        ghost var rest := PartLeaves(cfg.limits, extractor, chunk, start, k + 1, depth, path);
        LeavesConcat(first, rest);
        MergeAllConcat(before, Found(first), Found(rest), cfg.normalize);
        var ok := ProcessChunk(Slice(chunk, parts[k]), start + parts[k].start, depth + 1, path + [k + 1]);
        anySuccess := ok || anySuccess;
        k := k + 1;
      }
      NoObservations(merged, cfg.normalize);
    }

    /**
      The whole discovery.  It raises exactly when there was at least one root chunk and no attempt
      below any root succeeded; otherwise it returns everything found and every failed attempt.
    */
    method Discover(text: string) returns (r: Result<Discovered, DiscoveryError>)
      requires merged == map[] && errors == []
      modifies this`merged, this`errors
      ensures !cfg.enabled || Strip(text) == "" ==> r == Ok(Discovered(map[], []))
      ensures cfg.enabled && Strip(text) != "" ==>
                var ws := RootWindows(cfg, text);
                var leaves := RootLeaves(cfg.limits, extractor, text, ws, 0);
                && (r.Err? <==> ws != [] && !AnySuccess(leaves))
                && (r.Ok? ==> r.value == Discovered(MergeAll(map[], Found(leaves), cfg.normalize), Failures(leaves)))
    {
      hide Leaves, MergeAll, AnySuccess, Found, Failures, Slice, RootWindows, Strip;
      if !cfg.enabled || Strip(text) == "" {
        return Ok(Discovered(map[], []));
      }
      var ws := RootWindows(cfg, text);
      ghost var all := RootLeaves(cfg.limits, extractor, text, ws, 0);
      var successfulRoots := 0;
      NoLeaves<Observation>();
      var k := 0;
      while k < |ws|
        invariant 0 <= k <= |ws|
        invariant var rest := RootLeaves(cfg.limits, extractor, text, ws, k);
                  && (successfulRoots > 0 || AnySuccess(rest) <==> AnySuccess(all))
                  && MergeAll(merged, Found(rest), cfg.normalize) == MergeAll(map[], Found(all), cfg.normalize)
                  && errors + Failures(rest) == Failures(all)
        invariant successfulRoots >= 0
      {
        ghost var before := merged;
        ghost var first := Leaves(cfg.limits, extractor, Slice(text, ws[k]), ws[k].start, 0, [k + 1]);
        ghost var rest := RootLeaves(cfg.limits, extractor, text, ws, k + 1);
        LeavesConcat(first, rest);
        MergeAllConcat(before, Found(first), Found(rest), cfg.normalize);
        var ok := ProcessChunk(Slice(text, ws[k]), ws[k].start, 0, [k + 1]);
        if ok {
          successfulRoots := successfulRoots + 1;
        }
        k := k + 1;
      }
      NoObservations(merged, cfg.normalize);
      if ws != [] && successfulRoots == 0 {
        return Err(AllRootsFailed);
      }
      r := Ok(Discovered(merged, errors));
    }
  }

  lemma SingleLeaf<T>(leaf: Leaf<T>)
    ensures AnySuccess([leaf]) <==> leaf.outcome.Extracted?
    ensures Found([leaf]) == if leaf.outcome.Extracted? then leaf.outcome.found else []
    ensures Failures([leaf]) == if leaf.outcome.Extracted? then [] else [leaf.path]
  {
    assert [leaf][0] == leaf && [leaf][1..] == [];
  }

  lemma NoLeaves<T>()
    ensures !AnySuccess<T>([]) && Found<T>([]) == [] && Failures<T>([]) == []
  {
  }

  lemma NoObservations(m: map<Key, Entity>, normalize: Normalizer)
    ensures MergeAll(m, [], normalize) == m
  {
  }

  /**
    Whatever the extractor does, no text disappears: a non-whitespace position of a root chunk lies in
    a piece of the document that was extracted or whose label is among the returned errors.
  */
  lemma DiscoveryLosesNothing(cfg: Config, extractor: Extractor<Observation>, text: string, k: nat, p: nat)
    returns (leaf: Leaf<Observation>)
    requires k < |RootWindows(cfg, text)| && p < |text| && !Whitespace(text[p])
    requires RootWindows(cfg, text)[k].start <= p < RootWindows(cfg, text)[k].end
    ensures var leaves := RootLeaves(cfg.limits, extractor, text, RootWindows(cfg, text), 0);
            && leaf in leaves && Covers(leaf, p) && PieceOf(leaf, text, 0)
            && (leaf.outcome.Extracted? || leaf.path in Failures(leaves))
  {
    hide ChunkWindows, Leaves;
    var ws := RootWindows(cfg, text);
    ChunksFit(text, cfg.chunkChars, cfg.overlapChars);
    var w := ws[k];
    assert w in ChunkWindows(text, cfg.chunkChars, cfg.overlapChars);
    assert forall i :: 0 <= i < |ws| ==> ws[i] in ChunkWindows(text, cfg.chunkChars, cfg.overlapChars);
    RootLeavesArePieces(cfg.limits, extractor, text, ws, 0);
    leaf := NothingIsLost(cfg.limits, extractor, Slice(text, w), w.start, 0, [k + 1], p - w.start);
    RootLeavesContain(cfg.limits, extractor, text, ws, 0, k, leaf);
    FailureRecorded(RootLeaves(cfg.limits, extractor, text, ws, 0), leaf);
  }

  lemma {:induction false} RootLeavesContain<T>(l: Limits, ex: Extractor<T>, text: string, ws: seq<Window>, j: nat, k: nat, leaf: Leaf<T>)
    requires j <= k < |ws| && leaf in Leaves(l, ex, Slice(text, ws[k]), ws[k].start, 0, [k + 1])
    ensures leaf in RootLeaves(l, ex, text, ws, j)
    decreases k - j
  {
    hide Leaves, Slice;
    if j < k {
      RootLeavesContain(l, ex, text, ws, j + 1, k, leaf);
    }
  }
}
