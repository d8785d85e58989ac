/**
  Exact entity mentions in a chunk, and the entities a relation of that chunk may connect.

  The hits of the known name forms are given; selection is greedy.  Mentions with the same
  normalised spelling are merged, and an entity is allowed when a merged mention has it as its only
  candidate.
*/
module Mentions {
  import opened Wrappers
  import opened Seqs
  import opened Spans
  import opened Sorting

  datatype Candidate = Candidate(entityId: string, entityType: string, entityKind: string, displayName: string, score: real)

  /** The known form that matched, the text found and the entities the form belongs to. */
  datatype FormMatch = FormMatch(known: string, observed: string, candidates: seq<Candidate>)

  type FormHit = Hit<FormMatch>

  type Normalizer = string -> string

  /** The best-scoring candidate of each entity. */
  function Best(cs: seq<Candidate>): (m: map<string, Candidate>)
    ensures forall id :: id in m ==> m[id] in cs && m[id].entityId == id
    ensures forall c :: c in cs ==> c.entityId in m && c.score <= m[c.entityId].score
  {
    if cs == [] then map[]
    else
      var n := |cs| - 1;
      var m := Best(cs[..n]);
      assert cs == cs[..n] + [cs[n]];
      if cs[n].entityId !in m || cs[n].score > m[cs[n].entityId].score then m[cs[n].entityId := cs[n]] else m
  }

  function MergeBest(a: map<string, Candidate>, b: map<string, Candidate>): map<string, Candidate> {
    map id | id in a.Keys + b.Keys :: if id in a && !(id in b && b[id].score > a[id].score) then a[id] else b[id]
  }

  /** `exact` distinguishes mentions first seen with one candidate from ambiguous ones. */
  datatype Mention = Mention(observed: string, normalized: string, exact: bool, count: nat, candidates: map<string, Candidate>)

  function FindMention(ms: seq<Mention>, spelling: string, exact: bool, normalize: Normalizer): (i: nat)
    ensures i <= |ms|
    ensures i < |ms| ==> normalize(ms[i].observed) == spelling && ms[i].exact == exact
  {
    if ms == [] || (normalize(ms[0].observed) == spelling && ms[0].exact == exact) then 0
    else 1 + FindMention(ms[1..], spelling, exact, normalize)
  }

  function AddMention(ms: seq<Mention>, h: FormHit, normalize: Normalizer): seq<Mention> {
    var candidates := Best(h.data.candidates);
    var exact := |candidates| == 1;
    var i := FindMention(ms, normalize(h.data.observed), exact, normalize);
    if i < |ms| then ms[i := ms[i].(count := ms[i].count + 1, candidates := MergeBest(ms[i].candidates, candidates))]
    else ms + [NewMention(h, normalize)]
  }

  function NewMention(h: FormHit, normalize: Normalizer): Mention {
    var spelling, candidates := normalize(h.data.observed), Best(h.data.candidates);
    Mention(h.data.observed, if spelling != "" then spelling else h.data.known, |candidates| == 1, 1, candidates)
  }

  function MentionsOf(hits: seq<FormHit>, normalize: Normalizer): seq<Mention> {
    if hits == [] then [] else AddMention(MentionsOf(hits[..|hits| - 1], normalize), hits[|hits| - 1], normalize)
  }

  // ----- the order of the answer -----

  /** Comparison of strings character by character. */
  predicate AtMost(a: string, b: string) {
    a == "" || (b != "" && (a[0] < b[0] || (a[0] == b[0] && AtMost(a[1..], b[1..]))))
  }

  lemma {:induction false} AtMostTotal(a: string, b: string)
    ensures AtMost(a, b) || AtMost(b, a)
  {
    if a != "" && b != "" && a[0] == b[0] {
      AtMostTotal(a[1..], b[1..]);
    }
  }

  lemma {:induction false} AtMostTransitive(a: string, b: string, c: string)
    requires AtMost(a, b) && AtMost(b, c)
    ensures AtMost(a, c)
  {
    if a != "" && a[0] == b[0] && b[0] == c[0] {
      AtMostTransitive(a[1..], b[1..], c[1..]);
    }
  }

  lemma {:induction false} AtMostEqual(a: string, b: string)
    requires AtMost(a, b) && AtMost(b, a)
    ensures a == b
  {
    if a != "" {
      AtMostEqual(a[1..], b[1..]);
      assert a == [a[0]] + a[1..] && b == [b[0]] + b[1..];
    }
  }

  function StatusName(m: Mention): string { if m.exact then "resolved_exact" else "ambiguous_exact" }

  /** By status, then by normalised spelling. */
  predicate ComesBefore(a: Mention, b: Mention) {
    if a.exact == b.exact then AtMost(a.normalized, b.normalized) else AtMost(StatusName(a), StatusName(b))
  }

  lemma ComesBeforeIsPreorder()
    ensures TotalPreorder(ComesBefore)
  {
    hide AtMost;
    assert !AtMost("resolved_exact", "ambiguous_exact") && AtMost("ambiguous_exact", "resolved_exact") by { StatusOrder(); }
    forall a, b ensures ComesBefore(a, b) || ComesBefore(b, a) {
      AtMostTotal(a.normalized, b.normalized);
    }
    forall a, b, c | ComesBefore(a, b) && ComesBefore(b, c) ensures ComesBefore(a, c) {
      if a.exact == b.exact == c.exact {
        AtMostTransitive(a.normalized, b.normalized, c.normalized);
      }
    }
  }

  lemma StatusOrder()
    ensures !AtMost("resolved_exact", "ambiguous_exact") && AtMost("ambiguous_exact", "resolved_exact")
  {
  }

  /** The mentions of a chunk in the order they are returned. */
  function Detected(hits: seq<FormHit>, normalize: Normalizer): seq<Mention> {
    Sort(MentionsOf(Selected(hits, []), normalize), ComesBefore)
  }

  method DetectMentions(hits: seq<FormHit>, normalize: Normalizer) returns (ms: seq<Mention>)
    ensures ms == Detected(hits, normalize)
  {
    hide AddMention, Sort;
    var accepted := SelectSpans(hits, []);
    ms := [];
    var i := 0;
    while i < |accepted|
      invariant 0 <= i <= |accepted| && ms == MentionsOf(accepted[..i], normalize)
    {
      assert accepted[..i + 1][..i] == accepted[..i];
      ms := AddMention(ms, accepted[i], normalize);
      i := i + 1;
    }
    assert accepted[..i] == accepted;
    ms := Sort(ms, ComesBefore);
  }

  /** The answer is ordered and is a rearrangement of the mentions collected. */
  lemma DetectedIsOrdered(hits: seq<FormHit>, normalize: Normalizer)
    ensures var found := MentionsOf(Selected(hits, []), normalize);
            && Sorted(Detected(hits, normalize), ComesBefore)
            && multiset(Detected(hits, normalize)) == multiset(found)
            && forall m :: m in Detected(hits, normalize) <==> m in found
  {
    ComesBeforeIsPreorder();
    hide ComesBefore, MentionsOf, Selected;
    SortSorts(MentionsOf(Selected(hits, []), normalize), ComesBefore);
    SortMembers(MentionsOf(Selected(hits, []), normalize), ComesBefore);
  }

  /** What may be related: the candidate record of an entity and the spellings that resolved to it. */
  datatype Entry = Entry(candidate: Candidate, forms: set<string>)

  type Allowed = map<string, Entry>

  function TheCandidate(m: Mention): (c: Candidate)
    requires |m.candidates| == 1
    ensures exists id :: id in m.candidates && m.candidates[id] == c
  {
    SingletonKey(m.candidates);
    var id :| id in m.candidates;
    m.candidates[id]
  }

  lemma SingletonKey(m: map<string, Candidate>)
    requires |m| == 1
    ensures exists id :: id in m
    ensures forall a, b :: a in m && b in m ==> a == b
  {
    assert |m.Keys| == 1;
    var id :| id in m.Keys;
    assert |m.Keys - {id}| == 0;
    assert forall a :: a in m.Keys ==> a == id || a in m.Keys - {id};
  }

  function Allow(allowed: Allowed, m: Mention, normalize: Normalizer): Allowed {
    if !m.exact || |m.candidates| != 1 then allowed
    else
      var c := TheCandidate(m);
      var form := normalize(m.observed);
      var entry := if c.entityId in allowed then allowed[c.entityId] else Entry(c, {});
      allowed[c.entityId := entry.(forms := if form != "" then entry.forms + {form} else entry.forms)]
  }

  function AllowedOf(ms: seq<Mention>, normalize: Normalizer): Allowed {
    if ms == [] then map[] else Allow(AllowedOf(ms[..|ms| - 1], normalize), ms[|ms| - 1], normalize)
  }

  // ----- what being allowed means -----

  predicate SingleCandidate(h: FormHit) { |Best(h.data.candidates)| == 1 }

  /** Hit `h` names entity `id` and no other. */
  predicate NamesOnly(h: FormHit, id: string) {
    Best(h.data.candidates).Keys == {id}
  }

  /**
    The entity was exactly resolved: an accepted hit with this spelling names it and no other entity, and
    every accepted hit with this spelling that names a single entity names this one.
  */
  ghost predicate ExactlyResolved(hits: seq<FormHit>, id: string, form: string, normalize: Normalizer) {
    && (exists i :: 0 <= i < |hits| && NamesOnly(hits[i], id) && normalize(hits[i].data.observed) == form)
    && forall i :: 0 <= i < |hits| && SingleCandidate(hits[i]) && normalize(hits[i].data.observed) == form ==>
                     NamesOnly(hits[i], id)
  }

  /** The hit was collected into this mention. */
  predicate Supports(h: FormHit, m: Mention, normalize: Normalizer) {
    && normalize(h.data.observed) == normalize(m.observed) && SingleCandidate(h) && m.exact
    && Best(h.data.candidates).Keys <= m.candidates.Keys
  }

  ghost predicate Supported(hits: seq<FormHit>, m: Mention, normalize: Normalizer) {
    && (m.exact ==> exists i :: 0 <= i < |hits| && Supports(hits[i], m, normalize))
    && forall id :: id in m.candidates ==> m.candidates[id].entityId == id
  }

  predicate SameKey(a: Mention, b: Mention, normalize: Normalizer) {
    normalize(a.observed) == normalize(b.observed) && a.exact == b.exact
  }

  ghost predicate Collected(h: FormHit, ms: seq<Mention>, normalize: Normalizer) {
    exists k :: 0 <= k < |ms| && Supports(h, ms[k], normalize)
  }

  /** The mentions account for the hits: each rests on one, each single-candidate hit is in one, no two share a key. */
  ghost predicate Accounts(hits: seq<FormHit>, ms: seq<Mention>, normalize: Normalizer) {
    AllSupported(hits, ms, normalize) && AllCollected(hits, ms, normalize) && KeysDiffer(ms, normalize)
  }

  lemma {:induction false} FirstOfKey(ms: seq<Mention>, spelling: string, exact: bool, normalize: Normalizer)
    ensures forall k :: 0 <= k < FindMention(ms, spelling, exact, normalize) ==>
              !(normalize(ms[k].observed) == spelling && ms[k].exact == exact)
  {
    if ms != [] {
      FirstOfKey(ms[1..], spelling, exact, normalize);
    }
  }

  /** `r` is `ms` with the entry at `p` grown by hit `h`, or with a new entry at the end. */
  ghost predicate Grown(ms: seq<Mention>, h: FormHit, r: seq<Mention>, p: nat, normalize: Normalizer) {
    && p <= |ms| && |r| == (if p < |ms| then |ms| else |ms| + 1)
    && (forall k :: 0 <= k < |ms| && k != p ==> r[k] == ms[k])
    && (p < |ms| ==> SameKey(r[p], ms[p], normalize) && ms[p].candidates.Keys <= r[p].candidates.Keys)
    && (p == |ms| ==> forall k :: 0 <= k < |ms| ==> !SameKey(ms[k], r[p], normalize))
  }

  /** One more hit grows one entry or adds one, and that entry has collected it. */
  lemma AddGrows(ms: seq<Mention>, h: FormHit, normalize: Normalizer) returns (p: nat)
    ensures var r := AddMention(ms, h, normalize);
            && Grown(ms, h, r, p, normalize)
            && (SingleCandidate(h) ==> Supports(h, r[p], normalize)) && r[p].exact == SingleCandidate(h)
            && forall id :: id in r[p].candidates ==>
                 || (p < |ms| && id in ms[p].candidates && r[p].candidates[id] == ms[p].candidates[id])
                 || (id in Best(h.data.candidates) && r[p].candidates[id] == Best(h.data.candidates)[id])
  {
    hide Best;
    p := FindMention(ms, normalize(h.data.observed), SingleCandidate(h), normalize);
    FirstOfKey(ms, normalize(h.data.observed), SingleCandidate(h), normalize);
    hide FindMention;
  }

  ghost predicate AllSupported(hits: seq<FormHit>, ms: seq<Mention>, normalize: Normalizer) {
    forall k :: 0 <= k < |ms| ==> Supported(hits, ms[k], normalize)
  }

  ghost predicate AllCollected(hits: seq<FormHit>, ms: seq<Mention>, normalize: Normalizer) {
    forall i :: 0 <= i < |hits| && SingleCandidate(hits[i]) ==> Collected(hits[i], ms, normalize)
  }

  ghost predicate KeysDiffer(ms: seq<Mention>, normalize: Normalizer) {
    forall a, b :: 0 <= a < b < |ms| ==> !SameKey(ms[a], ms[b], normalize)
  }

  lemma {:induction false} MentionsAccount(hits: seq<FormHit>, normalize: Normalizer)
    ensures Accounts(hits, MentionsOf(hits, normalize), normalize)
  {
    if hits != [] {
      var n := |hits| - 1;
      MentionsAccount(hits[..n], normalize);
      OneMoreAccounted(hits, MentionsOf(hits[..n], normalize), normalize);
    }
  }

  lemma OneMoreAccounted(hits: seq<FormHit>, ms: seq<Mention>, normalize: Normalizer)
    requires hits != [] && Accounts(hits[..|hits| - 1], ms, normalize)
    ensures Accounts(hits, AddMention(ms, hits[|hits| - 1], normalize), normalize)
  {
    var n := |hits| - 1;
    var h, r := hits[n], AddMention(ms, hits[n], normalize);
    var p := AddGrows(ms, h, normalize);
    CandidateIds(h);
    hide AddMention, Best, SingleCandidate, AllSupported, AllCollected, KeysDiffer;
    assert r[p].exact ==> Supports(hits[n], r[p], normalize);
    EntrySupported(hits, ms, p, r[p], normalize);
    assert AllSupported(hits, r, normalize) by { StillSupported(hits, ms, r, p, normalize); }
    assert AllCollected(hits, r, normalize) by { StillAllCollected(hits, ms, r, p, normalize); }
    assert KeysDiffer(r, normalize) by { StillDiffer(hits[n], ms, r, p, normalize); }
  }

  lemma CandidateIds(h: FormHit)
    ensures forall id :: id in Best(h.data.candidates) ==> Best(h.data.candidates)[id].entityId == id
  {
  }

  lemma EntrySupported(hits: seq<FormHit>, ms: seq<Mention>, p: nat, m: Mention, normalize: Normalizer)
    requires hits != [] && AllSupported(hits[..|hits| - 1], ms, normalize)
    requires m.exact ==> Supports(hits[|hits| - 1], m, normalize)
    requires var best := Best(hits[|hits| - 1].data.candidates);
             forall id :: id in m.candidates ==>
               || (p < |ms| && id in ms[p].candidates && m.candidates[id] == ms[p].candidates[id])
               || (id in best && m.candidates[id] == best[id])
    ensures Supported(hits, m, normalize)
  {
    CandidateIds(hits[|hits| - 1]);
    hide Best, Supports;
    assert p < |ms| ==> Supported(hits[..|hits| - 1], ms[p], normalize);
  }

  lemma StillSupported(hits: seq<FormHit>, ms: seq<Mention>, r: seq<Mention>, p: nat, normalize: Normalizer)
    requires hits != [] && AllSupported(hits[..|hits| - 1], ms, normalize)
    requires Grown(ms, hits[|hits| - 1], r, p, normalize) && Supported(hits, r[p], normalize)
    ensures AllSupported(hits, r, normalize)
  {
    hide Supported, SameKey;
    forall k | 0 <= k < |r| ensures Supported(hits, r[k], normalize) {
      if k != p {
        SupportMonotone(hits, ms[k], normalize);
      }
    }
  }

  lemma StillAllCollected(hits: seq<FormHit>, ms: seq<Mention>, r: seq<Mention>, p: nat, normalize: Normalizer)
    requires hits != [] && AllCollected(hits[..|hits| - 1], ms, normalize)
    requires Grown(ms, hits[|hits| - 1], r, p, normalize)
    requires SingleCandidate(hits[|hits| - 1]) ==> Supports(hits[|hits| - 1], r[p], normalize)
    ensures AllCollected(hits, r, normalize)
  {
    hide SingleCandidate, Supports, SameKey;
    var n := |hits| - 1;
    forall i | 0 <= i < |hits| && SingleCandidate(hits[i]) ensures Collected(hits[i], r, normalize) {
      if i < n {
        assert hits[..n][i] == hits[i];
        StillCollected(hits[i], ms, r, p, normalize);
      }
    }
  }

  lemma StillDiffer(h: FormHit, ms: seq<Mention>, r: seq<Mention>, p: nat, normalize: Normalizer)
    requires KeysDiffer(ms, normalize) && Grown(ms, h, r, p, normalize)
    ensures KeysDiffer(r, normalize)
  {
  }

  lemma StillCollected(h: FormHit, ms: seq<Mention>, r: seq<Mention>, p: nat, normalize: Normalizer)
    requires Collected(h, ms, normalize) && |ms| <= |r|
    requires forall k :: 0 <= k < |ms| && k != p ==> r[k] == ms[k]
    requires p < |ms| ==> SameKey(r[p], ms[p], normalize) && ms[p].candidates.Keys <= r[p].candidates.Keys
    ensures Collected(h, r, normalize)
  {
    hide Best, SingleCandidate;
    var k :| 0 <= k < |ms| && Supports(h, ms[k], normalize);
    assert Supports(h, r[k], normalize);
  }

  lemma SupportMonotone(hits: seq<FormHit>, m: Mention, normalize: Normalizer)
    requires hits != [] && Supported(hits[..|hits| - 1], m, normalize)
    ensures Supported(hits, m, normalize)
  {
    hide Supports;
    if m.exact {
      var i :| 0 <= i < |hits| - 1 && Supports(hits[..|hits| - 1][i], m, normalize);
      assert Supports(hits[i], m, normalize);
    }
  }

  ghost predicate Resolves(hits: seq<FormHit>, m: Mention, normalize: Normalizer) {
    m.exact && |m.candidates| == 1 ==>
      && TheCandidate(m).entityId in m.candidates
      && ExactlyResolved(hits, TheCandidate(m).entityId, normalize(m.observed), normalize)
  }

  lemma SupporterNames(h: FormHit, m: Mention, id: string, normalize: Normalizer)
    requires Supports(h, m, normalize) && |m.candidates| == 1 && id in m.candidates
    ensures NamesOnly(h, id)
  {
    hide Best;
    SingletonKey(m.candidates);
    SingletonKey(Best(h.data.candidates));
  }

  /** A single-candidate hit is collected in the mention with its spelling. */
  lemma CollectedThere(hits: seq<FormHit>, ms: seq<Mention>, k: nat, i: nat, normalize: Normalizer)
    requires AllCollected(hits, ms, normalize) && KeysDiffer(ms, normalize)
    requires k < |ms| && ms[k].exact && i < |hits| && SingleCandidate(hits[i])
    requires normalize(hits[i].data.observed) == normalize(ms[k].observed)
    ensures Supports(hits[i], ms[k], normalize)
  {
    hide Best, SingleCandidate;
    assert Collected(hits[i], ms, normalize);
    var j :| 0 <= j < |ms| && Supports(hits[i], ms[j], normalize);
    assert SameKey(ms[j], ms[k], normalize) && SameKey(ms[k], ms[j], normalize);
  }

  lemma CandidateInPlace(hits: seq<FormHit>, m: Mention, normalize: Normalizer)
    requires Supported(hits, m, normalize) && |m.candidates| == 1
    ensures TheCandidate(m).entityId in m.candidates
  {
    hide Supports;
  }

  lemma AllNameIt(hits: seq<FormHit>, ms: seq<Mention>, k: nat, id: string, normalize: Normalizer)
    requires AllCollected(hits, ms, normalize) && KeysDiffer(ms, normalize)
    requires k < |ms| && ms[k].exact && |ms[k].candidates| == 1 && id in ms[k].candidates
    ensures forall i :: 0 <= i < |hits| && SingleCandidate(hits[i]) && normalize(hits[i].data.observed) == normalize(ms[k].observed) ==>
                          NamesOnly(hits[i], id)
  {
    hide AllCollected, KeysDiffer, Best, SingleCandidate, NamesOnly, Supports;
    forall i | 0 <= i < |hits| && SingleCandidate(hits[i]) && normalize(hits[i].data.observed) == normalize(ms[k].observed)
      ensures NamesOnly(hits[i], id)
    {
      CollectedThere(hits, ms, k, i, normalize);
      SupporterNames(hits[i], ms[k], id, normalize);
    }
  }

  lemma OneNamesIt(hits: seq<FormHit>, m: Mention, id: string, normalize: Normalizer)
    requires Supported(hits, m, normalize) && m.exact && |m.candidates| == 1 && id in m.candidates
    ensures exists i :: 0 <= i < |hits| && NamesOnly(hits[i], id) && normalize(hits[i].data.observed) == normalize(m.observed)
  {
    hide Best, NamesOnly;
    var i :| 0 <= i < |hits| && Supports(hits[i], m, normalize);
    SupporterNames(hits[i], m, id, normalize);
  }

  /** Every mention with one candidate resolves it, among the hits accepted. */
  lemma MentionResolves(hits: seq<FormHit>, ms: seq<Mention>, k: nat, normalize: Normalizer)
    requires Accounts(hits, ms, normalize) && k < |ms|
    ensures Resolves(hits, ms[k], normalize)
  {
    hide Supported, AllCollected, KeysDiffer, NamesOnly, TheCandidate, SingleCandidate;
    var m := ms[k];
    if m.exact && |m.candidates| == 1 {
      assert Supported(hits, m, normalize);
      hide AllSupported;
      CandidateInPlace(hits, m, normalize);
      AllNameIt(hits, ms, k, TheCandidate(m).entityId, normalize);
      OneNamesIt(hits, m, TheCandidate(m).entityId, normalize);
    }
  }

  /** The mentions detected in a chunk: each one with a single candidate resolves it exactly. */
  lemma DetectedResolve(hits: seq<FormHit>, normalize: Normalizer)
    ensures forall m :: m in Detected(hits, normalize) ==> Resolves(Selected(hits, []), m, normalize)
  {
    var accepted := Selected(hits, []);
    DetectedIsOrdered(hits, normalize);
    MentionsAccount(accepted, normalize);
    hide Detected, MentionsOf, Selected, Accounts, Resolves;
    var found := MentionsOf(accepted, normalize);
    forall m | m in found ensures Resolves(accepted, m, normalize) {
      var k :| 0 <= k < |found| && found[k] == m;
      MentionResolves(accepted, found, k, normalize);
    }
  }

  /** Every form of an allowed entity is a spelling that was exactly resolved to it. */
  lemma {:induction false} AllowedAreResolved(ms: seq<Mention>, hits: seq<FormHit>, normalize: Normalizer)
    requires forall m :: m in ms ==> Resolves(hits, m, normalize)
    ensures forall id :: id in AllowedOf(ms, normalize) ==>
              && AllowedOf(ms, normalize)[id].candidate.entityId == id
              && forall f :: f in AllowedOf(ms, normalize)[id].forms ==> f != "" && ExactlyResolved(hits, id, f, normalize)
  {
    if ms != [] {
      hide ExactlyResolved;
      AllowedAreResolved(ms[..|ms| - 1], hits, normalize);
      assert ms[|ms| - 1] in ms;
    }
  }

  /** An allowed entity keeps the candidate record of the first mention, in the order returned, that resolves to it. */
  lemma {:induction false} FirstRecordIsKept(ms: seq<Mention>, k: nat, normalize: Normalizer)
    requires k < |ms| && ms[k].exact && |ms[k].candidates| == 1
    requires forall j :: 0 <= j < k && ms[j].exact && |ms[j].candidates| == 1 ==>
                           TheCandidate(ms[j]).entityId != TheCandidate(ms[k]).entityId
    ensures var id := TheCandidate(ms[k]).entityId;
            id in AllowedOf(ms, normalize) && AllowedOf(ms, normalize)[id].candidate == TheCandidate(ms[k])
  {
    hide TheCandidate;
    var n := |ms| - 1;
    if k < n {
      FirstRecordIsKept(ms[..n], k, normalize);
    } else {
      NotYetAllowed(ms[..n], TheCandidate(ms[k]).entityId, normalize);
    }
  }

  lemma {:induction false} NotYetAllowed(ms: seq<Mention>, id: string, normalize: Normalizer)
    requires forall j :: 0 <= j < |ms| && ms[j].exact && |ms[j].candidates| == 1 ==> TheCandidate(ms[j]).entityId != id
    ensures id !in AllowedOf(ms, normalize)
  {
    hide TheCandidate;
    if ms != [] {
      NotYetAllowed(ms[..|ms| - 1], id, normalize);
    }
  }
}
