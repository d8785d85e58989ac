/**
  Relation discovery: ontology-constrained relations between entities that were exactly resolved in
  one chunk.  The language model is an arbitrary oracle; nothing it answers is taken on trust.
*/
module RelationDiscovery {
  import opened Wrappers
  import opened Seqs
  import opened Text
  import opened Chunking
  import opened AdaptiveSplit
  import opened Mentions
  import opened Spans
  import opened Ontology

  // ----- predicate names -----

  predicate Alnum(c: char) {
    'a' <= c <= 'z' || 'A' <= c <= 'Z' || '0' <= c <= '9'
  }

  /** Runs of other characters become one underscore. */
  function CollapseRuns(s: string, inRun: bool): string {
    if s == "" then ""
    else if Alnum(s[0]) then [s[0]] + CollapseRuns(s[1..], false)
    else (if inRun then "" else "_") + CollapseRuns(s[1..], true)
  }

  function StripUnderscores(s: string): string {
    if s != "" && s[0] == '_' then StripUnderscores(s[1..])
    else if s != "" && s[|s| - 1] == '_' then StripUnderscores(s[..|s| - 1])
    else s
  }

  function UpperChar(c: char): char {
    if 'a' <= c <= 'z' then (c as int - 32) as char else c
  }

  /** ASCII upper case. */
  function Upper(s: string): (r: string)
    ensures |r| == |s|
  {
    seq(|s|, i requires 0 <= i < |s| => UpperChar(s[i]))
  }

  /** `fold` is the Unicode compatibility folding to ASCII. */
  function NormalizePredicate(value: string, fold: string -> string): string {
    var name := Upper(StripUnderscores(CollapseRuns(fold(value), false)));
    name[..Min(64, |name|)]
  }

  function PredicateKey(name: string): string { Upper(Strip(name)) }

  ghost predicate NameChars(s: string) {
    forall i :: 0 <= i < |s| ==> Alnum(s[i]) || s[i] == '_'
  }

  lemma {:induction false} CollapsedChars(s: string, inRun: bool)
    ensures NameChars(CollapseRuns(s, inRun))
  {
    if s != "" {
      CollapsedChars(s[1..], !Alnum(s[0]));
    }
  }

  lemma {:induction false} StrippedChars(s: string)
    requires NameChars(s)
    ensures NameChars(StripUnderscores(s))
  {
    if s != "" && s[0] == '_' {
      StrippedChars(s[1..]);
    } else if s != "" && s[|s| - 1] == '_' {
      StrippedChars(s[..|s| - 1]);
    }
  }

  /** A normalised name is its own ontology key, whatever the model wrote. */
  lemma NormalizedNameIsKey(value: string, fold: string -> string)
    ensures PredicateKey(NormalizePredicate(value, fold)) == NormalizePredicate(value, fold)
  {
    CollapsedChars(fold(value), false);
    var core := StripUnderscores(CollapseRuns(fold(value), false));
    StrippedChars(CollapseRuns(fold(value), false));
    hide StripUnderscores, CollapseRuns;
    var name := NormalizePredicate(value, fold);
    assert forall i :: 0 <= i < |name| ==> name[i] == UpperChar(core[i]);
    StripTight(name);
    hide Strip;
    assert Upper(name) == name;
  }

  // ----- one answer item -----

  /** What `float(...)` makes of the answer's confidence. */
  datatype Confidence = Unparsable | NotANumber | Number(r: real)

  /** One element of the answer's relation list, its fields rendered as text. */
  datatype RawItem =
    | NotAnObject
    | RawItem(subjectId: string, predicateName: string, predicateText: string, relationText: string, objectId: string,
              evidence: string, confidence: Confidence, stance: string, validFrom: string, validTo: string)

  datatype Relation = Relation(subjectId: string, predicateName: string, predicateText: string, relationText: string,
                               objectId: string, evidence: string, confidence: real, stance: string, root: nat,
                               validFrom: string, validTo: string)

  datatype Rejection =
    | UnknownEntity | SelfOrEmpty | Semantic(reason: Reason) | MissingGrounding | EvidenceNotInChunk
    | RelationNotInEvidence | SubjectNotInEvidence | ObjectNotInEvidence | EvidenceTooLong
    | InvalidConfidence | BelowConfidence

  datatype Config = Config(enabled: bool, chunkChars: int, overlapChars: int, maxChunks: int, limits: Limits,
                           maxPerChunk: nat, evidenceMaxChars: int, minConfidence: real, ontology: Predicates,
                           normalize: string -> string, fold: string -> string, casefold: string -> string,
                           lower: string -> string)

  const STANCES: set<string> := {"asserted", "negated", "alleged", "questioned", "conditional", "unknown"}

  function BaseType(entityType: string): string {
    if Upper(Strip(entityType)) == "PERSON" then "Person"
    else if Upper(Strip(entityType)) in {"ORGANIZATION", "ORGANIZATIONAL_UNIT"} then "Organization"
    else "Entity"
  }

  function KindOf(c: Candidate): string {
    if c.entityKind == "" then "Other" else c.entityKind
  }

  predicate FormIn(forms: set<string>, evidence: string) {
    exists f | f in forms :: f != "" && Contains(evidence, f)
  }

  /** `max(0.0, min(1.0, x))`; a NaN comes out as 1. */
  function Clamp(c: Confidence): real {
    match c
    case Number(r) => if r < 0.0 then 0.0 else if r > 1.0 then 1.0 else r
    case _ => 1.0
  }

  function Semantics(cfg: Config, name: string, s: Candidate, o: Candidate, relationText: string, evidence: string): Option<Reason> {
    ValidateSemantics(cfg.ontology, PredicateKey(name), BaseType(s.entityType), KindOf(s), BaseType(o.entityType), KindOf(o),
                      relationText, evidence, cfg.casefold)
  }

  function Validate(cfg: Config, item: RawItem, chunk: string, allowed: Allowed, root: nat): Result<Relation, Rejection>
    requires item.RawItem?
  {
    var subjectId, objectId := Strip(item.subjectId), Strip(item.objectId);
    if subjectId !in allowed || objectId !in allowed then Err(UnknownEntity)
    else if subjectId == "" || subjectId == objectId then Err(SelfOrEmpty)
    else
      var predicateText := Strip(if item.predicateText != "" then item.predicateText else item.predicateName);
      var name := NormalizePredicate(item.predicateName, cfg.fold);
      var evidence, relationText := Strip(item.evidence), Strip(item.relationText);
      var semantic := Semantics(cfg, name, allowed[subjectId].candidate, allowed[objectId].candidate, relationText, evidence);
      var chunkNorm, evidenceNorm, relationNorm := cfg.normalize(chunk), cfg.normalize(evidence), cfg.normalize(relationText);
      if semantic.Some? then Err(Semantic(semantic.value))
      else if |evidenceNorm| < 8 || |relationNorm| < 3 then Err(MissingGrounding)
      else if !Contains(chunkNorm, evidenceNorm) then Err(EvidenceNotInChunk)
      else if !Contains(evidenceNorm, relationNorm) || !Contains(chunkNorm, relationNorm) then Err(RelationNotInEvidence)
      else if !FormIn(allowed[subjectId].forms, evidenceNorm) then Err(SubjectNotInEvidence)
      else if !FormIn(allowed[objectId].forms, evidenceNorm) then Err(ObjectNotInEvidence)
      else if |evidence| > cfg.evidenceMaxChars then Err(EvidenceTooLong)
      else if item.confidence.Unparsable? then Err(InvalidConfidence)
      else if item.confidence.Number? && item.confidence.r < cfg.minConfidence then Err(BelowConfidence)
      else
        var stance := cfg.lower(Strip(if item.stance != "" then item.stance else "unknown"));
        Ok(Relation(subjectId, name, if predicateText != "" then predicateText else name, relationText, objectId, evidence,
                    Clamp(item.confidence), if stance in STANCES then stance else "unknown", root,
                    Strip(item.validFrom), Strip(item.validTo)))
  }

  /**
    What a returned relation is worth: two different allowed entities, evidence copied from the chunk,
    the relation phrase and a resolved form of each entity inside the evidence (all compared
    normalised), a predicate the ontology permits for this pair, and a confidence in range.
  */
  ghost predicate Grounded(cfg: Config, r: Relation, chunk: string, allowed: Allowed) {
    && r.subjectId in allowed && r.objectId in allowed && r.subjectId != r.objectId && r.subjectId != ""
    && |cfg.normalize(r.evidence)| >= 8 && |cfg.normalize(r.relationText)| >= 3
    && |r.evidence| <= cfg.evidenceMaxChars
    && Contains(cfg.normalize(chunk), cfg.normalize(r.evidence))
    && Contains(cfg.normalize(r.evidence), cfg.normalize(r.relationText))
    && FormIn(allowed[r.subjectId].forms, cfg.normalize(r.evidence))
    && FormIn(allowed[r.objectId].forms, cfg.normalize(r.evidence))
    && (var s, o := allowed[r.subjectId].candidate, allowed[r.objectId].candidate;
        r.predicateName in Compatible(cfg.ontology, BaseType(s.entityType), KindOf(s), BaseType(o.entityType), KindOf(o)))
    && 0.0 <= r.confidence <= 1.0 && (cfg.minConfidence <= 1.0 ==> cfg.minConfidence <= r.confidence)
    && r.stance in STANCES
  }

  lemma ValidatedIsGrounded(cfg: Config, item: RawItem, chunk: string, allowed: Allowed, root: nat)
    requires item.RawItem? && Validate(cfg, item, chunk, allowed, root).Ok?
    ensures Grounded(cfg, Validate(cfg, item, chunk, allowed, root).value, chunk, allowed)
    ensures Validate(cfg, item, chunk, allowed, root).value.root == root
  {
    var r := Validate(cfg, item, chunk, allowed, root).value;
    var s, o := allowed[r.subjectId].candidate, allowed[r.objectId].candidate;
    NormalizedNameIsKey(item.predicateName, cfg.fold);
    AcceptedIffCompatibleAndCued(cfg.ontology, PredicateKey(r.predicateName), BaseType(s.entityType), KindOf(s),
                                 BaseType(o.entityType), KindOf(o), r.relationText, r.evidence, cfg.casefold);
    hide Compatible, ValidateSemantics, BaseType, PredicateKey, NormalizePredicate, Strip, Contains;
    assert Semantics(cfg, r.predicateName, s, o, r.relationText, r.evidence).None?;
  }

  /** Some form that is not empty occurs in the evidence. */
  ghost predicate Named(forms: set<string>, evidence: string) {
    exists f :: f in forms && f != "" && Contains(evidence, f)
  }

  /** The pair, the predicate and the cue are what the entry of the ontology allows. */
  ghost predicate EntryAllows(o: Predicates, key: string, s: Candidate, t: Candidate, haystack: string, casefold: string -> string) {
    && key in o
    && var entry := o[key];
    && (entry.sources != {} ==> "document" in entry.sources)
    && BaseType(s.entityType) in entry.subjectTypes && BaseType(t.entityType) in entry.objectTypes
    && (entry.subjectKinds != {} ==> (if s.entityKind == "" then "Other" else s.entityKind) in entry.subjectKinds)
    && (entry.objectKinds != {} ==> (if t.entityKind == "" then "Other" else t.entityKind) in entry.objectKinds)
    && ((exists c :: c in entry.cues && Strip(c) != "") ==>
          exists c :: c in entry.cues && Strip(c) != "" && Contains(haystack, casefold(c)))
  }

  /** What an answer item must satisfy, read off its stripped fields. */
  ghost predicate Acceptable(cfg: Config, item: RawItem, chunk: string, allowed: Allowed)
    requires item.RawItem?
  {
    var subjectId, objectId := Strip(item.subjectId), Strip(item.objectId);
    var evidence, relationText := Strip(item.evidence), Strip(item.relationText);
    var evidenceNorm, relationNorm := cfg.normalize(evidence), cfg.normalize(relationText);
    && subjectId in allowed && objectId in allowed && subjectId != "" && subjectId != objectId
    && EntryAllows(cfg.ontology, NormalizePredicate(item.predicateName, cfg.fold), allowed[subjectId].candidate,
                   allowed[objectId].candidate, cfg.casefold(relationText + "\n" + evidence), cfg.casefold)
    && |evidenceNorm| >= 8 && |relationNorm| >= 3 && |evidence| <= cfg.evidenceMaxChars
    && Contains(cfg.normalize(chunk), evidenceNorm) && Contains(evidenceNorm, relationNorm)
    && Named(allowed[subjectId].forms, evidenceNorm) && Named(allowed[objectId].forms, evidenceNorm)
    && (item.confidence.NotANumber? || (item.confidence.Number? && item.confidence.r >= cfg.minConfidence))
  }

  /** What is recorded of an accepted item. */
  ghost predicate Records(cfg: Config, r: Relation, item: RawItem)
    requires item.RawItem?
  {
    && r.subjectId == Strip(item.subjectId) && r.objectId == Strip(item.objectId)
    && r.evidence == Strip(item.evidence) && r.relationText == Strip(item.relationText)
    && r.validFrom == Strip(item.validFrom) && r.validTo == Strip(item.validTo)
    && r.predicateName == NormalizePredicate(item.predicateName, cfg.fold)
    && (Strip(item.predicateText) != "" ==> r.predicateText == Strip(item.predicateText))
    && (item.predicateText == "" && Strip(item.predicateName) != "" ==> r.predicateText == Strip(item.predicateName))
    && (Strip(item.predicateText) == "" && (item.predicateText != "" || Strip(item.predicateName) == "") ==>
          r.predicateText == r.predicateName)
    && (item.confidence.Number? && 0.0 <= item.confidence.r <= 1.0 ==> r.confidence == item.confidence.r)
    && (item.confidence.Number? && item.confidence.r < 0.0 ==> r.confidence == 0.0)
    && (item.confidence.NotANumber? || (item.confidence.Number? && item.confidence.r > 1.0) ==> r.confidence == 1.0)
    && var stance := cfg.lower(if item.stance == "" then "unknown" else Strip(item.stance));
       r.stance == if stance in STANCES then stance else "unknown"
  }

  /** An item is accepted exactly when it satisfies all of that, and recorded with what it says. */
  lemma AcceptedIff(cfg: Config, item: RawItem, chunk: string, allowed: Allowed, root: nat)
    requires item.RawItem?
    ensures Validate(cfg, item, chunk, allowed, root).Ok? <==> Acceptable(cfg, item, chunk, allowed)
    ensures Acceptable(cfg, item, chunk, allowed) ==> Records(cfg, Validate(cfg, item, chunk, allowed, root).value, item)
  {
    AcceptableIsChecked(cfg, item, chunk, allowed, root);
    StripTight("unknown");
    hide Acceptable, Strip, NormalizePredicate, Contains, FormIn, Semantics;
  }

  lemma AcceptableIsChecked(cfg: Config, item: RawItem, chunk: string, allowed: Allowed, root: nat)
    requires item.RawItem?
    ensures Validate(cfg, item, chunk, allowed, root).Ok? <==> Acceptable(cfg, item, chunk, allowed)
  {
    var subjectId, objectId := Strip(item.subjectId), Strip(item.objectId);
    var evidence, relationText := Strip(item.evidence), Strip(item.relationText);
    var chunkNorm, evidenceNorm, relationNorm := cfg.normalize(chunk), cfg.normalize(evidence), cfg.normalize(relationText);
    if subjectId in allowed && objectId in allowed {
      var name := NormalizePredicate(item.predicateName, cfg.fold);
      SemanticsIff(cfg, item.predicateName, allowed[subjectId].candidate, allowed[objectId].candidate, relationText, evidence);
      NamedIff(allowed[subjectId].forms, evidenceNorm);
      NamedIff(allowed[objectId].forms, evidenceNorm);
    }
    if Contains(chunkNorm, evidenceNorm) && Contains(evidenceNorm, relationNorm) {
      ContainsTransitive(chunkNorm, evidenceNorm, relationNorm);
    }
    hide Strip, NormalizePredicate, Contains, FormIn, Semantics, Named, EntryAllows, Clamp;
  }

  lemma NamedIff(forms: set<string>, evidence: string)
    ensures FormIn(forms, evidence) <==> Named(forms, evidence)
  {
    hide Contains;
  }

  lemma SemanticsIff(cfg: Config, predicateName: string, s: Candidate, t: Candidate, relationText: string, evidence: string)
    ensures var name := NormalizePredicate(predicateName, cfg.fold);
            Semantics(cfg, name, s, t, relationText, evidence).None? <==>
            EntryAllows(cfg.ontology, name, s, t, cfg.casefold(relationText + "\n" + evidence), cfg.casefold)
  {
    var name := NormalizePredicate(predicateName, cfg.fold);
    NormalizedNameIsKey(predicateName, cfg.fold);
    AcceptedIffEntryAllows(cfg.ontology, PredicateKey(name), BaseType(s.entityType), KindOf(s),
                           BaseType(t.entityType), KindOf(t), relationText, evidence, cfg.casefold);
    hide ValidateSemantics, PredicateKey, NormalizePredicate, BaseType, Strip, Contains;
  }

  /** A part of a part is a part, so looking for the relation phrase in the chunk as well adds nothing. */
  lemma ContainsTransitive(text: string, part: string, inner: string)
    requires Contains(text, part) && Contains(part, inner)
    ensures Contains(text, inner)
  {
    var i :| 0 <= i <= |text| && Occurs(text, part, i);
    var j :| 0 <= j <= |part| && Occurs(part, inner, j);
    SliceOfSlice(text, i, i + |part|, j, j + |inner|);
    assert Occurs(text, inner, i + j);
  }

  /** The order in which objections are raised. */
  function Turn(r: Rejection): nat {
    match r
    case UnknownEntity => 0
    case SelfOrEmpty => 1
    case Semantic(_) => 2
    case MissingGrounding => 3
    case EvidenceNotInChunk => 4
    case RelationNotInEvidence => 5
    case SubjectNotInEvidence => 6
    case ObjectNotInEvidence => 7
    case EvidenceTooLong => 8
    case InvalidConfidence => 9
    case BelowConfidence => 10
  }

  /** What each objection says about the item, whatever else is wrong with it. */
  ghost predicate Objects(r: Rejection, cfg: Config, item: RawItem, chunk: string, allowed: Allowed)
    requires item.RawItem?
  {
    var subjectId, objectId := Strip(item.subjectId), Strip(item.objectId);
    var known := subjectId in allowed && objectId in allowed;
    var evidence, relationText := Strip(item.evidence), Strip(item.relationText);
    var evidenceNorm := cfg.normalize(evidence);
    match r
    case UnknownEntity => !known
    case SelfOrEmpty => subjectId == "" || subjectId == objectId
    case Semantic(reason) =>
      known && Semantics(cfg, NormalizePredicate(item.predicateName, cfg.fold), allowed[subjectId].candidate,
                         allowed[objectId].candidate, relationText, evidence) == Some(reason)
    case MissingGrounding => |evidenceNorm| < 8 || |cfg.normalize(relationText)| < 3
    case EvidenceNotInChunk => !Contains(cfg.normalize(chunk), evidenceNorm)
    case RelationNotInEvidence => !Contains(evidenceNorm, cfg.normalize(relationText))
    case SubjectNotInEvidence => known && !Named(allowed[subjectId].forms, evidenceNorm)
    case ObjectNotInEvidence => known && !Named(allowed[objectId].forms, evidenceNorm)
    case EvidenceTooLong => |evidence| > cfg.evidenceMaxChars
    case InvalidConfidence => item.confidence.Unparsable?
    case BelowConfidence => item.confidence.Number? && item.confidence.r < cfg.minConfidence
  }

  /** `r` is the first objection to the item. */
  ghost predicate FirstObjection(r: Rejection, cfg: Config, item: RawItem, chunk: string, allowed: Allowed)
    requires item.RawItem?
  {
    Objects(r, cfg, item, chunk, allowed) && forall e: Rejection :: Turn(e) < Turn(r) ==> !Objects(e, cfg, item, chunk, allowed)
  }

  /** A rejected item is rejected for the first objection that holds. */
  lemma RejectedForFirst(cfg: Config, item: RawItem, chunk: string, allowed: Allowed, root: nat, r: Rejection)
    requires item.RawItem? && Validate(cfg, item, chunk, allowed, root) == Err(r)
    ensures FirstObjection(r, cfg, item, chunk, allowed)
  {
    hide Objects, Validate, Turn;
    ObjectionHolds(cfg, item, chunk, allowed, root, r);
    forall e: Rejection | Turn(e) < Turn(r) ensures !Objects(e, cfg, item, chunk, allowed) {
      NoEarlierObjection(cfg, item, chunk, allowed, root, r, e);
    }
  }

  lemma ObjectionHolds(cfg: Config, item: RawItem, chunk: string, allowed: Allowed, root: nat, r: Rejection)
    requires item.RawItem? && Validate(cfg, item, chunk, allowed, root) == Err(r)
    ensures Objects(r, cfg, item, chunk, allowed)
  {
    hide Strip, NormalizePredicate, Contains, FormIn, Semantics, Named, Clamp, STANCES, Turn;
    PhraseInChunk(cfg, item, chunk, allowed);
    if r.SubjectNotInEvidence? || r.ObjectNotInEvidence? {
      assert Strip(item.subjectId) in allowed && Strip(item.objectId) in allowed;
    }
  }

  lemma NoEarlierObjection(cfg: Config, item: RawItem, chunk: string, allowed: Allowed, root: nat, r: Rejection, e: Rejection)
    requires item.RawItem? && Validate(cfg, item, chunk, allowed, root) == Err(r) && Turn(e) < Turn(r)
    ensures !Objects(e, cfg, item, chunk, allowed)
  {
    hide Strip, NormalizePredicate, Contains, FormIn, Semantics, Named, Clamp;
    PhraseInChunk(cfg, item, chunk, allowed);
  }

  lemma PhraseInChunk(cfg: Config, item: RawItem, chunk: string, allowed: Allowed)
    requires item.RawItem?
    ensures var evidenceNorm, relationNorm := cfg.normalize(Strip(item.evidence)), cfg.normalize(Strip(item.relationText));
            && (forall id :: id in allowed ==> (FormIn(allowed[id].forms, evidenceNorm) <==> Named(allowed[id].forms, evidenceNorm)))
            && (Contains(cfg.normalize(chunk), evidenceNorm) && Contains(evidenceNorm, relationNorm) ==>
                  Contains(cfg.normalize(chunk), relationNorm))
  {
    hide Strip;
    var evidenceNorm, relationNorm := cfg.normalize(Strip(item.evidence)), cfg.normalize(Strip(item.relationText));
    forall id | id in allowed ensures FormIn(allowed[id].forms, evidenceNorm) <==> Named(allowed[id].forms, evidenceNorm) {
      NamedIff(allowed[id].forms, evidenceNorm);
    }
    if Contains(cfg.normalize(chunk), evidenceNorm) && Contains(evidenceNorm, relationNorm) {
      ContainsTransitive(cfg.normalize(chunk), evidenceNorm, relationNorm);
    }
  }

  /** A NaN confidence passes every threshold and becomes certainty. */
  lemma NaNBecomesCertain(cfg: Config, item: RawItem, chunk: string, allowed: Allowed, root: nat)
    requires item.RawItem? && item.confidence.NotANumber?
    ensures var r := Validate(cfg, item, chunk, allowed, root);
            r != Err(InvalidConfidence) && r != Err(BelowConfidence) && (r.Ok? ==> r.value.confidence == 1.0)
  {
    hide Strip, NormalizePredicate, Semantics, Contains, FormIn;
  }

  /** A NaN is treated exactly as a confidence of 1 would be if the threshold were at most 1. */
  lemma NaNActsAsOne(cfg: Config, item: RawItem, chunk: string, allowed: Allowed, root: nat, threshold: real)
    requires item.RawItem? && item.confidence.NotANumber? && threshold <= 1.0
    ensures Validate(cfg, item, chunk, allowed, root) ==
            Validate(cfg.(minConfidence := threshold), item.(confidence := Number(1.0)), chunk, allowed, root)
  {
    hide Strip, NormalizePredicate, ValidateSemantics, Contains, FormIn;
  }

  function Same(s: string): string { s }

  const SAMPLE := "Ann knows Bob"

  function SampleConfig(threshold: real): Config {
    var name := NormalizePredicate("knows", Same);
    Config(true, 2000, 0, 0, Limits(0, 0, 0), 1, 100, threshold, map[name := Spec({"Person"}, {"Person"}, {}, {}, {}, [])],
           Same, Same, Same, Same)
  }

  function SampleItem(): RawItem { RawItem("1", "knows", "", SAMPLE, "2", SAMPLE, NotANumber, "", "", "") }

  function SampleAllowed(): Allowed {
    map["1" := Entry(Candidate("1", "Person", "", "Ann", 100.0), {SAMPLE}),
        "2" := Entry(Candidate("2", "Person", "", "Bob", 100.0), {SAMPLE})]
  }

  /** Such an item, accepted as certain whatever the threshold. */
  lemma NaNIsAccepted(threshold: real)
    ensures var r := Validate(SampleConfig(threshold), SampleItem(), SAMPLE, SampleAllowed(), 1);
            r.Ok? && r.value.confidence == 1.0
  {
    hide Strip, NormalizePredicate, Contains, FormIn, Semantics;
    assert Strip("1") == "1" && Strip("2") == "2" && Strip(SAMPLE) == SAMPLE by {
      StripTight("1");
      StripTight("2");
      StripTight(SAMPLE);
    }
    ContainsItself(SAMPLE);
    assert FormIn({SAMPLE}, SAMPLE) by { SampleForm(); }
    SampleSemantics(threshold);
  }

  lemma SampleForm()
    ensures FormIn({SAMPLE}, SAMPLE)
  {
    ContainsItself(SAMPLE);
    hide Contains;
    assert SAMPLE in {SAMPLE} && SAMPLE != "";
  }

  lemma SampleSemantics(threshold: real)
    ensures var allowed := SampleAllowed();
            Semantics(SampleConfig(threshold), NormalizePredicate("knows", Same), allowed["1"].candidate, allowed["2"].candidate,
                      SAMPLE, SAMPLE) == None
  {
    NormalizedNameIsKey("knows", Same);
    PersonStays();
    hide NormalizePredicate, BaseType, PredicateKey;
  }

  lemma PersonStays()
    ensures BaseType("Person") == "Person"
  {
    StripTight("Person");
    assert Upper("Person") == "PERSON";
  }

  lemma ContainsItself(s: string)
    ensures Contains(s, s)
  {
    assert Occurs(s, s, 0);
  }

  // ----- one answer -----

  /** The accepted relations of an answer, in order. */
  function Accepted(cfg: Config, items: seq<RawItem>, chunk: string, allowed: Allowed, root: nat): seq<Relation> {
    if items == [] then []
    else
      var n := |items| - 1;
      Accepted(cfg, items[..n], chunk, allowed, root) +
      if items[n].RawItem? && Validate(cfg, items[n], chunk, allowed, root).Ok?
      then [Validate(cfg, items[n], chunk, allowed, root).value] else []
  }

  function ObjectCount(items: seq<RawItem>): nat {
    if items == [] then 0 else ObjectCount(items[..|items| - 1]) + if items[|items| - 1].RawItem? then 1 else 0
  }

  /** One entry of the diagnostics. */
  datatype Diagnostic =
    | RejectedRelation(item: RawItem, reason: Rejection, root: nat)
    | SplitInto(path: Label, parts: nat)
    | ExtractorError(path: Label)

  /** The rejected relations of an answer, in order, each with its reason. */
  function Rejected(cfg: Config, items: seq<RawItem>, chunk: string, allowed: Allowed, root: nat): seq<Diagnostic> {
    if items == [] then []
    else
      var n := |items| - 1;
      Rejected(cfg, items[..n], chunk, allowed, root) +
      if items[n].RawItem? && Validate(cfg, items[n], chunk, allowed, root).Err?
      then [RejectedRelation(items[n], Validate(cfg, items[n], chunk, allowed, root).error, root)] else []
  }

  ghost function AcceptableIn(cfg: Config, chunk: string, allowed: Allowed): RawItem -> bool {
    (item: RawItem) => item.RawItem? && Acceptable(cfg, item, chunk, allowed)
  }

  ghost function UnacceptableIn(cfg: Config, chunk: string, allowed: Allowed): RawItem -> bool {
    (item: RawItem) => item.RawItem? && !Acceptable(cfg, item, chunk, allowed)
  }

  /** One relation, in order, for every acceptable item, and nothing else. */
  ghost predicate RecordsAll(cfg: Config, out: seq<Relation>, items: seq<RawItem>, chunk: string, allowed: Allowed, root: nat) {
    var good := Keep(items, AcceptableIn(cfg, chunk, allowed));
    |out| == |good| && forall j :: 0 <= j < |out| ==> good[j].RawItem? && Records(cfg, out[j], good[j]) && out[j].root == root
  }

  /** One rejection, in order, for every other object of the answer, with the first objection to it. */
  ghost predicate RejectsAll(cfg: Config, out: seq<Diagnostic>, items: seq<RawItem>, chunk: string, allowed: Allowed, root: nat) {
    var bad := Keep(items, UnacceptableIn(cfg, chunk, allowed));
    |out| == |bad| && forall j :: 0 <= j < |out| ==>
      && bad[j].RawItem? && out[j].RejectedRelation? && out[j].item == bad[j] && out[j].root == root
      && FirstObjection(out[j].reason, cfg, bad[j], chunk, allowed)
  }

  lemma {:induction false} AcceptedRecordsAll(cfg: Config, items: seq<RawItem>, chunk: string, allowed: Allowed, root: nat)
    ensures RecordsAll(cfg, Accepted(cfg, items, chunk, allowed, root), items, chunk, allowed, root)
  {
    hide Validate, Records, Acceptable;
    if items != [] {
      var n := |items| - 1;
      AcceptedRecordsAll(cfg, items[..n], chunk, allowed, root);
      if items[n].RawItem? {
        AcceptedIff(cfg, items[n], chunk, allowed, root);
        RootIsKept(cfg, items[n], chunk, allowed, root);
      }
      assert items == items[..n] + [items[n]];
      KeepLast(items[..n], items[n], AcceptableIn(cfg, chunk, allowed));
      hide Keep;
    }
  }

  lemma RootIsKept(cfg: Config, item: RawItem, chunk: string, allowed: Allowed, root: nat)
    requires item.RawItem?
    ensures Validate(cfg, item, chunk, allowed, root).Ok? ==> Validate(cfg, item, chunk, allowed, root).value.root == root
  {
    hide Strip, NormalizePredicate, Contains, FormIn, Semantics;
  }

  lemma {:induction false} RejectedRejectsAll(cfg: Config, items: seq<RawItem>, chunk: string, allowed: Allowed, root: nat)
    ensures RejectsAll(cfg, Rejected(cfg, items, chunk, allowed, root), items, chunk, allowed, root)
  {
    hide Validate, FirstObjection, Acceptable;
    if items != [] {
      var n := |items| - 1;
      RejectedRejectsAll(cfg, items[..n], chunk, allowed, root);
      if items[n].RawItem? {
        var result := Validate(cfg, items[n], chunk, allowed, root);
        AcceptedIff(cfg, items[n], chunk, allowed, root);
        if result.Err? {
          RejectedForFirst(cfg, items[n], chunk, allowed, root, result.error);
        }
      }
      assert items == items[..n] + [items[n]];
      KeepLast(items[..n], items[n], UnacceptableIn(cfg, chunk, allowed));
      hide Keep;
    }
  }

  method ValidatedRelations(cfg: Config, payload: seq<RawItem>, chunk: string, allowed: Allowed, root: nat)
    returns (out: seq<Relation>, rejected: seq<Diagnostic>)
    ensures var items := payload[..Min(cfg.maxPerChunk, |payload|)];
            && out == Accepted(cfg, items, chunk, allowed, root)
            && rejected == Rejected(cfg, items, chunk, allowed, root)
            && |out| + |rejected| == ObjectCount(items)
            && RecordsAll(cfg, out, items, chunk, allowed, root) && RejectsAll(cfg, rejected, items, chunk, allowed, root)
  {
    hide Validate, RecordsAll, RejectsAll;
    var items := payload[..Min(cfg.maxPerChunk, |payload|)];
    AcceptedRecordsAll(cfg, items, chunk, allowed, root);
    RejectedRejectsAll(cfg, items, chunk, allowed, root);
    out, rejected := [], [];
    var i := 0;
    while i < |items|
      invariant 0 <= i <= |items|
      invariant out == Accepted(cfg, items[..i], chunk, allowed, root)
      invariant rejected == Rejected(cfg, items[..i], chunk, allowed, root)
      invariant |out| + |rejected| == ObjectCount(items[..i])
    {
      assert items[..i + 1][..i] == items[..i];
      if items[i].RawItem? {
        var result := Validate(cfg, items[i], chunk, allowed, root);
        if result.Ok? {
          out := out + [result.value];
        } else {
          rejected := rejected + [RejectedRelation(items[i], result.error, root)];
        }
      }
      i := i + 1;
    }
    assert items[..i] == items;
  }

  lemma {:induction false} AcceptedAreGrounded(cfg: Config, items: seq<RawItem>, chunk: string, allowed: Allowed, root: nat)
    ensures forall r :: r in Accepted(cfg, items, chunk, allowed, root) ==> Grounded(cfg, r, chunk, allowed) && r.root == root
  {
    hide Validate, Grounded;
    if items != [] {
      var n := |items| - 1;
      AcceptedAreGrounded(cfg, items[..n], chunk, allowed, root);
      if items[n].RawItem? && Validate(cfg, items[n], chunk, allowed, root).Ok? {
        ValidatedIsGrounded(cfg, items[n], chunk, allowed, root);
      }
    }
  }

  // ----- one chunk -----

  /** The model's reply to one chunk. */
  datatype Reply = Answer(items: seq<RawItem>) | InvalidStructure | OtherFailure

  type Model = (string, Label) -> Reply

  /** The name-form hits of a chunk. */
  type Finder = string -> seq<FormHit>

  function AllowedIn(cfg: Config, find: Finder, chunk: string): Allowed {
    AllowedOf(Detected(find(chunk), cfg.normalize), cfg.normalize)
  }

  /** One attempt as an outcome: with fewer than two allowed entities the model is not asked. */
  function Attempt(cfg: Config, find: Finder, model: Model, chunk: string, path: Label): Outcome<Relation> {
    var allowed := AllowedIn(cfg, find, chunk);
    if |allowed| < 2 then Extracted([])
    else
      match model(chunk, path)
      case Answer(items) =>
        Extracted(Accepted(cfg, items[..Min(cfg.maxPerChunk, |items|)], chunk, allowed, if path == [] then 0 else path[0]))
      case InvalidStructure => Malformed
      case OtherFailure => Broken
  }

  function Attempting(cfg: Config, find: Finder, model: Model): Extractor<Relation> {
    (chunk: string, path: Label) => Attempt(cfg, find, model, chunk, path)
  }

  // ----- merging -----

  datatype Key = Key(subjectId: string, predicateName: string, objectId: string, evidence: string)

  function KeyOf(cfg: Config, r: Relation): Key {
    Key(r.subjectId, r.predicateName, r.objectId, cfg.normalize(r.evidence))
  }

  function MergeOne(cfg: Config, m: map<Key, Relation>, r: Relation): map<Key, Relation> {
    var key := KeyOf(cfg, r);
    if key !in m || r.confidence > m[key].confidence then m[key := r] else m
  }

  function MergeAll(cfg: Config, m: map<Key, Relation>, rs: seq<Relation>): map<Key, Relation> {
    if rs == [] then m else MergeOne(cfg, MergeAll(cfg, m, rs[..|rs| - 1]), rs[|rs| - 1])
  }

  lemma {:induction false} MergeAllConcat(cfg: Config, m: map<Key, Relation>, a: seq<Relation>, b: seq<Relation>)
    ensures MergeAll(cfg, m, a + b) == MergeAll(cfg, MergeAll(cfg, m, a), b)
  {
    hide MergeOne;
    if b == [] {
      assert a + b == a;
    } else {
      assert (a + b)[..|a + b| - 1] == a + b[..|b| - 1];
      MergeAllConcat(cfg, m, a, b[..|b| - 1]);
    }
  }

  /** Per key, one of the relations found, with the greatest confidence found for that key. */
  lemma {:induction false} MergedIsBest(cfg: Config, rs: seq<Relation>)
    ensures var m := MergeAll(cfg, map[], rs);
            && (forall k :: k in m ==> m[k] in rs && KeyOf(cfg, m[k]) == k)
            && (forall r :: r in rs ==> KeyOf(cfg, r) in m && r.confidence <= m[KeyOf(cfg, r)].confidence)
  {
    hide KeyOf;
    if rs != [] {
      var n := |rs| - 1;
      MergedIsBest(cfg, rs[..n]);
      assert rs == rs[..n] + [rs[n]];
    }
  }

  // ----- the stateful discovery -----

  function RootWindows(cfg: Config, text: string): seq<Window> {
    Roots(text, cfg.chunkChars, cfg.overlapChars, cfg.maxChunks)
  }

  // ----- the diagnostics -----

  /** What an answered attempt reports: the relations it rejected. */
  function AnswerReport(cfg: Config, find: Finder, model: Model, chunk: string, path: Label): seq<Diagnostic> {
    var allowed := AllowedIn(cfg, find, chunk);
    if |allowed| < 2 || !model(chunk, path).Answer? then []
    else
      var items := model(chunk, path).items;
      Rejected(cfg, items[..Min(cfg.maxPerChunk, |items|)], chunk, allowed, if path == [] then 0 else path[0])
  }

  function Report(cfg: Config, find: Finder, model: Model, chunk: string, depth: nat, path: Label): seq<Diagnostic>
    decreases Height(cfg.limits, depth), 1, 0
  {
    var outcome := Attempt(cfg, find, model, chunk, path);
    if outcome.Malformed? && Splits(cfg.limits, chunk, depth)
    then [SplitInto(path, |Parts(cfg.limits, chunk)|)] + PartReports(cfg, find, model, chunk, 0, depth, path)
    else if outcome.Extracted? then AnswerReport(cfg, find, model, chunk, path)
    else [ExtractorError(path)]
  }

  function PartReports(cfg: Config, find: Finder, model: Model, chunk: string, k: nat, depth: nat, path: Label): seq<Diagnostic>
    requires k <= |Parts(cfg.limits, chunk)| && depth < cfg.limits.maxDepth
    decreases Height(cfg.limits, depth), 0, |Parts(cfg.limits, chunk)| - k
  {
    var parts := Parts(cfg.limits, chunk);
    if k == |parts| then []
    else Report(cfg, find, model, Slice(chunk, parts[k]), depth + 1, path + [k + 1])
         + PartReports(cfg, find, model, chunk, k + 1, depth, path)
  }

  /** The reports of all root chunks from number `k` on. */
  function RootReports(cfg: Config, find: Finder, model: Model, text: string, ws: seq<Window>, k: nat): seq<Diagnostic>
    requires k <= |ws|
    decreases |ws| - k
  {
    if k == |ws| then []
    else Report(cfg, find, model, Slice(text, ws[k]), 0, [k + 1]) + RootReports(cfg, find, model, text, ws, k + 1)
  }

  /** The labels of the extractor errors. */
  function ErrorPaths(ds: seq<Diagnostic>): seq<Label> {
    if ds == [] then []
    else (if ds[0].ExtractorError? then [ds[0].path] else []) + ErrorPaths(ds[1..])
  }

  lemma {:induction false} ErrorPathsConcat(a: seq<Diagnostic>, b: seq<Diagnostic>)
    ensures ErrorPaths(a + b) == ErrorPaths(a) + ErrorPaths(b)
  {
    if a == [] {
      assert a + b == b;
    } else {
      assert (a + b)[1..] == a[1..] + b;
      ErrorPathsConcat(a[1..], b);
    }
  }

  lemma {:induction false} RejectionsAreNoErrors(cfg: Config, items: seq<RawItem>, chunk: string, allowed: Allowed, root: nat)
    ensures ErrorPaths(Rejected(cfg, items, chunk, allowed, root)) == []
  {
    hide Validate;
    if items != [] {
      var n := |items| - 1;
      RejectionsAreNoErrors(cfg, items[..n], chunk, allowed, root);
      var before := Rejected(cfg, items[..n], chunk, allowed, root);
      if items[n].RawItem? && Validate(cfg, items[n], chunk, allowed, root).Err? {
        var last := [RejectedRelation(items[n], Validate(cfg, items[n], chunk, allowed, root).error, root)];
        ErrorPathsConcat(before, last);
        assert last[1..] == [];
      } else {
        assert before + [] == before;
      }
    }
  }

  /** The extractor errors reported are exactly the failed leaves, in order. */
  lemma {:induction false} ErrorsAreFailures(cfg: Config, find: Finder, model: Model, chunk: string, start: nat, depth: nat, path: Label)
    ensures ErrorPaths(Report(cfg, find, model, chunk, depth, path)) ==
            Failures(Leaves(cfg.limits, Attempting(cfg, find, model), chunk, start, depth, path))
    decreases Height(cfg.limits, depth), 1, 0
  {
    hide Parts, Attempt, AllowedIn, Rejected;
    var ex := Attempting(cfg, find, model);
    assert ex(chunk, path) == Attempt(cfg, find, model, chunk, path);
    if ex(chunk, path).Malformed? && Splits(cfg.limits, chunk, depth) {
      PartErrorsAreFailures(cfg, find, model, chunk, start, 0, depth, path);
      var head, rest := [SplitInto(path, |Parts(cfg.limits, chunk)|)], PartReports(cfg, find, model, chunk, 0, depth, path);
      assert (head + rest)[1..] == rest;
    } else {
      SingleLeaf(Leaf(start, chunk, path, ex(chunk, path)));
      if ex(chunk, path).Extracted? {
        AnswersAreNoErrors(cfg, find, model, chunk, path);
      } else {
        assert [ExtractorError(path)][1..] == [];
      }
    }
  }

  lemma AnswersAreNoErrors(cfg: Config, find: Finder, model: Model, chunk: string, path: Label)
    ensures ErrorPaths(AnswerReport(cfg, find, model, chunk, path)) == []
  {
    if model(chunk, path).Answer? {
      var items := model(chunk, path).items;
      RejectionsAreNoErrors(cfg, items[..Min(cfg.maxPerChunk, |items|)], chunk, AllowedIn(cfg, find, chunk), if path == [] then 0 else path[0]);
    }
  }

  lemma {:induction false} PartErrorsAreFailures(cfg: Config, find: Finder, model: Model, chunk: string, start: nat, k: nat,
                                                 depth: nat, path: Label)
    requires k <= |Parts(cfg.limits, chunk)| && depth < cfg.limits.maxDepth
    ensures ErrorPaths(PartReports(cfg, find, model, chunk, k, depth, path)) ==
            Failures(PartLeaves(cfg.limits, Attempting(cfg, find, model), chunk, start, k, depth, path))
    decreases Height(cfg.limits, depth), 0, |Parts(cfg.limits, chunk)| - k
  {
    hide Parts, Leaves, Report, Slice;
    var ex, parts := Attempting(cfg, find, model), Parts(cfg.limits, chunk);
    if k < |parts| {
      var part := Slice(chunk, parts[k]);
      ErrorsAreFailures(cfg, find, model, part, start + parts[k].start, depth + 1, path + [k + 1]);
      PartErrorsAreFailures(cfg, find, model, chunk, start, k + 1, depth, path);
      ErrorPathsConcat(Report(cfg, find, model, part, depth + 1, path + [k + 1]),
                       PartReports(cfg, find, model, chunk, k + 1, depth, path));
      LeavesConcat(Leaves(cfg.limits, ex, part, start + parts[k].start, depth + 1, path + [k + 1]),
                   PartLeaves(cfg.limits, ex, chunk, start, k + 1, depth, path));
    }
  }

  /** Over the whole document. */
  lemma {:induction false} RootErrorsAreFailures(cfg: Config, find: Finder, model: Model, text: string, ws: seq<Window>, k: nat)
    requires k <= |ws|
    ensures ErrorPaths(RootReports(cfg, find, model, text, ws, k)) ==
            Failures(RootLeaves(cfg.limits, Attempting(cfg, find, model), text, ws, k))
    decreases |ws| - k
  {
    hide Leaves, Report, Slice;
    if k < |ws| {
      var ex, root := Attempting(cfg, find, model), Slice(text, ws[k]);
      ErrorsAreFailures(cfg, find, model, root, ws[k].start, 0, [k + 1]);
      RootErrorsAreFailures(cfg, find, model, text, ws, k + 1);
      ErrorPathsConcat(Report(cfg, find, model, root, 0, [k + 1]), RootReports(cfg, find, model, text, ws, k + 1));
      LeavesConcat(Leaves(cfg.limits, ex, root, ws[k].start, 0, [k + 1]), RootLeaves(cfg.limits, ex, text, ws, k + 1));
    }
  }

  lemma ReportJoined(a: seq<Diagnostic>, b: seq<Diagnostic>, c: seq<Diagnostic>)
    ensures a + b + c == a + (b + c)
  {
  }

  predicate Asked(cfg: Config, find: Finder, chunk: string) { |AllowedIn(cfg, find, chunk)| >= 2 }

  /** How one chunk ends, case by case. */
  lemma OneChunk(cfg: Config, find: Finder, model: Model, chunk: string, start: nat, depth: nat, path: Label)
    requires path != []
    ensures var allowed, reply := AllowedIn(cfg, find, chunk), model(chunk, path);
            var leaves := Leaves(cfg.limits, Attempting(cfg, find, model), chunk, start, depth, path);
            var report := Report(cfg, find, model, chunk, depth, path);
            if !Asked(cfg, find, chunk) then Found(leaves) == [] && report == []
            else if reply.Answer? then
              var items := reply.items[..Min(cfg.maxPerChunk, |reply.items|)];
              && Found(leaves) == Accepted(cfg, items, chunk, allowed, path[0])
              && report == Rejected(cfg, items, chunk, allowed, path[0])
            else if reply.InvalidStructure? && Splits(cfg.limits, chunk, depth) then
              && leaves == PartLeaves(cfg.limits, Attempting(cfg, find, model), chunk, start, 0, depth, path)
              && report == [SplitInto(path, |Parts(cfg.limits, chunk)|)] + PartReports(cfg, find, model, chunk, 0, depth, path)
            else Found(leaves) == [] && report == [ExtractorError(path)]
  {
    hide Parts, Accepted, Rejected, AllowedIn;
    SingleLeaf(Leaf(start, chunk, path, Attempt(cfg, find, model, chunk, path)));
  }

  class Discovery {
    const cfg: Config
    const find: Finder
    const model: Model
    var merged: map<Key, Relation>
    var diagnostics: seq<Diagnostic>

    constructor (cfg: Config, find: Finder, model: Model)
      ensures this.cfg == cfg && this.find == find && this.model == model && merged == map[] && diagnostics == []
    {
      this.cfg, this.find, this.model, merged, diagnostics := cfg, find, model, map[], [];
    }

    method AllowedEntities(chunk: string) returns (allowed: Allowed)
      ensures allowed == AllowedIn(cfg, find, chunk)
    {
      hide Allow, Detected;
      var ms := DetectMentions(find(chunk), cfg.normalize);
      allowed := map[];
      var i := 0;
      while i < |ms|
        invariant 0 <= i <= |ms| && allowed == AllowedOf(ms[..i], cfg.normalize)
      {
        assert ms[..i + 1][..i] == ms[..i];
        allowed := Allow(allowed, ms[i], cfg.normalize);
        i := i + 1;
      }
      assert ms[..i] == ms;
    }

    method MergeRelations(rs: seq<Relation>)
      modifies this`merged
      ensures merged == MergeAll(cfg, old(merged), rs)
    {
      var i := 0;
      while i < |rs|
        invariant 0 <= i <= |rs| && merged == MergeAll(cfg, old(merged), rs[..i])
      {
        assert rs[..i + 1][..i] == rs[..i];
        var key := KeyOf(cfg, rs[i]);
        if key !in merged || rs[i].confidence > merged[key].confidence {
          merged := merged[key := rs[i]];
        }
        i := i + 1;
      }
      assert rs[..i] == rs;
    }

    method ProcessChunk(chunk: string, ghost start: nat, depth: nat, path: Label)
      requires path != []
      modifies this`merged, this`diagnostics
      ensures var leaves := Leaves(cfg.limits, Attempting(cfg, find, model), chunk, start, depth, path);
              merged == MergeAll(cfg, old(merged), Found(leaves))
      ensures diagnostics == old(diagnostics) + Report(cfg, find, model, chunk, depth, path)
      decreases Height(cfg.limits, depth), 1
    {
      hide Parts, MergeAll, Accepted, Rejected, AllowedIn, Leaves, PartLeaves, Report, PartReports, Found, Attempting;
      OneChunk(cfg, find, model, chunk, start, depth, path);
      NoRelations(cfg, merged);
      var allowed := AllowedEntities(chunk);
      if |allowed| < 2 {
        return;
      }
      match model(chunk, path) {
        case Answer(items) =>
          var observations, rejections := ValidatedRelations(cfg, items, chunk, allowed, path[0]);
          diagnostics := diagnostics + rejections;
          MergeRelations(observations);
          return;
        case InvalidStructure =>
          if depth < cfg.limits.maxDepth && |chunk| > cfg.limits.minChars {
            var parts := Parts(cfg.limits, chunk);
            if |parts| >= 2 {
              diagnostics := diagnostics + [SplitInto(path, |parts|)];
              ProcessParts(chunk, start, depth, path);
              ReportJoined(old(diagnostics), [SplitInto(path, |parts|)], PartReports(cfg, find, model, chunk, 0, depth, path));
              return;
            }
          }
        case OtherFailure =>
      }
      diagnostics := diagnostics + [ExtractorError(path)];
    }

    method ProcessParts(chunk: string, ghost start: nat, depth: nat, path: Label)
      requires depth < cfg.limits.maxDepth && path != []
      modifies this`merged, this`diagnostics
      ensures var leaves := PartLeaves(cfg.limits, Attempting(cfg, find, model), chunk, start, 0, depth, path);
              merged == MergeAll(cfg, old(merged), Found(leaves))
      ensures diagnostics == old(diagnostics) + PartReports(cfg, find, model, chunk, 0, depth, path)
      decreases Height(cfg.limits, depth), 0
    {
      hide Parts, Leaves, MergeAll, Found, Report, Slice, Attempting;
      var parts := Parts(cfg.limits, chunk);
      ghost var ex := Attempting(cfg, find, model);
      ghost var all := PartLeaves(cfg.limits, ex, chunk, start, 0, depth, path);
      NoLeaves();
      var k := 0;
      while k < |parts|
        invariant 0 <= k <= |parts|
        invariant MergeAll(cfg, merged, Found(PartLeaves(cfg.limits, ex, chunk, start, k, depth, path)))
                  == MergeAll(cfg, old(merged), Found(all))
        invariant diagnostics + PartReports(cfg, find, model, chunk, k, depth, path)
                  == old(diagnostics) + PartReports(cfg, find, model, chunk, 0, depth, path)
      {
        ghost var before := merged;
        ghost var first := Leaves(cfg.limits, ex, Slice(chunk, parts[k]), start + parts[k].start, depth + 1, path + [k + 1]);
        ghost var rest := PartLeaves(cfg.limits, ex, chunk, start, k + 1, depth, path);
        LeavesConcat(first, rest);
        MergeAllConcat(cfg, before, Found(first), Found(rest));
        ProcessChunk(Slice(chunk, parts[k]), start + parts[k].start, depth + 1, path + [k + 1]);
        k := k + 1;
      }
      NoRelations(cfg, merged);
    }

    method Discover(text: string)
      requires merged == map[] && diagnostics == []
      modifies this`merged, this`diagnostics
      ensures !cfg.enabled || Strip(text) == "" ==> merged == map[] && diagnostics == []
      ensures cfg.enabled && Strip(text) != "" ==>
                && merged == Discovered(cfg, find, model, text)
                && diagnostics == RootReports(cfg, find, model, text, RootWindows(cfg, text), 0)
    {
      hide Leaves, MergeAll, Found, Report, Slice, Attempting, RootWindows, Strip;
      if !cfg.enabled || Strip(text) == "" {
        return;
      }
      var ws := RootWindows(cfg, text);
      ghost var ex := Attempting(cfg, find, model);
      ghost var all := RootLeaves(cfg.limits, ex, text, ws, 0);
      NoLeaves();
      var k := 0;
      while k < |ws|
        invariant 0 <= k <= |ws|
        invariant MergeAll(cfg, merged, Found(RootLeaves(cfg.limits, ex, text, ws, k))) == MergeAll(cfg, map[], Found(all))
        invariant diagnostics + RootReports(cfg, find, model, text, ws, k) == RootReports(cfg, find, model, text, ws, 0)
      {
        ghost var before := merged;
        ghost var first := Leaves(cfg.limits, ex, Slice(text, ws[k]), ws[k].start, 0, [k + 1]);
        ghost var rest := RootLeaves(cfg.limits, ex, text, ws, k + 1);
        LeavesConcat(first, rest);
        MergeAllConcat(cfg, before, Found(first), Found(rest));
        ProcessChunk(Slice(text, ws[k]), ws[k].start, 0, [k + 1]);
        k := k + 1;
      }
      NoRelations(cfg, merged);
    }
  }

  lemma SingleLeaf(leaf: Leaf<Relation>)
    ensures Found([leaf]) == if leaf.outcome.Extracted? then leaf.outcome.found else []
    ensures Failures([leaf]) == if leaf.outcome.Extracted? then [] else [leaf.path]
  {
    assert [leaf][0] == leaf && [leaf][1..] == [];
  }

  lemma NoLeaves()
    ensures Found<Relation>([]) == [] && Failures<Relation>([]) == []
  {
  }

  lemma NoRelations(cfg: Config, m: map<Key, Relation>)
    ensures MergeAll(cfg, m, []) == m
  {
  }

  // ----- the guarantee for a whole document -----

  /** What `Discover` leaves in `merged` for a non-blank text. */
  function Discovered(cfg: Config, find: Finder, model: Model, text: string): map<Key, Relation> {
    MergeAll(cfg, map[], Found(RootLeaves(cfg.limits, Attempting(cfg, find, model), text, RootWindows(cfg, text), 0)))
  }

  /** A form that lies in the evidence and was exactly resolved to `id` in the chunk. */
  ghost predicate NamedInEvidence(cfg: Config, find: Finder, chunk: string, id: string, evidence: string) {
    exists f :: f != "" && Contains(cfg.normalize(evidence), f)
                && ExactlyResolved(Selected(find(chunk), []), id, f, cfg.normalize)
  }

  lemma AttemptIsGrounded(cfg: Config, find: Finder, model: Model, chunk: string, path: Label, r: Relation)
    requires Attempt(cfg, find, model, chunk, path).Extracted? && r in Attempt(cfg, find, model, chunk, path).found
    ensures Grounded(cfg, r, chunk, AllowedIn(cfg, find, chunk))
    ensures NamedInEvidence(cfg, find, chunk, r.subjectId, r.evidence)
    ensures NamedInEvidence(cfg, find, chunk, r.objectId, r.evidence)
  {
    var allowed := AllowedIn(cfg, find, chunk);
    var items := model(chunk, path).items;
    AcceptedAreGrounded(cfg, items[..Min(cfg.maxPerChunk, |items|)], chunk, allowed, if path == [] then 0 else path[0]);
    FormsAreResolved(cfg, find, chunk, r.subjectId, r.evidence);
    FormsAreResolved(cfg, find, chunk, r.objectId, r.evidence);
  }

  lemma FormsAreResolved(cfg: Config, find: Finder, chunk: string, id: string, evidence: string)
    requires id in AllowedIn(cfg, find, chunk)
    requires FormIn(AllowedIn(cfg, find, chunk)[id].forms, cfg.normalize(evidence))
    ensures NamedInEvidence(cfg, find, chunk, id, evidence)
  {
    hide Contains, ExactlyResolved, Selected, Detected, AllowedOf;
    var hits := Selected(find(chunk), []);
    DetectedResolve(find(chunk), cfg.normalize);
    AllowedAreResolved(Detected(find(chunk), cfg.normalize), hits, cfg.normalize);
    var f :| f in AllowedIn(cfg, find, chunk)[id].forms && f != "" && Contains(cfg.normalize(evidence), f);
  }

  /**
    For every answer the model gives: each returned relation was found in one of the pieces processed, a
    contiguous part of the document, is grounded in it, connects two entities that were each exactly
    resolved in that piece under a form that stands in the evidence, and has the greatest confidence found
    for its key.
  */
  lemma EveryRelationIsGrounded(cfg: Config, find: Finder, model: Model, text: string, key: Key) returns (leaf: Leaf<Relation>)
    requires key in Discovered(cfg, find, model, text)
    ensures var r := Discovered(cfg, find, model, text)[key];
            && leaf in RootLeaves(cfg.limits, Attempting(cfg, find, model), text, RootWindows(cfg, text), 0)
            && leaf.outcome.Extracted? && r in leaf.outcome.found
            && PieceOf(leaf, text, 0)
            && Grounded(cfg, r, leaf.text, AllowedIn(cfg, find, leaf.text))
            && NamedInEvidence(cfg, find, leaf.text, r.subjectId, r.evidence)
            && NamedInEvidence(cfg, find, leaf.text, r.objectId, r.evidence)
            && KeyOf(cfg, r) == key
    ensures var leaves := RootLeaves(cfg.limits, Attempting(cfg, find, model), text, RootWindows(cfg, text), 0);
            forall x :: x in Found(leaves) && KeyOf(cfg, x) == key ==> x.confidence <= Discovered(cfg, find, model, text)[key].confidence
  {
    hide Leaves, Grounded, NamedInEvidence, ChunkWindows, PieceOf;
    var ws := RootWindows(cfg, text);
    var ex := Attempting(cfg, find, model);
    var leaves := RootLeaves(cfg.limits, ex, text, ws, 0);
    MergedIsBest(cfg, Found(leaves));
    var m := MergeAll(cfg, map[], Found(leaves));
    assert m == Discovered(cfg, find, model, text);
    var r := m[key];
    assert r in Found(leaves);
    leaf := FoundSomewhere(leaves, r);
    ChunksFit(text, cfg.chunkChars, cfg.overlapChars);
    assert forall i :: 0 <= i < |ws| ==> ws[i] in ChunkWindows(text, cfg.chunkChars, cfg.overlapChars);
    RootLeavesArePieces(cfg.limits, ex, text, ws, 0);
    AttemptIsGrounded(cfg, find, model, leaf.text, leaf.path, r);
  }
}
