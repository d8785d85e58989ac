/** The relation ontology: which predicates a document may yield between which entities. */
module Ontology {
  import opened Wrappers
  import opened Text

  /** `sources` and `subjectKinds`/`objectKinds` are unrestricted when empty. */
  datatype Spec = Spec(subjectTypes: set<string>, objectTypes: set<string>, sources: set<string>,
                       subjectKinds: set<string>, objectKinds: set<string>, cues: seq<string>)

  type Predicates = map<string, Spec>

  predicate FromDocuments(s: Spec) {
    s.sources == {} || "document" in s.sources
  }

  function DocumentPredicates(o: Predicates): Predicates {
    map name | name in o && FromDocuments(o[name]) :: o[name]
  }

  predicate KindAllowed(kinds: set<string>, kind: string) {
    kinds == {} || kind in kinds
  }

  predicate Fits(s: Spec, subjectType: string, subjectKind: string, objectType: string, objectKind: string) {
    && subjectType in s.subjectTypes && objectType in s.objectTypes
    && KindAllowed(s.subjectKinds, subjectKind) && KindAllowed(s.objectKinds, objectKind)
  }

  function Compatible(o: Predicates, subjectType: string, subjectKind: string,
                      objectType: string, objectKind: string): Predicates {
    map name | name in o && FromDocuments(o[name]) && Fits(o[name], subjectType, subjectKind, objectType, objectKind) :: o[name]
  }

  method CompatibleDocumentPredicates(o: Predicates, subjectType: string, subjectKind: string,
                                      objectType: string, objectKind: string) returns (out: Predicates)
    ensures out == Compatible(o, subjectType, subjectKind, objectType, objectKind)
  {
    out := map[];
    var candidates := DocumentPredicates(o);
    var names := candidates.Keys;
    while names != {}
      invariant names <= candidates.Keys
      invariant out == map name | name in candidates && name !in names &&
                                  Fits(candidates[name], subjectType, subjectKind, objectType, objectKind) :: candidates[name]
      decreases names
    {
      var name :| name in names;
      var spec := candidates[name];
      names := names - {name};
      if subjectType !in spec.subjectTypes {
        continue;
      }
      if objectType !in spec.objectTypes {
        continue;
      }
      if spec.subjectKinds != {} && subjectKind !in spec.subjectKinds {
        continue;
      }
      if spec.objectKinds != {} && objectKind !in spec.objectKinds {
        continue;
      }
      out := out[name := spec];
    }
  }

  datatype Reason = NotInOntology | NotDocumentExtractable | SubjectType | ObjectType | SubjectKind | ObjectKind | MissingCue

  predicate CueGiven(s: Spec, haystack: string, casefold: string -> string) {
    || (forall i :: 0 <= i < |s.cues| ==> Strip(s.cues[i]) == "")
    || exists i :: 0 <= i < |s.cues| && Strip(s.cues[i]) != "" && Contains(haystack, casefold(s.cues[i]))
  }

  /** The deterministic semantic check; `None` is acceptance. */
  function ValidateSemantics(o: Predicates, predicateKey: string, subjectType: string, subjectKind: string,
                             objectType: string, objectKind: string, relationText: string, evidenceText: string,
                             casefold: string -> string): Option<Reason>
  {
    if predicateKey !in o then Some(NotInOntology)
    else
      var s := o[predicateKey];
      if !FromDocuments(s) then Some(NotDocumentExtractable)
      else if subjectType !in s.subjectTypes then Some(SubjectType)
      else if objectType !in s.objectTypes then Some(ObjectType)
      else if s.subjectKinds != {} && subjectKind !in s.subjectKinds then Some(SubjectKind)
      else if s.objectKinds != {} && objectKind !in s.objectKinds then Some(ObjectKind)
      else if !CueGiven(s, casefold(relationText + "\n" + evidenceText), casefold) then Some(MissingCue)
      else None
  }

  /**
    The extractor's check and the curator's choice agree: a relation passes exactly when its predicate is
    one the curator could pick for the pair and, where the ontology lists cues, the text gives one.
  */
  lemma AcceptedIffCompatibleAndCued(o: Predicates, predicateKey: string, subjectType: string, subjectKind: string,
                                     objectType: string, objectKind: string, relationText: string, evidenceText: string,
                                     casefold: string -> string)
    ensures ValidateSemantics(o, predicateKey, subjectType, subjectKind, objectType, objectKind,
                              relationText, evidenceText, casefold).None? <==>
            && predicateKey in Compatible(o, subjectType, subjectKind, objectType, objectKind)
            && CueGiven(o[predicateKey], casefold(relationText + "\n" + evidenceText), casefold)
  {
  }

  /** Acceptance read off the ontology entry: every list that is not empty must have the value, of the cues one must occur. */
  lemma AcceptedIffEntryAllows(o: Predicates, predicateKey: string, subjectType: string, subjectKind: string,
                               objectType: string, objectKind: string, relationText: string, evidenceText: string,
                               casefold: string -> string)
    ensures ValidateSemantics(o, predicateKey, subjectType, subjectKind, objectType, objectKind,
                              relationText, evidenceText, casefold).None? <==>
            && predicateKey in o
            && var s := o[predicateKey];
            && (s.sources != {} ==> "document" in s.sources)
            && subjectType in s.subjectTypes && objectType in s.objectTypes
            && (s.subjectKinds != {} ==> subjectKind in s.subjectKinds) && (s.objectKinds != {} ==> objectKind in s.objectKinds)
            && ((exists c :: c in s.cues && Strip(c) != "") ==>
                  exists c :: c in s.cues && Strip(c) != "" && Contains(casefold(relationText + "\n" + evidenceText), casefold(c)))
  {
    hide Strip, Contains;
    if predicateKey in o {
      CueGivenIff(o[predicateKey], casefold(relationText + "\n" + evidenceText), casefold);
    }
    hide CueGiven;
  }

  lemma CueGivenIff(s: Spec, haystack: string, casefold: string -> string)
    ensures CueGiven(s, haystack, casefold) <==>
            ((exists c :: c in s.cues && Strip(c) != "") ==>
               exists c :: c in s.cues && Strip(c) != "" && Contains(haystack, casefold(c)))
  {
    hide Strip, Contains;
    forall i | 0 <= i < |s.cues| ensures s.cues[i] in s.cues {
    }
  }

  const REASONS: seq<Reason> := [NotInOntology, NotDocumentExtractable, SubjectType, ObjectType, SubjectKind, ObjectKind, MissingCue]

  /** What each reason complains about, whatever else is wrong. */
  predicate Applies(reason: Reason, o: Predicates, key: string, subjectType: string, subjectKind: string,
                    objectType: string, objectKind: string, haystack: string, casefold: string -> string)
  {
    if key !in o then reason == NotInOntology
    else
      match reason
      case NotInOntology => false
      case NotDocumentExtractable => o[key].sources != {} && "document" !in o[key].sources
      case SubjectType => subjectType !in o[key].subjectTypes
      case ObjectType => objectType !in o[key].objectTypes
      case SubjectKind => o[key].subjectKinds != {} && subjectKind !in o[key].subjectKinds
      case ObjectKind => o[key].objectKinds != {} && objectKind !in o[key].objectKinds
      case MissingCue =>
        && (exists c :: c in o[key].cues && Strip(c) != "")
        && forall c :: c in o[key].cues && Strip(c) != "" ==> !Contains(haystack, casefold(c))
  }

  /** The reason given is the first one that applies. */
  lemma ReasonIsFirst(o: Predicates, key: string, subjectType: string, subjectKind: string, objectType: string,
                      objectKind: string, relationText: string, evidenceText: string, casefold: string -> string, n: nat)
    requires n < |REASONS|
    ensures var haystack := casefold(relationText + "\n" + evidenceText);
            ValidateSemantics(o, key, subjectType, subjectKind, objectType, objectKind, relationText, evidenceText, casefold)
            == Some(REASONS[n]) <==>
            && Applies(REASONS[n], o, key, subjectType, subjectKind, objectType, objectKind, haystack, casefold)
            && forall m :: 0 <= m < n ==>
                 !Applies(REASONS[m], o, key, subjectType, subjectKind, objectType, objectKind, haystack, casefold)
  {
    hide Strip, Contains;
    if key in o {
      CueGivenIff(o[key], casefold(relationText + "\n" + evidenceText), casefold);
    }
    hide CueGiven;
    assert REASONS[0] == NotInOntology && REASONS[1] == NotDocumentExtractable && REASONS[2] == SubjectType
        && REASONS[3] == ObjectType && REASONS[4] == SubjectKind && REASONS[5] == ObjectKind && REASONS[6] == MissingCue;
  }
}
