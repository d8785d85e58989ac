/** What relation discovery returns, from the answers of the model: nothing acceptable is missed. */
module RelationRules {
  import opened Wrappers
  import opened Seqs
  import opened Text
  import opened Chunking
  import opened AdaptiveSplit
  import opened Mentions
  import opened RelationDiscovery

  /** The key under which an acceptable item is merged. */
  function ItemKey(cfg: Config, item: RawItem): Key
    requires item.RawItem?
  {
    Key(Strip(item.subjectId), NormalizePredicate(item.predicateName, cfg.fold), Strip(item.objectId), cfg.normalize(Strip(item.evidence)))
  }

  // ----- predicate names -----

  ghost predicate AllAlnum(s: string) {
    forall i :: 0 <= i < |s| ==> Alnum(s[i])
  }

  ghost predicate NoneAlnum(s: string) {
    forall i :: 0 <= i < |s| ==> !Alnum(s[i])
  }

  /** Words are kept, and what stands between them becomes one underscore. */
  lemma WordsAndRuns(word: string, run: string, rest: string, inRun: bool)
    requires AllAlnum(word) && NoneAlnum(run)
    ensures CollapseRuns(word + rest, inRun) == word + CollapseRuns(rest, inRun && word == "")
    ensures run != "" ==> CollapseRuns(run + rest, inRun) == (if inRun then "" else "_") + CollapseRuns(rest, true)
  {
    WordIsKept(word, rest, inRun);
    if run != "" {
      assert (run + rest)[1..] == run[1..] + rest;
      RunIsSwallowed(run[1..], rest);
    }
  }

  lemma {:induction false} WordIsKept(word: string, rest: string, inRun: bool)
    requires AllAlnum(word)
    ensures CollapseRuns(word + rest, inRun) == word + CollapseRuns(rest, inRun && word == "")
  {
    if word == "" {
      assert word + rest == rest;
    } else {
      assert (word + rest)[1..] == word[1..] + rest;
      WordIsKept(word[1..], rest, false);
    }
  }

  lemma {:induction false} RunIsSwallowed(run: string, rest: string)
    requires NoneAlnum(run)
    ensures CollapseRuns(run + rest, true) == CollapseRuns(rest, true)
  {
    if run == "" {
      assert run + rest == rest;
    } else {
      assert (run + rest)[1..] == run[1..] + rest;
      RunIsSwallowed(run[1..], rest);
    }
  }

  ghost predicate Underscores(s: string) {
    forall i :: 0 <= i < |s| ==> s[i] == '_'
  }

  /** What is stripped are underscores, and none is left at either end. */
  lemma {:induction false} StripsUnderscores(s: string) returns (front: string, back: string)
    ensures s == front + StripUnderscores(s) + back && Underscores(front) && Underscores(back)
    ensures var r := StripUnderscores(s); r == "" || (r[0] != '_' && r[|r| - 1] != '_')
  {
    front, back := "", "";
    if s != "" && s[0] == '_' {
      front, back := StripsUnderscores(s[1..]);
      assert s == [s[0]] + s[1..];
      front := "_" + front;
    } else if s != "" && s[|s| - 1] == '_' {
      front, back := StripsUnderscores(s[..|s| - 1]);
      assert s == s[..|s| - 1] + [s[|s| - 1]];
      back := back + "_";
    }
  }

  /** A name is the first 64 characters of the folded text in upper case, runs collapsed and outer underscores stripped. */
  lemma NameIs(value: string, fold: string -> string)
    ensures var core, name := StripUnderscores(CollapseRuns(fold(value), false)), NormalizePredicate(value, fold);
            && |name| == (if |core| < 64 then |core| else 64)
            && forall i :: 0 <= i < |name| ==>
                 name[i] == if 'a' <= core[i] <= 'z' then (core[i] as int - 'a' as int + 'A' as int) as char else core[i]
  {
    hide StripUnderscores, CollapseRuns;
  }

  // ----- entity types -----

  /** Person, organization, or anything else. */
  lemma BaseTypeIs(entityType: string)
    ensures BaseType(entityType) == "Person" <==> Upper(Strip(entityType)) == "PERSON"
    ensures BaseType(entityType) == "Organization" <==>
            Upper(Strip(entityType)) == "ORGANIZATION" || Upper(Strip(entityType)) == "ORGANIZATIONAL_UNIT"
    ensures BaseType(entityType) in {"Person", "Organization", "Entity"}
  {
    hide Strip, Upper;
    assert "Person"[0] == 'P' && "Organization"[0] == 'O' && "Entity"[0] == 'E';
    assert "PERSON"[0] == 'P' && "ORGANIZATION"[0] == 'O' && "ORGANIZATIONAL_UNIT"[0] == 'O';
  }

  // ----- nothing acceptable is missed -----

  /** Two different members make at least two. */
  lemma TwoMembers(allowed: Allowed, a: string, b: string)
    requires a in allowed && b in allowed && a != b
    ensures |allowed| >= 2
  {
    assert {a, b} <= allowed.Keys;
    assert allowed.Keys == {a, b} + (allowed.Keys - {a, b});
  }

  /** One attempt: without two allowed entities nothing is asked; an answer yields its acceptable items, up to the limit. */
  lemma AttemptIs(cfg: Config, find: Finder, model: Model, chunk: string, path: Label)
    ensures var allowed, outcome := AllowedIn(cfg, find, chunk), Attempt(cfg, find, model, chunk, path);
            if |allowed| < 2 then outcome == Extracted([])
            else
              match model(chunk, path)
              case InvalidStructure => outcome == Malformed
              case OtherFailure => outcome == Broken
              case Answer(items) =>
                && outcome.Extracted?
                && var n := if cfg.maxPerChunk < |items| then cfg.maxPerChunk else |items|;
                   RecordsAll(cfg, outcome.found, items[..n], chunk, allowed, if path == [] then 0 else path[0])
  {
    var allowed := AllowedIn(cfg, find, chunk);
    if model(chunk, path).Answer? {
      var items := model(chunk, path).items;
      AcceptedRecordsAll(cfg, items[..Min(cfg.maxPerChunk, |items|)], chunk, allowed, if path == [] then 0 else path[0]);
    }
    hide RecordsAll, Accepted, AllowedIn;
  }

  lemma {:induction false} FoundInLeaf<T>(leaves: seq<Leaf<T>>, leaf: Leaf<T>, x: T)
    requires leaf in leaves && leaf.outcome.Extracted? && x in leaf.outcome.found
    ensures x in Found(leaves)
  {
    if leaves[0] != leaf {
      FoundInLeaf(leaves[1..], leaf, x);
    }
  }

  lemma LeafIsAttempt(cfg: Config, find: Finder, model: Model, text: string, leaf: Leaf<Relation>)
    requires leaf in RootLeaves(cfg.limits, Attempting(cfg, find, model), text, RootWindows(cfg, text), 0)
    ensures leaf.outcome == Attempt(cfg, find, model, leaf.text, leaf.path)
  {
    var ws := RootWindows(cfg, text);
    ChunksFit(text, cfg.chunkChars, cfg.overlapChars);
    hide Leaves, ChunkWindows, Attempt, PieceOf;
    assert forall i :: 0 <= i < |ws| ==> ws[i] in ChunkWindows(text, cfg.chunkChars, cfg.overlapChars);
    RootLeavesArePieces(cfg.limits, Attempting(cfg, find, model), text, ws, 0);
  }

  lemma ItemIsRecorded(cfg: Config, out: seq<Relation>, items: seq<RawItem>, i: nat, chunk: string, allowed: Allowed, root: nat)
    returns (r: Relation)
    requires RecordsAll(cfg, out, items, chunk, allowed, root)
    requires i < |items| && items[i].RawItem? && Acceptable(cfg, items[i], chunk, allowed)
    ensures r in out && Records(cfg, r, items[i])
  {
    hide Acceptable, Records;
    KeepMembers(items, AcceptableIn(cfg, chunk, allowed), items[i]);
    var good := Keep(items, AcceptableIn(cfg, chunk, allowed));
    hide Keep;
    var j :| 0 <= j < |good| && good[j] == items[i];
    r := out[j];
  }

  /**
    Whatever the model answers: an acceptable item among the first ones of the answer to a processed piece is
    returned, under its own key and with at least its confidence.
  */
  lemma AcceptableIsReturned(cfg: Config, find: Finder, model: Model, text: string, leaf: Leaf<Relation>, i: nat)
    requires leaf in RootLeaves(cfg.limits, Attempting(cfg, find, model), text, RootWindows(cfg, text), 0)
    requires model(leaf.text, leaf.path).Answer?
    requires i < |model(leaf.text, leaf.path).items| && i < cfg.maxPerChunk && model(leaf.text, leaf.path).items[i].RawItem?
    requires Acceptable(cfg, model(leaf.text, leaf.path).items[i], leaf.text, AllowedIn(cfg, find, leaf.text))
    ensures var item, m := model(leaf.text, leaf.path).items[i], Discovered(cfg, find, model, text);
            && ItemKey(cfg, item) in m
            && (item.confidence.Number? && item.confidence.r <= 1.0 ==> item.confidence.r <= m[ItemKey(cfg, item)].confidence)
            && (item.confidence.NotANumber? || (item.confidence.Number? && item.confidence.r > 1.0) ==>
                  m[ItemKey(cfg, item)].confidence >= 1.0)
  {
    var items, allowed := model(leaf.text, leaf.path).items, AllowedIn(cfg, find, leaf.text);
    LeafIsAttempt(cfg, find, model, text, leaf);
    TwoMembers(allowed, Strip(items[i].subjectId), Strip(items[i].objectId));
    AttemptIs(cfg, find, model, leaf.text, leaf.path);
    hide Acceptable, Attempt, AllowedIn, RecordsAll, Strip, NormalizePredicate;
    var n := if cfg.maxPerChunk < |items| then cfg.maxPerChunk else |items|;
    var r := ItemIsRecorded(cfg, leaf.outcome.found, items[..n], i, leaf.text, allowed,
                            if leaf.path == [] then 0 else leaf.path[0]);
    var leaves := RootLeaves(cfg.limits, Attempting(cfg, find, model), text, RootWindows(cfg, text), 0);
    FoundInLeaf(leaves, leaf, r);
    MergedIsBest(cfg, Found(leaves));
    hide Found, RootLeaves, RootWindows, MergeAll, Attempting;
  }

  // ----- nothing rejected goes unreported -----

  /** The answer to the piece of this leaf reports `d`. */
  ghost predicate ReportedAt(cfg: Config, find: Finder, model: Model, leaf: Leaf<Relation>, d: Diagnostic) {
    d in AnswerReport(cfg, find, model, leaf.text, leaf.path)
  }

  lemma {:induction false} ReportedInChunk(cfg: Config, find: Finder, model: Model, chunk: string, start: nat, depth: nat,
                                           path: Label, d: Diagnostic)
    requires d.RejectedRelation?
    ensures d in Report(cfg, find, model, chunk, depth, path) <==>
            exists x :: x in Leaves(cfg.limits, Attempting(cfg, find, model), chunk, start, depth, path) && ReportedAt(cfg, find, model, x, d)
    decreases Height(cfg.limits, depth), 1, 0
  {
    hide Parts, Attempt, AnswerReport;
    var outcome := Attempt(cfg, find, model, chunk, path);
    if outcome.Malformed? && Splits(cfg.limits, chunk, depth) {
      ReportedInParts(cfg, find, model, chunk, start, 0, depth, path, d);
    } else {
      var leaf := Leaf(start, chunk, path, outcome);
      assert Leaves(cfg.limits, Attempting(cfg, find, model), chunk, start, depth, path) == [leaf];
      assert leaf in [leaf];
      FailedReportsNothing(cfg, find, model, chunk, path);
    }
  }

  lemma FailedReportsNothing(cfg: Config, find: Finder, model: Model, chunk: string, path: Label)
    ensures !Attempt(cfg, find, model, chunk, path).Extracted? ==> AnswerReport(cfg, find, model, chunk, path) == []
  {
    hide AllowedIn, Accepted, Rejected;
  }

  lemma {:induction false} ReportedInParts(cfg: Config, find: Finder, model: Model, chunk: string, start: nat, k: nat, depth: nat,
                                           path: Label, d: Diagnostic)
    requires d.RejectedRelation? && k <= |Parts(cfg.limits, chunk)| && depth < cfg.limits.maxDepth
    ensures d in PartReports(cfg, find, model, chunk, k, depth, path) <==>
            exists x :: x in PartLeaves(cfg.limits, Attempting(cfg, find, model), chunk, start, k, depth, path) &&
                        ReportedAt(cfg, find, model, x, d)
    decreases Height(cfg.limits, depth), 0, |Parts(cfg.limits, chunk)| - k
  {
    hide Parts, Leaves, Slice, Report, ReportedAt, Attempting;
    var parts := Parts(cfg.limits, chunk);
    if k < |parts| {
      ReportedInChunk(cfg, find, model, Slice(chunk, parts[k]), start + parts[k].start, depth + 1, path + [k + 1], d);
      ReportedInParts(cfg, find, model, chunk, start, k + 1, depth, path, d);
    }
  }

  /**
    A rejection is among the diagnostics exactly if it is in the report on the answer to some processed piece; that
    report lists every unacceptable object of the answer with the first objection to it.
  */
  lemma {:induction false} RejectionsAreReported(cfg: Config, find: Finder, model: Model, text: string, ws: seq<Window>, k: nat, d: Diagnostic)
    requires d.RejectedRelation? && k <= |ws|
    ensures d in RootReports(cfg, find, model, text, ws, k) <==>
            exists x :: x in RootLeaves(cfg.limits, Attempting(cfg, find, model), text, ws, k) && ReportedAt(cfg, find, model, x, d)
    decreases |ws| - k
  {
    hide Leaves, Slice, Report, ReportedAt, Attempting;
    if k < |ws| {
      ReportedInChunk(cfg, find, model, Slice(text, ws[k]), ws[k].start, 0, [k + 1], d);
      RejectionsAreReported(cfg, find, model, text, ws, k + 1, d);
    }
  }

  /** What the answer to one piece reports: where two entities are allowed, a rejection for every object that is not acceptable. */
  lemma AnswerReportIs(cfg: Config, find: Finder, model: Model, chunk: string, path: Label)
    ensures var allowed, report := AllowedIn(cfg, find, chunk), AnswerReport(cfg, find, model, chunk, path);
            if |allowed| < 2 || !model(chunk, path).Answer? then report == []
            else
              var items := model(chunk, path).items;
              var n := if cfg.maxPerChunk < |items| then cfg.maxPerChunk else |items|;
              RejectsAll(cfg, report, items[..n], chunk, allowed, if path == [] then 0 else path[0])
  {
    var allowed := AllowedIn(cfg, find, chunk);
    if model(chunk, path).Answer? {
      var items := model(chunk, path).items;
      RejectedRejectsAll(cfg, items[..Min(cfg.maxPerChunk, |items|)], chunk, allowed, if path == [] then 0 else path[0]);
    }
    hide RejectsAll, Rejected, AllowedIn;
  }
}
