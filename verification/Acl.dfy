/**
  Live authorization of grouped search results.

  A result may stand for several concrete files: its representative and the duplicates found by
  deduplication.  Every file id of every group is checked against the file server in bounded batches
  of boolean queries.  A visible representative keeps its visible duplicates; a denied one is replaced
  by its first visible duplicate, carrying over ranking fields only; otherwise the result is dropped.
*/
module Acl {
  import opened Wrappers
  import opened Seqs
  import opened Text
  import opened FileIdQuery

  // ----- dynamically typed records -----

  /** `Other` is any further value, with its rendering and its truth value. */
  datatype Val =
    | Null
    | Flag(b: bool)
    | Int(n: int)
    | Str(s: string)
    | Other(rendering: string, truthy: bool)
    | List(items: seq<Val>)
    | Dict(fields: Item)

  type Item = map<string, Val>

  predicate Truthy(v: Val) {
    match v
    case Null => false
    case Flag(b) => b
    case Int(n) => n != 0
    case Str(s) => s != ""
    case Other(_, truthy) => truthy
    case List(items) => items != []
    case Dict(fields) => fields != map[]
  }

  function Render(v: Val): string {
    match v
    case Null => "None"
    case Flag(b) => if b then "True" else "False"
    case Int(n) => if n >= 0 then Decimal(n) else "-" + Decimal(-n)
    case Str(s) => s
    case Other(rendering, _) => rendering
    case List(_) => "[...]"
    case Dict(_) => "{...}"
  }

  function Get(item: Item, key: string): Val {
    if key in item then item[key] else Null
  }

  /** `str(item.get(key) or "")`. */
  function TextOf(item: Item, key: string): string {
    if Truthy(Get(item, key)) then Render(item[key]) else ""
  }

  // ----- file ids -----

  /** The numeric id after the prefix `files:`. */
  function PrefixedId(raw: string): (id: Option<string>)
    ensures id.Some? ==> Digits(id.value)
  {
    if |raw| > 6 && raw[..6] == "files:" && Digits(raw[6..]) then Some(raw[6..]) else None
  }

  function DigitField(item: Item, key: string): (id: Option<string>)
    ensures id.Some? ==> Digits(id.value)
  {
    var value := Strip(TextOf(item, key));
    if Digits(value) then Some(value) else None
  }

  /** Which values are file ids: positive numbers as they are written, and texts that hold only digits once stripped. */
  lemma DigitFieldIs(item: Item, key: string)
    ensures DigitField(item, key) ==
            match Get(item, key)
            case Int(n) => if n > 0 then Some(Decimal(n)) else None
            case Str(s) => if Digits(Strip(s)) then Some(Strip(s)) else None
            case Other(text, truthy) => if truthy && Digits(Strip(text)) then Some(Strip(text)) else None
            case _ => None
  {
    NoDigits();
    if Get(item, key).Int? && Get(item, key).n > 0 {
      StripTight(Decimal(Get(item, key).n));
    } else if Get(item, key).Int? && Get(item, key).n < 0 {
      MinusIsNoDigit(Decimal(-Get(item, key).n));
    }
    hide Strip, Digits;
  }

  /** Nothing that is neither a number, nor a text, nor rendered from outside reads as digits. */
  lemma NoDigits()
    ensures !Digits(Strip("")) && !Digits(Strip("True"))
    ensures forall v: Val :: v.List? || v.Dict? ==> !Digits(Strip(Render(v)))
  {
    StripTight("True");
    StripTight("[...]");
    StripTight("{...}");
    hide Strip;
    assert !Digit("True"[0]) && !Digit("[...]"[0]) && !Digit("{...}"[0]);
  }

  lemma MinusIsNoDigit(digits: string)
    requires Digits(digits)
    ensures !Digits(Strip("-" + digits))
  {
    var s := "-" + digits;
    assert s[|s| - 1] == digits[|digits| - 1];
    StripTight(s);
    hide Strip;
    assert s[0] == '-';
  }

  function DocumentText(item: Item): string {
    if Truthy(Get(item, "document_id")) then TextOf(item, "document_id") else TextOf(item, "id")
  }

  function FileId(item: Item): (id: Option<string>)
    ensures id.Some? ==> Digits(id.value)
  {
    var prefixed := PrefixedId(Strip(DocumentText(item)));
    if prefixed.Some? then prefixed
    else if DigitField(item, "nextcloud_openfile_id").Some? then DigitField(item, "nextcloud_openfile_id")
    else if DigitField(item, "fileid").Some? then DigitField(item, "fileid")
    else DigitField(item, "file_id")
  }

  const OTHER_ID_KEYS: seq<string> := ["nextcloud_openfile_id", "fileid", "file_id"]

  /** The id field number `n` is the first of the other id fields that holds digits only. */
  predicate FirstOther(item: Item, n: nat) {
    && n < |OTHER_ID_KEYS| && Digits(Strip(TextOf(item, OTHER_ID_KEYS[n])))
    && forall m :: 0 <= m < n ==> !Digits(Strip(TextOf(item, OTHER_ID_KEYS[m])))
  }

  /**
    Which field gives the file id: the document id (or `id` when that is empty) if it is `files:` and
    digits, otherwise the first of the three other fields that holds digits; without any there is none.
  */
  lemma FileIdIff(item: Item)
    ensures var key := if Truthy(Get(item, "document_id")) then "document_id" else "id";
            forall id :: Strip(TextOf(item, key)) == "files:" + id && Digits(id) ==> FileId(item) == Some(id)
    ensures var key := if Truthy(Get(item, "document_id")) then "document_id" else "id";
            (forall id :: Digits(id) ==> Strip(TextOf(item, key)) != "files:" + id) ==>
              && (forall n: nat :: FirstOther(item, n) ==> FileId(item) == Some(Strip(TextOf(item, OTHER_ID_KEYS[n]))))
              && (FileId(item).None? <==> forall n :: 0 <= n < |OTHER_ID_KEYS| ==> !Digits(Strip(TextOf(item, OTHER_ID_KEYS[n]))))
  {
    hide Strip, TextOf, Truthy;
    var raw := Strip(DocumentText(item));
    forall id | raw == "files:" + id && Digits(id) ensures PrefixedId(raw) == Some(id) {
      assert raw[..6] == "files:" && raw[6..] == id;
    }
    if PrefixedId(raw).Some? {
      assert raw == "files:" + PrefixedId(raw).value;
    }
    hide Digits, PrefixedId;
    assert OTHER_ID_KEYS[0] == "nextcloud_openfile_id" && OTHER_ID_KEYS[1] == "fileid" && OTHER_ID_KEYS[2] == "file_id";
  }

  predicate IsVisible(item: Item, visible: set<string>) {
    FileId(item).Some? && FileId(item).value in visible
  }

  // ----- promotion of a visible duplicate -----

  const RANKING_KEYS: set<string> := {
    "rank", "final_rank", "score",
    "es_rank", "es_score", "elasticsearch_rank", "elasticsearch_score",
    "vector_rank", "vector_score", "graph_rank", "graph_score",
    "rrf", "rrf_rank", "rrf_score", "probe_rrf_score", "probe_hits",
    "reranker_score", "reranker_raw_score", "chunk_no", "exhaustive_required"
  }

  const IDENTITY_KEYS: set<string> := {
    "document_id", "id", "fileid", "file_id",
    "title", "path", "directory", "filename",
    "nextcloud_es_id", "nextcloud_openfile_id", "source_url",
    "document_date", "content_type", "content_hash", "source", "provider",
    "share_names", "owner", "users", "groups", "circles", "source_origin"
  }

  const GRAPH_KEYS: set<string> := {
    "graph_reason", "graph_entities", "graph_direct_relations",
    "graph_indirect_chains", "graph_relation_observations", "graph_relation_evidence"
  }

  function Restrict(item: Item, keys: set<string>): Item {
    map k | k in item && k in keys :: item[k]
  }

  /** Identity of the promoted duplicate, completed by a `document_id` when the duplicate has none. */
  function PromotedIdentity(representative: Item, variant: Item): Item {
    var promoted := (Restrict(representative, RANKING_KEYS) - IDENTITY_KEYS) + Restrict(variant, IDENTITY_KEYS);
    if FileId(variant).Some? && !Truthy(Get(promoted, "document_id"))
    then promoted["document_id" := Str("files:" + FileId(variant).value)]
    else promoted
  }

  function Snippet(variant: Item): string {
    if Truthy(Get(variant, "snippet")) then TextOf(variant, "snippet")
    else if Truthy(Get(variant, "es_snippet")) then TextOf(variant, "es_snippet")
    else if Truthy(Get(variant, "vector_snippet")) then TextOf(variant, "vector_snippet")
    else TextOf(variant, "graph_snippet")
  }

  function PromotedText(variant: Item): Item {
    var snippet := Snippet(variant);
    map[
      "snippet" := Str(snippet),
      "es_snippet" := Str(TextOf(variant, "es_snippet")),
      "vector_snippet" := Str(TextOf(variant, "vector_snippet")),
      "graph_snippet" := Str(TextOf(variant, "graph_snippet")),
      "context_text" := Str(if snippet != "" then snippet
                            else if Truthy(Get(variant, "title")) then TextOf(variant, "title")
                            else TextOf(variant, "path")),
      "context_enriched" := Flag(false),
      "acl_promoted_duplicate" := Flag(true)
    ]
  }

  function AsList(items: seq<Item>): Val {
    List(seq(|items|, i requires 0 <= i < |items| => Dict(items[i])))
  }

  function WithVariants(item: Item, variants: seq<Item>): Item {
    item["duplicate_variants" := AsList(variants)]["duplicate_count" := Int(1 + |variants|)]
  }

  function PromotedFields(representative: Item, variant: Item): Item {
    (PromotedIdentity(representative, variant) + PromotedText(variant)) - GRAPH_KEYS
  }

  function Promote(representative: Item, variant: Item, remaining: seq<Item>): Item {
    WithVariants(PromotedFields(representative, variant), remaining)
  }

  // ----- the specification: one line per result -----

  function Dicts(items: seq<Val>): seq<Item> {
    if items == [] then []
    else (if items[0].Dict? then [items[0].fields] else []) + Dicts(items[1..])
  }

  function Variants(item: Item): seq<Item> {
    var v := Get(item, "duplicate_variants");
    if v.List? then Dicts(v.items) else []
  }

  function VisibleIn(visible: set<string>): Item -> bool { item => IsVisible(item, visible) }

  function VisibleVariants(item: Item, visible: set<string>): seq<Item> {
    Keep(Variants(item), VisibleIn(visible))
  }

  function FilterItem(item: Item, visible: set<string>): seq<Item> {
    var kept := VisibleVariants(item, visible);
    if IsVisible(item, visible) then [WithVariants(item, kept)]
    else if kept != [] then [Promote(item, kept[0], kept[1..])]
    else []
  }

  function FilterAll(items: seq<Item>, visible: set<string>): seq<Item> {
    if items == [] then [] else FilterItem(items[0], visible) + FilterAll(items[1..], visible)
  }

  // ----- querying in batches -----

  /** The answer to one batch: the server's file list, an HTTP error status, or no answer at all. */
  datatype Reply = Answered | HttpStatus(code: int) | NoAnswer

  datatype AclError = IdentityRejected | BackendFailed

  datatype Decision = Decision(results: seq<Item>, checked: nat, authorized: nat)

  function IdList(id: Option<string>): seq<string> {
    if id.Some? then [id.value] else []
  }

  function VariantIds(variants: seq<Item>): seq<string> {
    if variants == [] then []
    else VariantIds(variants[..|variants| - 1]) + IdList(FileId(variants[|variants| - 1]))
  }

  /** Every file id a result stands for: its duplicates' and its own. */
  function ItemIds(item: Item): seq<string> {
    VariantIds(Variants(item)) + IdList(FileId(item))
  }

  function AllIds(results: seq<Item>): seq<string> {
    if results == [] then [] else AllIds(results[..|results| - 1]) + ItemIds(results[|results| - 1])
  }

  method CollectIds(results: seq<Item>) returns (fileIds: seq<string>)
    ensures fileIds == AllIds(results)
  {
    hide FileId, Variants;
    fileIds := [];
    var i := 0;
    while i < |results|
      invariant 0 <= i <= |results|
      invariant fileIds == AllIds(results[..i])
    {
      var variants := Variants(results[i]);
      var ofItem := [];
      var k := 0;
      while k < |variants|
        invariant 0 <= k <= |variants|
        invariant ofItem == VariantIds(variants[..k])
      {
        assert variants[..k + 1][..k] == variants[..k];
        ofItem := ofItem + IdList(FileId(variants[k]));
        k := k + 1;
      }
      assert variants[..k] == variants;
      assert results[..i + 1][..i] == results[..i];
      fileIds := fileIds + (ofItem + IdList(FileId(results[i])));
      i := i + 1;
    }
    assert results[..i] == results;
  }

  lemma {:induction false} VariantIdsAreDigits(variants: seq<Item>)
    ensures forall i :: 0 <= i < |VariantIds(variants)| ==> Digits(VariantIds(variants)[i])
  {
    hide FileId;
    if variants != [] {
      VariantIdsAreDigits(variants[..|variants| - 1]);
    }
  }

  lemma {:induction false} AllIdsAreDigits(results: seq<Item>)
    ensures forall i :: 0 <= i < |AllIds(results)| ==> Digits(AllIds(results)[i])
  {
    hide FileId, Variants;
    if results != [] {
      AllIdsAreDigits(results[..|results| - 1]);
      VariantIdsAreDigits(Variants(results[|results| - 1]));
    }
  }

  predicate RefusesIdentity(r: Reply) { r.HttpStatus? && (r.code == 401 || r.code == 403) }

  function Blame(r: Reply): AclError { if RefusesIdentity(r) then IdentityRejected else BackendFailed }

  ghost predicate FirstFailure(server: nat -> Reply, b: nat) {
    server(b) != Answered && forall c: nat :: c < b ==> server(c) == Answered
  }

  /** Ask the server batch by batch; the first failure aborts. `visible` is what the user may see. */
  method QueryBatches(ids: seq<string>, batchSize: nat, visible: set<string>, server: nat -> Reply)
    returns (authorized: Result<set<string>, AclError>)
    requires batchSize > 0 && forall i :: 0 <= i < |ids| ==> Digits(ids[i])
    ensures authorized.Ok? ==> forall id :: id in authorized.value <==> id in visible && id in ids
    ensures authorized.Err? <==> exists b: nat :: b * batchSize < |ids| && server(b) != Answered
    ensures authorized.Err? ==> exists b: nat :: FirstFailure(server, b) && authorized.error == Blame(server(b))
  {
    hide Rounds, Holds, Numeric, Unique, Digits, Strip, InnerNodes, Depth;
    var found: set<string> := {};
    var b := 0;
    while b * batchSize < |ids|
      invariant forall id :: id in found <==> id in visible && id in ids[..Min(b * batchSize, |ids|)]
      invariant forall c: nat :: c < b ==> server(c) == Answered
      decreases |ids| - b * batchSize
    {
      var offset := b * batchSize;
      var end := Min(offset + batchSize, |ids|);
      assert (b + 1) * batchSize == offset + batchSize;
      var batch := ids[offset..end];
      DigitsAreNumeric(batch);
      var tree := BuildFileIdSearch(batch);
      match server(b) {
        case HttpStatus(code) =>
          assert FirstFailure(server, b);
          return Err(if code == 401 || code == 403 then IdentityRejected else BackendFailed);
        case NoAnswer =>
          assert FirstFailure(server, b);
          return Err(BackendFailed);
        case Answered =>
      }
      found := found + set id | id in visible && Holds(tree.value, id);
      assert ids[..end] == ids[..offset] + batch;
      b := b + 1;
    }
    LaterBatchesAreEmpty(b, batchSize, |ids|);
    authorized := Ok(found);
    assert ids[..|ids|] == ids;
  }

  lemma LaterBatchesAreEmpty(b: nat, batchSize: nat, n: nat)
    requires b * batchSize >= n
    ensures forall c: nat :: c >= b ==> c * batchSize >= n
  {
    forall c: nat | c >= b ensures c * batchSize >= n {
      assert (c - b) * batchSize >= 0;
    }
  }

  /** The two visible sets agree on these ids. */
  ghost predicate AgreeOn(ids: seq<string>, a: set<string>, b: set<string>) {
    forall id :: id in ids ==> (id in a <==> id in b)
  }

  lemma {:induction false} VariantIdListed(variants: seq<Item>, v: Item)
    requires v in variants && FileId(v).Some?
    ensures FileId(v).value in VariantIds(variants)
  {
    hide FileId;
    var n := |variants| - 1;
    if v in variants[..n] {
      VariantIdListed(variants[..n], v);
    }
  }

  lemma VariantsAgree(variants: seq<Item>, a: set<string>, b: set<string>)
    requires AgreeOn(VariantIds(variants), a, b)
    ensures Keep(variants, VisibleIn(a)) == Keep(variants, VisibleIn(b))
  {
    hide FileId, VariantIds;
    forall v | v in variants ensures VisibleIn(a)(v) <==> VisibleIn(b)(v) {
      if FileId(v).Some? {
        VariantIdListed(variants, v);
      }
    }
    KeepSame(variants, VisibleIn(a), VisibleIn(b));
  }

  /** The answer for a result depends on the visibility of its own file ids only. */
  lemma ItemAgrees(item: Item, a: set<string>, b: set<string>)
    requires AgreeOn(ItemIds(item), a, b)
    ensures FilterItem(item, a) == FilterItem(item, b)
  {
    hide FileId, Variants;
    assert forall id :: id in VariantIds(Variants(item)) ==> id in ItemIds(item);
    assert FileId(item).Some? ==> IdList(FileId(item))[0] in ItemIds(item);
    VariantsAgree(Variants(item), a, b);
  }

  lemma AgreeSplit(xs: seq<string>, ys: seq<string>, a: set<string>, b: set<string>)
    requires AgreeOn(xs + ys, a, b)
    ensures AgreeOn(xs, a, b) && AgreeOn(ys, a, b)
  {
    assert forall id :: id in xs || id in ys ==> id in xs + ys;
  }

  lemma {:induction false} AllAgree(results: seq<Item>, a: set<string>, b: set<string>)
    requires AgreeOn(AllIds(results), a, b)
    ensures FilterAll(results, a) == FilterAll(results, b)
  {
    hide AgreeOn, ItemIds, FilterItem;
    if results != [] {
      var n := |results| - 1;
      AgreeSplit(AllIds(results[..n]), ItemIds(results[n]), a, b);
      hide FilterAll, AllIds;
      AllAgree(results[..n], a, b);
      ItemAgrees(results[n], a, b);
      FilterAllAppend(results[..n], results[n], a);
      FilterAllAppend(results[..n], results[n], b);
      assert results == results[..n] + [results[n]];
    }
  }

  lemma {:induction false} FilterAllAppend(items: seq<Item>, item: Item, visible: set<string>)
    ensures FilterAll(items + [item], visible) == FilterAll(items, visible) + FilterItem(item, visible)
  {
    hide FilterItem;
    if items == [] {
      assert items + [item] == [item];
      assert FilterAll([], visible) == [];
    } else {
      assert (items + [item])[1..] == items[1..] + [item];
      FilterAllAppend(items[1..], item, visible);
    }
  }

  lemma {:induction false} NothingVisible(results: seq<Item>)
    ensures FilterAll(results, {}) == []
  {
    if results != [] {
      NothingVisible(results[1..]);
      KeepNone(Variants(results[0]), VisibleIn({}));
    }
  }

  /**
    The batched check.  Whenever no batch fails, the output is the per-result specification for the
    visible ids, whatever the batch size; any failed batch yields no result at all.
  */
  method Authorize(results: seq<Item>, batchSize: nat, visible: set<string>, server: nat -> Reply)
    returns (decision: Result<Decision, AclError>)
    requires batchSize > 0
    ensures decision.Ok? ==> decision.value.results == FilterAll(results, visible)
    ensures decision.Ok? ==> EntriesFor(results, decision.value.results, visible)
    ensures decision.Ok? ==> decision.value.checked == |results| && decision.value.authorized == |decision.value.results|
    ensures decision.Err? <==> exists b: nat :: b * batchSize < |Unique(AllIds(results))| && server(b) != Answered
    ensures decision.Err? ==> exists b: nat :: FirstFailure(server, b) && decision.error == Blame(server(b))
  {
    hide FilterItem, AllIds, FilterAll, EntriesFor;
    FilterAllEntries(results, visible);
    var fileIds := CollectIds(results);
    AllIdsAreDigits(results);
    if fileIds == [] {
      AllAgree(results, {}, visible);
      NothingVisible(results);
      return Ok(Decision([], |results|, 0));
    }
    var unique := Unique(fileIds);
    assert forall i :: 0 <= i < |unique| ==> unique[i] in fileIds;
    var authorized := QueryBatches(unique, batchSize, visible, server);
    if authorized.Err? {
      return Err(authorized.error);
    }
    AllAgree(results, authorized.value, visible);
    var filtered := FilterGroups(results, authorized.value);
    decision := Ok(Decision(filtered, |results|, |filtered|));
  }

  method FilterGroups(results: seq<Item>, authorized: set<string>) returns (filtered: seq<Item>)
    ensures filtered == FilterAll(results, authorized) && EntriesFor(results, filtered, authorized)
  {
    FilterAllEntries(results, authorized);
    hide EntriesFor;
    hide Variants, FileId, Promote, WithVariants;
    filtered := [];
    var i := 0;
    assert FilterAll([], authorized) == [];
    while i < |results|
      invariant 0 <= i <= |results|
      invariant filtered == FilterAll(results[..i], authorized)
    {
      var item := results[i];
      var visibleVariants := Keep(Variants(item), VisibleIn(authorized));
      assert visibleVariants == VisibleVariants(item, authorized);
      FilterAllAppend(results[..i], item, authorized);
      assert results[..i + 1] == results[..i] + [item];
      if IsVisible(item, authorized) {
        filtered := filtered + [WithVariants(item, visibleVariants)];
      } else if visibleVariants != [] {
        filtered := filtered + [Promote(item, visibleVariants[0], visibleVariants[1..])];
      }
      i := i + 1;
    }
    assert results[..i] == results;
  }

  // ----- the authorization boundary -----

  /** Everything that leaves the boundary is visible: each result and each of its duplicates. */
  ghost predicate Authorized(item: Item, visible: set<string>) {
    IsVisible(item, visible) && forall v :: v in Variants(item) ==> IsVisible(v, visible)
  }

  lemma {:induction false} DictsOfList(items: seq<Item>)
    ensures Dicts(AsList(items).items) == items
  {
    if items != [] {
      DictsOfList(items[1..]);
      assert AsList(items).items[1..] == AsList(items[1..]).items;
      assert items == [items[0]] + items[1..];
    }
  }

  /** A value that is no record is passed over, wherever it stands in the list. */
  lemma {:induction false} OthersVanish(a: seq<Val>, other: Val, b: seq<Val>)
    requires !other.Dict?
    ensures Dicts(a + [other] + b) == Dicts(a + b)
  {
    if a == [] {
      assert a + [other] + b == [other] + b && ([other] + b)[1..] == b && a + b == b;
    } else {
      assert (a + [other] + b)[1..] == a[1..] + [other] + b && (a + b)[1..] == a[1..] + b;
      OthersVanish(a[1..], other, b);
    }
  }

  lemma WithVariantsReads(item: Item, variants: seq<Item>)
    ensures Variants(WithVariants(item, variants)) == variants
    ensures FileId(WithVariants(item, variants)) == FileId(item)
  {
    DictsOfList(variants);
    var r := WithVariants(item, variants);
    SameIdKeys(r, item);
  }

  ghost predicate AgreeOnIdKeys(a: Item, b: Item) {
    && Get(a, "document_id") == Get(b, "document_id") && Get(a, "id") == Get(b, "id")
    && AgreeOnOpenFileKeys(a, b)
  }

  ghost predicate AgreeOnOpenFileKeys(a: Item, b: Item) {
    && Get(a, "nextcloud_openfile_id") == Get(b, "nextcloud_openfile_id")
    && Get(a, "fileid") == Get(b, "fileid") && Get(a, "file_id") == Get(b, "file_id")
  }

  lemma SameIdKeys(a: Item, b: Item)
    requires AgreeOnIdKeys(a, b)
    ensures FileId(a) == FileId(b)
  {
    hide Strip, PrefixedId, Digits, Render, Truthy;
    SameText(a, b, "document_id");
    SameText(a, b, "id");
    SameText(a, b, "nextcloud_openfile_id");
    SameText(a, b, "fileid");
    SameText(a, b, "file_id");
    hide TextOf, Get;
  }

  lemma SameText(a: Item, b: Item, key: string)
    requires Get(a, key) == Get(b, key)
    ensures TextOf(a, key) == TextOf(b, key)
  {
  }

  lemma PrefixedRoundTrip(id: string)
    requires Digits(id)
    ensures PrefixedId(Strip("files:" + id)) == Some(id)
  {
    var raw := "files:" + id;
    assert raw[|raw| - 1] == id[|id| - 1];
    StripTight(raw);
    assert raw[6..] == id && raw[..6] == "files:";
  }

  /** An identity key that is not rewritten by the text fields. */
  ghost predicate PureIdentity(key: string) {
    key in IDENTITY_KEYS && key !in GRAPH_KEYS && forall v: Item :: key !in PromotedText(v)
  }

  lemma IdKeysArePureIdentity()
    ensures PureIdentity("document_id") && PureIdentity("id")
    ensures PureIdentity("nextcloud_openfile_id") && PureIdentity("fileid") && PureIdentity("file_id")
  {
    hide PromotedText;
    forall v: Item ensures PromotedText(v).Keys == TEXT_KEYS {
      PromotedTextKeys(v);
    }
    assert forall key, v: Item :: key in PromotedText(v) <==> key in PromotedText(v).Keys;
    assert {"document_id", "id", "nextcloud_openfile_id", "fileid", "file_id"} !! TEXT_KEYS;
  }

  lemma PromotedFieldRead(representative: Item, variant: Item, key: string)
    requires PureIdentity(key) && FileId(variant).Some?
    ensures Get(PromotedFields(representative, variant), key) ==
            if key == "document_id" && !Truthy(Get(variant, key))
            then Str("files:" + FileId(variant).value) else Get(variant, key)
  {
    hide FileId, PromotedText, Truthy;
  }

  /** A promoted result is identified with exactly the duplicate it was built from. */
  lemma PromotedHasVariantId(representative: Item, variant: Item, remaining: seq<Item>)
    requires FileId(variant).Some?
    ensures FileId(Promote(representative, variant, remaining)) == FileId(variant)
    ensures Variants(Promote(representative, variant, remaining)) == remaining
  {
    var fields := PromotedFields(representative, variant);
    WithVariantsReads(fields, remaining);
    IdKeysArePureIdentity();
    PromotedFieldRead(representative, variant, "document_id");
    PromotedFieldRead(representative, variant, "id");
    PromotedFieldRead(representative, variant, "nextcloud_openfile_id");
    PromotedFieldRead(representative, variant, "fileid");
    PromotedFieldRead(representative, variant, "file_id");
    hide PromotedFields, Get, Strip, WithVariants;
    if Truthy(Get(variant, "document_id")) {
      SameIdKeys(fields, variant);
    } else {
      PrefixedIdWins(fields, FileId(variant).value);
    }
  }

  const TEXT_KEYS: set<string> := {
    "snippet", "es_snippet", "vector_snippet", "graph_snippet", "context_text", "context_enriched", "acl_promoted_duplicate"
  }

  /** Where every field of a promoted result comes from; fields of no listed kind are dropped. */
  lemma PromotedKeys(representative: Item, variant: Item, remaining: seq<Item>, key: string)
    requires FileId(variant).Some?
    ensures var r := Promote(representative, variant, remaining);
            if key == "duplicate_variants" then key in r && r[key] == AsList(remaining)
            else if key == "duplicate_count" then key in r && r[key] == Int(1 + |remaining|)
            else if key in GRAPH_KEYS then key !in r
            else if key in TEXT_KEYS then key in r && r[key] == PromotedText(variant)[key]
            else if key == "document_id" then
              key in r && r[key] == if Truthy(Get(variant, key)) then variant[key] else Str("files:" + FileId(variant).value)
            else if key in IDENTITY_KEYS then (key in r <==> key in variant) && Get(r, key) == Get(variant, key)
            else if key in RANKING_KEYS then (key in r <==> key in representative) && Get(r, key) == Get(representative, key)
            else key !in r
  {
    hide FileId, AsList;
    PromotedTextKeys(variant);
    hide PromotedText;
    assert key == "document_id" ==> key in IDENTITY_KEYS && key !in TEXT_KEYS && key !in GRAPH_KEYS;
  }

  lemma PromotedTextKeys(variant: Item)
    ensures PromotedText(variant).Keys == TEXT_KEYS
    ensures PromotedText(variant)["context_enriched"] == Flag(false)
    ensures PromotedText(variant)["acl_promoted_duplicate"] == Flag(true)
  {
    hide Snippet, TextOf;
  }

  const SNIPPET_KEYS: seq<string> := ["snippet", "es_snippet", "vector_snippet", "graph_snippet"]

  /** Field number `n` is the first of the snippet fields with a true value. */
  predicate FirstSnippet(variant: Item, n: nat) {
    && n < |SNIPPET_KEYS| && Truthy(Get(variant, SNIPPET_KEYS[n]))
    && forall m :: 0 <= m < n ==> !Truthy(Get(variant, SNIPPET_KEYS[m]))
  }

  /** The snippet is the first of four fields that says something; the context text falls back on title and path. */
  lemma PromotedSnippet(variant: Item)
    ensures var text := PromotedText(variant);
            && text["es_snippet"] == Str(TextOf(variant, "es_snippet"))
            && text["vector_snippet"] == Str(TextOf(variant, "vector_snippet"))
            && text["graph_snippet"] == Str(TextOf(variant, "graph_snippet"))
            && (forall n: nat :: FirstSnippet(variant, n) ==> text["snippet"] == Str(TextOf(variant, SNIPPET_KEYS[n])))
            && ((forall n :: 0 <= n < |SNIPPET_KEYS| ==> !Truthy(Get(variant, SNIPPET_KEYS[n]))) ==> text["snippet"] == Str(""))
            && text["context_text"] ==
               if text["snippet"] != Str("") then text["snippet"]
               else Str(if Truthy(Get(variant, "title")) then TextOf(variant, "title") else TextOf(variant, "path"))
  {
    assert TextOf(variant, "graph_snippet") == if Truthy(Get(variant, "graph_snippet")) then Render(variant["graph_snippet"]) else "";
    hide TextOf, Truthy, Get;
    assert SNIPPET_KEYS[0] == "snippet" && SNIPPET_KEYS[1] == "es_snippet" && SNIPPET_KEYS[2] == "vector_snippet"
        && SNIPPET_KEYS[3] == "graph_snippet";
  }

  lemma PrefixedIdWins(item: Item, id: string)
    requires Digits(id) && Get(item, "document_id") == Str("files:" + id)
    ensures FileId(item) == Some(id)
  {
    PrefixedRoundTrip(id);
    hide PrefixedId, Strip;
    assert DocumentText(item) == "files:" + id;
  }

  lemma VisibleVariantsVisible(item: Item, visible: set<string>)
    ensures forall v :: v in VisibleVariants(item, visible) ==> v in Variants(item) && IsVisible(v, visible)
  {
    forall v | v in VisibleVariants(item, visible) ensures v in Variants(item) && IsVisible(v, visible) {
      KeepMembers(Variants(item), VisibleIn(visible), v);
    }
  }

  lemma ItemIsAuthorized(item: Item, visible: set<string>)
    ensures forall r :: r in FilterItem(item, visible) ==> Authorized(r, visible)
  {
    hide FileId, Variants, Promote, WithVariants;
    var kept := VisibleVariants(item, visible);
    VisibleVariantsVisible(item, visible);
    WithVariantsReads(item, kept);
    if kept != [] {
      assert kept[0] in kept && forall v :: v in kept[1..] ==> v in kept;
      PromotedHasVariantId(item, kept[0], kept[1..]);
    }
  }

  lemma {:induction false} OnlyVisibleLeaves(items: seq<Item>, visible: set<string>)
    ensures forall r :: r in FilterAll(items, visible) ==> Authorized(r, visible)
  {
    hide Authorized, FilterItem;
    if items != [] {
      OnlyVisibleLeaves(items[1..], visible);
      ItemIsAuthorized(items[0], visible);
    }
  }

  // ----- what comes out, entry by entry -----

  /** The result itself or one of its duplicates may be shown. */
  ghost predicate IsRepresented(item: Item, visible: set<string>) {
    || (FileId(item).Some? && FileId(item).value in visible)
    || exists v :: v in Variants(item) && FileId(v).Some? && FileId(v).value in visible
  }

  ghost function Represented(visible: set<string>): Item -> bool { item => IsRepresented(item, visible) }

  /** Duplicate number `n` is the first one that may be shown. */
  ghost predicate FirstVisible(variants: seq<Item>, n: nat, visible: set<string>) {
    && n < |variants| && FileId(variants[n]).Some? && FileId(variants[n]).value in visible
    && forall m :: 0 <= m < n ==> FileId(variants[m]).None? || FileId(variants[m]).value !in visible
  }

  const DUPLICATE_KEYS: set<string> := {"duplicate_variants", "duplicate_count"}

  /** A result that may be shown stays itself, with its visible duplicates in order. */
  ghost predicate StaysItself(item: Item, entry: Item, visible: set<string>) {
    && FileId(entry) == FileId(item) && entry - DUPLICATE_KEYS == item - DUPLICATE_KEYS
    && Variants(entry) == Keep(Variants(item), VisibleIn(visible))
    && Get(entry, "duplicate_count") == Int(1 + |Variants(entry)|)
  }

  /** The place of a denied result is taken by duplicate number `n`, with the visible ones after it in order. */
  ghost predicate TakenBy(item: Item, entry: Item, n: nat, visible: set<string>)
    requires n < |Variants(item)|
  {
    && FileId(entry) == FileId(Variants(item)[n])
    && Variants(entry) == Keep(Variants(item)[n + 1..], VisibleIn(visible))
    && entry == Promote(item, Variants(item)[n], Variants(entry))
  }

  /** The entry that stands for a represented result. */
  ghost predicate EntryFor(item: Item, entry: Item, visible: set<string>) {
    if FileId(item).Some? && FileId(item).value in visible then StaysItself(item, entry, visible)
    else exists n: nat :: FirstVisible(Variants(item), n, visible) && TakenBy(item, entry, n, visible)
  }

  /** One entry, in order, for every result of which anything may be shown, and nothing else. */
  ghost predicate EntriesFor(results: seq<Item>, out: seq<Item>, visible: set<string>) {
    var shown := Keep(results, Represented(visible));
    |out| == |shown| && forall j :: 0 <= j < |out| ==> EntryFor(shown[j], out[j], visible)
  }

  lemma {:induction false} FirstVisibleSplits(variants: seq<Item>, n: nat, visible: set<string>)
    requires FirstVisible(variants, n, visible)
    ensures Keep(variants, VisibleIn(visible)) == [variants[n]] + Keep(variants[n + 1..], VisibleIn(visible))
  {
    hide FileId;
    if n > 0 {
      assert !VisibleIn(visible)(variants[0]);
      assert variants[1..][n - 1 + 1..] == variants[n + 1..];
      FirstVisibleSplits(variants[1..], n - 1, visible);
    }
  }

  /** The first visible duplicate, or the length when there is none. */
  lemma FirstVisibleExists(variants: seq<Item>, visible: set<string>) returns (n: nat)
    ensures n <= |variants| && (n < |variants| ==> FirstVisible(variants, n, visible))
    ensures n == |variants| ==> forall v :: v in variants ==> FileId(v).None? || FileId(v).value !in visible
  {
    hide FileId;
    n := 0;
    while n < |variants| && !IsVisible(variants[n], visible)
      invariant n <= |variants|
      invariant forall m :: 0 <= m < n ==> FileId(variants[m]).None? || FileId(variants[m]).value !in visible
    {
      n := n + 1;
    }
  }

  lemma VisibleEntry(item: Item, visible: set<string>)
    requires FileId(item).Some? && FileId(item).value in visible
    ensures var out := FilterItem(item, visible); |out| == 1 && StaysItself(item, out[0], visible)
  {
    var kept := VisibleVariants(item, visible);
    WithVariantsReads(item, kept);
    hide FileId, Variants, AsList, Keep;
    assert WithVariants(item, kept) - DUPLICATE_KEYS == item - DUPLICATE_KEYS;
  }

  lemma PromotedEntry(item: Item, n: nat, visible: set<string>)
    requires FileId(item).None? || FileId(item).value !in visible
    requires FirstVisible(Variants(item), n, visible)
    ensures var out := FilterItem(item, visible); |out| == 1 && TakenBy(item, out[0], n, visible)
  {
    var variants := Variants(item);
    FirstVisibleSplits(variants, n, visible);
    PromotedHasVariantId(item, variants[n], Keep(variants[n + 1..], VisibleIn(visible)));
    hide FileId, Variants, Promote, Keep;
  }

  lemma FilterItemEntry(item: Item, visible: set<string>)
    ensures var out := FilterItem(item, visible);
            if IsRepresented(item, visible) then |out| == 1 && EntryFor(item, out[0], visible) else out == []
  {
    var n := FirstVisibleExists(Variants(item), visible);
    if FileId(item).Some? && FileId(item).value in visible {
      VisibleEntry(item, visible);
    } else if n < |Variants(item)| {
      assert Variants(item)[n] in Variants(item);
      PromotedEntry(item, n, visible);
    } else {
      KeepNone(Variants(item), VisibleIn(visible));
    }
  }

  lemma {:induction false} FilterAllEntries(results: seq<Item>, visible: set<string>)
    ensures EntriesFor(results, FilterAll(results, visible), visible)
  {
    hide FilterItem, EntryFor, IsRepresented;
    if results != [] {
      FilterAllEntries(results[1..], visible);
      FilterItemEntry(results[0], visible);
    }
  }

  /** Filtering an authorized result whose duplicate count is right changes nothing. */
  lemma AuthorizedIsFixed(item: Item, visible: set<string>)
    requires Authorized(item, visible) && WithVariants(item, Variants(item)) == item
    ensures FilterItem(item, visible) == [item]
  {
    hide FileId, WithVariants, Variants;
    KeepAll(Variants(item), VisibleIn(visible));
  }

  lemma WithVariantsTwice(item: Item, variants: seq<Item>)
    ensures WithVariants(WithVariants(item, variants), variants) == WithVariants(item, variants)
  {
    hide AsList;
  }

  lemma FilteredIsFixed(item: Item, visible: set<string>)
    ensures forall r :: r in FilterItem(item, visible) ==> FilterItem(r, visible) == [r]
  {
    ItemIsAuthorized(item, visible);
    VisibleVariantsVisible(item, visible);
    var kept := VisibleVariants(item, visible);
    hide WithVariants, PromotedFields, VisibleVariants, Authorized, FileId, Variants;
    forall r | r in FilterItem(item, visible) ensures FilterItem(r, visible) == [r] {
      if IsVisible(item, visible) {
        WithVariantsReads(item, kept);
        WithVariantsTwice(item, kept);
      } else {
        assert kept[0] in kept;
        PromotedHasVariantId(item, kept[0], kept[1..]);
        WithVariantsTwice(PromotedFields(item, kept[0]), kept[1..]);
      }
      AuthorizedIsFixed(r, visible);
    }
  }

  /** Filtering a second time under the same visibility changes nothing, promoted results included. */
  lemma {:induction false} FilterIsIdempotent(items: seq<Item>, visible: set<string>)
    ensures FilterAll(FilterAll(items, visible), visible) == FilterAll(items, visible)
  {
    if items != [] {
      hide FilterItem;
      FilterIsIdempotent(items[1..], visible);
      FilteredIsFixed(items[0], visible);
      AtMostOne(items[0], visible);
      var head := FilterItem(items[0], visible);
      if head == [] {
        assert FilterAll(items, visible) == FilterAll(items[1..], visible);
      } else {
        assert head[0] in head;
        assert FilterAll(items, visible)[1..] == FilterAll(items[1..], visible);
      }
    }
  }

  lemma AtMostOne(item: Item, visible: set<string>)
    ensures |FilterItem(item, visible)| <= 1
  {
    hide Promote, WithVariants, VisibleVariants, IsVisible;
  }

  /**
    What may differ without being noticed: of a denied representative everything except ranking
    fields, and of denied duplicates everything.
  */
  ghost predicate Indistinguishable(a: Item, b: Item, visible: set<string>) {
    && (IsVisible(a, visible) <==> IsVisible(b, visible))
    && VisibleVariants(a, visible) == VisibleVariants(b, visible)
    && if IsVisible(a, visible)
       then a - {"duplicate_variants", "duplicate_count"} == b - {"duplicate_variants", "duplicate_count"}
       else Restrict(a, RANKING_KEYS) == Restrict(b, RANKING_KEYS)
  }

  lemma ItemsIndistinguishable(a: Item, b: Item, visible: set<string>)
    requires Indistinguishable(a, b, visible)
    ensures FilterItem(a, visible) == FilterItem(b, visible)
  {
    hide FileId, Variants, Restrict, PromotedText;
    if IsVisible(a, visible) {
      var kept := VisibleVariants(a, visible);
      var hidden := {"duplicate_variants", "duplicate_count"};
      forall k | k !in hidden ensures k in a <==> k in b {
        assert k in a <==> k in (a - hidden);
        assert k in b <==> k in (b - hidden);
      }
      forall k | k in a && k !in hidden ensures a[k] == b[k] {
        assert a[k] == (a - hidden)[k] && b[k] == (b - hidden)[k];
      }
      assert WithVariants(a, kept) == WithVariants(b, kept);
    }
  }

  /** Non-interference: denied content cannot influence the output. */
  lemma {:induction false} DeniedContentIsIrrelevant(xs: seq<Item>, ys: seq<Item>, visible: set<string>)
    requires |xs| == |ys| && forall i :: 0 <= i < |xs| ==> Indistinguishable(xs[i], ys[i], visible)
    ensures FilterAll(xs, visible) == FilterAll(ys, visible)
  {
    hide Indistinguishable, FilterItem;
    if xs != [] {
      ItemsIndistinguishable(xs[0], ys[0], visible);
      DeniedContentIsIrrelevant(xs[1..], ys[1..], visible);
    }
  }
}
