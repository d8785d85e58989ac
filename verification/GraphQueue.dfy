/**
  The persistent queue of graph-construction jobs.

  One row per job; rows are never deleted, so a job's id is its position in the table.  At most one
  job per document is meant to be active (pending or running); further events for that document
  are absorbed by the active job, and each of them is counted.  Every method is one transaction.
*/
module GraphQueue {
  import opened Wrappers
  import opened Seqs

  datatype Status = Pending | Running | Done | DoneWithErrors | SkippedOversize | Failed | Coalesced

  /** The JSON payload; `Unreadable` is text that no longer parses. */
  datatype Payload = Payload(countEvidence: bool, body: string) | Unreadable

  datatype Job = Job(status: Status, priority: int, attempts: nat, startedAt: Option<int>, document: string,
                     payload: Payload, coalescedCount: nat, coalescedInto: Option<nat>)

  /** One document of an accepted evidence event. A blank `document` is ignored by the queue. */
  datatype Event = Event(document: string, priority: int, payload: Payload)

  predicate Active(j: Job) {
    j.status == Pending || j.status == Running
  }

  predicate ActiveFor(j: Job, document: string) {
    Active(j) && j.document == document
  }

  /** A missing or unreadable flag counts as evidence. */
  predicate CountsEvidence(p: Payload) {
    p.Unreadable? || p.countEvidence
  }

  // ----- finding rows -----

  function FirstWhere(jobs: seq<Job>, p: Job -> bool): (i: nat)
    ensures i <= |jobs| && (i < |jobs| ==> p(jobs[i]))
    ensures forall j :: 0 <= j < i ==> !p(jobs[j])
  {
    if jobs == [] || p(jobs[0]) then 0 else 1 + FirstWhere(jobs[1..], p)
  }

  /** The active job of a document: the first running one, else the oldest pending one; `|jobs|` if none. */
  function Keeper(jobs: seq<Job>, document: string): (k: nat)
    ensures k <= |jobs| && (k < |jobs| ==> ActiveFor(jobs[k], document))
    ensures k == |jobs| ==> forall i :: 0 <= i < |jobs| ==> !ActiveFor(jobs[i], document)
    ensures k < |jobs| ==> forall i :: 0 <= i < |jobs| && ActiveFor(jobs[i], document) ==>
              if jobs[k].status == Running then jobs[i].status == Running ==> k <= i
              else jobs[i].status == Pending && k <= i
  {
    var running := FirstWhere(jobs, (j: Job) => j.status == Running && j.document == document);
    if running < |jobs| then running
    else FirstWhere(jobs, (j: Job) => j.status == Pending && j.document == document)
  }

  /** The claim order: the least (priority, id) among the pending jobs; `|jobs|` if none is pending. */
  function NextPending(jobs: seq<Job>): (k: nat)
    ensures k <= |jobs| && (k < |jobs| ==> jobs[k].status == Pending)
    ensures k == |jobs| ==> forall i :: 0 <= i < |jobs| ==> jobs[i].status != Pending
    ensures k < |jobs| ==> forall i :: 0 <= i < |jobs| && jobs[i].status == Pending ==>
              jobs[k].priority < jobs[i].priority || (jobs[k].priority == jobs[i].priority && k <= i)
  {
    if jobs == [] then 0
    else
      var n := |jobs| - 1;
      var k := NextPending(jobs[..n]);
      if jobs[n].status == Pending && (k == n || jobs[n].priority < jobs[k].priority) then n
      else if k == n then |jobs| else k
  }

  // ----- accounting -----

  ghost predicate OneActive(jobs: seq<Job>) {
    forall i, k :: 0 <= i < k < |jobs| && Active(jobs[i]) && Active(jobs[k]) ==> jobs[i].document != jobs[k].document
  }

  /** How many accepted events a row stands for. */
  function Weight(j: Job): nat {
    if j.status == Coalesced then 0 else 1 + j.coalescedCount
  }

  function Credit(jobs: seq<Job>): nat {
    if jobs == [] then 0 else Credit(jobs[..|jobs| - 1]) + Weight(jobs[|jobs| - 1])
  }

  lemma {:induction false} CreditUpdate(jobs: seq<Job>, i: nat, j: Job)
    requires i < |jobs|
    ensures Credit(jobs[i := j]) == Credit(jobs) - Weight(jobs[i]) + Weight(j)
  {
    var n := |jobs| - 1;
    if i == n {
      assert jobs[i := j][..n] == jobs[..n];
    } else {
      assert jobs[i := j][..n] == jobs[..n][i := j];
      CreditUpdate(jobs[..n], i, j);
    }
  }

  lemma EmptyCredit()
    ensures Credit([]) == 0
  {
  }

  lemma CreditPrefix(jobs: seq<Job>, n: nat)
    requires 0 < n <= |jobs|
    ensures Credit(jobs[..n]) == Credit(jobs[..n - 1]) + Weight(jobs[n - 1])
  {
    assert jobs[..n][..n - 1] == jobs[..n - 1];
  }

  lemma CreditAppend(jobs: seq<Job>, j: Job)
    ensures Credit(jobs + [j]) == Credit(jobs) + Weight(j)
  {
    assert (jobs + [j])[..|jobs|] == jobs;
  }

  // ----- collapsing duplicates -----

  /** The events represented by the active rows of `document` other than row `k`, among the first `n` rows. */
  function Extra(jobs: seq<Job>, document: string, k: nat, n: nat): nat
    requires n <= |jobs|
  {
    if n == 0 then 0
    else Extra(jobs, document, k, n - 1) +
         if n - 1 != k && ActiveFor(jobs[n - 1], document) then 1 + jobs[n - 1].coalescedCount else 0
  }

  /** Row `i` after the duplicates of `document` were folded into row `k`. */
  function CollapsedRow(jobs: seq<Job>, document: string, k: nat, i: nat): Job
    requires i < |jobs|
  {
    if i == k then jobs[i].(coalescedCount := jobs[i].coalescedCount + Extra(jobs, document, k, |jobs|))
    else if ActiveFor(jobs[i], document) then jobs[i].(status := Coalesced, coalescedInto := Some(k))
    else jobs[i]
  }

  function Collapse(jobs: seq<Job>, document: string): (r: seq<Job>)
    ensures |r| == |jobs|
  {
    var k := Keeper(jobs, document);
    if k == |jobs| then jobs
    else seq(|jobs|, i requires 0 <= i < |jobs| => CollapsedRow(jobs, document, k, i))
  }

  predicate Duplicated(jobs: seq<Job>, document: string) {
    exists i, k :: 0 <= i < k < |jobs| && ActiveFor(jobs[i], document) && ActiveFor(jobs[k], document)
  }

  /** The documents with more than one active job, each once. */
  function Groups(jobs: seq<Job>, n: nat): (g: seq<string>)
    requires n <= |jobs|
    ensures Distinct(g) && forall d :: d in g ==> Duplicated(jobs, d)
    ensures forall i :: 0 <= i < n && Active(jobs[i]) && Duplicated(jobs, jobs[i].document) ==> jobs[i].document in g
  {
    if n == 0 then []
    else
      var g := Groups(jobs, n - 1);
      var j := jobs[n - 1];
      if Active(j) && Duplicated(jobs, j.document) && j.document !in g then g + [j.document] else g
  }

  function CollapseAll(jobs: seq<Job>, documents: seq<string>): (r: seq<Job>)
    ensures |r| == |jobs|
    decreases |documents|
  {
    if documents == [] then jobs else CollapseAll(Collapse(jobs, documents[0]), documents[1..])
  }

  function Compacted(jobs: seq<Job>): (r: seq<Job>)
    ensures |r| == |jobs|
  {
    CollapseAll(jobs, Groups(jobs, |jobs|))
  }

  // ----- the other table operations, as functions of the table -----

  /** A strictly higher priority, or evidence that the active job lacks, replaces the payload. */
  predicate Promotes(j: Job, e: Event) {
    || e.priority < (if j.priority != 0 then j.priority else e.priority)
    || (CountsEvidence(e.payload) && !CountsEvidence(j.payload))
  }

  function Absorb(j: Job, e: Event): Job {
    j.(coalescedCount := j.coalescedCount + 1,
       priority := Min(j.priority, e.priority),
       payload := if Promotes(j, e) then e.payload else j.payload)
  }

  function NewJob(e: Event): Job {
    Job(Pending, e.priority, 0, None, e.document, e.payload, 0, None)
  }

  function EnqueueOne(jobs: seq<Job>, e: Event): seq<Job> {
    var k := Keeper(jobs, e.document);
    if e.document == "" then jobs
    else if k < |jobs| then jobs[k := Absorb(jobs[k], e)]
    else jobs + [NewJob(e)]
  }

  function EnqueueAll(jobs: seq<Job>, events: seq<Event>): seq<Job>
    decreases |events|
  {
    if events == [] then jobs
    else EnqueueOne(EnqueueAll(jobs, events[..|events| - 1]), events[|events| - 1])
  }

  function Accepted(events: seq<Event>): nat {
    if events == [] then 0
    else Accepted(events[..|events| - 1]) + if events[|events| - 1].document == "" then 0 else 1
  }

  predicate Stale(j: Job, now: int, staleSeconds: int) {
    j.status == Running && (j.startedAt.None? || j.startedAt.value < now - Max(60, staleSeconds))
  }

  function Recovered(jobs: seq<Job>, now: int, staleSeconds: int): (r: seq<Job>)
    ensures |r| == |jobs|
  {
    seq(|jobs|, i requires 0 <= i < |jobs| =>
      if Stale(jobs[i], now, staleSeconds) then jobs[i].(status := Pending) else jobs[i])
  }

  function Claimed(j: Job, now: int): Job {
    j.(status := Running, startedAt := Some(now), attempts := j.attempts + 1)
  }

  function WithStatus(jobs: seq<Job>, id: nat, status: Status): seq<Job> {
    if id < |jobs| then jobs[id := jobs[id].(status := status)] else jobs
  }

  /** What the indexer returned: whether it reported errors, and one flag per document, true if too large. */
  datatype Report = Report(errors: bool, oversize: seq<bool>)

  function FinishStatus(r: Report): Status {
    if r.oversize != [] && forall i :: 0 <= i < |r.oversize| ==> r.oversize[i] then SkippedOversize
    else if r.errors then DoneWithErrors else Done
  }

  /** Which of the three final states a report gives. */
  lemma FinishStatusIff(r: Report)
    ensures FinishStatus(r) == SkippedOversize <==> r.oversize != [] && false !in r.oversize
    ensures FinishStatus(r) == DoneWithErrors <==> r.errors && (r.oversize == [] || false in r.oversize)
    ensures FinishStatus(r) == Done <==> !r.errors && (r.oversize == [] || false in r.oversize)
  {
    if false !in r.oversize {
      forall i | 0 <= i < |r.oversize| ensures r.oversize[i] {
        assert r.oversize[i] in r.oversize;
      }
    }
  }

  // ----- the stateful queue -----

  class GraphQueue {
    var jobs: seq<Job>
    const enabled: bool

    /** Opening an existing table first collapses what earlier versions left behind. */
    constructor (enabled: bool, table: seq<Job>)
      ensures this.enabled == enabled && jobs == Compacted(table)
    {
      this.enabled := enabled;
      jobs := table;
      new;
      var _ := CoalesceExistingActiveJobs();
    }

    method CoalesceExistingActiveJobs() returns (changed: nat)
      modifies this`jobs
      ensures jobs == Compacted(old(jobs))
    {
      var groups := Groups(jobs, |jobs|);
      changed := 0;
      var g := 0;
      while g < |groups|
        invariant 0 <= g <= |groups|
        invariant CollapseAll(jobs, groups[g..]) == Compacted(old(jobs))
      {
        var n := CoalesceDocument(groups[g]);
        changed := changed + n;
        assert groups[g..][1..] == groups[g + 1..];
        g := g + 1;
      }
    }

    method CoalesceDocument(document: string) returns (changed: nat)
      modifies this`jobs
      ensures jobs == Collapse(old(jobs), document)
    {
      hide Keeper;
      changed := 0;
      var keeper := Keeper(jobs, document);
      if keeper == |jobs| {
        return;
      }
      ghost var table := jobs;
      var extra := 0;
      var i := 0;
      while i < |jobs|
        invariant 0 <= i <= |jobs| == |table|
        invariant extra == Extra(table, document, keeper, i)
        invariant jobs[keeper] == table[keeper]
        invariant forall j :: 0 <= j < i && j != keeper ==> jobs[j] == CollapsedRow(table, document, keeper, j)
        invariant forall j :: i <= j < |jobs| ==> jobs[j] == table[j]
      {
        if i != keeper && ActiveFor(jobs[i], document) {
          extra := extra + 1 + jobs[i].coalescedCount;
          jobs := jobs[i := jobs[i].(status := Coalesced, coalescedInto := Some(keeper))];
          changed := changed + 1;
        }
        i := i + 1;
      }
      jobs := jobs[keeper := jobs[keeper].(coalescedCount := jobs[keeper].coalescedCount + extra)];
    }

    method EnqueueEvidence(events: seq<Event>) returns (jobIds: seq<nat>, coalescedIds: seq<nat>)
      modifies this`jobs
      ensures jobs == if enabled then EnqueueAll(old(jobs), events) else old(jobs)
      ensures enabled ==> |jobs| == |old(jobs)| + |jobIds| && |jobIds| + |coalescedIds| == Accepted(events)
      ensures forall i :: 0 <= i < |jobIds| ==> jobIds[i] == |old(jobs)| + i
      ensures forall i :: 0 <= i < |coalescedIds| ==> coalescedIds[i] < |jobs|
    {
      hide Keeper, Absorb, NewJob;
      jobIds, coalescedIds := [], [];
      if !enabled {
        return;
      }
      var i := 0;
      while i < |events|
        invariant 0 <= i <= |events|
        invariant jobs == EnqueueAll(old(jobs), events[..i])
        invariant |jobs| == |old(jobs)| + |jobIds| && |jobIds| + |coalescedIds| == Accepted(events[..i])
        invariant forall j :: 0 <= j < |jobIds| ==> jobIds[j] == |old(jobs)| + j
        invariant forall j :: 0 <= j < |coalescedIds| ==> coalescedIds[j] < |jobs|
      {
        var e := events[i];
        assert events[..i + 1][..i] == events[..i];
        if e.document != "" {
          var existing := Keeper(jobs, e.document);
          if existing < |jobs| {
            jobs := jobs[existing := Absorb(jobs[existing], e)];
            coalescedIds := coalescedIds + [existing];
          } else {
            jobIds := jobIds + [|jobs|];
            jobs := jobs + [NewJob(e)];
          }
        }
        i := i + 1;
      }
      assert events[..i] == events;
    }

    method RecoverStaleRunning(now: int, staleSeconds: int) returns (recovered: nat)
      modifies this`jobs
      ensures jobs == Recovered(old(jobs), now, staleSeconds) && |jobs| == |old(jobs)|
      ensures forall i :: 0 <= i < |jobs| ==>
                var j := old(jobs)[i];
                var limit := if staleSeconds > 60 then staleSeconds else 60;
                if j.status == Running && (j.startedAt == None || j.startedAt.value + limit < now)
                then jobs[i] == j.(status := Pending) else jobs[i] == j
    {
      recovered := 0;
      ghost var table := jobs;
      var i := 0;
      while i < |jobs|
        invariant 0 <= i <= |jobs| == |table|
        invariant forall j :: 0 <= j < i ==> jobs[j] == Recovered(table, now, staleSeconds)[j]
        invariant forall j :: i <= j < |jobs| ==> jobs[j] == table[j]
      {
        if Stale(jobs[i], now, staleSeconds) {
          jobs := jobs[i := jobs[i].(status := Pending)];
          recovered := recovered + 1;
        }
        i := i + 1;
      }
    }

    method ClaimNext(now: int) returns (claimed: Option<nat>)
      modifies this`jobs
      ensures claimed.None? ==> jobs == old(jobs)
      ensures claimed.None? && enabled ==> forall i :: 0 <= i < |jobs| ==> jobs[i].status != Pending
      ensures claimed.Some? ==>
                var k := claimed.value;
                && k < |old(jobs)| && k == NextPending(old(jobs))
                && jobs == old(jobs)[k := Claimed(old(jobs)[k], now)]
      ensures claimed.Some? ==>
                var k := claimed.value;
                && enabled && old(jobs)[k].status == Pending
                && jobs[k] == old(jobs)[k].(status := Running, startedAt := Some(now), attempts := old(jobs)[k].attempts + 1)
                && forall i :: 0 <= i < |jobs| && jobs[i].status == Pending ==>
                     old(jobs)[k].priority < jobs[i].priority || (old(jobs)[k].priority == jobs[i].priority && k < i)
    {
      if !enabled {
        return None;
      }
      var k := NextPending(jobs);
      if k == |jobs| {
        return None;
      }
      jobs := jobs[k := Claimed(jobs[k], now)];
      claimed := Some(k);
    }

    method Finish(id: nat, report: Report)
      modifies this`jobs
      ensures jobs == WithStatus(old(jobs), id, FinishStatus(report)) && |jobs| == |old(jobs)|
      ensures forall i :: 0 <= i < |jobs| && i != id ==> jobs[i] == old(jobs)[i]
      ensures id < |jobs| ==> jobs[id] == old(jobs)[id].(status := jobs[id].status)
      ensures id < |jobs| ==>
                && (jobs[id].status == SkippedOversize <==> report.oversize != [] && false !in report.oversize)
                && (jobs[id].status == DoneWithErrors <==> report.errors && (report.oversize == [] || false in report.oversize))
                && (jobs[id].status == Done <==> !report.errors && (report.oversize == [] || false in report.oversize))
    {
      FinishStatusIff(report);
      if id < |jobs| {
        jobs := jobs[id := jobs[id].(status := FinishStatus(report))];
      }
    }

    method Fail(id: nat, retry: bool)
      modifies this`jobs
      ensures jobs == WithStatus(old(jobs), id, if retry then Pending else Failed)
      ensures jobs == if id < |old(jobs)|
                      then old(jobs)[id := old(jobs)[id].(status := if retry then Pending else Failed)] else old(jobs)
    {
      if id < |jobs| {
        jobs := jobs[id := jobs[id].(status := if retry then Pending else Failed)];
      }
    }
  }

  // ----- collapsing keeps every event and leaves one active job per document -----

  lemma {:induction false} CollapseCreditPrefix(jobs: seq<Job>, document: string, n: nat)
    requires n <= |jobs| && Keeper(jobs, document) < |jobs|
    ensures var k := Keeper(jobs, document);
            Credit(Collapse(jobs, document)[..n]) + Extra(jobs, document, k, n) ==
            Credit(jobs[..n]) + if k < n then Extra(jobs, document, k, |jobs|) else 0
  {
    hide Keeper, Credit;
    assert Credit([]) == 0 by { EmptyCredit(); }
    if n > 0 {
      var r := Collapse(jobs, document);
      CollapseCreditPrefix(jobs, document, n - 1);
      CreditPrefix(r, n);
      CreditPrefix(jobs, n);
    }
  }

  lemma CollapseCredit(jobs: seq<Job>, document: string)
    ensures Credit(Collapse(jobs, document)) == Credit(jobs)
  {
    if Keeper(jobs, document) < |jobs| {
      CollapseCreditPrefix(jobs, document, |jobs|);
      assert jobs[..|jobs|] == jobs && Collapse(jobs, document)[..|jobs|] == Collapse(jobs, document);
    }
  }

  lemma {:induction false} CollapseAllCredit(jobs: seq<Job>, documents: seq<string>)
    ensures Credit(CollapseAll(jobs, documents)) == Credit(jobs)
    decreases |documents|
  {
    if documents != [] {
      CollapseCredit(jobs, documents[0]);
      CollapseAllCredit(Collapse(jobs, documents[0]), documents[1..]);
    }
  }

  lemma {:induction false} ExtraSame(a: seq<Job>, b: seq<Job>, document: string, k: nat, n: nat)
    requires n <= |a| == |b|
    requires forall i :: 0 <= i < n && (ActiveFor(a[i], document) || ActiveFor(b[i], document)) ==> a[i] == b[i]
    ensures Extra(a, document, k, n) == Extra(b, document, k, n)
  {
    if n > 0 {
      ExtraSame(a, b, document, k, n - 1);
    }
  }

  /** Collapsing one document does not disturb another one. */
  lemma CollapseIsLocal(jobs: seq<Job>, document: string, other: string, i: nat)
    requires document != other && i < |jobs|
    ensures var r := Collapse(jobs, document);
            && Keeper(r, other) == Keeper(jobs, other)
            && CollapsedRow(r, other, Keeper(r, other), i) ==
               if ActiveFor(jobs[i], document) then r[i] else CollapsedRow(jobs, other, Keeper(jobs, other), i)
  {
    hide Keeper, Extra;
    var r := Collapse(jobs, document);
    var k, k' := Keeper(jobs, other), Keeper(r, other);
    forall j | 0 <= j < |jobs| && (ActiveFor(r[j], other) || ActiveFor(jobs[j], other)) ensures r[j] == jobs[j] {
    }
    assert k < |jobs| ==> r[k] == jobs[k];
    assert k' < |jobs| ==> r[k'] == jobs[k'];
    assert k == k';
    ExtraSame(jobs, r, other, k, |jobs|);
  }

  lemma {:induction false} CollapseAllRows(jobs: seq<Job>, documents: seq<string>, i: nat)
    requires Distinct(documents) && i < |jobs|
    ensures CollapseAll(jobs, documents)[i] ==
            if Active(jobs[i]) && jobs[i].document in documents
            then CollapsedRow(jobs, jobs[i].document, Keeper(jobs, jobs[i].document), i)
            else jobs[i]
    decreases |documents|
  {
    hide Keeper, Extra, FirstWhere;
    if documents != [] {
      var head, d := documents[0], jobs[i].document;
      var next := Collapse(jobs, head);
      CollapseAllRows(next, documents[1..], i);
      assert documents == [head] + documents[1..];
      assert head !in documents[1..];
      if d != head {
        CollapseIsLocal(jobs, head, d, i);
      }
    }
  }

  lemma {:induction false} NoExtraUnlessDuplicated(jobs: seq<Job>, i: nat, n: nat)
    requires i < |jobs| && n <= |jobs| && Active(jobs[i]) && !Duplicated(jobs, jobs[i].document)
    ensures Extra(jobs, jobs[i].document, i, n) == 0
  {
    if n > 0 {
      NoExtraUnlessDuplicated(jobs, i, n - 1);
    }
  }

  /**
    What opening a table does to every row: per document the running job wins, otherwise the oldest
    pending one; it takes over the events of the others, which are kept as coalesced rows.
  */
  lemma CompactedRows(jobs: seq<Job>, i: nat)
    requires i < |jobs|
    ensures Compacted(jobs)[i] ==
            if Active(jobs[i]) then CollapsedRow(jobs, jobs[i].document, Keeper(jobs, jobs[i].document), i) else jobs[i]
  {
    var d := jobs[i].document;
    CollapseAllRows(jobs, Groups(jobs, |jobs|), i);
    if Active(jobs[i]) && !Duplicated(jobs, d) {
      assert Keeper(jobs, d) == i;
      NoExtraUnlessDuplicated(jobs, i, |jobs|);
    }
  }

  lemma OnlyKeeperStaysActive(jobs: seq<Job>, document: string, i: nat)
    requires i < |jobs|
    ensures ActiveFor(Compacted(jobs)[i], document) <==> i == Keeper(jobs, document)
    ensures i == Keeper(jobs, document) ==> Compacted(jobs)[i].status == jobs[i].status
  {
    CompactedRows(jobs, i);
    hide Compacted, Extra;
  }

  /** From any table whatever, opening leaves at most one active job per document and loses no event. */
  lemma OpeningEstablishesOneActive(jobs: seq<Job>)
    ensures OneActive(Compacted(jobs))
    ensures Credit(Compacted(jobs)) == Credit(jobs)
    ensures forall d :: Keeper(Compacted(jobs), d) == Keeper(jobs, d)
  {
    CollapseAllCredit(jobs, Groups(jobs, |jobs|));
    hide Compacted, Credit;
    var r := Compacted(jobs);
    forall i, k | 0 <= i < k < |r| && Active(r[i]) && Active(r[k]) ensures r[i].document != r[k].document {
      OnlyKeeperStaysActive(jobs, r[k].document, i);
      OnlyKeeperStaysActive(jobs, r[k].document, k);
    }
    forall d ensures Keeper(r, d) == Keeper(jobs, d) {
      var k, k' := Keeper(jobs, d), Keeper(r, d);
      if k < |jobs| {
        OnlyKeeperStaysActive(jobs, d, k);
      }
      if k' < |jobs| {
        OnlyKeeperStaysActive(jobs, d, k');
      }
    }
  }

  /** A table that already has one active job per document is left as it is. */
  lemma OpeningIsIdempotent(jobs: seq<Job>)
    requires OneActive(jobs)
    ensures Compacted(jobs) == jobs
  {
    forall i | 0 <= i < |jobs| ensures Compacted(jobs)[i] == jobs[i] {
      CompactedRows(jobs, i);
      if Active(jobs[i]) {
        assert Keeper(jobs, jobs[i].document) == i;
        NoExtraUnlessDuplicated(jobs, i, |jobs|);
      }
    }
  }

  // ----- enqueueing -----

  lemma EnqueueOneSafe(jobs: seq<Job>, e: Event)
    ensures OneActive(jobs) ==> OneActive(EnqueueOne(jobs, e))
    ensures Credit(EnqueueOne(jobs, e)) == Credit(jobs) + if e.document == "" then 0 else 1
    ensures |jobs| <= |EnqueueOne(jobs, e)|
    ensures forall i :: 0 <= i < |jobs| ==>
              var j, j' := jobs[i], EnqueueOne(jobs, e)[i];
              j'.status == j.status && j'.attempts == j.attempts && j'.document == j.document
    ensures forall i :: |jobs| <= i < |EnqueueOne(jobs, e)| ==> EnqueueOne(jobs, e)[i] == NewJob(e)
    ensures e.document != "" ==> Keeper(EnqueueOne(jobs, e), e.document) < |EnqueueOne(jobs, e)|
  {
    hide Keeper, Promotes;
    var k := Keeper(jobs, e.document);
    if e.document != "" {
      if k < |jobs| {
        CreditUpdate(jobs, k, Absorb(jobs[k], e));
        assert ActiveFor(EnqueueOne(jobs, e)[k], e.document);
      } else {
        CreditAppend(jobs, NewJob(e));
        assert ActiveFor(EnqueueOne(jobs, e)[k], e.document);
      }
    }
  }

  lemma {:induction false} EnqueueAllSafe(jobs: seq<Job>, events: seq<Event>)
    ensures OneActive(jobs) ==> OneActive(EnqueueAll(jobs, events))
    ensures Credit(EnqueueAll(jobs, events)) == Credit(jobs) + Accepted(events)
    ensures |jobs| <= |EnqueueAll(jobs, events)|
    ensures forall i :: 0 <= i < |jobs| ==>
              var j, j' := jobs[i], EnqueueAll(jobs, events)[i];
              j'.status == j.status && j'.attempts == j.attempts && j'.document == j.document
    ensures forall i :: |jobs| <= i < |EnqueueAll(jobs, events)| ==>
              EnqueueAll(jobs, events)[i].status == Pending && EnqueueAll(jobs, events)[i].attempts == 0
    decreases |events|
  {
    if events != [] {
      var n := |events| - 1;
      EnqueueAllSafe(jobs, events[..n]);
      EnqueueOneSafe(EnqueueAll(jobs, events[..n]), events[n]);
    }
  }

  /** Putting a job back to pending is safe exactly when it is active or its document has no active job. */
  lemma RetryKeepsOneActiveIff(jobs: seq<Job>, id: nat)
    requires OneActive(jobs) && id < |jobs|
    ensures OneActive(WithStatus(jobs, id, Pending)) <==>
            Active(jobs[id]) || Keeper(jobs, jobs[id].document) == |jobs|
  {
    var r := WithStatus(jobs, id, Pending);
    var k := Keeper(jobs, jobs[id].document);
    if !Active(jobs[id]) && k < |jobs| {
      assert k != id && Active(r[k]) && Active(r[id]) && r[k].document == r[id].document;
      assert !OneActive(r) by {
        if k < id {
          assert Active(r[k]) && Active(r[id]);
        } else {
          assert Active(r[id]) && Active(r[k]);
        }
      }
    }
  }

  // ----- every run of the queue -----

  /** `claimed` is the worker's current job; `recoveries` counts stale recoveries per job. */
  datatype System = System(jobs: seq<Job>, claimed: Option<nat>, recoveries: seq<nat>, accepted: nat)

  datatype Action =
    | Open
    | Enqueue(events: seq<Event>)
    | Claim(now: int)
    | Return(report: Report)
    | Raise
    | Restart(now: int, staleSeconds: int)

  function Zeros(n: nat): seq<nat> { seq(n, _ => 0) }

  /** The worker retries while the attempts of its job stay below the limit. */
  function Step(s: System, a: Action, maxAttempts: int): System
    requires |s.recoveries| == |s.jobs|
    requires s.claimed.Some? ==> s.claimed.value < |s.jobs|
  {
    match a
    case Open => s.(jobs := Compacted(s.jobs))
    case Enqueue(events) =>
      var jobs := EnqueueAll(s.jobs, events);
      s.(jobs := jobs, accepted := s.accepted + Accepted(events),
         recoveries := s.recoveries + Zeros(Max(0, |jobs| - |s.jobs|)))
    case Claim(now) =>
      var k := NextPending(s.jobs);
      if s.claimed.Some? || k == |s.jobs| then s
      else s.(jobs := s.jobs[k := Claimed(s.jobs[k], now)], claimed := Some(k))
    case Return(report) =>
      if s.claimed.None? then s
      else s.(jobs := WithStatus(s.jobs, s.claimed.value, FinishStatus(report)), claimed := None)
    case Raise =>
      if s.claimed.None? then s
      else
        var id := s.claimed.value;
        var retry := s.jobs[id].attempts < maxAttempts;
        s.(jobs := WithStatus(s.jobs, id, if retry then Pending else Failed), claimed := None)
    case Restart(now, staleSeconds) =>
      var jobs := Compacted(s.jobs);
      System(Recovered(jobs, now, staleSeconds), None,
             seq(|jobs|, i requires 0 <= i < |jobs| =>
               if Stale(jobs[i], now, staleSeconds) then s.recoveries[i] + 1 else s.recoveries[i]),
             s.accepted)
  }

  /** `attempts` stays within the limit (at least 1) plus one per stale recovery. */
  ghost predicate Bounded(j: Job, recoveries: nat, maxAttempts: int) {
    j.attempts <= Max(1, maxAttempts) + recoveries - if j.status == Pending then 1 else 0
  }

  ghost predicate Inv(s: System, maxAttempts: int) {
    && |s.recoveries| == |s.jobs|
    && OneActive(s.jobs)
    && Credit(s.jobs) == s.accepted
    && (s.claimed.Some? ==> s.claimed.value < |s.jobs| && s.jobs[s.claimed.value].status == Running)
    && forall i :: 0 <= i < |s.jobs| ==> Bounded(s.jobs[i], s.recoveries[i], maxAttempts)
  }

  lemma RecoveredSafe(jobs: seq<Job>, now: int, staleSeconds: int)
    ensures Credit(Recovered(jobs, now, staleSeconds)) == Credit(jobs)
  {
    var r := Recovered(jobs, now, staleSeconds);
    if jobs != [] {
      var n := |jobs| - 1;
      RecoveredSafe(jobs[..n], now, staleSeconds);
      assert r[..n] == Recovered(jobs[..n], now, staleSeconds);
    }
  }

  lemma StepKeepsInv(s: System, a: Action, maxAttempts: int)
    requires Inv(s, maxAttempts)
    ensures Inv(Step(s, a, maxAttempts), maxAttempts)
  {
    hide Credit, Compacted, EnqueueAll, Accepted;
    match a
    case Open => OpeningIsIdempotent(s.jobs);
    case Enqueue(events) => EnqueueAllSafe(s.jobs, events);
    case Claim(now) =>
      var k := NextPending(s.jobs);
      if s.claimed.None? && k < |s.jobs| {
        CreditUpdate(s.jobs, k, Claimed(s.jobs[k], now));
      }
    case Return(report) =>
      if s.claimed.Some? {
        var id := s.claimed.value;
        CreditUpdate(s.jobs, id, s.jobs[id].(status := FinishStatus(report)));
      }
    case Raise =>
      if s.claimed.Some? {
        var id := s.claimed.value;
        var retry := s.jobs[id].attempts < maxAttempts;
        CreditUpdate(s.jobs, id, s.jobs[id].(status := if retry then Pending else Failed));
      }
    case Restart(now, staleSeconds) =>
      OpeningIsIdempotent(s.jobs);
      RecoveredSafe(s.jobs, now, staleSeconds);
  }

  /** A claim starts the least (priority, id) pending job, if there is one and no other job is claimed. */
  lemma ClaimIs(s: System, now: int, maxAttempts: int)
    requires Inv(s, maxAttempts)
    ensures var t := Step(s, Claim(now), maxAttempts);
            if s.claimed == None && exists i :: 0 <= i < |s.jobs| && s.jobs[i].status == Pending then
              && t.claimed.Some? && t.claimed.value < |s.jobs|
              && var k := t.claimed.value;
              && s.jobs[k].status == Pending
              && (forall i :: 0 <= i < |s.jobs| && s.jobs[i].status == Pending ==>
                    s.jobs[k].priority < s.jobs[i].priority || (s.jobs[k].priority == s.jobs[i].priority && k <= i))
              && t == s.(claimed := Some(k),
                         jobs := s.jobs[k := s.jobs[k].(status := Running, startedAt := Some(now), attempts := s.jobs[k].attempts + 1)])
            else t == s
  {
    hide Credit, OneActive, Bounded;
  }

  /** A result or an exception settles the claimed job; without one nothing happens. */
  lemma SettlingIs(s: System, report: Report, maxAttempts: int)
    requires Inv(s, maxAttempts)
    ensures s.claimed == None ==> Step(s, Return(report), maxAttempts) == s && Step(s, Raise, maxAttempts) == s
    ensures s.claimed.Some? ==>
              var id := s.claimed.value;
              var t, u := Step(s, Return(report), maxAttempts), Step(s, Raise, maxAttempts);
              && t == s.(claimed := None, jobs := s.jobs[id := s.jobs[id].(status := t.jobs[id].status)])
              && (t.jobs[id].status == SkippedOversize <==> report.oversize != [] && false !in report.oversize)
              && (t.jobs[id].status != SkippedOversize ==> t.jobs[id].status == if report.errors then DoneWithErrors else Done)
              && u == s.(claimed := None, jobs := s.jobs[id := s.jobs[id].(status := if s.jobs[id].attempts < maxAttempts then Pending else Failed)])
  {
    hide Credit, OneActive, Bounded;
    FinishStatusIff(report);
  }

  /** Recoveries are counted where a restart returns a stale job to pending, and nowhere else. */
  lemma RecoveriesAre(s: System, a: Action, maxAttempts: int)
    requires Inv(s, maxAttempts)
    ensures var t := Step(s, a, maxAttempts);
            && |s.jobs| <= |t.recoveries| == |t.jobs|
            && forall i :: 0 <= i < |t.recoveries| ==>
                 t.recoveries[i] ==
                 if i >= |s.jobs| then 0
                 else if a.Restart? && s.jobs[i].status == Running && t.jobs[i].status == Pending then s.recoveries[i] + 1
                 else s.recoveries[i]
    ensures a.Restart? ==>
              var t := Step(s, a, maxAttempts);
              && t.claimed == None && t.accepted == s.accepted && |t.jobs| == |s.jobs|
              && forall i :: 0 <= i < |s.jobs| ==>
                   var limit := if a.staleSeconds > 60 then a.staleSeconds else 60;
                   t.jobs[i] == if s.jobs[i].status == Running && (s.jobs[i].startedAt == None || s.jobs[i].startedAt.value + limit < a.now)
                                then s.jobs[i].(status := Pending) else s.jobs[i]
  {
    hide Credit, Bounded, NextPending, FinishStatus, Accepted;
    OpeningIsIdempotent(s.jobs);
    if a.Enqueue? {
      EnqueueAllSafe(s.jobs, a.events);
    }
    hide OneActive, Compacted, EnqueueAll;
  }

  /** Every action of the system is carried out by the methods of the queue. */
  method Perform(queue: GraphQueue, ghost s: System, a: Action, maxAttempts: int, running: Option<nat>) returns (claimed: Option<nat>)
    requires queue.enabled && queue.jobs == s.jobs && running == s.claimed && Inv(s, maxAttempts)
    modifies queue
    ensures queue.jobs == Step(s, a, maxAttempts).jobs && claimed == Step(s, a, maxAttempts).claimed
  {
    hide Compacted, EnqueueAll, Recovered, Accepted, FinishStatus;
    claimed := running;
    match a {
      case Open =>
        var changed := queue.CoalesceExistingActiveJobs();
      case Enqueue(events) =>
        var ids, merged := queue.EnqueueEvidence(events);
      case Claim(now) =>
        if running.None? {
          claimed := queue.ClaimNext(now);
        }
      case Return(report) =>
        if running.Some? {
          queue.Finish(running.value, report);
          claimed := None;
        }
      case Raise =>
        if running.Some? {
          queue.Fail(running.value, queue.jobs[running.value].attempts < maxAttempts);
          claimed := None;
        }
      case Restart(now, staleSeconds) =>
        var changed := queue.CoalesceExistingActiveJobs();
        var recovered := queue.RecoverStaleRunning(now, staleSeconds);
        claimed := None;
    }
  }

  ghost function Exec(s: System, actions: seq<Action>, maxAttempts: int): System
    requires Inv(s, maxAttempts)
    decreases |actions|
  {
    if actions == [] then s
    else
      StepKeepsInv(s, actions[0], maxAttempts);
      Exec(Step(s, actions[0], maxAttempts), actions[1..], maxAttempts)
  }

  /**
    From any table, after opening it and under every interleaving of openings, enqueues, claims,
    results, failures and worker restarts: one active job per document, every accepted event counted
    on exactly one row that is not coalesced, and bounded attempts.
  */
  lemma {:induction false} EveryRunIsSafe(s: System, actions: seq<Action>, maxAttempts: int)
    requires Inv(s, maxAttempts)
    ensures Inv(Exec(s, actions, maxAttempts), maxAttempts)
    ensures Exec(s, actions, maxAttempts).accepted == s.accepted + AcceptedBy(actions)
    decreases |actions|
  {
    if actions != [] {
      StepKeepsInv(s, actions[0], maxAttempts);
      assert Step(s, actions[0], maxAttempts).accepted == s.accepted + if actions[0].Enqueue? then Accepted(actions[0].events) else 0;
      hide Step, Inv;
      EveryRunIsSafe(Step(s, actions[0], maxAttempts), actions[1..], maxAttempts);
    }
  }

  /** A history is its first part and then the rest. */
  lemma {:induction false} ExecSplits(s: System, a: seq<Action>, b: seq<Action>, maxAttempts: int)
    requires Inv(s, maxAttempts)
    ensures Inv(Exec(s, a, maxAttempts), maxAttempts)
    ensures Exec(s, a + b, maxAttempts) == Exec(Exec(s, a, maxAttempts), b, maxAttempts)
    ensures a != [] ==> Exec(s, [a[0]], maxAttempts) == Step(s, a[0], maxAttempts)
    decreases |a|
  {
    hide Step, Credit, OneActive, Bounded;
    if a == [] {
      assert a + b == b;
    } else {
      StepKeepsInv(s, a[0], maxAttempts);
      assert (a + b)[1..] == a[1..] + b && [a[0]][1..] == [];
      ExecSplits(Step(s, a[0], maxAttempts), a[1..], b, maxAttempts);
    }
  }

  function AcceptedBy(actions: seq<Action>): nat {
    if actions == [] then 0
    else (if actions[0].Enqueue? then Accepted(actions[0].events) else 0) + AcceptedBy(actions[1..])
  }

  /** Opening an arbitrary table is a legal start. */
  lemma OpenedTableIsSafe(table: seq<Job>, maxAttempts: int)
    requires forall i :: 0 <= i < |table| ==> Bounded(table[i], 0, maxAttempts)
    ensures Inv(System(Compacted(table), None, Zeros(|table|), Credit(table)), maxAttempts)
  {
    OpeningEstablishesOneActive(table);
    forall i | 0 <= i < |table| ensures Bounded(Compacted(table)[i], 0, maxAttempts) {
      CompactedRows(table, i);
    }
  }

  // ----- what an active job remembers of the events it absorbed -----

  function AbsorbAll(j: Job, events: seq<Event>): Job
    decreases |events|
  {
    if events == [] then j else Absorb(AbsorbAll(j, events[..|events| - 1]), events[|events| - 1])
  }

  /** Index of the first event with the least priority. */
  function FirstLeast(events: seq<Event>): (f: nat)
    requires events != []
    ensures f < |events|
    ensures forall i :: 0 <= i < |events| ==> events[f].priority <= events[i].priority
    ensures forall i :: 0 <= i < f ==> events[f].priority < events[i].priority
  {
    var n := |events| - 1;
    if n == 0 then 0
    else
      var f := FirstLeast(events[..n]);
      if events[n].priority < events[f].priority then n else f
  }

  /** The first index from `f` on whose event counts evidence; `f` itself when there is none. */
  ghost predicate Remembered(events: seq<Event>, f: nat, r: nat) {
    && f <= r < |events|
    && (forall i :: f <= i < r ==> !CountsEvidence(events[i].payload))
    && (CountsEvidence(events[r].payload) || (r == f && forall i :: f <= i < |events| ==> !CountsEvidence(events[i].payload)))
  }

  /** Event `i` has a lower priority than all before it, and the least so far is not exactly 0. */
  predicate Drops(events: seq<Event>, i: nat) {
    0 < i < |events| &&
    var least := events[FirstLeast(events[..i])].priority;
    least != 0 && events[i].priority < least
  }

  /** The last such event, or the first event if there is none. */
  function LastDrop(events: seq<Event>): (d: nat)
    requires events != []
    ensures d < |events|
    ensures d > 0 ==> Drops(events, d)
    ensures forall i :: d < i < |events| ==> !Drops(events, i)
  {
    var n := |events| - 1;
    if n == 0 || Drops(events, n) then n
    else
      var d := LastDrop(events[..n]);
      assert forall i :: 0 <= i < n ==> events[..n][..i] == events[..i];
      assert forall i :: 0 <= i < n ==> (Drops(events[..n], i) <==> Drops(events, i));
      d
  }

  /**
    Closed form of coalescing, for every sequence of events: an active job created by events[0] that
    absorbed the others in order counts all of them, has the least priority, and carries the payload of
    the last event that lowered the priority from anything but 0 (or of events[0]), or of the first event
    after it that counts evidence if that one does not.
  */
  lemma {:induction false} AbsorbClosedForm(j: Job, events: seq<Event>, r: nat)
    requires events != [] && j.priority == events[0].priority && j.payload == events[0].payload
    requires Remembered(events, LastDrop(events), r)
    ensures var result := AbsorbAll(j, events[1..]);
            && result.priority == events[FirstLeast(events)].priority
            && result.payload == events[r].payload
            && result.coalescedCount == j.coalescedCount + |events| - 1
            && result.status == j.status && result.attempts == j.attempts && result.document == j.document
    decreases |events|
  {
    hide FirstLeast, LastDrop, Drops, Absorb, CountsEvidence;
    var n := |events| - 1;
    if n > 0 {
      var init := events[..n];
      var r0 := RememberedExists(init, LastDrop(init));
      assert events[1..][..n - 1] == init[1..];
      assert r0 < n && init[r0] == events[r0];
      RememberedStep(events, r0, r);
      hide Remembered;
      AbsorbClosedForm(j, init, r0);
      AbsorbOne(AbsorbAll(j, init[1..]), events, r0);
    }
  }

  lemma AbsorbOne(j: Job, events: seq<Event>, r: nat)
    requires |events| > 1 && r < |events| - 1
    requires var init := events[..|events| - 1];
             j.priority == init[FirstLeast(init)].priority && j.payload == events[r].payload
    ensures var n := |events| - 1;
            var result := Absorb(j, events[n]);
            var replaced := Drops(events, n) || (CountsEvidence(events[n].payload) && !CountsEvidence(events[r].payload));
            && result.priority == events[FirstLeast(events)].priority
            && result.payload == (if replaced then events[n].payload else events[r].payload)
            && result.coalescedCount == j.coalescedCount + 1
            && result.status == j.status && result.attempts == j.attempts && result.document == j.document
  {
    hide CountsEvidence;
  }

  lemma LastDropStep(events: seq<Event>)
    requires |events| > 1
    ensures var n := |events| - 1; LastDrop(events) == if Drops(events, n) then n else LastDrop(events[..n])
  {
    hide Drops;
  }

  /** How the remembered index moves when one more event arrives. */
  lemma RememberedStep(events: seq<Event>, r0: nat, r: nat)
    requires |events| > 1
    requires var init := events[..|events| - 1]; Remembered(init, LastDrop(init), r0)
    requires Remembered(events, LastDrop(events), r)
    ensures var n := |events| - 1;
            r == if Drops(events, n) || (CountsEvidence(events[n].payload) && !CountsEvidence(events[r0].payload)) then n else r0
  {
    var n := |events| - 1;
    var init := events[..n];
    LastDropStep(events);
    hide LastDrop, Drops, CountsEvidence, FirstLeast;
    assert forall i :: 0 <= i < n ==> init[i] == events[i];
    RememberedMoves(events, LastDrop(init), LastDrop(events), r0, r);
  }

  lemma RememberedMoves(events: seq<Event>, d0: nat, d: nat, r0: nat, r: nat)
    requires |events| > 1 && Remembered(events[..|events| - 1], d0, r0) && Remembered(events, d, r)
    requires d == d0 || d == |events| - 1
    ensures var n := |events| - 1;
            r == if d == n || (CountsEvidence(events[n].payload) && !CountsEvidence(events[r0].payload)) then n else r0
  {
    var init := events[..|events| - 1];
    assert forall i :: 0 <= i < |init| ==> init[i] == events[i];
    hide CountsEvidence;
  }

  lemma RememberedExists(events: seq<Event>, f: nat) returns (r: nat)
    requires f < |events|
    ensures Remembered(events, f, r)
  {
    r := f;
    while r < |events| && !CountsEvidence(events[r].payload)
      invariant f <= r <= |events|
      invariant forall i :: f <= i < r ==> !CountsEvidence(events[i].payload)
    {
      r := r + 1;
    }
    if r == |events| {
      r := f;
    }
  }

  lemma RememberedUnique(events: seq<Event>, f: nat, r: nat, r': nat)
    requires Remembered(events, f, r) && Remembered(events, f, r')
    ensures r == r'
  {
    hide CountsEvidence;
  }

  /** Some event from index `f` on counts evidence. */
  predicate EvidenceFrom(events: seq<Event>, f: nat) {
    exists i :: f <= i < |events| && CountsEvidence(events[i].payload)
  }

  /** When the last drop is the first event of least priority: always when that priority is not negative. */
  lemma LastDropIsFirstLeastIff(events: seq<Event>)
    requires events != []
    ensures var f := FirstLeast(events);
            && (LastDrop(events) == f <==> f == 0 || events[FirstLeast(events[..f])].priority != 0)
            && LastDrop(events) <= f
            && (events[f].priority >= 0 ==> LastDrop(events) == f)
  {
    var f, d := FirstLeast(events), LastDrop(events);
    forall i | f < i < |events| ensures !Drops(events, i) {
      assert events[..i][f] == events[f];
    }
    if f > 0 {
      assert events[..f][FirstLeast(events[..f])] == events[FirstLeast(events[..f])];
      assert Drops(events, f) <==> events[FirstLeast(events[..f])].priority != 0;
    }
    hide FirstLeast, LastDrop, Drops;
  }

  /** The payload kept is the one that counting from the first event of least priority would give. */
  ghost predicate FirstLeastRule(events: seq<Event>)
    requires events != []
  {
    exists r :: Remembered(events, LastDrop(events), r) && Remembered(events, FirstLeast(events), r)
  }

  /**
    Exactly when that rule holds: the event of least priority did not lower the priority from exactly 0,
    or else it or a later event counts evidence and none from the last drop up to it does.
  */
  lemma FirstLeastRuleIff(events: seq<Event>)
    requires events != []
    ensures var f := FirstLeast(events);
            FirstLeastRule(events) <==>
            || f == 0 || events[FirstLeast(events[..f])].priority != 0
            || (EvidenceFrom(events, f) && forall i :: LastDrop(events) <= i < f ==> !CountsEvidence(events[i].payload))
  {
    LastDropIsFirstLeastIff(events);
    var f, d := FirstLeast(events), LastDrop(events);
    var r := RememberedExists(events, d);
    var r' := RememberedExists(events, f);
    hide FirstLeast, LastDrop, CountsEvidence;
    forall q | Remembered(events, d, q) && Remembered(events, f, q) ensures q == r == r' {
      RememberedUnique(events, d, q, r);
      RememberedUnique(events, f, q, r');
    }
    assert FirstLeastRule(events) <==> r == r';
  }

  /**
    Over every sequence of events: the job ends with a payload that counts evidence exactly when some
    event from the last drop on does.
  */
  lemma EvidenceKeptIff(j: Job, events: seq<Event>)
    requires events != [] && j.priority == events[0].priority && j.payload == events[0].payload
    ensures CountsEvidence(AbsorbAll(j, events[1..]).payload) <==> EvidenceFrom(events, LastDrop(events))
  {
    var r := RememberedExists(events, LastDrop(events));
    AbsorbClosedForm(j, events, r);
  }

  /** The smallest example of the other case: priority 0 shields the old payload from a negative priority. */
  lemma ZeroPriorityShadowsNegative()
    ensures var j := NewJob(Event("d", 0, Payload(true, "old")));
            var r := Absorb(j, Event("d", -1, Payload(true, "new")));
            r.priority == -1 && r.payload == Payload(true, "old")
  {
  }

  /** Evidence can be forgotten: a strictly higher priority replaces even a payload that counts evidence. */
  lemma EvidenceCanBeForgotten(j: Job, e: Event)
    requires CountsEvidence(j.payload) && !CountsEvidence(e.payload)
    ensures !CountsEvidence(Absorb(j, e).payload) <==> j.priority != 0 && e.priority < j.priority
  {
  }

  /**
    At equal priority the flag alone decides: a stored payload without it gives way exactly to one with it
    or to an unreadable one, and a stored payload with it, or an unreadable one, never gives way.
  */
  lemma FlagDecides(j: Job, e: Event)
    requires e.priority == j.priority
    ensures Absorb(j, e).priority == j.priority
    ensures j.payload.Payload? && !j.payload.countEvidence ==>
              Absorb(j, e).payload == if e.payload.Unreadable? || e.payload.countEvidence then e.payload else j.payload
    ensures j.payload.Unreadable? || j.payload.countEvidence ==> Absorb(j, e).payload == j.payload
  {
  }

  /**
    Without a lower priority the stored payload stays if its flag is set or nobody's is, and otherwise
    the first one with the flag set takes its place and stays.
  */
  lemma {:induction false} FirstFlagStays(j: Job, events: seq<Event>)
    requires forall i :: 0 <= i < |events| ==> events[i].priority >= j.priority
    ensures AbsorbAll(j, events).priority == j.priority
    ensures j.payload.Unreadable? || j.payload.countEvidence ==> AbsorbAll(j, events).payload == j.payload
    ensures (forall i :: 0 <= i < |events| ==> events[i].payload.Payload? && !events[i].payload.countEvidence) ==>
              AbsorbAll(j, events).payload == j.payload
    ensures j.payload.Payload? && !j.payload.countEvidence ==>
              forall i :: FirstFlag(events, i) ==> AbsorbAll(j, events).payload == events[i].payload
    decreases |events|
  {
    if events != [] {
      FirstFlagStays(j, events[..|events| - 1]);
      forall i | FirstFlag(events, i) && i < |events| - 1 ensures FirstFlag(events[..|events| - 1], i) {
      }
    }
  }

  /** Event `i` is the first one whose payload has the flag set or is unreadable. */
  ghost predicate FirstFlag(events: seq<Event>, i: int) {
    && 0 <= i < |events| && (events[i].payload.Unreadable? || events[i].payload.countEvidence)
    && forall k :: 0 <= k < i ==> events[k].payload.Payload? && !events[k].payload.countEvidence
  }

  // ----- the row that a whole call leaves -----

  function ForDocument(document: string): Event -> bool { (e: Event) => e.document == document }

  /** A document's active job absorbs exactly the document's own events, in order, and stays the active one. */
  lemma {:induction false} CallAbsorbsOwnEvents(jobs: seq<Job>, events: seq<Event>, document: string)
    requires document != "" && Keeper(jobs, document) < |jobs|
    ensures var k, after := Keeper(jobs, document), EnqueueAll(jobs, events);
            && k < |after| && after[k] == AbsorbAll(jobs[k], Keep(events, ForDocument(document)))
            && Keeper(after, document) == k
    decreases |events|
  {
    hide Keeper, Absorb;
    var p := ForDocument(document);
    if events == [] {
      assert Keep(events, p) == [];
    } else {
      var n := |events| - 1;
      CallAbsorbsOwnEvents(jobs, events[..n], document);
      LastOwnEvent(events, document);
      var own := Keep(events[..n], p);
      assert (own + [events[n]])[..|own|] == own && own + [] == own;
      hide Keep;
      OneMoreOwnEvent(EnqueueAll(jobs, events[..n]), events[n], document);
    }
  }

  lemma OneMoreOwnEvent(jobs: seq<Job>, e: Event, document: string)
    requires document != "" && Keeper(jobs, document) < |jobs|
    ensures var k, after := Keeper(jobs, document), EnqueueOne(jobs, e);
            && |after| >= |jobs| && after[k] == (if e.document == document then Absorb(jobs[k], e) else jobs[k])
            && Keeper(after, document) == k
  {
    hide FirstWhere, Promotes;
    var k, after := Keeper(jobs, document), EnqueueOne(jobs, e);
    assert forall i :: 0 <= i < |jobs| ==> after[i].status == jobs[i].status && after[i].document == jobs[i].document;
    assert forall i :: |jobs| <= i < |after| ==> after[i].document == e.document && after[i].status == Pending;
    assert e.document == document ==> |after| == |jobs|;
    SameKeeper(jobs, after, document);
  }

  /** The keeper is determined by which rows are active for the document and which of them run. */
  lemma SameKeeper(a: seq<Job>, b: seq<Job>, document: string)
    requires |a| <= |b| && Keeper(a, document) < |a|
    requires forall i :: 0 <= i < |a| ==> b[i].status == a[i].status && b[i].document == a[i].document
    requires forall i :: |a| <= i < |b| ==> !ActiveFor(b[i], document)
    ensures Keeper(b, document) == Keeper(a, document)
  {
    hide FirstWhere;
    var k, l := Keeper(a, document), Keeper(b, document);
    assert ActiveFor(b[k], document);
    assert l < |a| && ActiveFor(a[l], document);
    hide Keeper;
  }

  /**
    A whole call without a lower priority for the document: its row ends with the flag set (or unreadable)
    exactly if it had it, or one of the document's own events has it; the payload is then the stored one
    or the first of those.
  */
  lemma CallKeepsEvidence(jobs: seq<Job>, events: seq<Event>, document: string)
    requires document != "" && Keeper(jobs, document) < |jobs|
    requires forall i :: 0 <= i < |events| && events[i].document == document ==>
               events[i].priority >= jobs[Keeper(jobs, document)].priority
    ensures var k, after := Keeper(jobs, document), EnqueueAll(jobs, events);
            && k < |after| && after[k].priority == jobs[k].priority
            && ((after[k].payload.Unreadable? || after[k].payload.countEvidence) <==>
                || jobs[k].payload.Unreadable? || jobs[k].payload.countEvidence
                || exists i :: 0 <= i < |events| && events[i].document == document &&
                     (events[i].payload.Unreadable? || events[i].payload.countEvidence))
            && (jobs[k].payload.Unreadable? || jobs[k].payload.countEvidence ==> after[k].payload == jobs[k].payload)
  {
    var k, own := Keeper(jobs, document), Keep(events, ForDocument(document));
    CallAbsorbsOwnEvents(jobs, events, document);
    forall e ensures e in own <==> e in events && e.document == document {
      KeepMembers(events, ForDocument(document), e);
    }
    hide Keeper, EnqueueAll, Keep;
    forall i | 0 <= i < |own| ensures own[i].priority >= jobs[k].priority {
      assert own[i] in own;
    }
    FirstFlagStays(jobs[k], own);
    hide AbsorbAll;
    var f := FirstFlagExists(own);
    if f < |own| {
      assert own[f] in own;
    }
  }

  /** The first event with the flag set, or the length when there is none. */
  lemma FirstFlagExists(events: seq<Event>) returns (f: nat)
    ensures f <= |events| && (f < |events| ==> FirstFlag(events, f))
    ensures f == |events| ==> forall e :: e in events ==> e.payload.Payload? && !e.payload.countEvidence
  {
    f := 0;
    while f < |events| && events[f].payload.Payload? && !events[f].payload.countEvidence
      invariant f <= |events|
      invariant forall k :: 0 <= k < f ==> events[k].payload.Payload? && !events[k].payload.countEvidence
    {
      f := f + 1;
    }
  }

  /** For a document without an active job the first of its events inserts the row that absorbs the others. */
  lemma {:induction false} CallInsertsFirstEvent(jobs: seq<Job>, events: seq<Event>, document: string)
    requires document != "" && Keeper(jobs, document) == |jobs| && Keep(events, ForDocument(document)) != []
    ensures var own, after := Keep(events, ForDocument(document)), EnqueueAll(jobs, events);
            var k := Keeper(after, document);
            && |jobs| <= k < |after| && after[k] == AbsorbAll(NewJob(own[0]), own[1..])
    decreases |events|
  {
    var p, n := ForDocument(document), |events| - 1;
    assert events != [];
    LastOwnEvent(events, document);
    hide Keeper, Absorb, Keep, EnqueueOne;
    var before, own := EnqueueAll(jobs, events[..n]), Keep(events[..n], p);
    if own == [] {
      NoneAbsorbed(jobs, events[..n], document);
      InsertedRow(before, events[n]);
      assert Keep(events, p) == [events[n]] && [events[n]][1..] == [];
      assert |jobs| <= |before| by { EnqueueAllSafe(jobs, events[..n]); }
    } else {
      CallInsertsFirstEvent(jobs, events[..n], document);
      OneMoreOwnEvent(before, events[n], document);
      AbsorbLast(NewJob(own[0]), own, events[n]);
    }
  }

  lemma AbsorbLast(j: Job, own: seq<Event>, e: Event)
    requires own != []
    ensures AbsorbAll(j, (own + [e])[1..]) == Absorb(AbsorbAll(j, own[1..]), e)
  {
    hide Absorb;
    assert (own + [e])[1..] == own[1..] + [e] && (own[1..] + [e])[..|own| - 1] == own[1..];
  }

  lemma LastOwnEvent(events: seq<Event>, document: string)
    requires events != []
    ensures var p, n := ForDocument(document), |events| - 1;
            && (events[n].document == document ==> Keep(events, p) == Keep(events[..n], p) + [events[n]])
            && (events[n].document != document ==> Keep(events, p) == Keep(events[..n], p))
  {
    hide Keep;
    var n := |events| - 1;
    assert events == events[..n] + [events[n]];
    KeepLast(events[..n], events[n], ForDocument(document));
  }

  lemma {:induction false} NoneAbsorbed(jobs: seq<Job>, events: seq<Event>, document: string)
    requires document != "" && Keeper(jobs, document) == |jobs| && Keep(events, ForDocument(document)) == []
    ensures Keeper(EnqueueAll(jobs, events), document) == |EnqueueAll(jobs, events)|
    decreases |events|
  {
    hide Keeper, Absorb;
    if events != [] {
      var n := |events| - 1;
      LastOwnEvent(events, document);
      NoneAbsorbed(jobs, events[..n], document);
      OtherEventKeepsNone(EnqueueAll(jobs, events[..n]), events[n], document);
    }
  }

  lemma OtherEventKeepsNone(jobs: seq<Job>, e: Event, document: string)
    requires Keeper(jobs, document) == |jobs| && e.document != document
    ensures Keeper(EnqueueOne(jobs, e), document) == |EnqueueOne(jobs, e)|
  {
    hide FirstWhere, Promotes;
    var after := EnqueueOne(jobs, e);
    assert forall i :: 0 <= i < |after| ==> !ActiveFor(after[i], document);
  }

  /**
    The same for a document without an active job whose first event has the least priority: the row that
    the call inserts is pending, untried, of that priority, and has the flag set (or is unreadable) exactly if
    one of the document's own events has it.
  */
  lemma CallStartsWithEvidence(jobs: seq<Job>, events: seq<Event>, document: string)
    requires document != "" && Keeper(jobs, document) == |jobs| && Keep(events, ForDocument(document)) != []
    requires var own := Keep(events, ForDocument(document));
             forall i :: 0 <= i < |own| ==> own[i].priority >= own[0].priority
    ensures var own, after := Keep(events, ForDocument(document)), EnqueueAll(jobs, events);
            var k := Keeper(after, document);
            && |jobs| <= k < |after| && after[k].priority == own[0].priority && after[k].document == document
            && after[k].status == Pending && after[k].attempts == 0 && after[k].coalescedCount == |own| - 1
            && ((after[k].payload.Unreadable? || after[k].payload.countEvidence) <==>
                exists i :: 0 <= i < |own| && (own[i].payload.Unreadable? || own[i].payload.countEvidence))
  {
    var own := Keep(events, ForDocument(document));
    CallInsertsFirstEvent(jobs, events, document);
    KeepMembers(events, ForDocument(document), own[0]);
    hide Keeper, EnqueueAll, Keep, AbsorbAll;
    AbsorbedFields(NewJob(own[0]), own[1..]);
    FirstEventAbsorbs(own);
  }

  /** A new row that absorbs events of no lower priority. */
  lemma FirstEventAbsorbs(own: seq<Event>)
    requires own != [] && forall i :: 0 <= i < |own| ==> own[i].priority >= own[0].priority
    ensures var r := AbsorbAll(NewJob(own[0]), own[1..]);
            && r.priority == own[0].priority
            && ((r.payload.Unreadable? || r.payload.countEvidence) <==>
                exists i :: 0 <= i < |own| && (own[i].payload.Unreadable? || own[i].payload.countEvidence))
  {
    hide AbsorbAll;
    FirstFlagStays(NewJob(own[0]), own[1..]);
    var f := FirstFlagExists(own[1..]);
    if f < |own| - 1 {
      assert own[1..][f] == own[f + 1];
    } else {
      forall i | 0 < i < |own| ensures own[i] in own[1..] {
        assert own[i] == own[1..][i - 1];
      }
    }
  }

  lemma {:induction false} AbsorbedFields(j: Job, events: seq<Event>)
    ensures var r := AbsorbAll(j, events);
            && r.status == j.status && r.attempts == j.attempts && r.document == j.document
            && r.coalescedCount == j.coalescedCount + |events|
    decreases |events|
  {
    if events != [] {
      AbsorbedFields(j, events[..|events| - 1]);
    }
  }

  lemma InsertedRow(jobs: seq<Job>, e: Event)
    requires e.document != "" && Keeper(jobs, e.document) == |jobs|
    ensures EnqueueOne(jobs, e) == jobs + [NewJob(e)] && Keeper(EnqueueOne(jobs, e), e.document) == |jobs|
  {
    hide FirstWhere;
    var after := EnqueueOne(jobs, e);
    assert ActiveFor(after[|jobs|], e.document);
    assert forall i :: 0 <= i < |jobs| ==> !ActiveFor(after[i], e.document);
  }

  /** The closed form of the stored row: its own priority and payload count as a first event, before the document's own ones. */
  lemma StoredRowClosedForm(jobs: seq<Job>, events: seq<Event>, document: string, r: nat)
    requires document != "" && Keeper(jobs, document) < |jobs|
    requires var j := jobs[Keeper(jobs, document)];
             var all := [Event(document, j.priority, j.payload)] + Keep(events, ForDocument(document));
             Remembered(all, LastDrop(all), r)
    ensures var k, after := Keeper(jobs, document), EnqueueAll(jobs, events);
            var all := [Event(document, jobs[k].priority, jobs[k].payload)] + Keep(events, ForDocument(document));
            && k < |after| && Keeper(after, document) == k
            && after[k].priority == all[FirstLeast(all)].priority && after[k].payload == all[r].payload
            && after[k].coalescedCount == jobs[k].coalescedCount + |all| - 1
            && (CountsEvidence(after[k].payload) <==> EvidenceFrom(all, LastDrop(all)))
  {
    var k := Keeper(jobs, document);
    var own := Keep(events, ForDocument(document));
    var all := [Event(document, jobs[k].priority, jobs[k].payload)] + own;
    assert all[1..] == own;
    CallAbsorbsOwnEvents(jobs, events, document);
    hide FirstLeast, LastDrop, Keep, Keeper, AbsorbAll, EnqueueAll, Remembered, CountsEvidence;
    AbsorbClosedForm(jobs[k], all, r);
    EvidenceKeptIff(jobs[k], all);
  }
}
