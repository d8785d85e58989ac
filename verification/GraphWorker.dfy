/**
  The worker loop that drains the graph queue: claim, run the indexer, finish or fail.

  The indexer is an arbitrary oracle of (job, attempt); waiting, quiet hours and heartbeats do not
  touch the queue and are not modelled.
*/
module GraphWorker {
  import opened Wrappers
  import opened Seqs
  import Q = GraphQueue

  /** A result that lists errors is turned into an exception by the worker. */
  datatype Outcome = Returned(oversize: seq<bool>) | ReturnedErrors | Raised

  type Indexer = (nat, nat) -> Outcome

  /** Where a pending job with `attempts` behind it ends, and after how many attempts in all. */
  function Settle(id: nat, attempts: nat, maxAttempts: int, indexer: Indexer): (r: (Q.Status, nat))
    ensures r.0 != Q.Pending && r.0 != Q.Running
    ensures attempts < r.1 <= Max(attempts + 1, maxAttempts)
    ensures forall t :: attempts < t < r.1 ==> !indexer(id, t).Returned?
    ensures r.0 == Q.Failed <==> !indexer(id, r.1).Returned?
    ensures r.0 == Q.Failed ==> r.1 == Max(attempts + 1, maxAttempts)
    decreases maxAttempts - attempts
  {
    var a := attempts + 1;
    match indexer(id, a)
    case Returned(oversize) => (Q.FinishStatus(Q.Report(false, oversize)), a)
    case _ => if a < maxAttempts then Settle(id, a, maxAttempts, indexer) else (Q.Failed, a)
  }

  /** The largest number of claims a job may still need. */
  function Tries(j: Q.Job, maxAttempts: int): nat {
    if j.status == Q.Pending then Max(1, maxAttempts - j.attempts) else 0
  }

  function Work(jobs: seq<Q.Job>, maxAttempts: int): nat {
    if jobs == [] then 0 else Work(jobs[..|jobs| - 1], maxAttempts) + Tries(jobs[|jobs| - 1], maxAttempts)
  }

  lemma {:induction false} WorkUpdate(jobs: seq<Q.Job>, i: nat, j: Q.Job, maxAttempts: int)
    requires i < |jobs|
    ensures Work(jobs[i := j], maxAttempts) == Work(jobs, maxAttempts) - Tries(jobs[i], maxAttempts) + Tries(j, maxAttempts)
  {
    var n := |jobs| - 1;
    if i == n {
      assert jobs[i := j][..n] == jobs[..n];
    } else {
      assert jobs[i := j][..n] == jobs[..n][i := j];
      WorkUpdate(jobs[..n], i, j, maxAttempts);
    }
  }

  /** The work adds up over the rows: a pending one needs at most what is left of its attempts, at least one, any other none. */
  lemma {:induction false} WorkAddsUp(a: seq<Q.Job>, b: seq<Q.Job>, j: Q.Job, maxAttempts: int)
    ensures Work(a + b, maxAttempts) == Work(a, maxAttempts) + Work(b, maxAttempts)
    ensures Work([j], maxAttempts) ==
            if j.status != Q.Pending then 0 else if j.attempts + 1 < maxAttempts then maxAttempts - j.attempts else 1
  {
    hide Tries;
    assert [j][..0] == [] && Work([], maxAttempts) == 0;
    TriesOf(j, maxAttempts);
    if b == [] {
      assert a + b == a;
    } else {
      var n := |b| - 1;
      assert (a + b)[..|a + b| - 1] == a + b[..n];
      WorkAddsUp(a, b[..n], j, maxAttempts);
    }
  }

  lemma TriesOf(j: Q.Job, maxAttempts: int)
    ensures Tries(j, maxAttempts) ==
            if j.status != Q.Pending then 0 else if j.attempts + 1 < maxAttempts then maxAttempts - j.attempts else 1
  {
  }

  /** Row `j` is what became of row `j0`: settled where that was pending, otherwise untouched. */
  ghost predicate OnTheWay(id: nat, j0: Q.Job, j: Q.Job, maxAttempts: int, indexer: Indexer) {
    && j == j0.(status := j.status, attempts := j.attempts, startedAt := j.startedAt)
    && if j0.status != Q.Pending then j == j0
       else if j.status == Q.Pending
       then Settle(id, j.attempts, maxAttempts, indexer) == Settle(id, j0.attempts, maxAttempts, indexer)
       else (j.status, j.attempts) == Settle(id, j0.attempts, maxAttempts, indexer)
  }

  /** Row `id` after one claim and its result. */
  function Attempted(id: nat, j: Q.Job, now: int, maxAttempts: int, indexer: Indexer): Q.Job {
    var run := Q.Claimed(j, now);
    run.(status := match indexer(id, run.attempts)
                   case Returned(oversize) => Q.FinishStatus(Q.Report(false, oversize))
                   case _ => if run.attempts < maxAttempts then Q.Pending else Q.Failed)
  }

  lemma AttemptProgresses(id: nat, j0: Q.Job, j: Q.Job, now: int, maxAttempts: int, indexer: Indexer)
    requires j.status == Q.Pending && OnTheWay(id, j0, j, maxAttempts, indexer)
    ensures OnTheWay(id, j0, Attempted(id, j, now, maxAttempts, indexer), maxAttempts, indexer)
    ensures Tries(Attempted(id, j, now, maxAttempts, indexer), maxAttempts) < Tries(j, maxAttempts)
  {
  }

  /** One turn of the loop: claim the least (priority, id), run the indexer, finish or fail. */
  method ProcessNext(queue: Q.GraphQueue, maxAttempts: int, indexer: Indexer, now: int) returns (claimed: Option<nat>)
    requires queue.enabled
    modifies queue
    ensures claimed.None? ==>
              queue.jobs == old(queue.jobs) && forall i :: 0 <= i < |queue.jobs| ==> queue.jobs[i].status != Q.Pending
    ensures claimed.Some? ==>
              var id, jobs := claimed.value, old(queue.jobs);
              && id < |jobs| && id == Q.NextPending(jobs)
              && queue.jobs == jobs[id := Attempted(id, jobs[id], now, maxAttempts, indexer)]
  {
    claimed := queue.ClaimNext(now);
    if claimed.Some? {
      var id := claimed.value;
      var attempts := queue.jobs[id].attempts;
      match indexer(id, attempts) {
        case Returned(oversize) => queue.Finish(id, Q.Report(false, oversize));
        case _ => queue.Fail(id, attempts < maxAttempts);
      }
    }
  }

  /**
    Without new enqueues or crashes the loop empties the queue: every pending job ends at its first
    successful attempt or, after the attempt limit, in the failed state; nothing else changes; and
    the number of claims is at most the sum of max(1, limit - attempts) over the pending jobs.
  */
  method Drain(queue: Q.GraphQueue, maxAttempts: int, indexer: Indexer, clock: nat -> int) returns (claims: nat)
    requires queue.enabled
    modifies queue
    ensures |queue.jobs| == |old(queue.jobs)|
    ensures forall i :: 0 <= i < |queue.jobs| ==>
              queue.jobs[i].status != Q.Pending && OnTheWay(i, old(queue.jobs)[i], queue.jobs[i], maxAttempts, indexer)
    ensures claims <= Work(old(queue.jobs), maxAttempts)
  {
    claims := 0;
    while true
      invariant |queue.jobs| == |old(queue.jobs)|
      invariant forall i :: 0 <= i < |queue.jobs| ==>
                  OnTheWay(i, old(queue.jobs)[i], queue.jobs[i], maxAttempts, indexer)
      invariant claims + Work(queue.jobs, maxAttempts) <= Work(old(queue.jobs), maxAttempts)
      decreases Work(queue.jobs, maxAttempts)
    {
      hide OnTheWay, Attempted, Work, Tries;
      ghost var before := queue.jobs;
      var now := clock(claims);
      var claimed := ProcessNext(queue, maxAttempts, indexer, now);
      if claimed.None? {
        return;
      }
      var id := claimed.value;
      AttemptProgresses(id, old(queue.jobs)[id], before[id], now, maxAttempts, indexer);
      WorkUpdate(before, id, queue.jobs[id], maxAttempts);
      claims := claims + 1;
    }
  }
}
