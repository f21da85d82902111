/** The job queue as the program runs it: workers fetch, execute and finish jobs, the sweep recovers
    orphans and the collector deletes old rows, all by updating one table in place. */
module JobQueue {
  import opened Batches
  import opened JobQueueSpec

  lemma FetchOrderTotal(cfg: Config, jobs: map<int, Job>, c: set<int>)
    requires c <= jobs.Keys
    ensures TotalOrder(c, FetchOrder(cfg, jobs))
  {
  }

  // Deleting some expired rows leaves the same rows to keep.
  lemma KeptAfterBatch(jobs: map<int, Job>, batch: set<int>, earlier: int, cutoff: int)
    requires earlier <= cutoff && forall id :: id in batch ==> id in jobs && Expired(jobs[id], earlier)
    ensures KeptJobs(jobs - batch, cutoff) == KeptJobs(jobs, cutoff)
  {
    var a, b := KeptJobs(jobs - batch, cutoff), KeptJobs(jobs, cutoff);
    forall id ensures id in a <==> id in b {
      if id in batch { assert Expired(jobs[id], cutoff); }
    }
  }

  lemma KeptAfterAll(jobs: map<int, Job>, batch: set<int>, cutoff: int)
    requires batch == ExpiredIds(jobs, cutoff)
    ensures jobs - batch == KeptJobs(jobs, cutoff)
  {
    var a, b := jobs - batch, KeptJobs(jobs, cutoff);
    forall id ensures id in a <==> id in b {}
  }

  // From `cutoff` on, the two tables keep the same rows.
  ghost predicate SameKept(a: map<int, Job>, b: map<int, Job>, cutoff: int) {
    forall c :: cutoff <= c ==> KeptJobs(a, c) == KeptJobs(b, c)
  }

  lemma SameKeptAfterBatch(jobs: map<int, Job>, batch: set<int>, cutoff: int)
    requires forall id :: id in batch ==> id in jobs && Expired(jobs[id], cutoff)
    ensures SameKept(jobs - batch, jobs, cutoff)
  {
    forall c | cutoff <= c ensures KeptJobs(jobs - batch, c) == KeptJobs(jobs, c) {
      KeptAfterBatch(jobs, batch, cutoff, c);
    }
  }

  lemma RemovedSize(jobs: map<int, Job>, gone: set<int>)
    requires gone <= jobs.Keys
    ensures |jobs - gone| == |jobs| - |gone|
  {
    assert (jobs - gone).Keys == jobs.Keys - gone;
  }

  lemma LockOne(jobs: map<int, Job>, ids: seq<int>, id: int, now: int)
    requires id in jobs && id !in ids
    ensures LockedJobs(jobs, ids, now)[id := Locked(jobs[id], now)] == LockedJobs(jobs, ids + [id], now)
  {
  }

  ghost predicate Monotone(clock: nat -> int) { forall i: nat, j: nat :: i <= j ==> clock(i) <= clock(j) }

  class Queue {
    const config: Config
    var jobs: map<int, Job>
    var running: map<int, Execution>
    var nextJob: int
    var nextExec: int
    ghost var clock: int

    ghost function Now(): State reads this { State(jobs, running, nextJob, nextExec, clock) }

    constructor (config: Config)
      ensures this.config == config && Now() == START
    {
      this.config := config;
      jobs, running, nextJob, nextExec, clock := map[], map[], 0, 0, 0;
    }

    method EnqueueAfter(jobType: string, retries: nat, delay: nat, now: int)
      requires clock <= now
      modifies this
      ensures Next(config, old(Now()), Enqueue(now, jobType, retries, delay), Now())
    {
      jobs := jobs[nextJob := NewJob(jobType, retries, now + delay)];
      nextJob, clock := nextJob + 1, now;
    }

    // Takes the first due jobs that no other worker has locked, marks them running and starts one
    // execution for each.
    method FetchDue(jobType: string, limit: nat, skipped: set<int>, now: int) returns (ids: seq<int>)
      requires clock <= now
      modifies this
      ensures Next(config, old(Now()), Fetch(now, jobType, skipped, limit, ids), Now())
    {
      var due := DueJobs(jobs, jobType, now) - skipped;
      FetchOrderTotal(config, jobs, due);
      ids := TakeFirst(due, FetchOrder(config, jobs), limit);
      var started := LockAndMark(ids, now);
      running := running + started;
      nextExec, clock := nextExec + |ids|, now;
    }

    method LockAndMark(ids: seq<int>, now: int) returns (started: map<int, Execution>)
      requires forall i :: 0 <= i < |ids| ==> ids[i] in jobs
      requires forall i, j :: 0 <= i < j < |ids| ==> ids[i] != ids[j]
      modifies this`jobs
      ensures jobs == LockedJobs(old(jobs), ids, now) && started == Started(old(jobs), nextExec, ids, now)
    {
      started := map[];
      for i := 0 to |ids|
        invariant jobs == LockedJobs(old(jobs), ids[..i], now)
        invariant started == Started(old(jobs), nextExec, ids[..i], now)
      {
        var id := ids[i];
        assert ids[..i + 1] == ids[..i] + [id] && ids[..i + 1][..i] == ids[..i];
        LockOne(old(jobs), ids[..i], id, now);
        started := started[nextExec + i := ExecutionOf(jobs, id, now)];
        jobs := jobs[id := Locked(jobs[id], now)];
      }
      assert ids[..|ids|] == ids;
    }

    // One turn of a worker's loop: it asks for no more jobs than it has permits left, so it never runs
    // more than `concurrency` executions at once.
    method Poll(jobType: string, concurrency: nat, mine: set<int>, skipped: set<int>, now: int)
      returns (held: set<int>, ids: seq<int>)
      requires clock <= now && |mine| <= concurrency
      modifies this
      ensures |held| <= concurrency && mine <= held
      ensures |mine| == concurrency ==> held == mine && Now() == old(Now())
      ensures |mine| < concurrency ==>
        && Next(config, old(Now()), Fetch(now, jobType, skipped, concurrency - |mine|, ids), Now())
        && forall x :: x in held <==> x in mine || old(nextExec) <= x < nextExec
    {
      held, ids := mine, [];
      var permits := concurrency - |mine|;
      if permits == 0 { return; }
      var first := nextExec;
      ids := FetchDue(jobType, permits, skipped, now);
      for i := 0 to |ids|
        invariant |held| <= |mine| + i && mine <= held
        invariant forall x :: x in held <==> x in mine || first <= x < first + i
      {
        held := held + {first + i};
      }
    }

    // The end of an execution: done on success, retried or failed otherwise.
    method FinishJob(x: int, ok: bool, now: int)
      requires clock <= now && x in running
      modifies this
      ensures Next(config, old(Now()), Finish(now, x, ok), Now())
    {
      var e := running[x];
      running := running - {x};
      clock := now;
      if ok {
        MarkDone(e.job, now);
      } else {
        FinishFailure(e, now);
      }
    }

    method FinishFailure(e: Execution, now: int)
      modifies this`jobs
      ensures jobs == if e.job in old(jobs)
                      then old(jobs)[e.job := Finished(config, old(jobs)[e.job], e, false, now)] else old(jobs)
    {
      var attempts := e.attempts + 1;
      if attempts < e.maxAttempts {
        ScheduleRetry(e.job, attempts, now + BackoffDelay(attempts, config.backoffBase, config.backoffCap));
      } else {
        MarkFailed(e.job, attempts, now);
      }
    }

    method MarkDone(id: int, now: int)
      modifies this`jobs
      ensures jobs == if id in old(jobs) then old(jobs)[id := MarkedDone(old(jobs)[id], now)] else old(jobs)
    {
      if id in jobs { jobs := jobs[id := MarkedDone(jobs[id], now)]; }
    }

    method ScheduleRetry(id: int, attempts: int, runAt: int)
      modifies this`jobs
      ensures jobs == if id in old(jobs) then old(jobs)[id := Retried(old(jobs)[id], attempts, runAt)] else old(jobs)
    {
      if id in jobs { jobs := jobs[id := Retried(jobs[id], attempts, runAt)]; }
    }

    method MarkFailed(id: int, attempts: int, now: int)
      modifies this`jobs
      ensures jobs == if id in old(jobs) then old(jobs)[id := MarkedFailed(old(jobs)[id], attempts, now)] else old(jobs)
    {
      if id in jobs { jobs := jobs[id := MarkedFailed(jobs[id], attempts, now)]; }
    }

    method ReenqueueOrphaned(now: int) returns (count: int)
      requires clock <= now
      modifies this`jobs, this`clock
      ensures Next(config, old(Now()), Sweep(now), Now())
      ensures count == |set id | id in old(jobs) && Orphan(old(jobs)[id], now - config.orphanTimeout)|
      ensures forall id :: id in jobs ==> !Orphan(jobs[id], now - config.orphanTimeout)
    {
      var olderThan := now - config.orphanTimeout;
      count := |set id | id in jobs && Orphan(jobs[id], olderThan)|;
      jobs := SweptJobs(jobs, olderThan);
      clock := now;
    }

    // Deletes expired rows batch by batch, the clock moving on between batches, until a batch comes
    // back short.  Undisturbed, exactly the rows expired at the last batch are then gone.
    method DeleteFinishedOlderThan(days: int, moment: nat -> int) returns (deleted: int, batches: nat)
      requires Monotone(moment) && clock <= moment(0)
      modifies this`jobs, this`clock
      ensures batches > 0 && clock == moment(batches - 1)
      ensures jobs == KeptJobs(old(jobs), clock - days * MILLIS_PER_DAY)
      ensures deleted == |old(jobs)| - |jobs|
    {
      deleted, batches := 0, 0;
      var more := true;
      while more
        invariant clock <= moment(batches) && jobs.Keys <= old(jobs).Keys && deleted == |old(jobs)| - |jobs|
        invariant if batches == 0 then jobs == old(jobs)
                  else SameKept(jobs, old(jobs), moment(batches - 1) - days * MILLIS_PER_DAY)
        invariant !more ==> batches > 0 && clock == moment(batches - 1)
        invariant !more ==> jobs == KeptJobs(old(jobs), clock - days * MILLIS_PER_DAY)
        decreases more, |jobs|
      {
        var gone := DeleteBatch(days, moment(batches));
        deleted, batches := deleted + |gone|, batches + 1;
        more := |gone| >= GC_BATCH;
      }
    }

    // One statement: up to GC_BATCH expired rows, in no particular order.
    method DeleteBatch(days: int, now: int) returns (gone: set<int>)
      requires clock <= now
      modifies this`jobs, this`clock
      ensures clock == now && Next(config, old(Now()), Collect(now, days, gone), Now())
      ensures jobs.Keys <= old(jobs).Keys && |gone| == |old(jobs)| - |jobs| && |gone| <= 1000
      ensures SameKept(jobs, old(jobs), now - days * MILLIS_PER_DAY)
      ensures |gone| < 1000 ==> jobs == KeptJobs(old(jobs), now - days * MILLIS_PER_DAY)
    {
      var cutoff := now - days * MILLIS_PER_DAY;
      gone := TakeSome(ExpiredIds(jobs, cutoff), GC_BATCH);
      RemovedSize(jobs, gone);
      SameKeptAfterBatch(jobs, gone, cutoff);
      if |gone| < GC_BATCH { KeptAfterAll(jobs, gone, cutoff); }
      jobs, clock := jobs - gone, now;
    }
  }
}
