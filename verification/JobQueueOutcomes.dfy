/** What each statement of the job queue does in plain terms, and what the outcomes of executions make of a job over
    every run. */
module JobQueueOutcomes {
  import opened Wrappers
  import opened JobQueueSpec
  import opened JobQueueTheorems

  // ---- Taking jobs ----

  // The job is waiting, is of this type and is due.
  predicate Wanted(j: Job, jobType: string, now: int) { j.jobType == jobType && j.status == Pending && j.runAt <= now }

  // In the order of the database: by due time and number, or by number alone.
  predicate ComesFirst(cfg: Config, jobs: map<int, Job>, a: int, b: int)
    requires a in jobs && b in jobs
  {
    match cfg.dialect
    case Postgres => jobs[a].runAt < jobs[b].runAt || (jobs[a].runAt == jobs[b].runAt && a < b)
    case Sqlite => a < b
  }

  // A worker takes jobs of its own type, waiting and due, in order and up to its limit; what it leaves of these is
  // locked by others or comes after a full batch.
  lemma FetchExactly(cfg: Config, s: State, step: Step, s': State)
    requires step.Fetch? && Next(cfg, s, step, s')
    ensures |step.ids| <= step.limit
    ensures forall i :: 0 <= i < |step.ids| ==>
      step.ids[i] in s.jobs && Wanted(s.jobs[step.ids[i]], step.jobType, step.now) && step.ids[i] !in step.skipped
    ensures forall i, j :: 0 <= i < j < |step.ids| ==> ComesFirst(cfg, s.jobs, step.ids[i], step.ids[j])
    ensures forall id ::
      id in s.jobs && Wanted(s.jobs[id], step.jobType, step.now) && id !in step.skipped && id !in step.ids ==>
      |step.ids| == step.limit && forall i :: 0 <= i < |step.ids| ==> ComesFirst(cfg, s.jobs, step.ids[i], id)
  {
    var due := DueJobs(s.jobs, step.jobType, step.now) - step.skipped;
    forall i | 0 <= i < |step.ids|
      ensures step.ids[i] in s.jobs && Wanted(s.jobs[step.ids[i]], step.jobType, step.now)
      ensures step.ids[i] !in step.skipped
    {
      assert step.ids[i] in due;
    }
    forall id | id in s.jobs && Wanted(s.jobs[id], step.jobType, step.now) && id !in step.skipped && id !in step.ids
      ensures |step.ids| == step.limit && forall i :: 0 <= i < |step.ids| ==> ComesFirst(cfg, s.jobs, step.ids[i], id)
    {
      assert id in due;
      forall i | 0 <= i < |step.ids| ensures ComesFirst(cfg, s.jobs, step.ids[i], id) {
        assert step.ids[i] in step.ids;
      }
    }
  }

  // Taken jobs are running from now on, each held by one new execution with its counters; others are untouched.
  lemma FetchEffect(cfg: Config, s: State, step: Step, s': State, id: int)
    requires step.Fetch? && Next(cfg, s, step, s') && id in s.jobs
    ensures id in s'.jobs
    ensures id !in step.ids ==> s'.jobs[id] == s.jobs[id]
    ensures id in step.ids ==> s'.jobs[id].status == Running && s'.jobs[id].lockAt == Some(step.now)
    ensures SameButLock(s.jobs[id], s'.jobs[id])
  {
  }

  predicate SameButLock(j: Job, k: Job) {
    && k.jobType == j.jobType && k.attempts == j.attempts && k.maxAttempts == j.maxAttempts
    && k.runAt == j.runAt && k.doneAt == j.doneAt
  }

  // ---- Enqueueing ----

  lemma EnqueueExactly(cfg: Config, s: State, step: Step, s': State)
    requires JobsInv(s) && step.Enqueue? && Next(cfg, s, step, s')
    ensures s.nextJob !in s.jobs && s'.jobs.Keys == s.jobs.Keys + {s.nextJob} && s'.nextJob == s.nextJob + 1
    ensures var j := s'.jobs[s.nextJob];
      && j.jobType == step.jobType && j.status == Pending && j.attempts == 0 && j.maxAttempts == step.retries + 1
      && j.runAt == step.now + step.delay && j.lockAt == None && j.doneAt == None
    ensures s'.running == s.running && forall id :: id in s.jobs ==> s'.jobs[id] == s.jobs[id]
  {
  }

  // No step changes a job's type or limit.
  lemma StepKeepsType(cfg: Config, s: State, step: Step, s': State, id: int)
    requires JobsInv(s) && Next(cfg, s, step, s') && id < s.nextJob
    ensures id < s'.nextJob && (id in s'.jobs ==> id in s.jobs)
    ensures id in s'.jobs ==>
      s'.jobs[id].jobType == s.jobs[id].jobType && s'.jobs[id].maxAttempts == s.jobs[id].maxAttempts
  {
  }

  lemma RunKeepsType(cfg: Config, states: seq<State>, steps: seq<Step>, id: int, k: nat)
    requires TimelyRun(cfg, states, steps) && k < |steps| && id < states[k].nextJob
    ensures id < states[k + 1].nextJob && (id in states[k + 1].jobs ==> id in states[k].jobs)
    ensures id in states[k + 1].jobs ==>
      && states[k + 1].jobs[id].jobType == states[k].jobs[id].jobType
      && states[k + 1].jobs[id].maxAttempts == states[k].jobs[id].maxAttempts
  {
    RunInv(cfg, states, steps, k);
    StepKeepsType(cfg, states[k], steps[k], states[k + 1], id);
  }

  // A row keeps the type it was enqueued with, and its limit of one attempt more than its retries.
  lemma {:induction false} TypeKept(cfg: Config, states: seq<State>, steps: seq<Step>, i: nat, k: nat)
    requires TimelyRun(cfg, states, steps) && i < k < |states| && steps[i].Enqueue?
    ensures var id := states[i].nextJob;
      && id < states[k].nextJob
      && (id in states[k].jobs ==>
            states[k].jobs[id].jobType == steps[i].jobType && states[k].jobs[id].maxAttempts == steps[i].retries + 1)
    decreases k
  {
    RunInv(cfg, states, steps, i);
    if i + 1 < k {
      TypeKept(cfg, states, steps, i, k - 1);
      RunKeepsType(cfg, states, steps, states[i].nextJob, k - 1);
    } else {
      EnqueueExactly(cfg, states[i], steps[i], states[k]);
    }
  }

  // ---- Finishing ----

  // A finishing execution makes its job done on success; on failure it has one attempt more, and is failed exactly
  // when that is the last, else waiting again until its backoff is over.
  lemma FinishExactly(cfg: Config, s: State, step: Step, s': State)
    requires Inv(cfg, s) && step.Finish? && Next(cfg, s, step, s') && InTime(s, step, cfg.orphanTimeout)
    ensures var id := s.running[step.x].job;
      && id in s.jobs && id in s'.jobs && s.jobs[id].status == Running
      && s'.jobs[id].maxAttempts == s.jobs[id].maxAttempts
      && (s'.jobs[id].status == Done <==> step.ok)
      && (step.ok ==> s'.jobs[id].attempts == s.jobs[id].attempts && s'.jobs[id].doneAt == Some(step.now))
      && (!step.ok ==> s'.jobs[id].attempts == s.jobs[id].attempts + 1 && s'.jobs[id].lockAt == None)
      && (!step.ok ==> (s'.jobs[id].status == Failed <==> s.jobs[id].attempts + 1 == s.jobs[id].maxAttempts))
      && (s'.jobs[id].status == Failed ==> s'.jobs[id].doneAt == Some(step.now))
      && (!step.ok && s'.jobs[id].status != Failed ==>
            && s'.jobs[id].status == Pending
            && s'.jobs[id].runAt ==
                 step.now + BackoffDelay(s.jobs[id].attempts + 1, cfg.backoffBase, cfg.backoffCap))
    ensures step.x !in s'.running
    ensures forall id :: id in s.jobs && id != s.running[step.x].job ==> id in s'.jobs && s'.jobs[id] == s.jobs[id]
  {
    FinishKeeps(cfg, s, step, s');
  }

  // The execution of step k finishes job id with this outcome.
  predicate Finishes(s: State, step: Step, id: int, ok: bool) {
    step.Finish? && step.x in s.running && s.running[step.x].job == id && step.ok == ok
  }

  function FinishCount(states: seq<State>, steps: seq<Step>, id: int, ok: bool, n: nat): int
    requires n <= |steps| < |states|
  {
    if n == 0 then 0
    else FinishCount(states, steps, id, ok, n - 1) + Count(Finishes(states[n - 1], steps[n - 1], id, ok))
  }

  // The counts of successes and failures so far are right for the table.
  predicate Told(s: State, id: int, oks: int, failures: int) {
    && (id >= s.nextJob ==> oks == 0 && failures == 0)
    && (id in s.jobs ==> oks == Count(s.jobs[id].status == Done) && failures == s.jobs[id].attempts)
  }

  lemma StepTold(cfg: Config, s: State, step: Step, s': State, id: int, oks: int, failures: int)
    requires Inv(cfg, s) && Next(cfg, s, step, s') && InTime(s, step, cfg.orphanTimeout) && Told(s, id, oks, failures)
    ensures Told(s', id, oks + Count(Finishes(s, step, id, true)), failures + Count(Finishes(s, step, id, false)))
  {
    match step
    case Finish(_, _, _) => FinishExactly(cfg, s, step, s');
    case Fetch(_, _, _, _, _) => if id in s.jobs { FetchEffect(cfg, s, step, s', id); FetchExactly(cfg, s, step, s'); }
    case _ =>
  }

  lemma RunTold(cfg: Config, states: seq<State>, steps: seq<Step>, id: int, oks: int, failures: int, k: nat)
    requires TimelyRun(cfg, states, steps) && k < |steps| && Told(states[k], id, oks, failures)
    ensures Told(states[k + 1], id, oks + Count(Finishes(states[k], steps[k], id, true)),
                 failures + Count(Finishes(states[k], steps[k], id, false)))
  {
    RunInv(cfg, states, steps, k);
    StepTold(cfg, states[k], steps[k], states[k + 1], id, oks, failures);
  }

  // In every timely run a job is done exactly after one successful execution, and its attempts are the failed ones:
  // so it is failed exactly after as many failures as its limit.
  lemma {:induction false} RowTellsOutcomes(cfg: Config, states: seq<State>, steps: seq<Step>, id: int, n: nat)
    requires TimelyRun(cfg, states, steps) && n <= |steps|
    ensures Told(states[n], id, FinishCount(states, steps, id, true, n), FinishCount(states, steps, id, false, n))
  {
    if n > 0 {
      RowTellsOutcomes(cfg, states, steps, id, n - 1);
      RunTold(cfg, states, steps, id, FinishCount(states, steps, id, true, n - 1),
              FinishCount(states, steps, id, false, n - 1), n - 1);
    }
  }

  lemma FinalExactly(cfg: Config, states: seq<State>, steps: seq<Step>, id: int, n: nat)
    requires TimelyRun(cfg, states, steps) && n <= |steps| && id in states[n].jobs
    ensures var j := states[n].jobs[id];
      && (j.status == Done <==> FinishCount(states, steps, id, true, n) == 1)
      && (j.status == Failed <==> FinishCount(states, steps, id, false, n) == j.maxAttempts)
  {
    RunInv(cfg, states, steps, n);
    RowTellsOutcomes(cfg, states, steps, id, n);
  }

  // ---- Sweeping and collecting ----

  // The sweep makes exactly the jobs wait again that have been running longer than the timeout, with their attempts
  // and due time as they were, and touches nothing else.
  lemma SweepExactly(cfg: Config, s: State, step: Step, s': State, id: int)
    requires Inv(cfg, s) && step.Sweep? && Next(cfg, s, step, s') && id in s.jobs
    ensures id in s'.jobs && SameButLock(s.jobs[id], s'.jobs[id]) && s'.running == s.running
    ensures var j := s.jobs[id];
      if j.status == Running && j.lockAt.value + cfg.orphanTimeout < step.now
      then s'.jobs[id].status == Pending && s'.jobs[id].lockAt == None
      else s'.jobs[id] == j
  {
  }

  // Rows a complete collection keeps: all but those done or failed more than so many days ago.
  lemma KeptExactly(jobs: map<int, Job>, now: int, days: int, id: int)
    requires id in jobs
    ensures var j, kept := jobs[id], KeptJobs(jobs, now - days * MILLIS_PER_DAY);
      && (id !in kept <==>
            (j.status == Done || j.status == Failed) && j.doneAt.Some? && j.doneAt.value + days * 86_400_000 < now)
      && (id in kept ==> kept[id] == j)
  {
  }
}
