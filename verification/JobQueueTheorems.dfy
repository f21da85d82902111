/** What the lease protocol guarantees over every run, and the timing it needs for that. */
module JobQueueTheorems {
  import opened Wrappers
  import opened Powers
  import opened JobQueueSpec

  // ---- The invariant of timely runs ----

  // The execution is still within its lease.
  predicate Live(cfg: Config, e: Execution, now: int) { now <= e.lockAt + cfg.orphanTimeout }

  // The row is locked for e, and e's copy of the counters is current.
  predicate Holds(jobs: map<int, Job>, e: Execution) {
    && e.job in jobs && jobs[e.job].status == Running && jobs[e.job].lockAt == Some(e.lockAt)
    && jobs[e.job].attempts == e.attempts && jobs[e.job].maxAttempts == e.maxAttempts
  }

  predicate JobInv(j: Job, clock: int) {
    && 0 <= j.attempts <= j.maxAttempts && (j.attempts == j.maxAttempts <==> j.status == Failed)
    && (j.status == Running ==> j.lockAt.Some?)
    && (j.status != Pending ==> j.runAt <= clock)
    && (j.status in {Done, Failed} ==> j.doneAt.Some?)
  }

  predicate JobsInv(s: State) {
    forall id :: id in s.jobs ==> id < s.nextJob && JobInv(s.jobs[id], s.clock)
  }

  predicate ExecutionsInv(cfg: Config, s: State) {
    forall x :: x in s.running ==>
      && x < s.nextExec && s.running[x].lockAt <= s.clock && s.running[x].job < s.nextJob
      && (Live(cfg, s.running[x], s.clock) ==> Holds(s.jobs, s.running[x]))
  }

  // At most one live execution per job row.
  predicate Exclusive(cfg: Config, s: State) {
    forall x, y :: x in s.running && y in s.running && x != y && s.running[x].job == s.running[y].job ==>
      !Live(cfg, s.running[x], s.clock) || !Live(cfg, s.running[y], s.clock)
  }

  predicate Inv(cfg: Config, s: State) { JobsInv(s) && ExecutionsInv(cfg, s) && Exclusive(cfg, s) }

  // ---- Each step keeps it ----

  lemma {:induction false} StartedAt(jobs: map<int, Job>, first: int, ids: seq<int>, now: int, x: int)
    requires forall i :: 0 <= i < |ids| ==> ids[i] in jobs
    ensures x in Started(jobs, first, ids, now) <==> first <= x < first + |ids|
    ensures first <= x < first + |ids| ==>
      Started(jobs, first, ids, now)[x] == ExecutionOf(jobs, ids[x - first], now)
    decreases |ids|
  {
    if ids != [] { StartedAt(jobs, first, ids[..|ids| - 1], now, x); }
  }

  // The executions after a fetch: the old ones, and for each job taken one that has just locked it.
  lemma FetchedRunning(cfg: Config, s: State, step: Step, s': State, x: int)
    requires ExecutionsInv(cfg, s) && step.Fetch? && Next(cfg, s, step, s') && x in s'.running
    ensures x in s.running <==> x < s.nextExec
    ensures x in s.running ==> s'.running[x] == s.running[x]
    ensures x !in s.running ==>
      x < s'.nextExec && s'.running[x] == ExecutionOf(s.jobs, step.ids[x - s.nextExec], step.now)
  {
    StartedAt(s.jobs, s.nextExec, step.ids, step.now, x);
  }

  lemma FetchKeepsJobs(cfg: Config, s: State, step: Step, s': State)
    requires JobsInv(s) && step.Fetch? && Next(cfg, s, step, s')
    ensures JobsInv(s')
  {
  }

  // A job with a live execution is not taken.
  lemma LiveIsNotTaken(cfg: Config, s: State, step: Step, s': State, x: int)
    requires ExecutionsInv(cfg, s) && step.Fetch? && Next(cfg, s, step, s')
    requires x in s.running && Live(cfg, s.running[x], step.now)
    ensures Holds(s'.jobs, s.running[x]) && s.running[x].job !in step.ids
  {
    assert Holds(s.jobs, s.running[x]);
  }

  lemma FetchKeepsExecution(cfg: Config, s: State, step: Step, s': State, x: int)
    requires Inv(cfg, s) && step.Fetch? && Next(cfg, s, step, s') && x in s'.running
    ensures x < s'.nextExec && s'.running[x].lockAt <= s'.clock && s'.running[x].job < s'.nextJob
    ensures Live(cfg, s'.running[x], s'.clock) ==> Holds(s'.jobs, s'.running[x])
    ensures x in s.running && Live(cfg, s'.running[x], s'.clock) ==> s'.running[x].job !in step.ids
  {
    FetchedRunning(cfg, s, step, s', x);
    if x in s.running && Live(cfg, s.running[x], step.now) { LiveIsNotTaken(cfg, s, step, s', x); }
  }

  lemma FetchKeepsExclusive(cfg: Config, s: State, step: Step, s': State, x: int, y: int)
    requires Inv(cfg, s) && step.Fetch? && Next(cfg, s, step, s') && x in s'.running && y in s'.running
    requires x != y && Live(cfg, s'.running[x], s'.clock) && Live(cfg, s'.running[y], s'.clock)
    ensures s'.running[x].job != s'.running[y].job
  {
    FetchedRunning(cfg, s, step, s', x);
    FetchedRunning(cfg, s, step, s', y);
    FetchKeepsExecution(cfg, s, step, s', x);
    FetchKeepsExecution(cfg, s, step, s', y);
  }

  lemma FetchKeeps(cfg: Config, s: State, step: Step, s': State)
    requires Inv(cfg, s) && step.Fetch? && Next(cfg, s, step, s')
    ensures Inv(cfg, s')
  {
    FetchKeepsJobs(cfg, s, step, s');
    forall x | x in s'.running
      ensures x < s'.nextExec && s'.running[x].lockAt <= s'.clock && s'.running[x].job < s'.nextJob
      ensures Live(cfg, s'.running[x], s'.clock) ==> Holds(s'.jobs, s'.running[x])
    {
      FetchKeepsExecution(cfg, s, step, s', x);
    }
    forall x, y | x in s'.running && y in s'.running && x != y && s'.running[x].job == s'.running[y].job
      ensures !Live(cfg, s'.running[x], s'.clock) || !Live(cfg, s'.running[y], s'.clock)
    {
      if Live(cfg, s'.running[x], s'.clock) && Live(cfg, s'.running[y], s'.clock) {
        FetchKeepsExclusive(cfg, s, step, s', x, y);
      }
    }
  }

  lemma FinishKeeps(cfg: Config, s: State, step: Step, s': State)
    requires Inv(cfg, s) && step.Finish? && Next(cfg, s, step, s') && InTime(s, step, cfg.orphanTimeout)
    ensures Inv(cfg, s')
    ensures Holds(s.jobs, s.running[step.x])
  {
    var e := s.running[step.x];
    assert Live(cfg, e, s.clock);
    forall y | y in s'.running && Live(cfg, s'.running[y], s'.clock) ensures s'.running[y].job != e.job {
      assert Live(cfg, s.running[y], s.clock);
    }
  }

  lemma SweepKeeps(cfg: Config, s: State, step: Step, s': State)
    requires Inv(cfg, s) && step.Sweep? && Next(cfg, s, step, s')
    ensures Inv(cfg, s')
  {
    forall x | x in s.running && Live(cfg, s.running[x], step.now) ensures Holds(s'.jobs, s.running[x]) {
      assert Holds(s.jobs, s.running[x]);
    }
  }

  lemma StepInv(cfg: Config, s: State, step: Step, s': State)
    requires Inv(cfg, s) && Next(cfg, s, step, s') && InTime(s, step, cfg.orphanTimeout)
    ensures Inv(cfg, s')
  {
    match step
    case Enqueue(_, _, _, _) =>
    case Fetch(_, _, _, _, _) => FetchKeeps(cfg, s, step, s');
    case Finish(_, _, _) => FinishKeeps(cfg, s, step, s');
    case Lose(_, _) =>
    case Sweep(_) => SweepKeeps(cfg, s, step, s');
    case Collect(_, _, _) =>
      forall x | x in s.running && Live(cfg, s.running[x], step.now) ensures Holds(s'.jobs, s.running[x]) {
        assert Holds(s.jobs, s.running[x]);
      }
  }

  lemma {:induction false} RunInv(cfg: Config, states: seq<State>, steps: seq<Step>, n: nat)
    requires TimelyRun(cfg, states, steps) && n < |states|
    ensures Inv(cfg, states[n])
  {
    if n > 0 {
      RunInv(cfg, states, steps, n - 1);
      StepInv(cfg, states[n - 1], steps[n - 1], states[n]);
    }
  }

  // ---- Lease exclusion ----

  lemma {:induction false} ClockGrows(cfg: Config, states: seq<State>, steps: seq<Step>, i: nat, j: nat)
    requires IsRun(cfg, states, steps) && i <= j < |states|
    ensures states[i].clock <= states[j].clock
    decreases j
  {
    if i < j {
      ClockGrows(cfg, states, steps, i, j - 1);
      assert Next(cfg, states[j - 1], steps[j - 1], states[j]);
    }
  }

  lemma StepRecordKept(cfg: Config, s: State, step: Step, s': State, x: int)
    requires Next(cfg, s, step, s') && x < s.nextExec
    ensures x < s'.nextExec && (x in s'.running ==> x in s.running && s'.running[x] == s.running[x])
  {
    if step.Fetch? { StartedAt(s.jobs, s.nextExec, step.ids, step.now, x); }
  }

  // An execution's record does not change while it is in flight, and its number is not given again.
  lemma {:induction false} RecordKept(cfg: Config, states: seq<State>, steps: seq<Step>, x: int, i: nat, j: nat)
    requires IsRun(cfg, states, steps) && i <= j < |states| && x in states[i].running && x < states[i].nextExec
    ensures x < states[j].nextExec && (x in states[j].running ==> states[j].running[x] == states[i].running[x])
    decreases j
  {
    if i < j {
      RecordKept(cfg, states, steps, x, i, j - 1);
      StepRecordKept(cfg, states[j - 1], steps[j - 1], states[j], x);
    }
  }

  // Two executions of one job that both get to write never coexist, in any state of any timely run.
  lemma LeaseExclusion(cfg: Config, states: seq<State>, steps: seq<Step>, i: nat, p: nat, q: nat)
    requires TimelyRun(cfg, states, steps) && i <= p < |steps| && i <= q < |steps|
    requires steps[p].Finish? && steps[q].Finish?
    requires steps[p].x in states[i].running && steps[q].x in states[i].running
    requires states[i].running[steps[p].x].job == states[i].running[steps[q].x].job
    ensures steps[p].x == steps[q].x
  {
    RunInv(cfg, states, steps, i);
    LiveUntilFinish(cfg, states, steps, i, p);
    LiveUntilFinish(cfg, states, steps, i, q);
  }

  // An execution that will write holds the lock from the state it is seen in.
  lemma LiveUntilFinish(cfg: Config, states: seq<State>, steps: seq<Step>, i: nat, p: nat)
    requires TimelyRun(cfg, states, steps) && i <= p < |steps| && steps[p].Finish? && steps[p].x in states[i].running
    ensures var e := states[i].running[steps[p].x]; Live(cfg, e, states[i].clock) && Holds(states[i].jobs, e)
  {
    RunInv(cfg, states, steps, i);
    ClockGrows(cfg, states, steps, i, p);
    RecordKept(cfg, states, steps, steps[p].x, i, p);
    assert Next(cfg, states[p], steps[p], states[p + 1]) && InTime(states[p], steps[p], cfg.orphanTimeout);
  }

  // ---- Done and Failed are final ----

  predicate Final(j: Job) { j.status in {Done, Failed} }

  lemma StepFinal(cfg: Config, s: State, step: Step, s': State, id: int)
    requires Inv(cfg, s) && Next(cfg, s, step, s') && InTime(s, step, cfg.orphanTimeout)
    requires id < s.nextJob && (id in s.jobs ==> Final(s.jobs[id]))
    ensures id < s'.nextJob && (id in s'.jobs ==> id in s.jobs && s'.jobs[id] == s.jobs[id])
    ensures step.Fetch? ==> id !in step.ids
  {
    if step.Finish? { FinishKeeps(cfg, s, step, s'); }
  }

  lemma RunFinal(cfg: Config, states: seq<State>, steps: seq<Step>, id: int, k: nat)
    requires TimelyRun(cfg, states, steps) && k < |steps|
    requires id < states[k].nextJob && (id in states[k].jobs ==> Final(states[k].jobs[id]))
    ensures id < states[k + 1].nextJob
    ensures id in states[k + 1].jobs ==> id in states[k].jobs && states[k + 1].jobs[id] == states[k].jobs[id]
  {
    RunInv(cfg, states, steps, k);
    StepFinal(cfg, states[k], steps[k], states[k + 1], id);
  }

  lemma {:induction false} FinalKept(cfg: Config, states: seq<State>, steps: seq<Step>, id: int, i: nat, j: nat)
    requires TimelyRun(cfg, states, steps) && i <= j < |states|
    requires id in states[i].jobs && Final(states[i].jobs[id]) && id < states[i].nextJob
    ensures id < states[j].nextJob && (id in states[j].jobs ==> states[j].jobs[id] == states[i].jobs[id])
    decreases j
  {
    if i < j {
      FinalKept(cfg, states, steps, id, i, j - 1);
      RunFinal(cfg, states, steps, id, j - 1);
    }
  }

  // A finished row stays exactly as it is until it is collected.
  lemma FinalStays(cfg: Config, states: seq<State>, steps: seq<Step>, id: int, i: nat, j: nat)
    requires TimelyRun(cfg, states, steps) && i <= j < |states|
    requires id in states[i].jobs && Final(states[i].jobs[id]) && id in states[j].jobs
    ensures states[j].jobs[id] == states[i].jobs[id]
  {
    RunInv(cfg, states, steps, i);
    FinalKept(cfg, states, steps, id, i, j);
  }

  // No worker takes a finished job again, not even after it has been collected.
  lemma NoFetchAfterFinal(cfg: Config, states: seq<State>, steps: seq<Step>, id: int, i: nat, k: nat)
    requires TimelyRun(cfg, states, steps) && i <= k < |steps| && id in states[i].jobs && Final(states[i].jobs[id])
    ensures !Fetches(steps[k], id)
  {
    RunInv(cfg, states, steps, i);
    FinalKept(cfg, states, steps, id, i, k);
    RunInv(cfg, states, steps, k);
    StepFinal(cfg, states[k], steps[k], states[k + 1], id);
  }

  // ---- Accounting ----

  function Count(b: bool): int { if b then 1 else 0 }

  predicate Fetches(step: Step, id: int) { step.Fetch? && id in step.ids }

  predicate Recovers(cfg: Config, s: State, step: Step, id: int) {
    step.Sweep? && id in s.jobs && Orphan(s.jobs[id], step.now - cfg.orphanTimeout)
  }

  function FetchCount(steps: seq<Step>, id: int, n: nat): int
    requires n <= |steps|
  {
    if n == 0 then 0 else FetchCount(steps, id, n - 1) + Count(Fetches(steps[n - 1], id))
  }

  function RecoveryCount(cfg: Config, states: seq<State>, steps: seq<Step>, id: int, n: nat): int
    requires n <= |steps| < |states|
  {
    if n == 0 then 0
    else RecoveryCount(cfg, states, steps, id, n - 1) + Count(Recovers(cfg, states[n - 1], steps[n - 1], id))
  }

  // Executions a row accounts for without the recoveries.
  function Owned(j: Job): int { j.attempts + Count(j.status == Running) + Count(j.status == Done) }

  lemma StepAccount(cfg: Config, s: State, step: Step, s': State, id: int)
    requires Inv(cfg, s) && Next(cfg, s, step, s') && InTime(s, step, cfg.orphanTimeout)
    ensures Fetches(step, id) || Recovers(cfg, s, step, id) ==> id < s.nextJob
    ensures id in s'.jobs && id in s.jobs ==>
      && s'.jobs[id].maxAttempts == s.jobs[id].maxAttempts
      && Owned(s'.jobs[id]) == Owned(s.jobs[id]) + Count(Fetches(step, id)) - Count(Recovers(cfg, s, step, id))
    ensures id in s'.jobs && id !in s.jobs ==> id == s.nextJob && Owned(s'.jobs[id]) == 0
    ensures s'.nextJob >= s.nextJob
  {
    match step
    case Enqueue(_, _, _, _) =>
    case Fetch(_, _, _, _, _) =>
    case Finish(_, _, _) => FinishKeeps(cfg, s, step, s');
    case Lose(_, _) =>
    case Sweep(_) =>
    case Collect(_, _, _) =>
  }

  // The same, at one step of a run.
  lemma RunAccount(cfg: Config, states: seq<State>, steps: seq<Step>, id: int, k: nat)
    requires TimelyRun(cfg, states, steps) && k < |steps|
    ensures var s, s', step := states[k], states[k + 1], steps[k];
      && (Fetches(step, id) || Recovers(cfg, s, step, id) ==> id < s.nextJob)
      && (id in s'.jobs && id in s.jobs ==>
            Owned(s'.jobs[id]) == Owned(s.jobs[id]) + Count(Fetches(step, id)) - Count(Recovers(cfg, s, step, id)))
      && (id in s'.jobs && id !in s.jobs ==> id == s.nextJob && Owned(s'.jobs[id]) == 0)
      && s'.nextJob >= s.nextJob
  {
    RunInv(cfg, states, steps, k);
    StepAccount(cfg, states[k], steps[k], states[k + 1], id);
  }

  // For every row of every reachable state: fetches = attempts + recoveries + (1 if running) + (1 if
  // done), and the attempt limit is reached exactly by the failed rows.
  lemma {:induction false} Accounting(cfg: Config, states: seq<State>, steps: seq<Step>, id: int, n: nat)
    requires TimelyRun(cfg, states, steps) && n <= |steps|
    ensures id >= states[n].nextJob ==> FetchCount(steps, id, n) == 0 && RecoveryCount(cfg, states, steps, id, n) == 0
    ensures id in states[n].jobs ==> var j := states[n].jobs[id];
      && FetchCount(steps, id, n) ==
           j.attempts + RecoveryCount(cfg, states, steps, id, n) + Count(j.status == Running) + Count(j.status == Done)
      && 0 <= j.attempts <= j.maxAttempts && (j.attempts == j.maxAttempts <==> j.status == Failed)
  {
    RunInv(cfg, states, steps, n);
    if n > 0 {
      Accounting(cfg, states, steps, id, n - 1);
      RunAccount(cfg, states, steps, id, n - 1);
    }
  }

  // So a job is executed at most max_attempts times, and once more for each recovery.
  lemma ExecutionsBounded(cfg: Config, states: seq<State>, steps: seq<Step>, id: int, n: nat)
    requires TimelyRun(cfg, states, steps) && n <= |steps| && id in states[n].jobs
    ensures FetchCount(steps, id, n) <= states[n].jobs[id].maxAttempts + RecoveryCount(cfg, states, steps, id, n)
  {
    Accounting(cfg, states, steps, id, n);
  }

  // ---- Due times ----

  lemma StepDueTime(cfg: Config, s: State, step: Step, s': State, id: int)
    requires Inv(cfg, s) && Next(cfg, s, step, s') && InTime(s, step, cfg.orphanTimeout)
    ensures id in s'.jobs && id in s.jobs ==> s.jobs[id].runAt <= s'.jobs[id].runAt
    ensures id < s.nextJob ==> id < s'.nextJob && (id in s'.jobs ==> id in s.jobs)
    ensures Fetches(step, id) ==> id in s.jobs && s.jobs[id].runAt <= step.now
  {
    if step.Finish? {
      FinishKeeps(cfg, s, step, s');
      var e := s.running[step.x];
      assert JobInv(s.jobs[e.job], s.clock);
      BackoffNonNegative(e.attempts + 1, cfg);
    }
  }

  lemma BackoffNonNegative(attempt: int, cfg: Config)
    ensures 0 <= BackoffDelay(attempt, cfg.backoffBase, cfg.backoffCap) <= cfg.backoffCap
  {
  }

  // No row is taken before any due time it has had so far: neither its enqueue delay nor the backoff
  // of an earlier failure is cut short, whatever sweeps and other workers do.
  lemma {:induction false} NeverEarly(cfg: Config, states: seq<State>, steps: seq<Step>, id: int, i: nat, k: nat)
    requires TimelyRun(cfg, states, steps) && i <= k < |steps| && id in states[i].jobs && Fetches(steps[k], id)
    ensures states[i].jobs[id].runAt <= steps[k].now
  {
    RunInv(cfg, states, steps, i);
    DueTimeGrows(cfg, states, steps, id, i, k);
    RunInv(cfg, states, steps, k);
    StepDueTime(cfg, states[k], steps[k], states[k + 1], id);
  }

  lemma RunDueTime(cfg: Config, states: seq<State>, steps: seq<Step>, id: int, k: nat)
    requires TimelyRun(cfg, states, steps) && k < |steps| && id < states[k].nextJob
    ensures id < states[k + 1].nextJob && (id in states[k + 1].jobs ==> id in states[k].jobs)
    ensures id in states[k + 1].jobs ==> states[k].jobs[id].runAt <= states[k + 1].jobs[id].runAt
  {
    RunInv(cfg, states, steps, k);
    StepDueTime(cfg, states[k], steps[k], states[k + 1], id);
  }

  lemma {:induction false} DueTimeGrows(cfg: Config, states: seq<State>, steps: seq<Step>, id: int, i: nat, j: nat)
    requires TimelyRun(cfg, states, steps) && i <= j < |states| && id in states[i].jobs && id < states[i].nextJob
    ensures id < states[j].nextJob && (id in states[j].jobs ==> states[i].jobs[id].runAt <= states[j].jobs[id].runAt)
    decreases j
  {
    if i < j {
      DueTimeGrows(cfg, states, steps, id, i, j - 1);
      RunDueTime(cfg, states, steps, id, j - 1);
    }
  }

  // ---- The timing is needed, exactly ----

  ghost predicate KeepsFinal(states: seq<State>) {
    forall i, id ::
      0 <= i < |states| - 1 && id in states[i].jobs && Final(states[i].jobs[id]) && id in states[i + 1].jobs ==>
      states[i + 1].jobs[id] == states[i].jobs[id]
  }

  ghost predicate SafeBound(cfg: Config, bound: int) {
    forall states, steps :: IsRun(cfg, states, steps) && RunInTime(states, steps, bound) ==> KeepsFinal(states)
  }

  lemma InTimeIsFinal(cfg: Config, bound: int, states: seq<State>, steps: seq<Step>)
    requires bound <= cfg.orphanTimeout && IsRun(cfg, states, steps) && RunInTime(states, steps, bound)
    ensures KeepsFinal(states)
  {
    forall i | 0 <= i < |steps| ensures InTime(states[i], steps[i], cfg.orphanTimeout) {
      assert InTime(states[i], steps[i], bound);
    }
    forall i, id |
      0 <= i < |states| - 1 && id in states[i].jobs && Final(states[i].jobs[id]) && id in states[i + 1].jobs
      ensures states[i + 1].jobs[id] == states[i].jobs[id]
    {
      RunInv(cfg, states, steps, i);
      StepFinal(cfg, states[i], steps[i], states[i + 1], id);
    }
  }

  // One job with one retry; both executions read the same counters.
  const LATE_JOB := NewJob("", 1, 0)
  const FIRST := Execution(0, 0, 2, 0)

  function LateStart(): (r: (State, State, State)) {
    (START, State(map[0 := LATE_JOB], map[], 1, 0, 0), State(map[0 := Locked(LATE_JOB, 0)], map[0 := FIRST], 1, 1, 0))
  }

  function LateEnd(cfg: Config, late: int): (r: (State, State, State, State)) {
    var second := Execution(0, 0, 2, late);
    var done := MarkedDone(Locked(LATE_JOB, late), late);
    (State(map[0 := LATE_JOB], map[0 := FIRST], 1, 1, late),
     State(map[0 := Locked(LATE_JOB, late)], map[0 := FIRST, 1 := second], 1, 2, late),
     State(map[0 := done], map[0 := FIRST], 1, 2, late),
     State(map[0 := Finished(cfg, done, FIRST, false, late)], map[], 1, 2, late))
  }

  lemma LateFirstFetch(cfg: Config)
    ensures Next(cfg, LateStart().0, Enqueue(0, "", 1, 0), LateStart().1)
    ensures Next(cfg, LateStart().1, Fetch(0, "", {}, 1, [0]), LateStart().2)
  {
    FetchOne(cfg, LateStart().1, 0, LateStart().2);
  }

  lemma LateSecondFetch(cfg: Config, late: nat)
    ensures Next(cfg, LateEnd(cfg, late).0, Fetch(late, "", {}, 1, [0]), LateEnd(cfg, late).1)
  {
    FetchOne(cfg, LateEnd(cfg, late).0, late, LateEnd(cfg, late).1);
  }

  lemma LateFinishes(cfg: Config, late: int)
    requires late == cfg.orphanTimeout + 1
    ensures Next(cfg, LateStart().2, Sweep(late), LateEnd(cfg, late).0)
    ensures Next(cfg, LateEnd(cfg, late).1, Finish(late, 1, true), LateEnd(cfg, late).2)
    ensures Next(cfg, LateEnd(cfg, late).2, Finish(late, 0, false), LateEnd(cfg, late).3)
  {
    assert SweptJobs(LateStart().2.jobs, late - cfg.orphanTimeout) == map[0 := LATE_JOB];
    assert LateEnd(cfg, late).1.running - {1} == map[0 := FIRST];
    assert LateEnd(cfg, late).2.running - {0} == map[];
  }

  ghost predicate RunWithin(cfg: Config, bound: int, states: seq<State>, steps: seq<Step>) {
    IsRun(cfg, states, steps) && RunInTime(states, steps, bound)
  }

  lemma Extend(cfg: Config, bound: int, states: seq<State>, steps: seq<Step>, s: State, step: Step, s': State)
    requires RunWithin(cfg, bound, states, steps) && s == states[|steps|]
    requires Next(cfg, s, step, s') && InTime(s, step, bound)
    ensures RunWithin(cfg, bound, states + [s'], steps + [step])
  {
    var states', steps' := states + [s'], steps + [step];
    forall i | 0 <= i < |steps'|
      ensures Next(cfg, states'[i], steps'[i], states'[i + 1]) && InTime(states'[i], steps'[i], bound)
    {
      if i < |steps| { assert Next(cfg, states[i], steps[i], states[i + 1]) && InTime(states[i], steps[i], bound); }
    }
  }

  lemma LatePrefix(cfg: Config, bound: int) returns (states: seq<State>, steps: seq<Step>)
    requires bound == cfg.orphanTimeout + 1
    ensures RunWithin(cfg, bound, states, steps) && states[|steps|] == LateStart().2
  {
    LateFirstFetch(cfg);
    Extend(cfg, bound, [START], [], START, Enqueue(0, "", 1, 0), LateStart().1);
    states, steps := [START] + [LateStart().1], [] + [Enqueue(0, "", 1, 0)];
    Extend(cfg, bound, states, steps, LateStart().1, Fetch(0, "", {}, 1, [0]), LateStart().2);
    states, steps := states + [LateStart().2], steps + [Fetch(0, "", {}, 1, [0])];
  }

  // The first execution is swept up, and the second completes the job.
  lemma LateMiddle(cfg: Config, bound: int) returns (states: seq<State>, steps: seq<Step>)
    requires bound == cfg.orphanTimeout + 1
    ensures RunWithin(cfg, bound, states, steps) && states[|steps|] == LateEnd(cfg, bound).2
  {
    states, steps := LatePrefix(cfg, bound);
    LateSecondFetch(cfg, bound);
    LateFinishes(cfg, bound);
    var (s3, s4, s5, s6) := LateEnd(cfg, bound);
    Extend(cfg, bound, states, steps, LateStart().2, Sweep(bound), s3);
    states, steps := states + [s3], steps + [Sweep(bound)];
    Extend(cfg, bound, states, steps, s3, Fetch(bound, "", {}, 1, [0]), s4);
    states, steps := states + [s4], steps + [Fetch(bound, "", {}, 1, [0])];
    Extend(cfg, bound, states, steps, s4, Finish(bound, 1, true), s5);
    states, steps := states + [s5], steps + [Finish(bound, 1, true)];
  }

  // The statement the code runs on finishing checks only the id.  A worker that outlives its lease by
  // one tick can turn a job another worker completed back into a pending one.
  lemma LateWrite(cfg: Config) returns (states: seq<State>, steps: seq<Step>)
    ensures IsRun(cfg, states, steps) && RunInTime(states, steps, cfg.orphanTimeout + 1)
    ensures !KeepsFinal(states)
  {
    var late := cfg.orphanTimeout + 1;
    states, steps := LateMiddle(cfg, late);
    LateFinishes(cfg, late);
    ghost var n := |steps|;
    var (s3, s4, s5, s6) := LateEnd(cfg, late);
    Extend(cfg, late, states, steps, s5, Finish(late, 0, false), s6);
    states, steps := states + [s6], steps + [Finish(late, 0, false)];
    assert states[n].jobs[0] != states[n + 1].jobs[0];
  }

  // A fetch from a table whose one job is due.
  lemma FetchOne(cfg: Config, s: State, now: int, s': State)
    requires s.jobs.Keys == {0} && Fetchable(s.jobs[0], "", now) && s.clock <= now
    requires s' == State(map[0 := Locked(s.jobs[0], now)],
                         s.running[s.nextExec := Execution(0, s.jobs[0].attempts, s.jobs[0].maxAttempts, now)],
                         s.nextJob, s.nextExec + 1, now)
    ensures Next(cfg, s, Fetch(now, "", {}, 1, [0]), s')
  {
    assert DueJobs(s.jobs, "", now) - {} == {0};
    assert Started(s.jobs, s.nextExec, [0], now) == map[s.nextExec := ExecutionOf(s.jobs, 0, now)];
    assert Fetched(s, [0], now).jobs == s'.jobs;
    assert Fetched(s, [0], now).running == s'.running;
  }

  // A bound on how late finishing writes may be makes Done and Failed final in every run exactly when it
  // is within the orphan timeout.
  lemma LeaseBoundExact(cfg: Config, bound: int)
    ensures SafeBound(cfg, bound) <==> bound <= cfg.orphanTimeout
  {
    if bound <= cfg.orphanTimeout {
      forall states, steps | IsRun(cfg, states, steps) && RunInTime(states, steps, bound) ensures KeepsFinal(states) {
        InTimeIsFinal(cfg, bound, states, steps);
      }
    } else {
      var states, steps := LateWrite(cfg);
      forall i | 0 <= i < |steps| ensures InTime(states[i], steps[i], bound) {
        assert InTime(states[i], steps[i], cfg.orphanTimeout + 1);
      }
      assert RunInTime(states, steps, bound);
    }
  }

  // ---- Backoff ----

  // What the options document: base doubled for each failure after the first, up to the cap.
  function DocumentedDelay(n: int, base: nat, cap: nat): int
    requires n >= 1
  {
    Min(base * Pow2(n - 1), cap)
  }

  ghost predicate DelayAsDocumented(n: int, base: nat, cap: nat) {
    n >= 1 ==> BackoffDelay(n, base, cap) == DocumentedDelay(n, base, cap)
  }

  lemma ProductGrows(base: nat, m: nat, n: nat)
    requires m <= n
    ensures base * Pow2(m) <= base * Pow2(n) && (base > 0 && m < n ==> base * Pow2(m) < base * Pow2(n))
  {
    Pow2Grows(m, n);
  }

  // The delays follow the documented rule for every attempt exactly when the cap is reached within
  // the 30 doublings the code can make.
  lemma BackoffExact(base: nat, cap: nat)
    ensures (forall n :: DelayAsDocumented(n, base, cap)) <==> base == 0 || cap <= base * Pow2(30)
  {
    var top: nat := 30;
    if base == 0 || cap <= base * Pow2(top) {
      forall n ensures DelayAsDocumented(n, base, cap) {
        if n > 31 { ProductGrows(base, top, n - 1); }
      }
    } else {
      ProductGrows(base, top, top + 1);
      assert !DelayAsDocumented(32, base, cap);
    }
  }

  lemma BackoffGrows(base: nat, cap: nat, m: int, n: int)
    requires 1 <= m <= n
    ensures BackoffDelay(m, base, cap) <= BackoffDelay(n, base, cap) <= cap
  {
    ProductGrows(base, if m > 31 then 30 else m - 1, if n > 31 then 30 else n - 1);
  }
}
