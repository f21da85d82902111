/** The job table and the executions in flight: what each statement of the workers, the orphan
    sweep and the collector does to them. */
module JobQueueSpec {
  import opened Wrappers
  import opened Powers
  import opened Batches

  datatype Status = Pending | Running | Done | Failed

  datatype Job = Job(jobType: string, status: Status, attempts: int, maxAttempts: int,
                     runAt: int, lockAt: Option<int>, doneAt: Option<int>)

  // What a worker keeps of a job while it runs it: what it read when it took the job, and when.
  datatype Execution = Execution(job: int, attempts: int, maxAttempts: int, lockAt: int)

  datatype State = State(jobs: map<int, Job>, running: map<int, Execution>, nextJob: int, nextExec: int, clock: int)

  const START := State(map[], map[], 0, 0, 0)

  datatype Dialect = Postgres | Sqlite

  datatype Config = Config(dialect: Dialect, orphanTimeout: nat, backoffBase: nat, backoffCap: nat)

  function Min(a: int, b: int): int { if a < b then a else b }

  // An attempt below one becomes a large unsigned number, so it too shifts by the maximum.  A product
  // that saturates is above any cap.
  function BackoffDelay(attempt: int, base: nat, cap: nat): int {
    var shift := if attempt < 1 || attempt > 31 then 30 else attempt - 1;
    Min(base * Pow2(shift), cap)
  }

  // ---- Statements on one row ----

  function NewJob(jobType: string, retries: nat, runAt: int): Job {
    Job(jobType, Pending, 0, retries + 1, runAt, None, None)
  }

  predicate Fetchable(j: Job, jobType: string, now: int) {
    j.jobType == jobType && j.status == Pending && j.runAt <= now
  }

  function Locked(j: Job, now: int): Job { j.(status := Running, lockAt := Some(now)) }

  function MarkedDone(j: Job, now: int): Job { j.(status := Done, doneAt := Some(now)) }

  function Retried(j: Job, attempts: int, runAt: int): Job {
    j.(status := Pending, attempts := attempts, runAt := runAt, lockAt := None)
  }

  function MarkedFailed(j: Job, attempts: int, now: int): Job {
    j.(status := Failed, attempts := attempts, doneAt := Some(now), lockAt := None)
  }

  // What the end of execution e writes into the row: it trusts what it read when it started.
  function Finished(cfg: Config, j: Job, e: Execution, ok: bool, now: int): Job {
    if ok then MarkedDone(j, now)
    else
      var attempts := e.attempts + 1;
      if attempts < e.maxAttempts
      then Retried(j, attempts, now + BackoffDelay(attempts, cfg.backoffBase, cfg.backoffCap))
      else MarkedFailed(j, attempts, now)
  }

  predicate Orphan(j: Job, olderThan: int) {
    j.status == Running && j.lockAt.Some? && j.lockAt.value < olderThan
  }

  function Recovered(j: Job): Job { j.(status := Pending, lockAt := None) }

  const MILLIS_PER_DAY := 86_400_000

  predicate Expired(j: Job, cutoff: int) {
    j.status in {Done, Failed} && j.doneAt.Some? && j.doneAt.value < cutoff
  }

  // ---- Steps of the whole system ----

  function FetchOrder(cfg: Config, jobs: map<int, Job>): Order {
    (a, b) => a in jobs && b in jobs &&
      if cfg.dialect == Sqlite || jobs[a].runAt == jobs[b].runAt then a <= b else jobs[a].runAt < jobs[b].runAt
  }

  function DueJobs(jobs: map<int, Job>, jobType: string, now: int): set<int> {
    set id | id in jobs && Fetchable(jobs[id], jobType, now)
  }

  function LockedJobs(jobs: map<int, Job>, ids: seq<int>, now: int): map<int, Job> {
    map id | id in jobs :: if id in ids then Locked(jobs[id], now) else jobs[id]
  }

  function ExecutionOf(jobs: map<int, Job>, id: int, now: int): Execution
    requires id in jobs
  {
    Execution(id, jobs[id].attempts, jobs[id].maxAttempts, now)
  }

  // One new execution per id, numbered from `first`.
  function Started(jobs: map<int, Job>, first: int, ids: seq<int>, now: int): map<int, Execution>
    requires forall i :: 0 <= i < |ids| ==> ids[i] in jobs
    decreases |ids|
  {
    if ids == [] then map[]
    else
      var n := |ids| - 1;
      Started(jobs, first, ids[..n], now)[first + n := ExecutionOf(jobs, ids[n], now)]
  }

  function Fetched(s: State, ids: seq<int>, now: int): State
    requires forall i :: 0 <= i < |ids| ==> ids[i] in s.jobs
  {
    s.(jobs := LockedJobs(s.jobs, ids, now), running := s.running + Started(s.jobs, s.nextExec, ids, now),
       nextExec := s.nextExec + |ids|, clock := now)
  }

  // An update of a deleted row touches nothing.
  function FinishedBy(cfg: Config, s: State, x: int, ok: bool, now: int): State
    requires x in s.running
  {
    var e := s.running[x];
    s.(jobs := if e.job in s.jobs then s.jobs[e.job := Finished(cfg, s.jobs[e.job], e, ok, now)] else s.jobs,
       running := s.running - {x}, clock := now)
  }

  function SweptJobs(jobs: map<int, Job>, olderThan: int): map<int, Job> {
    map id | id in jobs :: if Orphan(jobs[id], olderThan) then Recovered(jobs[id]) else jobs[id]
  }

  function ExpiredIds(jobs: map<int, Job>, cutoff: int): set<int> { set id | id in jobs && Expired(jobs[id], cutoff) }

  // The most rows one statement of the collector deletes.
  const GC_BATCH := 1000

  function KeptJobs(jobs: map<int, Job>, cutoff: int): map<int, Job> {
    map id | id in jobs && !Expired(jobs[id], cutoff) :: jobs[id]
  }

  // `ok` false is a handler error or a timeout.  An execution is lost when its process crashes or its
  // finishing statement fails.  The collector's statements are steps of their own.
  datatype Step =
    | Enqueue(now: int, jobType: string, retries: nat, delay: nat)
    | Fetch(now: int, jobType: string, skipped: set<int>, limit: nat, ids: seq<int>)
    | Finish(now: int, x: int, ok: bool)
    | Lose(now: int, x: int)
    | Sweep(now: int)
    | Collect(now: int, days: int, gone: set<int>)

  ghost predicate Next(cfg: Config, s: State, step: Step, s': State) {
    && s.clock <= step.now
    && match step
       case Enqueue(now, jobType, retries, delay) =>
         s' == s.(jobs := s.jobs[s.nextJob := NewJob(jobType, retries, now + delay)],
                  nextJob := s.nextJob + 1, clock := now)
       case Fetch(now, jobType, skipped, limit, ids) =>
         && IsFirst(DueJobs(s.jobs, jobType, now) - skipped, FetchOrder(cfg, s.jobs), limit, ids)
         && s' == Fetched(s, ids, now)
       case Finish(now, x, ok) => x in s.running && s' == FinishedBy(cfg, s, x, ok, now)
       case Lose(now, x) => x in s.running && s' == s.(running := s.running - {x}, clock := now)
       case Sweep(now) => s' == s.(jobs := SweptJobs(s.jobs, now - cfg.orphanTimeout), clock := now)
       case Collect(now, days, gone) =>
         && gone <= ExpiredIds(s.jobs, now - days * MILLIS_PER_DAY) && |gone| <= GC_BATCH
         && s' == s.(jobs := s.jobs - gone, clock := now)
  }

  ghost predicate IsRun(cfg: Config, states: seq<State>, steps: seq<Step>) {
    && |states| == |steps| + 1 && states[0] == START
    && forall i :: 0 <= i < |steps| ==> Next(cfg, states[i], steps[i], states[i + 1])
  }

  // Every finishing write lands within `bound` of the moment its execution took the job.
  predicate InTime(s: State, step: Step, bound: int) {
    step.Finish? && step.x in s.running ==> step.now <= s.running[step.x].lockAt + bound
  }

  ghost predicate RunInTime(states: seq<State>, steps: seq<Step>, bound: int)
    requires |states| == |steps| + 1
  {
    forall i :: 0 <= i < |steps| ==> InTime(states[i], steps[i], bound)
  }

  ghost predicate TimelyRun(cfg: Config, states: seq<State>, steps: seq<Step>) {
    IsRun(cfg, states, steps) && RunInTime(states, steps, cfg.orphanTimeout)
  }
}
