/** When jobs are taken again, and when finished ones may be collected. */
module JobQueueTimes {
  import opened Wrappers
  import opened JobQueueSpec
  import opened JobQueueTheorems

  // A job that failed below its limit is not taken again before its backoff is over, and a delayed job not
  // before its delay is, whatever sweeps and other workers do.
  lemma RetryWaits(cfg: Config, states: seq<State>, steps: seq<Step>, i: nat, k: nat, id: int)
    requires TimelyRun(cfg, states, steps) && i < k < |steps| && Fetches(steps[k], id)
    requires steps[i].Finish? && !steps[i].ok
    requires steps[i].x in states[i].running && states[i].running[steps[i].x].job == id
    ensures var attempts := states[i].running[steps[i].x].attempts + 1;
      steps[k].now >= steps[i].now + BackoffDelay(attempts, cfg.backoffBase, cfg.backoffCap)
  {
    RunInv(cfg, states, steps, i);
    FinishKeeps(cfg, states[i], steps[i], states[i + 1]);
    if Final(states[i + 1].jobs[id]) {
      NoFetchAfterFinal(cfg, states, steps, id, i + 1, k);
    } else {
      NeverEarly(cfg, states, steps, id, i + 1, k);
    }
  }

  lemma DelayWaits(cfg: Config, states: seq<State>, steps: seq<Step>, i: nat, k: nat)
    requires TimelyRun(cfg, states, steps) && i < k < |steps| && steps[i].Enqueue?
    requires Fetches(steps[k], states[i].nextJob)
    ensures steps[k].now >= steps[i].now + steps[i].delay
  {
    assert Next(cfg, states[i], steps[i], states[i + 1]);
    NeverEarly(cfg, states, steps, states[i].nextJob, i + 1, k);
  }

  // ---- Retention ----

  ghost predicate FinishedIn(states: seq<State>, steps: seq<Step>, n: nat, id: int, at: int)
    requires n <= |steps| < |states|
  {
    exists i :: 0 <= i < n && steps[i].Finish? && steps[i].now == at
      && steps[i].x in states[i].running && states[i].running[steps[i].x].job == id
  }

  lemma StepDoneAt(cfg: Config, s: State, step: Step, s': State, id: int)
    requires Inv(cfg, s) && Next(cfg, s, step, s') && InTime(s, step, cfg.orphanTimeout)
    requires id in s'.jobs && Final(s'.jobs[id])
    ensures id in s.jobs
    ensures || (step.Finish? && s.running[step.x].job == id && s'.jobs[id].doneAt == Some(step.now))
            || s'.jobs[id] == s.jobs[id]
  {
    if step.Finish? { FinishKeeps(cfg, s, step, s'); }
  }

  lemma {:induction false} FinishedWhen(cfg: Config, states: seq<State>, steps: seq<Step>, n: nat, id: int)
    requires TimelyRun(cfg, states, steps) && n <= |steps| && id in states[n].jobs && Final(states[n].jobs[id])
    ensures states[n].jobs[id].doneAt.Some?
    ensures FinishedIn(states, steps, n, id, states[n].jobs[id].doneAt.value)
  {
    RunInv(cfg, states, steps, n);
    if n > 0 {
      RunInv(cfg, states, steps, n - 1);
      StepDoneAt(cfg, states[n - 1], steps[n - 1], states[n], id);
      var at := states[n].jobs[id].doneAt.value;
      if states[n].jobs[id] == states[n - 1].jobs[id] {
        FinishedWhen(cfg, states, steps, n - 1, id);
        var i :| 0 <= i < n - 1 && steps[i].Finish? && steps[i].now == at
          && steps[i].x in states[i].running && states[i].running[steps[i].x].job == id;
      }
    }
  }

  // A job row disappears only by collection, and only when the execution that finished it did so longer
  // ago than the retention.
  lemma RetentionKept(cfg: Config, states: seq<State>, steps: seq<Step>, n: nat, id: int)
    requires TimelyRun(cfg, states, steps) && n < |steps| && id in states[n].jobs && id !in states[n + 1].jobs
    ensures steps[n].Collect?
    ensures exists at :: FinishedIn(states, steps, n, id, at) && at + steps[n].days * MILLIS_PER_DAY < steps[n].now
  {
    assert Next(cfg, states[n], steps[n], states[n + 1]);
    FinishedWhen(cfg, states, steps, n, id);
    assert FinishedIn(states, steps, n, id, states[n].jobs[id].doneAt.value);
  }
}
