/** How often one event is selected, in every run, and that this leads it to an end. */
module EventBusLiveness {
  import opened EventBusSpec
  import opened EventBusTheorems

  predicate Selects(step: Step, id: int) { step.Cycle? && id in step.ids }

  function SelectCount(steps: seq<Step>, id: int, n: nat): nat
    requires n <= |steps|
  {
    if n == 0 then 0 else SelectCount(steps, id, n - 1) + if Selects(steps[n - 1], id) then 1 else 0
  }

  // One selection to create the deliveries, and one for each attempt of each subscriber.
  function Budget(reg: Registry, ev: Event): int {
    1 + if ev.topic in reg then |Names(reg, ev.topic)| * ev.maxAttempts else 0
  }

  lemma NewEventLeft(reg: Registry, ev: Event)
    requires ev.next.At?
    ensures EventLeft(reg, ev, map[]) == Budget(reg, ev)
  {
  }

  // A cycle that selects the event uses up an attempt; no other step gives any back.
  lemma StepSelects(reg: Registry, cfg: Config, s: Tables, step: Step, s': Tables, id: int)
    requires ValidRegistry(reg) && Inv(reg, s) && Next(reg, cfg, s, step, s') && id in s.events && id in s'.events
    ensures Budget(reg, s'.events[id]) == Budget(reg, s.events[id])
    ensures EventLeft(reg, s'.events[id], RowsOf(s', id)) + (if Selects(step, id) then 1 else 0)
      <= EventLeft(reg, s.events[id], RowsOf(s, id))
  {
    NextKeepsMax(reg, cfg, s, step, s', id);
    if step.Cycle? {
      CycleEffect(reg, cfg, s, step, s');
      if id in step.ids {
        assert SameEvent(Processed(s, id, reg, cfg, step.now, step.outcome), s', id);
        ProcessedLowers(s, id, reg, cfg, step.now, step.outcome);
      } else {
        assert SameEvent(s, s', id);
      }
    }
  }

  lemma SelectedExists(reg: Registry, cfg: Config, s: Tables, step: Step, s': Tables, id: int)
    requires Next(reg, cfg, s, step, s') && Selects(step, id)
    ensures id in s.events
  {
  }

  lemma SelectionsInStep(reg: Registry, cfg: Config, states: seq<Tables>, steps: seq<Step>, id: int, n: nat)
    requires IsRun(reg, cfg, states, steps) && n < |steps|
    requires id >= states[n].nextId ==> SelectCount(steps, id, n) == 0
    requires id in states[n].events ==>
      SelectCount(steps, id, n) + EventLeft(reg, states[n].events[id], RowsOf(states[n], id)) <=
        Budget(reg, states[n].events[id])
    ensures id >= states[n + 1].nextId ==> SelectCount(steps, id, n + 1) == 0
    ensures id in states[n + 1].events ==>
      SelectCount(steps, id, n + 1) + EventLeft(reg, states[n + 1].events[id], RowsOf(states[n + 1], id))
        <= Budget(reg, states[n + 1].events[id])
  {
    var s, step, s' := states[n], steps[n], states[n + 1];
    RunInv(reg, cfg, states, steps, n);
    if Selects(step, id) { SelectedExists(reg, cfg, s, step, s', id); }
    if id < s.nextId {
      NextKeepsMax(reg, cfg, s, step, s', id);
      if id in s'.events { StepSelects(reg, cfg, s, step, s', id); }
    } else if id in s'.events {
      NewcomerLeft(reg, cfg, s, step, s', id);
    }
  }

  lemma NewcomerLeft(reg: Registry, cfg: Config, s: Tables, step: Step, s': Tables, id: int)
    requires ValidRegistry(reg) && Inv(reg, s) && Next(reg, cfg, s, step, s') && id >= s.nextId && id in s'.events
    ensures id < s'.nextId && EventLeft(reg, s'.events[id], RowsOf(s', id)) == Budget(reg, s'.events[id])
  {
    if step.Cycle? { CycleEffect(reg, cfg, s, step, s'); }
    assert step.Publish? && RowsOf(s', id) == map[];
    NewEventLeft(reg, s'.events[id]);
  }

  // In every run, whatever other dispatchers, failed cycles, new events and collections do: the cycles that
  // select an event, with the attempts it has left, number at most 1 + subscribers x max_attempts.
  lemma {:induction false} SelectionsBounded(reg: Registry, cfg: Config, states: seq<Tables>, steps: seq<Step>,
                                             id: int, n: nat)
    requires IsRun(reg, cfg, states, steps) && n <= |steps|
    ensures id >= states[n].nextId ==> SelectCount(steps, id, n) == 0
    ensures id in states[n].events ==>
      SelectCount(steps, id, n) + EventLeft(reg, states[n].events[id], RowsOf(states[n], id)) <=
        Budget(reg, states[n].events[id])
  {
    if n > 0 {
      SelectionsBounded(reg, cfg, states, steps, id, n - 1);
      SelectionsInStep(reg, cfg, states, steps, id, n - 1);
    }
  }

  lemma RunKeepsBudget(reg: Registry, cfg: Config, states: seq<Tables>, steps: seq<Step>, id: int, k: nat)
    requires IsRun(reg, cfg, states, steps) && k < |steps| && id < states[k].nextId
    ensures id < states[k + 1].nextId && (id in states[k + 1].events ==> id in states[k].events)
    ensures id in states[k + 1].events ==> Budget(reg, states[k + 1].events[id]) == Budget(reg, states[k].events[id])
    ensures id !in states[k + 1].events ==> !Selects(steps[k], id)
  {
    RunInv(reg, cfg, states, steps, k);
    NextKeepsMax(reg, cfg, states[k], steps[k], states[k + 1], id);
    if Selects(steps[k], id) { CycleEffect(reg, cfg, states[k], steps[k], states[k + 1]); }
  }

  lemma SelectionsWithin(reg: Registry, cfg: Config, states: seq<Tables>, steps: seq<Step>, id: int, n: nat)
    requires IsRun(reg, cfg, states, steps) && n <= |steps| && id in states[n].events
    ensures SelectCount(steps, id, n) <= Budget(reg, states[n].events[id]) && id < states[n].nextId
  {
    RunInv(reg, cfg, states, steps, n);
    SelectionsBounded(reg, cfg, states, steps, id, n);
    EventLeftNat(reg, states[n].events[id], RowsOf(states[n], id));
  }

  // Also after it has been collected.
  lemma {:induction false} SelectionsStop(reg: Registry, cfg: Config, states: seq<Tables>, steps: seq<Step>, id: int,
                                          i: nat, n: nat)
    requires IsRun(reg, cfg, states, steps) && i <= n <= |steps| && id in states[i].events
    ensures SelectCount(steps, id, n) <= Budget(reg, states[i].events[id])
    ensures id < states[n].nextId
    ensures id in states[n].events ==> Budget(reg, states[n].events[id]) == Budget(reg, states[i].events[id])
    decreases n
  {
    if id in states[n].events { SelectionsWithin(reg, cfg, states, steps, id, n); }
    if i < n {
      SelectionsStop(reg, cfg, states, steps, id, i, n - 1);
      RunKeepsBudget(reg, cfg, states, steps, id, n - 1);
    }
  }

  // An event selected that often is terminal ...
  lemma SelectedEnoughIsTerminal(reg: Registry, cfg: Config, states: seq<Tables>, steps: seq<Step>, id: int, n: nat)
    requires IsRun(reg, cfg, states, steps) && n <= |steps| && id in states[n].events
    requires SelectCount(steps, id, n) >= Budget(reg, states[n].events[id])
    ensures Terminal(states[n].events[id])
  {
    RunInv(reg, cfg, states, steps, n);
    SelectionsBounded(reg, cfg, states, steps, id, n);
    SpentIsTerminal(reg, states[n].events[id], RowsOf(states[n], id));
  }

  // ... and one that is not terminal has a finite due time and is selectable from then on, so cycles that
  // keep coming, and are not kept off its row, bring it to its end.
  lemma UnfinishedIsSelectable(reg: Registry, cfg: Config, states: seq<Tables>, steps: seq<Step>, id: int, n: nat,
                               now: int)
    requires IsRun(reg, cfg, states, steps) && n <= |steps| && id in states[n].events && !Terminal(states[n].events[id])
    ensures states[n].events[id].next.At?
    ensures Selectable(states[n], id, now) <==> states[n].events[id].next.t <= now
  {
    RunInv(reg, cfg, states, steps, n);
    assert EventInv(reg, states[n].events[id], RowsOf(states[n], id));
    GateExact(reg, states[n], id, now);
  }
}
