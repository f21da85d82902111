/** What holds in every reachable state and over every run of the outbox. */
module EventBusTheorems {
  import opened Wrappers
  import opened Sums
  import opened Powers
  import opened EventBusSpec

  // ---- Effect of a batch: each event is processed as if alone ----

  ghost predicate SameEvent(s: Tables, t: Tables, k: int)
    requires k in s.events && k in t.events
  {
    t.events[k] == s.events[k] && RowsOf(t, k) == RowsOf(s, k)
  }

  lemma ProcessedLocal(s: Tables, t: Tables, k: int, reg: Registry, cfg: Config, now: int, outcome: Outcomes)
    requires k in s.events && k in t.events && SameEvent(s, t, k)
    ensures SameEvent(Processed(s, k, reg, cfg, now, outcome), Processed(t, k, reg, cfg, now, outcome), k)
    ensures Selectable(s, k, now) == Selectable(t, k, now)
  {
  }

  // Every event of s is, in r, as processing the events of ids one by one in isolation leaves it.
  ghost predicate EachAlone(s: Tables, ids: seq<int>, r: Tables, reg: Registry, cfg: Config, now: int,
                            outcome: Outcomes)
    requires r.events.Keys == s.events.Keys
  {
    forall k :: k in s.events ==> SameEvent(if k in ids then Processed(s, k, reg, cfg, now, outcome) else s, r, k)
  }

  lemma BatchStep(s: Tables, ids: seq<int>, id: int, t: Tables, reg: Registry, cfg: Config, now: int, outcome: Outcomes)
    requires ValidRegistry(reg) && Inv(reg, t) && t.events.Keys == s.events.Keys
    requires EachAlone(s, ids, t, reg, cfg, now, outcome) && id !in ids && id in s.events && Selectable(s, id, now)
    ensures var r := Processed(t, id, reg, cfg, now, outcome);
      Inv(reg, r) && r.nextId == t.nextId && EachAlone(s, ids + [id], r, reg, cfg, now, outcome)
  {
    var r := Processed(t, id, reg, cfg, now, outcome);
    assert SameEvent(s, t, id);
    ProcessedLocal(s, t, id, reg, cfg, now, outcome);
    ProcessedInv(t, id, reg, cfg, now, outcome);
    forall k | k in s.events
      ensures SameEvent(if k in ids + [id] then Processed(s, k, reg, cfg, now, outcome) else s, r, k)
    {
      if k != id {
        assert SameEvent(if k in ids then Processed(s, k, reg, cfg, now, outcome) else s, t, k);
        assert SameEvent(t, r, k);
      }
    }
  }

  lemma {:induction false} BatchEffect(s: Tables, ids: seq<int>, reg: Registry, cfg: Config, now: int,
                                       outcome: Outcomes)
    requires ValidRegistry(reg) && Inv(reg, s)
    requires forall i :: 0 <= i < |ids| ==> ids[i] in s.events && Selectable(s, ids[i], now)
    requires forall i, j :: 0 <= i < j < |ids| ==> ids[i] != ids[j]
    ensures var r := ProcessedAll(s, ids, reg, cfg, now, outcome);
      Inv(reg, r) && r.nextId == s.nextId && EachAlone(s, ids, r, reg, cfg, now, outcome)
    decreases |ids|
  {
    if ids != [] {
      var n := |ids| - 1;
      BatchEffect(s, ids[..n], reg, cfg, now, outcome);
      BatchStep(s, ids[..n], ids[n], ProcessedAll(s, ids[..n], reg, cfg, now, outcome), reg, cfg, now, outcome);
      assert ids == ids[..n] + [ids[n]];
    }
  }

  lemma CycleEffect(reg: Registry, cfg: Config, s: Tables, step: Step, s': Tables)
    requires ValidRegistry(reg) && Inv(reg, s) && step.Cycle? && Next(reg, cfg, s, step, s')
    ensures Inv(reg, s') && s'.nextId == s.nextId && s'.events.Keys == s.events.Keys
    ensures EachAlone(s, step.ids, s', reg, cfg, step.now, step.outcome)
  {
    BatchEffect(s, step.ids, reg, cfg, step.now, step.outcome);
  }

  // ---- The invariant holds in every reachable state ----

  lemma StepInv(reg: Registry, cfg: Config, s: Tables, step: Step, s': Tables)
    requires ValidRegistry(reg) && Inv(reg, s) && Next(reg, cfg, s, step, s')
    ensures Inv(reg, s')
  {
    match step
    case Publish(topic, max, at) =>
      assert RowsOf(s', s.nextId) == map[];
      forall id | id in s'.events ensures id < s'.nextId && EventInv(reg, s'.events[id], RowsOf(s', id)) {
        if id != s.nextId { assert EventInv(reg, s.events[id], RowsOf(s, id)); }
      }
    case Cycle(_, _, _, _) => CycleEffect(reg, cfg, s, step, s');
    case AbortedCycle =>
    case Gc(now, days) =>
      forall id | id in s'.events ensures EventInv(reg, s'.events[id], RowsOf(s', id)) {
        assert EventInv(reg, s.events[id], RowsOf(s, id));
        assert RowsOf(s', id) == RowsOf(s, id);
      }
  }

  lemma {:induction false} RunInv(reg: Registry, cfg: Config, states: seq<Tables>, steps: seq<Step>, n: nat)
    requires IsRun(reg, cfg, states, steps) && n < |states|
    ensures Inv(reg, states[n])
  {
    if n > 0 {
      RunInv(reg, cfg, states, steps, n - 1);
      StepInv(reg, cfg, states[n - 1], steps[n - 1], states[n]);
    }
  }

  // ---- The event row is an exact index of its deliveries ----

  lemma GateExact(reg: Registry, s: Tables, id: int, now: int)
    requires Inv(reg, s) && id in s.events
    ensures Selectable(s, id, now) <==> Due(s.events[id].next, now)
  {
    var ev, rows := s.events[id], RowsOf(s, id);
    assert EventInv(reg, ev, rows);
    if Due(ev.next, now) && rows != map[] {
      var h :| h in rows && rows[h].status == Pending && rows[h].next == ev.next;
      assert RowInv(rows[h], ev.maxAttempts);
      assert Ready(rows[h], now);
    }
  }

  // In every reachable state the event row holds the least due time of its pending deliveries, so
  // the row-level gate passes an event exactly when one of its deliveries is due.
  lemma IndexExact(reg: Registry, cfg: Config, states: seq<Tables>, steps: seq<Step>, n: nat, id: int, now: int)
    requires IsRun(reg, cfg, states, steps) && n < |states| && id in states[n].events
    requires RowsOf(states[n], id) != map[]
    ensures var s := states[n];
      && s.events[id].next == LeastPending(RowsOf(s, id))
      && (Due(s.events[id].next, now) <==> exists h :: h in RowsOf(s, id) && Ready(RowsOf(s, id)[h], now))
  {
    var s := states[n];
    RunInv(reg, cfg, states, steps, n);
    assert EventInv(reg, s.events[id], RowsOf(s, id));
    LeastPendingUnique(RowsOf(s, id), s.events[id].next);
    GateExact(reg, s, id, now);
    if h :| h in RowsOf(s, id) && Ready(RowsOf(s, id)[h], now) {
      assert Before(s.events[id].next, RowsOf(s, id)[h].next);
    }
  }

  // ---- Per-subscriber isolation ----

  // The row of subscriber h, or the one that processing the event would create.
  function RowFor(s: Tables, id: int, h: string, now: int): Delivery
    requires id in s.events
  {
    if h in RowsOf(s, id) then RowsOf(s, id)[h] else NewDelivery(s.events[id].maxAttempts, now)
  }

  // The handler of (id, h) is called in this step.
  ghost predicate Calls(reg: Registry, s: Tables, step: Step, id: int, h: string) {
    && step.Cycle? && id in step.ids && id in s.events
    && s.events[id].topic in reg && h in Names(reg, s.events[id].topic)
    && Ready(RowFor(s, id, h, step.now), step.now)
  }

  // A committed cycle changes the row of (id, h) by nothing, or by one attempt driven by that
  // handler's own outcome alone; nothing else in the cycle has any influence on it.
  lemma RowIsolation(reg: Registry, cfg: Config, s: Tables, step: Step, s': Tables, id: int, h: string)
    requires ValidRegistry(reg) && Inv(reg, s) && step.Cycle? && Next(reg, cfg, s, step, s')
    requires id in s.events && s.events[id].topic in reg && h in Names(reg, s.events[id].topic)
    ensures id !in step.ids ==> RowsOf(s', id) == RowsOf(s, id)
    ensures id in step.ids ==> h in RowsOf(s', id)
    ensures id in step.ids ==> var d := RowFor(s, id, h, step.now);
      RowsOf(s', id)[h] == if Calls(reg, s, step, id, h)
                           then Attempt(d, step.outcome(id, h), step.now, cfg.backoffMax) else d
  {
    CycleEffect(reg, cfg, s, step, s');
    if id in step.ids {
      var p := Processed(s, id, reg, cfg, step.now, step.outcome);
      assert SameEvent(p, s', id);
      assert EventInv(reg, s.events[id], RowsOf(s, id));
    } else {
      assert SameEvent(s, s', id);
    }
  }

  ghost function CallCount(reg: Registry, states: seq<Tables>, steps: seq<Step>, id: int, h: string, n: nat): nat
    requires n <= |steps| < |states|
  {
    if n == 0 then 0
    else
      var calls := CallCount(reg, states, steps, id, h, n - 1);
      if Calls(reg, states[n - 1], steps[n - 1], id, h) then calls + 1 else calls
  }

  // How often the handler was called, read off its row.
  predicate RowCalls(d: Delivery, calls: nat) {
    match d.status
    case Pending => calls == d.attempts
    case Delivered => calls == d.attempts + 1
    case Failed => 1 <= calls <= d.maxAttempts
  }

  predicate CallsMatch(s: Tables, id: int, h: string, calls: nat)
    requires id in s.events
  {
    if h in RowsOf(s, id) then RowCalls(RowsOf(s, id)[h], calls) else calls == 0
  }

  lemma AttemptCalls(d: Delivery, calls: nat, o: Outcome, now: int, backoffMax: int)
    requires 0 <= d.attempts && Ready(d, now) && RowCalls(d, calls)
    ensures RowCalls(Attempt(d, o, now, backoffMax), calls + 1)
  {
  }

  lemma CycleCalls(reg: Registry, cfg: Config, s: Tables, step: Step, s': Tables, id: int, h: string, calls: nat)
    requires ValidRegistry(reg) && Inv(reg, s) && step.Cycle? && Next(reg, cfg, s, step, s')
    requires id in s.events && id in s'.events && CallsMatch(s, id, h, calls)
    ensures CallsMatch(s', id, h, if Calls(reg, s, step, id, h) then calls + 1 else calls)
  {
    assert EventInv(reg, s.events[id], RowsOf(s, id));
    if s.events[id].topic in reg && h in Names(reg, s.events[id].topic) {
      RowIsolation(reg, cfg, s, step, s', id, h);
      var d := RowFor(s, id, h, step.now);
      if Calls(reg, s, step, id, h) {
        AttemptCalls(d, calls, step.outcome(id, h), step.now, cfg.backoffMax);
      }
    } else {
      StepInv(reg, cfg, s, step, s');
      NextKeepsMax(reg, cfg, s, step, s', id);
      assert EventInv(reg, s'.events[id], RowsOf(s', id));
    }
  }

  // `calls` counts the calls of (id, h) before the step.
  lemma StepCalls(reg: Registry, cfg: Config, s: Tables, step: Step, s': Tables, id: int, h: string, calls: nat)
    requires ValidRegistry(reg) && Inv(reg, s) && Next(reg, cfg, s, step, s')
    requires id >= s.nextId ==> calls == 0
    requires id in s.events ==> CallsMatch(s, id, h, calls)
    ensures Calls(reg, s, step, id, h) ==> id < s.nextId
    ensures id >= s'.nextId ==> id >= s.nextId
    ensures id in s'.events ==> CallsMatch(s', id, h, if Calls(reg, s, step, id, h) then calls + 1 else calls)
  {
    match step
    case Publish(_, _, _) => assert id in s'.events ==> RowsOf(s', id) == RowsOf(s, id);
    case Cycle(_, _, _, _) =>
      CycleEffect(reg, cfg, s, step, s');
      if id in s.events { CycleCalls(reg, cfg, s, step, s', id, h, calls); }
    case AbortedCycle =>
    case Gc(_, _) => assert id in s'.events ==> RowsOf(s', id) == RowsOf(s, id);
  }

  lemma {:induction false} CallHistory(reg: Registry, cfg: Config, states: seq<Tables>, steps: seq<Step>,
                                       id: int, h: string, n: nat)
    requires IsRun(reg, cfg, states, steps) && n <= |steps|
    ensures id >= states[n].nextId ==> CallCount(reg, states, steps, id, h, n) == 0
    ensures id in states[n].events ==> CallsMatch(states[n], id, h, CallCount(reg, states, steps, id, h, n))
  {
    if n > 0 {
      CallHistory(reg, cfg, states, steps, id, h, n - 1);
      RunInv(reg, cfg, states, steps, n - 1);
      var calls := CallCount(reg, states, steps, id, h, n - 1);
      StepCalls(reg, cfg, states[n - 1], steps[n - 1], states[n], id, h, calls);
    }
  }

  lemma NextKeepsMax(reg: Registry, cfg: Config, s: Tables, step: Step, s': Tables, id: int)
    requires ValidRegistry(reg) && Inv(reg, s) && Next(reg, cfg, s, step, s') && id < s.nextId
    ensures id < s'.nextId && (id in s'.events ==> id in s.events)
    ensures id in s'.events ==> s'.events[id].maxAttempts == s.events[id].maxAttempts
    ensures id in s'.events ==> s'.events[id].topic == s.events[id].topic
  {
    if step.Cycle? {
      CycleEffect(reg, cfg, s, step, s');
      if id in s.events {
        assert SameEvent(if id in step.ids then Processed(s, id, reg, cfg, step.now, step.outcome) else s, s', id);
      }
    }
  }

  lemma CallsWithin(reg: Registry, cfg: Config, states: seq<Tables>, steps: seq<Step>, id: int, h: string, n: nat)
    requires IsRun(reg, cfg, states, steps) && n <= |steps| && id in states[n].events
    ensures CallCount(reg, states, steps, id, h, n) <= states[n].events[id].maxAttempts && id < states[n].nextId
  {
    RunInv(reg, cfg, states, steps, n);
    CallHistory(reg, cfg, states, steps, id, h, n);
    assert EventInv(reg, states[n].events[id], RowsOf(states[n], id));
  }

  lemma RunKeepsMax(reg: Registry, cfg: Config, states: seq<Tables>, steps: seq<Step>, id: int, k: nat)
    requires IsRun(reg, cfg, states, steps) && k < |steps| && id < states[k].nextId
    ensures id < states[k + 1].nextId && (id in states[k + 1].events ==> id in states[k].events)
    ensures id in states[k + 1].events ==> states[k + 1].events[id].maxAttempts == states[k].events[id].maxAttempts
  {
    RunInv(reg, cfg, states, steps, k);
    NextKeepsMax(reg, cfg, states[k], steps[k], states[k + 1], id);
  }

  // An event keeps its attempt limit from its first state to its last.
  lemma {:induction false} MaxKept(reg: Registry, cfg: Config, states: seq<Tables>, steps: seq<Step>,
                                   id: int, i: nat, n: nat)
    requires IsRun(reg, cfg, states, steps) && i <= n <= |steps| && id in states[i].events
    ensures id < states[n].nextId
    ensures id in states[n].events ==> states[n].events[id].maxAttempts == states[i].events[id].maxAttempts
    decreases n
  {
    if n > i {
      MaxKept(reg, cfg, states, steps, id, i, n - 1);
      RunKeepsMax(reg, cfg, states, steps, id, n - 1);
    } else {
      RunInv(reg, cfg, states, steps, n);
    }
  }

  // A step that leaves the event out of the table has not called for it.
  lemma GoneNotCalled(reg: Registry, cfg: Config, states: seq<Tables>, steps: seq<Step>, id: int, h: string, n: nat)
    requires IsRun(reg, cfg, states, steps) && 0 < n <= |steps| && id !in states[n].events
    ensures CallCount(reg, states, steps, id, h, n) == CallCount(reg, states, steps, id, h, n - 1)
  {
    RunInv(reg, cfg, states, steps, n - 1);
    assert Next(reg, cfg, states[n - 1], steps[n - 1], states[n]);
    if steps[n - 1].Cycle? { CycleEffect(reg, cfg, states[n - 1], steps[n - 1], states[n]); }
  }

  // Over any run, committed calls of a handler for an event never exceed the event's attempt limit,
  // even after the event has been collected.
  lemma {:induction false} CallsBounded(reg: Registry, cfg: Config, states: seq<Tables>, steps: seq<Step>,
                                        id: int, h: string, i: nat, n: nat)
    requires IsRun(reg, cfg, states, steps) && i <= n <= |steps| && id in states[i].events
    ensures CallCount(reg, states, steps, id, h, n) <= states[i].events[id].maxAttempts
    ensures id < states[n].nextId
    ensures id in states[n].events ==> states[n].events[id].maxAttempts == states[i].events[id].maxAttempts
    decreases n
  {
    MaxKept(reg, cfg, states, steps, id, i, n);
    if id in states[n].events {
      CallsWithin(reg, cfg, states, steps, id, h, n);
    } else {
      CallsBounded(reg, cfg, states, steps, id, h, i, n - 1);
      GoneNotCalled(reg, cfg, states, steps, id, h, n);
    }
  }

  // ---- Finality and fan-out ----

  lemma StepRowFinal(reg: Registry, cfg: Config, s: Tables, step: Step, s': Tables, id: int, h: string)
    requires ValidRegistry(reg) && Inv(reg, s) && Next(reg, cfg, s, step, s') && id in s.events && id in s'.events
    requires h in RowsOf(s, id) && RowsOf(s, id)[h].status != Pending
    ensures h in RowsOf(s', id) && RowsOf(s', id)[h] == RowsOf(s, id)[h] && !Calls(reg, s, step, id, h)
  {
    assert EventInv(reg, s.events[id], RowsOf(s, id));
    if step.Cycle? {
      RowIsolation(reg, cfg, s, step, s', id, h);
    }
  }

  lemma StepEventFinal(reg: Registry, cfg: Config, s: Tables, step: Step, s': Tables, id: int)
    requires ValidRegistry(reg) && Inv(reg, s) && Next(reg, cfg, s, step, s') && id in s.events && id in s'.events
    requires s.events[id].status != Pending
    ensures s'.events[id].status == s.events[id].status
  {
    var ev, rows := s.events[id], RowsOf(s, id);
    assert EventInv(reg, ev, rows);
    if step.Cycle? {
      CycleEffect(reg, cfg, s, step, s');
      if id !in step.ids {
        assert SameEvent(s, s', id);
      } else {
        assert Selectable(s, id, step.now);
        if ev.status == Failed {
          var h :| h in rows && rows[h].status == Failed;
          StepRowFinal(reg, cfg, s, step, s', id, h);
          assert EventInv(reg, s'.events[id], RowsOf(s', id));
        } else {
          assert false;
        }
      }
    }
  }

  // Delivered and failed events and deliveries never change their status again.
  lemma {:induction false} Finality(reg: Registry, cfg: Config, states: seq<Tables>, steps: seq<Step>, id: int,
                                    i: nat, j: nat)
    requires IsRun(reg, cfg, states, steps) && i <= j < |states|
    requires id in states[i].events && id in states[j].events && states[i].events[id].status != Pending
    ensures states[j].events[id].status == states[i].events[id].status
    decreases j
  {
    if i < j {
      RunInv(reg, cfg, states, steps, j - 1);
      PresentBetween(reg, cfg, states, steps, id, i, j - 1, j);
      Finality(reg, cfg, states, steps, id, i, j - 1);
      StepEventFinal(reg, cfg, states[j - 1], steps[j - 1], states[j], id);
    }
  }

  lemma {:induction false} PresentBetween(reg: Registry, cfg: Config, states: seq<Tables>, steps: seq<Step>,
                                          id: int, i: nat, k: nat, j: nat)
    requires IsRun(reg, cfg, states, steps) && i <= k <= j < |states|
    requires id in states[i].events && id in states[j].events
    ensures id in states[k].events
    decreases j
  {
    if k < j {
      CallsBounded(reg, cfg, states, steps, id, "", i, j - 1);
      RunInv(reg, cfg, states, steps, j - 1);
      NextKeepsMax(reg, cfg, states[j - 1], steps[j - 1], states[j], id);
      PresentBetween(reg, cfg, states, steps, id, i, k, j - 1);
    }
  }

  ghost predicate AllDelivered(reg: Registry, s: Tables, id: int)
    requires id in s.events
  {
    && s.events[id].topic in reg
    && forall h :: h in reg[s.events[id].topic] ==> h in RowsOf(s, id) && RowsOf(s, id)[h].status == Delivered
  }

  // An event is delivered exactly when every subscriber of its topic has handled it.
  lemma FanOutComplete(reg: Registry, cfg: Config, states: seq<Tables>, steps: seq<Step>, n: nat, id: int)
    requires IsRun(reg, cfg, states, steps) && n < |states| && id in states[n].events
    ensures states[n].events[id].status == Delivered <==> AllDelivered(reg, states[n], id)
  {
    RunInv(reg, cfg, states, steps, n);
    var s := states[n];
    var ev, rows := s.events[id], RowsOf(s, id);
    assert EventInv(reg, ev, rows);
    if ev.status == Delivered {
      forall h | h in reg[ev.topic] ensures h in rows && rows[h].status == Delivered {
        assert h in Names(reg, ev.topic);
      }
    } else if AllDelivered(reg, s, id) {
      assert reg[ev.topic][0] in rows;
      assert forall h :: h in rows ==> h in reg[ev.topic];
    }
  }

  // Garbage collection deletes only events that every subscriber handled, and keeps the others whole.
  lemma CollectionSafe(reg: Registry, cfg: Config, states: seq<Tables>, steps: seq<Step>, n: nat, id: int)
    requires IsRun(reg, cfg, states, steps) && n < |steps| && id in states[n].events
    ensures id !in states[n + 1].events ==> steps[n].Gc? && AllDelivered(reg, states[n], id)
    ensures steps[n].Gc? && id in states[n + 1].events ==> SameEvent(states[n], states[n + 1], id)
  {
    RunInv(reg, cfg, states, steps, n);
    FanOutComplete(reg, cfg, states, steps, n, id);
    if steps[n].Cycle? { CycleEffect(reg, cfg, states[n], steps[n], states[n + 1]); }
  }

  // A row that is delivered or failed is left alone by every step, until its event is collected.
  lemma StepRowKept(reg: Registry, cfg: Config, s: Tables, step: Step, s': Tables, id: int, h: string)
    requires ValidRegistry(reg) && Inv(reg, s) && Next(reg, cfg, s, step, s') && id < s.nextId
    requires id in s.events ==> h in RowsOf(s, id) && RowsOf(s, id)[h].status != Pending
    ensures id < s'.nextId && !Calls(reg, s, step, id, h) && (id in s'.events ==> id in s.events)
    ensures id in s'.events ==> h in RowsOf(s', id) && RowsOf(s', id)[h] == RowsOf(s, id)[h]
  {
    NextKeepsMax(reg, cfg, s, step, s', id);
    if id in s'.events { StepRowFinal(reg, cfg, s, step, s', id, h); }
  }

  lemma RunRowKept(reg: Registry, cfg: Config, states: seq<Tables>, steps: seq<Step>, id: int, h: string, k: nat)
    requires IsRun(reg, cfg, states, steps) && k < |steps| && id < states[k].nextId
    requires id in states[k].events ==> h in RowsOf(states[k], id) && RowsOf(states[k], id)[h].status != Pending
    ensures id < states[k + 1].nextId && !Calls(reg, states[k], steps[k], id, h)
    ensures id in states[k + 1].events ==>
      && id in states[k].events && h in RowsOf(states[k + 1], id)
      && RowsOf(states[k + 1], id)[h] == RowsOf(states[k], id)[h]
  {
    RunInv(reg, cfg, states, steps, k);
    StepRowKept(reg, cfg, states[k], steps[k], states[k + 1], id, h);
  }

  lemma {:induction false} FinalRowKept(reg: Registry, cfg: Config, states: seq<Tables>, steps: seq<Step>,
                                        id: int, h: string, i: nat, n: nat)
    requires IsRun(reg, cfg, states, steps) && i <= n <= |steps| && id in states[i].events && id < states[i].nextId
    requires h in RowsOf(states[i], id) && RowsOf(states[i], id)[h].status != Pending
    ensures id < states[n].nextId
    ensures id in states[n].events ==>
      h in RowsOf(states[n], id) && RowsOf(states[n], id)[h] == RowsOf(states[i], id)[h]
    decreases n
  {
    if i < n {
      FinalRowKept(reg, cfg, states, steps, id, h, i, n - 1);
      RunRowKept(reg, cfg, states, steps, id, h, n - 1);
    }
  }

  lemma FinalNotCalled(reg: Registry, cfg: Config, states: seq<Tables>, steps: seq<Step>, id: int, h: string, i: nat,
                       k: nat)
    requires IsRun(reg, cfg, states, steps) && i <= k < |steps| && id in states[i].events && id < states[i].nextId
    requires h in RowsOf(states[i], id) && RowsOf(states[i], id)[h].status != Pending
    ensures !Calls(reg, states[k], steps[k], id, h)
  {
    FinalRowKept(reg, cfg, states, steps, id, h, i, k);
    RunRowKept(reg, cfg, states, steps, id, h, k);
  }

  lemma {:induction false} FinalCallCount(reg: Registry, cfg: Config, states: seq<Tables>, steps: seq<Step>,
                                          id: int, h: string, i: nat, n: nat)
    requires IsRun(reg, cfg, states, steps) && i <= n <= |steps| && id in states[i].events && id < states[i].nextId
    requires h in RowsOf(states[i], id) && RowsOf(states[i], id)[h].status != Pending
    ensures CallCount(reg, states, steps, id, h, n) == CallCount(reg, states, steps, id, h, i)
    decreases n
  {
    if i < n {
      FinalCallCount(reg, cfg, states, steps, id, h, i, n - 1);
      FinalNotCalled(reg, cfg, states, steps, id, h, i, n - 1);
    }
  }

  // Once a delivery is delivered or failed its handler is not called again, and its row does not change.
  lemma NoCallsAfterFinal(reg: Registry, cfg: Config, states: seq<Tables>, steps: seq<Step>, id: int, h: string,
                          i: nat, n: nat)
    requires IsRun(reg, cfg, states, steps) && i <= n <= |steps| && id in states[i].events
    requires h in RowsOf(states[i], id) && RowsOf(states[i], id)[h].status != Pending
    ensures CallCount(reg, states, steps, id, h, n) == CallCount(reg, states, steps, id, h, i)
    ensures id in states[n].events ==>
      h in RowsOf(states[n], id) && RowsOf(states[n], id)[h] == RowsOf(states[i], id)[h]
  {
    RunInv(reg, cfg, states, steps, i);
    FinalRowKept(reg, cfg, states, steps, id, h, i, n);
    FinalCallCount(reg, cfg, states, steps, id, h, i, n);
  }

  // ---- Progress ----

  // Attempts a row may still use.
  function Left(d: Delivery): int {
    if d.status == Pending && d.attempts < d.maxAttempts then d.maxAttempts - d.attempts else 0
  }

  function LeftAt(rows: Rows): string -> int { h => if h in rows then Left(rows[h]) else 0 }

  // Attempts an event may still use; an event that was never processed counts one more.
  ghost function EventLeft(reg: Registry, ev: Event, rows: Rows): int {
    if rows != map[] then Sum(LeftAt(rows), rows.Keys)
    else if ev.next == Infinity then 0
    else 1 + if ev.topic in reg then |Names(reg, ev.topic)| * ev.maxAttempts else 0
  }

  ghost function LeftIn(reg: Registry, s: Tables): int -> int {
    id => if id in s.events then EventLeft(reg, s.events[id], RowsOf(s, id)) else 0
  }

  ghost function TotalLeft(reg: Registry, s: Tables): int { Sum(LeftIn(reg, s), s.events.Keys) }

  lemma EventLeftNat(reg: Registry, ev: Event, rows: Rows)
    requires EventInv(reg, ev, rows)
    ensures EventLeft(reg, ev, rows) >= 0
  {
    if rows != map[] {
      SumBound(LeftAt(rows), rows.Keys, ev.maxAttempts);
    } else if ev.topic in reg {
      SubscribersUse(|Names(reg, ev.topic)|, ev.maxAttempts);
    }
  }

  lemma TotalLeftNat(reg: Registry, s: Tables)
    requires Inv(reg, s)
    ensures TotalLeft(reg, s) >= 0
  {
    forall id | id in s.events ensures LeftIn(reg, s)(id) >= 0 {
      EventLeftNat(reg, s.events[id], RowsOf(s, id));
    }
    SumMono((_: int) => 0, LeftIn(reg, s), s.events.Keys);
    ZeroSum(s.events.Keys);
  }

  lemma {:induction false} ZeroSum(s: set<int>)
    ensures Sum((_: int) => 0, s) == 0
  {
    SumBound((_: int) => 0, s, 0);
  }

  lemma StepRowLowers(d: Delivery, registered: bool, o: Outcome, now: int, backoffMax: int)
    ensures Left(StepRow(d, registered, o, now, backoffMax)) <= Left(d)
    ensures Ready(d, now) ==> Left(StepRow(d, registered, o, now, backoffMax)) < Left(d)
  {
  }

  lemma RowsLower(rows: Rows, names: set<string>, id: int, outcome: Outcomes, now: int, backoffMax: int, h: string)
    requires h in rows && Ready(rows[h], now)
    ensures var rows' := Attempted(rows, names, id, outcome, now, backoffMax);
      rows'.Keys == rows.Keys && Sum(LeftAt(rows'), rows'.Keys) < Sum(LeftAt(rows), rows.Keys)
  {
    var rows' := Attempted(rows, names, id, outcome, now, backoffMax);
    forall k | k in rows ensures LeftAt(rows')(k) <= LeftAt(rows)(k) {
      StepRowLowers(rows[k], k in names, outcome(id, k), now, backoffMax);
    }
    StepRowLowers(rows[h], h in names, outcome(id, h), now, backoffMax);
    SumStrict(LeftAt(rows'), LeftAt(rows), rows.Keys, h);
  }

  lemma EnsuredSame(rows: Rows, names: set<string>, maxAttempts: int, now: int)
    requires rows.Keys == names
    ensures Ensured(rows, names, maxAttempts, now) == rows
  {
  }

  lemma ProcessedRowsLower(s: Tables, id: int, reg: Registry, cfg: Config, now: int, outcome: Outcomes)
    requires ValidRegistry(reg) && Inv(reg, s) && Selectable(s, id, now)
    requires s.events[id].topic in reg && RowsOf(s, id) != map[]
    ensures var rows, rows' := RowsOf(s, id), ProcessedRows(s, id, reg, cfg, now, outcome);
      rows' != map[] && Sum(LeftAt(rows'), rows'.Keys) < Sum(LeftAt(rows), rows.Keys)
  {
    var ev, rows := s.events[id], RowsOf(s, id);
    assert EventInv(reg, ev, rows);
    var names := Names(reg, ev.topic);
    EnsuredSame(rows, names, ev.maxAttempts, now);
    var h :| h in rows && Ready(rows[h], now);
    RowsLower(rows, names, id, outcome, now, cfg.backoffMax, h);
  }

  // A processed event has strictly fewer attempts left.
  lemma ProcessedLowers(s: Tables, id: int, reg: Registry, cfg: Config, now: int, outcome: Outcomes)
    requires ValidRegistry(reg) && Inv(reg, s) && Selectable(s, id, now)
    ensures var t := Processed(s, id, reg, cfg, now, outcome);
      EventLeft(reg, t.events[id], RowsOf(t, id)) < EventLeft(reg, s.events[id], RowsOf(s, id))
  {
    var ev, rows := s.events[id], RowsOf(s, id);
    assert EventInv(reg, ev, rows);
    if ev.topic in reg {
      if rows == map[] {
        ProcessedRowsInv(s, id, reg, cfg, now, outcome);
        var rows' := ProcessedRows(s, id, reg, cfg, now, outcome);
        SumBound(LeftAt(rows'), rows'.Keys, ev.maxAttempts);
      } else {
        ProcessedRowsLower(s, id, reg, cfg, now, outcome);
      }
    }
  }

  lemma CycleLowers(reg: Registry, cfg: Config, s: Tables, step: Step, s': Tables, k: int)
    requires ValidRegistry(reg) && Inv(reg, s) && step.Cycle? && Next(reg, cfg, s, step, s')
    requires k in s.events && k in s'.events
    requires EachAlone(s, step.ids, s', reg, cfg, step.now, step.outcome)
    ensures var before, after := LeftIn(reg, s)(k), LeftIn(reg, s')(k);
      after <= before && (k in step.ids ==> after < before)
  {
    if k in step.ids {
      assert Selectable(s, k, step.now);
      ProcessedLowers(s, k, reg, cfg, step.now, step.outcome);
      assert SameEvent(Processed(s, k, reg, cfg, step.now, step.outcome), s', k);
    } else {
      assert SameEvent(s, s', k);
    }
  }

  // A committed cycle that selects an event strictly lowers the total; with no new events the
  // dispatcher's no-sleep loop therefore ends.
  lemma CycleProgress(reg: Registry, cfg: Config, s: Tables, step: Step, s': Tables)
    requires ValidRegistry(reg) && Inv(reg, s) && step.Cycle? && Next(reg, cfg, s, step, s') && step.ids != []
    ensures 0 <= TotalLeft(reg, s') < TotalLeft(reg, s)
  {
    CycleEffect(reg, cfg, s, step, s');
    TotalLeftNat(reg, s');
    var f, g := LeftIn(reg, s'), LeftIn(reg, s);
    forall k | k in s.events ensures f(k) <= g(k) && (k in step.ids ==> f(k) < g(k)) {
      CycleLowers(reg, cfg, s, step, s', k);
    }
    BatchHead(s, step.now, step.locked, BatchLimit(cfg), step.ids);
    SumStrict(f, g, s.events.Keys, step.ids[0]);
  }

  predicate Terminal(ev: Event) { ev.next == Infinity && ev.status != Pending }

  ghost predicate AllTerminal(s: Tables) { forall id :: id in s.events ==> Terminal(s.events[id]) }

  ghost predicate Idle(s: Tables, now: int) { forall id :: !Selectable(s, id, now) }

  // When nothing is selectable at a moment by which every scheduled retry has come due, and no row is
  // locked by another dispatcher, every event is in a terminal state.
  lemma QuiescentIsTerminal(reg: Registry, s: Tables, now: int)
    requires Inv(reg, s)
    requires forall id :: id in s.events && s.events[id].next.At? ==> s.events[id].next.t <= now
    requires Idle(s, now)
    ensures AllTerminal(s)
  {
    forall id | id in s.events ensures Terminal(s.events[id]) {
      GateExact(reg, s, id, now);
      var rows := RowsOf(s, id);
      assert EventInv(reg, s.events[id], rows);
      if h :| h in rows && rows[h].status == Pending {
        assert false;
      }
    }
  }

  lemma {:induction false} ZeroTerms<T(!new)>(f: T -> int, s: set<T>, x: T)
    requires x in s && (forall y :: y in s ==> 0 <= f(y)) && Sum(f, s) <= 0
    ensures f(x) == 0
  {
    SumRemove(f, s, x);
    SumMono((_: T) => 0, f, s - {x});
    SumBound((_: T) => 0, s - {x}, 0);
  }

  lemma PendingHasLeft(rows: Rows, max: int, h: string)
    requires (forall k :: k in rows ==> RowInv(rows[k], max)) && h in rows && rows[h].status == Pending
    ensures Sum(LeftAt(rows), rows.Keys) > 0
  {
    forall k | k in rows ensures LeftAt(rows)(k) >= 0 {}
    if Sum(LeftAt(rows), rows.Keys) <= 0 { ZeroTerms(LeftAt(rows), rows.Keys, h); }
  }

  // An event with no attempts left is terminal.
  lemma SpentIsTerminal(reg: Registry, ev: Event, rows: Rows)
    requires EventInv(reg, ev, rows) && EventLeft(reg, ev, rows) <= 0
    ensures Terminal(ev)
  {
    if h :| h in rows && rows[h].status == Pending { PendingHasLeft(rows, ev.maxAttempts, h); }
    if rows == map[] && ev.next.At? && ev.topic in reg { SubscribersUse(|Names(reg, ev.topic)|, ev.maxAttempts); }
  }

  lemma SubscribersUse(n: nat, max: int)
    requires max >= 0
    ensures n * max >= 0
  {
  }

  lemma NoneLeftIsTerminal(reg: Registry, s: Tables)
    requires Inv(reg, s) && TotalLeft(reg, s) <= 0
    ensures AllTerminal(s)
  {
    forall id | id in s.events ensures LeftIn(reg, s)(id) >= 0 {
      EventLeftNat(reg, s.events[id], RowsOf(s, id));
    }
    forall id | id in s.events ensures Terminal(s.events[id]) {
      ZeroTerms(LeftIn(reg, s), s.events.Keys, id);
      SpentIsTerminal(reg, s.events[id], RowsOf(s, id));
    }
  }

  // A cycle that no other dispatcher disturbs, at a moment by which every scheduled retry has come due.
  ghost predicate LetDue(reg: Registry, cfg: Config, s: Tables, step: Step, s': Tables) {
    && step.Cycle? && step.locked == {} && Next(reg, cfg, s, step, s')
    && forall id :: id in s.events && s.events[id].next.At? ==> s.events[id].next.t <= step.now
  }

  lemma BatchHead(s: Tables, now: int, locked: set<int>, limit: int, ids: seq<int>)
    requires IsBatch(s, now, locked, limit, ids) && ids != []
    ensures Selectable(s, ids[0], now)
  {
  }

  lemma TerminalStays(reg: Registry, cfg: Config, s: Tables, step: Step, s': Tables)
    requires AllTerminal(s) && LetDue(reg, cfg, s, step, s')
    ensures s' == s
  {
    if step.ids != [] {
      BatchHead(s, step.now, step.locked, BatchLimit(cfg), step.ids);
      assert false;
    }
  }

  // Liveness: after as many such cycles as there are attempts left, every event is terminal,
  // whatever the handlers did.
  lemma {:induction false} EventuallyTerminal(reg: Registry, cfg: Config, states: seq<Tables>, steps: seq<Step>)
    requires ValidRegistry(reg) && |states| == |steps| + 1 && Inv(reg, states[0])
    requires forall i :: 0 <= i < |steps| ==> LetDue(reg, cfg, states[i], steps[i], states[i + 1])
    requires |steps| >= TotalLeft(reg, states[0]) || AllTerminal(states[0])
    ensures AllTerminal(states[|steps|])
    decreases |steps|
  {
    if steps == [] {
      if !AllTerminal(states[0]) { NoneLeftIsTerminal(reg, states[0]); }
    } else {
      var s, step, s' := states[0], steps[0], states[1];
      assert LetDue(reg, cfg, s, step, s');
      if AllTerminal(s) {
        TerminalStays(reg, cfg, s, step, s');
      } else if step.ids == [] {
        QuiescentIsTerminal(reg, s, step.now);
      } else {
        CycleProgress(reg, cfg, s, step, s');
      }
      StepInv(reg, cfg, s, step, s');
      forall i | 0 <= i < |steps[1..]| ensures LetDue(reg, cfg, states[1..][i], steps[1..][i], states[1..][i + 1]) {
        assert LetDue(reg, cfg, states[i + 1], steps[i + 1], states[i + 1 + 1]);
      }
      EventuallyTerminal(reg, cfg, states[1..], steps[1..]);
    }
  }

  // Consecutive productive cycles, from any reachable state, number at most the attempts left.
  lemma {:induction false} DrainBound(reg: Registry, cfg: Config, states: seq<Tables>, steps: seq<Step>)
    requires ValidRegistry(reg) && |states| == |steps| + 1 && Inv(reg, states[0])
    requires forall i :: 0 <= i < |steps| ==>
      steps[i].Cycle? && steps[i].ids != [] && Next(reg, cfg, states[i], steps[i], states[i + 1])
    ensures |steps| <= TotalLeft(reg, states[0])
    decreases |steps|
  {
    TotalLeftNat(reg, states[0]);
    if steps != [] {
      assert Next(reg, cfg, states[0], steps[0], states[1]);
      CycleProgress(reg, cfg, states[0], steps[0], states[1]);
      StepInv(reg, cfg, states[0], steps[0], states[1]);
      forall i | 0 <= i < |steps[1..]|
        ensures var rest, after := steps[1..], states[1..];
          rest[i].Cycle? && rest[i].ids != [] && Next(reg, cfg, after[i], rest[i], after[i + 1])
      {
        assert steps[i + 1].Cycle? && Next(reg, cfg, states[i + 1], steps[i + 1], states[i + 2]);
      }
      DrainBound(reg, cfg, states[1..], steps[1..]);
    }
  }

  // ---- Backoff ----

  // Delays never shrink from one failure to the next and never exceed the cap; the attempt that
  // reaches the limit is the last.
  lemma BackoffMonotone(attempts: nat, maxAttempts: int, cap: int)
    requires attempts + 2 < maxAttempts
    ensures var p, q := RetryPlan(attempts, maxAttempts, cap), RetryPlan(attempts + 1, maxAttempts, cap);
      && p.delay.Some? && q.delay.Some? && p.delay.value <= q.delay.value <= cap
      && p.delay.value <= 1024 && q.attempts == p.attempts + 1
  {
    var n := attempts + 1;
    Pow2Grows(if n > 10 then 10 else n, if n + 1 > 10 then 10 else n + 1);
    Pow2Grows(if n > 10 then 10 else n, 10);
    assert Pow2(5) == 32;
    assert Pow2(10) == 32 * Pow2(5);
  }
}
