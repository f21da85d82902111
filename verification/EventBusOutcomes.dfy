/** What the outcomes of handlers do to deliveries and events, what each step does in plain terms, and what
    follows over every run. */
module EventBusOutcomes {
  import opened Wrappers
  import opened EventBusSpec
  import opened EventBusTheorems
  import opened EventBusLiveness

  // ---- One call ----

  // After a call: delivered, at that moment, exactly on success; failed for good after a panic; after an error one
  // attempt more, failed exactly when that is the last.
  lemma CallOutcome(reg: Registry, cfg: Config, s: Tables, step: Step, s': Tables, id: int, h: string)
    requires ValidRegistry(reg) && Inv(reg, s) && Next(reg, cfg, s, step, s') && Calls(reg, s, step, id, h)
    ensures id in s'.events && h in RowsOf(s', id)
    ensures var d, o := RowsOf(s', id)[h], step.outcome(id, h);
      var used := if h in RowsOf(s, id) then RowsOf(s, id)[h].attempts else 0;
      && d.maxAttempts == s.events[id].maxAttempts
      && (d.status == Delivered && d.deliveredAt == Some(step.now) <==> o == HandlerOk)
      && (d.status == Delivered ==> o == HandlerOk && d.attempts == used)
      && (o == HandlerPanic ==> d.status == Failed && d.attempts == d.maxAttempts && d.next == Infinity)
      && (o == HandlerError ==> d.attempts == used + 1 && (d.status == Failed <==> used + 1 == d.maxAttempts))
      && (o == HandlerError ==> d.status != Delivered && (d.status == Failed ==> d.next == Infinity))
  {
    CycleEffect(reg, cfg, s, step, s');
    RowIsolation(reg, cfg, s, step, s', id, h);
    assert EventInv(reg, s.events[id], RowsOf(s, id));
  }

  // ---- All calls of a run ----

  ghost predicate CallsWith(reg: Registry, s: Tables, step: Step, id: int, h: string, o: Outcome) {
    Calls(reg, s, step, id, h) && step.outcome(id, h) == o
  }

  ghost function OutcomeCount(reg: Registry, states: seq<Tables>, steps: seq<Step>, id: int, h: string, o: Outcome,
                              n: nat): nat
    requires n <= |steps| < |states|
  {
    if n == 0 then 0
    else
      OutcomeCount(reg, states, steps, id, h, o, n - 1) + One(CallsWith(reg, states[n - 1], steps[n - 1], id, h, o))
  }

  // A row, by how often its handler succeeded, erred and panicked.
  predicate RowTells(d: Delivery, oks: nat, errors: nat, panics: nat) {
    match d.status
    case Pending => oks == 0 && panics == 0 && errors == d.attempts < d.maxAttempts
    case Delivered => oks == 1 && panics == 0 && errors == d.attempts < d.maxAttempts
    case Failed => oks == 0 && ((panics == 0 && errors == d.maxAttempts) || (panics == 1 && errors < d.maxAttempts))
  }

  predicate Tells(s: Tables, id: int, h: string, oks: nat, errors: nat, panics: nat)
    requires id in s.events
  {
    if h in RowsOf(s, id) then RowTells(RowsOf(s, id)[h], oks, errors, panics) else oks == errors == panics == 0
  }

  function One(b: bool): nat { if b then 1 else 0 }

  lemma CallTells(reg: Registry, cfg: Config, s: Tables, step: Step, s': Tables, id: int, h: string,
                  oks: nat, errors: nat, panics: nat)
    requires ValidRegistry(reg) && Inv(reg, s) && Next(reg, cfg, s, step, s') && Calls(reg, s, step, id, h)
    requires Tells(s, id, h, oks, errors, panics)
    ensures id in s'.events
    ensures var o := step.outcome(id, h);
      Tells(s', id, h, oks + One(o == HandlerOk), errors + One(o == HandlerError), panics + One(o == HandlerPanic))
  {
    CallOutcome(reg, cfg, s, step, s', id, h);
    assert EventInv(reg, s.events[id], RowsOf(s, id));
  }

  lemma UncalledTells(reg: Registry, cfg: Config, s: Tables, step: Step, s': Tables, id: int, h: string,
                      oks: nat, errors: nat, panics: nat)
    requires ValidRegistry(reg) && Inv(reg, s) && Next(reg, cfg, s, step, s') && !Calls(reg, s, step, id, h)
    requires id in s.events && id in s'.events && Tells(s, id, h, oks, errors, panics)
    ensures Tells(s', id, h, oks, errors, panics)
  {
    assert EventInv(reg, s.events[id], RowsOf(s, id));
    match step
    case Cycle(_, _, _, _) =>
      if s.events[id].topic in reg && h in Names(reg, s.events[id].topic) {
        RowIsolation(reg, cfg, s, step, s', id, h);
      } else {
        StepInv(reg, cfg, s, step, s');
        NextKeepsMax(reg, cfg, s, step, s', id);
        assert EventInv(reg, s'.events[id], RowsOf(s', id));
      }
    case Publish(_, _, _) => assert RowsOf(s', id) == RowsOf(s, id);
    case AbortedCycle =>
    case Gc(_, _) => assert RowsOf(s', id) == RowsOf(s, id);
  }

  // The counts so far are right for the tables.
  ghost predicate Told(s: Tables, id: int, h: string, oks: nat, errors: nat, panics: nat) {
    && (id >= s.nextId ==> oks == errors == panics == 0)
    && (id in s.events ==> Tells(s, id, h, oks, errors, panics))
  }

  lemma StepTold(reg: Registry, cfg: Config, s: Tables, step: Step, s': Tables, id: int, h: string,
                 oks: nat, errors: nat, panics: nat)
    requires ValidRegistry(reg) && Inv(reg, s) && Next(reg, cfg, s, step, s') && Told(s, id, h, oks, errors, panics)
    ensures Told(s', id, h, oks + One(CallsWith(reg, s, step, id, h, HandlerOk)),
                 errors + One(CallsWith(reg, s, step, id, h, HandlerError)),
                 panics + One(CallsWith(reg, s, step, id, h, HandlerPanic)))
  {
    NextIdGrows(reg, cfg, s, step, s');
    if Calls(reg, s, step, id, h) {
      CallTells(reg, cfg, s, step, s', id, h, oks, errors, panics);
    } else if id in s'.events && id in s.events {
      UncalledTells(reg, cfg, s, step, s', id, h, oks, errors, panics);
    } else if id in s'.events {
      if id < s.nextId { NextKeepsMax(reg, cfg, s, step, s', id); }
      NewcomerHasNoRows(reg, cfg, s, step, s', id);
    }
  }

  lemma RunTold(reg: Registry, cfg: Config, states: seq<Tables>, steps: seq<Step>, id: int, h: string,
                oks: nat, errors: nat, panics: nat, k: nat)
    requires IsRun(reg, cfg, states, steps) && k < |steps| && Told(states[k], id, h, oks, errors, panics)
    ensures Told(states[k + 1], id, h, oks + One(CallsWith(reg, states[k], steps[k], id, h, HandlerOk)),
                 errors + One(CallsWith(reg, states[k], steps[k], id, h, HandlerError)),
                 panics + One(CallsWith(reg, states[k], steps[k], id, h, HandlerPanic)))
  {
    RunInv(reg, cfg, states, steps, k);
    StepTold(reg, cfg, states[k], steps[k], states[k + 1], id, h, oks, errors, panics);
  }

  lemma NextIdGrows(reg: Registry, cfg: Config, s: Tables, step: Step, s': Tables)
    requires ValidRegistry(reg) && Inv(reg, s) && Next(reg, cfg, s, step, s')
    ensures s.nextId <= s'.nextId
  {
    if step.Cycle? { CycleEffect(reg, cfg, s, step, s'); }
  }

  lemma NewcomerHasNoRows(reg: Registry, cfg: Config, s: Tables, step: Step, s': Tables, id: int)
    requires ValidRegistry(reg) && Inv(reg, s) && Next(reg, cfg, s, step, s') && id >= s.nextId && id in s'.events
    ensures RowsOf(s', id) == map[] && id < s'.nextId
  {
    if step.Cycle? { CycleEffect(reg, cfg, s, step, s'); }
  }

  lemma CountNext(reg: Registry, states: seq<Tables>, steps: seq<Step>, id: int, h: string, o: Outcome, k: nat)
    requires k < |steps| < |states|
    ensures OutcomeCount(reg, states, steps, id, h, o, k + 1) ==
      OutcomeCount(reg, states, steps, id, h, o, k) + One(CallsWith(reg, states[k], steps[k], id, h, o))
  {
  }

  ghost predicate HistoryTold(reg: Registry, states: seq<Tables>, steps: seq<Step>, id: int, h: string, n: nat)
    requires n <= |steps| < |states|
  {
    Told(states[n], id, h, OutcomeCount(reg, states, steps, id, h, HandlerOk, n),
         OutcomeCount(reg, states, steps, id, h, HandlerError, n),
         OutcomeCount(reg, states, steps, id, h, HandlerPanic, n))
  }

  lemma HistoryNext(reg: Registry, cfg: Config, states: seq<Tables>, steps: seq<Step>, id: int, h: string, k: nat)
    requires IsRun(reg, cfg, states, steps) && k < |steps| && HistoryTold(reg, states, steps, id, h, k)
    ensures HistoryTold(reg, states, steps, id, h, k + 1)
  {
    var oks := OutcomeCount(reg, states, steps, id, h, HandlerOk, k);
    var errors := OutcomeCount(reg, states, steps, id, h, HandlerError, k);
    var panics := OutcomeCount(reg, states, steps, id, h, HandlerPanic, k);
    RunTold(reg, cfg, states, steps, id, h, oks, errors, panics, k);
    CountNext(reg, states, steps, id, h, HandlerOk, k);
    CountNext(reg, states, steps, id, h, HandlerError, k);
    CountNext(reg, states, steps, id, h, HandlerPanic, k);
  }

  // In every reachable state a delivery row tells its handler's history: pending after fewer errors than the limit,
  // delivered after one success, failed after one panic or as many errors as the limit.
  lemma {:induction false} RowTellsHistory(reg: Registry, cfg: Config, states: seq<Tables>, steps: seq<Step>,
                                           id: int, h: string, n: nat)
    requires IsRun(reg, cfg, states, steps) && n <= |steps|
    ensures HistoryTold(reg, states, steps, id, h, n)
  {
    if n > 0 {
      RowTellsHistory(reg, cfg, states, steps, id, h, n - 1);
      HistoryNext(reg, cfg, states, steps, id, h, n - 1);
    }
  }

  // ---- Events ----

  // An event is delivered exactly when every subscriber of its topic has once succeeded with it.
  lemma DeliveredExactly(reg: Registry, cfg: Config, states: seq<Tables>, steps: seq<Step>, id: int, n: nat)
    requires IsRun(reg, cfg, states, steps) && n <= |steps| && id in states[n].events
    ensures states[n].events[id].status == Delivered <==>
      && states[n].events[id].topic in reg
      && forall h :: h in reg[states[n].events[id].topic] ==> OutcomeCount(reg, states, steps, id, h, HandlerOk, n) == 1
  {
    var s := states[n];
    var ev := s.events[id];
    FanOutComplete(reg, cfg, states, steps, n, id);
    if ev.topic in reg {
      forall h | h in reg[ev.topic]
        ensures OutcomeCount(reg, states, steps, id, h, HandlerOk, n) == 1 <==>
          h in RowsOf(s, id) && RowsOf(s, id)[h].status == Delivered
      {
        RowTellsHistory(reg, cfg, states, steps, id, h, n);
      }
    }
  }

  // It is failed exactly when a handler panicked or used up its errors, or when it was processed and nobody
  // subscribes to its topic: at once, even while other deliveries are pending.
  lemma FailedExactly(reg: Registry, cfg: Config, states: seq<Tables>, steps: seq<Step>, id: int, n: nat)
    requires IsRun(reg, cfg, states, steps) && n <= |steps| && id in states[n].events
    ensures var ev := states[n].events[id];
      ev.status == Failed <==>
        if ev.topic in reg then exists h :: h in RowsOf(states[n], id) && RowsOf(states[n], id)[h].status == Failed
        else ev.next == Infinity
  {
    RunInv(reg, cfg, states, steps, n);
    assert EventInv(reg, states[n].events[id], RowsOf(states[n], id));
  }

  // An event that nobody subscribes to fails for good when it is processed, without deliveries.
  lemma UnsubscribedFails(reg: Registry, cfg: Config, s: Tables, step: Step, s': Tables, id: int)
    requires ValidRegistry(reg) && Inv(reg, s) && Next(reg, cfg, s, step, s')
    requires Selects(step, id) && id in s.events && s.events[id].topic !in reg
    ensures id in s'.events && RowsOf(s', id) == map[]
    ensures var ev := s'.events[id]; ev.status == Failed && ev.attempts == ev.maxAttempts && ev.next == Infinity
  {
    CycleEffect(reg, cfg, s, step, s');
    assert SameEvent(Processed(s, id, reg, cfg, step.now, step.outcome), s', id);
    assert EventInv(reg, s.events[id], RowsOf(s, id));
  }

  // ---- Steps in plain terms ----

  // A published event is pending, due when asked, with its limit, under a new number; nothing else changes.
  lemma PublishedExactly(reg: Registry, cfg: Config, s: Tables, step: Step, s': Tables)
    requires Inv(reg, s) && step.Publish? && Next(reg, cfg, s, step, s')
    ensures s.nextId !in s.events && s'.nextId == s.nextId + 1 && s'.events.Keys == s.events.Keys + {s.nextId}
    ensures var ev := s'.events[s.nextId];
      && ev.topic == step.topic && ev.status == Pending && ev.attempts == 0 && ev.maxAttempts == step.maxAttempts
      && ev.next == At(step.at) && ev.deliveredAt == None
    ensures RowsOf(s', s.nextId) == map[] && forall id :: id in s.events ==> SameEvent(s, s', id)
  {
  }

  // An event is not touched before it is first selected, and not selected before it is due.
  lemma {:induction false} UntouchedBefore(reg: Registry, cfg: Config, states: seq<Tables>, steps: seq<Step>, i: nat,
                                           k: nat)
    requires IsRun(reg, cfg, states, steps) && i < k < |states| && steps[i].Publish?
    requires forall m :: i < m < k ==> !Selects(steps[m], states[i].nextId)
    ensures var id := states[i].nextId; id in states[k].events && SameEvent(states[i + 1], states[k], id)
    decreases k
  {
    var id := states[i].nextId;
    RunInv(reg, cfg, states, steps, i);
    PublishedExactly(reg, cfg, states[i], steps[i], states[i + 1]);
    if i + 1 < k {
      UntouchedBefore(reg, cfg, states, steps, i, k - 1);
      RunInv(reg, cfg, states, steps, k - 1);
      UnselectedSame(reg, cfg, states[k - 1], steps[k - 1], states[k], id);
    }
  }

  lemma UnselectedSame(reg: Registry, cfg: Config, s: Tables, step: Step, s': Tables, id: int)
    requires ValidRegistry(reg) && Inv(reg, s) && Next(reg, cfg, s, step, s')
    requires id in s.events && !Selects(step, id) && s.events[id].status == Pending
    ensures id in s'.events && SameEvent(s, s', id)
  {
    if step.Cycle? {
      CycleEffect(reg, cfg, s, step, s');
      assert SameEvent(s, s', id);
    }
  }

  // A delayed event is not selected before its time.
  lemma DelayWaits(reg: Registry, cfg: Config, states: seq<Tables>, steps: seq<Step>, i: nat, k: nat)
    requires IsRun(reg, cfg, states, steps) && i < k < |steps| && steps[i].Publish?
    requires Selects(steps[k], states[i].nextId) && forall m :: i < m < k ==> !Selects(steps[m], states[i].nextId)
    ensures steps[k].now >= steps[i].at
  {
    RunInv(reg, cfg, states, steps, i);
    PublishedExactly(reg, cfg, states[i], steps[i], states[i + 1]);
    UntouchedBefore(reg, cfg, states, steps, i, k);
    assert Next(reg, cfg, states[k], steps[k], states[k + 1]);
    assert Selectable(states[k], states[i].nextId, steps[k].now);
  }

  // a is due strictly before b, or at the same moment with a smaller number.
  predicate EarlierDue(s: Tables, a: int, b: int)
    requires a in s.events && b in s.events
  {
    var x, y := s.events[a].next, s.events[b].next;
    x.At? && (y.Infinity? || x.t < y.t || (x.t == y.t && a < b))
  }

  // A cycle takes due events, the earliest first, at most the batch size and at least one if there is one; what it
  // leaves is held by another dispatcher, is not due, or comes after a full batch.
  lemma BatchExactly(reg: Registry, cfg: Config, s: Tables, step: Step, s': Tables)
    requires Inv(reg, s) && step.Cycle? && Next(reg, cfg, s, step, s')
    ensures var limit := if cfg.batchSize < 1 then 1 else cfg.batchSize;
      && |step.ids| <= limit
      && (forall i :: 0 <= i < |step.ids| ==>
            step.ids[i] in s.events && DueBy(s, step.ids[i], step.now) && step.ids[i] !in step.locked)
      && (forall i, j :: 0 <= i < j < |step.ids| ==> EarlierDue(s, step.ids[i], step.ids[j]))
      && (forall id :: id in s.events && DueBy(s, id, step.now) && id !in step.locked && id !in step.ids ==>
            |step.ids| == limit && forall i :: 0 <= i < |step.ids| ==> EarlierDue(s, step.ids[i], id))
  {
    forall id | id in s.events ensures DueBy(s, id, step.now) <==> Selectable(s, id, step.now) {
      GateExact(reg, s, id, step.now);
    }
  }

  predicate DueBy(s: Tables, id: int, now: int)
    requires id in s.events
  {
    s.events[id].next.At? && s.events[id].next.t <= now
  }

  // Collection takes exactly the events delivered longer ago than the retention, which is at least a day, and
  // leaves the others whole.
  lemma CollectedExactly(reg: Registry, cfg: Config, s: Tables, step: Step, s': Tables, id: int)
    requires step.Gc? && Next(reg, cfg, s, step, s') && id in s.events
    ensures var ev, days := s.events[id], if step.days < 1 then 1 else step.days;
      id !in s'.events <==>
        ev.status == Delivered && ev.deliveredAt.Some? && ev.deliveredAt.value + days * 86400 < step.now
    ensures id in s'.events ==> SameEvent(s, s', id)
  {
  }
}
