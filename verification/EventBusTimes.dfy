/** When handlers are called again, and when events may be collected. */
module EventBusTimes {
  import opened Wrappers
  import opened Powers
  import opened EventBusSpec
  import opened EventBusTheorems

  // ---- A handler that always errs ----

  function Doubled(n: nat, cap: int): int {
    var delay := Pow2(if n > 10 then 10 else n);
    if delay < cap then delay else cap
  }

  // A row after one error at each of the given moments.
  function AfterErrors(max: int, created: int, moments: seq<int>, cap: int): Delivery
    decreases |moments|
  {
    if moments == [] then NewDelivery(max, created)
    else Attempt(AfterErrors(max, created, moments[..|moments| - 1], cap), HandlerError, moments[|moments| - 1], cap)
  }

  // It is called exactly as often as the limit says: before that the row is pending, and due again two, four,
  // eight, ... seconds after the last error up to the cap; the error that reaches the limit fails the row.
  lemma {:induction false} ErrorsUseAllAttempts(max: int, created: int, moments: seq<int>, cap: int)
    requires 1 <= max && |moments| <= max
    ensures var d, n := AfterErrors(max, created, moments, cap), |moments|;
      && d.attempts == n && d.maxAttempts == max
      && if n == max then d.status == Failed && d.next == Infinity
         else d.status == Pending && d.next == At(if n == 0 then created else moments[n - 1] + Doubled(n, cap))
    decreases |moments|
  {
    if moments != [] { ErrorsUseAllAttempts(max, created, moments[..|moments| - 1], cap); }
  }

  // ---- Waiting between calls ----

  // A step that does not call the handler leaves its row alone.
  lemma UncalledRowKept(reg: Registry, cfg: Config, s: Tables, step: Step, s': Tables, id: int, h: string)
    requires ValidRegistry(reg) && Inv(reg, s) && Next(reg, cfg, s, step, s')
    requires id in s.events && id in s'.events && h in RowsOf(s, id) && !Calls(reg, s, step, id, h)
    ensures h in RowsOf(s', id) && RowsOf(s', id)[h] == RowsOf(s, id)[h]
  {
    assert EventInv(reg, s.events[id], RowsOf(s, id));
    if step.Cycle? { RowIsolation(reg, cfg, s, step, s', id, h); }
  }

  lemma UncalledKeptInRun(reg: Registry, cfg: Config, states: seq<Tables>, steps: seq<Step>, id: int, h: string, k: nat)
    requires IsRun(reg, cfg, states, steps) && k < |steps| && id in states[k].events && id in states[k + 1].events
    requires h in RowsOf(states[k], id) && !Calls(reg, states[k], steps[k], id, h)
    ensures h in RowsOf(states[k + 1], id) && RowsOf(states[k + 1], id)[h] == RowsOf(states[k], id)[h]
  {
    RunInv(reg, cfg, states, steps, k);
    UncalledRowKept(reg, cfg, states[k], steps[k], states[k + 1], id, h);
  }

  // No step from i up to k calls the handler.
  ghost predicate Quiet(reg: Registry, states: seq<Tables>, steps: seq<Step>, id: int, h: string, i: nat, k: nat)
    requires k <= |steps| < |states|
  {
    forall m :: i <= m < k ==> !Calls(reg, states[m], steps[m], id, h)
  }

  lemma {:induction false} RowKeptUntil(reg: Registry, cfg: Config, states: seq<Tables>, steps: seq<Step>,
                                        id: int, h: string, i: nat, k: nat)
    requires IsRun(reg, cfg, states, steps) && i <= k < |states| && id in states[i].events && id in states[k].events
    requires h in RowsOf(states[i], id) && Quiet(reg, states, steps, id, h, i, k)
    ensures h in RowsOf(states[k], id) && RowsOf(states[k], id)[h] == RowsOf(states[i], id)[h]
    decreases k
  {
    if i < k {
      PresentBetween(reg, cfg, states, steps, id, i, k - 1, k);
      RowKeptUntil(reg, cfg, states, steps, id, h, i, k - 1);
      UncalledKeptInRun(reg, cfg, states, steps, id, h, k - 1);
    }
  }

  lemma ErrorSchedules(d: Delivery, now: int, cap: int)
    requires 0 <= d.attempts && Ready(d, now)
    ensures var r := Attempt(d, HandlerError, now, cap);
      r.status == Pending ==> r.attempts >= 0 && r.next == At(now + Doubled(r.attempts, cap))
  {
  }

  // The row of a handler that has just erred.
  lemma AfterError(reg: Registry, cfg: Config, s: Tables, step: Step, s': Tables, id: int, h: string)
    requires ValidRegistry(reg) && Inv(reg, s) && Next(reg, cfg, s, step, s')
    requires Calls(reg, s, step, id, h) && step.outcome(id, h) == HandlerError
    ensures id in s'.events && h in RowsOf(s', id)
    ensures var r := RowsOf(s', id)[h];
      r.status == Pending ==> r.attempts >= 0 && r.next == At(step.now + Doubled(r.attempts, cfg.backoffMax))
  {
    CycleEffect(reg, cfg, s, step, s');
    RowIsolation(reg, cfg, s, step, s', id, h);
    assert EventInv(reg, s.events[id], RowsOf(s, id));
    ErrorSchedules(RowFor(s, id, h, step.now), step.now, cfg.backoffMax);
  }

  lemma AfterErrorInRun(reg: Registry, cfg: Config, states: seq<Tables>, steps: seq<Step>, id: int, h: string, i: nat)
    requires IsRun(reg, cfg, states, steps) && i < |steps|
    requires Calls(reg, states[i], steps[i], id, h) && steps[i].outcome(id, h) == HandlerError
    ensures id in states[i + 1].events && h in RowsOf(states[i + 1], id)
    ensures var r, calls := RowsOf(states[i + 1], id)[h], CallCount(reg, states, steps, id, h, i + 1);
      r.status == Pending ==> r.next == At(steps[i].now + Doubled(calls, cfg.backoffMax))
  {
    RunInv(reg, cfg, states, steps, i);
    AfterError(reg, cfg, states[i], steps[i], states[i + 1], id, h);
    CallHistory(reg, cfg, states, steps, id, h, i + 1);
  }

  // After an error at step i the handler's next call for the event, at step k, comes no earlier than the
  // backoff asks: with n calls made so far, 2^n seconds (at most 2^10, at most the cap) after the failed one.
  lemma RetryWaits(reg: Registry, cfg: Config, states: seq<Tables>, steps: seq<Step>, id: int, h: string, i: nat,
                   k: nat)
    requires IsRun(reg, cfg, states, steps) && i < k < |steps|
    requires Calls(reg, states[i], steps[i], id, h) && steps[i].outcome(id, h) == HandlerError
    requires Calls(reg, states[k], steps[k], id, h)
    requires Quiet(reg, states, steps, id, h, i + 1, k)
    ensures steps[k].now >= steps[i].now + Doubled(CallCount(reg, states, steps, id, h, i + 1), cfg.backoffMax)
  {
    AfterErrorInRun(reg, cfg, states, steps, id, h, i);
    RowKeptUntil(reg, cfg, states, steps, id, h, i + 1, k);
  }

  // ---- Retention ----

  // The event became delivered in an earlier cycle, at the moment its row records.
  ghost predicate DeliveredIn(states: seq<Tables>, steps: seq<Step>, n: nat, id: int, at: int)
    requires n <= |steps|
  {
    exists i :: 0 <= i < n && steps[i].Cycle? && id in steps[i].ids && steps[i].now == at
  }

  lemma StepDeliveredAt(reg: Registry, cfg: Config, s: Tables, step: Step, s': Tables, id: int)
    requires ValidRegistry(reg) && Inv(reg, s) && Next(reg, cfg, s, step, s') && id in s'.events
    requires s'.events[id].status == Delivered
    ensures id in s.events
    ensures || (step.Cycle? && id in step.ids && s'.events[id].deliveredAt == Some(step.now))
            || (s.events[id].status == Delivered && s'.events[id].deliveredAt == s.events[id].deliveredAt)
  {
    if step.Cycle? {
      CycleEffect(reg, cfg, s, step, s');
      assert SameEvent(if id in step.ids then Processed(s, id, reg, cfg, step.now, step.outcome) else s, s', id);
    }
  }

  lemma {:induction false} DeliveredWhen(reg: Registry, cfg: Config, states: seq<Tables>, steps: seq<Step>, n: nat,
                                         id: int)
    requires IsRun(reg, cfg, states, steps) && n <= |steps|
    requires id in states[n].events && states[n].events[id].status == Delivered
    ensures states[n].events[id].deliveredAt.Some?
    ensures DeliveredIn(states, steps, n, id, states[n].events[id].deliveredAt.value)
  {
    RunInv(reg, cfg, states, steps, n);
    assert EventInv(reg, states[n].events[id], RowsOf(states[n], id));
    if n > 0 {
      RunInv(reg, cfg, states, steps, n - 1);
      StepDeliveredAt(reg, cfg, states[n - 1], steps[n - 1], states[n], id);
      var at := states[n].events[id].deliveredAt.value;
      if !(steps[n - 1].Cycle? && id in steps[n - 1].ids && at == steps[n - 1].now) {
        DeliveredWhen(reg, cfg, states, steps, n - 1, id);
        var i :| 0 <= i < n - 1 && steps[i].Cycle? && id in steps[i].ids && steps[i].now == at;
      }
    }
  }

  // An event is collected only when the cycle that delivered it lies longer back than the retention, which
  // is at least a day.
  lemma RetentionKept(reg: Registry, cfg: Config, states: seq<Tables>, steps: seq<Step>, n: nat, id: int)
    requires IsRun(reg, cfg, states, steps) && n < |steps| && id in states[n].events && id !in states[n + 1].events
    ensures steps[n].Gc?
    ensures exists at ::
      && DeliveredIn(states, steps, n, id, at)
      && at + SECONDS_PER_DAY < steps[n].now
      && at + steps[n].days * SECONDS_PER_DAY < steps[n].now
  {
    CollectionSafe(reg, cfg, states, steps, n, id);
    DeliveredWhen(reg, cfg, states, steps, n, id);
    assert DeliveredIn(states, steps, n, id, states[n].events[id].deliveredAt.value);
  }
}
