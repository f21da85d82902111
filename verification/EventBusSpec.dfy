/** The outbox: event rows, one delivery row per event and subscriber, and the effect of one
    committed dispatcher cycle, written as functions of the two tables. */
module EventBusSpec {
  import opened Wrappers
  import opened Collections
  import opened Powers

  datatype Status = Pending | Delivered | Failed

  datatype Time = At(t: int) | Infinity

  predicate Due(x: Time, now: int) { x.At? && x.t <= now }

  predicate Before(a: Time, b: Time) { b.Infinity? || (a.At? && a.t <= b.t) }

  datatype Event = Event(topic: string, status: Status, attempts: int, maxAttempts: int,
                         next: Time, deliveredAt: Option<int>)

  datatype Delivery = Delivery(status: Status, attempts: int, maxAttempts: int,
                               next: Time, deliveredAt: Option<int>)

  // The delivery rows of one event, by subscriber name.
  type Rows = map<string, Delivery>

  // Subscriber names by topic, in registration order.
  type Registry = map<string, seq<string>>

  predicate ValidRegistry(reg: Registry) {
    forall topic :: topic in reg ==> reg[topic] != [] && NoDuplicates(reg[topic])
  }

  function Names(reg: Registry, topic: string): set<string>
    requires topic in reg
  {
    NameSet(reg[topic])
  }

  function NameSet(names: seq<string>): set<string> { set h | h in names }

  datatype Outcome = HandlerOk | HandlerError | HandlerPanic

  // What each subscriber's handler does with each event during one cycle.
  type Outcomes = (int, string) -> Outcome

  datatype Config = Config(backoffMax: int, batchSize: int)

  // ---- One row ----

  // The retry decision after a failed call: new attempt count, status, and the delay before the next call.
  datatype Plan = Plan(attempts: int, status: Status, delay: Option<int>)

  function RetryPlan(attempts: int, maxAttempts: int, backoffMax: int): Plan {
    var n := attempts + 1;
    if n >= maxAttempts then Plan(maxAttempts, Failed, None)
    else
      var shift := if n < 0 then 0 else if n > 10 then 10 else n;
      var delay := Pow2(shift);
      Plan(n, Pending, Some(if delay < backoffMax then delay else backoffMax))
  }

  function TerminalFailure(d: Delivery): Delivery {
    d.(status := Failed, attempts := d.maxAttempts, next := Infinity)
  }

  function Attempt(d: Delivery, o: Outcome, now: int, backoffMax: int): Delivery {
    match o
    case HandlerOk => d.(status := Delivered, deliveredAt := Some(now))
    case HandlerError =>
      var plan := RetryPlan(d.attempts, d.maxAttempts, backoffMax);
      d.(status := plan.status, attempts := plan.attempts,
         next := if plan.delay.Some? then At(now + plan.delay.value) else Infinity)
    case HandlerPanic => TerminalFailure(d)
  }

  predicate Ready(d: Delivery, now: int) {
    d.status == Pending && d.attempts < d.maxAttempts && Due(d.next, now)
  }

  function NewDelivery(maxAttempts: int, now: int): Delivery {
    Delivery(Pending, 0, maxAttempts, At(now), None)
  }

  // ---- The rows of one event ----

  function Ensured(rows: Rows, names: set<string>, maxAttempts: int, now: int): Rows {
    map h | h in rows.Keys + names :: if h in rows then rows[h] else NewDelivery(maxAttempts, now)
  }

  // A due row of an unregistered subscriber fails for good; the registry makes that unreachable.
  function StepRow(d: Delivery, registered: bool, o: Outcome, now: int, backoffMax: int): Delivery {
    if !Ready(d, now) then d else if registered then Attempt(d, o, now, backoffMax) else TerminalFailure(d)
  }

  function Attempted(rows: Rows, names: set<string>, id: int, outcome: Outcomes, now: int, backoffMax: int): Rows {
    map h | h in rows :: StepRow(rows[h], h in names, outcome(id, h), now, backoffMax)
  }

  predicate HasStatus(rows: Rows, st: Status) { exists h :: h in rows && rows[h].status == st }

  // t is the least due time among the pending rows, infinity when there is none.
  predicate IsLeastPending(rows: Rows, t: Time) {
    && (forall h :: h in rows && rows[h].status == Pending ==> Before(t, rows[h].next))
    && (t == Infinity || exists h :: h in rows && rows[h].status == Pending && rows[h].next == t)
  }

  lemma {:induction false} LeastPendingExists(rows: Rows) returns (t: Time)
    ensures IsLeastPending(rows, t)
    decreases |rows|
  {
    if rows == map[] {
      t := Infinity;
    } else {
      var h :| h in rows;
      var rest := map k | k in rows && k != h :: rows[k];
      assert rest.Keys == rows.Keys - {h};
      assert |rest| < |rows|;
      var u := LeastPendingExists(rest);
      if u != Infinity {
        var k :| k in rest && rest[k].status == Pending && rest[k].next == u;
        assert k in rows && rows[k].status == Pending && rows[k].next == u;
      }
      t := if rows[h].status == Pending && Before(rows[h].next, u) then rows[h].next else u;
      forall k | k in rows && rows[k].status == Pending ensures Before(t, rows[k].next) {
        if k != h { assert k in rest; }
      }
    }
  }

  ghost function LeastPending(rows: Rows): (t: Time)
    ensures IsLeastPending(rows, t)
  {
    LeastPendingTotal(rows);
    var t :| IsLeastPending(rows, t);
    t
  }

  lemma LeastPendingTotal(rows: Rows)
    ensures exists t :: IsLeastPending(rows, t)
  {
    var t := LeastPendingExists(rows);
  }

  lemma LeastPendingUnique(rows: Rows, t: Time)
    requires IsLeastPending(rows, t)
    ensures t == LeastPending(rows)
  {
  }

  // Terminal failure shows first; the event is delivered when nothing is pending or failed.
  function Aggregate(rows: Rows): Status {
    if HasStatus(rows, Failed) then Failed else if HasStatus(rows, Pending) then Pending else Delivered
  }

  ghost function Refreshed(ev: Event, rows: Rows, now: int): Event {
    var st := Aggregate(rows);
    ev.(status := st, next := LeastPending(rows),
        deliveredAt := if st == Delivered then Some(now) else ev.deliveredAt)
  }

  // ---- The two tables ----

  datatype Tables = Tables(events: map<int, Event>, deliveries: map<int, Rows>, nextId: int)

  function RowsOf(s: Tables, id: int): Rows { if id in s.deliveries then s.deliveries[id] else map[] }

  // The query that picks events: the row's own gate, and no delivery row yet or a due one.
  predicate Selectable(s: Tables, id: int, now: int) {
    && id in s.events
    && Due(s.events[id].next, now)
    && (RowsOf(s, id) == map[] || exists h :: h in RowsOf(s, id) && Ready(RowsOf(s, id)[h], now))
  }

  predicate Precedes(s: Tables, a: int, b: int)
    requires a in s.events && b in s.events
  {
    var x, y := s.events[a].next, s.events[b].next;
    if x == y then a <= b else Before(x, y)
  }

  // Ordered by due time and id, skipping rows locked by others, up to the limit.
  ghost predicate IsBatch(s: Tables, now: int, locked: set<int>, limit: int, ids: seq<int>) {
    && |ids| <= limit
    && (forall i :: 0 <= i < |ids| ==> Selectable(s, ids[i], now) && ids[i] !in locked)
    && (forall i, j :: 0 <= i < j < |ids| ==> ids[i] != ids[j] && Precedes(s, ids[i], ids[j]))
    && (forall id :: Selectable(s, id, now) && id !in locked && id !in ids ==>
          |ids| == limit && forall i :: 0 <= i < |ids| ==> Precedes(s, ids[i], id))
  }

  function BatchLimit(cfg: Config): int { if cfg.batchSize < 1 then 1 else cfg.batchSize }

  ghost function ProcessedRows(s: Tables, id: int, reg: Registry, cfg: Config, now: int, outcome: Outcomes): Rows
    requires id in s.events
  {
    var ev := s.events[id];
    if ev.topic !in reg then RowsOf(s, id)
    else
      var names := Names(reg, ev.topic);
      Attempted(Ensured(RowsOf(s, id), names, ev.maxAttempts, now), names, id, outcome, now, cfg.backoffMax)
  }

  ghost function Processed(s: Tables, id: int, reg: Registry, cfg: Config, now: int, outcome: Outcomes): Tables
    requires id in s.events
  {
    var ev := s.events[id];
    if ev.topic !in reg then
      s.(events := s.events[id := ev.(status := Failed, attempts := ev.maxAttempts, next := Infinity)])
    else
      var rows := ProcessedRows(s, id, reg, cfg, now, outcome);
      s.(events := s.events[id := Refreshed(ev, rows, now)], deliveries := s.deliveries[id := rows])
  }

  ghost function ProcessedAll(s: Tables, ids: seq<int>, reg: Registry, cfg: Config, now: int,
                              outcome: Outcomes): (r: Tables)
    requires forall i :: 0 <= i < |ids| ==> ids[i] in s.events
    ensures r.events.Keys == s.events.Keys
    decreases |ids|
  {
    if ids == [] then s
    else
      var t := ProcessedAll(s, ids[..|ids| - 1], reg, cfg, now, outcome);
      Processed(t, ids[|ids| - 1], reg, cfg, now, outcome)
  }

  const SECONDS_PER_DAY := 86400

  predicate Collectable(ev: Event, now: int, days: int) {
    && ev.status == Delivered && ev.deliveredAt.Some?
    && ev.deliveredAt.value < now - (if days < 1 then 1 else days) * SECONDS_PER_DAY
  }

  // Deleting an event row deletes its delivery rows.
  function Collected(s: Tables, now: int, days: int): Tables {
    var keep := map id | id in s.events && !Collectable(s.events[id], now, days) :: s.events[id];
    s.(events := keep, deliveries := map id | id in s.deliveries && id in keep :: s.deliveries[id])
  }

  function Published(s: Tables, topic: string, maxAttempts: int, at: int): Tables {
    s.(events := s.events[s.nextId := Event(topic, Pending, 0, maxAttempts, At(at), None)], nextId := s.nextId + 1)
  }

  // ---- Runs ----

  // A cycle that fails rolls back; other dispatchers appear as the rows they hold locked.
  datatype Step =
    | Publish(topic: string, maxAttempts: int, at: int)
    | Cycle(now: int, locked: set<int>, ids: seq<int>, outcome: Outcomes)
    | AbortedCycle
    | Gc(now: int, days: int)

  ghost predicate Next(reg: Registry, cfg: Config, s: Tables, step: Step, s': Tables) {
    match step
    case Publish(topic, max, at) => max >= 1 && s' == Published(s, topic, max, at)
    case Cycle(now, locked, ids, outcome) =>
      && IsBatch(s, now, locked, BatchLimit(cfg), ids)
      && s' == ProcessedAll(s, ids, reg, cfg, now, outcome)
    case AbortedCycle => s' == s
    case Gc(now, days) => s' == Collected(s, now, days)
  }

  ghost predicate IsRun(reg: Registry, cfg: Config, states: seq<Tables>, steps: seq<Step>) {
    && ValidRegistry(reg)
    && |states| == |steps| + 1
    && states[0] == Tables(map[], map[], 0)
    && forall i :: 0 <= i < |steps| ==> Next(reg, cfg, states[i], steps[i], states[i + 1])
  }

  // ---- What every step keeps ----

  predicate RowInv(d: Delivery, maxAttempts: int) {
    && d.maxAttempts == maxAttempts && 0 <= d.attempts <= maxAttempts
    && (d.status != Failed ==> d.attempts < maxAttempts)
    && (d.status == Pending ==> d.next.At?)
    && (d.status == Failed ==> d.attempts == maxAttempts && d.next == Infinity)
    && (d.status == Delivered <==> d.deliveredAt.Some?)
  }

  predicate EventInv(reg: Registry, ev: Event, rows: Rows) {
    && ev.maxAttempts >= 1
    && if rows == map[] then
         && ev.deliveredAt == None
         && ((ev.status == Pending && ev.next.At?)
             || (ev.status == Failed && ev.next == Infinity && ev.topic !in reg))
       else
         && ev.topic in reg && rows.Keys == Names(reg, ev.topic)
         && (forall h :: h in rows ==> RowInv(rows[h], ev.maxAttempts))
         && ev.status == Aggregate(rows) && IsLeastPending(rows, ev.next)
         && (ev.status == Delivered <==> ev.deliveredAt.Some?)
  }

  predicate Inv(reg: Registry, s: Tables) {
    && (forall id :: id in s.deliveries ==> id in s.events)
    && (forall id :: id in s.events ==> id < s.nextId && EventInv(reg, s.events[id], RowsOf(s, id)))
  }

  lemma AttemptKeepsRow(d: Delivery, o: Outcome, now: int, backoffMax: int, max: int)
    requires RowInv(d, max) && Ready(d, now)
    ensures RowInv(Attempt(d, o, now, backoffMax), max)
  {
  }

  lemma EnsuredInv(reg: Registry, ev: Event, rows: Rows, now: int)
    requires ValidRegistry(reg) && EventInv(reg, ev, rows) && ev.topic in reg
    ensures var names := Names(reg, ev.topic);
      var ensured := Ensured(rows, names, ev.maxAttempts, now);
      names != {} && ensured.Keys == names && forall h :: h in ensured ==> RowInv(ensured[h], ev.maxAttempts)
  {
    assert reg[ev.topic][0] in Names(reg, ev.topic);
  }

  lemma ProcessedRowsInv(s: Tables, id: int, reg: Registry, cfg: Config, now: int, outcome: Outcomes)
    requires ValidRegistry(reg) && Inv(reg, s) && id in s.events && s.events[id].topic in reg
    ensures var rows := ProcessedRows(s, id, reg, cfg, now, outcome);
      && rows != map[] && rows.Keys == Names(reg, s.events[id].topic)
      && forall h :: h in rows ==> RowInv(rows[h], s.events[id].maxAttempts)
  {
    var ev := s.events[id];
    var ensured := Ensured(RowsOf(s, id), Names(reg, ev.topic), ev.maxAttempts, now);
    EnsuredInv(reg, ev, RowsOf(s, id), now);
    forall h | h in ensured
      ensures RowInv(StepRow(ensured[h], true, outcome(id, h), now, cfg.backoffMax), ev.maxAttempts)
    {
      if Ready(ensured[h], now) { AttemptKeepsRow(ensured[h], outcome(id, h), now, cfg.backoffMax, ev.maxAttempts); }
    }
  }

  lemma ProcessedInv(s: Tables, id: int, reg: Registry, cfg: Config, now: int, outcome: Outcomes)
    requires ValidRegistry(reg) && Inv(reg, s) && Selectable(s, id, now)
    ensures Inv(reg, Processed(s, id, reg, cfg, now, outcome))
    ensures forall k :: k in s.events && k != id ==>
      var t := Processed(s, id, reg, cfg, now, outcome); t.events[k] == s.events[k] && RowsOf(t, k) == RowsOf(s, k)
  {
    var t := Processed(s, id, reg, cfg, now, outcome);
    assert EventInv(reg, s.events[id], RowsOf(s, id));
    if s.events[id].topic in reg {
      ProcessedRowsInv(s, id, reg, cfg, now, outcome);
      assert EventInv(reg, t.events[id], RowsOf(t, id));
    } else {
      assert RowsOf(s, id) == map[];
      assert EventInv(reg, t.events[id], RowsOf(t, id));
    }
  }
}
