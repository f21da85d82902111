/** The outbox as the program runs it: a registry that subscribers join, and a dispatcher whose
    methods update the two tables in place, loop by loop. */
module EventBus {
  import opened Wrappers
  import opened Batches
  import opened EventBusSpec
  import opened EventBusTheorems

  class EventRegistry {
    var handlers: Registry

    constructor ()
      ensures ValidRegistry(handlers) && handlers == map[]
    {
      handlers := map[];
    }

    // Appends the subscriber; a second subscriber of the same name on a topic is refused.
    method Register(topic: string, name: string) returns (ok: bool)
      requires ValidRegistry(handlers)
      modifies this
      ensures ValidRegistry(handlers)
      ensures ok <==> !(topic in old(handlers) && name in old(handlers)[topic])
      ensures !ok ==> handlers == old(handlers)
      ensures ok ==>
        handlers == old(handlers)[topic := (if topic in old(handlers) then old(handlers)[topic] else []) + [name]]
    {
      var entry := if topic in handlers then handlers[topic] else [];
      if name in entry { return false; }
      handlers := handlers[topic := entry + [name]];
      return true;
    }
  }

  // The order of the batch query.
  function DueOrder(s: Tables): Order {
    (a, b) => a in s.events && b in s.events && Precedes(s, a, b)
  }

  lemma DueOrderTotal(s: Tables, c: set<int>)
    requires c <= s.events.Keys
    ensures TotalOrder(c, DueOrder(s))
  {
  }

  // Nothing is due but rows that are locked.
  ghost predicate IdleBut(s: Tables, now: int, locked: set<int>) {
    forall id :: Selectable(s, id, now) ==> id in locked
  }

  class Dispatcher {
    const registry: Registry
    const config: Config
    var events: map<int, Event>
    var deliveries: map<int, Rows>
    var nextId: int

    ghost function State(): Tables reads this { Tables(events, deliveries, nextId) }

    constructor (registry: Registry, config: Config)
      ensures this.registry == registry && this.config == config && State() == Tables(map[], map[], 0)
    {
      this.registry, this.config := registry, config;
      events, deliveries, nextId := map[], map[], 0;
    }

    method PublishEvent(topic: string, maxAttempts: int, at: int)
      requires maxAttempts >= 1
      modifies this
      ensures Next(registry, config, old(State()), Publish(topic, maxAttempts, at), State())
    {
      events := events[nextId := Event(topic, Pending, 0, maxAttempts, At(at), None)];
      nextId := nextId + 1;
    }

    method EnsureDeliveries(id: int, names: seq<string>, now: int) returns (rows: Rows)
      requires id in events
      ensures rows == Ensured(RowsOf(State(), id), NameSet(names), events[id].maxAttempts, now)
    {
      var before := if id in deliveries then deliveries[id] else map[];
      rows := before;
      for i := 0 to |names|
        invariant rows == Ensured(before, NameSet(names[..i]), events[id].maxAttempts, now)
      {
        assert names[..i + 1] == names[..i] + [names[i]];
        if names[i] !in rows {
          rows := rows[names[i] := NewDelivery(events[id].maxAttempts, now)];
        }
      }
      assert names[..|names|] == names;
    }

    // Calls the subscribers whose rows are due; whatever the order, the result is the same.
    method DeliverDue(rows: Rows, names: set<string>, id: int, outcome: Outcomes, now: int) returns (after: Rows)
      ensures after == Attempted(rows, names, id, outcome, now, config.backoffMax)
    {
      after := rows;
      var todo := set h | h in rows && Ready(rows[h], now);
      ghost var due := todo;
      while todo != {}
        invariant todo <= due && after.Keys == rows.Keys
        invariant forall h :: h in due - todo ==>
          after[h] == StepRow(rows[h], h in names, outcome(id, h), now, config.backoffMax)
        invariant forall h :: h in rows && h !in due - todo ==> after[h] == rows[h]
        decreases todo
      {
        var h :| h in todo;
        todo := todo - {h};
        if h !in names {
          after := after[h := TerminalFailure(after[h])];
        } else {
          after := after[h := Attempt(after[h], outcome(id, h), now, config.backoffMax)];
        }
      }
    }

    // Counts pending and failed rows and finds the earliest pending one.
    method RefreshState(ev: Event, rows: Rows, now: int) returns (r: Event)
      ensures r == Refreshed(ev, rows, now)
    {
      var pending, failed, next := false, false, Infinity;
      var todo := rows.Keys;
      while todo != {}
        invariant todo <= rows.Keys
        invariant pending <==> exists h :: h in rows.Keys - todo && rows[h].status == Pending
        invariant failed <==> exists h :: h in rows.Keys - todo && rows[h].status == Failed
        invariant forall h :: h in rows.Keys - todo && rows[h].status == Pending ==> Before(next, rows[h].next)
        invariant next == Infinity ||
          exists h :: h in rows.Keys - todo && rows[h].status == Pending && rows[h].next == next
        decreases todo
      {
        var h :| h in todo;
        ghost var done := rows.Keys - todo;
        todo := todo - {h};
        assert rows.Keys - todo == done + {h};
        if rows[h].status == Pending {
          pending := true;
          if !Before(next, rows[h].next) { next := rows[h].next; }
        } else if rows[h].status == Failed {
          failed := true;
        }
      }
      LeastPendingUnique(rows, next);
      var st := if failed then Failed else if pending then Pending else Delivered;
      r := ev.(status := st, next := next, deliveredAt := if !pending && !failed then Some(now) else ev.deliveredAt);
    }

    method ProcessMessage(id: int, now: int, outcome: Outcomes)
      requires id in events
      modifies this`events, this`deliveries
      ensures State() == Processed(old(State()), id, registry, config, now, outcome)
    {
      var ev := events[id];
      if ev.topic !in registry {
        events := events[id := ev.(status := Failed, attempts := ev.maxAttempts, next := Infinity)];
        return;
      }
      var names := registry[ev.topic];
      var rows := EnsureDeliveries(id, names, now);
      rows := DeliverDue(rows, NameSet(names), id, outcome, now);
      ev := RefreshState(ev, rows, now);
      deliveries := deliveries[id := rows];
      events := events[id := ev];
    }

    method SelectBatch(now: int, locked: set<int>) returns (ids: seq<int>)
      ensures IsBatch(State(), now, locked, BatchLimit(config), ids)
    {
      var tables := Tables(events, deliveries, nextId);
      var due := set id | id in events && Selectable(tables, id, now) && id !in locked;
      DueOrderTotal(tables, due);
      ids := TakeFirst(due, DueOrder(tables), BatchLimit(config));
    }

    method RunOneCycle(now: int, locked: set<int>, outcome: Outcomes) returns (ids: seq<int>)
      modifies this`events, this`deliveries
      ensures Next(registry, config, old(State()), Cycle(now, locked, ids, outcome), State())
    {
      ids := SelectBatch(now, locked);
      for i := 0 to |ids|
        invariant forall k :: 0 <= k < |ids| ==> ids[k] in old(State()).events
        invariant State() == ProcessedAll(old(State()), ids[..i], registry, config, now, outcome)
      {
        assert ids[..i + 1][..i] == ids[..i];
        ProcessMessage(ids[i], now, outcome);
      }
      assert ids[..|ids|] == ids;
    }

    method DeleteDelivered(now: int, days: int) returns (deleted: int)
      modifies this`events, this`deliveries
      ensures Next(registry, config, old(State()), Gc(now, days), State())
      ensures deleted == |old(events)| - |events|
    {
      var keep := map id | id in events && !Collectable(events[id], now, days) :: events[id];
      deleted := |events| - |keep|;
      events := keep;
      deliveries := map id | id in deliveries && id in keep :: deliveries[id];
    }

    // The loop that goes on without sleeping as long as cycles find work.  It ends: with a cycle that failed
    // and changed nothing, or with one that found nothing due but rows other dispatchers hold.
    method RunUntilIdle(clock: nat -> int, locked: nat -> set<int>, outcomes: nat -> Outcomes, fails: nat -> bool)
      returns (cycles: nat)
      requires ValidRegistry(registry) && Inv(registry, State())
      modifies this`events, this`deliveries
      ensures Inv(registry, State())
      ensures cycles <= TotalLeft(registry, old(State())) + 1
      ensures cycles > 0 && (fails(cycles - 1) || IdleBut(State(), clock(cycles - 1), locked(cycles - 1)))
    {
      cycles := 0;
      var more := true;
      TotalLeftNat(registry, State());
      while more
        invariant Inv(registry, State()) && 0 <= TotalLeft(registry, State())
        invariant more ==> cycles + TotalLeft(registry, State()) <= TotalLeft(registry, old(State()))
        invariant !more ==> cycles > 0 && cycles - 1 + TotalLeft(registry, State()) <= TotalLeft(registry, old(State()))
        invariant !more ==> fails(cycles - 1) || IdleBut(State(), clock(cycles - 1), locked(cycles - 1))
        decreases more, TotalLeft(registry, State())
      {
        var processed := 0;
        if !fails(cycles) {
          ghost var s := State();
          var ids := RunOneCycle(clock(cycles), locked(cycles), outcomes(cycles));
          ghost var step := Cycle(clock(cycles), locked(cycles), ids, outcomes(cycles));
          StepInv(registry, config, s, step, State());
          if ids != [] { CycleProgress(registry, config, s, step, State()); }
          processed := |ids|;
        }
        more := processed > 0;
        cycles := cycles + 1;
      }
    }
  }
}
