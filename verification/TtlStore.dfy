/** The cache: a table of values with expiry times, on either of its two local backends. */
module TtlStore {
  import opened Wrappers
  import opened Collections

  datatype Backend = Redb | Postgres

  datatype Entry = Entry(value: string, expiresAt: int)

  type Table = map<string, Entry>

  // The backends differ at the very moment of expiry.
  predicate Live(b: Backend, e: Entry, now: int) {
    if b == Redb then e.expiresAt >= now else e.expiresAt > now
  }

  function Read(b: Backend, table: Table, key: string, now: int): Option<string> {
    if key in table && Live(b, table[key], now) then Some(table[key].value) else None
  }

  function Written(table: Table, key: string, value: string, period: nat, now: int): Table {
    table[key := Entry(value, now + period)]
  }

  // Redb drops the entry whether or not it was live.
  function Taken(b: Backend, table: Table, key: string, now: int): Table {
    if b == Redb || Read(b, table, key, now).Some? then table - {key} else table
  }

  function Purged(table: Table, now: int): Table { map k | k in table && table[k].expiresAt >= now :: table[k] }

  // A sweep is never observed: not by reads at that moment or later.
  lemma SweepUnseen(b: Backend, table: Table, key: string, swept: int, now: int)
    requires swept <= now
    ensures Read(b, Purged(table, swept), key, now) == Read(b, table, key, now)
  {
  }

  // A sweep removes exactly what expired before it.
  lemma SweepExact(table: Table, now: int, key: string)
    ensures key in Purged(table, now) <==> key in table && !(table[key].expiresAt < now)
    ensures key in Purged(table, now) ==> Purged(table, now)[key] == table[key]
  {
  }

  // A value is taken at most once, and nothing else is touched; an expired one is dropped by Redb and left by
  // PostgreSQL.
  lemma TakenOnce(b: Backend, table: Table, key: string, now: int, later: int)
    requires now <= later
    ensures Read(b, Taken(b, table, key, now), key, later) == None
    ensures forall k :: k != key ==> (k in Taken(b, table, key, now) <==> k in table)
    ensures forall k :: k != key && k in table ==> Taken(b, table, key, now)[k] == table[k]
    ensures key in Taken(b, table, key, now) <==> b == Postgres && key in table && table[key].expiresAt <= now
  {
  }

  // A written value is read back until its time is up, and no longer.
  lemma ReadBack(b: Backend, table: Table, key: string, value: string, period: nat, now: int, later: int)
    ensures var r := Read(b, Written(table, key, value, period, now), key, later);
      r == if later < now + period || (b == Redb && later == now + period) then Some(value) else None
  {
  }

  class Kv {
    const backend: Backend
    var table: Table

    constructor (backend: Backend)
      ensures this.backend == backend && table == map[]
    {
      this.backend, table := backend, map[];
    }

    method GetRaw(key: string, now: int) returns (r: Option<string>)
      ensures r == Read(backend, table, key, now)
    {
      if key !in table { return None; }
      var entry := table[key];
      r := if Live(backend, entry, now) then Some(entry.value) else None;
    }

    method SetExRaw(key: string, value: string, period: nat, now: int)
      modifies this
      ensures table == Written(old(table), key, value, period, now)
    {
      table := table[key := Entry(value, now + period)];
    }

    method TakeRaw(key: string, now: int) returns (r: Option<string>)
      modifies this
      ensures r == Read(backend, old(table), key, now) && table == Taken(backend, old(table), key, now)
    {
      r := GetRaw(key, now);
      if backend == Redb || r.Some? { table := table - {key}; }
    }

    method DelRaw(key: string)
      modifies this
      ensures table == old(table) - {key}
    {
      table := table - {key};
    }

    method ExpiredKeys(now: int) returns (expired: seq<string>)
      ensures forall k :: k in expired <==> k in table && table[k].expiresAt < now
      ensures NoDuplicates(expired)
    {
      expired := [];
      var todo := table.Keys;
      while todo != {}
        invariant todo <= table.Keys && NoDuplicates(expired)
        invariant forall k :: k in expired <==> k in table.Keys - todo && table[k].expiresAt < now
        decreases todo
      {
        var k :| k in todo;
        todo := todo - {k};
        if table[k].expiresAt < now { expired := expired + [k]; }
      }
    }

    // Collects the expired keys, then removes them one by one.
    method DeleteExpired(now: int) returns (count: int)
      modifies this
      ensures table == Purged(old(table), now) && count == |old(table)| - |table|
    {
      var expired := ExpiredKeys(now);
      count := |expired|;
      PurgedByList(table, expired, now);
      RemoveAll(expired);
    }

    method RemoveAll(keys: seq<string>)
      requires NoDuplicates(keys) && forall k :: k in keys ==> k in table
      modifies this
      ensures table == old(table) - Removed(keys, |keys|) && |table| == |old(table)| - |keys|
    {
      assert table == table - Removed(keys, 0);
      for i := 0 to |keys|
        invariant table == old(table) - Removed(keys, i) && |table| == |old(table)| - i
      {
        RemoveNext(old(table), keys, i);
        table := table - {keys[i]};
      }
    }
  }

  ghost function Removed(keys: seq<string>, n: nat): set<string>
    requires n <= |keys|
  {
    set i | 0 <= i < n :: keys[i]
  }

  lemma RemoveNext(table: Table, keys: seq<string>, i: nat)
    requires i < |keys| && NoDuplicates(keys) && forall k :: k in keys ==> k in table
    ensures table - Removed(keys, i) - {keys[i]} == table - Removed(keys, i + 1)
    ensures |table - Removed(keys, i + 1)| == |table - Removed(keys, i)| - 1
  {
    var before, after := table - Removed(keys, i), table - Removed(keys, i + 1);
    assert Removed(keys, i + 1) == Removed(keys, i) + {keys[i]};
    assert keys[i] in keys && keys[i] in before;
    assert after.Keys == before.Keys - {keys[i]};
  }

  lemma PurgedByList(table: Table, keys: seq<string>, now: int)
    requires forall k :: k in keys <==> k in table && table[k].expiresAt < now
    ensures table - Removed(keys, |keys|) == Purged(table, now)
  {
    var gone := Removed(keys, |keys|);
    forall k ensures k in gone <==> k in keys {}
  }
}
