/** Refresh-token rotation over the cache: a user has at most one usable refresh token, and a token that
    was consumed, replaced or revoked never works again. */
module RefreshTokens {
  import opened Wrappers
  import opened TtlStore

  // ---- Keys ----

  function Prefix(realm: string): string { "auth:" + realm + ":" }

  function RefreshKey(realm: string, token: string): string { Prefix(realm) + "refresh:" + token }

  function SubjectKey(realm: string, user: string): string { Prefix(realm) + "subject_refresh:" + user }

  function AccessKey(realm: string, user: string): string { Prefix(realm) + "access_jti:" + user }

  // The three keys as they are stored.
  lemma KeyTexts(realm: string, name: string)
    ensures RefreshKey(realm, name) == "auth:" + realm + ":refresh:" + name
    ensures SubjectKey(realm, name) == "auth:" + realm + ":subject_refresh:" + name
    ensures AccessKey(realm, name) == "auth:" + realm + ":access_jti:" + name
  {
    assert ":" + "refresh:" == ":refresh:" && ":" + "subject_refresh:" == ":subject_refresh:";
    assert ":" + "access_jti:" == ":access_jti:";
    var p := "auth:" + realm;
    assert p + ":" + "refresh:" == p + (":" + "refresh:");
    assert p + ":" + "subject_refresh:" == p + (":" + "subject_refresh:");
    assert p + ":" + "access_jti:" == p + (":" + "access_jti:");
  }

  // Keys of different kinds, tokens or users never collide.
  ghost predicate KeysApart(realm: string) {
    && (forall s, t :: RefreshKey(realm, s) == RefreshKey(realm, t) ==> s == t)
    && (forall u, v :: SubjectKey(realm, u) == SubjectKey(realm, v) ==> u == v)
    && (forall u, v :: AccessKey(realm, u) == AccessKey(realm, v) ==> u == v)
    && (forall t, u :: RefreshKey(realm, t) != SubjectKey(realm, u))
    && (forall t, u :: RefreshKey(realm, t) != AccessKey(realm, u))
    && (forall u, v :: SubjectKey(realm, u) != AccessKey(realm, v))
  }

  lemma SameTail(p: string, s: string, t: string)
    requires p + s == p + t
    ensures s == t
  {
    assert (p + s)[|p|..] == s && (p + t)[|p|..] == t;
  }

  lemma KeysNeverCollide(realm: string)
    ensures KeysApart(realm)
  {
    var p := Prefix(realm);
    forall s, t | RefreshKey(realm, s) == RefreshKey(realm, t) ensures s == t { SameTail(p + "refresh:", s, t); }
    forall u, v | SubjectKey(realm, u) == SubjectKey(realm, v) ensures u == v {
      SameTail(p + "subject_refresh:", u, v);
    }
    forall u, v | AccessKey(realm, u) == AccessKey(realm, v) ensures u == v { SameTail(p + "access_jti:", u, v); }
    forall t, u ensures RefreshKey(realm, t) != SubjectKey(realm, u) {
      assert RefreshKey(realm, t)[|p|] == 'r' && SubjectKey(realm, u)[|p|] == 's';
    }
    forall t, u ensures RefreshKey(realm, t) != AccessKey(realm, u) {
      assert RefreshKey(realm, t)[|p|] == 'r' && AccessKey(realm, u)[|p|] == 'a';
    }
    forall u, v ensures SubjectKey(realm, u) != AccessKey(realm, v) {
      assert SubjectKey(realm, u)[|p|] == 's' && AccessKey(realm, v)[|p|] == 'a';
    }
  }

  // ---- Requests, one cache operation at a time ----

  datatype Config = Config(backend: Backend, realm: string, refreshTtl: nat, accessTtl: nat)

  datatype Goal = Issuing(token: string, jti: string) | Revoking

  // What a request does next.
  datatype Phase =
    | Lookup
    | Drop(current: string)
    | WriteToken
    | WriteSubject
    | WriteAccess
    | DropSubject
    | DropAccess
    | Finished

  datatype Request = Request(user: string, goal: Goal, phase: Phase)

  function Begin(user: string, goal: Goal): Request { Request(user, goal, Lookup) }

  predicate InOrder(r: Request) {
    match r.phase
    case WriteToken => r.goal.Issuing?
    case WriteSubject => r.goal.Issuing?
    case WriteAccess => r.goal.Issuing?
    case DropSubject => r.goal.Revoking?
    case DropAccess => r.goal.Revoking?
    case _ => true
  }

  function AfterDrop(goal: Goal): Phase { if goal.Issuing? then WriteToken else DropSubject }

  // The table after the request's next operation.
  function TableAfter(cfg: Config, table: Table, r: Request, now: int): Table
    requires InOrder(r)
  {
    match r.phase
    case Lookup => table
    case Drop(current) => table - {RefreshKey(cfg.realm, current)}
    case WriteToken => Written(table, RefreshKey(cfg.realm, r.goal.token), r.user, cfg.refreshTtl, now)
    case WriteSubject => Written(table, SubjectKey(cfg.realm, r.user), r.goal.token, cfg.refreshTtl, now)
    case WriteAccess => Written(table, AccessKey(cfg.realm, r.user), r.goal.jti, cfg.accessTtl, now)
    case DropSubject => table - {SubjectKey(cfg.realm, r.user)}
    case DropAccess => table - {AccessKey(cfg.realm, r.user)}
    case Finished => table
  }

  function PhaseAfter(cfg: Config, table: Table, r: Request, now: int): Phase {
    match r.phase
    case Lookup =>
      (match Read(cfg.backend, table, SubjectKey(cfg.realm, r.user), now)
       case None => AfterDrop(r.goal)
       case Some(current) => Drop(current))
    case Drop(_) => AfterDrop(r.goal)
    case WriteToken => WriteSubject
    case WriteSubject => WriteAccess
    case WriteAccess => Finished
    case DropSubject => DropAccess
    case DropAccess => Finished
    case Finished => Finished
  }

  function Advanced(cfg: Config, table: Table, r: Request, now: int): Request {
    r.(phase := PhaseAfter(cfg, table, r, now))
  }

  // When a cache operation takes place, and whether a sweep ran just before it.
  datatype Moment = Moment(now: int, sweep: bool)

  function Cleaned(table: Table, m: Moment): Table { if m.sweep then Purged(table, m.now) else table }

  // The table and the request after its first n operations, when no other request comes between.
  function Alone(cfg: Config, table: Table, r: Request, moment: nat -> Moment, n: nat): (result: (Table, Request))
    requires InOrder(r)
    ensures InOrder(result.1)
  {
    if n == 0 then (table, r)
    else
      var (t, q) := Alone(cfg, table, r, moment, n - 1);
      var m := moment(n - 1);
      (TableAfter(cfg, Cleaned(t, m), q, m.now), Advanced(cfg, Cleaned(t, m), q, m.now))
  }

  lemma AloneNext(cfg: Config, table: Table, r: Request, moment: nat -> Moment, n: nat, t: Table, q: Request)
    requires InOrder(r) && Alone(cfg, table, r, moment, n) == (t, q)
    ensures var c, now := Cleaned(t, moment(n)), moment(n).now;
      InOrder(q) && Alone(cfg, table, r, moment, n + 1) == (TableAfter(cfg, c, q, now), Advanced(cfg, c, q, now))
  {
  }

  // ---- What operations leave of a table ----

  // Outside the touched keys entries are as before, or were swept after they expired.
  ghost predicate Survives(before: Table, after: Table, touched: set<string>, now: int) {
    forall k :: k !in touched ==>
      && (k in after ==> k in before && after[k] == before[k])
      && (k in before && k !in after ==> before[k].expiresAt < now)
  }

  // The key holds the entry, or the entry was swept after it expired.
  predicate HeldOrSwept(table: Table, key: string, e: Entry, now: int) {
    if key in table then table[key] == e else e.expiresAt < now
  }

  lemma SurvivesBoth(t0: Table, t1: Table, t2: Table, a: set<string>, b: set<string>, m: int, n: int)
    requires Survives(t0, t1, a, m) && Survives(t1, t2, b, n) && m <= n
    ensures Survives(t0, t2, a + b, n)
  {
  }

  lemma HeldLonger(t1: Table, t2: Table, key: string, e: Entry, touched: set<string>, m: int, n: int)
    requires HeldOrSwept(t1, key, e, m) && Survives(t1, t2, touched, n) && key !in touched && m <= n
    ensures HeldOrSwept(t2, key, e, n)
  {
  }

  lemma CleanedSurvives(table: Table, m: Moment)
    ensures Survives(table, Cleaned(table, m), {}, m.now)
  {
  }

  lemma WriteSurvives(table: Table, m: Moment, key: string, value: string, ttl: nat)
    ensures Survives(table, Written(Cleaned(table, m), key, value, ttl, m.now), {key}, m.now)
  {
  }

  lemma DeleteSurvives(table: Table, m: Moment, key: string)
    ensures Survives(table, Cleaned(table, m) - {key}, {key}, m.now)
  {
  }

  // Time does not run backwards.
  ghost predicate Ordered(moment: nat -> Moment) { forall i: nat, j: nat :: i <= j ==> moment(i).now <= moment(j).now }

  // The token that the user's key names at this moment.
  function NamedToken(cfg: Config, table: Table, user: string, now: int): Option<string> {
    Read(cfg.backend, table, SubjectKey(cfg.realm, user), now)
  }

  function NamedKey(cfg: Config, named: Option<string>): set<string> {
    if named.Some? then {RefreshKey(cfg.realm, named.value)} else {}
  }

  // After a complete revocation the token the user's key named, the key itself and the access key are gone, and
  // nothing else is.
  ghost predicate RevokeDone(cfg: Config, before: Table, after: Table, user: string, first: int, last: int) {
    var named := NamedToken(cfg, before, user, first);
    && SubjectKey(cfg.realm, user) !in after && AccessKey(cfg.realm, user) !in after
    && (named.Some? ==> RefreshKey(cfg.realm, named.value) !in after)
    && Survives(before, after,
                NamedKey(cfg, named) + {SubjectKey(cfg.realm, user)} + {AccessKey(cfg.realm, user)}, last)
  }

  // After a complete issue the new token stands for the user, the user's key names it and the access key holds the
  // new identifier, each for its time; the token named before is gone, and nothing else has changed.
  ghost predicate IssueDone(cfg: Config, before: Table, after: Table, user: string, token: string, jti: string,
                            first: int, t0: int, t1: int, t2: int) {
    var named := NamedToken(cfg, before, user, first);
    var refresh, subject := RefreshKey(cfg.realm, token), SubjectKey(cfg.realm, user);
    var access := AccessKey(cfg.realm, user);
    && HeldOrSwept(after, refresh, Entry(user, t0 + cfg.refreshTtl), t2)
    && HeldOrSwept(after, subject, Entry(token, t1 + cfg.refreshTtl), t2)
    && access in after && after[access] == Entry(jti, t2 + cfg.accessTtl)
    && (named.Some? && named.value != token ==> RefreshKey(cfg.realm, named.value) !in after)
    && Survives(before, after, NamedKey(cfg, named) + {refresh} + {subject} + {access}, t2)
  }

  method CleanUp(kv: Kv, m: Moment)
    modifies kv
    ensures kv.table == Cleaned(old(kv.table), m)
  {
    if m.sweep { var _ := kv.DeleteExpired(m.now); }
  }

  // Every cache operation may fail, and then the request stops with what it has done so far: n operations.
  // It is complete when none failed.
  ghost predicate Stopped(cfg: Config, before: Table, r: Request, moment: nat -> Moment, fails: nat -> bool,
                          n: nat, after: Table, phase: Phase)
    requires InOrder(r)
  {
    && Alone(cfg, before, r, moment, n) == (after, r.(phase := phase))
    && (forall k :: 0 <= k < n ==> !fails(k))
  }

  lemma StopsLater(cfg: Config, before: Table, r: Request, moment: nat -> Moment, fails: nat -> bool,
                   n: nat, t: Table, phase: Phase)
    requires InOrder(r) && Stopped(cfg, before, r, moment, fails, n, t, phase) && !fails(n)
    ensures InOrder(r.(phase := phase))
    ensures var c, q, now := Cleaned(t, moment(n)), r.(phase := phase), moment(n).now;
      Stopped(cfg, before, r, moment, fails, n + 1, TableAfter(cfg, c, q, now), PhaseAfter(cfg, c, q, now))
  {
    AloneNext(cfg, before, r, moment, n, t, r.(phase := phase));
  }

  // Looks up the user's token and deletes it: at most two operations.
  method DropToken(kv: Kv, cfg: Config, user: string, ghost goal: Goal, moment: nat -> Moment, fails: nat -> bool)
    returns (n: nat, ok: bool, ghost phase: Phase)
    requires kv.backend == cfg.backend
    modifies kv
    ensures Stopped(cfg, old(kv.table), Begin(user, goal), moment, fails, n, kv.table, phase)
    ensures n <= 2 && (if ok then n > 0 && phase == AfterDrop(goal) else fails(n) && phase != Finished)
    ensures ok && Ordered(moment) ==> var named := NamedToken(cfg, old(kv.table), user, moment(0).now);
      && Survives(old(kv.table), kv.table, NamedKey(cfg, named), moment(n - 1).now)
      && (named.Some? ==> RefreshKey(cfg.realm, named.value) !in kv.table)
  {
    ghost var r := Begin(user, goal);
    ghost var start := kv.table;
    CleanedSurvives(start, moment(0));
    SweepUnseen(cfg.backend, start, SubjectKey(cfg.realm, user), moment(0).now, moment(0).now);
    n, phase := 0, Lookup;
    if fails(0) { return 0, false, Lookup; }
    StopsLater(cfg, kv.table, r, moment, fails, 0, kv.table, Lookup);
    CleanUp(kv, moment(0));
    var current := kv.GetRaw(SubjectKey(cfg.realm, user), moment(0).now);
    if current == None { return 1, true, AfterDrop(goal); }
    if fails(1) { return 1, false, Drop(current.value); }
    StopsLater(cfg, old(kv.table), r, moment, fails, 1, kv.table, Drop(current.value));
    ghost var seen := kv.table;
    CleanUp(kv, moment(1));
    kv.DelRaw(RefreshKey(cfg.realm, current.value));
    DeleteSurvives(seen, moment(1), RefreshKey(cfg.realm, current.value));
    if Ordered(moment) {
      SurvivesBoth(start, seen, kv.table, {}, {RefreshKey(cfg.realm, current.value)}, moment(0).now, moment(1).now);
    }
    return 2, true, AfterDrop(goal);
  }

  // The three writes, from the table the deletion left.
  function ThreeWrites(cfg: Config, table: Table, user: string, token: string, jti: string,
                       m0: Moment, m1: Moment, m2: Moment): Table {
    var t1 := Written(Cleaned(table, m0), RefreshKey(cfg.realm, token), user, cfg.refreshTtl, m0.now);
    var t2 := Written(Cleaned(t1, m1), SubjectKey(cfg.realm, user), token, cfg.refreshTtl, m1.now);
    Written(Cleaned(t2, m2), AccessKey(cfg.realm, user), jti, cfg.accessTtl, m2.now)
  }

  lemma WritesHold(cfg: Config, table: Table, user: string, token: string, jti: string, m0: Moment, m1: Moment,
                   m2: Moment)
    requires KeysApart(cfg.realm) && m0.now <= m1.now <= m2.now
    ensures var t3 := ThreeWrites(cfg, table, user, token, jti, m0, m1, m2);
      && HeldOrSwept(t3, RefreshKey(cfg.realm, token), Entry(user, m0.now + cfg.refreshTtl), m2.now)
      && HeldOrSwept(t3, SubjectKey(cfg.realm, user), Entry(token, m1.now + cfg.refreshTtl), m2.now)
  {
    var refresh, subject := RefreshKey(cfg.realm, token), SubjectKey(cfg.realm, user);
    var access := AccessKey(cfg.realm, user);
    var t1 := Written(Cleaned(table, m0), refresh, user, cfg.refreshTtl, m0.now);
    var t2 := Written(Cleaned(t1, m1), subject, token, cfg.refreshTtl, m1.now);
    var t3 := Written(Cleaned(t2, m2), access, jti, cfg.accessTtl, m2.now);
    WriteSurvives(t1, m1, subject, token, cfg.refreshTtl);
    WriteSurvives(t2, m2, access, jti, cfg.accessTtl);
    HeldLonger(t1, t2, refresh, Entry(user, m0.now + cfg.refreshTtl), {subject}, m0.now, m1.now);
    HeldLonger(t2, t3, refresh, Entry(user, m0.now + cfg.refreshTtl), {access}, m1.now, m2.now);
    HeldLonger(t2, t3, subject, Entry(token, m1.now + cfg.refreshTtl), {access}, m1.now, m2.now);
  }

  lemma WritesSurvive(cfg: Config, before: Table, table: Table, named: set<string>, drop: int,
                      user: string, token: string, jti: string, m0: Moment, m1: Moment, m2: Moment)
    requires Survives(before, table, named, drop) && drop <= m0.now <= m1.now <= m2.now
    ensures Survives(before, ThreeWrites(cfg, table, user, token, jti, m0, m1, m2),
                     named + {RefreshKey(cfg.realm, token)} + {SubjectKey(cfg.realm, user)}
                     + {AccessKey(cfg.realm, user)},
                     m2.now)
  {
    var refresh, subject := RefreshKey(cfg.realm, token), SubjectKey(cfg.realm, user);
    var access := AccessKey(cfg.realm, user);
    var t1 := Written(Cleaned(table, m0), refresh, user, cfg.refreshTtl, m0.now);
    var t2 := Written(Cleaned(t1, m1), subject, token, cfg.refreshTtl, m1.now);
    var t3 := Written(Cleaned(t2, m2), access, jti, cfg.accessTtl, m2.now);
    WriteSurvives(table, m0, refresh, user, cfg.refreshTtl);
    WriteSurvives(t1, m1, subject, token, cfg.refreshTtl);
    WriteSurvives(t2, m2, access, jti, cfg.accessTtl);
    SurvivesBoth(before, table, t1, named, {refresh}, drop, m0.now);
    SurvivesBoth(before, t1, t2, named + {refresh}, {subject}, m0.now, m1.now);
    SurvivesBoth(before, t2, t3, named + {refresh} + {subject}, {access}, m1.now, m2.now);
  }

  lemma WritesDone(cfg: Config, before: Table, dropped: Table, user: string, token: string, jti: string,
                   first: int, drop: int, m0: Moment, m1: Moment, m2: Moment)
    requires drop <= m0.now <= m1.now <= m2.now
    requires var named := NamedToken(cfg, before, user, first);
      && Survives(before, dropped, NamedKey(cfg, named), drop)
      && (named.Some? ==> RefreshKey(cfg.realm, named.value) !in dropped)
    ensures IssueDone(cfg, before, ThreeWrites(cfg, dropped, user, token, jti, m0, m1, m2), user, token, jti,
                      first, m0.now, m1.now, m2.now)
  {
    KeysNeverCollide(cfg.realm);
    var named := NamedToken(cfg, before, user, first);
    WritesHold(cfg, dropped, user, token, jti, m0, m1, m2);
    WritesSurvive(cfg, before, dropped, NamedKey(cfg, named), drop, user, token, jti, m0, m1, m2);
    if named.Some? && named.value != token { WritesSpare(cfg, dropped, user, token, jti, m0, m1, m2, named.value); }
  }

  lemma WritesSpare(cfg: Config, table: Table, user: string, token: string, jti: string, m0: Moment, m1: Moment,
                    m2: Moment, gone: string)
    requires KeysApart(cfg.realm) && gone != token && RefreshKey(cfg.realm, gone) !in table
    ensures RefreshKey(cfg.realm, gone) !in ThreeWrites(cfg, table, user, token, jti, m0, m1, m2)
  {
    var key := RefreshKey(cfg.realm, gone);
    var t1 := Written(Cleaned(table, m0), RefreshKey(cfg.realm, token), user, cfg.refreshTtl, m0.now);
    assert key !in t1;
    var t2 := Written(Cleaned(t1, m1), SubjectKey(cfg.realm, user), token, cfg.refreshTtl, m1.now);
    assert key !in t2;
  }

  method IssueTokens(kv: Kv, cfg: Config, user: string, token: string, jti: string,
                     moment: nat -> Moment, fails: nat -> bool)
    returns (n: nat, ok: bool, ghost phase: Phase)
    requires kv.backend == cfg.backend
    modifies kv
    ensures Stopped(cfg, old(kv.table), Begin(user, Issuing(token, jti)), moment, fails, n, kv.table, phase)
    ensures n <= 5 && (if ok then n >= 4 && phase == Finished else fails(n) && phase != Finished)
    ensures ok && Ordered(moment) ==>
      IssueDone(cfg, old(kv.table), kv.table, user, token, jti,
                moment(0).now, moment(n - 3).now, moment(n - 2).now, moment(n - 1).now)
  {
    ghost var goal := Issuing(token, jti);
    ghost var start, r := kv.table, Begin(user, goal);
    n, ok, phase := DropToken(kv, cfg, user, goal, moment, fails);
    if !ok { return; }
    ghost var dropped := kv.table;
    if fails(n) { return n, false, WriteToken; }
    StopsLater(cfg, start, r, moment, fails, n, kv.table, WriteToken);
    CleanUp(kv, moment(n));
    kv.SetExRaw(RefreshKey(cfg.realm, token), user, cfg.refreshTtl, moment(n).now);
    if fails(n + 1) { return n + 1, false, WriteSubject; }
    StopsLater(cfg, start, r, moment, fails, n + 1, kv.table, WriteSubject);
    CleanUp(kv, moment(n + 1));
    kv.SetExRaw(SubjectKey(cfg.realm, user), token, cfg.refreshTtl, moment(n + 1).now);
    if fails(n + 2) { return n + 2, false, WriteAccess; }
    StopsLater(cfg, start, r, moment, fails, n + 2, kv.table, WriteAccess);
    CleanUp(kv, moment(n + 2));
    kv.SetExRaw(AccessKey(cfg.realm, user), jti, cfg.accessTtl, moment(n + 2).now);
    if Ordered(moment) {
      WritesDone(cfg, start, dropped, user, token, jti, moment(0).now, moment(n - 1).now,
                 moment(n), moment(n + 1), moment(n + 2));
    }
    return n + 3, true, Finished;
  }

  // The user the token belongs to; none when the token is unknown or expired.
  method ConsumeRefreshToken(kv: Kv, cfg: Config, token: string, now: int) returns (user: Option<string>)
    requires kv.backend == cfg.backend
    modifies kv
    ensures user == Read(cfg.backend, old(kv.table), RefreshKey(cfg.realm, token), now)
    ensures kv.table == Taken(cfg.backend, old(kv.table), RefreshKey(cfg.realm, token), now)
  {
    user := kv.TakeRaw(RefreshKey(cfg.realm, token), now);
  }

  lemma DeletesDone(cfg: Config, before: Table, dropped: Table, user: string, first: int, drop: int, m0: Moment,
                    m1: Moment)
    requires drop <= m0.now <= m1.now
    requires var named := NamedToken(cfg, before, user, first);
      && Survives(before, dropped, NamedKey(cfg, named), drop)
      && (named.Some? ==> RefreshKey(cfg.realm, named.value) !in dropped)
    ensures var t1 := Cleaned(dropped, m0) - {SubjectKey(cfg.realm, user)};
      RevokeDone(cfg, before, Cleaned(t1, m1) - {AccessKey(cfg.realm, user)}, user, first, m1.now)
  {
    var named := NamedToken(cfg, before, user, first);
    var subject, access := SubjectKey(cfg.realm, user), AccessKey(cfg.realm, user);
    var t1 := Cleaned(dropped, m0) - {subject};
    var t2 := Cleaned(t1, m1) - {access};
    DeleteSurvives(dropped, m0, subject);
    DeleteSurvives(t1, m1, access);
    SurvivesBoth(before, dropped, t1, NamedKey(cfg, named), {subject}, drop, m0.now);
    SurvivesBoth(before, t1, t2, NamedKey(cfg, named) + {subject}, {access}, m0.now, m1.now);
  }

  method RevokeTokens(kv: Kv, cfg: Config, user: string, moment: nat -> Moment, fails: nat -> bool)
    returns (n: nat, ok: bool, ghost phase: Phase)
    requires kv.backend == cfg.backend
    modifies kv
    ensures Stopped(cfg, old(kv.table), Begin(user, Revoking), moment, fails, n, kv.table, phase)
    ensures n <= 4 && (if ok then n >= 3 && phase == Finished else fails(n) && phase != Finished)
    ensures ok && Ordered(moment) ==>
      RevokeDone(cfg, old(kv.table), kv.table, user, moment(0).now, moment(n - 1).now)
  {
    ghost var start, r := kv.table, Begin(user, Revoking);
    n, ok, phase := DropToken(kv, cfg, user, Revoking, moment, fails);
    if !ok { return; }
    ghost var dropped := kv.table;
    if fails(n) { return n, false, DropSubject; }
    StopsLater(cfg, start, r, moment, fails, n, kv.table, DropSubject);
    CleanUp(kv, moment(n));
    kv.DelRaw(SubjectKey(cfg.realm, user));
    if fails(n + 1) { return n + 1, false, DropAccess; }
    StopsLater(cfg, start, r, moment, fails, n + 1, kv.table, DropAccess);
    CleanUp(kv, moment(n + 1));
    kv.DelRaw(AccessKey(cfg.realm, user));
    if Ordered(moment) {
      DeletesDone(cfg, start, dropped, user, moment(0).now, moment(n - 1).now, moment(n), moment(n + 1));
    }
    return n + 2, true, Finished;
  }
}
