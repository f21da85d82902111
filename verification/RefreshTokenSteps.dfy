/** Requests for tokens that interleave, cache operation by cache operation, and what each operation means
    for the tokens of one user. */
module RefreshTokenSteps {
  import opened Wrappers
  import opened TtlStore
  import opened RefreshTokens

  // `issued` remembers every token ever asked for, and for whom; `open` holds the unfinished requests.
  datatype State = State(table: Table, issued: map<string, string>, open: map<int, Request>, clock: int)

  datatype Step =
    | Start(x: int, user: string, goal: Goal)
    | Advance(x: int, now: int)
    | Abandon(x: int)
    | Consume(token: string, now: int)
    | Sweep(now: int)

  function OpenAfter(open: map<int, Request>, x: int, r: Request): map<int, Request> {
    if r.phase == Finished then open - {x} else open[x := r]
  }

  // New tokens are new.  A request whose next cache operation fails stops there, with what it has done.
  ghost predicate Next(cfg: Config, s: State, step: Step, s': State) {
    match step
    case Start(x, user, goal) =>
      && x !in s.open && (goal.Issuing? ==> goal.token !in s.issued)
      && s' == s.(open := s.open[x := Begin(user, goal)],
                  issued := if goal.Issuing? then s.issued[goal.token := user] else s.issued)
    case Advance(x, now) =>
      && s.clock <= now && x in s.open && InOrder(s.open[x])
      && s' == s.(table := TableAfter(cfg, s.table, s.open[x], now),
                  open := OpenAfter(s.open, x, Advanced(cfg, s.table, s.open[x], now)), clock := now)
    case Abandon(x) => x in s.open && s' == s.(open := s.open - {x})
    case Consume(token, now) =>
      s.clock <= now && s' == s.(table := Taken(cfg.backend, s.table, RefreshKey(cfg.realm, token), now), clock := now)
    case Sweep(now) => s.clock <= now && s' == s.(table := Purged(s.table, now), clock := now)
  }

  ghost predicate IsRun(cfg: Config, states: seq<State>, steps: seq<Step>) {
    && |states| == |steps| + 1 && states[0] == State(map[], map[], map[], 0)
    && forall i :: 0 <= i < |steps| ==> Next(cfg, states[i], steps[i], states[i + 1])
  }

  // ---- Tokens of one user ----

  // The token works, for this user.
  predicate Works(cfg: Config, table: Table, now: int, t: string, u: string) {
    Read(cfg.backend, table, RefreshKey(cfg.realm, t), now) == Some(u)
  }

  // The user's key names the token and lives at least as long.
  predicate Names(cfg: Config, table: Table, t: string, u: string) {
    && RefreshKey(cfg.realm, t) in table && SubjectKey(cfg.realm, u) in table
    && table[SubjectKey(cfg.realm, u)].value == t
    && table[SubjectKey(cfg.realm, u)].expiresAt >= table[RefreshKey(cfg.realm, t)].expiresAt
  }

  // Every working token of the user is the one the user's key names.
  ghost predicate NamedFor(cfg: Config, table: Table, now: int, u: string) {
    forall t :: Works(cfg, table, now, t, u) ==> Names(cfg, table, t, u)
  }

  ghost predicate NoneFor(cfg: Config, table: Table, now: int, u: string) {
    forall t :: !Works(cfg, table, now, t, u)
  }

  ghost predicate OnlyFor(cfg: Config, table: Table, now: int, u: string, token: string) {
    forall t :: Works(cfg, table, now, t, u) ==> t == token
  }

  // ---- Changes that give the user no token and keep the user's key ----

  predicate SameEntry(table: Table, table': Table, key: string) {
    key in table && key in table' && table'[key] == table[key]
  }

  ghost predicate Harmless(cfg: Config, table: Table, now: int, table': Table, now': int, u: string) {
    && now <= now'
    && (forall t :: RefreshKey(cfg.realm, t) in table' && table'[RefreshKey(cfg.realm, t)].value == u ==>
          SameEntry(table, table', RefreshKey(cfg.realm, t)))
    && (forall t :: Works(cfg, table', now', t, u) && Names(cfg, table, t, u) ==> Names(cfg, table', t, u))
  }

  lemma HarmlessWorks(cfg: Config, table: Table, now: int, table': Table, now': int, u: string, t: string)
    requires Harmless(cfg, table, now, table', now', u) && Works(cfg, table', now', t, u)
    ensures Works(cfg, table, now, t, u)
  {
    assert SameEntry(table, table', RefreshKey(cfg.realm, t));
  }

  lemma HarmlessNamed(cfg: Config, table: Table, now: int, table': Table, now': int, u: string)
    requires Harmless(cfg, table, now, table', now', u) && NamedFor(cfg, table, now, u)
    ensures NamedFor(cfg, table', now', u)
  {
    forall t | Works(cfg, table', now', t, u) ensures Names(cfg, table', t, u) {
      HarmlessWorks(cfg, table, now, table', now', u, t);
    }
  }

  lemma HarmlessNone(cfg: Config, table: Table, now: int, table': Table, now': int, u: string)
    requires Harmless(cfg, table, now, table', now', u) && NoneFor(cfg, table, now, u)
    ensures NoneFor(cfg, table', now', u)
  {
    forall t ensures !Works(cfg, table', now', t, u) {
      if Works(cfg, table', now', t, u) { HarmlessWorks(cfg, table, now, table', now', u, t); }
    }
  }

  lemma HarmlessOnly(cfg: Config, table: Table, now: int, table': Table, now': int, u: string, token: string)
    requires Harmless(cfg, table, now, table', now', u) && OnlyFor(cfg, table, now, u, token)
    ensures OnlyFor(cfg, table', now', u, token)
  {
    forall t | Works(cfg, table', now', t, u) ensures t == token {
      HarmlessWorks(cfg, table, now, table', now', u, t);
    }
  }

  lemma PurgeHarmless(cfg: Config, table: Table, clock: int, now: int, u: string)
    requires clock <= now
    ensures Harmless(cfg, table, clock, Purged(table, now), now, u)
  {
    var table' := Purged(table, now);
    forall t | Works(cfg, table', now, t, u) && Names(cfg, table, t, u) ensures Names(cfg, table', t, u) {}
  }

  // Time alone.
  lemma WaitHarmless(cfg: Config, table: Table, clock: int, now: int, u: string)
    requires clock <= now
    ensures Harmless(cfg, table, clock, table, now, u)
  {
  }

  // Deleting a token's key harms no user's standing.
  lemma DeleteHarmless(cfg: Config, table: Table, clock: int, now: int, token: string, u: string)
    requires KeysApart(cfg.realm) && clock <= now
    ensures Harmless(cfg, table, clock, table - {RefreshKey(cfg.realm, token)}, now, u)
  {
    var table' := table - {RefreshKey(cfg.realm, token)};
    forall t | Works(cfg, table', now, t, u) && Names(cfg, table, t, u) ensures Names(cfg, table', t, u) {}
  }

  lemma TakeHarmless(cfg: Config, table: Table, clock: int, now: int, token: string, u: string)
    requires KeysApart(cfg.realm) && clock <= now
    ensures Harmless(cfg, table, clock, Taken(cfg.backend, table, RefreshKey(cfg.realm, token), now), now, u)
  {
    DeleteHarmless(cfg, table, clock, now, token, u);
    WaitHarmless(cfg, table, clock, now, u);
  }

  // A change at one key that is neither a token's of this user nor the user's own.
  lemma ElsewhereHarmless(cfg: Config, table: Table, clock: int, table': Table, now: int, key: string, u: string)
    requires clock <= now && key != SubjectKey(cfg.realm, u)
    requires forall k :: k != key ==> (k in table' <==> k in table) && (k in table ==> table'[k] == table[k])
    requires forall t :: RefreshKey(cfg.realm, t) == key && key in table' ==> table'[key].value != u
    ensures Harmless(cfg, table, clock, table', now, u)
  {
    forall t | RefreshKey(cfg.realm, t) in table' && table'[RefreshKey(cfg.realm, t)].value == u
      ensures SameEntry(table, table', RefreshKey(cfg.realm, t))
    {
      assert RefreshKey(cfg.realm, t) != key;
    }
    forall t | Works(cfg, table', now, t, u) && Names(cfg, table, t, u) ensures Names(cfg, table', t, u) {
      assert RefreshKey(cfg.realm, t) != key;
    }
  }

  // From its lookup until it has written or deleted the user's key a request is in its window; outside it does
  // nothing to the user's tokens.
  predicate InWindow(r: Request) {
    r.phase.Drop? || r.phase in {WriteToken, WriteSubject, DropSubject}
  }

  // The operations of a request harm no other user, and outside its window not its own user either.
  lemma RequestHarmless(cfg: Config, table: Table, clock: int, r: Request, now: int, u: string)
    requires KeysApart(cfg.realm) && InOrder(r) && clock <= now && (r.user != u || !InWindow(r))
    ensures Harmless(cfg, table, clock, TableAfter(cfg, table, r, now), now, u)
  {
    var table' := TableAfter(cfg, table, r, now);
    match r.phase
    case Drop(current) => DeleteHarmless(cfg, table, clock, now, current, u);
    case WriteToken => ElsewhereHarmless(cfg, table, clock, table', now, RefreshKey(cfg.realm, r.goal.token), u);
    case WriteSubject => ElsewhereHarmless(cfg, table, clock, table', now, SubjectKey(cfg.realm, r.user), u);
    case WriteAccess => ElsewhereHarmless(cfg, table, clock, table', now, AccessKey(cfg.realm, r.user), u);
    case DropSubject => ElsewhereHarmless(cfg, table, clock, table', now, SubjectKey(cfg.realm, r.user), u);
    case DropAccess => ElsewhereHarmless(cfg, table, clock, table', now, AccessKey(cfg.realm, r.user), u);
    case _ => WaitHarmless(cfg, table, clock, now, u);
  }

  // ---- A request's own user ----

  // What is known of the user's tokens while the request is in its window.
  ghost predicate PhaseOk(cfg: Config, table: Table, now: int, r: Request) {
    InOrder(r) &&
    match r.phase
    case Drop(current) => NamedFor(cfg, table, now, r.user) && OnlyFor(cfg, table, now, r.user, current)
    case WriteToken => NoneFor(cfg, table, now, r.user)
    case WriteSubject =>
      OnlyFor(cfg, table, now, r.user, r.goal.token) && TokenFits(cfg, table, now, r.user, r.goal.token)
    case DropSubject => NoneFor(cfg, table, now, r.user)
    case _ => true
  }

  // The token's key expires no later than a key written now.
  predicate TokenFits(cfg: Config, table: Table, now: int, u: string, token: string) {
    RefreshKey(cfg.realm, token) in table && table[RefreshKey(cfg.realm, token)].value == u ==>
      table[RefreshKey(cfg.realm, token)].expiresAt <= now + cfg.refreshTtl
  }

  lemma PhaseKept(cfg: Config, table: Table, now: int, table': Table, now': int, r: Request)
    requires PhaseOk(cfg, table, now, r) && Harmless(cfg, table, now, table', now', r.user)
    ensures PhaseOk(cfg, table', now', r)
  {
    match r.phase
    case Drop(current) =>
      HarmlessNamed(cfg, table, now, table', now', r.user);
      HarmlessOnly(cfg, table, now, table', now', r.user, current);
    case WriteToken => HarmlessNone(cfg, table, now, table', now', r.user);
    case WriteSubject =>
      HarmlessOnly(cfg, table, now, table', now', r.user, r.goal.token);
      FitsKept(cfg, table, now, table', now', r.user, r.goal.token);
    case DropSubject => HarmlessNone(cfg, table, now, table', now', r.user);
    case _ =>
  }

  lemma FitsKept(cfg: Config, table: Table, now: int, table': Table, now': int, u: string, token: string)
    requires TokenFits(cfg, table, now, u, token) && Harmless(cfg, table, now, table', now', u)
    ensures TokenFits(cfg, table', now', u, token)
  {
  }

  // Entering the window.
  lemma LookupStep(cfg: Config, table: Table, clock: int, now: int, r: Request)
    requires r.phase == Lookup && clock <= now && NamedFor(cfg, table, clock, r.user)
    ensures InWindow(Advanced(cfg, table, r, now)) && PhaseOk(cfg, table, now, Advanced(cfg, table, r, now))
  {
    WaitHarmless(cfg, table, clock, now, r.user);
    HarmlessNamed(cfg, table, clock, table, now, r.user);
    forall t | Works(cfg, table, now, t, r.user)
      ensures Read(cfg.backend, table, SubjectKey(cfg.realm, r.user), now) == Some(t)
    {
      assert Names(cfg, table, t, r.user);
    }
  }

  lemma DropStep(cfg: Config, table: Table, now: int, r: Request)
    requires r.phase.Drop? && OnlyFor(cfg, table, now, r.user, r.phase.current)
    ensures NoneFor(cfg, table - {RefreshKey(cfg.realm, r.phase.current)}, now, r.user)
  {
    var table' := table - {RefreshKey(cfg.realm, r.phase.current)};
    forall t ensures !Works(cfg, table', now, t, r.user) {
      assert Works(cfg, table', now, t, r.user) ==> Works(cfg, table, now, t, r.user);
    }
  }

  lemma WriteTokenStep(cfg: Config, table: Table, now: int, r: Request)
    requires KeysApart(cfg.realm) && r.phase == WriteToken && InOrder(r) && NoneFor(cfg, table, now, r.user)
    ensures PhaseOk(cfg, TableAfter(cfg, table, r, now), now, Advanced(cfg, table, r, now))
  {
    var table' := TableAfter(cfg, table, r, now);
    forall t | Works(cfg, table', now, t, r.user) ensures t == r.goal.token {
      assert t != r.goal.token ==> Works(cfg, table, now, t, r.user);
    }
  }

  // Inside the window.
  lemma WindowStep(cfg: Config, table: Table, clock: int, now: int, r: Request)
    requires KeysApart(cfg.realm) && clock <= now && PhaseOk(cfg, table, clock, r)
    requires r.phase.Drop? || r.phase == WriteToken
    ensures PhaseOk(cfg, TableAfter(cfg, table, r, now), now, Advanced(cfg, table, r, now))
  {
    WaitHarmless(cfg, table, clock, now, r.user);
    PhaseKept(cfg, table, clock, table, now, r);
    if r.phase.Drop? { DropStep(cfg, table, now, r); } else { WriteTokenStep(cfg, table, now, r); }
  }

  // What a request that leaves its window leaves its user with: the new token at most, or none.
  ghost predicate StandsAfter(cfg: Config, table: Table, now: int, r: Request) {
    if r.goal.Issuing? then OnlyFor(cfg, table, now, r.user, r.goal.token) else NoneFor(cfg, table, now, r.user)
  }

  lemma WriteSubjectStep(cfg: Config, table: Table, now: int, r: Request)
    requires KeysApart(cfg.realm) && r.phase == WriteSubject && PhaseOk(cfg, table, now, r)
    ensures var table' := TableAfter(cfg, table, r, now);
      NamedFor(cfg, table', now, r.user) && StandsAfter(cfg, table', now, r)
  {
    var table' := TableAfter(cfg, table, r, now);
    forall t | Works(cfg, table', now, t, r.user) ensures t == r.goal.token && Names(cfg, table', t, r.user) {
      assert Works(cfg, table, now, t, r.user);
    }
  }

  lemma DropSubjectStep(cfg: Config, table: Table, now: int, r: Request)
    requires KeysApart(cfg.realm) && r.phase == DropSubject && PhaseOk(cfg, table, now, r)
    ensures NoneFor(cfg, TableAfter(cfg, table, r, now), now, r.user)
  {
    var table' := TableAfter(cfg, table, r, now);
    forall t ensures !Works(cfg, table', now, t, r.user) {
      assert Works(cfg, table', now, t, r.user) ==> Works(cfg, table, now, t, r.user);
    }
  }

  // Leaving the window.
  lemma LeaveStep(cfg: Config, table: Table, clock: int, now: int, r: Request)
    requires KeysApart(cfg.realm) && clock <= now && PhaseOk(cfg, table, clock, r)
    requires r.phase in {WriteSubject, DropSubject}
    ensures var table' := TableAfter(cfg, table, r, now);
      NamedFor(cfg, table', now, r.user) && StandsAfter(cfg, table', now, r)
  {
    WaitHarmless(cfg, table, clock, now, r.user);
    PhaseKept(cfg, table, clock, table, now, r);
    if r.phase == WriteSubject { WriteSubjectStep(cfg, table, now, r); } else { DropSubjectStep(cfg, table, now, r); }
  }

  // Stopping inside the window does no harm, but for one place: after the token, before the user's key.
  lemma StopStep(cfg: Config, table: Table, now: int, r: Request)
    requires PhaseOk(cfg, table, now, r) && InWindow(r) && r.phase != WriteSubject
    ensures NamedFor(cfg, table, now, r.user)
  {
  }
}
