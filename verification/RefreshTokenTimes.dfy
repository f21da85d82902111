/** How long tokens and access identifiers stay valid, in every run, however requests overlap and fail. */
module RefreshTokenTimes {
  import opened Wrappers
  import opened TtlStore
  import opened RefreshTokens
  import opened RefreshTokenSteps
  import opened RefreshTokenTheorems

  // ---- One key ----

  // The key that the request's next operation writes or deletes.
  function KeyOf(cfg: Config, r: Request): Option<string>
    requires InOrder(r)
  {
    match r.phase
    case Drop(current) => Some(RefreshKey(cfg.realm, current))
    case WriteToken => Some(RefreshKey(cfg.realm, r.goal.token))
    case WriteSubject => Some(SubjectKey(cfg.realm, r.user))
    case DropSubject => Some(SubjectKey(cfg.realm, r.user))
    case WriteAccess => Some(AccessKey(cfg.realm, r.user))
    case DropAccess => Some(AccessKey(cfg.realm, r.user))
    case _ => None
  }

  // The key that the step writes or deletes, sweeps aside.
  function Touched(cfg: Config, s: State, step: Step): Option<string> {
    match step
    case Advance(x, _) => if x in s.open && InOrder(s.open[x]) then KeyOf(cfg, s.open[x]) else None
    case Consume(token, _) => Some(RefreshKey(cfg.realm, token))
    case _ => None
  }

  ghost predicate Untouched(cfg: Config, states: seq<State>, steps: seq<Step>, key: string, i: nat, k: nat)
    requires k <= |steps| < |states|
  {
    forall m :: i <= m < k ==> Touched(cfg, states[m], steps[m]) != Some(key)
  }

  lemma StepKey(cfg: Config, s: State, step: Step, s': State, key: string)
    requires Next(cfg, s, step, s') && Touched(cfg, s, step) != Some(key)
    ensures key in s'.table ==> SameEntry(s.table, s'.table, key)
    ensures key in s.table && key !in s'.table ==> step.Sweep? && s.table[key].expiresAt < s'.clock
  {
  }

  // The key holds the entry, or the entry has expired.
  predicate Holds(cfg: Config, s: State, key: string, e: Entry) {
    if key in s.table then s.table[key] == e else !Live(cfg.backend, e, s.clock)
  }

  lemma StepHolds(cfg: Config, s: State, step: Step, s': State, key: string, e: Entry)
    requires Next(cfg, s, step, s') && Touched(cfg, s, step) != Some(key) && Holds(cfg, s, key, e)
    ensures Holds(cfg, s', key, e)
  {
    StepKey(cfg, s, step, s', key);
    ClockGrows(cfg, s, step, s');
  }

  lemma {:induction false} HoldsUntil(cfg: Config, states: seq<State>, steps: seq<Step>, key: string, e: Entry,
                                      i: nat, k: nat)
    requires IsRun(cfg, states, steps) && i <= k < |states|
    requires Untouched(cfg, states, steps, key, i, k) && Holds(cfg, states[i], key, e)
    ensures Holds(cfg, states[k], key, e)
    decreases k
  {
    if i < k {
      HoldsUntil(cfg, states, steps, key, e, i, k - 1);
      StepHolds(cfg, states[k - 1], steps[k - 1], states[k], key, e);
    }
  }

  lemma HoldsReads(cfg: Config, s: State, key: string, e: Entry, now: int)
    requires Holds(cfg, s, key, e) && s.clock <= now
    ensures Read(cfg.backend, s.table, key, now) == if Live(cfg.backend, e, now) then Some(e.value) else None
  {
  }

  // ---- Tokens ----

  // The step uses the token, or deletes it for a request that looked it up.
  predicate Ends(s: State, step: Step, t: string) {
    || (step.Consume? && step.token == t)
    || (step.Advance? && step.x in s.open && s.open[step.x].phase == Drop(t))
  }

  ghost predicate NoWriter(s: State, t: string) {
    t in s.issued && forall x :: x in s.open ==> !ToWrite(s.open[x], t)
  }

  lemma StepNoWriter(cfg: Config, s: State, step: Step, s': State, t: string)
    requires RequestsInv(s) && Next(cfg, s, step, s') && NoWriter(s, t)
    ensures NoWriter(s', t)
  {
    ClockGrows(cfg, s, step, s');
    forall x | x in s'.open ensures !ToWrite(s'.open[x], t) {
      if ToWrite(s'.open[x], t) { StepOpen(cfg, s, step, s', x, t); }
    }
  }

  lemma RunNoWriter(cfg: Config, states: seq<State>, steps: seq<Step>, t: string, k: nat)
    requires IsRun(cfg, states, steps) && k < |steps| && NoWriter(states[k], t)
    ensures NoWriter(states[k + 1], t)
  {
    RunBase(cfg, states, steps, k);
    StepNoWriter(cfg, states[k], steps[k], states[k + 1], t);
  }

  lemma {:induction false} NoWriterStays(cfg: Config, states: seq<State>, steps: seq<Step>, t: string, i: nat, k: nat)
    requires IsRun(cfg, states, steps) && i <= k < |states| && NoWriter(states[i], t)
    ensures NoWriter(states[k], t)
    decreases k
  {
    if i < k {
      NoWriterStays(cfg, states, steps, t, i, k - 1);
      RunNoWriter(cfg, states, steps, t, k - 1);
    }
  }

  lemma SparedIsUntouched(cfg: Config, s: State, step: Step, t: string)
    requires KeysApart(cfg.realm) && NoWriter(s, t) && !Ends(s, step, t)
    ensures Touched(cfg, s, step) != Some(RefreshKey(cfg.realm, t))
  {
  }

  lemma WriterDone(cfg: Config, s: State, step: Step, s': State)
    requires BaseInv(cfg, s) && step.Advance? && Next(cfg, s, step, s') && s.open[step.x].phase == WriteToken
    ensures NoWriter(s', s.open[step.x].goal.token)
    ensures Holds(cfg, s', RefreshKey(cfg.realm, s.open[step.x].goal.token),
                  Entry(s.open[step.x].user, step.now + cfg.refreshTtl))
  {
    StepBase(cfg, s, step, s');
  }

  // From the step that writes it a token works for its user exactly until its time is up, as long as nobody uses it
  // and no request that looked it up deletes it: whatever other requests, sweeps and failures there are.
  lemma TokenWorksUntil(cfg: Config, states: seq<State>, steps: seq<Step>, i: nat, k: nat, now: int)
    requires IsRun(cfg, states, steps) && i < k < |states| && states[k].clock <= now
    requires steps[i].Advance? && steps[i].x in states[i].open && states[i].open[steps[i].x].phase == WriteToken
    requires var r := states[i].open[steps[i].x];
      r.goal.Issuing? && forall m :: i < m < k ==> !Ends(states[m], steps[m], r.goal.token)
    ensures var r := states[i].open[steps[i].x];
      Works(cfg, states[k].table, now, r.goal.token, r.user) <==>
      Live(cfg.backend, Entry(r.user, steps[i].now + cfg.refreshTtl), now)
  {
    KeysNeverCollide(cfg.realm);
    var r := states[i].open[steps[i].x];
    var t, e := r.goal.token, Entry(r.user, steps[i].now + cfg.refreshTtl);
    var key := RefreshKey(cfg.realm, t);
    RunBase(cfg, states, steps, i);
    WriterDone(cfg, states[i], steps[i], states[i + 1]);
    forall m | i + 1 <= m < k ensures Touched(cfg, states[m], steps[m]) != Some(key) {
      NoWriterStays(cfg, states, steps, t, i + 1, m);
      SparedIsUntouched(cfg, states[m], steps[m], t);
    }
    HoldsUntil(cfg, states, steps, key, e, i + 1, k);
    HoldsReads(cfg, states[k], key, e, now);
  }

  // ---- Access identifiers and revocations ----

  // A request of this user is about to do this.
  predicate Does(s: State, step: Step, u: string, phase: Phase) {
    step.Advance? && step.x in s.open && s.open[step.x].user == u && s.open[step.x].phase == phase
  }

  lemma OwnAccess(cfg: Config, s: State, step: Step, u: string)
    requires KeysApart(cfg.realm) && !Does(s, step, u, WriteAccess) && !Does(s, step, u, DropAccess)
    ensures Touched(cfg, s, step) != Some(AccessKey(cfg.realm, u))
  {
  }

  // An access identifier is valid exactly until its time is up, as long as no other request of its user gets to
  // the access key.
  lemma AccessValidUntil(cfg: Config, states: seq<State>, steps: seq<Step>, i: nat, k: nat, now: int)
    requires IsRun(cfg, states, steps) && i < k < |states| && states[k].clock <= now
    requires steps[i].Advance? && steps[i].x in states[i].open && states[i].open[steps[i].x].phase == WriteAccess
    requires var r := states[i].open[steps[i].x];
      && r.goal.Issuing?
      && forall m :: i < m < k ==>
           !Does(states[m], steps[m], r.user, WriteAccess) && !Does(states[m], steps[m], r.user, DropAccess)
    ensures var r := states[i].open[steps[i].x];
      Read(cfg.backend, states[k].table, AccessKey(cfg.realm, r.user), now) ==
        if Live(cfg.backend, Entry(r.goal.jti, steps[i].now + cfg.accessTtl), now) then Some(r.goal.jti) else None
  {
    KeysNeverCollide(cfg.realm);
    var r := states[i].open[steps[i].x];
    var key, e := AccessKey(cfg.realm, r.user), Entry(r.goal.jti, steps[i].now + cfg.accessTtl);
    assert Next(cfg, states[i], steps[i], states[i + 1]);
    assert Holds(cfg, states[i + 1], key, e);
    forall m | i + 1 <= m < k ensures Touched(cfg, states[m], steps[m]) != Some(key) {
      OwnAccess(cfg, states[m], steps[m], r.user);
    }
    HoldsUntil(cfg, states, steps, key, e, i + 1, k);
    HoldsReads(cfg, states[k], key, e, now);
  }

  // What a revocation deletes, by phase, and what would write it again.
  function WriterOf(phase: Phase): Phase
    requires phase in {DropSubject, DropAccess}
  {
    if phase == DropSubject then WriteSubject else WriteAccess
  }

  function RevokedKey(cfg: Config, u: string, phase: Phase): string {
    if phase == DropSubject then SubjectKey(cfg.realm, u) else AccessKey(cfg.realm, u)
  }

  lemma StepClear(cfg: Config, s: State, step: Step, s': State, u: string, phase: Phase)
    requires KeysApart(cfg.realm) && Next(cfg, s, step, s') && phase in {DropSubject, DropAccess}
    requires RevokedKey(cfg, u, phase) !in s.table && !Does(s, step, u, WriterOf(phase))
    ensures RevokedKey(cfg, u, phase) !in s'.table
  {
    var key := RevokedKey(cfg, u, phase);
    if Touched(cfg, s, step) != Some(key) { StepKey(cfg, s, step, s', key); }
  }

  // What a revocation deletes, the user's named token or the access identifier, stays away until a request of the
  // same user writes it again.
  lemma {:induction false} RevocationClears(cfg: Config, states: seq<State>, steps: seq<Step>, u: string, phase: Phase,
                                            i: nat, k: nat)
    requires IsRun(cfg, states, steps) && i < k < |states| && phase in {DropSubject, DropAccess}
    requires Does(states[i], steps[i], u, phase)
    requires forall m :: i < m < k ==> !Does(states[m], steps[m], u, WriterOf(phase))
    ensures RevokedKey(cfg, u, phase) !in states[k].table
    decreases k
  {
    KeysNeverCollide(cfg.realm);
    assert Next(cfg, states[k - 1], steps[k - 1], states[k]);
    if i < k - 1 {
      RevocationClears(cfg, states, steps, u, phase, i, k - 1);
      StepClear(cfg, states[k - 1], steps[k - 1], states[k], u, phase);
    }
  }
}
