/** What holds of refresh tokens over every run of interleaved issues, uses, revocations and sweeps, any of
    them possibly given up half-way. */
module RefreshTokenTheorems {
  import opened Wrappers
  import opened Collections
  import opened TtlStore
  import opened RefreshTokens
  import opened RefreshTokenSteps

  // ---- What holds however requests overlap ----

  // The request has yet to write this token's key.
  predicate ToWrite(r: Request, t: string) {
    r.goal.Issuing? && r.goal.token == t && (r.phase == Lookup || r.phase.Drop? || r.phase == WriteToken)
  }

  predicate RequestsInv(s: State) {
    && (forall x :: x in s.open ==> InOrder(s.open[x]) && s.open[x].phase != Finished)
    && (forall x :: x in s.open && s.open[x].goal.Issuing? ==>
          s.open[x].goal.token in s.issued && s.issued[s.open[x].goal.token] == s.open[x].user)
    && (forall x, y :: x in s.open && y in s.open && x != y && s.open[x].goal.Issuing? && s.open[y].goal.Issuing? ==>
          s.open[x].goal.token != s.open[y].goal.token)
  }

  // A stored token was issued to the user stored with it, and its key is not written again.
  ghost predicate Known(cfg: Config, s: State) {
    forall t :: RefreshKey(cfg.realm, t) in s.table ==>
      && t in s.issued && s.table[RefreshKey(cfg.realm, t)].value == s.issued[t]
      && forall x :: x in s.open ==> !ToWrite(s.open[x], t)
  }

  ghost predicate BaseInv(cfg: Config, s: State) { RequestsInv(s) && Known(cfg, s) }

  // The only new token key a step can write is that of the request it advances.
  lemma StepTokens(cfg: Config, s: State, step: Step, s': State, t: string)
    requires KeysApart(cfg.realm) && RequestsInv(s) && Next(cfg, s, step, s') && RefreshKey(cfg.realm, t) in s'.table
    ensures if step.Advance? && s.open[step.x].phase == WriteToken && s.open[step.x].goal.token == t
            then s'.table[RefreshKey(cfg.realm, t)].value == s.open[step.x].user
            else SameEntry(s.table, s'.table, RefreshKey(cfg.realm, t))
  {
  }

  lemma StepOpen(cfg: Config, s: State, step: Step, s': State, x: int, t: string)
    requires RequestsInv(s) && Next(cfg, s, step, s') && x in s'.open && ToWrite(s'.open[x], t)
    ensures || (step == Start(x, s'.open[x].user, s'.open[x].goal) && t !in s.issued)
            || (x in s.open && ToWrite(s.open[x], t))
    ensures step.Advance? && step.x == x ==> s.open[x].phase != WriteToken
  {
  }

  lemma StepRequests(cfg: Config, s: State, step: Step, s': State)
    requires RequestsInv(s) && Next(cfg, s, step, s')
    ensures RequestsInv(s')
  {
  }

  lemma StepKnown(cfg: Config, s: State, step: Step, s': State, t: string)
    requires KeysApart(cfg.realm) && BaseInv(cfg, s) && Next(cfg, s, step, s') && RefreshKey(cfg.realm, t) in s'.table
    ensures t in s'.issued && s'.table[RefreshKey(cfg.realm, t)].value == s'.issued[t]
    ensures forall x :: x in s'.open ==> !ToWrite(s'.open[x], t)
  {
    StepTokens(cfg, s, step, s', t);
    forall x | x in s'.open ensures !ToWrite(s'.open[x], t) {
      if ToWrite(s'.open[x], t) { StepOpen(cfg, s, step, s', x, t); }
    }
  }

  lemma StepBase(cfg: Config, s: State, step: Step, s': State)
    requires BaseInv(cfg, s) && Next(cfg, s, step, s')
    ensures BaseInv(cfg, s')
  {
    KeysNeverCollide(cfg.realm);
    StepRequests(cfg, s, step, s');
    forall t | RefreshKey(cfg.realm, t) in s'.table
      ensures t in s'.issued && s'.table[RefreshKey(cfg.realm, t)].value == s'.issued[t]
      ensures forall x :: x in s'.open ==> !ToWrite(s'.open[x], t)
    {
      StepKnown(cfg, s, step, s', t);
    }
  }

  lemma {:induction false} RunBase(cfg: Config, states: seq<State>, steps: seq<Step>, n: nat)
    requires IsRun(cfg, states, steps) && n < |states|
    ensures BaseInv(cfg, states[n])
  {
    if n > 0 {
      RunBase(cfg, states, steps, n - 1);
      StepBase(cfg, states[n - 1], steps[n - 1], states[n]);
    }
  }

  // ---- Spent tokens ----

  // The token does not work and no request will write it.
  ghost predicate Dead(cfg: Config, s: State, t: string) {
    && t in s.issued && Read(cfg.backend, s.table, RefreshKey(cfg.realm, t), s.clock) == None
    && forall x :: x in s.open ==> !ToWrite(s.open[x], t)
  }

  lemma ClockGrows(cfg: Config, s: State, step: Step, s': State)
    requires Next(cfg, s, step, s')
    ensures s.clock <= s'.clock && forall t :: t in s.issued ==> t in s'.issued
  {
  }

  lemma StepDead(cfg: Config, s: State, step: Step, s': State, t: string)
    requires BaseInv(cfg, s) && Next(cfg, s, step, s') && Dead(cfg, s, t)
    ensures Dead(cfg, s', t)
  {
    KeysNeverCollide(cfg.realm);
    ClockGrows(cfg, s, step, s');
    if RefreshKey(cfg.realm, t) in s'.table { StepTokens(cfg, s, step, s', t); }
    forall x | x in s'.open ensures !ToWrite(s'.open[x], t) {
      if ToWrite(s'.open[x], t) { StepOpen(cfg, s, step, s', x, t); }
    }
  }

  lemma RunDead(cfg: Config, states: seq<State>, steps: seq<Step>, t: string, k: nat)
    requires IsRun(cfg, states, steps) && k < |steps| && Dead(cfg, states[k], t)
    ensures Dead(cfg, states[k + 1], t)
  {
    RunBase(cfg, states, steps, k);
    StepDead(cfg, states[k], steps[k], states[k + 1], t);
  }

  lemma {:induction false} StaysDead(cfg: Config, states: seq<State>, steps: seq<Step>, t: string, i: nat, k: nat)
    requires IsRun(cfg, states, steps) && i <= k < |states| && Dead(cfg, states[i], t)
    ensures Dead(cfg, states[k], t)
    decreases k
  {
    if i < k {
      StaysDead(cfg, states, steps, t, i, k - 1);
      RunDead(cfg, states, steps, t, k - 1);
    }
  }

  // What using the token at step k returns.
  function Outcome(cfg: Config, states: seq<State>, steps: seq<Step>, k: nat): Option<string>
    requires k < |steps| < |states| && steps[k].Consume?
  {
    Read(cfg.backend, states[k].table, RefreshKey(cfg.realm, steps[k].token), steps[k].now)
  }

  lemma DeadFails(cfg: Config, states: seq<State>, steps: seq<Step>, i: nat, k: nat)
    requires IsRun(cfg, states, steps) && i <= k < |steps| && steps[k].Consume? && Dead(cfg, states[i], steps[k].token)
    ensures Outcome(cfg, states, steps, k) == None
  {
    StaysDead(cfg, states, steps, steps[k].token, i, k);
    assert Next(cfg, states[k], steps[k], states[k + 1]);
  }

  // A successful use returns the user the token was issued to, in every run.
  lemma SuccessIsOwners(cfg: Config, states: seq<State>, steps: seq<Step>, k: nat)
    requires IsRun(cfg, states, steps) && k < |steps| && steps[k].Consume? && Outcome(cfg, states, steps, k).Some?
    ensures steps[k].token in states[k].issued
    ensures Outcome(cfg, states, steps, k) == Some(states[k].issued[steps[k].token])
  {
    RunBase(cfg, states, steps, k);
  }

  // A token is used successfully at most once, in every run, however requests overlap.
  lemma UsedOnce(cfg: Config, states: seq<State>, steps: seq<Step>, i: nat, k: nat)
    requires IsRun(cfg, states, steps) && i < k < |steps| && steps[i].Consume? && steps[k].Consume?
    requires steps[i].token == steps[k].token && Outcome(cfg, states, steps, i).Some?
    ensures Outcome(cfg, states, steps, k) == None
  {
    RunBase(cfg, states, steps, i);
    assert Next(cfg, states[i], steps[i], states[i + 1]);
    TakenOnce(cfg.backend, states[i].table, RefreshKey(cfg.realm, steps[i].token), steps[i].now, steps[i].now);
    DeadFails(cfg, states, steps, i + 1, k);
  }

  // ---- When the windows of one user do not overlap ----

  // The user's requests that are in their window.
  function Window(s: State, u: string): set<int> {
    set x | x in s.open && s.open[x].user == u && InWindow(s.open[x])
  }

  // No user has more than this many requests in their window.
  ghost predicate Within(s: State, limit: int) { forall u :: |Window(s, u)| <= limit }

  // A request stops after it has written its token and before it writes the user's key.
  predicate StopsMidway(s: State, step: Step) {
    step.Abandon? && step.x in s.open && s.open[step.x].phase == WriteSubject
  }

  ghost predicate AllWithin(states: seq<State>, limit: int) {
    forall i :: 0 <= i < |states| ==> Within(states[i], limit)
  }

  ghost predicate NeverMidway(states: seq<State>, steps: seq<Step>)
    requires |states| == |steps| + 1
  {
    forall i :: 0 <= i < |steps| ==> !StopsMidway(states[i], steps[i])
  }

  // Windows do not overlap and no request stops between its two keys; otherwise requests overlap and stop freely.
  ghost predicate CalmRun(cfg: Config, states: seq<State>, steps: seq<Step>) {
    IsRun(cfg, states, steps) && AllWithin(states, 1) && NeverMidway(states, steps)
  }

  ghost predicate UserInv(cfg: Config, s: State, u: string) {
    && (forall x :: x in Window(s, u) ==> PhaseOk(cfg, s.table, s.clock, s.open[x]))
    && (Window(s, u) == {} ==> NamedFor(cfg, s.table, s.clock, u))
  }

  // A step that is harmless to the user and leaves the user's window as it is.
  lemma UserKept(cfg: Config, s: State, s': State, u: string)
    requires UserInv(cfg, s, u) && Harmless(cfg, s.table, s.clock, s'.table, s'.clock, u)
    requires Window(s', u) == Window(s, u) && forall x :: x in Window(s, u) ==> s'.open[x] == s.open[x]
    ensures UserInv(cfg, s', u)
  {
    forall x | x in Window(s', u) ensures PhaseOk(cfg, s'.table, s'.clock, s'.open[x]) {
      PhaseKept(cfg, s.table, s.clock, s'.table, s'.clock, s'.open[x]);
    }
    if Window(s', u) == {} { HarmlessNamed(cfg, s.table, s.clock, s'.table, s'.clock, u); }
  }

  lemma EnterWindow(cfg: Config, s: State, step: Step, s': State)
    requires step.Advance? && Next(cfg, s, step, s') && s.open[step.x].phase == Lookup
    requires UserInv(cfg, s, s.open[step.x].user) && |Window(s', s.open[step.x].user)| <= 1
    ensures UserInv(cfg, s', s.open[step.x].user)
  {
    var x, r := step.x, s.open[step.x];
    var q := Advanced(cfg, s.table, r, step.now);
    assert InWindow(q) && s'.open == s.open[x := q];
    OneMember(Window(s', r.user), x);
    assert forall y :: y in Window(s, r.user) ==> y in Window(s', r.user);
    assert Window(s, r.user) == {};
    LookupStep(cfg, s.table, s.clock, step.now, r);
  }

  lemma InsideWindow(cfg: Config, s: State, step: Step, s': State)
    requires KeysApart(cfg.realm) && step.Advance? && Next(cfg, s, step, s') && InWindow(s.open[step.x])
    requires UserInv(cfg, s, s.open[step.x].user) && |Window(s, s.open[step.x].user)| <= 1
    ensures UserInv(cfg, s', s.open[step.x].user)
    ensures s.open[step.x].phase in {WriteSubject, DropSubject} ==>
      StandsAfter(cfg, s'.table, s'.clock, s.open[step.x])
  {
    var x, r := step.x, s.open[step.x];
    var q := Advanced(cfg, s.table, r, step.now);
    assert x in Window(s, r.user);
    OneMember(Window(s, r.user), x);
    assert s'.open == s.open[x := q];
    if InWindow(q) {
      WindowStep(cfg, s.table, s.clock, step.now, r);
      assert Window(s', r.user) == {x};
    } else {
      LeaveStep(cfg, s.table, s.clock, step.now, r);
      assert forall y :: y in Window(s', r.user) ==> y in Window(s, r.user) && y != x;
      assert Window(s', r.user) == {};
    }
  }

  lemma AdvanceUser(cfg: Config, s: State, step: Step, s': State, u: string)
    requires KeysApart(cfg.realm) && RequestsInv(s) && UserInv(cfg, s, u) && step.Advance? && Next(cfg, s, step, s')
    requires |Window(s, u)| <= 1 && |Window(s', u)| <= 1
    ensures UserInv(cfg, s', u)
  {
    var r := s.open[step.x];
    if r.user == u && r.phase == Lookup {
      EnterWindow(cfg, s, step, s');
    } else if r.user == u && InWindow(r) {
      InsideWindow(cfg, s, step, s');
    } else {
      RequestHarmless(cfg, s.table, s.clock, r, step.now, u);
      assert Window(s', u) == Window(s, u);
      UserKept(cfg, s, s', u);
    }
  }

  lemma AbandonUser(cfg: Config, s: State, step: Step, s': State, u: string)
    requires UserInv(cfg, s, u) && step.Abandon? && Next(cfg, s, step, s') && !StopsMidway(s, step)
    requires |Window(s, u)| <= 1
    ensures UserInv(cfg, s', u)
  {
    if step.x in Window(s, u) {
      OneMember(Window(s, u), step.x);
      StopStep(cfg, s.table, s.clock, s.open[step.x]);
      assert Window(s', u) == {};
    } else {
      WaitHarmless(cfg, s.table, s.clock, s.clock, u);
      assert Window(s', u) == Window(s, u);
      UserKept(cfg, s, s', u);
    }
  }

  lemma StepUser(cfg: Config, s: State, step: Step, s': State, u: string)
    requires RequestsInv(s) && UserInv(cfg, s, u) && Next(cfg, s, step, s') && !StopsMidway(s, step)
    requires |Window(s, u)| <= 1 && |Window(s', u)| <= 1
    ensures UserInv(cfg, s', u)
  {
    KeysNeverCollide(cfg.realm);
    match step
    case Start(x, user, goal) =>
      WaitHarmless(cfg, s.table, s.clock, s.clock, u);
      assert Window(s', u) == Window(s, u);
      UserKept(cfg, s, s', u);
    case Advance(x, now) => AdvanceUser(cfg, s, step, s', u);
    case Abandon(x) => AbandonUser(cfg, s, step, s', u);
    case Consume(token, now) =>
      TakeHarmless(cfg, s.table, s.clock, now, token, u);
      UserKept(cfg, s, s', u);
    case Sweep(now) =>
      PurgeHarmless(cfg, s.table, s.clock, now, u);
      UserKept(cfg, s, s', u);
  }

  lemma RunUser(cfg: Config, states: seq<State>, steps: seq<Step>, k: nat, u: string)
    requires CalmRun(cfg, states, steps) && k < |steps| && UserInv(cfg, states[k], u)
    ensures UserInv(cfg, states[k + 1], u)
  {
    RunBase(cfg, states, steps, k);
    assert Within(states[k], 1) && Within(states[k + 1], 1) && !StopsMidway(states[k], steps[k]);
    StepUser(cfg, states[k], steps[k], states[k + 1], u);
  }

  // In every state of a calm run the tokens of every user stand as the phase of the request in its window says,
  // and outside windows the working one is the one the user's key names.
  lemma {:induction false} RunInv(cfg: Config, states: seq<State>, steps: seq<Step>, n: nat, u: string)
    requires CalmRun(cfg, states, steps) && n < |states|
    ensures UserInv(cfg, states[n], u)
  {
    if n > 0 {
      RunInv(cfg, states, steps, n - 1, u);
      RunUser(cfg, states, steps, n - 1, u);
    }
  }

  // ---- At most one token ----

  ghost predicate AtMostOne(cfg: Config, s: State) {
    forall u, t, t' :: Works(cfg, s.table, s.clock, t, u) && Works(cfg, s.table, s.clock, t', u) ==> t == t'
  }

  lemma OneInPhase(cfg: Config, table: Table, now: int, r: Request, t: string, t': string)
    requires PhaseOk(cfg, table, now, r) && InWindow(r)
    requires Works(cfg, table, now, t, r.user) && Works(cfg, table, now, t', r.user)
    ensures t == t'
  {
  }

  lemma OneOfUser(cfg: Config, s: State, u: string, t: string, t': string)
    requires UserInv(cfg, s, u) && Works(cfg, s.table, s.clock, t, u) && Works(cfg, s.table, s.clock, t', u)
    ensures t == t'
  {
    if Window(s, u) == {} {
      assert Names(cfg, s.table, t, u) && Names(cfg, s.table, t', u);
    } else {
      var x := SomeMember(Window(s, u));
      OneInPhase(cfg, s.table, s.clock, s.open[x], t, t');
    }
  }

  lemma SomeMember(w: set<int>) returns (x: int)
    requires w != {}
    ensures x in w
  {
    HasElement(w);
    x :| x in w;
  }

  // In a calm run no user has two working tokens, in any state.
  lemma AtMostOneToken(cfg: Config, states: seq<State>, steps: seq<Step>, n: nat)
    requires CalmRun(cfg, states, steps) && n < |states|
    ensures AtMostOne(cfg, states[n])
  {
    var s := states[n];
    forall u, t, t' | Works(cfg, s.table, s.clock, t, u) && Works(cfg, s.table, s.clock, t', u) ensures t == t' {
      RunInv(cfg, states, steps, n, u);
      OneOfUser(cfg, s, u, t, t');
    }
  }

  // ---- Replaced and revoked tokens ----

  // The request of this step writes or deletes its user's key.
  predicate Settles(s: State, step: Step) {
    step.Advance? && step.x in s.open && s.open[step.x].phase in {WriteSubject, DropSubject}
  }

  // The token is its user's, is not the request's own, and no request has yet to write it.
  ghost predicate Stood(s: State, r: Request, t: string) {
    && t in s.issued && s.issued[t] == r.user && (r.goal.Issuing? ==> r.goal.token != t)
    && forall x :: x in s.open ==> !ToWrite(s.open[x], t)
  }

  lemma SettlingSpends(cfg: Config, s: State, step: Step, s': State, t: string)
    requires BaseInv(cfg, s) && Next(cfg, s, step, s') && Settles(s, step) && Stood(s, s.open[step.x], t)
    requires UserInv(cfg, s, s.issued[t]) && |Window(s, s.issued[t])| <= 1
    ensures Dead(cfg, s', t)
  {
    KeysNeverCollide(cfg.realm);
    InsideWindow(cfg, s, step, s');
    StepBase(cfg, s, step, s');
    assert !Works(cfg, s'.table, s'.clock, t, s.issued[t]);
    forall x | x in s'.open ensures !ToWrite(s'.open[x], t) {
      if ToWrite(s'.open[x], t) { StepOpen(cfg, s, step, s', x, t); }
    }
  }

  // A token that stood when a request of its user wrote or deleted the user's key never succeeds again: an issue
  // replaces it, a revocation revokes it.
  lemma NeverAgain(cfg: Config, states: seq<State>, steps: seq<Step>, i: nat, k: nat)
    requires CalmRun(cfg, states, steps) && i < k < |steps| && steps[k].Consume?
    requires Settles(states[i], steps[i]) && Stood(states[i], states[i].open[steps[i].x], steps[k].token)
    ensures Outcome(cfg, states, steps, k) == None
  {
    var t := steps[k].token;
    RunBase(cfg, states, steps, i);
    RunInv(cfg, states, steps, i, states[i].issued[t]);
    assert Within(states[i], 1);
    SettlingSpends(cfg, states[i], steps[i], states[i + 1], t);
    DeadFails(cfg, states, steps, i + 1, k);
  }
}
