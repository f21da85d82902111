/** Exactly how much overlap, and which failures, leave every user with at most one working refresh token. */
module RefreshTokenBound {
  import opened Collections
  import opened TtlStore
  import opened RefreshTokens
  import opened RefreshTokenSteps
  import opened RefreshTokenTheorems

  // Runs in which no user has more than `limit` requests in their window and, unless `midway`, no request stops
  // between its token and the user's key.
  ghost predicate Allowed(cfg: Config, limit: int, midway: bool, states: seq<State>, steps: seq<Step>) {
    IsRun(cfg, states, steps) && AllWithin(states, limit) && (midway || NeverMidway(states, steps))
  }

  ghost predicate AlwaysOne(cfg: Config, states: seq<State>) {
    forall i :: 0 <= i < |states| ==> AtMostOne(cfg, states[i])
  }

  ghost predicate Safe(cfg: Config, limit: int, midway: bool) {
    forall states, steps :: Allowed(cfg, limit, midway, states, steps) ==> AlwaysOne(cfg, states)
  }

  // Tokens that expire the moment they are written.
  predicate NeverLive(cfg: Config) { cfg.backend == Postgres && cfg.refreshTtl == 0 }

  // ---- Safe cases ----

  lemma CalmIsSafe(cfg: Config, states: seq<State>, steps: seq<Step>)
    requires CalmRun(cfg, states, steps)
    ensures AlwaysOne(cfg, states)
  {
    forall i | 0 <= i < |states| ensures AtMostOne(cfg, states[i]) { AtMostOneToken(cfg, states, steps, i); }
  }

  lemma MidwayIsInWindow(s: State, step: Step)
    requires StopsMidway(s, step)
    ensures |Window(s, s.open[step.x].user)| >= 1
  {
    assert step.x in Window(s, s.open[step.x].user);
  }

  // With no request ever in its window, none stops there either.
  lemma EmptyWindows(cfg: Config, limit: int, states: seq<State>, steps: seq<Step>)
    requires limit <= 0 && IsRun(cfg, states, steps) && AllWithin(states, limit)
    ensures CalmRun(cfg, states, steps)
  {
    forall i | 0 <= i < |states| ensures Within(states[i], 1) { assert Within(states[i], limit); }
    forall i | 0 <= i < |steps| ensures !StopsMidway(states[i], steps[i]) {
      assert Within(states[i], limit);
      if StopsMidway(states[i], steps[i]) { MidwayIsInWindow(states[i], steps[i]); }
    }
  }

  // No stored token outlives one written now.
  ghost predicate NoneOutlives(cfg: Config, s: State) {
    forall t :: RefreshKey(cfg.realm, t) in s.table ==>
      s.table[RefreshKey(cfg.realm, t)].expiresAt <= s.clock + cfg.refreshTtl
  }

  lemma StepOutlives(cfg: Config, s: State, step: Step, s': State, t: string)
    requires KeysApart(cfg.realm) && RequestsInv(s) && NoneOutlives(cfg, s) && Next(cfg, s, step, s')
    requires RefreshKey(cfg.realm, t) in s'.table
    ensures s'.table[RefreshKey(cfg.realm, t)].expiresAt <= s'.clock + cfg.refreshTtl
  {
    StepTokens(cfg, s, step, s', t);
    ClockGrows(cfg, s, step, s');
  }

  lemma {:induction false} RunOutlives(cfg: Config, states: seq<State>, steps: seq<Step>, n: nat)
    requires IsRun(cfg, states, steps) && n < |states|
    ensures NoneOutlives(cfg, states[n])
  {
    if n > 0 {
      KeysNeverCollide(cfg.realm);
      RunOutlives(cfg, states, steps, n - 1);
      RunBase(cfg, states, steps, n - 1);
      forall t | RefreshKey(cfg.realm, t) in states[n].table
        ensures states[n].table[RefreshKey(cfg.realm, t)].expiresAt <= states[n].clock + cfg.refreshTtl
      {
        StepOutlives(cfg, states[n - 1], steps[n - 1], states[n], t);
      }
    }
  }

  lemma NeverLiveIsSafe(cfg: Config, states: seq<State>, steps: seq<Step>)
    requires NeverLive(cfg) && IsRun(cfg, states, steps)
    ensures AlwaysOne(cfg, states)
  {
    forall i | 0 <= i < |states| ensures AtMostOne(cfg, states[i]) {
      RunOutlives(cfg, states, steps, i);
      assert forall t, u :: !Works(cfg, states[i].table, states[i].clock, t, u);
    }
  }

  // ---- Building runs ----

  // Allowed, and ending in s.
  ghost predicate Reaches(cfg: Config, limit: int, midway: bool, states: seq<State>, steps: seq<Step>, s: State) {
    Allowed(cfg, limit, midway, states, steps) && states[|steps|] == s
  }

  lemma FewOpen(s: State, limit: int)
    requires |s.open| <= limit
    ensures Within(s, limit)
  {
    forall u ensures |Window(s, u)| <= limit { SubsetSize(Window(s, u), s.open.Keys); }
  }

  lemma Extend(cfg: Config, limit: int, midway: bool, states: seq<State>, steps: seq<Step>, s: State, step: Step,
               s': State)
    returns (states': seq<State>, steps': seq<Step>)
    requires Reaches(cfg, limit, midway, states, steps, s) && Next(cfg, s, step, s') && |s'.open| <= limit
    requires midway || !StopsMidway(s, step)
    ensures Reaches(cfg, limit, midway, states', steps', s')
  {
    states', steps' := states + [s'], steps + [step];
    FewOpen(s', limit);
    forall i | 0 <= i < |steps'| ensures Next(cfg, states'[i], steps'[i], states'[i + 1]) {
      if i < |steps| { assert Next(cfg, states[i], steps[i], states[i + 1]); }
    }
    forall i | 0 <= i < |states'| ensures Within(states'[i], limit) {
      if i < |states| { assert Within(states[i], limit); }
    }
    if !midway {
      forall i | 0 <= i < |steps'| ensures !StopsMidway(states'[i], steps'[i]) {
        if i < |steps| { assert !StopsMidway(states[i], steps[i]); }
      }
    }
  }

  lemma NoSteps(cfg: Config, limit: nat, midway: bool)
    ensures Reaches(cfg, limit, midway, [State(map[], map[], map[], 0)], [], State(map[], map[], map[], 0))
  {
    FewOpen(State(map[], map[], map[], 0), limit);
  }

  const A := Issuing("a", "")
  const B := Issuing("b", "")

  function KeyA(cfg: Config): string { RefreshKey(cfg.realm, "a") }
  function KeyB(cfg: Config): string { RefreshKey(cfg.realm, "b") }

  // The table that two token writes and nothing else leave.
  function TableA(cfg: Config): Table { map[KeyA(cfg) := Entry("u", cfg.refreshTtl)] }
  function TableAB(cfg: Config): Table { TableA(cfg)[KeyB(cfg) := Entry("u", cfg.refreshTtl)] }

  lemma TwoTokens(cfg: Config, s: State)
    requires !NeverLive(cfg) && s.table == TableAB(cfg) && s.clock == 0
    ensures !AtMostOne(cfg, s)
  {
    KeysNeverCollide(cfg.realm);
    assert KeyA(cfg) != KeyB(cfg);
    assert Works(cfg, s.table, 0, "a", "u") && Works(cfg, s.table, 0, "b", "u");
  }

  // ---- Two requests in their windows ----

  // Two requests of one user, in the given phases.
  function Pair(table: Table, p: Phase, q: Phase): State {
    State(table, map["a" := "u", "b" := "u"], map[0 := Request("u", A, p), 1 := Request("u", B, q)], 0)
  }

  lemma PairStarts(cfg: Config) returns (states: seq<State>, steps: seq<Step>)
    ensures Reaches(cfg, 2, false, states, steps, Pair(map[], Lookup, Lookup))
  {
    var s0 := State(map[], map[], map[], 0);
    var s1 := State(map[], map["a" := "u"], map[0 := Begin("u", A)], 0);
    var s2 := Pair(map[], Lookup, Lookup);
    NoSteps(cfg, 2, false);
    states, steps := Extend(cfg, 2, false, [s0], [], s0, Start(0, "u", A), s1);
    assert s2.issued == s1.issued["b" := "u"] && s2.open == s1.open[1 := Begin("u", B)];
    states, steps := Extend(cfg, 2, false, states, steps, s1, Start(1, "u", B), s2);
  }

  // One of the two requests takes a step.
  lemma PairAdvances(cfg: Config, s: State, x: int, s': State)
    requires x in {0, 1} && x in s.open && InOrder(s.open[x]) && s.clock == 0
    requires s'.table == TableAfter(cfg, s.table, s.open[x], 0) && s'.issued == s.issued && s'.clock == 0
    requires Advanced(cfg, s.table, s.open[x], 0).phase != Finished
    requires s'.open == s.open[x := Advanced(cfg, s.table, s.open[x], 0)]
    ensures Next(cfg, s, Advance(x, 0), s')
  {
  }

  lemma PairLooksUp(cfg: Config) returns (states: seq<State>, steps: seq<Step>)
    ensures Reaches(cfg, 2, false, states, steps, Pair(map[], WriteToken, WriteToken))
  {
    states, steps := PairStarts(cfg);
    var s2, s3, s4 := Pair(map[], Lookup, Lookup), Pair(map[], WriteToken, Lookup), Pair(map[], WriteToken, WriteToken);
    PairAdvances(cfg, s2, 0, s3);
    states, steps := Extend(cfg, 2, false, states, steps, s2, Advance(0, 0), s3);
    PairAdvances(cfg, s3, 1, s4);
    states, steps := Extend(cfg, 2, false, states, steps, s3, Advance(1, 0), s4);
  }

  // Each of two issues for one user looks up the user's key before the other has written it, and both tokens work.
  lemma OverlapLeavesTwo(cfg: Config) returns (states: seq<State>, steps: seq<Step>)
    requires !NeverLive(cfg)
    ensures Allowed(cfg, 2, false, states, steps) && !AtMostOne(cfg, states[|steps|])
  {
    states, steps := PairLooksUp(cfg);
    var s4 := Pair(map[], WriteToken, WriteToken);
    var s5 := Pair(TableA(cfg), WriteSubject, WriteToken);
    var s6 := Pair(TableAB(cfg), WriteSubject, WriteSubject);
    PairAdvances(cfg, s4, 0, s5);
    states, steps := Extend(cfg, 2, false, states, steps, s4, Advance(0, 0), s5);
    PairAdvances(cfg, s5, 1, s6);
    states, steps := Extend(cfg, 2, false, states, steps, s5, Advance(1, 0), s6);
    TwoTokens(cfg, s6);
  }

  // ---- One request that stops midway ----

  lemma FirstStops(cfg: Config) returns (states: seq<State>, steps: seq<Step>)
    ensures Reaches(cfg, 1, true, states, steps, State(TableA(cfg), map["a" := "u"], map[], 0))
  {
    var issued := map["a" := "u"];
    var s0 := State(map[], map[], map[], 0);
    var s1 := State(map[], issued, map[0 := Begin("u", A)], 0);
    var s2 := State(map[], issued, map[0 := Request("u", A, WriteToken)], 0);
    var s3 := State(TableA(cfg), issued, map[0 := Request("u", A, WriteSubject)], 0);
    var s4 := State(TableA(cfg), issued, map[], 0);
    NoSteps(cfg, 1, true);
    states, steps := Extend(cfg, 1, true, [s0], [], s0, Start(0, "u", A), s1);
    PairAdvances(cfg, s1, 0, s2);
    states, steps := Extend(cfg, 1, true, states, steps, s1, Advance(0, 0), s2);
    PairAdvances(cfg, s2, 0, s3);
    states, steps := Extend(cfg, 1, true, states, steps, s2, Advance(0, 0), s3);
    assert s3.open - {0} == map[];
    states, steps := Extend(cfg, 1, true, states, steps, s3, Abandon(0), s4);
  }

  // An issue that fails between its token and the user's key leaves a working token that the next issue does not
  // find, although never more than one request is open.
  lemma MidwayLeavesTwo(cfg: Config) returns (states: seq<State>, steps: seq<Step>)
    requires !NeverLive(cfg)
    ensures Allowed(cfg, 1, true, states, steps) && !AtMostOne(cfg, states[|steps|])
  {
    KeysNeverCollide(cfg.realm);
    states, steps := FirstStops(cfg);
    var issued := map["a" := "u", "b" := "u"];
    var s4 := State(TableA(cfg), map["a" := "u"], map[], 0);
    var s5 := State(TableA(cfg), issued, map[1 := Begin("u", B)], 0);
    var s6 := State(TableA(cfg), issued, map[1 := Request("u", B, WriteToken)], 0);
    var s7 := State(TableAB(cfg), issued, map[1 := Request("u", B, WriteSubject)], 0);
    assert s5.issued == s4.issued["b" := "u"];
    states, steps := Extend(cfg, 1, true, states, steps, s4, Start(1, "u", B), s5);
    PairAdvances(cfg, s5, 1, s6);
    states, steps := Extend(cfg, 1, true, states, steps, s5, Advance(1, 0), s6);
    PairAdvances(cfg, s6, 1, s7);
    states, steps := Extend(cfg, 1, true, states, steps, s6, Advance(1, 0), s7);
    TwoTokens(cfg, s7);
  }

  // ---- The exact condition ----

  lemma Loosened(cfg: Config, limit: int, midway: bool, limit': int, midway': bool, states: seq<State>,
                 steps: seq<Step>)
    requires Allowed(cfg, limit, midway, states, steps) && limit <= limit' && (midway ==> midway')
    ensures Allowed(cfg, limit', midway', states, steps)
  {
    forall i | 0 <= i < |states| ensures Within(states[i], limit') { assert Within(states[i], limit); }
  }

  ghost predicate Harmful(cfg: Config, limit: int, midway: bool) {
    !NeverLive(cfg) && (limit >= 2 || (limit == 1 && midway))
  }

  lemma HarmlessIsSafe(cfg: Config, limit: int, midway: bool, states: seq<State>, steps: seq<Step>)
    requires !Harmful(cfg, limit, midway) && Allowed(cfg, limit, midway, states, steps)
    ensures AlwaysOne(cfg, states)
  {
    if NeverLive(cfg) {
      NeverLiveIsSafe(cfg, states, steps);
    } else {
      if limit <= 0 { EmptyWindows(cfg, limit, states, steps); }
      CalmIsSafe(cfg, states, steps);
    }
  }

  // Every user has at most one working token in every run that a limit on overlapping windows and a ban or not on
  // stopping midway allow, exactly when tokens never live, or the limit is none, or it is one and stopping midway is
  // banned.
  lemma TokenBoundExact(cfg: Config, limit: int, midway: bool)
    ensures Safe(cfg, limit, midway) <==> NeverLive(cfg) || limit <= 0 || (limit == 1 && !midway)
  {
    if Harmful(cfg, limit, midway) {
      var states, steps;
      if limit >= 2 {
        states, steps := OverlapLeavesTwo(cfg);
        Loosened(cfg, 2, false, limit, midway, states, steps);
      } else {
        states, steps := MidwayLeavesTwo(cfg);
      }
      assert !AtMostOne(cfg, states[|steps|]);
      assert !AlwaysOne(cfg, states);
    } else {
      forall states, steps | Allowed(cfg, limit, midway, states, steps) ensures AlwaysOne(cfg, states) {
        HarmlessIsSafe(cfg, limit, midway, states, steps);
      }
    }
  }
}
