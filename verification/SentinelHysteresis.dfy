/** Hysteresis completes: which records ask for a change of action, exactly when, and what becomes of a
    granted one. What a record calls for is stated here from its score, signals and times alone. */
module SentinelHysteresis {
  import opened Basics
  import opened Sentinel
  import opened ActionBudget
  import opened SentinelRuns
  import opened SentinelSafety
  import S = Suggestions

  // ---- What a record calls for -----------------------------------------------------------------------

  predicate Reaches(cfg: Config, score: real, a: Action) {
    match a
    case NoAction => true
    case Watch => score >= cfg.watchThreshold
    case Throttle => score >= cfg.throttleThreshold
    case Drop => score >= cfg.dropThreshold
    case TempBan => score >= cfg.tempBanThreshold
  }

  /** The highest rung of the ladder the score reaches. */
  predicate Rung(cfg: Config, score: real, a: Action) {
    Reaches(cfg, score, a) && forall b :: StageRank(b) > StageRank(a) ==> !Reaches(cfg, score, b)
  }

  /** Enough strong signals for a hard action, or an emergency. */
  predicate Evidence(cfg: Config, rec: Record) {
    || cfg.promotionMinSignals <= 1
    || |set s | s in rec.topSignals && rec.topSignals[s] >= 0.3| >= cfg.promotionMinSignals
    || exists s :: s in rec.topSignals && "signal_emergency_" <= s
  }

  /** The rung, or throttle in place of a hard action there is not the evidence for. */
  predicate Deserves(cfg: Config, rec: Record, a: Action) {
    exists rung :: Rung(cfg, rec.score, rung) && a == if Hard(rung) && !Evidence(cfg, rec) then Throttle else rung
  }

  /** A change to `a` is called for: to something else than now, and not down while the cooldown runs. */
  predicate Calls(cfg: Config, rec: Record, now: int, a: Action) {
    && a != rec.stage && Deserves(cfg, rec, a)
    && !(StageRank(a) < StageRank(rec.stage) && RunsCooldown(cfg, rec, now))
  }

  lemma RungIsSelected(cfg: Config, score: real, a: Action)
    ensures Rung(cfg, score, a) <==> a == SelectStage(cfg, score)
  {
    if Rung(cfg, score, a) {
      var b := SelectStage(cfg, score);
      assert Reaches(cfg, score, b) && StageRank(b) <= StageRank(a);
    }
  }

  lemma DeservedIsWanted(cfg: Config, rec: Record, a: Action)
    ensures Deserves(cfg, rec, a) <==> a == Wanted(cfg, rec)
  {
    forall b ensures Rung(cfg, rec.score, b) <==> b == SelectStage(cfg, rec.score) { RungIsSelected(cfg, rec.score, b); }
    assert StrongSignals(rec.topSignals) == set s | s in rec.topSignals && rec.topSignals[s] >= 0.3;
    assert Rung(cfg, rec.score, SelectStage(cfg, rec.score));
  }

  lemma CallIsDesire(cfg: Config, rec: Record, now: int, a: Action)
    requires rec.stage == rec.lastAction
    ensures Calls(cfg, rec, now, a) <==> a == Desired(cfg, rec, now) && a != CurrentAction(rec)
  {
    hide Deserves, Wanted;
    DeservedIsWanted(cfg, rec, a);
  }

  // ---- How long it has been called for ---------------------------------------------------------------

  /** The record of k as the tick judges it. */
  ghost function Standing(cfg: Config, before: State, tick: Tick, k: string): Record
    requires tick.Batch?
  {
    Decayed(cfg, Tracked(ApplyEffects(cfg, before.ips, tick.effects), k), tick.now)
  }

  ghost predicate CallsOn(cfg: Config, before: State, tick: Tick, k: string, a: Action) {
    && tick.Batch? && k in ApplyEffects(cfg, before.ips, tick.effects)
    && Calls(cfg, Standing(cfg, before, tick, k), tick.now, a)
  }

  /** The call is due on tick m: this is the last tick required in a row, or there is an emergency. */
  ghost predicate DueOn(cfg: Config, ticks: seq<Tick>, states: seq<State>, m: nat, k: string, a: Action)
    requires |states| == |ticks| + 1 && m < |ticks|
    decreases m, 1
  {
    && CallsOn(cfg, states[m], ticks[m], k, a)
    && (Pressure(cfg, ticks, states, m, k, a) + 1 >= Max(1, cfg.promotionConsecutiveTicks)
        || exists s :: s in Standing(cfg, states[m], ticks[m], k).topSignals && "signal_emergency_" <= s)
  }

  /** How many processed ticks in a row up to tick m, within the record's present life and since a call of
      it was last due, called for `a`. */
  ghost function Pressure(cfg: Config, ticks: seq<Tick>, states: seq<State>, m: nat, k: string, a: Action): nat
    requires |states| == |ticks| + 1 && m <= |ticks|
    decreases m, 0
  {
    if m == 0 || k !in states[m].ips then 0
    else if !ticks[m - 1].Batch? then Pressure(cfg, ticks, states, m - 1, k, a)
    else if !CallsOn(cfg, states[m - 1], ticks[m - 1], k, a) || DueOn(cfg, ticks, states, m - 1, k, a) then 0
    else Pressure(cfg, ticks, states, m - 1, k, a) + 1
  }

  function Carried(rec: Record, a: Action): int {
    if rec.candidateAction == a then rec.candidateCount else 0
  }

  /** One judgement: counters advance on a call that is not due, and start over otherwise. */
  lemma JudgementCounts(cfg: Config, rec: Record, now: int, granted: bool, a: Action)
    requires Coherent(rec) && Judge(cfg, rec, now, granted).Some?
    ensures var out, d := Judge(cfg, rec, now, granted).value, Decayed(cfg, rec, now);
            Carried(out, a)
            == if Calls(cfg, d, now, a) && !(Carried(rec, a) + 1 >= Max(1, cfg.promotionConsecutiveTicks)
                                              || HasEmergencySignal(d.topSignals))
               then Carried(rec, a) + 1 else 0
  {
    hide Calls, Desired;
    CallIsDesire(cfg, Decayed(cfg, rec, now), now, a);
  }

  /** One judgement: who asks the budget, and for what. */
  lemma JudgementAsks(cfg: Config, rec: Record, now: int, a: Action)
    requires Coherent(rec)
    ensures var d := Decayed(cfg, rec, now);
            Calls(cfg, d, now, a) ==>
              (AsksBudget(cfg, rec, now)
               <==> !InactivityExpired(cfg, d, now)
                    && (Carried(rec, a) + 1 >= Max(1, cfg.promotionConsecutiveTicks) || HasEmergencySignal(d.topSignals)))
    ensures AsksBudget(cfg, rec, now) ==> Calls(cfg, Decayed(cfg, rec, now), now, Desired(cfg, Decayed(cfg, rec, now), now))
    ensures Calls(cfg, Decayed(cfg, rec, now), now, a) && AsksBudget(cfg, rec, now) ==>
              var out := Judge(cfg, rec, now, true);
              (out.None? ==> a == NoAction) && (out.Some? ==> out.value.stage == a == out.value.lastAction)
  {
    hide Calls, Desired;
    var d := Decayed(cfg, rec, now);
    CallIsDesire(cfg, d, now, a);
    CallIsDesire(cfg, d, now, Desired(cfg, d, now));
  }

  lemma FoldedCarries(cfg: Config, ips: Table, effects: seq<Effect>, k: string, a: Action)
    ensures Carried(Tracked(ApplyEffects(cfg, ips, effects), k), a) == Carried(Tracked(ips, k), a)
  {
    EffectsKeepLadder(cfg, ips, effects, k);
  }

  /** The record a tick is about to judge, in a run. */
  lemma StandingInRun(cfg: Config, policy: S.Policy, ticks: seq<Tick>, states: seq<State>, m: nat, k: string, a: Action)
    requires IsRun(cfg, policy, ticks, states) && m < |ticks| && ticks[m].Batch?
    ensures Coherent(Tracked(Folded(cfg, states[m], ticks[m]), k))
    ensures Carried(Tracked(Folded(cfg, states[m], ticks[m]), k), a) == Carried(Tracked(states[m].ips, k), a)
  {
    RunTick(cfg, policy, ticks, states, m);
    RunsStayCoherentFolded(cfg, policy, ticks, states, m, k);
    FoldKeepsCoherence(cfg, states[m].ips, ticks[m].effects, k);
    FoldedCarries(cfg, states[m].ips, ticks[m].effects, k, a);
  }

  /** In every run the counters say exactly how long the record has been calling: for every action, the
      candidate's count is its pressure. */
  lemma {:induction false} CountersAreExact(cfg: Config, policy: S.Policy, ticks: seq<Tick>, states: seq<State>, m: nat,
                                            k: string, a: Action)
    requires IsRun(cfg, policy, ticks, states) && m <= |ticks|
    ensures Carried(Tracked(states[m].ips, k), a) == Pressure(cfg, ticks, states, m, k, a)
  {
    hide Ticks, FromLog, CallsOn, DueOn;
    if m > 0 && k in states[m].ips {
      CountersAreExact(cfg, policy, ticks, states, m - 1, k, a);
      RunTick(cfg, policy, ticks, states, m - 1);
      if ticks[m - 1].Batch? {
        CountsInTick(cfg, policy, ticks, states, m - 1, k, a);
      } else {
        IdleTickKeeps(cfg, policy, states[m - 1], ticks[m - 1], states[m], k);
      }
    }
  }

  lemma CountsInTick(cfg: Config, policy: S.Policy, ticks: seq<Tick>, states: seq<State>, m: nat, k: string, a: Action)
    requires IsRun(cfg, policy, ticks, states) && m < |ticks| && ticks[m].Batch? && k in states[m + 1].ips
    requires Carried(Tracked(states[m].ips, k), a) == Pressure(cfg, ticks, states, m, k, a)
    ensures Carried(states[m + 1].ips[k], a) == Pressure(cfg, ticks, states, m + 1, k, a)
  {
    hide Ticks, Judge, Calls, Decayed, ApplyEffects, FromLog, Coherent;
    var tick := ticks[m];
    RunTick(cfg, policy, ticks, states, m);
    StandingInRun(cfg, policy, ticks, states, m, k, a);
    SurvivorWasJudged(cfg, policy, states[m], tick, states[m + 1], k);
    JudgementCounts(cfg, Folded(cfg, states[m], tick)[k], tick.now, k in tick.grants, a);
  }

  /** A record asks the budget on a tick for `a`: a call for it is due, and it was seen recently enough. */
  ghost predicate AsksOn(cfg: Config, ticks: seq<Tick>, states: seq<State>, m: nat, k: string, a: Action)
    requires |states| == |ticks| + 1 && m < |ticks|
  {
    && DueOn(cfg, ticks, states, m, k, a)
    && var rec := Standing(cfg, states[m], ticks[m], k);
       !(cfg.inactiveTTLSeconds > 0 && rec.lastSeen.Some? && ticks[m].now - rec.lastSeen.value > cfg.inactiveTTLSeconds)
  }

  lemma AskerIsDue(cfg: Config, policy: S.Policy, ticks: seq<Tick>, states: seq<State>, m: nat, k: string, a: Action)
    requires IsRun(cfg, policy, ticks, states) && m < |ticks| && CallsOn(cfg, states[m], ticks[m], k, a)
    ensures k in Askers(cfg, Folded(cfg, states[m], ticks[m]), ticks[m].now) <==> AsksOn(cfg, ticks, states, m, k, a)
  {
    hide Ticks, Judge, Calls, Decayed, ApplyEffects, FromLog, Coherent, AsksBudget, Desired;
    CountersAreExact(cfg, policy, ticks, states, m, k, a);
    StandingInRun(cfg, policy, ticks, states, m, k, a);
    JudgementAsks(cfg, Folded(cfg, states[m], ticks[m])[k], ticks[m].now, a);
  }

  lemma AskerCalls(cfg: Config, policy: S.Policy, ticks: seq<Tick>, states: seq<State>, m: nat, k: string)
    requires IsRun(cfg, policy, ticks, states) && m < |ticks| && ticks[m].Batch?
    requires k in Askers(cfg, Folded(cfg, states[m], ticks[m]), ticks[m].now)
    ensures exists a :: CallsOn(cfg, states[m], ticks[m], k, a)
  {
    hide Ticks, Judge, Calls, Decayed, ApplyEffects, FromLog, Coherent, AsksBudget, Desired;
    StandingInRun(cfg, policy, ticks, states, m, k, NoAction);
    var rec := Folded(cfg, states[m], ticks[m])[k];
    JudgementAsks(cfg, rec, ticks[m].now, NoAction);
    assert CallsOn(cfg, states[m], ticks[m], k, Desired(cfg, Decayed(cfg, rec, ticks[m].now), ticks[m].now));
  }

  lemma GrantedBecomes(cfg: Config, policy: S.Policy, ticks: seq<Tick>, states: seq<State>, m: nat, k: string, a: Action)
    requires IsRun(cfg, policy, ticks, states) && m < |ticks| && CallsOn(cfg, states[m], ticks[m], k, a)
    requires cfg.modelEnabled && k in ticks[m].grants
    ensures k in states[m + 1].ips ==> states[m + 1].ips[k].stage == a
    ensures a != NoAction ==> k in JudgeAll(cfg, Folded(cfg, states[m], ticks[m]), ticks[m].now, ticks[m].grants)
  {
    hide Judge, Calls, Decayed, ApplyEffects, FromLog, Coherent, AsksBudget, Desired;
    RunTick(cfg, policy, ticks, states, m);
    StandingInRun(cfg, policy, ticks, states, m, k, a);
    JudgementAsks(cfg, Folded(cfg, states[m], ticks[m])[k], ticks[m].now, a);
    if k in states[m + 1].ips { SurvivorWasJudged(cfg, policy, states[m], ticks[m], states[m + 1], k); }
  }

  /** Hysteresis is exact: on a processed tick of any run, the records that ask the budget for a change are
      those whose call is due, after the required number of processed ticks in a row or by an emergency; and
      one that is granted is in the action it called for. */
  lemma HysteresisIsExact(cfg: Config, policy: S.Policy, ticks: seq<Tick>, states: seq<State>, m: nat, k: string)
    requires IsRun(cfg, policy, ticks, states) && m < |ticks| && ticks[m].Batch?
    ensures k in Askers(cfg, Folded(cfg, states[m], ticks[m]), ticks[m].now)
            <==> exists a :: AsksOn(cfg, ticks, states, m, k, a)
    ensures forall a :: AsksOn(cfg, ticks, states, m, k, a) && cfg.modelEnabled && k in ticks[m].grants && k in states[m + 1].ips
              ==> states[m + 1].ips[k].stage == a
  {
    hide Calls, Askers, Ticks, FromLog, Standing;
    if k in Askers(cfg, Folded(cfg, states[m], ticks[m]), ticks[m].now) {
      AskerCalls(cfg, policy, ticks, states, m, k);
      var a :| CallsOn(cfg, states[m], ticks[m], k, a);
      AskerIsDue(cfg, policy, ticks, states, m, k, a);
    }
    forall a | AsksOn(cfg, ticks, states, m, k, a)
      ensures k in Askers(cfg, Folded(cfg, states[m], ticks[m]), ticks[m].now)
      ensures cfg.modelEnabled && k in ticks[m].grants && k in states[m + 1].ips ==> states[m + 1].ips[k].stage == a
    {
      AskerIsDue(cfg, policy, ticks, states, m, k, a);
      if cfg.modelEnabled && k in ticks[m].grants { GrantedBecomes(cfg, policy, ticks, states, m, k, a); }
    }
  }

  /** The records that ask the budget on tick m. */
  ghost function Callers(cfg: Config, ticks: seq<Tick>, states: seq<State>, m: nat): set<string>
    requires |states| == |ticks| + 1 && m < |ticks| && ticks[m].Batch?
  {
    set k | k in Folded(cfg, states[m], ticks[m]) && exists a :: AsksOn(cfg, ticks, states, m, k, a)
  }

  lemma CallersAsk(cfg: Config, policy: S.Policy, ticks: seq<Tick>, states: seq<State>, m: nat)
    requires IsRun(cfg, policy, ticks, states) && m < |ticks| && ticks[m].Batch?
    ensures Callers(cfg, ticks, states, m) == Askers(cfg, Folded(cfg, states[m], ticks[m]), ticks[m].now)
  {
    hide Ticks, FromLog, AsksOn, AsksBudget, ApplyEffects;
    forall k ensures k in Callers(cfg, ticks, states, m) <==> k in Askers(cfg, Folded(cfg, states[m], ticks[m]), ticks[m].now) {
      HysteresisIsExact(cfg, policy, ticks, states, m, k);
    }
  }

  /** The window of the budget is open at this time. */
  predicate Open(b: Budget, now: int) {
    b.windowStart.Some? && now - b.windowStart.value < 60
  }

  /** The window, or a new one, holds this many more changes. */
  predicate HasRoom(cfg: Config, b: Budget, now: int, changes: nat) {
    (if Open(b, now) then b.used else 0) + changes
    <= (if cfg.maxActionsPerMinute > 0 then cfg.maxActionsPerMinute else 300)
  }

  lemma RoomIsAvailable(cfg: Config, b: Budget, now: int, changes: nat)
    requires HasRoom(cfg, b, now, changes)
    ensures changes <= Available(b, Cap(cfg), now)
  {
  }

  /** The budget counts what it grants: a tick that grants nothing leaves it; another adds its grants to the open window
      or opens one with them. */
  lemma BudgetCountsGrants(cfg: Config, policy: S.Policy, ticks: seq<Tick>, states: seq<State>, m: nat)
    requires IsRun(cfg, policy, ticks, states) && m < |ticks| && ticks[m].Batch? && cfg.modelEnabled
    ensures var b, granted := states[m].budget, |ticks[m].grants|;
            states[m + 1].budget ==
            if granted == 0 then b
            else if Open(b, ticks[m].now) then Budget(b.windowStart, b.used + granted)
            else Budget(Some(ticks[m].now), granted)
  {
    hide Askers, JudgeAll, ValidEviction, ApplyEffects, Charge, FromLog;
    RunTick(cfg, policy, ticks, states, m);
    ChargeGrants(states[m].budget, Cap(cfg), ticks[m].now, |Askers(cfg, Folded(cfg, states[m], ticks[m]), ticks[m].now)|);
    ChargedNothing(states[m].budget, Cap(cfg), ticks[m].now);
  }

  lemma ChargedNothing(b: Budget, limit: int, now: int)
    ensures Charge(b, limit, now, 0) == b
  {
  }

  lemma AllGranted(cfg: Config, policy: S.Policy, ticks: seq<Tick>, states: seq<State>, m: nat)
    requires IsRun(cfg, policy, ticks, states) && m < |ticks| && ticks[m].Batch? && cfg.modelEnabled
    requires HasRoom(cfg, states[m].budget, ticks[m].now, |Callers(cfg, ticks, states, m)|)
    ensures ticks[m].grants == Callers(cfg, ticks, states, m)
  {
    RoomIsAvailable(cfg, states[m].budget, ticks[m].now, |Callers(cfg, ticks, states, m)|);
    hide Askers, AsksOn, JudgeAll, ValidEviction, Available, ApplyEffects;
    RunTick(cfg, policy, ticks, states, m);
    CallersAsk(cfg, policy, ticks, states, m);
    SameSize(ticks[m].grants, Callers(cfg, ticks, states, m));
  }

  lemma SameSize(a: set<string>, b: set<string>)
    requires a <= b
    ensures |a| == |b| ==> a == b
  {
    assert b == a + (b - a);
  }

  lemma KeptWithoutOverflow(cfg: Config, policy: S.Policy, before: State, tick: Tick, after: State, k: string)
    requires Ticks(cfg, policy, before, tick, after) && cfg.modelEnabled && tick.Batch?
    requires var judged := JudgeAll(cfg, Folded(cfg, before, tick), tick.now, tick.grants); k in judged && !Overflows(cfg, judged)
    ensures k in after.ips
  {
  }

  /** So a due call is answered: while the window holds enough for all callers, and the table for all records,
      each of them is in the action it called for right after the tick. */
  lemma DueCallIsAnswered(cfg: Config, policy: S.Policy, ticks: seq<Tick>, states: seq<State>, m: nat, k: string, a: Action)
    requires IsRun(cfg, policy, ticks, states) && m < |ticks| && cfg.modelEnabled && AsksOn(cfg, ticks, states, m, k, a)
    requires HasRoom(cfg, states[m].budget, ticks[m].now, |Callers(cfg, ticks, states, m)|)
    requires !Overflows(cfg, JudgeAll(cfg, Folded(cfg, states[m], ticks[m]), ticks[m].now, ticks[m].grants))
    requires a != NoAction
    ensures k in states[m + 1].ips && states[m + 1].ips[k].stage == a
  {
    hide Ticks, FromLog, Judge, JudgeAll, Calls, HasRoom, Overflows;
    AllGranted(cfg, policy, ticks, states, m);
    GrantedBecomes(cfg, policy, ticks, states, m, k, a);
    RunTick(cfg, policy, ticks, states, m);
    KeptWithoutOverflow(cfg, policy, states[m], ticks[m], states[m + 1], k);
  }

  // ---- A steady call ---------------------------------------------------------------------------------

  function Processed(ticks: seq<Tick>, i: nat, j: nat): nat
    requires i <= j <= |ticks|
  {
    if i == j then 0 else Processed(ticks, i, j - 1) + (if ticks[j - 1].Batch? then 1 else 0)
  }

  /** On every processed tick from i to j the record, tracked in between, calls for `a`. */
  ghost predicate Steady(cfg: Config, ticks: seq<Tick>, states: seq<State>, i: nat, j: nat, k: string, a: Action)
    requires |states| == |ticks| + 1 && i <= j <= |ticks|
  {
    && (forall n :: i <= n < j && ticks[n].Batch? ==> CallsOn(cfg, states[n], ticks[n], k, a))
    && (forall n :: i < n < j ==> k in states[n].ips)
  }

  lemma {:induction false} PressureBuilds(cfg: Config, ticks: seq<Tick>, states: seq<State>, i: nat, j: nat, k: string, a: Action)
    requires |states| == |ticks| + 1 && i <= j <= |ticks| && Steady(cfg, ticks, states, i, j, k, a)
    requires i < j ==> k in states[j].ips
    requires forall n :: i <= n < j ==> !DueOn(cfg, ticks, states, n, k, a)
    ensures Pressure(cfg, ticks, states, j, k, a) >= Processed(ticks, i, j)
    decreases j
  {
    hide CallsOn, DueOn;
    if i < j { PressureBuilds(cfg, ticks, states, i, j - 1, k, a); }
  }

  /** A call is not ignored: a record that calls for the same action on the required number of processed ticks
      in a row asks the budget for it on one of them, whatever happened before. */
  lemma {:induction false} SteadyCallComesDue(cfg: Config, ticks: seq<Tick>, states: seq<State>, i: nat, j: nat, k: string, a: Action)
    returns (n: nat)
    requires |states| == |ticks| + 1 && i <= j <= |ticks| && Steady(cfg, ticks, states, i, j, k, a)
    requires Processed(ticks, i, j) >= Max(1, cfg.promotionConsecutiveTicks)
    ensures i <= n < j && DueOn(cfg, ticks, states, n, k, a)
    decreases j
  {
    hide CallsOn;
    if n' :| i <= n' < j && DueOn(cfg, ticks, states, n', k, a) {
      n := n';
    } else if !ticks[j - 1].Batch? {
      n := SteadyCallComesDue(cfg, ticks, states, i, j - 1, k, a);
    } else {
      PressureBuilds(cfg, ticks, states, i, j - 1, k, a);
      n := j - 1;
    }
  }
}
