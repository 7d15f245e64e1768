/** Safety of whole sentinel runs: promotion needs evidence, de-escalation waits, actions are
    rationed, scores are bounded. */
module SentinelSafety {
  import opened Basics
  import opened Sentinel
  import opened ActionBudget
  import opened SentinelRuns
  import D = SentinelDecay
  import S = Suggestions

  // ---- Coherence -------------------------------------------------------------------

  /** Stage equals LastAction after each tick and any ranked action has its timestamp. */
  lemma RunsStayCoherent(cfg: Config, policy: S.Policy, ticks: seq<Tick>, states: seq<State>, m: nat, k: string)
    requires IsRun(cfg, policy, ticks, states) && m <= |ticks| && k in states[m].ips
    ensures Coherent(states[m].ips[k])
  {
    RecordsAreLives(cfg, policy, ticks, states, m, k);
    LiveIsCoherent(cfg, LifeOf(ticks, states, m, k));
  }

  predicate DropsOn(tick: Tick, k: string) {
    tick.Batch? && exists e <- tick.effects :: e.key == k && e.event.Dropped?
  }

  /** What log events other than an immediate drop leave alone. */
  predicate SameLadder(a: Record, b: Record) {
    && a.stage == b.stage
    && a.lastAction == b.lastAction
    && a.lastActionAt == b.lastActionAt
    && SameCandidate(a, b)
  }

  predicate SameCandidate(a: Record, b: Record) {
    a.candidateAction == b.candidateAction && a.candidateCount == b.candidateCount
  }

  lemma {:induction false} EffectsKeepLadder(cfg: Config, ips: Table, effects: seq<Effect>, k: string)
    ensures SameCandidate(Tracked(ips, k), Tracked(ApplyEffects(cfg, ips, effects), k))
    ensures (forall e <- effects :: e.key == k ==> !e.event.Dropped?)
            ==> SameLadder(Tracked(ips, k), Tracked(ApplyEffects(cfg, ips, effects), k))
  {
    if effects != [] {
      EffectsKeepLadder(cfg, ips, effects[..|effects| - 1], k);
    }
  }

  // ---- De-escalation -----------------------------------------------------------------

  /** The rank falls although the cooldown since LastActionAt is still running. */
  predicate FallsInCooldown(cfg: Config, before: Record, after: Record, now: int) {
    RunsCooldown(cfg, before, now) && StageRank(after.stage) < StageRank(before.stage)
  }

  predicate RunsCooldown(cfg: Config, rec: Record, now: int) {
    cfg.actionCooldownSeconds > 0 && rec.lastActionAt.Some? && now - rec.lastActionAt.value < cfg.actionCooldownSeconds
  }

  /** The log second the last immediate drop of this key was stamped with. */
  function LastDropStamp(effects: seq<Effect>, k: string): Option<int> {
    if effects == [] then None
    else
      var n := |effects| - 1;
      if effects[n].key == k && effects[n].event.Dropped? then Some(effects[n].event.when)
      else LastDropStamp(effects[..n], k)
  }

  lemma {:induction false} StampMeansDrop(effects: seq<Effect>, k: string)
    ensures LastDropStamp(effects, k).Some? <==> exists e <- effects :: e.key == k && e.event.Dropped?
  {
    if effects != [] {
      var n := |effects| - 1;
      StampMeansDrop(effects[..n], k);
      assert effects == effects[..n] + [effects[n]];
    }
  }

  /** What a tick's log events leave of the ladder fields: the last immediate drop decides. */
  lemma {:induction false} FoldedLadder(cfg: Config, ips: Table, effects: seq<Effect>, k: string)
    ensures var rec, out, w := Tracked(ips, k), Tracked(ApplyEffects(cfg, ips, effects), k), LastDropStamp(effects, k);
            && (w.None? ==> SameLadder(rec, out))
            && (w.Some? ==> out.stage == Drop == out.lastAction && out.lastActionAt == w)
  {
    if effects != [] {
      hide ApplyEffect, Tracked;
      var front, e := effects[..|effects| - 1], effects[|effects| - 1];
      FoldedLadder(cfg, ips, front, k);
      LadderStep(cfg, ApplyEffects(cfg, ips, front), e, k);
    }
  }

  lemma LadderStep(cfg: Config, ips: Table, e: Effect, k: string)
    ensures var rec, out := Tracked(ips, k), Tracked(ApplyEffect(cfg, ips, e), k);
            if e.key == k && e.event.Dropped? then
              out.stage == Drop == out.lastAction && out.lastActionAt == Some(e.event.when)
            else SameLadder(rec, out)
  {
  }

  /** The stage a judgement settles on, when a grant is only ever given to a record that asks. */
  lemma JudgedStageIs(cfg: Config, rec: Record, now: int, granted: bool)
    requires Coherent(rec) && Judge(cfg, rec, now, granted).Some? && (granted ==> AsksBudget(cfg, rec, now))
    ensures Judge(cfg, rec, now, granted).value.stage
            == if granted then Wanted(cfg, Decayed(cfg, rec, now)) else rec.stage
    ensures granted && rec.lastActionAt.Some?
            ==> !IsCooldownDeescalation(cfg, rec.stage, Wanted(cfg, Decayed(cfg, rec, now)), rec.lastActionAt, now)
  {
    var d := Decayed(cfg, rec, now);
    assert CurrentAction(d) == d.stage == rec.stage;
  }

  /** What makes a tick lower a record's rank inside its cooldown, in terms of the stage it had, the stamp
      of the last immediate drop, what the decayed folded record wants and the budget's grant: a
      temp-banned record falls unless it is put back; any other only if the drop is stamped at least a
      cooldown ago. */
  predicate DropUndercuts(cfg: Config, stage: Action, stamp: int, wanted: Action, granted: bool, now: int) {
    if stage == TempBan then !(wanted == TempBan && granted)
    else granted && StageRank(wanted) < StageRank(stage) && now - stamp >= cfg.actionCooldownSeconds
  }

  lemma JudgedFall(cfg: Config, rec: Record, folded: Record, stamp: Option<int>, now: int, granted: bool)
    requires Coherent(rec) && Coherent(folded) && cfg.actionCooldownSeconds > 0
    requires stamp.None? ==> SameLadder(rec, folded)
    requires stamp.Some? ==> folded.stage == Drop && folded.lastActionAt == stamp
    requires Judge(cfg, folded, now, granted).Some? && (granted ==> AsksBudget(cfg, folded, now))
    requires rec.lastActionAt.Some? && now - rec.lastActionAt.value < cfg.actionCooldownSeconds
    ensures StageRank(Judge(cfg, folded, now, granted).value.stage) < StageRank(rec.stage)
            <==> stamp.Some?
                 && DropUndercuts(cfg, rec.stage, stamp.value, Wanted(cfg, Decayed(cfg, folded, now)), granted, now)
  {
    JudgedStageIs(cfg, folded, now, granted);
  }

  lemma FoldKeepsCoherence(cfg: Config, ips: Table, effects: seq<Effect>, k: string)
    requires Coherent(Tracked(ips, k)) && forall e <- effects :: !e.event.Judged?
    ensures Coherent(Tracked(ApplyEffects(cfg, ips, effects), k))
  {
    FoldedLadder(cfg, ips, effects, k);
    EffectsKeepLadder(cfg, ips, effects, k);
  }

  /** When a record falls early, over every run: a record that stays tracked loses rank inside its cooldown
      if and only if an immediate drop hit it in that tick and undercut the cooldown. */
  lemma EarlyFallExactly(cfg: Config, policy: S.Policy, ticks: seq<Tick>, states: seq<State>, m: nat, k: string)
    requires IsRun(cfg, policy, ticks, states) && m < |ticks|
    requires k in states[m].ips && k in states[m + 1].ips
    ensures FallsInCooldown(cfg, states[m].ips[k], states[m + 1].ips[k], ticks[m].now)
            <==> && RunsCooldown(cfg, states[m].ips[k], ticks[m].now)
                 && DropsOn(ticks[m], k)
                 && DropUndercuts(cfg, states[m].ips[k].stage, StampOn(ticks[m], k),
                                  WantedOn(cfg, states[m], ticks[m], k), k in ticks[m].grants, ticks[m].now)
  {
    RunsStayCoherent(cfg, policy, ticks, states, m, k);
    assert Ticks(cfg, policy, states[m], ticks[m], states[m + 1]);
    if ticks[m].Batch? && RunsCooldown(cfg, states[m].ips[k], ticks[m].now) {
      var folded := Folded(cfg, states[m], ticks[m]);
      FoldedLadder(cfg, states[m].ips, ticks[m].effects, k);
      StampMeansDrop(ticks[m].effects, k);
      FoldKeepsCoherence(cfg, states[m].ips, ticks[m].effects, k);
      SurvivorWasJudged(cfg, policy, states[m], ticks[m], states[m + 1], k);
      JudgedFall(cfg, states[m].ips[k], folded[k], LastDropStamp(ticks[m].effects, k), ticks[m].now, k in ticks[m].grants);
    }
  }

  function StampOn(tick: Tick, k: string): int
    requires DropsOn(tick, k)
  {
    StampMeansDrop(tick.effects, k);
    LastDropStamp(tick.effects, k).value
  }

  /** What the record wants once the tick's events are folded in and it has decayed to the tick's time. */
  function WantedOn(cfg: Config, before: State, tick: Tick, k: string): Action
    requires DropsOn(tick, k)
  {
    Wanted(cfg, Decayed(cfg, Tracked(ApplyEffects(cfg, before.ips, tick.effects), k), tick.now))
  }

  /** Without an immediate drop in the tick a record that stays tracked falls only once its cooldown is over. */
  lemma NoEarlyDeescalation(cfg: Config, policy: S.Policy, ticks: seq<Tick>, states: seq<State>, m: nat, k: string)
    requires IsRun(cfg, policy, ticks, states) && m < |ticks|
    requires k in states[m].ips && k in states[m + 1].ips
    requires StageRank(states[m + 1].ips[k].stage) < StageRank(states[m].ips[k].stage)
    requires !DropsOn(ticks[m], k)
    requires cfg.actionCooldownSeconds > 0
    ensures states[m].ips[k].lastActionAt.Some?
    ensures ticks[m].now - states[m].ips[k].lastActionAt.value >= cfg.actionCooldownSeconds
  {
    RunsStayCoherent(cfg, policy, ticks, states, m, k);
    EarlyFallExactly(cfg, policy, ticks, states, m, k);
    FallsLate(cfg, states[m].ips[k], states[m + 1].ips[k], ticks[m].now);
  }

  lemma FallsLate(cfg: Config, before: Record, after: Record, now: int)
    requires Coherent(before) && cfg.actionCooldownSeconds > 0
    requires StageRank(after.stage) < StageRank(before.stage) && !FallsInCooldown(cfg, before, after, now)
    ensures before.lastActionAt.Some? && now - before.lastActionAt.value >= cfg.actionCooldownSeconds
  {
  }

  // ---- Promotion --------------------------------------------------------------------------

  /** The tick asked for hard action `a` on this record and had the signals for it. */
  ghost predicate Supports(cfg: Config, before: State, tick: Tick, k: string, a: Action) {
    && tick.Batch?
    && k in Folded(cfg, before, tick)
    && SupportedBy(cfg, Decayed(cfg, Folded(cfg, before, tick)[k], tick.now), a)
  }

  predicate SupportedBy(cfg: Config, decayed: Record, a: Action) {
    Wanted(cfg, decayed) == a && |StrongSignals(decayed.topSignals)| >= cfg.promotionMinSignals
  }

  /** The tick held an emergency signal for this record. */
  ghost predicate EmergencyOn(cfg: Config, before: State, tick: Tick, k: string) {
    && tick.Batch?
    && k in Folded(cfg, before, tick)
    && HasEmergencySignal(Decayed(cfg, Folded(cfg, before, tick)[k], tick.now).topSignals)
  }

  /** How many processed ticks in a row, up to tick m and within the record's present life, supported `a`;
      skipped ticks do not count, and a key that is not tracked starts over. */
  ghost function Streak(cfg: Config, ticks: seq<Tick>, states: seq<State>, m: nat, k: string, a: Action): nat
    requires |states| == |ticks| + 1 && m <= |ticks|
  {
    if m == 0 || k !in states[m].ips then 0
    else if !ticks[m - 1].Batch? then Streak(cfg, ticks, states, m - 1, k, a)
    else if Supports(cfg, states[m - 1], ticks[m - 1], k, a) then Streak(cfg, ticks, states, m - 1, k, a) + 1
    else 0
  }

  /** One judgement: a running candidate was wanted and supported, and a newly entered hard action
      had an emergency or a full count of support. */
  lemma JudgementNeedsSupport(cfg: Config, rec: Record, now: int, granted: bool)
    requires cfg.promotionMinSignals >= 2 && rec.candidateCount >= 0
    requires Judge(cfg, rec, now, granted).Some?
    ensures var out, d := Judge(cfg, rec, now, granted).value, Decayed(cfg, rec, now);
            var carried := if rec.candidateAction == Wanted(cfg, d) then rec.candidateCount else 0;
            && (out.candidateCount > 0 && Hard(out.candidateAction) ==>
                  SupportedBy(cfg, d, out.candidateAction) && out.candidateCount == carried + 1)
            && (Hard(out.stage) && out.stage != CurrentAction(rec) ==>
                  HasEmergencySignal(d.topSignals)
                  || (SupportedBy(cfg, d, out.stage) && carried + 1 >= RequiredTicks(cfg)))
  {
    hide Pow, DecayBy, DecayedSignals, StrongSignals, HasEmergencySignal, SelectStage, IsCooldownDeescalation;
  }

  /** Hysteresis counters never overstate the support seen. */
  lemma {:induction false} CountersAreEarned(cfg: Config, policy: S.Policy, ticks: seq<Tick>, states: seq<State>, m: nat, k: string)
    requires IsRun(cfg, policy, ticks, states) && m <= |ticks| && cfg.promotionMinSignals >= 2
    ensures var rec := Tracked(states[m].ips, k);
            Hard(rec.candidateAction) ==> rec.candidateCount <= Streak(cfg, ticks, states, m, k, rec.candidateAction)
  {
    if m > 0 && k in states[m].ips {
      var tick := ticks[m - 1];
      assert Ticks(cfg, policy, states[m - 1], tick, states[m]);
      CountersAreEarned(cfg, policy, ticks, states, m - 1, k);
      if tick.Batch? {
        RunsStayCoherentFolded(cfg, policy, ticks, states, m - 1, k);
        SurvivorWasJudged(cfg, policy, states[m - 1], tick, states[m], k);
        EffectsKeepLadder(cfg, states[m - 1].ips, tick.effects, k);
        JudgementNeedsSupport(cfg, Folded(cfg, states[m - 1], tick)[k], tick.now, k in tick.grants);
      }
    }
  }

  lemma RunsStayCoherentFolded(cfg: Config, policy: S.Policy, ticks: seq<Tick>, states: seq<State>, m: nat, k: string)
    requires IsRun(cfg, policy, ticks, states) && m <= |ticks|
    ensures Coherent(Tracked(states[m].ips, k))
  {
    if k in states[m].ips { RunsStayCoherent(cfg, policy, ticks, states, m, k); }
  }

  /** The record newly entered hard action `a` in tick m. */
  ghost predicate NewlyEnters(states: seq<State>, m: nat, k: string, a: Action)
    requires m + 1 < |states|
  {
    && k in states[m + 1].ips
    && states[m + 1].ips[k].stage == a
    && (k in states[m].ips ==> states[m].ips[k].stage != a)
  }

  /** No promotion without evidence: a record newly enters drop or temp_ban only by an immediate drop,
      on a tick that holds an emergency signal for it, or after the required number of consecutive
      ticks that each wanted that same action with enough strong signals. */
  lemma PromotionNeedsEvidence(cfg: Config, policy: S.Policy, ticks: seq<Tick>, states: seq<State>, m: nat, k: string, a: Action)
    requires IsRun(cfg, policy, ticks, states) && m < |ticks| && cfg.promotionMinSignals >= 2
    requires Hard(a) && NewlyEnters(states, m, k, a)
    ensures || DropsOn(ticks[m], k)
            || EmergencyOn(cfg, states[m], ticks[m], k)
            || Streak(cfg, ticks, states, m + 1, k, a) >= RequiredTicks(cfg)
  {
    var tick := ticks[m];
    assert Ticks(cfg, policy, states[m], tick, states[m + 1]);
    if !DropsOn(tick, k) && tick.Batch? {
      var rec := Folded(cfg, states[m], tick)[k];
      RunsStayCoherentFolded(cfg, policy, ticks, states, m, k);
      CountersAreEarned(cfg, policy, ticks, states, m, k);
      EffectsKeepLadder(cfg, states[m].ips, tick.effects, k);
      SurvivorWasJudged(cfg, policy, states[m], tick, states[m + 1], k);
      JudgementNeedsSupport(cfg, rec, tick.now, k in tick.grants);
    }
  }

  // ---- The action budget over runs -----------------------------------------------------

  /** A record changes stage in a tick only by an immediate drop or by a grant of the budget. */
  lemma ChangeNeedsGrant(cfg: Config, policy: S.Policy, ticks: seq<Tick>, states: seq<State>, m: nat, k: string)
    requires IsRun(cfg, policy, ticks, states) && m < |ticks|
    requires k in states[m + 1].ips && states[m + 1].ips[k].stage != Tracked(states[m].ips, k).stage
    requires !DropsOn(ticks[m], k)
    ensures ticks[m].Batch? && k in ticks[m].grants
  {
    assert Ticks(cfg, policy, states[m], ticks[m], states[m + 1]);
    RunsStayCoherentFolded(cfg, policy, ticks, states, m, k);
    if ticks[m].Batch? {
      var rec := Folded(cfg, states[m], ticks[m])[k];
      EffectsKeepLadder(cfg, states[m].ips, ticks[m].effects, k);
      SurvivorWasJudged(cfg, policy, states[m], ticks[m], states[m + 1], k);
      assert Coherent(rec) && rec.stage == Tracked(states[m].ips, k).stage;
      if k !in ticks[m].grants { RefusalKeepsStage(cfg, rec, ticks[m].now); }
    }
  }

  predicate ClockNeverRunsBack(ticks: seq<Tick>) {
    forall i, j :: 0 <= i < j < |ticks| ==> ticks[i].now <= ticks[j].now
  }

  function GrantCount(tick: Tick): nat {
    if tick.Batch? then |tick.grants| else 0
  }

  /** Budgeted action changes, tick by tick. */
  function GrantCounts(ticks: seq<Tick>): (counts: seq<nat>)
    ensures |counts| == |ticks|
    ensures forall m :: 0 <= m < |ticks| ==> counts[m] == GrantCount(ticks[m])
  {
    if ticks == [] then [] else [GrantCount(ticks[0])] + GrantCounts(ticks[1..])
  }

  ghost function LoadOf(cfg: Config, before: State, tick: Tick): Load {
    Load(tick.now, if tick.Batch? then |Askers(cfg, Folded(cfg, before, tick), tick.now)| else 0)
  }

  ghost function Loads(cfg: Config, ticks: seq<Tick>, states: seq<State>): (loads: seq<Load>)
    requires |ticks| <= |states|
    ensures |loads| == |ticks|
    ensures forall m :: 0 <= m < |ticks| ==> loads[m] == LoadOf(cfg, states[m], ticks[m])
  {
    if ticks == [] then [] else [LoadOf(cfg, states[0], ticks[0])] + Loads(cfg, ticks[1..], states[1..])
  }

  function Budgets(states: seq<State>): (budgets: seq<Budget>)
    ensures |budgets| == |states|
    ensures forall m :: 0 <= m < |states| ==> budgets[m] == states[m].budget
  {
    if states == [] then [] else [states[0].budget] + Budgets(states[1..])
  }

  lemma TickIsMetered(cfg: Config, policy: S.Policy, before: State, tick: Tick, after: State)
    requires Ticks(cfg, policy, before, tick, after) && cfg.modelEnabled
    ensures MeterStep(before.budget, Cap(cfg), LoadOf(cfg, before, tick), GrantCount(tick), after.budget)
  {
  }

  lemma RunIsMetered(cfg: Config, policy: S.Policy, ticks: seq<Tick>, states: seq<State>)
    requires IsRun(cfg, policy, ticks, states) && cfg.modelEnabled
    ensures Metered(Budgets(states), Cap(cfg), Loads(cfg, ticks, states), GrantCounts(ticks))
  {
    var budgets, loads, counts := Budgets(states), Loads(cfg, ticks, states), GrantCounts(ticks);
    forall m | 0 <= m < |loads|
      ensures MeterStep(budgets[m], Cap(cfg), loads[m], counts[m], budgets[m + 1])
    {
      TickIsMetered(cfg, policy, states[m], ticks[m], states[m + 1]);
    }
  }

  lemma CapInNumbers(cfg: Config, span: nat)
    ensures var limit := if cfg.maxActionsPerMinute > 0 then cfg.maxActionsPerMinute else 300;
            SpanCap(Cap(cfg), span) == limit * ((span + 59) / 60 + 1)
  {
  }

  lemma SpanIsRationed(cfg: Config, policy: S.Policy, ticks: seq<Tick>, states: seq<State>, i: nat, j: nat, span: nat)
    requires IsRun(cfg, policy, ticks, states) && cfg.modelEnabled && ClockNeverRunsBack(ticks)
    requires i < j <= |ticks| && ticks[j - 1].now <= ticks[i].now + span
    ensures Sum(GrantCounts(ticks)[i..j]) <= SpanCap(Cap(cfg), span)
  {
    var loads := Loads(cfg, ticks, states);
    RunIsMetered(cfg, policy, ticks, states);
    assert forall m :: 0 <= m < |ticks| ==> loads[m].now == ticks[m].now;
    MeteredSpan(Budgets(states), Cap(cfg), loads, GrantCounts(ticks), i, j, span);
  }

  /** Rationing: with the model enabled and a clock that never runs back, any ticks of a run that
      span at most `span` seconds change at most limit * (ceil(span / 60) + 1) actions. */
  lemma ActionsAreRationed(cfg: Config, policy: S.Policy, ticks: seq<Tick>, states: seq<State>, i: nat, j: nat, span: nat)
    requires IsRun(cfg, policy, ticks, states) && cfg.modelEnabled && ClockNeverRunsBack(ticks)
    requires i < j <= |ticks| && ticks[j - 1].now <= ticks[i].now + span
    ensures var limit := if cfg.maxActionsPerMinute > 0 then cfg.maxActionsPerMinute else 300;
            Sum(GrantCounts(ticks)[i..j]) <= limit * ((span + 59) / 60 + 1)
  {
    hide *;
    SpanIsRationed(cfg, policy, ticks, states, i, j, span);
    CapInNumbers(cfg, span);
  }

  // ---- Scores over runs --------------------------------------------------------------------

  /** In any run, a record whose own steps came in order and without immediate drops shows exactly
      the decayed sum of its weights, hence never more than cap / (1 - r). */
  lemma RunScoresAreClosedForm(cfg: Config, policy: S.Policy, ticks: seq<Tick>, states: seq<State>, m: nat, k: string, cap: real, t: int)
    requires IsRun(cfg, policy, ticks, states) && m <= |ticks| && k in states[m].ips
    requires 0.0 < cfg.retention < 1.0 && cap >= 0.0
    requires var life := LifeOf(ticks, states, m, k);
             && D.Chronological(life) && D.NoImmediateDrop(life)
             && (forall e <- life :: e.when <= t)
             && (forall s :: D.InSecond(D.Weights(life), s) <= cap)
    ensures ScoreAt(cfg, states[m].ips[k], t)
            == D.DecayedSum(cfg.retention, D.Weights(LifeOf(ticks, states, m, k)), t)
            <= cap / (1.0 - cfg.retention)
  {
    var life := LifeOf(ticks, states, m, k);
    RecordsAreLives(cfg, policy, ticks, states, m, k);
    D.ScoreIsClosedForm(cfg, life, t);
    D.ScoreCeiling(cfg, life, cap, t);
  }
}
