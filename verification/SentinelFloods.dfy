/** Runs in which an immediate drop lowers a record's rank inside its cooldown: one for each way the exact
    condition of SentinelSafety allows. */
module SentinelFloods {
  import opened Basics
  import opened Sentinel
  import opened ActionBudget
  import opened SentinelRuns
  import opened SentinelSafety
  import S = Suggestions
  import L = SuggestionLifecycle

  /** Scores halve every second; one signal and one tick are enough; the cooldown is two seconds. */
  const HALVING := Config(
    modelEnabled := true, retention := 0.5,
    watchThreshold := 1.0, throttleThreshold := 2.0, dropThreshold := 6.0, tempBanThreshold := 12.0,
    promotionMinSignals := 1, promotionConsecutiveTicks := 1, actionCooldownSeconds := 2,
    holdSeconds := 60, inactiveTTLSeconds := 0, maxActiveIPs := 0, maxActionsPerMinute := 10)

  const RPS := "signal_rps"

  // ---- Ticks with a single event -------------------------------------------------------------------

  ghost function Only(policy: S.Policy, before: State, now: int, k: string, out: Record, granted: bool): State {
    State(map[k := out], Charge(before.budget, Cap(HALVING), now, if granted then 1 else 0),
          L.Build(policy, map[], before.suggestions, now))
  }

  function TickOf(now: int, k: string, e: Event, granted: bool): Tick {
    Batch(now, [Effect(k, e)], map[], if granted then {k} else {})
  }

  lemma FoldsOne(ips: Table, k: string, e: Event)
    requires ips.Keys <= {k}
    ensures ApplyEffects(HALVING, ips, [Effect(k, e)]) == map[k := Absorb(HALVING, Tracked(ips, k), e)]
  {
    assert [Effect(k, e)][..0] == [];
    assert ApplyEffects(HALVING, ips, []) == ips;
  }

  lemma JudgesOne(k: string, f: Record, now: int, granted: bool, out: Record)
    requires AsksBudget(HALVING, f, now) == granted && Judge(HALVING, f, now, granted) == Some(out)
    ensures Askers(HALVING, map[k := f], now) == if granted then {k} else {}
    ensures JudgeAll(HALVING, map[k := f], now, if granted then {k} else {}) == map[k := out]
  {
    var table: Table := map[k := f];
    assert forall x :: x in table ==> x == k;
  }

  /** A tick that sees one event of the only key, and grants its change if there is one to grant. */
  lemma SingleTick(policy: S.Policy, before: State, now: int, k: string, e: Event, f: Record, granted: bool, out: Record)
    requires before.ips.Keys <= {k} && !e.Judged? && f == Absorb(HALVING, Tracked(before.ips, k), e)
    requires AsksBudget(HALVING, f, now) == granted && Judge(HALVING, f, now, granted) == Some(out)
    requires granted ==> Available(before.budget, Cap(HALVING), now) > 0
    ensures Ticks(HALVING, policy, before, TickOf(now, k, e, granted), Only(policy, before, now, k, out, granted))
    ensures FromLog(TickOf(now, k, e, granted))
  {
    hide L.Build, Charge, Judge, AsksBudget, Absorb, ApplyEffects, JudgeAll, Askers, Available;
    FoldsOne(before.ips, k, e);
    JudgesOne(k, f, now, granted, out);
  }

  // ---- Powers of a half ----------------------------------------------------------------------------

  lemma Halves()
    ensures Pow(0.5, 1) == 0.5 && Pow(0.5, 3) == 0.125
  {
    assert Pow(0.5, 0) == 1.0;
    assert Pow(0.5, 1) == 0.5 * Pow(0.5, 0);
    assert Pow(0.5, 2) == 0.5 * Pow(0.5, 1);
    assert Pow(0.5, 3) == 0.5 * Pow(0.5, 2);
  }

  /** A burst at second 100 on a new record, judged at once and granted. */
  function Burst(weight: real, stage: Action): Record {
    Record(weight, Clamp(weight, 0.0, 100.0), Clamp(100.0 - Clamp(weight, 0.0, 100.0), 0.0, 100.0), "",
           Some(100), Some(100), Some(100), stage, Some(ActionExpiry(HALVING, 100, stage)), map[RPS := weight],
           stage, Some(100), NoAction, 0)
  }

  lemma BurstJudged(weight: real)
    requires weight >= 6.0
    ensures var f, stage := Absorb(HALVING, NEW_RECORD, Scored(100, weight, RPS)), SelectStage(HALVING, weight);
            AsksBudget(HALVING, f, 100) && Judge(HALVING, f, 100, true) == Some(Burst(weight, stage))
  {
    var f := Absorb(HALVING, NEW_RECORD, Scored(100, weight, RPS));
    assert f.score == weight && f.topSignals == map[RPS := weight] && Decayed(HALVING, f, 100) == f;
  }

  /** The signals of a burst record once an immediate drop has added its own, three seconds later. */
  lemma SignalsAfterDrop(weight: real, factor: real)
    requires weight >= 6.0 && 0.1 <= factor <= 1.0
    ensures var signals := DecayedSignals(map[RPS := weight][EMERGENCY_DROP := 1.0], factor);
            EMERGENCY_DROP in signals && HasEmergencySignal(signals)
  {
    assert EMERGENCY_PREFIX <= EMERGENCY_DROP;
    assert EMERGENCY_DROP != RPS by { assert EMERGENCY_DROP[7] == 'e' && RPS[7] == 'r'; }
  }

  /** A drop stamped 98 on a record put in drop at 100: judged at 101 the cooldown counts as over. */
  lemma OldStampJudged() returns (burst: Record, last: Record)
    ensures burst == Burst(7.0, SelectStage(HALVING, 7.0)) && burst.stage == Drop && last.stage == NoAction
    ensures var f := ForceDrop(HALVING, burst, 98);
            AsksBudget(HALVING, f, 101) && Judge(HALVING, f, 101, true) == Some(last)
    ensures FallsInCooldown(HALVING, burst, last, 101)
  {
    burst := Burst(7.0, Drop);
    Halves();
    SignalsAfterDrop(7.0, 0.125);
    var f := ForceDrop(HALVING, burst, 98);
    assert f.topSignals == map[RPS := 7.0][EMERGENCY_DROP := 1.0];
    var d := Decayed(HALVING, f, 101);
    assert d.score == 0.875 && HasEmergencySignal(d.topSignals);
    assert Wanted(HALVING, d) == NoAction && Desired(HALVING, d, 101) == NoAction;
    last := Judge(HALVING, f, 101, true).value;
  }

  /** A drop stamped 100 on a record banned at 100: by 101 the score no longer asks for the ban. */
  lemma BanNotRestored() returns (burst: Record, last: Record)
    ensures burst == Burst(13.0, SelectStage(HALVING, 13.0)) && burst.stage == TempBan && last.stage == Drop
    ensures var f := ForceDrop(HALVING, burst, 100);
            !AsksBudget(HALVING, f, 101) && Judge(HALVING, f, 101, false) == Some(last)
    ensures FallsInCooldown(HALVING, burst, last, 101)
  {
    burst := Burst(13.0, TempBan);
    Halves();
    var f := ForceDrop(HALVING, burst, 100);
    var d := Decayed(HALVING, f, 101);
    assert d.score == 6.5;
    assert Wanted(HALVING, d) == Drop && Desired(HALVING, d, 101) == Drop;
    last := Judge(HALVING, f, 101, false).value;
  }

  // ---- The runs --------------------------------------------------------------------------------------

  /** A burst, then an immediate drop of the same key in the next second. */
  ghost predicate BurstThenDrop(cfg: Config, policy: S.Policy, ticks: seq<Tick>, states: seq<State>, k: string, stamp: int) {
    && IsRun(cfg, policy, ticks, states) && |ticks| == 2
    && k in states[1].ips && k in states[2].ips
    && ticks[1].Batch? && ticks[1].now == 101 && ticks[1].effects == [Effect(k, Dropped(stamp))]
  }

  lemma RunOfTwo(cfg: Config, policy: S.Policy, ticks: seq<Tick>, states: seq<State>)
    requires |ticks| == 2 && |states| == 3 && states[0] == INITIAL
    requires Ticks(cfg, policy, states[0], ticks[0], states[1]) && FromLog(ticks[0])
    requires Ticks(cfg, policy, states[1], ticks[1], states[2]) && FromLog(ticks[1])
    ensures IsRun(cfg, policy, ticks, states)
  {
    hide Ticks, FromLog;
    forall m | 0 <= m < |ticks| ensures Ticks(cfg, policy, states[m], ticks[m], states[m + 1]) && FromLog(ticks[m]) {
      assert m == 0 || m == 1;
    }
  }

  lemma TwoTicks(cfg: Config, policy: S.Policy, t0: Tick, s1: State, t1: Tick, s2: State, k: string, stamp: int)
    returns (ticks: seq<Tick>, states: seq<State>)
    requires Ticks(cfg, policy, INITIAL, t0, s1) && FromLog(t0)
    requires Ticks(cfg, policy, s1, t1, s2) && FromLog(t1)
    requires t1.Batch? && t1.now == 101 && t1.effects == [Effect(k, Dropped(stamp))]
    requires k in s1.ips && k in s2.ips
    ensures BurstThenDrop(cfg, policy, ticks, states, k, stamp) && states[1] == s1 && states[2] == s2
  {
    hide Ticks, FromLog;
    ticks, states := [t0, t1], [INITIAL, s1, s2];
    RunOfTwo(cfg, policy, ticks, states);
  }

  lemma BudgetLasts()
    ensures Available(FRESH, Cap(HALVING), 100) > 0
    ensures Available(Charge(FRESH, Cap(HALVING), 100, 1), Cap(HALVING), 101) > 0
  {
    ChargeGrants(FRESH, Cap(HALVING), 100, 1);
  }

  ghost function AfterBurst(policy: S.Policy, k: string, burst: Record): State {
    Only(policy, INITIAL, 100, k, burst, true)
  }

  lemma BurstTick(policy: S.Policy, k: string, weight: real, burst: Record)
    requires weight >= 6.0 && burst == Burst(weight, SelectStage(HALVING, weight))
    ensures Ticks(HALVING, policy, INITIAL, TickOf(100, k, Scored(100, weight, RPS), true), AfterBurst(policy, k, burst))
    ensures FromLog(TickOf(100, k, Scored(100, weight, RPS), true))
  {
    var e := Scored(100, weight, RPS);
    BurstJudged(weight);
    BudgetLasts();
    SingleTick(policy, INITIAL, 100, k, e, Absorb(HALVING, NEW_RECORD, e), true, burst);
  }

  lemma DropTick(policy: S.Policy, k: string, burst: Record, stamp: int, granted: bool, last: Record)
    requires AsksBudget(HALVING, ForceDrop(HALVING, burst, stamp), 101) == granted
    requires Judge(HALVING, ForceDrop(HALVING, burst, stamp), 101, granted) == Some(last)
    ensures var s1 := AfterBurst(policy, k, burst);
            Ticks(HALVING, policy, s1, TickOf(101, k, Dropped(stamp), granted), Only(policy, s1, 101, k, last, granted))
    ensures FromLog(TickOf(101, k, Dropped(stamp), granted))
  {
    BudgetLasts();
    SingleTick(policy, AfterBurst(policy, k, burst), 101, k, Dropped(stamp), ForceDrop(HALVING, burst, stamp), granted, last);
  }

  /** The two ticks of a burst and an immediate drop, with the records they leave. */
  lemma BurstThenDropRun(policy: S.Policy, k: string, weight: real, burst: Record, stamp: int, granted: bool, last: Record)
    returns (ticks: seq<Tick>, states: seq<State>)
    requires weight >= 6.0 && burst == Burst(weight, SelectStage(HALVING, weight))
    requires AsksBudget(HALVING, ForceDrop(HALVING, burst, stamp), 101) == granted
    requires Judge(HALVING, ForceDrop(HALVING, burst, stamp), 101, granted) == Some(last)
    ensures BurstThenDrop(HALVING, policy, ticks, states, k, stamp)
    ensures states[1].ips[k] == burst && states[2].ips[k] == last
  {
    var s1 := AfterBurst(policy, k, burst);
    BurstTick(policy, k, weight, burst);
    DropTick(policy, k, burst, stamp, granted, last);
    ticks, states := TwoTicks(HALVING, policy, TickOf(100, k, Scored(100, weight, RPS), true), s1,
                              TickOf(101, k, Dropped(stamp), granted), Only(policy, s1, 101, k, last, granted), k, stamp);
  }

  /** A flood event demotes a banned record one second into a cooldown of two, and the tick leaves it so. */
  lemma FloodDemotesBan(policy: S.Policy, k: string) returns (ticks: seq<Tick>, states: seq<State>)
    ensures BurstThenDrop(HALVING, policy, ticks, states, k, 100)
    ensures states[1].ips[k].stage == TempBan && states[2].ips[k].stage == Drop
    ensures FallsInCooldown(HALVING, states[1].ips[k], states[2].ips[k], 101)
  {
    var burst, last := BanNotRestored();
    ticks, states := BurstThenDropRun(policy, k, 13.0, burst, 100, false, last);
  }

  /** A flood event stamped before the last action frees a record that was never banned, one second into its
      cooldown, of every action. */
  lemma OldFloodFreesDrop(policy: S.Policy, k: string) returns (ticks: seq<Tick>, states: seq<State>)
    ensures BurstThenDrop(HALVING, policy, ticks, states, k, 98)
    ensures states[1].ips[k].stage == Drop && states[2].ips[k].stage == NoAction
    ensures FallsInCooldown(HALVING, states[1].ips[k], states[2].ips[k], 101)
  {
    var burst, last := OldStampJudged();
    ticks, states := BurstThenDropRun(policy, k, 7.0, burst, 98, true, last);
  }
}
