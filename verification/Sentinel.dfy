/** The sentinel's per-record decision logic: lazy decay, the staged ladder, the multi-signal
    gate, consecutive-tick hysteresis and the de-escalation cooldown. Times are whole seconds,
    as RFC 3339 timestamps keep them; None is an unset timestamp. */
module Sentinel {
  import opened Basics

  datatype Action = NoAction | Watch | Throttle | Drop | TempBan

  /** The settings one run uses. `retention` is exp(-DecayLambda), what a score keeps per second. */
  datatype Config = Config(
    modelEnabled: bool,
    retention: real,
    watchThreshold: real,
    throttleThreshold: real,
    dropThreshold: real,
    tempBanThreshold: real,
    promotionMinSignals: int,
    promotionConsecutiveTicks: int,
    actionCooldownSeconds: int,
    holdSeconds: int,
    inactiveTTLSeconds: int,
    maxActiveIPs: int,
    maxActionsPerMinute: int)

  type Signals = map<string, real>

  datatype Record = Record(
    score: real,
    riskScore: real,
    trustScore: real,
    modelVersion: string,
    firstSeen: Option<int>,
    lastSeen: Option<int>,
    lastUpdated: Option<int>,
    stage: Action,
    expiresAt: Option<int>,
    topSignals: Signals,
    lastAction: Action,
    lastActionAt: Option<int>,
    candidateAction: Action,
    candidateCount: int)

  /** Go's zero Record, what a lookup of an untracked key yields. */
  const NEW_RECORD := Record(0.0, 0.0, 0.0, "", None, None, None, NoAction, None, map[],
                             NoAction, None, NoAction, 0)

  const EMERGENCY_PREFIX := "signal_emergency_"
  const EMERGENCY_DROP := "signal_emergency_drop"

  // ---- Decay --------------------------------------------------------------

  function Pow(r: real, n: nat): real {
    if n == 0 then 1.0 else r * Pow(r, n - 1)
  }

  /** A score after `n` seconds of decay. */
  function DecayBy(cfg: Config, score: real, n: nat): real {
    score * Pow(cfg.retention, n)
  }

  /** The score a record has decayed to at `at`; it never decays backwards in time. */
  function ScoreAt(cfg: Config, rec: Record, at: int): real {
    if rec.lastUpdated.Some? && at > rec.lastUpdated.value
    then DecayBy(cfg, rec.score, at - rec.lastUpdated.value)
    else rec.score
  }

  function DecayedSignals(signals: Signals, factor: real): Signals {
    map s | s in signals && signals[s] * factor >= 0.01 :: signals[s] * factor
  }

  /** The decay a tick applies to every record before judging it. */
  function Decayed(cfg: Config, rec: Record, now: int): Record {
    if rec.lastUpdated.Some? && now > rec.lastUpdated.value then
      var factor := Pow(cfg.retention, now - rec.lastUpdated.value);
      rec.(score := DecayBy(cfg, rec.score, now - rec.lastUpdated.value),
           topSignals := DecayedSignals(rec.topSignals, factor),
           lastUpdated := Some(now))
    else rec
  }

  function Clamp(value: real, lo: real, hi: real): real {
    if value < lo then lo else if value > hi then hi else value
  }

  function WithRisk(rec: Record): Record {
    var risk := Clamp(rec.score, 0.0, 100.0);
    rec.(riskScore := risk, trustScore := Clamp(100.0 - risk, 0.0, 100.0))
  }

  // ---- Effects of log events on one record ----------------------------------

  function SignalValue(signals: Signals, s: string): real {
    if s in signals then signals[s] else 0.0
  }

  /** applyScore on the record of its key; `reason` is never blank in the engine. */
  function Hit(cfg: Config, rec: Record, when: int, weight: real, reason: string): Record {
    WithRisk(rec.(
      score := ScoreAt(cfg, rec, when) + weight,
      topSignals := rec.topSignals[reason := SignalValue(rec.topSignals, reason) + weight],
      lastSeen := Some(when),
      firstSeen := if rec.firstSeen.None? then Some(when) else rec.firstSeen,
      lastUpdated := Some(when),
      expiresAt := Some(when + cfg.holdSeconds)))
  }

  /** applyImmediateDrop on the record of its key: no budget, no hysteresis, no decay. */
  function ForceDrop(cfg: Config, rec: Record, when: int): Record {
    WithRisk(rec.(
      score := if rec.score < cfg.dropThreshold then cfg.dropThreshold else rec.score,
      topSignals := rec.topSignals[EMERGENCY_DROP := SignalValue(rec.topSignals, EMERGENCY_DROP) + 1.0],
      lastSeen := Some(when),
      firstSeen := if rec.firstSeen.None? then Some(when) else rec.firstSeen,
      lastUpdated := Some(when),
      stage := Drop,
      lastAction := Drop,
      lastActionAt := Some(when),
      expiresAt := Some(when + cfg.holdSeconds)))
  }

  // ---- The ladder -------------------------------------------------------------

  function SelectStage(cfg: Config, score: real): Action {
    if score >= cfg.tempBanThreshold then TempBan
    else if score >= cfg.dropThreshold then Drop
    else if score >= cfg.throttleThreshold then Throttle
    else if score >= cfg.watchThreshold then Watch
    else NoAction
  }

  function StageRank(a: Action): int {
    match a
    case NoAction => 0
    case Watch => 1
    case Throttle => 2
    case Drop => 3
    case TempBan => 4
  }

  /** Drop and temp_ban: the actions the multi-signal gate guards. */
  predicate Hard(a: Action) {
    a == Drop || a == TempBan
  }

  predicate RequiresMultiSignalGate(a: Action, minSignals: int) {
    minSignals > 1 && Hard(a)
  }

  function StrongSignals(signals: Signals): set<string> {
    set s | s in signals && signals[s] >= 0.3
  }

  predicate HasEmergencySignal(signals: Signals) {
    exists s :: s in signals && EMERGENCY_PREFIX <= s
  }

  /** The action a decayed record asks for once the multi-signal gate has spoken. */
  function Wanted(cfg: Config, rec: Record): Action {
    var a := SelectStage(cfg, rec.score);
    if RequiresMultiSignalGate(a, cfg.promotionMinSignals)
       && |StrongSignals(rec.topSignals)| < cfg.promotionMinSignals
       && !HasEmergencySignal(rec.topSignals)
    then Throttle
    else a
  }

  function CurrentAction(rec: Record): Action {
    if rec.lastAction != NoAction then rec.lastAction else rec.stage
  }

  predicate IsCooldownDeescalation(cfg: Config, previous: Action, next: Action,
                                   lastActionAt: Option<int>, now: int) {
    && cfg.actionCooldownSeconds > 0
    && StageRank(next) < StageRank(previous)
    && lastActionAt.Some?
    && now - lastActionAt.value < cfg.actionCooldownSeconds
  }

  function Desired(cfg: Config, rec: Record, now: int): Action {
    var previous := CurrentAction(rec);
    var wanted := Wanted(cfg, rec);
    if IsCooldownDeescalation(cfg, previous, wanted, rec.lastActionAt, now) then previous else wanted
  }

  function RequiredTicks(cfg: Config): int {
    if cfg.promotionConsecutiveTicks <= 0 then 1 else cfg.promotionConsecutiveTicks
  }

  /** resolveActionTransition: the record with its candidate counters advanced, the action it
      settles on, and whether that is a transition. */
  function ResolveTransition(cfg: Config, rec: Record, previous: Action, desired: Action): (Record, Action, bool) {
    if desired == previous then
      (rec.(candidateAction := NoAction, candidateCount := 0), previous, false)
    else
      var count := if rec.candidateAction != desired then 1 else rec.candidateCount + 1;
      if HasEmergencySignal(rec.topSignals) || count >= RequiredTicks(cfg) then
        (rec.(candidateAction := NoAction, candidateCount := 0), desired, true)
      else
        (rec.(candidateAction := desired, candidateCount := count), previous, false)
  }

  predicate InactivityExpired(cfg: Config, rec: Record, now: int) {
    cfg.inactiveTTLSeconds > 0 && rec.lastSeen.Some? && now - rec.lastSeen.value > cfg.inactiveTTLSeconds
  }

  function ActionExpiry(cfg: Config, now: int, a: Action): int {
    var hold := if cfg.holdSeconds <= 0 then 60 else cfg.holdSeconds;
    if a == TempBan then now + hold * 6 else now + hold
  }

  /** Does judging this record at `now` ask the action budget for a change? */
  predicate AsksBudget(cfg: Config, rec: Record, now: int) {
    var d := Decayed(cfg, rec, now);
    !InactivityExpired(cfg, d, now) && ResolveTransition(cfg, d, CurrentAction(d), Desired(cfg, d, now)).2
  }

  /** One pass of the tick's record loop; `granted` is the budget's answer if it was asked.
      None means the record is deleted. */
  function Judge(cfg: Config, rec: Record, now: int, granted: bool): Option<Record> {
    var d := Decayed(cfg, rec, now);
    if InactivityExpired(cfg, d, now) then None
    else
      var previous := CurrentAction(d);
      var (advanced, action, transitioned) := ResolveTransition(cfg, d, previous, Desired(cfg, d, now));
      var settled :=
        if !transitioned then advanced.(stage := action)
        else if granted then advanced.(stage := action, lastAction := action, lastActionAt := Some(now))
        else advanced.(stage := previous);
      var final := WithRisk(settled.(expiresAt := Some(ActionExpiry(cfg, now, settled.stage))));
      if (final.stage == NoAction && final.score < 0.2) || now > final.expiresAt.value then None
      else Some(final)
  }

  // ---- Properties of one record ----------------------------------------------

  /** What every record of a run satisfies between ticks: the published stage is the last action
      taken, a ranked action carries its timestamp, and hysteresis counts from zero. */
  predicate Coherent(rec: Record) {
    && rec.stage == rec.lastAction
    && (rec.lastAction != NoAction ==> rec.lastActionAt.Some?)
    && rec.candidateCount >= 0
  }

  /** Every step a run takes on a record keeps it coherent. */
  lemma CoherenceKept(cfg: Config, rec: Record, t: int, weight: real, reason: string, granted: bool)
    requires Coherent(rec)
    ensures Coherent(Hit(cfg, rec, t, weight, reason))
    ensures Coherent(ForceDrop(cfg, rec, t))
    ensures Judge(cfg, rec, t, granted).Some? ==> Coherent(Judge(cfg, rec, t, granted).value)
  {
    JudgeKeepsCoherence(cfg, rec, t, granted);
  }

  lemma JudgeKeepsCoherence(cfg: Config, rec: Record, t: int, granted: bool)
    requires Coherent(rec)
    ensures Judge(cfg, rec, t, granted).Some? ==> Coherent(Judge(cfg, rec, t, granted).value)
  {
    var d := Decayed(cfg, rec, t);
    assert Coherent(d);
    var (advanced, action, transitioned) := ResolveTransition(cfg, d, CurrentAction(d), Desired(cfg, d, t));
    assert advanced.lastAction == d.lastAction && advanced.lastActionAt == d.lastActionAt && advanced.candidateCount >= 0;
  }

  /** The expiry test inside the record loop never fires: a record leaves it only by inactivity
      or by an unranked score under 0.2. */
  lemma JudgeRemovesOnly(cfg: Config, rec: Record, now: int, granted: bool)
    ensures var d := Decayed(cfg, rec, now);
            Judge(cfg, rec, now, granted).None? <==>
              || InactivityExpired(cfg, d, now)
              || (d.score < 0.2 && JudgedStage(cfg, rec, now, granted) == NoAction)
  {
  }

  /** Without a grant a surviving record keeps its stage. */
  lemma RefusalKeepsStage(cfg: Config, rec: Record, now: int)
    requires Coherent(rec) && Judge(cfg, rec, now, false).Some?
    ensures Judge(cfg, rec, now, false).value.stage == rec.stage
  {
  }

  /** Judging changes a score only by letting it decay. */
  lemma JudgeOnlyDecays(cfg: Config, rec: Record, now: int, granted: bool)
    requires Judge(cfg, rec, now, granted).Some?
    ensures var out := Judge(cfg, rec, now, granted).value;
            && out.score == ScoreAt(cfg, rec, now)
            && out.lastUpdated == (if rec.lastUpdated.Some? then Some(Max(rec.lastUpdated.value, now)) else None)
  {
  }

  /** The stage Judge settles on, whether or not the record survives. */
  function JudgedStage(cfg: Config, rec: Record, now: int, granted: bool): Action {
    var d := Decayed(cfg, rec, now);
    var (_, action, transitioned) := ResolveTransition(cfg, d, CurrentAction(d), Desired(cfg, d, now));
    if transitioned && !granted then CurrentAction(d) else action
  }

  /** One step of a record's life, at its own clock reading. */
  datatype Event =
    | Scored(when: int, weight: real, reason: string)
    | Dropped(when: int)
    | Tagged(when: int, version: string)
    | Judged(when: int, granted: bool)

  function Apply(cfg: Config, rec: Record, e: Event): Option<Record> {
    match e
    case Scored(when, weight, reason) => Some(Hit(cfg, rec, when, weight, reason))
    case Dropped(when) => Some(ForceDrop(cfg, rec, when))
    case Tagged(_, version) => Some(rec.(modelVersion := version))
    case Judged(when, granted) => Judge(cfg, rec, when, granted)
  }

  /** The record left by a sequence of steps on a new record; None once one of them deleted it. */
  function Live(cfg: Config, events: seq<Event>): Option<Record> {
    if events == [] then Some(NEW_RECORD)
    else
      var before := Live(cfg, events[..|events| - 1]);
      if before.None? then None else Apply(cfg, before.value, events[|events| - 1])
  }

  lemma {:induction false} LiveIsCoherent(cfg: Config, events: seq<Event>)
    ensures Live(cfg, events).Some? ==> Coherent(Live(cfg, events).value)
  {
    if events != [] {
      var prefix := events[..|events| - 1];
      LiveIsCoherent(cfg, prefix);
      if Live(cfg, prefix).Some? {
        match events[|events| - 1]
        case Scored(t, w, reason) => CoherenceKept(cfg, Live(cfg, prefix).value, t, w, reason, true);
        case Dropped(t) => CoherenceKept(cfg, Live(cfg, prefix).value, t, 0.0, "", true);
        case Tagged(_, _) =>
        case Judged(t, g) => CoherenceKept(cfg, Live(cfg, prefix).value, t, 0.0, "", g);
      }
    }
  }

  /** The step lowers the record's rank although its cooldown is still running. */
  predicate FallsEarly(cfg: Config, rec: Record, e: Event) {
    && Apply(cfg, rec, e).Some?
    && StageRank(Apply(cfg, rec, e).value.stage) < StageRank(rec.stage)
    && rec.lastActionAt.Some?
    && e.when - rec.lastActionAt.value < cfg.actionCooldownSeconds
  }

  /** A rank falls inside the cooldown exactly when an immediate drop hits a temp-banned record:
      the judging loop itself never does it. */
  lemma EarlyFallOnlyByImmediateDrop(cfg: Config, rec: Record, e: Event)
    requires Coherent(rec) && cfg.actionCooldownSeconds > 0
    ensures FallsEarly(cfg, rec, e) <==>
              && e.Dropped?
              && rec.lastAction == TempBan
              && e.when - rec.lastActionAt.value < cfg.actionCooldownSeconds
  {
  }
}
