/** What the fields of a tracked record say in a run, beside score and stage: when it was seen, which signals
    it holds and how strong, and what is published of it. */
module SentinelRecords {
  import opened Basics
  import opened Sentinel
  import opened SentinelRuns
  import S = Suggestions

  // ---- Sightings -------------------------------------------------------------------------------------

  /** When log events hit the record, in order. */
  function Sightings(events: seq<Event>): seq<int> {
    if events == [] then []
    else
      var last := events[|events| - 1];
      Sightings(events[..|events| - 1]) + (if Sights(last) then [last.when] else [])
  }

  predicate Sights(e: Event) {
    e.Scored? || e.Dropped?
  }

  lemma StepIsSeen(cfg: Config, rec: Record, e: Event)
    requires Apply(cfg, rec, e).Some?
    ensures var out := Apply(cfg, rec, e).value;
            && out.lastSeen == (if Sights(e) then Some(e.when) else rec.lastSeen)
            && out.firstSeen == (if Sights(e) && rec.firstSeen.None? then Some(e.when) else rec.firstSeen)
  {
  }

  lemma {:induction false} LiveIsSeen(cfg: Config, events: seq<Event>)
    requires Live(cfg, events).Some?
    ensures var rec, seen := Live(cfg, events).value, Sightings(events);
            && rec.firstSeen == (if seen == [] then None else Some(seen[0]))
            && rec.lastSeen == (if seen == [] then None else Some(seen[|seen| - 1]))
  {
    hide Apply, Sights;
    if events != [] {
      var front := events[..|events| - 1];
      LiveIsSeen(cfg, front);
      StepIsSeen(cfg, Live(cfg, front).value, events[|events| - 1]);
    }
  }

  /** A tracked record was first and last seen when the first and the last log event of its present life hit it. */
  lemma SeenAsLogged(cfg: Config, policy: S.Policy, ticks: seq<Tick>, states: seq<State>, m: nat, k: string)
    requires IsRun(cfg, policy, ticks, states) && m <= |ticks| && k in states[m].ips
    ensures var rec, seen := states[m].ips[k], Sightings(LifeOf(ticks, states, m, k));
            && rec.firstSeen == (if seen == [] then None else Some(seen[0]))
            && rec.lastSeen == (if seen == [] then None else Some(seen[|seen| - 1]))
  {
    RecordsAreLives(cfg, policy, ticks, states, m, k);
    LiveIsSeen(cfg, LifeOf(ticks, states, m, k));
  }

  // ---- Signals ---------------------------------------------------------------------------------------

  /** What one log event adds to a signal. */
  function Adds(e: Event, signal: string): real {
    match e
    case Scored(_, weight, reason) => if reason == signal then weight else 0.0
    case Dropped(_) => if signal == EMERGENCY_DROP then 1.0 else 0.0
    case _ => 0.0
  }

  function Brought(effects: seq<Effect>, k: string, signal: string): real {
    if effects == [] then 0.0
    else
      var n := |effects| - 1;
      Brought(effects[..n], k, signal) + (if effects[n].key == k then Adds(effects[n].event, signal) else 0.0)
  }

  /** The value of a signal; an absent one counts for nothing. */
  function Strength(rec: Record, signal: string): real {
    if signal in rec.topSignals then rec.topSignals[signal] else 0.0
  }

  lemma AbsorbAdds(cfg: Config, rec: Record, e: Event, signal: string)
    ensures Strength(Absorb(cfg, rec, e), signal) == Strength(rec, signal) + Adds(e, signal)
  {
  }

  lemma {:induction false} FoldAddsSignals(cfg: Config, ips: Table, effects: seq<Effect>, k: string, signal: string)
    ensures Strength(Tracked(ApplyEffects(cfg, ips, effects), k), signal)
            == Strength(Tracked(ips, k), signal) + Brought(effects, k, signal)
  {
    if effects != [] {
      hide Absorb, Adds, Strength;
      var n := |effects| - 1;
      FoldAddsSignals(cfg, ips, effects[..n], k, signal);
      AbsorbAdds(cfg, Tracked(ApplyEffects(cfg, ips, effects[..n]), k), effects[n].event, signal);
    }
  }

  /** A signal `seconds` later: it fades, and is gone below a hundredth. */
  function Faded(cfg: Config, strength: real, seconds: int): real {
    if seconds <= 0 then strength else Fade(strength, Pow(cfg.retention, seconds))
  }

  function Fade(strength: real, factor: real): real {
    var left := strength * factor;
    if left < 0.01 then 0.0 else left
  }

  function SecondsSince(rec: Record, now: int): int {
    if rec.lastUpdated.Some? then now - rec.lastUpdated.value else 0
  }

  lemma NothingFades(strength: real, factor: real)
    ensures strength == 0.0 ==> strength * factor == 0.0
  {
  }

  lemma HeldFades(signals: Signals, factor: real, signal: string)
    requires signal in signals
    ensures var out := DecayedSignals(signals, factor);
            (if signal in out then out[signal] else 0.0) == Fade(signals[signal], factor)
  {
  }

  /** DecayedSignals, one signal at a time. */
  lemma EachFades(signals: Signals, factor: real, signal: string, v: real)
    requires v == if signal in signals then signals[signal] else 0.0
    ensures var out := DecayedSignals(signals, factor);
            (if signal in out then out[signal] else 0.0) == Fade(v, factor)
  {
    if signal in signals {
      hide Fade;
      HeldFades(signals, factor, signal);
    } else {
      NothingFades(v, factor);
    }
  }

  lemma DecayFadesSignals(cfg: Config, rec: Record, now: int, signal: string)
    ensures Strength(Decayed(cfg, rec, now), signal) == Faded(cfg, Strength(rec, signal), SecondsSince(rec, now))
  {
    hide Pow, DecayBy, Fade, DecayedSignals;
    if rec.lastUpdated.Some? && now > rec.lastUpdated.value {
      EachFades(rec.topSignals, Pow(cfg.retention, now - rec.lastUpdated.value), signal, Strength(rec, signal));
    }
  }

  lemma JudgementKeepsSignals(cfg: Config, rec: Record, now: int, granted: bool)
    requires Judge(cfg, rec, now, granted).Some?
    ensures Judge(cfg, rec, now, granted).value.topSignals == Decayed(cfg, rec, now).topSignals
  {
    hide Decayed, Desired;
  }

  lemma JudgementFadesSignals(cfg: Config, rec: Record, now: int, granted: bool, signal: string)
    requires Judge(cfg, rec, now, granted).Some?
    ensures Strength(Judge(cfg, rec, now, granted).value, signal)
            == Faded(cfg, Strength(rec, signal), SecondsSince(rec, now))
  {
    hide Judge, Decayed, Faded;
    JudgementKeepsSignals(cfg, rec, now, granted);
    DecayFadesSignals(cfg, rec, now, signal);
  }

  /** The evidence a record holds is what the log brought: over a processed tick each signal grows by the
      weights of its events and then fades by the time since the last of them. */
  lemma SignalsInTick(cfg: Config, policy: S.Policy, ticks: seq<Tick>, states: seq<State>, m: nat, k: string, signal: string)
    requires IsRun(cfg, policy, ticks, states) && m < |ticks| && ticks[m].Batch? && k in states[m + 1].ips
    ensures var folded := Tracked(Folded(cfg, states[m], ticks[m]), k);
            && Strength(folded, signal) == Strength(Tracked(states[m].ips, k), signal) + Brought(ticks[m].effects, k, signal)
            && Strength(states[m + 1].ips[k], signal)
               == Faded(cfg, Strength(folded, signal), SecondsSince(folded, ticks[m].now))
  {
    hide Ticks, Judge, ApplyEffects, FromLog;
    RunTick(cfg, policy, ticks, states, m);
    FoldAddsSignals(cfg, states[m].ips, ticks[m].effects, k, signal);
    SurvivorWasJudged(cfg, policy, states[m], ticks[m], states[m + 1], k);
    JudgementFadesSignals(cfg, Folded(cfg, states[m], ticks[m])[k], ticks[m].now, k in ticks[m].grants, signal);
  }

  // ---- What is published -----------------------------------------------------------------------------

  /** Every record that survives a processed tick expires a hold after it, six holds for a ban, and carries the
      risk and trust of its score. */
  lemma SurvivorsAreRefreshed(cfg: Config, policy: S.Policy, ticks: seq<Tick>, states: seq<State>, m: nat, k: string)
    requires IsRun(cfg, policy, ticks, states) && m < |ticks| && ticks[m].Batch? && k in states[m + 1].ips
    ensures var out := states[m + 1].ips[k];
            var hold := if cfg.holdSeconds > 0 then cfg.holdSeconds else 60;
            && out.expiresAt == Some(ticks[m].now + (if out.stage == TempBan then 6 * hold else hold))
            && 0.0 <= out.riskScore <= 100.0 && out.trustScore == 100.0 - out.riskScore
            && (0.0 <= out.score <= 100.0 ==> out.riskScore == out.score)
            && (out.score > 100.0 ==> out.riskScore == 100.0) && (out.score < 0.0 ==> out.riskScore == 0.0)
  {
    hide Ticks, ApplyEffects, FromLog;
    RunTick(cfg, policy, ticks, states, m);
    SurvivorWasJudged(cfg, policy, states[m], ticks[m], states[m + 1], k);
    JudgementRefreshes(cfg, Folded(cfg, states[m], ticks[m])[k], ticks[m].now, k in ticks[m].grants);
  }

  lemma JudgementRefreshes(cfg: Config, rec: Record, now: int, granted: bool)
    requires Judge(cfg, rec, now, granted).Some?
    ensures var out := Judge(cfg, rec, now, granted).value;
            && out.expiresAt == Some(ActionExpiry(cfg, now, out.stage))
            && out.riskScore == Clamp(out.score, 0.0, 100.0)
            && out.trustScore == Clamp(100.0 - out.riskScore, 0.0, 100.0)
  {
  }
}
