/** The threshold ladder end to end: anti-DDoS settings are normalised by the control plane, copied
    into a runtime profile, and overlaid on the sentinel's base configuration. */
module Thresholds {
  import opened Sentinel

  /** The threshold part of the control plane's anti-DDoS settings. */
  datatype Settings = Settings(throttle: real, drop: real)

  /** The threshold part of a runtime profile. */
  datatype Profile = Profile(modelEnabled: bool, throttle: real, drop: real)

  /** 0 < watch < throttle < drop < temp_ban. */
  predicate Ladder(cfg: Config) {
    0.0 < cfg.watchThreshold < cfg.throttleThreshold < cfg.dropThreshold < cfg.tempBanThreshold
  }

  /** NormalizeSettings, on the thresholds. */
  method NormalizeSettings(item: Settings) returns (out: Settings)
    ensures 0.0 < out.throttle < out.drop
    ensures item.throttle > 0.0 ==> out.throttle == item.throttle
    ensures 0.0 < item.throttle < item.drop ==> out == item
    ensures item.throttle <= 0.0 ==> out.throttle == 2.5
    ensures out.drop == if item.drop > out.throttle then item.drop else out.throttle + 0.5
  {
    out := item;
    if out.throttle <= 0.0 {
      out := out.(throttle := 2.5);
    }
    if out.drop <= out.throttle {
      out := out.(drop := out.throttle + 0.5);
    }
  }

  /** The throttle threshold the overlay settles on. */
  function EffectiveThrottle(base: Config, profile: Profile): real {
    if profile.throttle > 0.0 then profile.throttle else base.throttleThreshold
  }

  /** ApplyRuntimeProfile, on the thresholds: each repair reads the fields written before it. A profile
      of any shape yields a strict ladder exactly when the base watch threshold is positive, some
      throttle threshold is, and one of the two drop thresholds exceeds it. */
  method ApplyRuntimeProfile(base: Config, profile: Profile) returns (out: Config)
    ensures out.modelEnabled == profile.modelEnabled
    ensures !profile.modelEnabled ==> out == base.(modelEnabled := false)
    ensures profile.modelEnabled ==>
              var t := EffectiveThrottle(base, profile);
              Ladder(out) <==> base.watchThreshold > 0.0 && t > 0.0 && (profile.drop > t || base.dropThreshold > t)
    ensures profile.modelEnabled && 0.0 < profile.throttle < profile.drop ==>
              out.throttleThreshold == profile.throttle && out.dropThreshold == profile.drop
    ensures profile.modelEnabled ==> out.throttleThreshold == EffectiveThrottle(base, profile)
    ensures profile.modelEnabled && profile.drop <= out.throttleThreshold ==> out.dropThreshold == base.dropThreshold
    ensures profile.modelEnabled ==>
              if base.watchThreshold < out.throttleThreshold then out.watchThreshold == base.watchThreshold
              else out.watchThreshold == out.throttleThreshold / 2.0
    ensures profile.modelEnabled ==>
              if base.tempBanThreshold > out.dropThreshold then out.tempBanThreshold == base.tempBanThreshold
              else out.tempBanThreshold == out.dropThreshold + 2.0
    ensures profile.modelEnabled ==>
              out == base.(modelEnabled := true, watchThreshold := out.watchThreshold, dropThreshold := out.dropThreshold,
                           throttleThreshold := out.throttleThreshold, tempBanThreshold := out.tempBanThreshold)
  {
    out := base.(modelEnabled := profile.modelEnabled);
    if !out.modelEnabled {
      return;
    }
    if profile.throttle > 0.0 {
      out := out.(throttleThreshold := profile.throttle);
    }
    if profile.drop > out.throttleThreshold {
      out := out.(dropThreshold := profile.drop);
    }
    if out.watchThreshold >= out.throttleThreshold {
      out := out.(watchThreshold := out.throttleThreshold * 0.5);
    }
    if out.tempBanThreshold <= out.dropThreshold {
      out := out.(tempBanThreshold := out.dropThreshold + 2.0);
    }
  }

  /** Whatever an operator saves, an enabled model runs on a strict ladder with the saved thresholds. */
  method Deploy(item: Settings, base: Config) returns (out: Config)
    requires base.watchThreshold > 0.0
    ensures Ladder(out)
    ensures 0.0 < item.throttle < item.drop ==>
              out.throttleThreshold == item.throttle && out.dropThreshold == item.drop
  {
    var settings := NormalizeSettings(item);
    out := ApplyRuntimeProfile(base, Profile(true, settings.throttle, settings.drop));
  }

  /** On a ladder the stage is monotone in the score, takes all five values, and starts at nothing. */
  lemma LadderIsMonotone(cfg: Config, low: real, high: real)
    requires Ladder(cfg) && low <= high
    ensures StageRank(SelectStage(cfg, low)) <= StageRank(SelectStage(cfg, high))
    ensures SelectStage(cfg, 0.0) == NoAction
    ensures SelectStage(cfg, cfg.watchThreshold) == Watch && SelectStage(cfg, cfg.throttleThreshold) == Throttle
    ensures SelectStage(cfg, cfg.dropThreshold) == Drop && SelectStage(cfg, cfg.tempBanThreshold) == TempBan
  {
  }

  lemma {:induction false} PowUnit(r: real, n: nat)
    requires 0.0 <= r <= 1.0
    ensures 0.0 <= Pow(r, n) <= 1.0
  {
    if n > 0 {
      PowUnit(r, n - 1);
      UnitStep(r, Pow(r, n - 1), Pow(r, n));
    }
  }

  lemma UnitStep(r: real, p: real, q: real)
    requires 0.0 <= r <= 1.0 && 0.0 <= p <= 1.0 && q == r * p
    ensures 0.0 <= q <= 1.0
  {
    Shrinks(r, p);
  }

  lemma Shrinks(a: real, p: real)
    requires 0.0 <= a && 0.0 <= p <= 1.0
    ensures 0.0 <= a * p <= a
  {
    ScaleUp(p, 1.0, a);
    ScaleUp(0.0, p, a);
  }

  lemma ScaleUp(x: real, y: real, a: real)
    requires x <= y && a >= 0.0
    ensures a * x <= a * y
  {
  }

  /** While a record only decays, the stage its score selects never rises. */
  lemma DecayNeverRaisesStage(cfg: Config, rec: Record, t: int)
    requires Ladder(cfg) && 0.0 <= cfg.retention <= 1.0 && rec.score >= 0.0
    ensures StageRank(SelectStage(cfg, ScoreAt(cfg, rec, t))) <= StageRank(SelectStage(cfg, rec.score))
  {
    if rec.lastUpdated.Some? && t > rec.lastUpdated.value {
      DecayLowers(cfg, rec.score, t - rec.lastUpdated.value);
      LadderIsMonotone(cfg, ScoreAt(cfg, rec, t), rec.score);
    }
  }

  lemma DecayLowers(cfg: Config, score: real, d: nat)
    requires 0.0 <= cfg.retention <= 1.0 && score >= 0.0
    ensures 0.0 <= DecayBy(cfg, score, d) <= score
  {
    PowUnit(cfg.retention, d);
    var p := Pow(cfg.retention, d);
    assert DecayBy(cfg, score, d) == score * p;
    Shrinks(score, p);
  }
}
