/** Exactly when a suggestion changes status, over runs: from its counters, its sightings, its deadline and the
    clock. Shares of false positives are compared by multiplication, so no hits are no false positives. */
module SuggestionEdges {
  import opened Basics
  import opened Suggestions
  import opened SuggestionLifecycle

  /** More than this share of the shadow hits were false positives. */
  predicate Over(shadowFP: int, shadowHits: int, share: real) {
    shadowHits > 0 && shadowFP as real > share * shadowHits as real
  }

  lemma RateIs(shadowHits: int, shadowFP: int, share: real)
    requires share >= 0.0
    ensures FPRate(shadowHits, shadowFP) > share <==> Over(shadowFP, shadowHits, share)
  {
    if shadowHits > 0 { QuotientOver(shadowFP as real, shadowHits as real, share); }
  }

  lemma QuotientOver(f: real, h: real, share: real)
    requires h > 0.0
    ensures f / h > share <==> f > share * h
  {
    assert (f / h) * h == f;
    if f / h > share { Scaled(f / h, share, h); }
    if f / h <= share { Scaled(share, f / h, h); }
  }

  lemma Scaled(a: real, b: real, h: real)
    requires h > 0.0
    ensures a > b ==> a * h > b * h
    ensures a >= b ==> a * h >= b * h
  {
  }

  // ---- The edges -------------------------------------------------------------------------------------

  /** A suggestion not known before the tick: counted from nothing, and at once in shadow if hit often enough. */
  predicate StartsAs(q: Policy, stat: ScanStat, t: Suggestion) {
    && t.shadowHits == 0 && t.shadowFP == 0 && t.temporaryUntil.None?
    && t.firstSeen == Some(stat.firstSeen) && t.lastSeen == Some(stat.lastSeen)
    && t.status == (if stat.hits >= q.shadowPromoteHits then Shadow else Suggested)
  }

  /** Hits count from the tick after the one that put it in shadow; sightings widen. */
  predicate Counted(stat: ScanStat, s: Suggestion, t: Suggestion) {
    && t.shadowHits == s.shadowHits + (if s.status == Suggested then 0 else stat.hits)
    && t.shadowFP == s.shadowFP + (if s.status == Suggested then 0 else stat.successHits)
    && t.firstSeen == Some(if s.firstSeen.Some? && s.firstSeen.value < stat.firstSeen then s.firstSeen.value else stat.firstSeen)
    && t.lastSeen == Some(if s.lastSeen.Some? && s.lastSeen.value > stat.lastSeen then s.lastSeen.value else stat.lastSeen)
  }

  predicate DeadlinePassed(s: Suggestion, now: int) {
    s.temporaryUntil.Some? && now > s.temporaryUntil.value
  }

  /** Enough shadow hits, at most half the tolerated share, and known for long enough. */
  predicate EarnsPermanent(q: Policy, t: Suggestion, now: int) {
    && t.shadowHits >= q.permanentPromoteHits && !Over(t.shadowFP, t.shadowHits, q.shadowMaxFPRate * 0.5)
    && (q.permanentMinLifetime <= 0 || (t.firstSeen.Some? && now - t.firstSeen.value >= q.permanentMinLifetime))
  }

  /** Which status follows, given the counters after the tick. */
  predicate Follows(q: Policy, stat: ScanStat, s: Suggestion, t: Suggestion, now: int) {
    var bad := Over(t.shadowFP, t.shadowHits, q.shadowMaxFPRate * 2.0);
    match s.status
    case Suggested =>
      && (t.status == Shadow <==> stat.hits >= q.shadowPromoteHits)
      && (t.status == Suggested <==> stat.hits < q.shadowPromoteHits)
    case Shadow =>
      && (t.status == Suggested <==> bad)
      && (t.status == Temporary <==>
            t.shadowHits >= q.temporaryPromoteHits && !Over(t.shadowFP, t.shadowHits, q.shadowMaxFPRate))
      && t.status != Permanent
    case Temporary =>
      && (t.status == Suggested <==> bad)
      && (t.status == Permanent <==> DeadlinePassed(s, now) && EarnsPermanent(q, t, now))
      && (t.status == Shadow <==> !bad && DeadlinePassed(s, now) && !EarnsPermanent(q, t, now))
    case Permanent =>
      && (t.status == Shadow <==> bad)
      && (t.status == Permanent <==> !bad)
  }

  /** The deadline is set on entering temporary, kept while there, and gone on leaving. */
  predicate DeadlineFollows(q: Policy, s: Suggestion, t: Suggestion, now: int) {
    t.temporaryUntil ==
    if t.status == Temporary && s.status != Temporary then Some(now + q.temporaryHold)
    else if t.status != Temporary && s.status == Temporary then None
    else s.temporaryUntil
  }

  function Reason(s: Suggestion, after: Status): string {
    match (s.status, after)
    case (Suggested, Shadow) => "auto_promote_shadow"
    case (Shadow, Temporary) => "auto_promote_temporary"
    case (Temporary, Permanent) => "candidate_permanent_review_required"
    case (Temporary, Shadow) => "temporary_expired_return_shadow"
    case (Permanent, Shadow) => "rollback_permanent_high_fp"
    case (_, _) => if after == Suggested && s.status != Suggested then "rollback_high_shadow_fp" else s.reason
  }

  lemma OverShares(q: Policy, t: Suggestion)
    requires q.shadowMaxFPRate > 0.0
    ensures var rate := FPRate(t.shadowHits, t.shadowFP);
            && (rate > q.shadowMaxFPRate * 2.0 <==> Over(t.shadowFP, t.shadowHits, q.shadowMaxFPRate * 2.0))
            && (rate > q.shadowMaxFPRate <==> Over(t.shadowFP, t.shadowHits, q.shadowMaxFPRate))
            && (rate > q.shadowMaxFPRate * 0.5 <==> Over(t.shadowFP, t.shadowHits, q.shadowMaxFPRate * 0.5))
  {
    RateIs(t.shadowHits, t.shadowFP, q.shadowMaxFPRate * 2.0);
    RateIs(t.shadowHits, t.shadowFP, q.shadowMaxFPRate);
    RateIs(t.shadowHits, t.shadowFP, q.shadowMaxFPRate * 0.5);
  }

  lemma AdvanceFollows(q: Policy, path: string, stat: ScanStat, s: Suggestion, now: int)
    requires q.shadowMaxFPRate > 0.0 && Qualifies(q, stat)
    ensures var t := Advance(q, path, stat, s, now);
            && Counted(stat, s, t) && Follows(q, stat, s, t, now) && DeadlineFollows(q, s, t, now)
            && t.reason == Reason(s, t.status)
            && t.path == path && t.hits == stat.hits && t.uniqueIPs == |stat.ips| && t.generatedAt == now
  {
    hide Over, FPRate;
    OverShares(q, Advance(q, path, stat, s, now));
  }

  lemma NewStarts(q: Policy, path: string, stat: ScanStat, now: int)
    requires q.shadowMaxFPRate > 0.0 && Qualifies(q, stat)
    ensures StartsAs(q, stat, Advance(q, path, stat, UNKNOWN, now))
  {
  }

  /** Each edge, exactly, over chains: a scanned path that stays known moves as its counters, its deadline and
      the clock say, and not otherwise; one that was not scanned does not change at all. */
  lemma EdgesExactly(q: Policy, ticks: seq<Observed>, known: seq<Index>, m: nat, path: string)
    requires Chain(q, ticks, known) && q.shadowMaxFPRate > 0.0 && m < |ticks| && path in known[m + 1]
    ensures path !in ticks[m].stats ==> path in known[m] && known[m + 1][path] == known[m][path]
    ensures path in ticks[m].stats && path !in known[m] ==> StartsAs(q, ticks[m].stats[path], known[m + 1][path])
    ensures path in ticks[m].stats && path in known[m] ==>
              var stat, s, t, now := ticks[m].stats[path], known[m][path], known[m + 1][path], ticks[m].now;
              && Counted(stat, s, t) && Follows(q, stat, s, t, now) && DeadlineFollows(q, s, t, now)
              && t.reason == Reason(s, t.status) && t.hits == stat.hits && t.uniqueIPs == |stat.ips|
  {
    hide Advance, Follows, DeadlineFollows, Counted, StartsAs, Qualifies;
    ChainStep(q, ticks, known, m);
    if path in ticks[m].stats {
      AdvanceFollows(q, path, ticks[m].stats[path], Previous(known[m], path), ticks[m].now);
      NewStarts(q, path, ticks[m].stats[path], ticks[m].now);
    }
  }

  /** The settings a run uses: positive ones as they are, the others from the defaults. */
  lemma ResolvedSettings(p: Policy)
    ensures var q := Resolve(p);
            && q.minHits == (if p.minHits > 0 then p.minHits else 20)
            && q.minUniqueIPs == (if p.minUniqueIPs > 0 then p.minUniqueIPs else 5)
            && q.shadowPromoteHits == (if p.shadowPromoteHits > 0 then p.shadowPromoteHits else 2 * q.minHits)
            && q.temporaryPromoteHits == (if p.temporaryPromoteHits > 0 then p.temporaryPromoteHits else 4 * q.minHits)
            && q.permanentPromoteHits == (if p.permanentPromoteHits > 0 then p.permanentPromoteHits else 8 * q.minHits)
            && q.temporaryHold == (if p.temporaryHold > 0 then p.temporaryHold else 4 * 3600)
            && q.inactiveTTL == (if p.inactiveTTL > 0 then p.inactiveTTL else 24 * 3600)
            && q.shadowMaxFPRate == (if p.shadowMaxFPRate > 0.0 then p.shadowMaxFPRate else 0.02)
            && q.permanentMinLifetime == p.permanentMinLifetime && q.maxPublished == p.maxPublished
  {
  }

  /** In every run, scanned again with more than twice the tolerated share of false positives, no suggestion keeps
      blocking: shadow and temporary fall back to suggested, permanent to shadow. */
  lemma FalsePositivesRollBack(p: Policy, ticks: seq<Observed>, lists: seq<seq<Suggestion>>, m: nat, path: string)
    requires IsRun(p, ticks, lists) && m < |ticks| && path in ticks[m].stats
    requires path in IndexOf(lists[m]) && path in IndexOf(lists[m + 1])
    requires IndexOf(lists[m])[path].status != Suggested
    requires var t := IndexOf(lists[m + 1])[path];
             var tolerated := if p.shadowMaxFPRate > 0.0 then p.shadowMaxFPRate else 0.02;
             Over(t.shadowFP, t.shadowHits, tolerated * 2.0)
    ensures IndexOf(lists[m + 1])[path].status == if IndexOf(lists[m])[path].status == Permanent then Shadow else Suggested
  {
    hide IsRun, Over, IndexOf, Counted, Chain;
    RunIsChain(p, ticks, lists);
    RunLength(p, ticks, lists);
    ResolvedSettings(p);
    EdgesExactly(Resolve(p), ticks, Indexes(lists), m, path);
  }

  lemma RunLength(p: Policy, ticks: seq<Observed>, lists: seq<seq<Suggestion>>)
    requires IsRun(p, ticks, lists)
    ensures |lists| == |ticks| + 1
  {
  }
}
