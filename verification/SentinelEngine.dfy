/** The sentinel engine as the source runs it: one mutable state, folded, judged, trimmed and
    re-published in place each tick. Its methods realise the tick relation of SentinelRuns. */
module SentinelEngine {
  import opened Basics
  import opened Ordering
  import opened Sentinel
  import opened ActionBudget
  import opened SentinelRuns
  import S = Suggestions
  import L = SuggestionLifecycle

  // ---- Bookkeeping of the record loop ------------------------------------------------

  /** Keys still in `left` are untouched, the others carry their verdict. */
  ghost predicate HalfJudged(cfg: Config, table: Table, ips: Table, left: set<string>, now: int, grants: set<string>) {
    && left <= table.Keys
    && ips.Keys <= table.Keys
    && (forall k <- left :: k in ips && ips[k] == table[k])
    && (forall k <- table :: k !in left ==> Verdict(cfg, table, ips, k, now, k in grants))
  }

  ghost predicate Verdict(cfg: Config, table: Table, ips: Table, k: string, now: int, granted: bool)
    requires k in table
  {
    if k in ips then Judge(cfg, table[k], now, granted) == Some(ips[k])
    else Judge(cfg, table[k], now, granted) == None
  }

  lemma JudgedOne(cfg: Config, table: Table, before: Table, left: set<string>, now: int, grants: set<string>,
                  key: string, granted: bool, after: Table)
    requires HalfJudged(cfg, table, before, left, now, grants) && key in left && key !in grants
    requires var out := Judge(cfg, table[key], now, granted);
             after == if out.Some? then before[key := out.value] else before - {key}
    ensures HalfJudged(cfg, table, after, left - {key}, now, if granted then grants + {key} else grants)
  {
    var grants' := if granted then grants + {key} else grants;
    forall k | k in table && k !in left - {key}
      ensures Verdict(cfg, table, after, k, now, k in grants')
    {
      if k != key { assert Verdict(cfg, table, before, k, now, k in grants); }
    }
  }

  /** The budget has answered every processed asker, and granted as many as it could. */
  ghost predicate Tallied(asking: set<string>, left: set<string>, grants: set<string>,
                          start: Budget, limit: int, now: int, window: Budget) {
    && grants <= asking - left
    && |grants| == Min(|asking - left|, Available(start, limit, now))
    && window == Charge(start, limit, now, |asking - left|)
  }

  lemma TalliedOne(asking: set<string>, left: set<string>, grants: set<string>, start: Budget, limit: int, now: int,
                   before: Budget, key: string, granted: bool, after: Budget)
    requires Tallied(asking, left, grants, start, limit, now, before) && key in left && limit > 0
    requires if key in asking then (after, granted) == Consume(before, limit, now) else after == before && !granted
    ensures Tallied(asking, left - {key}, if granted then grants + {key} else grants, start, limit, now, after)
  {
    var done := asking - left;
    if key in asking {
      assert asking - (left - {key}) == done + {key} && |done + {key}| == |done| + 1;
      ChargeGrants(start, limit, now, |done|);
    } else {
      assert asking - (left - {key}) == done;
    }
  }

  lemma NoneJudged(cfg: Config, table: Table, now: int, asking: set<string>, start: Budget, limit: int)
    requires asking <= table.Keys && limit > 0
    ensures HalfJudged(cfg, table, table, table.Keys, now, {})
    ensures Tallied(asking, table.Keys, {}, start, limit, now, start)
  {
    assert asking - table.Keys == {};
  }

  lemma AllJudged(cfg: Config, table: Table, ips: Table, now: int, grants: set<string>)
    requires HalfJudged(cfg, table, ips, {}, now, grants)
    ensures ips == JudgeAll(cfg, table, now, grants)
  {
    forall k | k in table
      ensures k in ips <==> k in JudgeAll(cfg, table, now, grants)
      ensures k in ips ==> ips[k] == JudgeAll(cfg, table, now, grants)[k]
    {
      assert Verdict(cfg, table, ips, k, now, k in grants);
    }
  }

  lemma AllTallied(cfg: Config, table: Table, now: int, grants: set<string>, start: Budget, window: Budget)
    requires Tallied(Askers(cfg, table, now), {}, grants, start, Cap(cfg), now, window)
    ensures ValidGrants(cfg, table, start, now, grants)
    ensures window == Charge(start, Cap(cfg), now, |Askers(cfg, table, now)|)
  {
    assert Askers(cfg, table, now) - {} == Askers(cfg, table, now);
  }

  // ---- Bookkeeping of eviction --------------------------------------------------------

  datatype Victim = Victim(key: string, score: real, lastSeen: int)

  predicate WeakerVictim(a: Victim, b: Victim) {
    a.score < b.score || (a.score == b.score && a.lastSeen < b.lastSeen)
  }

  function VictimOf(table: Table, k: string, now: int): Victim
    requires k in table
  {
    Victim(k, table[k].score, SeenAt(table[k], now))
  }

  /** `all` lists every record of `keys` once. */
  ghost predicate Lists(all: seq<Victim>, table: Table, keys: set<string>, now: int) {
    && (forall v <- all :: v.key in table && v == VictimOf(table, v.key, now))
    && (forall k <- table :: VictimOf(table, k, now) in all <==> k in keys)
    && NoRepeats(all)
  }

  lemma ListsOneMore(all: seq<Victim>, table: Table, keys: set<string>, now: int, k: string)
    requires Lists(all, table, keys, now) && k in table && k !in keys
    ensures Lists(all + [VictimOf(table, k, now)], table, keys + {k}, now)
  {
  }

  lemma SortedList(all: seq<Victim>, table: Table, keys: set<string>, now: int)
    requires Lists(all, table, keys, now)
    ensures Lists(SortBy(all, WeakerVictim), table, keys, now)
    ensures Sorted(SortBy(all, WeakerVictim), WeakerVictim)
  {
    assert StrictWeakOrder(WeakerVictim);
    SortBySorted(all, WeakerVictim);
    PermutationMembers(all, SortBy(all, WeakerVictim));
    NoRepeatsPermute(all, SortBy(all, WeakerVictim));
  }

  /** The first n of a sorted list are gone, everything else is left. */
  ghost predicate Evicted(sorted: seq<Victim>, table: Table, n: nat, ips: Table) {
    && n <= |sorted|
    && ips.Keys <= table.Keys
    && |ips| + n == |table|
    && (forall k <- ips :: ips[k] == table[k])
    && (forall i :: 0 <= i < |sorted| ==> (sorted[i].key in ips <==> i >= n))
  }

  lemma AllPresent(sorted: seq<Victim>, table: Table, now: int)
    requires Lists(sorted, table, table.Keys, now)
    ensures Evicted(sorted, table, 0, table)
  {
    forall i | 0 <= i < |sorted| ensures sorted[i].key in table { assert sorted[i] in sorted; }
  }

  lemma EvictOne(sorted: seq<Victim>, table: Table, n: nat, ips: Table, now: int)
    requires Lists(sorted, table, table.Keys, now) && n < |sorted| && Evicted(sorted, table, n, ips)
    ensures Evicted(sorted, table, n + 1, ips - {sorted[n].key})
  {
    var k := sorted[n].key;
    assert k in ips;
    assert (ips - {k}).Keys == ips.Keys - {k} && |ips - {k}| == |ips.Keys - {k}| == |ips| - 1;
    forall i | 0 <= i < |sorted| ensures sorted[i].key in ips - {k} <==> i >= n + 1 {
      assert sorted[i] in sorted && sorted[n] in sorted;
      if sorted[i].key == k { assert sorted[i] == VictimOf(table, k, now) == sorted[n]; }
    }
  }

  lemma EvictedIsValid(cfg: Config, sorted: seq<Victim>, table: Table, n: nat, ips: Table, now: int)
    requires Lists(sorted, table, table.Keys, now) && Sorted(sorted, WeakerVictim)
    requires Evicted(sorted, table, n, ips) && Overflows(cfg, table) && n == |table| - cfg.maxActiveIPs
    ensures ValidEviction(cfg, table, ips, now)
  {
    forall kept, cut | kept in ips && cut in table && cut !in ips
      ensures !Weaker(table[kept], table[cut], now)
    {
      var i :| 0 <= i < |sorted| && sorted[i] == VictimOf(table, kept, now);
      var j :| 0 <= j < |sorted| && sorted[j] == VictimOf(table, cut, now);
      assert i >= n > j;
      assert !WeakerVictim(sorted[i], sorted[j]);
    }
  }

  lemma {:induction false} ListsAll(all: seq<Victim>, table: Table, now: int)
    requires Lists(all, table, table.Keys, now)
    ensures |all| == |table|
  {
    ListsCount(all, table, table.Keys, now);
    assert |table.Keys| == |table|;
  }

  lemma {:induction false} ListsCount(all: seq<Victim>, table: Table, keys: set<string>, now: int)
    requires Lists(all, table, keys, now) && keys <= table.Keys
    ensures |all| == |keys|
    decreases |all|
  {
    if all == [] {
      if k :| k in keys { assert VictimOf(table, k, now) in all; }
    } else {
      var n, v := |all| - 1, all[|all| - 1];
      assert v in all && v.key in keys;
      forall k | k in table ensures VictimOf(table, k, now) in all[..n] <==> k in keys - {v.key} {
        if VictimOf(table, k, now) in all { assert all == all[..n] + [v]; }
      }
      ListsCount(all[..n], table, keys - {v.key}, now);
    }
  }

  /** What reading the access log since the last offset gives. */
  datatype Log = Missing | Unreadable | Lines(effects: seq<Effect>, scans: seq<S.Scan>)

  class Engine {
    var ips: Table
    var windowStart: Option<int>
    var actionsInWindow: int
    var suggestions: seq<S.Suggestion>

    function Window(): Budget
      reads this
    {
      Budget(windowStart, actionsInWindow)
    }

    function Value(): State
      reads this
    {
      State(ips, Window(), suggestions)
    }

    constructor ()
      ensures Value() == INITIAL
    {
      ips, windowStart, actionsInWindow, suggestions := map[], None, 0, [];
    }

    /** applyScore, applyImmediateDrop and the model tag: rewrite one record. */
    method Fold(cfg: Config, effects: seq<Effect>)
      modifies `ips
      ensures ips == ApplyEffects(cfg, old(ips), effects)
    {
      for i := 0 to |effects|
        invariant ips == ApplyEffects(cfg, old(ips), effects[..i])
      {
        var e := effects[i];
        assert effects[..i + 1][..i] == effects[..i];
        ips := ips[e.key := Absorb(cfg, Tracked(ips, e.key), e.event)];
      }
      assert effects[..|effects|] == effects;
    }

    method ConsumeActionBudget(limit: int, now: int) returns (ok: bool)
      modifies `windowStart, `actionsInWindow
      ensures (Window(), ok) == Consume(old(Window()), limit, now)
    {
      if windowStart.None? || now - windowStart.value >= WINDOW {
        windowStart, actionsInWindow := Some(now), 0;
      }
      if actionsInWindow >= limit {
        return false;
      }
      actionsInWindow := actionsInWindow + 1;
      return true;
    }

    /** One pass of the record loop: decay, gate, cooldown, transition, budget. */
    method JudgeRecord(cfg: Config, key: string, now: int) returns (ghost asked: bool, ghost granted: bool)
      requires key in ips
      modifies `ips, `windowStart, `actionsInWindow
      ensures asked == AsksBudget(cfg, old(ips)[key], now)
      ensures granted ==> asked
      ensures asked ==> (Window(), granted) == Consume(old(Window()), Cap(cfg), now)
      ensures !asked ==> Window() == old(Window())
      ensures var out := Judge(cfg, old(ips)[key], now, granted);
              ips == if out.Some? then old(ips)[key := out.value] else old(ips) - {key}
    {
      asked, granted := false, false;
      var rec := Decayed(cfg, ips[key], now);
      if InactivityExpired(cfg, rec, now) {
        ips := ips - {key};
        return;
      }
      var previous := CurrentAction(rec);
      var desired := Desired(cfg, rec, now);
      var transitioned: bool;
      var resolved := ResolveTransition(cfg, rec, previous, desired);
      rec, desired, transitioned := resolved.0, resolved.1, resolved.2;
      if transitioned {
        asked := true;
        var ok := ConsumeActionBudget(Cap(cfg), now);
        granted := ok;
        if !ok {
          desired := previous;
        } else {
          rec := rec.(lastAction := desired, lastActionAt := Some(now));
        }
      }
      rec := rec.(stage := desired);
      rec := WithRisk(rec.(expiresAt := Some(ActionExpiry(cfg, now, rec.stage))));
      if (rec.stage == NoAction && rec.score < 0.2) || now > rec.expiresAt.value {
        ips := ips - {key};
      } else {
        ips := ips[key := rec];
      }
    }

    /** The record loop over the whole table, in whatever order the map yields its keys. */
    method JudgeRecords(cfg: Config, now: int) returns (ghost grants: set<string>)
      modifies `ips, `windowStart, `actionsInWindow
      ensures ValidGrants(cfg, old(ips), old(Window()), now, grants)
      ensures ips == JudgeAll(cfg, old(ips), now, grants)
      ensures Window() == Charge(old(Window()), Cap(cfg), now, |Askers(cfg, old(ips), now)|)
    {
      grants := {};
      ghost var table, start, asking := ips, Window(), Askers(cfg, ips, now);
      var left := ips.Keys;
      NoneJudged(cfg, table, now, asking, start, Cap(cfg));
      while left != {}
        invariant HalfJudged(cfg, table, ips, left, now, grants)
        invariant Tallied(asking, left, grants, start, Cap(cfg), now, Window())
        decreases |left|
      {
        var key :| key in left;
        grants := JudgeNext(cfg, now, key, table, start, left, grants);
        TakeOff(left, left, key);
        left := left - {key};
      }
      AllJudged(cfg, table, ips, now, grants);
      AllTallied(cfg, table, now, grants, start, Window());
    }

    /** One turn of that loop. */
    method JudgeNext(cfg: Config, now: int, key: string, ghost table: Table, ghost start: Budget,
                     ghost left: set<string>, ghost grants: set<string>)
      returns (ghost granted: set<string>)
      requires key in left && HalfJudged(cfg, table, ips, left, now, grants)
      requires Tallied(Askers(cfg, table, now), left, grants, start, Cap(cfg), now, Window())
      modifies `ips, `windowStart, `actionsInWindow
      ensures HalfJudged(cfg, table, ips, left - {key}, now, granted)
      ensures Tallied(Askers(cfg, table, now), left - {key}, granted, start, Cap(cfg), now, Window())
    {
      ghost var before, window, asking := ips, Window(), Askers(cfg, table, now);
      assert key in ips && ips[key] == table[key] && key !in grants;
      ghost var asked, ok := JudgeRecord(cfg, key, now);
      assert asked <==> key in asking;
      granted := if ok then grants + {key} else grants;
      JudgedOne(cfg, table, before, left, now, grants, key, ok, ips);
      TalliedOne(asking, left, grants, start, Cap(cfg), now, window, key, ok, Window());
    }

    method ListVictims(now: int) returns (all: seq<Victim>)
      ensures Lists(all, ips, ips.Keys, now)
    {
      all := [];
      var left := ips.Keys;
      assert ips.Keys - left == {};
      while left != {}
        invariant left <= ips.Keys
        invariant Lists(all, ips, ips.Keys - left, now)
        decreases |left|
      {
        var key :| key in left;
        ListsOneMore(all, ips, ips.Keys - left, now, key);
        TakeOff(ips.Keys, left, key);
        all := all + [VictimOf(ips, key, now)];
        left := left - {key};
      }
      assert ips.Keys - left == ips.Keys;
    }

    /** evictOverflow: sort by score then age, delete from the front until the table fits. */
    method EvictOverflow(cfg: Config, now: int) returns (changed: bool)
      modifies `ips
      ensures ValidEviction(cfg, old(ips), ips, now)
      ensures changed <==> Overflows(cfg, old(ips))
    {
      if cfg.maxActiveIPs <= 0 || |ips| <= cfg.maxActiveIPs {
        return false;
      }
      ghost var table := ips;
      var all := ListVictims(now);
      SortedList(all, table, table.Keys, now);
      all := SortBy(all, WeakerVictim);
      ListsAll(all, table, now);
      AllPresent(all, table, now);
      for i := 0 to |all| - cfg.maxActiveIPs
        invariant Evicted(all, table, i, ips)
      {
        EvictOne(all, table, i, ips, now);
        ips := ips - {all[i].key};
      }
      EvictedIsValid(cfg, all, table, |all| - cfg.maxActiveIPs, ips, now);
      return true;
    }

    /** processTick over a batch of log events. */
    method ProcessBatch(cfg: Config, policy: S.Policy, now: int, effects: seq<Effect>, scans: seq<S.Scan>)
      returns (ghost tick: Tick)
      requires cfg.modelEnabled
      modifies this
      ensures tick.Batch? && tick.now == now && tick.effects == effects && tick.stats == S.CountAll(scans)
      ensures Ticks(cfg, policy, old(Value()), tick, Value())
    {
      var stats := S.CollectScans(scans);
      Fold(cfg, effects);
      ghost var grants := JudgeRecords(cfg, now);
      var _ := EvictOverflow(cfg, now);
      suggestions := L.BuildRuleSuggestions(policy, stats, suggestions, now);
      tick := Batch(now, effects, stats, grants);
    }

    /** processTick: a log that is missing or unreadable changes nothing, a disabled model clears the state
        unless the log cannot be read. */
    method ProcessTick(cfg: Config, policy: S.Policy, now: int, log: Log) returns (ghost tick: Tick)
      modifies this
      ensures match log
              case Missing => tick == LogMissing(now)
              case Unreadable => tick == LogUnreadable(now)
              case Lines(effects, scans) => tick.Batch? && tick.now == now && tick.effects == effects
                                            && tick.stats == S.CountAll(scans)
      ensures Ticks(cfg, policy, old(Value()), tick, Value())
    {
      tick := match log
        case Missing => LogMissing(now)
        case Unreadable => LogUnreadable(now)
        case Lines(effects, scans) => Batch(now, effects, S.CountAll(scans), {});
      if log.Unreadable? { return; }
      if !cfg.modelEnabled {
        ips, windowStart, actionsInWindow, suggestions := map[], None, 0, [];
        return;
      }
      if log.Missing? { return; }
      tick := ProcessBatch(cfg, policy, now, log.effects, log.scans);
    }
  }
}
