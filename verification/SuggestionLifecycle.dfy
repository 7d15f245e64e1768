/** Runs of the suggestion state machine, from an empty list. */
module SuggestionLifecycle {
  import opened Basics
  import opened Ranking
  import opened Suggestions

  /** buildRuleSuggestions, whatever order its maps are walked in. */
  ghost function Build(p: Policy, stats: Stats, previous: seq<Suggestion>, now: int): seq<Suggestion> {
    PublishIndex(Candidates(Resolve(p), stats, IndexOf(previous), now), p.maxPublished)
  }

  lemma {:induction false} IndexMembers(list: seq<Suggestion>)
    ensures Named(IndexOf(list))
    ensures forall k <- IndexOf(list) :: IndexOf(list)[k] in list
  {
    if list != [] { IndexMembers(list[..|list| - 1]); }
  }

  lemma CandidatesNamed(p: Policy, stats: Stats, prev: Index, now: int)
    requires Named(prev)
    ensures Named(Candidates(p, stats, prev, now))
  {
  }

  /** Every published suggestion is its path's outcome; the cap only removes. */
  lemma BuildStep(p: Policy, stats: Stats, previous: seq<Suggestion>, now: int)
    ensures PathsAscend(Build(p, stats, previous, now))
    ensures forall k <- IndexOf(Build(p, stats, previous, now)) ::
              Outcome(Resolve(p), stats, IndexOf(previous), k, now)
              == Some(IndexOf(Build(p, stats, previous, now))[k])
  {
    IndexMembers(previous);
    var m := Candidates(Resolve(p), stats, IndexOf(previous), now);
    CandidatesNamed(Resolve(p), stats, IndexOf(previous), now);
    PublishedSuggestions(m, p.maxPublished);
    var out := Build(p, stats, previous, now);
    IndexMembers(out);
    forall k | k in IndexOf(out)
      ensures Outcome(Resolve(p), stats, IndexOf(previous), k, now) == Some(IndexOf(out)[k])
    {
      assert IndexOf(out)[k] in out && IndexOf(out)[k].path == k;
    }
  }

  // ---- The loops -------------------------------------------------------------------

  method IndexPrevious(previous: seq<Suggestion>) returns (prevByPath: Index)
    ensures prevByPath == IndexOf(previous)
  {
    prevByPath := map[];
    for i := 0 to |previous|
      invariant prevByPath == IndexOf(previous[..i])
    {
      assert previous[..i + 1][..i] == previous[..i];
      if previous[i].path != "" {
        prevByPath := prevByPath[previous[i].path := previous[i]];
      }
    }
    assert previous[..|previous|] == previous;
  }

  method CollectScanned(p: Policy, stats: Stats, prev: Index, now: int, ghost m: Index)
    returns (out: seq<Suggestion>, ghost keys: seq<string>)
    requires forall path <- stats :: path in m <==> Qualifies(p, stats[path])
    requires forall path <- stats :: path in m ==> m[path] == Advance(p, path, stats[path], Previous(prev, path), now)
    ensures Collected(keys, out, m, stats.Keys)
  {
    out, keys := [], [];
    var left := stats.Keys;
    AllTakenOff({}, stats.Keys);
    while left != {}
      invariant left <= stats.Keys
      invariant Collected(keys, out, m, stats.Keys - left)
      decreases |left|
    {
      var path :| path in left;
      TakeOff(stats.Keys, left, path);
      CollectOne(keys, out, m, stats.Keys - left, path);
      if Qualifies(p, stats[path]) {
        out := out + [Advance(p, path, stats[path], Previous(prev, path), now)];
        keys := keys + [path];
      }
      left := left - {path};
    }
  }

  method CollectQuiet(ttl: int, stats: Stats, prev: Index, now: int, ghost m: Index,
                      scanned: seq<Suggestion>, ghost scannedKeys: seq<string>)
    returns (out: seq<Suggestion>, ghost keys: seq<string>)
    requires Collected(scannedKeys, scanned, m, stats.Keys)
    requires forall path <- prev :: path !in stats ==> (path in m <==> !Expired(prev[path], now, ttl))
    requires forall path <- prev :: path !in stats && path in m ==> m[path] == prev[path]
    ensures Collected(keys, out, m, stats.Keys + prev.Keys)
  {
    out, keys := scanned, scannedKeys;
    var left := prev.Keys;
    AllTakenOff(stats.Keys, prev.Keys);
    while left != {}
      invariant left <= prev.Keys
      invariant Collected(keys, out, m, stats.Keys + (prev.Keys - left))
      decreases |left|
    {
      var path :| path in left;
      TakeOffBeside(stats.Keys, prev.Keys, left, path);
      if path in stats {
        CollectAgain(keys, out, m, stats.Keys + (prev.Keys - left), path);
      } else {
        CollectOne(keys, out, m, stats.Keys + (prev.Keys - left), path);
        if !Expired(prev[path], now, ttl) {
          out := out + [prev[path]];
          keys := keys + [path];
        }
      }
      left := left - {path};
    }
  }

  /** buildRuleSuggestions as the source runs it: one loop over the scanner map, one over the
      previous suggestions, then the two sorts around the cap. */
  method BuildRuleSuggestions(policy: Policy, stats: Stats, previous: seq<Suggestion>, now: int)
    returns (out: seq<Suggestion>)
    ensures out == Build(policy, stats, previous, now)
    ensures PathsAscend(out)
  {
    var p := Resolve(policy);
    var prevByPath := IndexPrevious(previous);
    ghost var m := Candidates(p, stats, prevByPath, now);
    ghost var keys;
    out, keys := CollectScanned(p, stats, prevByPath, now, m);
    out, keys := CollectQuiet(p.inactiveTTL, stats, prevByPath, now, m, out, keys);
    IndexMembers(previous);
    CandidatesNamed(p, stats, prevByPath, now);
    CollectedAll(keys, out, m, stats.Keys + prevByPath.Keys);
    IndexOrderIsIrrelevant(m, keys, policy.maxPublished);
    out := Select(out, policy.maxPublished);
    BuildStep(policy, stats, previous, now);
  }

  // ---- Runs -----------------------------------------------------------------------

  /** What one tick observed. */
  datatype Observed = Observed(stats: Stats, now: int)

  /** A run from no suggestions: lists[m] is the published list after m ticks. */
  ghost predicate IsRun(p: Policy, ticks: seq<Observed>, lists: seq<seq<Suggestion>>) {
    && |lists| == |ticks| + 1
    && lists[0] == []
    && (forall m :: 0 <= m < |ticks| ==> Plausible(ticks[m].stats))
    && (forall m :: 0 <= m < |ticks| ==> Publishes(p, ticks[m], lists[m], lists[m + 1]))
  }

  ghost predicate Publishes(p: Policy, tick: Observed, before: seq<Suggestion>, after: seq<Suggestion>) {
    after == Build(p, tick.stats, before, tick.now)
  }

  /** The same run seen path by path: everything known after a tick is that tick's outcome. */
  ghost predicate Chain(q: Policy, ticks: seq<Observed>, known: seq<Index>) {
    && |known| == |ticks| + 1
    && known[0] == map[]
    && (forall m :: 0 <= m < |ticks| ==> Plausible(ticks[m].stats))
    && (forall m :: 0 <= m < |ticks| ==> Step(q, ticks[m], known[m], known[m + 1]))
  }

  ghost predicate Step(q: Policy, tick: Observed, before: Index, after: Index) {
    forall k <- after :: Outcome(q, tick.stats, before, k, tick.now) == Some(after[k])
  }

  ghost function Indexes(lists: seq<seq<Suggestion>>): (known: seq<Index>)
    ensures |known| == |lists|
    ensures forall m :: 0 <= m < |lists| ==> known[m] == IndexOf(lists[m])
  {
    if lists == [] then [] else Indexes(lists[..|lists| - 1]) + [IndexOf(lists[|lists| - 1])]
  }

  /** Every run is a chain, and every list it publishes is strictly ascending by path. */
  lemma RunIsChain(p: Policy, ticks: seq<Observed>, lists: seq<seq<Suggestion>>)
    requires IsRun(p, ticks, lists)
    ensures Chain(Resolve(p), ticks, Indexes(lists))
    ensures forall m :: 0 <= m < |lists| ==> PathsAscend(lists[m])
  {
    var known := Indexes(lists);
    forall m | 0 <= m < |ticks|
      ensures Step(Resolve(p), ticks[m], known[m], known[m + 1])
    {
      PublishingSteps(p, ticks[m], lists[m], lists[m + 1]);
    }
    forall m | 0 <= m < |lists| ensures PathsAscend(lists[m]) {
      if m > 0 { PublishingSteps(p, ticks[m - 1], lists[m - 1], lists[m]); }
    }
  }

  lemma PublishingSteps(p: Policy, tick: Observed, before: seq<Suggestion>, after: seq<Suggestion>)
    requires Publishes(p, tick, before, after)
    ensures PathsAscend(after) && Step(Resolve(p), tick, IndexOf(before), IndexOf(after))
  {
    BuildStep(p, tick.stats, before, tick.now);
  }

  ghost predicate Has(known: seq<Index>, m: int, path: string, status: Status) {
    0 <= m < |known| && path in known[m] && known[m][path].status == status
  }

  /** False positives are a part of the shadow hits, in every suggestion of every run. */
  lemma {:induction false} CountersStayPlausible(q: Policy, ticks: seq<Observed>, known: seq<Index>, m: nat, path: string)
    requires Chain(q, ticks, known) && m < |known| && path in known[m]
    ensures 0 <= known[m][path].shadowFP <= known[m][path].shadowHits
  {
    if m > 0 {
      if path in known[m - 1] { CountersStayPlausible(q, ticks, known, m - 1, path); }
      assert Step(q, ticks[m - 1], known[m - 1], known[m]);
    }
  }

  /** The coded edges; None is a path the list does not hold. */
  predicate Edge(before: Option<Status>, after: Status) {
    match before
    case None => after == Suggested || after == Shadow
    case Some(Suggested) => after == Suggested || after == Shadow
    case Some(Shadow) => after != Permanent
    case Some(Temporary) => true
    case Some(Permanent) => after == Permanent || after == Shadow
  }

  lemma StatusMovesAlongEdges(q: Policy, ticks: seq<Observed>, known: seq<Index>, m: nat, path: string)
    requires Chain(q, ticks, known) && 0 < m < |known| && path in known[m]
    ensures Edge(if path in known[m - 1] then Some(known[m - 1][path].status) else None, known[m][path].status)
  {
    assert Step(q, ticks[m - 1], known[m - 1], known[m]);
  }

  /** Temporary from tick j to tick m, having been in shadow just before. */
  ghost predicate TemporarySince(known: seq<Index>, path: string, j: nat, m: nat) {
    && 2 <= j <= m < |known|
    && Has(known, j - 1, path, Shadow)
    && (forall i :: j <= i <= m ==> Has(known, i, path, Temporary))
  }

  lemma ChainStep(q: Policy, ticks: seq<Observed>, known: seq<Index>, m: int)
    requires Chain(q, ticks, known) && -1 <= m < |ticks| && known[m + 1] != map[]
    ensures 0 <= m && Step(q, ticks[m], known[m], known[m + 1])
  {
  }

  lemma StaysTemporary(q: Policy, tick: Observed, before: Index, after: Index, path: string)
    requires Step(q, tick, before, after) && path in before && path in after
    requires before[path].status == Temporary && after[path].status == Temporary
    ensures after[path].temporaryUntil == before[path].temporaryUntil
  {
  }

  lemma EntersTemporary(q: Policy, tick: Observed, before: Index, after: Index, path: string)
    requires Step(q, tick, before, after) && path in after && after[path].status == Temporary
    requires path in before ==> before[path].status != Temporary
    ensures path in before && before[path].status == Shadow
    ensures after[path].temporaryUntil == Some(tick.now + q.temporaryHold)
  {
  }

  lemma EntersPermanent(q: Policy, tick: Observed, before: Index, after: Index, path: string)
    requires Step(q, tick, before, after) && path in after && after[path].status == Permanent
    requires path in before ==> before[path].status != Permanent
    ensures path in before && before[path].status == Temporary
    ensures before[path].temporaryUntil.Some? ==> tick.now > before[path].temporaryUntil.value
    ensures after[path].shadowHits >= q.permanentPromoteHits
    ensures FPRate(after[path].shadowHits, after[path].shadowFP) <= q.shadowMaxFPRate * 0.5
  {
  }

  /** A temporary suggestion has held that status since the tick that took it out of shadow, and
      expires one hold after that tick. */
  lemma {:induction false} TemporaryStory(q: Policy, ticks: seq<Observed>, known: seq<Index>, m: nat, path: string)
    returns (j: nat)
    requires Chain(q, ticks, known) && Has(known, m, path, Temporary)
    ensures TemporarySince(known, path, j, m)
    ensures known[m][path].temporaryUntil == Some(ticks[j - 1].now + q.temporaryHold)
  {
    hide Step;
    ChainStep(q, ticks, known, m - 1);
    if Has(known, m - 1, path, Temporary) {
      StaysTemporary(q, ticks[m - 1], known[m - 1], known[m], path);
      j := TemporaryStory(q, ticks, known, m - 1, path);
    } else {
      EntersTemporary(q, ticks[m - 1], known[m - 1], known[m], path);
      j := m;
      assert m - 1 != 0;
    }
  }

  /** Shadow, then temporary from tick j, then promoted at tick k strictly more than the hold after
      j on enough shadow hits and at most half the tolerated false-positive rate, and kept since. */
  ghost predicate PromotedVia(q: Policy, ticks: seq<Observed>, known: seq<Index>, path: string, j: nat, k: nat, m: nat)
    requires Chain(q, ticks, known)
  {
    && j < k <= m < |known|
    && TemporarySince(known, path, j, k - 1)
    && (forall i :: k <= i <= m ==> Has(known, i, path, Permanent))
    && Has(known, k, path, Permanent)
    && ticks[k - 1].now > ticks[j - 1].now + q.temporaryHold
    && known[k][path].shadowHits >= q.permanentPromoteHits
    && FPRate(known[k][path].shadowHits, known[k][path].shadowFP) <= q.shadowMaxFPRate * 0.5
  }

  /** No permanent suggestion without the whole ladder behind it. */
  lemma {:induction false} PermanentStory(q: Policy, ticks: seq<Observed>, known: seq<Index>, m: nat, path: string)
    returns (j: nat, k: nat)
    requires Chain(q, ticks, known) && Has(known, m, path, Permanent)
    ensures PromotedVia(q, ticks, known, path, j, k, m)
  {
    hide Step;
    ChainStep(q, ticks, known, m - 1);
    if Has(known, m - 1, path, Permanent) {
      j, k := PermanentStory(q, ticks, known, m - 1, path);
    } else {
      k := m;
      EntersPermanent(q, ticks[m - 1], known[m - 1], known[m], path);
      j := TemporaryStory(q, ticks, known, m - 1, path);
    }
  }

  lemma {:induction false} IndexCovers(list: seq<Suggestion>, s: Suggestion)
    requires s in list && s.path != ""
    ensures s.path in IndexOf(list)
  {
    var n := |list| - 1;
    if list[n] != s { IndexCovers(list[..n], s); }
  }

  lemma UncappedKeepsAll(m: Index, cap: int)
    requires Named(m) && cap <= 0
    ensures forall k :: k != "" ==> (k in IndexOf(PublishIndex(m, cap)) <==> k in m)
  {
    var out := PublishIndex(m, cap);
    PublishedSuggestions(m, cap);
    IndexMembers(out);
    forall k | k != "" && k in m ensures k in IndexOf(out) { IndexCovers(out, m[k]); }
  }

  lemma ResolvedTTL(p: Policy)
    ensures Resolve(p).inactiveTTL > 0
  {
  }

  lemma NoCandidateWhen(q: Policy, stats: Stats, prev: Index, now: int, path: string)
    requires q.inactiveTTL > 0
    ensures path !in Candidates(q, stats, prev, now) <==>
              if path in stats then stats[path].hits < q.minHits || |stats[path].ips| < q.minUniqueIPs
              else if path !in prev then true
              else prev[path].lastSeen.Some? && now - prev[path].lastSeen.value > q.inactiveTTL
  {
    hide Advance;
  }

  /** Without a cap a path is forgotten exactly when it was seen too rarely this tick, or was not
      seen and is unknown or stale: one tick of light traffic erases even a permanent suggestion. */
  lemma ForgottenWhen(p: Policy, stats: Stats, previous: seq<Suggestion>, now: int, path: string)
    requires p.maxPublished <= 0 && path != ""
    ensures path !in IndexOf(Build(p, stats, previous, now)) <==>
              var q := Resolve(p);
              if path in stats then stats[path].hits < q.minHits || |stats[path].ips| < q.minUniqueIPs
              else if path !in IndexOf(previous) then true
              else
                var seen := IndexOf(previous)[path].lastSeen;
                seen.Some? && now - seen.value > q.inactiveTTL
  {
    hide Resolve, Outcome, Candidates, PublishIndex, IndexOf;
    IndexMembers(previous);
    ResolvedTTL(p);
    CandidatesNamed(Resolve(p), stats, IndexOf(previous), now);
    UncappedKeepsAll(Candidates(Resolve(p), stats, IndexOf(previous), now), p.maxPublished);
    NoCandidateWhen(Resolve(p), stats, IndexOf(previous), now, path);
  }
}
