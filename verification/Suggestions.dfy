/** The lifecycle of L7 rule suggestions: suggested, shadow, temporary, permanent. */
module Suggestions {
  import opened Basics
  import opened Text
  import opened Ranking

  datatype Status = Suggested | Shadow | Temporary | Permanent

  datatype Suggestion = Suggestion(
    path: string,
    status: Status,
    hits: int,
    uniqueIPs: int,
    shadowHits: int,
    shadowFP: int,
    temporaryUntil: Option<int>,
    reason: string,
    firstSeen: Option<int>,
    lastSeen: Option<int>,
    generatedAt: int)

  /** The zero RuleSuggestion a lookup of an unknown path yields; its blank status means suggested. */
  const UNKNOWN := Suggestion("", Suggested, 0, 0, 0, 0, None, "", None, None, 0)

  /** Suggestion settings; non-positive numbers select the defaults of Resolve. */
  datatype Policy = Policy(
    minHits: int,
    minUniqueIPs: int,
    shadowPromoteHits: int,
    temporaryPromoteHits: int,
    permanentPromoteHits: int,
    shadowMaxFPRate: real,
    temporaryHold: int,
    inactiveTTL: int,
    permanentMinLifetime: int,
    maxPublished: int)

  function OrDefault(value: int, default: int): int {
    if value <= 0 then default else value
  }

  function Resolve(p: Policy): Policy {
    var minHits := OrDefault(p.minHits, 20);
    p.(minHits := minHits,
       minUniqueIPs := OrDefault(p.minUniqueIPs, 5),
       shadowPromoteHits := OrDefault(p.shadowPromoteHits, minHits * 2),
       temporaryPromoteHits := OrDefault(p.temporaryPromoteHits, minHits * 4),
       permanentPromoteHits := OrDefault(p.permanentPromoteHits, minHits * 8),
       shadowMaxFPRate := if p.shadowMaxFPRate <= 0.0 then 0.02 else p.shadowMaxFPRate,
       temporaryHold := OrDefault(p.temporaryHold, 14400),
       inactiveTTL := OrDefault(p.inactiveTTL, 86400))
  }

  // ---- Scanner statistics of one tick -----------------------------------------

  datatype Scan = Scan(path: string, ip: string, status: int, when: int)

  datatype ScanStat = ScanStat(hits: int, successHits: int, ips: set<string>, firstSeen: int, lastSeen: int)

  type Stats = map<string, ScanStat>

  /** One request under a known scanner prefix. */
  function Count(stats: Stats, scan: Scan): Stats {
    var s := if scan.path in stats then stats[scan.path] else ScanStat(0, 0, {}, scan.when, scan.when);
    stats[scan.path := ScanStat(
      s.hits + 1,
      s.successHits + (if 200 <= scan.status < 400 then 1 else 0),
      s.ips + {scan.ip},
      Min(scan.when, s.firstSeen),
      Max(scan.when, s.lastSeen))]
  }

  function CountAll(scans: seq<Scan>): Stats {
    if scans == [] then map[] else Count(CountAll(scans[..|scans| - 1]), scans[|scans| - 1])
  }

  /** Successes are a part of the hits. */
  predicate Plausible(stats: Stats) {
    forall path <- stats :: 0 <= stats[path].successHits <= stats[path].hits
  }

  lemma {:induction false} CountsArePlausible(scans: seq<Scan>)
    ensures Plausible(CountAll(scans))
  {
    if scans != [] { CountsArePlausible(scans[..|scans| - 1]); }
  }

  function Requests(scans: seq<Scan>, path: string): set<int> {
    set i | 0 <= i < |scans| && scans[i].path == path
  }

  function Successes(scans: seq<Scan>, path: string): set<int> {
    set i | 0 <= i < |scans| && scans[i].path == path && 200 <= scans[i].status < 400
  }

  ghost predicate ComeFrom(ips: set<string>, scans: seq<Scan>, path: string) {
    forall ip :: ip in ips <==> exists s <- scans :: s.path == path && s.ip == ip
  }

  /** The requests for a path lie between these two, and both are times of such requests. */
  ghost predicate Span(first: int, last: int, scans: seq<Scan>, path: string) {
    && (forall s <- scans :: s.path == path ==> first <= s.when <= last)
    && (exists s <- scans :: s.path == path && s.when == first)
    && (exists s <- scans :: s.path == path && s.when == last)
  }

  /** The counters of a path are those of the requests for it. */
  ghost predicate Tallies(stat: ScanStat, scans: seq<Scan>, path: string) {
    && stat.hits == |Requests(scans, path)| && stat.successHits == |Successes(scans, path)|
    && ComeFrom(stat.ips, scans, path)
    && Span(stat.firstSeen, stat.lastSeen, scans, path)
  }

  lemma OneMoreRequest(front: seq<Scan>, scan: Scan, path: string)
    ensures Requests(front + [scan], path) == Requests(front, path) + (if scan.path == path then {|front|} else {})
    ensures Successes(front + [scan], path)
            == Successes(front, path) + (if scan.path == path && 200 <= scan.status < 400 then {|front|} else {})
  {
    var scans := front + [scan];
    assert forall i :: 0 <= i < |front| ==> scans[i] == front[i];
    assert scans[|front|] == scan;
  }

  lemma NoRequest(front: seq<Scan>, path: string)
    requires Requests(front, path) == {}
    ensures Successes(front, path) == {} && forall s <- front :: s.path != path
  {
    forall i | 0 <= i < |front| ensures front[i].path != path { assert i !in Requests(front, path); }
  }

  lemma TalliedFirst(front: seq<Scan>, scan: Scan, t: ScanStat)
    requires Requests(front, scan.path) == {}
    requires t == ScanStat(1, if 200 <= scan.status < 400 then 1 else 0, {scan.ip}, scan.when, scan.when)
    ensures Tallies(t, front + [scan], scan.path)
  {
    NoRequest(front, scan.path);
    OneMoreRequest(front, scan, scan.path);
    hide Requests, Successes;
    assert scan in front + [scan];
  }

  lemma OneMoreIP(ips: set<string>, front: seq<Scan>, scan: Scan)
    requires ComeFrom(ips, front, scan.path)
    ensures ComeFrom(ips + {scan.ip}, front + [scan], scan.path)
  {
    var scans := front + [scan];
    assert scan in scans && forall x :: x in scans <==> x in front || x == scan;
    forall ip ensures ip in ips + {scan.ip} <==> exists s <- scans :: s.path == scan.path && s.ip == ip {
      if ip in ips { var s :| s in front && s.path == scan.path && s.ip == ip; assert s in scans; }
    }
  }

  lemma TalliedAgain(s: ScanStat, front: seq<Scan>, scan: Scan, t: ScanStat)
    requires Tallies(s, front, scan.path)
    requires t == ScanStat(s.hits + 1, s.successHits + (if 200 <= scan.status < 400 then 1 else 0), s.ips + {scan.ip},
                           Min(scan.when, s.firstSeen), Max(scan.when, s.lastSeen))
    ensures Tallies(t, front + [scan], scan.path)
  {
    var scans, path := front + [scan], scan.path;
    OneMoreRequest(front, scan, path);
    assert |front| !in Requests(front, path) && |front| !in Successes(front, path);
    OneMoreIP(s.ips, front, scan);
    hide Requests, Successes, ComeFrom, Span;
    SpanGrows(s.firstSeen, s.lastSeen, front, scan);
  }

  lemma SpanGrows(first: int, last: int, front: seq<Scan>, scan: Scan)
    requires Span(first, last, front, scan.path)
    ensures Span(Min(scan.when, first), Max(scan.when, last), front + [scan], scan.path)
  {
    var scans := front + [scan];
    assert scan in scans && forall x :: x in scans <==> x in front || x == scan;
    var x :| x in front && x.path == scan.path && x.when == first;
    var y :| y in front && y.path == scan.path && y.when == last;
    assert x in scans && y in scans;
  }

  lemma TalliedOnce(stats: Stats, front: seq<Scan>, scan: Scan)
    requires scan.path in stats <==> Requests(front, scan.path) != {}
    requires scan.path in stats ==> Tallies(stats[scan.path], front, scan.path)
    ensures Tallies(Count(stats, scan)[scan.path], front + [scan], scan.path)
  {
    hide Tallies, Requests;
    if scan.path in stats {
      TalliedAgain(stats[scan.path], front, scan, Count(stats, scan)[scan.path]);
    } else {
      TalliedFirst(front, scan, Count(stats, scan)[scan.path]);
    }
  }

  lemma TalliedElsewhere(stat: ScanStat, front: seq<Scan>, scan: Scan, path: string)
    requires Tallies(stat, front, path) && scan.path != path
    ensures Tallies(stat, front + [scan], path)
  {
    var scans := front + [scan];
    OneMoreRequest(front, scan, path);
    hide Requests, Successes;
    assert forall x :: x in scans <==> x in front || x == scan;
  }

  lemma {:induction false} CountedIsTallied(scans: seq<Scan>, path: string)
    ensures path in CountAll(scans) <==> Requests(scans, path) != {}
    ensures path in CountAll(scans) ==> Tallies(CountAll(scans)[path], scans, path)
  {
    if scans != [] {
      hide Tallies;
      var front, scan := scans[..|scans| - 1], scans[|scans| - 1];
      assert scans == front + [scan];
      CountedIsTallied(front, path);
      OneMoreRequest(front, scan, path);
      if scan.path == path {
        TalliedOnce(CountAll(front), front, scan);
      } else if path in CountAll(front) {
        TalliedElsewhere(CountAll(front)[path], front, scan, path);
      }
    }
  }

  method CollectScans(scans: seq<Scan>) returns (stats: Stats)
    ensures stats == CountAll(scans) && Plausible(stats)
    ensures forall path :: path in stats <==> Requests(scans, path) != {}
    ensures forall path <- stats :: Tallies(stats[path], scans, path)
  {
    stats := map[];
    for i := 0 to |scans|
      invariant stats == CountAll(scans[..i])
    {
      assert scans[..i + 1][..i] == scans[..i];
      stats := Count(stats, scans[i]);
    }
    assert scans[..|scans|] == scans;
    CountsArePlausible(scans);
    forall path
      ensures path in stats <==> Requests(scans, path) != {}
      ensures path in stats ==> Tallies(stats[path], scans, path)
    {
      CountedIsTallied(scans, path);
    }
  }

  // ---- The status machine -----------------------------------------------------

  function FPRate(shadowHits: int, shadowFP: int): real {
    if shadowHits > 0 then shadowFP as real / shadowHits as real else 0.0
  }

  datatype Move = Move(status: Status, until: Option<int>, reason: string)

  /** The status switch for a path seen often enough this tick. `p` is resolved. */
  function Next(p: Policy, prev: Suggestion, stat: ScanStat, shadowHits: int, shadowFP: int,
                firstSeen: int, now: int): Move {
    var rate := FPRate(shadowHits, shadowFP);
    var stay := Move(prev.status, prev.temporaryUntil, prev.reason);
    match prev.status
    case Suggested =>
      if stat.hits >= p.shadowPromoteHits && |stat.ips| >= p.minUniqueIPs
      then stay.(status := Shadow, reason := "auto_promote_shadow")
      else stay
    case Shadow =>
      if rate > p.shadowMaxFPRate * 2.0
      then stay.(status := Suggested, reason := "rollback_high_shadow_fp")
      else if shadowHits >= p.temporaryPromoteHits && rate <= p.shadowMaxFPRate && |stat.ips| >= p.minUniqueIPs
      then Move(Temporary, Some(now + p.temporaryHold), "auto_promote_temporary")
      else stay
    case Temporary =>
      if rate > p.shadowMaxFPRate * 2.0
      then Move(Suggested, None, "rollback_high_shadow_fp")
      else if prev.temporaryUntil.Some? && now > prev.temporaryUntil.value then
        if shadowHits >= p.permanentPromoteHits && rate <= p.shadowMaxFPRate * 0.5
           && (p.permanentMinLifetime <= 0 || now - firstSeen >= p.permanentMinLifetime)
        then Move(Permanent, None, "candidate_permanent_review_required")
        else Move(Shadow, None, "temporary_expired_return_shadow")
      else stay
    case Permanent =>
      if rate > p.shadowMaxFPRate * 2.0
      then stay.(status := Shadow, reason := "rollback_permanent_high_fp")
      else stay
  }

  predicate Qualifies(p: Policy, stat: ScanStat) {
    stat.hits >= p.minHits && |stat.ips| >= p.minUniqueIPs
  }

  /** The suggestion a qualifying path gets, given its previous one. `p` is resolved. */
  function Advance(p: Policy, path: string, stat: ScanStat, prev: Suggestion, now: int): Suggestion {
    var counted := prev.status != Suggested;
    var shadowHits := prev.shadowHits + (if counted then stat.hits else 0);
    var shadowFP := prev.shadowFP + (if counted then stat.successHits else 0);
    var firstSeen := if prev.firstSeen.Some? then Min(prev.firstSeen.value, stat.firstSeen) else stat.firstSeen;
    var lastSeen := if prev.lastSeen.Some? then Max(prev.lastSeen.value, stat.lastSeen) else stat.lastSeen;
    var m := Next(p, prev, stat, shadowHits, shadowFP, firstSeen, now);
    Suggestion(path, m.status, stat.hits, |stat.ips|, shadowHits, shadowFP, m.until, m.reason,
               Some(firstSeen), Some(lastSeen), now)
  }

  predicate Expired(s: Suggestion, now: int, ttl: int) {
    ttl > 0 && s.lastSeen.Some? && now - s.lastSeen.value > ttl
  }

  type Index = map<string, Suggestion>

  /** Previous suggestions by path; the last one of a path wins, empty paths are skipped. Paths are
      the scanner-prefix constants, which carry no surrounding blanks to trim. */
  function IndexOf(previous: seq<Suggestion>): Index {
    if previous == [] then map[]
    else
      var last := previous[|previous| - 1];
      var index := IndexOf(previous[..|previous| - 1]);
      if last.path == "" then index else index[last.path := last]
  }

  function Previous(prev: Index, path: string): Suggestion {
    if path in prev then prev[path] else UNKNOWN
  }

  /** What the tick publishes for a path before the cap: None when it is forgotten. */
  function Outcome(p: Policy, stats: Stats, prev: Index, path: string, now: int): Option<Suggestion> {
    if path in stats then
      if Qualifies(p, stats[path]) then Some(Advance(p, path, stats[path], Previous(prev, path), now)) else None
    else if path in prev && !Expired(prev[path], now, p.inactiveTTL) then Some(prev[path])
    else None
  }

  function Candidates(p: Policy, stats: Stats, prev: Index, now: int): Index {
    map path | path in stats.Keys + prev.Keys && Outcome(p, stats, prev, path, now).Some?
      :: Outcome(p, stats, prev, path, now).value
  }

  // ---- Publication ---------------------------------------------------------------

  /** Each entry sits under its own path. */
  predicate Named(m: Index) {
    forall k <- m :: m[k].path == k
  }

  function AsItem(s: Suggestion): Item<Suggestion> {
    Item(s.path, s.hits as real, s)
  }

  function ItemsOf(out: seq<Suggestion>): (items: seq<Item<Suggestion>>)
    ensures |items| == |out|
    ensures forall i :: 0 <= i < |out| ==> items[i] == AsItem(out[i])
  {
    if out == [] then [] else [AsItem(out[0])] + ItemsOf(out[1..])
  }

  function ValuesOf(items: seq<Item<Suggestion>>): (out: seq<Suggestion>)
    ensures |out| == |items|
    ensures forall i :: 0 <= i < |items| ==> out[i] == items[i].value
  {
    if items == [] then [] else [items[0].value] + ValuesOf(items[1..])
  }

  /** Sort by hits, cut, sort by path. */
  function Select(out: seq<Suggestion>, cap: int): seq<Suggestion> {
    ValuesOf(SelectTop(ItemsOf(out), cap))
  }

  function ItemMap(m: Index): map<string, Item<Suggestion>> {
    map k | k in m :: AsItem(m[k])
  }

  /** The list published from a map of candidates. */
  ghost function PublishIndex(m: Index, cap: int): seq<Suggestion> {
    ValuesOf(Publish(ItemMap(m), cap))
  }

  /** Whatever order Go walks its maps in, the published list is the same. */
  lemma IndexOrderIsIrrelevant(m: Index, keys: seq<string>, cap: int)
    requires Named(m) && Walks(keys, m)
    ensures Select(Listed(keys, m), cap) == PublishIndex(m, cap)
  {
    assert ItemsOf(Listed(keys, m)) == Listed(keys, ItemMap(m));
    PublicationIgnoresMapOrder(ItemMap(m), keys, cap);
  }

  ghost predicate PathsAscend(out: seq<Suggestion>) {
    forall i, j :: 0 <= i < j < |out| ==> Less(out[i].path, out[j].path)
  }

  lemma ItemMembers(top: seq<Item<Suggestion>>, out: seq<Suggestion>)
    requires out == ValuesOf(top) && forall x <- top :: x == AsItem(x.value)
    ensures forall s :: s in out <==> AsItem(s) in top
  {
    forall s ensures s in out <==> AsItem(s) in top {
      if s in out {
        var i :| 0 <= i < |out| && out[i] == s;
        assert top[i] in top && top[i] == AsItem(s);
      }
      if AsItem(s) in top {
        var i :| 0 <= i < |top| && top[i] == AsItem(s);
        assert out[i] == s;
      }
    }
  }

  lemma OutranksMeans(s: Suggestion, other: Suggestion)
    ensures Outranks(AsItem(s), AsItem(other))
            <==> s.hits > other.hits || (s.hits == other.hits && Less(s.path, other.path))
  {
    hide Less;
  }

  /** What a published list is: candidates only, strictly ascending by path, capped, and every
      candidate left out has fewer hits than each one kept (or as many, and a later path). */
  lemma PublishedSuggestions(m: Index, cap: int)
    requires Named(m)
    ensures PathsAscend(PublishIndex(m, cap))
    ensures cap > 0 ==> |PublishIndex(m, cap)| <= cap
    ensures forall s <- PublishIndex(m, cap) :: s.path in m && m[s.path] == s
    ensures cap <= 0 ==> forall k <- m :: m[k] in PublishIndex(m, cap)
    ensures forall s, k :: s in PublishIndex(m, cap) && k in m && m[k] !in PublishIndex(m, cap)
              ==> s.hits > m[k].hits || (s.hits == m[k].hits && Less(s.path, k))
  {
    hide Publish, SelectTop, Outranks, Less;
    var top, out := Publish(ItemMap(m), cap), PublishIndex(m, cap);
    PublishedList(ItemMap(m), cap);
    ItemMembers(top, out);
    forall s, k | s in out && k in m && m[k] !in out
      ensures s.hits > m[k].hits || (s.hits == m[k].hits && Less(s.path, k))
    {
      assert AsItem(s) in top && ItemMap(m)[k] == AsItem(m[k]) && AsItem(m[k]) !in top;
      OutranksMeans(s, m[k]);
    }
    forall i | 0 <= i < |top| ensures top[i].key == out[i].path { assert top[i] in top; }
    forall s | s in out ensures s.path in m && m[s.path] == s { assert AsItem(s) in top; }
    forall k | k in m ensures AsItem(m[k]) == ItemMap(m)[k] {}
  }
}
