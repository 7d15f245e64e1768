/** Per-IP aggregation of ranked records and top-N publication for the L4 guard. */
module Adaptive {
  import opened Basics
  import opened Ranking
  import opened ScoreKeys
  import opened Sentinel

  /** One record of the score table with its key already parsed. */
  datatype Row = Row(site: string, ip: string, rec: Record)

  type Table = map<string, Row>

  function RowOf(lower: char -> char, key: string, rec: Record): Row {
    Row(ParseScoreKey(lower, key).0, ParseScoreKey(lower, key).1, rec)
  }

  function Rows(lower: char -> char, ips: map<string, Record>): (table: Table)
    ensures table.Keys == ips.Keys
  {
    map k | k in ips :: RowOf(lower, k, ips[k])
  }

  datatype Entry = Entry(
    ip: string,
    action: Action,
    expiresAt: Option<int>,
    score: real,
    firstSeen: Option<int>,
    lastSeen: Option<int>)

  /** The running summary of one IP. */
  datatype Aggregate = Aggregate(hasGlobal: bool, sites: set<string>, entry: Entry)

  predicate Ranked(a: Action) {
    a == Throttle || Hard(a)
  }

  function Later(a: Option<int>, b: Option<int>): Option<int> {
    if a.None? then b else if b.None? then a else Some(Max(a.value, b.value))
  }

  function Earlier(a: Option<int>, b: Option<int>): Option<int> {
    if a.None? then b else if b.None? then a else Some(Min(a.value, b.value))
  }

  function NewAggregate(ip: string): Aggregate {
    Aggregate(false, {}, Entry(ip, NoAction, None, 0.0, None, None))
  }

  /** One record joins the summary of its IP; temp_ban is published as drop. */
  function Join(agg: Aggregate, row: Row): Aggregate {
    var e, site, rec := agg.entry, row.site, row.rec;
    var mapped := if rec.stage == TempBan then Drop else rec.stage;
    Aggregate(
      agg.hasGlobal || site == GLOBAL_SITE,
      if site != GLOBAL_SITE && site != "" then agg.sites + {site} else agg.sites,
      Entry(e.ip,
            if mapped == Drop || e.action == NoAction then mapped else e.action,
            Later(e.expiresAt, rec.expiresAt),
            if rec.score > e.score then rec.score else e.score,
            Earlier(e.firstSeen, rec.firstSeen),
            Later(e.lastSeen, rec.lastSeen)))
  }

  predicate Publishable(agg: Aggregate) {
    agg.hasGlobal || |agg.sites| >= 2
  }

  // ---- What a summary means ----------------------------------------------------------

  /** The aggregate says exactly what the records of the group say together. */
  ghost predicate Summarises(agg: Aggregate, table: Table, group: set<string>) {
    && group <= table.Keys
    && SitesOf(agg.hasGlobal, agg.sites, table, group)
    && ActionOf(agg.entry.action, table, group)
    && ScoreOf(agg.entry.score, table, group)
    && Latest(agg.entry.expiresAt, group, Expiries(table))
    && Earliest(agg.entry.firstSeen, group, FirstSights(table))
    && Latest(agg.entry.lastSeen, group, LastSights(table))
  }

  /** Drop if some record is dropped or banned, throttle otherwise. */
  ghost predicate ActionOf(a: Action, table: Table, group: set<string>)
    requires group <= table.Keys
  {
    if group == {} then a == NoAction
    else if exists k <- group :: Hard(table[k].rec.stage) then a == Drop
    else a == Throttle
  }

  /** The highest score, never below zero. */
  ghost predicate ScoreOf(score: real, table: Table, group: set<string>)
    requires group <= table.Keys
  {
    && score >= 0.0
    && (forall k <- group :: table[k].rec.score <= score)
    && (score == 0.0 || exists k <- group :: table[k].rec.score == score)
  }

  function Expiries(table: Table): map<string, Option<int>> {
    map k | k in table :: table[k].rec.expiresAt
  }

  function FirstSights(table: Table): map<string, Option<int>> {
    map k | k in table :: table[k].rec.firstSeen
  }

  function LastSights(table: Table): map<string, Option<int>> {
    map k | k in table :: table[k].rec.lastSeen
  }

  ghost predicate Latest(v: Option<int>, group: set<string>, times: map<string, Option<int>>)
    requires group <= times.Keys
  {
    && (forall k <- group :: times[k].Some? ==> v.Some? && times[k].value <= v.value)
    && (v.Some? ==> exists k <- group :: times[k] == v)
  }

  ghost predicate Earliest(v: Option<int>, group: set<string>, times: map<string, Option<int>>)
    requires group <= times.Keys
  {
    && (forall k <- group :: times[k].Some? ==> v.Some? && v.value <= times[k].value)
    && (v.Some? ==> exists k <- group :: times[k] == v)
  }

  ghost predicate SitesOf(hasGlobal: bool, sites: set<string>, table: Table, group: set<string>)
    requires group <= table.Keys
  {
    && (hasGlobal <==> exists k <- group :: table[k].site == GLOBAL_SITE)
    && (forall s :: s in sites <==> Named(s) && exists k <- group :: table[k].site == s)
  }

  predicate Named(site: string) {
    site != GLOBAL_SITE && site != ""
  }

  lemma JoinLatest(v: Option<int>, group: set<string>, times: map<string, Option<int>>, k: string)
    requires group <= times.Keys && k in times && Latest(v, group, times)
    ensures Latest(Later(v, times[k]), group + {k}, times)
  {
    var w := Later(v, times[k]);
    if w.Some? {
      if w == times[k] { assert k in group + {k}; }
      else { var j :| j in group && times[j] == v; assert j in group + {k}; }
    }
  }

  lemma JoinEarliest(v: Option<int>, group: set<string>, times: map<string, Option<int>>, k: string)
    requires group <= times.Keys && k in times && Earliest(v, group, times)
    ensures Earliest(Earlier(v, times[k]), group + {k}, times)
  {
    var w := Earlier(v, times[k]);
    if w.Some? {
      if w == times[k] { assert k in group + {k}; }
      else { var j :| j in group && times[j] == v; assert j in group + {k}; }
    }
  }

  lemma JoinSites(agg: Aggregate, table: Table, group: set<string>, k: string)
    requires group <= table.Keys && k in table && SitesOf(agg.hasGlobal, agg.sites, table, group)
    ensures var out := Join(agg, table[k]); SitesOf(out.hasGlobal, out.sites, table, group + {k})
  {
    var out, all := Join(agg, table[k]), group + {k};
    assert k in all;
    if out.hasGlobal && table[k].site != GLOBAL_SITE {
      var j :| j in group && table[j].site == GLOBAL_SITE;
      assert j in all;
    }
    forall s ensures s in out.sites <==> Named(s) && exists j <- all :: table[j].site == s {
      if s in out.sites && s != table[k].site {
        var j :| j in group && table[j].site == s;
        assert j in all;
      }
    }
  }

  lemma JoinAction(agg: Aggregate, table: Table, group: set<string>, k: string)
    requires group <= table.Keys && k in table && Ranked(table[k].rec.stage)
    requires ActionOf(agg.entry.action, table, group)
    ensures ActionOf(Join(agg, table[k]).entry.action, table, group + {k})
  {
    var all := group + {k};
    assert k in all;
    if j :| j in group && Hard(table[j].rec.stage) { assert j in all; }
  }

  lemma JoinScore(agg: Aggregate, table: Table, group: set<string>, k: string)
    requires group <= table.Keys && k in table && ScoreOf(agg.entry.score, table, group)
    ensures ScoreOf(Join(agg, table[k]).entry.score, table, group + {k})
  {
    var all := group + {k};
    assert k in all;
    if j :| j in group && table[j].rec.score == agg.entry.score { assert j in all; }
  }

  /** A record that joins a summary makes it the summary of the larger group. */
  lemma JoinSummarises(agg: Aggregate, table: Table, group: set<string>, k: string)
    requires Summarises(agg, table, group) && k in table && Ranked(table[k].rec.stage)
    ensures Summarises(Join(agg, table[k]), table, group + {k})
  {
    JoinSites(agg, table, group, k);
    JoinAction(agg, table, group, k);
    JoinScore(agg, table, group, k);
    JoinLatest(agg.entry.expiresAt, group, Expiries(table), k);
    JoinEarliest(agg.entry.firstSeen, group, FirstSights(table), k);
    JoinLatest(agg.entry.lastSeen, group, LastSights(table), k);
  }

  lemma LatestUnique(v: Option<int>, w: Option<int>, group: set<string>, times: map<string, Option<int>>)
    requires group <= times.Keys && Latest(v, group, times) && Latest(w, group, times)
    ensures v == w
  {
  }

  lemma EarliestUnique(v: Option<int>, w: Option<int>, group: set<string>, times: map<string, Option<int>>)
    requires group <= times.Keys && Earliest(v, group, times) && Earliest(w, group, times)
    ensures v == w
  {
  }

  /** There is one summary of a group: what is published cannot depend on the walk of the map. */
  lemma SummaryIsUnique(a: Aggregate, b: Aggregate, table: Table, group: set<string>)
    requires Summarises(a, table, group) && Summarises(b, table, group) && a.entry.ip == b.entry.ip
    ensures a == b
  {
    LatestUnique(a.entry.expiresAt, b.entry.expiresAt, group, Expiries(table));
    EarliestUnique(a.entry.firstSeen, b.entry.firstSeen, group, FirstSights(table));
    LatestUnique(a.entry.lastSeen, b.entry.lastSeen, group, LastSights(table));
    assert a.sites == b.sites;
  }

  // ---- Groups, boards, publication ------------------------------------------------------

  /** The records of one IP throttled or worse, among the keys already walked. */
  function Group(table: Table, walked: set<string>, ip: string): set<string> {
    set k | k in walked && k in table && StageRank(table[k].rec.stage) >= StageRank(Throttle) && table[k].ip == ip
  }

  lemma RankedMeans(a: Action)
    ensures Ranked(a) <==> StageRank(a) >= StageRank(Throttle)
  {
  }

  lemma NewSummarises(table: Table, ip: string)
    ensures Summarises(NewAggregate(ip), table, {}) && NewAggregate(ip).entry.ip == ip
  {
  }

  lemma JoinToWhole(rest: Aggregate, table: Table, group: set<string>, k: string)
    requires k in group && k in table && StageRank(table[k].rec.stage) >= StageRank(Throttle)
    requires Summarises(rest, table, group - {k})
    ensures Summarises(Join(rest, table[k]), table, group) && Join(rest, table[k]).entry.ip == rest.entry.ip
  {
    RankedMeans(table[k].rec.stage);
    JoinSummarises(rest, table, group - {k}, k);
    assert (group - {k}) + {k} == group;
  }

  ghost function Summary(table: Table, group: set<string>, ip: string): (agg: Aggregate)
    requires forall k <- group :: k in table && StageRank(table[k].rec.stage) >= StageRank(Throttle)
    ensures Summarises(agg, table, group) && agg.entry.ip == ip
  {
    if group == {} then
      NewSummarises(table, ip);
      NewAggregate(ip)
    else
      var k :| k in group;
      var rest := Summary(table, group - {k}, ip);
      JoinToWhole(rest, table, group, k);
      Join(rest, table[k])
  }

  /** An IP is published when it has a global ranked record, or ranked records of two sites. */
  ghost predicate Eligible(table: Table, ip: string) {
    && ip != ""
    && var group := Group(table, table.Keys, ip);
       || (exists k <- group :: table[k].site == GLOBAL_SITE)
       || (exists j, k :: j in group && k in group && Named(table[j].site) && Named(table[k].site) && table[j].site != table[k].site)
  }

  lemma TwoMembers<T>(s: set<T>)
    ensures |s| >= 2 <==> exists x, y :: x in s && y in s && x != y
  {
    if |s| >= 2 {
      var x :| x in s;
      assert |s - {x}| == |s| - 1;
      var y :| y in s - {x};
      assert x in s && y in s && x != y;
    }
    if x, y :| x in s && y in s && x != y {
      assert {x, y} <= s;
      assert |s| == |s - {x, y}| + |{x, y}|;
    }
  }

  lemma PublishableMeansEligible(agg: Aggregate, table: Table, ip: string)
    requires Summarises(agg, table, Group(table, table.Keys, ip)) && ip != ""
    ensures Publishable(agg) <==> Eligible(table, ip)
  {
    hide Ranked, Named;
    var group := Group(table, table.Keys, ip);
    TwoMembers(agg.sites);
    if x, y :| x in agg.sites && y in agg.sites && x != y {
      var j :| j in group && table[j].site == x;
      var k :| k in group && table[k].site == y;
      assert Named(table[j].site) && Named(table[k].site);
    }
    if j, k :| j in group && k in group && Named(table[j].site) && Named(table[k].site) && table[j].site != table[k].site {
      assert table[j].site in agg.sites && table[k].site in agg.sites;
    }
  }

  function ItemOf(agg: Aggregate): Item<Entry> {
    Item(agg.entry.ip, agg.entry.score, agg.entry)
  }

  /** Everything fit for publication, by IP. */
  ghost function Board(table: Table): map<string, Item<Entry>> {
    map ip | ip in (set k | k in table :: table[k].ip) && Eligible(table, ip)
      :: ItemOf(Summary(table, Group(table, table.Keys, ip), ip))
  }

  lemma BoardIsEligible(table: Table, ip: string)
    ensures ip in Board(table) <==> Eligible(table, ip)
    ensures Keyed(Board(table))
  {
    if Eligible(table, ip) {
      var k :| k in Group(table, table.Keys, ip);
    }
  }

  // ---- The loops ---------------------------------------------------------------------------

  /** Every IP met among the walked keys has the summary of its walked records. */
  ghost predicate Aggregated(aggs: map<string, Aggregate>, table: Table, walked: set<string>) {
    && (forall ip :: ip in aggs <==> ip != "" && Group(table, walked, ip) != {})
    && (forall ip <- aggs :: Summarises(aggs[ip], table, Group(table, walked, ip)) && aggs[ip].entry.ip == ip)
  }

  lemma GroupGrows(table: Table, walked: set<string>, k: string, ip: string)
    requires k in table && k !in walked
    ensures Group(table, walked + {k}, ip)
            == Group(table, walked, ip) + (if Ranked(table[k].rec.stage) && ip == table[k].ip then {k} else {})
  {
  }

  function Folded(aggs: map<string, Aggregate>, row: Row): map<string, Aggregate> {
    if Ranked(row.rec.stage) && row.ip != ""
    then aggs[row.ip := Join(if row.ip in aggs then aggs[row.ip] else NewAggregate(row.ip), row)]
    else aggs
  }

  lemma AggregateAt(aggs: map<string, Aggregate>, table: Table, walked: set<string>, k: string, ip: string)
    requires Aggregated(aggs, table, walked) && k in table && k !in walked
    ensures ip in Folded(aggs, table[k]) <==> ip != "" && Group(table, walked + {k}, ip) != {}
    ensures ip in Folded(aggs, table[k]) ==>
              && Summarises(Folded(aggs, table[k])[ip], table, Group(table, walked + {k}, ip))
              && Folded(aggs, table[k])[ip].entry.ip == ip
  {
    hide Summarises, Group, NewAggregate;
    GroupGrows(table, walked, k, ip);
    var row, group := table[k], Group(table, walked, ip);
    if Ranked(row.rec.stage) && ip == row.ip && ip != "" {
      var agg := if ip in aggs then aggs[ip] else NewAggregate(ip);
      if ip !in aggs { NewSummarises(table, ip); }
      JoinSummarises(agg, table, group, k);
      assert k in Group(table, walked + {k}, ip);
    } else {
      assert ip != "" ==> Group(table, walked + {k}, ip) == group;
    }
  }

  lemma AggregateOne(aggs: map<string, Aggregate>, table: Table, walked: set<string>, k: string)
    requires Aggregated(aggs, table, walked) && k in table && k !in walked
    ensures Aggregated(Folded(aggs, table[k]), table, walked + {k})
  {
    var out := Folded(aggs, table[k]);
    forall ip
      ensures ip in out <==> ip != "" && Group(table, walked + {k}, ip) != {}
      ensures ip in out ==> Summarises(out[ip], table, Group(table, walked + {k}, ip)) && out[ip].entry.ip == ip
    {
      AggregateAt(aggs, table, walked, k, ip);
    }
  }

  method AggregateAll(lower: char -> char, ips: map<string, Record>) returns (aggs: map<string, Aggregate>)
    ensures Aggregated(aggs, Rows(lower, ips), ips.Keys)
  {
    aggs := map[];
    ghost var table := Rows(lower, ips);
    var left := ips.Keys;
    AllTakenOff({}, ips.Keys);
    while left != {}
      invariant left <= ips.Keys
      invariant Aggregated(aggs, table, ips.Keys - left)
      decreases |left|
    {
      var key :| key in left;
      var rec := ips[key];
      AggregateOne(aggs, table, ips.Keys - left, key);
      TakeOff(ips.Keys, left, key);
      left := left - {key};
      aggs := Folded(aggs, RowOf(lower, key, rec));
    }
  }

  /** The board entry of an aggregated IP. */
  lemma AggregateOnBoard(aggs: map<string, Aggregate>, table: Table, ip: string)
    requires Aggregated(aggs, table, table.Keys)
    ensures ip in Board(table) <==> ip in aggs && Publishable(aggs[ip])
    ensures ip in Board(table) ==> Board(table)[ip] == ItemOf(aggs[ip])
  {
    var group := Group(table, table.Keys, ip);
    BoardIsEligible(table, ip);
    if ip in aggs {
      PublishableMeansEligible(aggs[ip], table, ip);
      SummaryIsUnique(aggs[ip], Summary(table, group, ip), table, group);
    }
  }

  method CollectPublishable(aggs: map<string, Aggregate>, ghost board: map<string, Item<Entry>>)
    returns (entries: seq<Item<Entry>>, ghost keys: seq<string>)
    requires forall ip <- aggs :: ip in board <==> Publishable(aggs[ip])
    requires forall ip <- aggs :: ip in board ==> board[ip] == ItemOf(aggs[ip])
    ensures Collected(keys, entries, board, aggs.Keys)
  {
    entries, keys := [], [];
    var left := aggs.Keys;
    AllTakenOff({}, aggs.Keys);
    while left != {}
      invariant left <= aggs.Keys
      invariant Collected(keys, entries, board, aggs.Keys - left)
      decreases |left|
    {
      var ip :| ip in left;
      CollectOne(keys, entries, board, aggs.Keys - left, ip);
      TakeOff(aggs.Keys, left, ip);
      left := left - {ip};
      if Publishable(aggs[ip]) {
        entries := entries + [ItemOf(aggs[ip])];
        keys := keys + [ip];
      }
    }
  }

  /** renderAdaptivePayload: aggregate, filter, rank, cut, sort by IP. */
  method Render(lower: char -> char, ips: map<string, Record>, maxPublished: int) returns (entries: seq<Item<Entry>>)
    ensures entries == Publish(Board(Rows(lower, ips)), maxPublished)
  {
    var aggs := AggregateAll(lower, ips);
    ghost var table := Rows(lower, ips);
    ghost var board := Board(table);
    BoardMatches(aggs, table);
    ghost var keys;
    entries, keys := CollectPublishable(aggs, board);
    CollectedAll(keys, entries, board, aggs.Keys);
    PublicationIgnoresMapOrder(board, keys, maxPublished);
    entries := SelectTop(entries, maxPublished);
  }

  lemma BoardMatches(aggs: map<string, Aggregate>, table: Table)
    requires Aggregated(aggs, table, table.Keys)
    ensures Board(table).Keys <= aggs.Keys && Keyed(Board(table))
    ensures forall ip <- aggs :: ip in Board(table) <==> Publishable(aggs[ip])
    ensures forall ip <- aggs :: ip in Board(table) ==> Board(table)[ip] == ItemOf(aggs[ip])
  {
    forall ip
      ensures ip in Board(table) <==> ip in aggs && Publishable(aggs[ip])
      ensures ip in Board(table) ==> Board(table)[ip] == ItemOf(aggs[ip])
    {
      AggregateOnBoard(aggs, table, ip);
    }
    BoardIsEligible(table, "");
  }

  // ---- What is published ---------------------------------------------------------------------

  /** What the records of an IP say together. */
  ghost function Said(table: Table, ip: string): Entry {
    Summary(table, Group(table, table.Keys, ip), ip).entry
  }

  /** The entry speaks for an eligible IP and says what its records say together. */
  ghost predicate Speaks(table: Table, x: Item<Entry>) {
    Eligible(table, x.value.ip) && x.value == Said(table, x.value.ip) && x.key == x.value.ip
  }

  /** Cut for lack of room: the list is full of entries scoring at least as much. */
  ghost predicate CutBy(out: seq<Item<Entry>>, cap: int, score: real) {
    0 < cap == |out| && forall x <- out :: x.value.score >= score
  }

  lemma PublishedSpeaks(table: Table, cap: int, x: Item<Entry>)
    requires x in Publish(Board(table), cap)
    ensures Speaks(table, x) && x.weight == x.value.score
  {
    hide Publish, Summary, Eligible;
    BoardIsEligible(table, x.key);
    PublishedList(Board(table), cap);
  }

  lemma KeptOrCut(table: Table, cap: int, ip: string)
    requires Eligible(table, ip)
    ensures var out := Publish(Board(table), cap);
            (exists x <- out :: x.value == Said(table, ip)) || CutBy(out, cap, Said(table, ip).score)
  {
    hide Publish, Summary, Eligible, Group, Speaks;
    var board, out := Board(table), Publish(Board(table), cap);
    BoardIsEligible(table, ip);
    PublishedList(board, cap);
    assert board[ip].value == Said(table, ip) && board[ip].weight == Said(table, ip).score;
    if board[ip] !in out {
      forall y | y in out ensures y.value.score >= Said(table, ip).score {
        PublishedSpeaks(table, cap, y);
        assert Outranks(y, board[ip]);
      }
    }
  }

  /** The published list: strictly ascending by IP and capped; each entry speaks for an eligible IP
      and every eligible IP has its entry, unless the cap cut it in favour of higher scores. */
  lemma PublishedEntries(table: Table, cap: int)
    ensures KeysAscend(Publish(Board(table), cap))
    ensures cap > 0 ==> |Publish(Board(table), cap)| <= cap
    ensures forall x <- Publish(Board(table), cap) :: Speaks(table, x)
    ensures forall ip :: Eligible(table, ip) ==>
              || (exists x <- Publish(Board(table), cap) :: x.value == Said(table, ip))
              || CutBy(Publish(Board(table), cap), cap, Said(table, ip).score)
  {
    hide Publish, Summary, Eligible, Group, Speaks, CutBy, Said;
    BoardIsEligible(table, "");
    PublishedList(Board(table), cap);
    forall x | x in Publish(Board(table), cap) ensures Speaks(table, x) { PublishedSpeaks(table, cap, x); }
    forall ip | Eligible(table, ip)
      ensures || (exists x <- Publish(Board(table), cap) :: x.value == Said(table, ip))
              || CutBy(Publish(Board(table), cap), cap, Said(table, ip).score)
    {
      KeptOrCut(table, cap, ip);
    }
  }
}
