/** The sentinel as a state machine over ticks. A tick is described by what it decided, not by the
    order Go happened to walk its maps in: which records the action budget was granted to, and which
    ones eviction kept. */
module SentinelRuns {
  import opened Basics
  import opened Sentinel
  import opened ActionBudget
  import S = Suggestions
  import L = SuggestionLifecycle

  type Table = map<string, Record>

  datatype State = State(ips: Table, budget: Budget, suggestions: seq<S.Suggestion>)

  const INITIAL := State(map[], FRESH, [])

  /** A log event already attributed to its score key. */
  datatype Effect = Effect(key: string, event: Event)

  datatype Tick =
    | Batch(now: int, effects: seq<Effect>, stats: S.Stats, grants: set<string>)
    | LogMissing(now: int)
    | LogUnreadable(now: int)

  // ---- Folding log events into records -------------------------------------------

  function Tracked(ips: Table, key: string): Record {
    if key in ips then ips[key] else NEW_RECORD
  }

  /** Log events never delete a record and are never judgements. */
  function Absorb(cfg: Config, rec: Record, e: Event): Record {
    match e
    case Scored(when, weight, reason) => Hit(cfg, rec, when, weight, reason)
    case Dropped(when) => ForceDrop(cfg, rec, when)
    case Tagged(_, version) => rec.(modelVersion := version)
    case Judged(_, _) => rec
  }

  function ApplyEffect(cfg: Config, ips: Table, e: Effect): Table {
    ips[e.key := Absorb(cfg, Tracked(ips, e.key), e.event)]
  }

  function ApplyEffects(cfg: Config, ips: Table, effects: seq<Effect>): Table {
    if effects == [] then ips
    else
      var n := |effects| - 1;
      ApplyEffect(cfg, ApplyEffects(cfg, ips, effects[..n]), effects[n])
  }

  function EventsFor(effects: seq<Effect>, key: string): seq<Event> {
    if effects == [] then []
    else
      var n := |effects| - 1;
      EventsFor(effects[..n], key) + (if effects[n].key == key then [effects[n].event] else [])
  }

  // ---- Judging every record --------------------------------------------------------

  function Askers(cfg: Config, ips: Table, now: int): set<string> {
    set k | k in ips && AsksBudget(cfg, ips[k], now)
  }

  function Cap(cfg: Config): int {
    Limit(cfg.maxActionsPerMinute)
  }

  /** As many askers are granted as the window still holds; which ones is up to the map walk. */
  predicate ValidGrants(cfg: Config, ips: Table, budget: Budget, now: int, grants: set<string>) {
    && grants <= Askers(cfg, ips, now)
    && |grants| == Min(|Askers(cfg, ips, now)|, Available(budget, Cap(cfg), now))
  }

  function JudgeAll(cfg: Config, ips: Table, now: int, grants: set<string>): Table {
    map k | k in ips && Judge(cfg, ips[k], now, k in grants).Some? :: Judge(cfg, ips[k], now, k in grants).value
  }

  // ---- Eviction -----------------------------------------------------------------------

  function SeenAt(rec: Record, now: int): int {
    if rec.lastSeen.Some? then rec.lastSeen.value else now
  }

  /** The order records are sacrificed in: lowest score first, then longest unseen. */
  predicate Weaker(a: Record, b: Record, now: int) {
    a.score < b.score || (a.score == b.score && SeenAt(a, now) < SeenAt(b, now))
  }

  predicate Overflows(cfg: Config, ips: Table) {
    cfg.maxActiveIPs > 0 && |ips| > cfg.maxActiveIPs
  }

  ghost predicate ValidEviction(cfg: Config, before: Table, after: Table, now: int) {
    && after.Keys <= before.Keys
    && (forall k <- after :: after[k] == before[k])
    && (!Overflows(cfg, before) ==> after == before)
    && (Overflows(cfg, before) ==> |after| == cfg.maxActiveIPs)
    && (forall kept, cut :: kept in after && cut in before && cut !in after
          ==> !Weaker(before[kept], before[cut], now))
  }

  // ---- One tick ------------------------------------------------------------------------

  ghost predicate Ticks(cfg: Config, policy: S.Policy, before: State, tick: Tick, after: State) {
    if tick.LogUnreadable? then after == before
    else if !cfg.modelEnabled then after == INITIAL
    else if tick.LogMissing? then after == before
    else
      var folded := ApplyEffects(cfg, before.ips, tick.effects);
      && ValidGrants(cfg, folded, before.budget, tick.now, tick.grants)
      && ValidEviction(cfg, JudgeAll(cfg, folded, tick.now, tick.grants), after.ips, tick.now)
      && after.budget == Charge(before.budget, Cap(cfg), tick.now, |Askers(cfg, folded, tick.now)|)
      && after.suggestions == L.Build(policy, tick.stats, before.suggestions, tick.now)
  }

  /** A run from the empty state under one configuration. */
  ghost predicate IsRun(cfg: Config, policy: S.Policy, ticks: seq<Tick>, states: seq<State>) {
    && |states| == |ticks| + 1
    && states[0] == INITIAL
    && (forall m :: 0 <= m < |ticks| ==> Ticks(cfg, policy, states[m], ticks[m], states[m + 1]))
    && (forall m :: 0 <= m < |ticks| ==> FromLog(ticks[m]))
  }

  /** Effects are log events, never judgements, and the scanner counts are counts. */
  ghost predicate FromLog(tick: Tick) {
    tick.Batch? ==> (forall e <- tick.effects :: !e.event.Judged?) && S.Plausible(tick.stats)
  }

  ghost function Folded(cfg: Config, before: State, tick: Tick): Table
    requires tick.Batch?
  {
    ApplyEffects(cfg, before.ips, tick.effects)
  }

  /** What a surviving record went through during a batch tick. */
  lemma SurvivorWasJudged(cfg: Config, policy: S.Policy, before: State, tick: Tick, after: State, k: string)
    requires Ticks(cfg, policy, before, tick, after) && tick.Batch? && k in after.ips
    ensures cfg.modelEnabled && k in Folded(cfg, before, tick)
    ensures Judge(cfg, Folded(cfg, before, tick)[k], tick.now, k in tick.grants) == Some(after.ips[k])
  {
  }

  // ---- Lives -----------------------------------------------------------------------------

  /** The steps a key's record has gone through since it was last created. */
  ghost function LifeOf(ticks: seq<Tick>, states: seq<State>, m: nat, k: string): seq<Event>
    requires |states| == |ticks| + 1 && m <= |ticks|
  {
    if m == 0 then []
    else
      var tick := ticks[m - 1];
      if !tick.Batch? then LifeOf(ticks, states, m - 1, k)
      else
        (if k in states[m - 1].ips then LifeOf(ticks, states, m - 1, k) else [])
        + EventsFor(tick.effects, k) + [Judged(tick.now, k in tick.grants)]
  }

  lemma LiveStep(cfg: Config, events: seq<Event>, e: Event)
    ensures Live(cfg, events + [e])
            == if Live(cfg, events).Some? then Apply(cfg, Live(cfg, events).value, e) else None
  {
    assert (events + [e])[..|events|] == events;
  }

  lemma AbsorbIsApply(cfg: Config, rec: Record, e: Event)
    requires !e.Judged?
    ensures Apply(cfg, rec, e) == Some(Absorb(cfg, rec, e))
  {
  }

  lemma FoldOneMore(cfg: Config, ips: Table, e: Effect, k: string, life: seq<Event>, front: seq<Event>)
    requires Live(cfg, life + front) == Some(Tracked(ips, k)) && !e.event.Judged?
    ensures Live(cfg, life + (front + (if e.key == k then [e.event] else [])))
            == Some(Tracked(ApplyEffect(cfg, ips, e), k))
  {
    if e.key == k {
      LiveStep(cfg, life + front, e.event);
      assert life + (front + [e.event]) == (life + front) + [e.event];
      AbsorbIsApply(cfg, Tracked(ips, k), e.event);
    } else {
      assert front + [] == front;
    }
  }

  /** Folding a tick's effects continues the life of the record they hit. */
  lemma {:induction false} FoldContinuesLife(cfg: Config, ips: Table, effects: seq<Effect>, k: string, life: seq<Event>)
    requires Live(cfg, life) == Some(Tracked(ips, k))
    requires forall e <- effects :: !e.event.Judged?
    ensures Live(cfg, life + EventsFor(effects, k)) == Some(Tracked(ApplyEffects(cfg, ips, effects), k))
  {
    if effects == [] {
      assert life + [] == life;
    } else {
      var n := |effects| - 1;
      FoldContinuesLife(cfg, ips, effects[..n], k, life);
      FoldOneMore(cfg, ApplyEffects(cfg, ips, effects[..n]), effects[n], k, life, EventsFor(effects[..n], k));
    }
  }

  lemma RunTick(cfg: Config, policy: S.Policy, ticks: seq<Tick>, states: seq<State>, m: nat)
    requires IsRun(cfg, policy, ticks, states) && m < |ticks|
    ensures Ticks(cfg, policy, states[m], ticks[m], states[m + 1]) && FromLog(ticks[m])
  {
  }

  /** A tick continues the life of each record that survives it. */
  lemma TickContinuesLife(cfg: Config, policy: S.Policy, before: State, tick: Tick, after: State, k: string, life: seq<Event>)
    requires Ticks(cfg, policy, before, tick, after) && FromLog(tick) && tick.Batch? && k in after.ips
    requires Live(cfg, life) == Some(Tracked(before.ips, k))
    ensures Live(cfg, life + EventsFor(tick.effects, k) + [Judged(tick.now, k in tick.grants)]) == Some(after.ips[k])
  {
    hide Judge, ApplyEffects, EventsFor, Live, Ticks;
    SurvivorWasJudged(cfg, policy, before, tick, after, k);
    FoldContinuesLife(cfg, before.ips, tick.effects, k, life);
    LiveStep(cfg, life + EventsFor(tick.effects, k), Judged(tick.now, k in tick.grants));
  }

  lemma IdleTickKeeps(cfg: Config, policy: S.Policy, before: State, tick: Tick, after: State, k: string)
    requires Ticks(cfg, policy, before, tick, after) && !tick.Batch? && k in after.ips
    ensures after == before
  {
  }

  lemma NewLife(cfg: Config, ips: Table, k: string)
    requires k !in ips
    ensures Live(cfg, []) == Some(Tracked(ips, k))
  {
  }

  /** Every tracked record of every run is the outcome of its life. */
  lemma {:induction false} RecordsAreLives(cfg: Config, policy: S.Policy, ticks: seq<Tick>, states: seq<State>, m: nat, k: string)
    requires IsRun(cfg, policy, ticks, states) && m <= |ticks| && k in states[m].ips
    ensures Live(cfg, LifeOf(ticks, states, m, k)) == Some(states[m].ips[k])
  {
    var tick, before := ticks[m - 1], states[m - 1];
    RunTick(cfg, policy, ticks, states, m - 1);
    if k in before.ips { RecordsAreLives(cfg, policy, ticks, states, m - 1, k); }
    if tick.Batch? {
      var life := if k in before.ips then LifeOf(ticks, states, m - 1, k) else [];
      if k !in before.ips { NewLife(cfg, before.ips, k); }
      TickContinuesLife(cfg, policy, before, tick, states[m], k, life);
    } else {
      IdleTickKeeps(cfg, policy, before, tick, states[m], k);
    }
  }

  // ---- Suggestions over runs ---------------------------------------------------------------

  /** What the suggestion builder is given in the first n ticks. */
  ghost function ObservedBy(ticks: seq<Tick>, n: nat): seq<L.Observed>
    requires n <= |ticks|
  {
    if n == 0 then [] else ObservedBy(ticks, n - 1) + Observation(ticks[n - 1])
  }

  ghost function Observation(tick: Tick): seq<L.Observed> {
    if tick.Batch? then [L.Observed(tick.stats, tick.now)] else []
  }

  ghost function Publication(tick: Tick, after: State): seq<seq<S.Suggestion>> {
    if tick.Batch? then [after.suggestions] else []
  }

  /** The lists it leaves, starting from none. */
  ghost function ListsBy(ticks: seq<Tick>, states: seq<State>, n: nat): seq<seq<S.Suggestion>>
    requires n <= |ticks| < |states|
  {
    if n == 0 then [[]]
    else ListsBy(ticks, states, n - 1) + Publication(ticks[n - 1], states[n])
  }

  lemma LongerAt<T>(short: seq<T>, last: T, m: nat)
    requires m <= |short|
    ensures (short + [last])[m] == if m < |short| then short[m] else last
  {
  }

  lemma LongerPublishes(policy: S.Policy, ticks: seq<L.Observed>, lists: seq<seq<S.Suggestion>>, t: L.Observed,
                        list: seq<S.Suggestion>, m: nat, tick: L.Observed, before: seq<S.Suggestion>, after: seq<S.Suggestion>)
    requires L.IsRun(policy, ticks, lists) && S.Plausible(t.stats)
    requires L.Publishes(policy, t, lists[|lists| - 1], list)
    requires m <= |ticks| && before == lists[m]
    requires tick == (if m < |ticks| then ticks[m] else t) && after == (if m < |ticks| then lists[m + 1] else list)
    ensures L.Publishes(policy, tick, before, after) && S.Plausible(tick.stats)
  {
    if m < |ticks| { PublishesAt(policy, ticks, lists, m); }
  }

  lemma RunGoesOn(policy: S.Policy, ticks: seq<L.Observed>, lists: seq<seq<S.Suggestion>>, t: L.Observed, list: seq<S.Suggestion>)
    requires L.IsRun(policy, ticks, lists) && S.Plausible(t.stats)
    requires L.Publishes(policy, t, lists[|lists| - 1], list)
    ensures L.IsRun(policy, ticks + [t], lists + [list])
  {
    var longer, all := ticks + [t], lists + [list];
    forall m | 0 <= m < |longer| ensures L.Publishes(policy, longer[m], all[m], all[m + 1]) && S.Plausible(longer[m].stats) {
      LongerAt(ticks, t, m);
      LongerAt(lists, list, m);
      LongerAt(lists, list, m + 1);
      LongerPublishes(policy, ticks, lists, t, list, m, longer[m], all[m], all[m + 1]);
    }
  }

  lemma PublishesAt(policy: S.Policy, ticks: seq<L.Observed>, lists: seq<seq<S.Suggestion>>, m: nat)
    requires L.IsRun(policy, ticks, lists) && m < |ticks|
    ensures L.Publishes(policy, ticks[m], lists[m], lists[m + 1]) && S.Plausible(ticks[m].stats)
  {
  }

  lemma TickPublishes(cfg: Config, policy: S.Policy, before: State, tick: Tick, after: State)
    requires Ticks(cfg, policy, before, tick, after) && cfg.modelEnabled
    ensures tick.Batch? ==> L.Publishes(policy, L.Observed(tick.stats, tick.now), before.suggestions, after.suggestions)
    ensures !tick.Batch? ==> after == before
  {
  }

  ghost predicate Continues(policy: S.Policy, before: State, tick: Tick, after: State) {
    if tick.Batch? then
      && S.Plausible(tick.stats)
      && L.Publishes(policy, L.Observed(tick.stats, tick.now), before.suggestions, after.suggestions)
    else after.suggestions == before.suggestions
  }

  lemma TickGoesOn(policy: S.Policy, seen: seq<L.Observed>, lists: seq<seq<S.Suggestion>>, before: State, tick: Tick, after: State)
    requires L.IsRun(policy, seen, lists) && lists[|lists| - 1] == before.suggestions
    requires Continues(policy, before, tick, after)
    ensures L.IsRun(policy, seen + Observation(tick), lists + Publication(tick, after))
    ensures var all := lists + Publication(tick, after); all[|all| - 1] == after.suggestions
  {
    if tick.Batch? {
      RunGoesOn(policy, seen, lists, L.Observed(tick.stats, tick.now), after.suggestions);
    } else {
      assert seen + [] == seen && lists + [] == lists;
    }
  }

  lemma RunPublishes(cfg: Config, policy: S.Policy, ticks: seq<Tick>, states: seq<State>, m: nat)
    requires IsRun(cfg, policy, ticks, states) && cfg.modelEnabled && m < |ticks|
    ensures Continues(policy, states[m], ticks[m], states[m + 1])
  {
    RunTick(cfg, policy, ticks, states, m);
    TickPublishes(cfg, policy, states[m], ticks[m], states[m + 1]);
  }

  /** With the model enabled the suggestions of a sentinel run are a suggestion run, so whatever holds of
      those holds of the lists the sentinel publishes. */
  lemma {:induction false} SuggestionsAreARun(cfg: Config, policy: S.Policy, ticks: seq<Tick>, states: seq<State>, n: nat)
    requires IsRun(cfg, policy, ticks, states) && cfg.modelEnabled && n <= |ticks|
    ensures L.IsRun(policy, ObservedBy(ticks, n), ListsBy(ticks, states, n))
    ensures ListsBy(ticks, states, n)[|ListsBy(ticks, states, n)| - 1] == states[n].suggestions
  {
    hide Ticks, Continues, L.Publishes, FromLog;
    if n > 0 {
      SuggestionsAreARun(cfg, policy, ticks, states, n - 1);
      RunPublishes(cfg, policy, ticks, states, n - 1);
      TickGoesOn(policy, ObservedBy(ticks, n - 1), ListsBy(ticks, states, n - 1), states[n - 1], ticks[n - 1], states[n]);
    }
  }
}
