/** The per-minute action budget: a window that restarts at the first request made at least
    sixty seconds after it opened. */
module ActionBudget {
  import opened Basics

  const WINDOW := 60

  datatype Budget = Budget(windowStart: Option<int>, used: int)

  const FRESH := Budget(None, 0)

  function Limit(maxActionsPerMinute: int): (limit: int)
    ensures limit > 0
  {
    if maxActionsPerMinute <= 0 then 300 else maxActionsPerMinute
  }

  predicate Stale(b: Budget, now: int) {
    b.windowStart.None? || now - b.windowStart.value >= WINDOW
  }

  /** consumeActionBudget: the new budget and whether the action is granted. */
  function Consume(b: Budget, limit: int, now: int): (Budget, bool) {
    var w := if Stale(b, now) then Budget(Some(now), 0) else b;
    if w.used >= limit then (w, false) else (w.(used := w.used + 1), true)
  }

  /** How many of any number of requests made at `now` are granted. */
  function Available(b: Budget, limit: int, now: int): nat {
    if Stale(b, now) then Max(0, limit) else Max(0, limit - b.used)
  }

  /** The budget after `requests` requests at one instant. */
  function Charge(b: Budget, limit: int, now: int, requests: nat): Budget {
    if requests == 0 then b else Consume(Charge(b, limit, now, requests - 1), limit, now).0
  }

  /** Requests made at one instant: the first Available of them are granted, the rest refused. */
  lemma {:induction false} ChargeGrants(b: Budget, limit: int, now: int, requests: nat)
    requires limit > 0
    ensures Consume(Charge(b, limit, now, requests), limit, now).1 <==> requests < Available(b, limit, now)
    ensures requests > 0 && Stale(b, now) ==>
              Charge(b, limit, now, requests) == Budget(Some(now), Min(requests, limit))
    ensures requests > 0 && !Stale(b, now) ==>
              Charge(b, limit, now, requests)
              == b.(used := b.used + Min(requests, Available(b, limit, now)))
  {
    if requests > 0 { ChargeGrants(b, limit, now, requests - 1); }
  }

  /** The requests of one tick. */
  datatype Load = Load(now: int, requests: nat)

  function Granted(b: Budget, limit: int, loads: seq<Load>): nat
    decreases |loads|
  {
    if loads == [] then 0
    else
      var l := loads[0];
      Min(l.requests, Available(b, limit, l.now)) +
      Granted(Charge(b, limit, l.now, l.requests), limit, loads[1..])
  }

  predicate Clocked(loads: seq<Load>) {
    forall i, j :: 0 <= i < j < |loads| ==> loads[i].now <= loads[j].now
  }

  /** What a run keeps of its budget: within the limit, and opened in the past. */
  predicate Sound(b: Budget, limit: int, now: int) {
    && 0 <= b.used <= limit
    && (b.windowStart.Some? ==> b.windowStart.value <= now)
  }

  lemma ChargeSound(b: Budget, limit: int, l: Load)
    requires limit > 0 && Sound(b, limit, l.now)
    ensures Sound(Charge(b, limit, l.now, l.requests), limit, l.now)
  {
    ChargeGrants(b, limit, l.now, l.requests);
  }

  lemma MultipleMonotone(limit: int, a: int, b: int)
    requires limit > 0 && a <= b
    ensures limit * a <= limit * b
  {
  }

  /** A window opened at least sixty seconds later leaves room for one window less. */
  lemma RolledOver(limit: int, s: int, now: int, end: int)
    requires limit > 0 && now - s >= WINDOW
    ensures limit * ((end - now) / WINDOW) + limit <= limit * ((end - s) / WINDOW)
  {
    MultipleMonotone(limit, (end - now) / WINDOW + 1, (end - s) / WINDOW);
    assert limit * ((end - now) / WINDOW + 1) == limit * ((end - now) / WINDOW) + limit;
  }

  /** From an open window: what is left of it, plus one full window per sixty seconds since it opened. */
  lemma {:induction false} GrantsFromOpenWindow(b: Budget, limit: int, loads: seq<Load>, end: int)
    requires limit > 0 && b.windowStart.Some? && 0 <= b.used <= limit
    requires Clocked(loads) && (loads != [] ==> b.windowStart.value <= loads[0].now)
    requires (forall l <- loads :: l.now <= end) && b.windowStart.value <= end
    ensures Granted(b, limit, loads) <= limit - b.used + limit * ((end - b.windowStart.value) / WINDOW)
    decreases |loads|
  {
    var s := b.windowStart.value;
    MultipleMonotone(limit, 0, (end - s) / WINDOW);
    if loads != [] {
      var l := loads[0];
      assert loads[0] in loads;
      var b' := Charge(b, limit, l.now, l.requests);
      ChargeGrants(b, limit, l.now, l.requests);
      assert forall x <- loads[1..] :: x in loads;
      GrantsFromOpenWindow(b', limit, loads[1..], end);
      if l.requests > 0 && Stale(b, l.now) {
        RolledOver(limit, s, l.now, end);
      }
    }
  }

  lemma {:induction false} GrantsFromStaleWindow(b: Budget, limit: int, loads: seq<Load>, start: int, end: int)
    requires limit > 0 && Clocked(loads) && start <= end
    requires forall l <- loads :: start <= l.now <= end && Stale(b, l.now)
    ensures Granted(b, limit, loads) <= limit + limit * ((end - start) / WINDOW)
    decreases |loads|
  {
    MultipleMonotone(limit, 0, (end - start) / WINDOW);
    if loads != [] {
      var l := loads[0];
      assert loads[0] in loads;
      ChargeGrants(b, limit, l.now, l.requests);
      assert forall x <- loads[1..] :: x in loads;
      if l.requests == 0 {
        GrantsFromStaleWindow(b, limit, loads[1..], start, end);
      } else {
        GrantsFromOpenWindow(Charge(b, limit, l.now, l.requests), limit, loads[1..], end);
        MultipleMonotone(limit, (end - l.now) / WINDOW, (end - start) / WINDOW);
      }
    }
  }

  /** ceil(span / 60) + 1 windows can overlap a span, each worth `limit`. */
  function SpanCap(limit: int, span: nat): int {
    limit * ((span + WINDOW - 1) / WINDOW + 1)
  }

  /** The rate promise over any span of any run with a clock that never runs backwards. */
  lemma SpanGrants(b: Budget, limit: int, loads: seq<Load>, start: int, span: nat)
    requires limit > 0 && Clocked(loads) && Sound(b, limit, start)
    requires forall l <- loads :: start <= l.now <= start + span
    ensures Granted(b, limit, loads) <= SpanCap(limit, span)
  {
    var end := start + span;
    var n := (span + WINDOW - 1) / WINDOW;
    assert SpanCap(limit, span) == limit + limit * n;
    if Stale(b, start) {
      GrantsFromStaleWindow(b, limit, loads, start, end);
      MultipleMonotone(limit, span / WINDOW, n);
    } else {
      assert loads != [] ==> loads[0] in loads;
      GrantsFromOpenWindow(b, limit, loads, end);
      MultipleMonotone(limit, (end - b.windowStart.value) / WINDOW, n);
    }
  }

  // ---- Metered runs -------------------------------------------------------------

  function Sum(counts: seq<nat>): nat {
    if counts == [] then 0 else counts[0] + Sum(counts[1..])
  }

  predicate MeterStep(b: Budget, limit: int, l: Load, count: nat, b': Budget) {
    b' == Charge(b, limit, l.now, l.requests) && count == Min(l.requests, Available(b, limit, l.now))
  }

  /** budgets[m] is the budget before load m, counts[m] what load m was granted. */
  ghost predicate Metered(budgets: seq<Budget>, limit: int, loads: seq<Load>, counts: seq<nat>) {
    && |budgets| == |loads| + 1
    && |counts| == |loads|
    && forall m :: 0 <= m < |loads| ==> MeterStep(budgets[m], limit, loads[m], counts[m], budgets[m + 1])
  }

  lemma {:induction false} MeteredSum(budgets: seq<Budget>, limit: int, loads: seq<Load>, counts: seq<nat>)
    requires Metered(budgets, limit, loads, counts)
    ensures Sum(counts) == Granted(budgets[0], limit, loads)
    decreases |loads|
  {
    if loads != [] {
      assert MeterStep(budgets[0], limit, loads[0], counts[0], budgets[1]);
      MeteredSum(budgets[1..], limit, loads[1..], counts[1..]);
    }
  }

  lemma {:induction false} MeteredSound(budgets: seq<Budget>, limit: int, loads: seq<Load>, counts: seq<nat>, m: nat, now: int)
    requires limit > 0 && Metered(budgets, limit, loads, counts) && budgets[0] == FRESH
    requires m <= |loads| && Clocked(loads) && forall i :: 0 <= i < m ==> loads[i].now <= now
    ensures Sound(budgets[m], limit, now)
  {
    if m > 0 {
      MeteredSound(budgets, limit, loads, counts, m - 1, loads[m - 1].now);
      ChargeSound(budgets[m - 1], limit, loads[m - 1]);
      assert MeterStep(budgets[m - 1], limit, loads[m - 1], counts[m - 1], budgets[m]);
    }
  }

  /** From a fresh budget, the loads i to j - 1 of a metered run are granted at most the span's cap. */
  lemma MeteredSpan(budgets: seq<Budget>, limit: int, loads: seq<Load>, counts: seq<nat>, i: nat, j: nat, span: nat)
    requires limit > 0 && Metered(budgets, limit, loads, counts) && budgets[0] == FRESH && Clocked(loads)
    requires i < j <= |loads| && loads[j - 1].now <= loads[i].now + span
    ensures Sum(counts[i..j]) <= SpanCap(limit, span)
  {
    MeteredSound(budgets, limit, loads, counts, i, loads[i].now);
    MeteredSum(budgets[i..j + 1], limit, loads[i..j], counts[i..j]);
    SpanGrants(budgets[i], limit, loads[i..j], loads[i].now, span);
  }
}
