/** Lazy decay against its closed form: the sum of every weight decayed from its own second. */
module SentinelDecay {
  import opened Basics
  import opened Sentinel

  datatype Weight = Weight(when: int, amount: real)

  function Weights(events: seq<Event>): seq<Weight> {
    if events == [] then []
    else
      var last := events[|events| - 1];
      Weights(events[..|events| - 1]) + WeightOf(last)
  }

  function WeightOf(e: Event): seq<Weight> {
    if e.Scored? then [Weight(e.when, e.weight)] else []
  }

  /** Sum of w * r^(t - s) over the weights w of seconds s up to t. */
  function DecayedSum(r: real, ws: seq<Weight>, t: int): real {
    if ws == [] then 0.0
    else
      DecayedSum(r, ws[..|ws| - 1], t) + Share(r, ws[|ws| - 1], t)
  }

  function Share(r: real, w: Weight, t: int): real {
    if w.when <= t then w.amount * Pow(r, t - w.when) else 0.0
  }

  /** Whole-second times that never run backwards for this record. */
  predicate Chronological(events: seq<Event>) {
    forall i, j :: 0 <= i < j < |events| ==> events[i].when <= events[j].when
  }

  predicate NoImmediateDrop(events: seq<Event>) {
    forall e <- events :: !e.Dropped?
  }

  lemma {:induction false} PowAdd(r: real, m: nat, n: nat)
    ensures Pow(r, m + n) == Pow(r, m) * Pow(r, n)
  {
    if m > 0 {
      PowAdd(r, m - 1, n);
      assert Pow(r, m + n) == r * Pow(r, m - 1 + n);
    }
  }

  lemma Reassociate(a: real, b: real, c: real)
    ensures a * (b * c) == (a * b) * c && a * (b * c) == b * (a * c)
  {
  }

  lemma Scale(a: real, b: real, c: real)
    requires a <= b && c >= 0.0
    ensures a * c <= b * c && c * a <= c * b
  {
  }

  lemma ShareDecays(r: real, w: Weight, t: int, d: nat)
    requires w.when <= t
    ensures Share(r, w, t + d) == Share(r, w, t) * Pow(r, d)
  {
    hide *;
    var n := t - w.when;
    ShareAfter(r, w, t, n);
    ShareAfter(r, w, t + d, n + d);
    PowAdd(r, n, d);
    ShareInSteps(w.amount, Pow(r, n), Pow(r, d), Pow(r, n + d), Share(r, w, t), Share(r, w, t + d));
  }

  lemma ShareAfter(r: real, w: Weight, t: int, n: nat)
    requires t == w.when + n
    ensures Share(r, w, t) == w.amount * Pow(r, n)
  {
  }

  lemma ShareInSteps(a: real, p: real, q: real, pq: real, now: real, later: real)
    requires pq == p * q && now == a * p && later == a * pq
    ensures later == now * q
  {
    Reassociate(a, p, q);
  }

  /** Waiting multiplies the whole sum. */
  lemma {:induction false} SumDecays(r: real, ws: seq<Weight>, t: int, d: nat)
    requires forall w <- ws :: w.when <= t
    ensures DecayedSum(r, ws, t + d) == DecayedSum(r, ws, t) * Pow(r, d)
  {
    hide Pow, Share;
    if ws != [] {
      var front, w := ws[..|ws| - 1], ws[|ws| - 1];
      SumDecays(r, front, t, d);
      ShareDecays(r, w, t, d);
      SumInSteps(DecayedSum(r, front, t), Share(r, w, t), Pow(r, d), DecayedSum(r, front, t + d), Share(r, w, t + d));
    }
  }

  lemma SumInSteps(a: real, b: real, q: real, a': real, b': real)
    requires a' == a * q && b' == b * q
    ensures a' + b' == (a + b) * q
  {
    Distribute(a, b, q);
  }

  /** What lazy decay stores: a score exact at lastUpdated, which no weight is younger than. */
  ghost predicate Exact(cfg: Config, rec: Record, ws: seq<Weight>) {
    if ws == [] then rec.lastUpdated.None? && rec.score == 0.0
    else
      && rec.lastUpdated.Some?
      && (forall w <- ws :: w.when <= rec.lastUpdated.value)
      && rec.score == DecayedSum(cfg.retention, ws, rec.lastUpdated.value)
  }

  lemma WaitedExact(cfg: Config, score: real, ws: seq<Weight>, since: int, t: int)
    requires since < t && (forall w <- ws :: w.when <= since) && score == DecayedSum(cfg.retention, ws, since)
    ensures DecayBy(cfg, score, t - since) == DecayedSum(cfg.retention, ws, t)
  {
    hide Pow, DecayedSum;
    SumDecays(cfg.retention, ws, since, t - since);
    assert since + (t - since) == t;
  }

  lemma ReadExact(cfg: Config, rec: Record, ws: seq<Weight>, t: int)
    requires Exact(cfg, rec, ws)
    requires ws != [] ==> rec.lastUpdated.value <= t
    ensures ScoreAt(cfg, rec, t) == DecayedSum(cfg.retention, ws, t)
  {
    if ws != [] && rec.lastUpdated.value < t {
      WaitedExact(cfg, rec.score, ws, rec.lastUpdated.value, t);
    }
  }

  lemma HitExact(cfg: Config, rec: Record, ws: seq<Weight>, when: int, amount: real, reason: string)
    requires Exact(cfg, rec, ws)
    requires ws != [] ==> rec.lastUpdated.value <= when
    ensures Exact(cfg, Hit(cfg, rec, when, amount, reason), ws + [Weight(when, amount)])
  {
    ReadExact(cfg, rec, ws, when);
    var w := Weight(when, amount);
    assert (ws + [w])[..|ws|] == ws;
    assert Share(cfg.retention, w, when) == amount * 1.0;
  }

  lemma JudgeExact(cfg: Config, rec: Record, ws: seq<Weight>, now: int, granted: bool)
    requires Exact(cfg, rec, ws) && Judge(cfg, rec, now, granted).Some?
    requires ws != [] ==> rec.lastUpdated.value <= now
    ensures Exact(cfg, Judge(cfg, rec, now, granted).value, ws)
    ensures ws != [] ==> Judge(cfg, rec, now, granted).value.lastUpdated.value <= now
  {
    JudgeOnlyDecays(cfg, rec, now, granted);
    ReadExact(cfg, rec, ws, now);
  }

  lemma StepExact(cfg: Config, rec: Record, ws: seq<Weight>, e: Event)
    requires Exact(cfg, rec, ws) && !e.Dropped? && Apply(cfg, rec, e).Some?
    requires ws != [] ==> rec.lastUpdated.value <= e.when
    ensures Exact(cfg, Apply(cfg, rec, e).value, ws + WeightOf(e))
    ensures ws + WeightOf(e) != [] ==> Apply(cfg, rec, e).value.lastUpdated.value <= e.when
  {
    if e.Scored? {
      HitExact(cfg, rec, ws, e.when, e.weight, e.reason);
    } else {
      assert ws + WeightOf(e) == ws;
      if e.Judged? { JudgeExact(cfg, rec, ws, e.when, e.granted); }
    }
  }

  lemma {:induction false} StoredScore(cfg: Config, events: seq<Event>, t: int)
    requires Chronological(events) && NoImmediateDrop(events) && Live(cfg, events).Some?
    requires forall e <- events :: e.when <= t
    ensures Exact(cfg, Live(cfg, events).value, Weights(events))
    ensures Weights(events) != [] ==> Live(cfg, events).value.lastUpdated.value <= t
  {
    if events != [] {
      var n := |events| - 1;
      StoredScore(cfg, events[..n], events[n].when);
      StepExact(cfg, Live(cfg, events[..n]).value, Weights(events[..n]), events[n]);
    }
  }

  /** The closed form: however many idle ticks fell in between, the score a record shows at any
      time after its last step is the sum of its weights, each decayed from its own second. */
  lemma ScoreIsClosedForm(cfg: Config, events: seq<Event>, t: int)
    requires Chronological(events) && NoImmediateDrop(events) && Live(cfg, events).Some?
    requires forall e <- events :: e.when <= t
    ensures ScoreAt(cfg, Live(cfg, events).value, t) == DecayedSum(cfg.retention, Weights(events), t)
  {
    StoredScore(cfg, events, t);
    ReadExact(cfg, Live(cfg, events).value, Weights(events), t);
  }

  // ---- Immediate drops ------------------------------------------------------

  /** An immediate drop starts the sum over, from the undecayed score or the drop threshold. */
  lemma DropExact(cfg: Config, rec: Record, when: int)
    ensures Exact(cfg, ForceDrop(cfg, rec, when), [Weight(when, Larger(rec.score, cfg.dropThreshold))])
  {
    var w := Weight(when, Larger(rec.score, cfg.dropThreshold));
    assert [w][..0] == [];
    assert Share(cfg.retention, w, when) == w.amount * 1.0;
  }

  function Larger(a: real, b: real): real {
    if a < b then b else a
  }

  lemma {:induction false} StoredAfterDrop(cfg: Config, events: seq<Event>, i: nat, t: int)
    requires Chronological(events) && Live(cfg, events).Some? && i < |events|
    requires events[i].Dropped? && NoImmediateDrop(events[i + 1..])
    requires forall e <- events :: e.when <= t
    ensures Live(cfg, events[..i]).Some?
    ensures Exact(cfg, Live(cfg, events).value, [Floor(cfg, events, i)] + Weights(events[i + 1..]))
    ensures Live(cfg, events).value.lastUpdated.Some? && Live(cfg, events).value.lastUpdated.value <= t
  {
    hide Exact, Apply, Weights, Floor;
    var n := |events| - 1;
    var front, last := events[..n], events[n];
    if i == n {
      LiveDropped(cfg, events);
      assert events[i + 1..] == [];
    } else {
      var after, more := front[i + 1..], events[i + 1..];
      assert more[..|more| - 1] == after && more[|more| - 1] == last && front[..i] == events[..i];
      assert forall e <- after :: e in more;
      StoredAfterDrop(cfg, front, i, last.when);
      SameFloor(cfg, events, front, i);
      StepExact(cfg, Live(cfg, front).value, [Floor(cfg, events, i)] + Weights(after), last);
      OneMoreWeight(Floor(cfg, events, i), more);
    }
  }

  /** What the drop at i leaves. */
  function Floor(cfg: Config, events: seq<Event>, i: nat): Weight
    requires i < |events| && Live(cfg, events[..i]).Some?
  {
    Weight(events[i].when, Larger(Live(cfg, events[..i]).value.score, cfg.dropThreshold))
  }

  lemma LiveDropped(cfg: Config, events: seq<Event>)
    requires events != [] && events[|events| - 1].Dropped? && Live(cfg, events).Some?
    ensures var n := |events| - 1;
            && Live(cfg, events[..n]).Some?
            && Exact(cfg, Live(cfg, events).value, [Floor(cfg, events, n)] + Weights([]))
            && Live(cfg, events).value.lastUpdated == Some(events[n].when)
  {
    hide Exact;
    var n := |events| - 1;
    DropExact(cfg, Live(cfg, events[..n]).value, events[n].when);
    assert [Floor(cfg, events, n)] + Weights([]) == [Floor(cfg, events, n)];
  }

  lemma SameFloor(cfg: Config, events: seq<Event>, front: seq<Event>, i: nat)
    requires i < |front| <= |events| && front == events[..|front|] && Live(cfg, events[..i]).Some?
    ensures front[..i] == events[..i] && Floor(cfg, front, i) == Floor(cfg, events, i)
  {
    hide Live;
    assert front[..i] == events[..i];
  }

  lemma OneMoreWeight(w: Weight, events: seq<Event>)
    requires events != []
    ensures ([w] + Weights(events[..|events| - 1])) + WeightOf(events[|events| - 1]) == [w] + Weights(events)
  {
  }

  /** The closed form with immediate drops: from the last one on, the score is what it left (the score before,
      undecayed, but the drop threshold at least), decayed from its second, and the decayed weights since. */
  lemma ScoreSinceDrop(cfg: Config, events: seq<Event>, i: nat, t: int)
    requires Chronological(events) && Live(cfg, events).Some? && i < |events|
    requires events[i].Dropped? && NoImmediateDrop(events[i + 1..])
    requires forall e <- events :: e.when <= t
    ensures Live(cfg, events[..i]).Some?
    ensures var before := Live(cfg, events[..i]).value.score;
            var floor := if before < cfg.dropThreshold then cfg.dropThreshold else before;
            ScoreAt(cfg, Live(cfg, events).value, t)
            == DecayedSum(cfg.retention, [Weight(events[i].when, floor)] + Weights(events[i + 1..]), t)
  {
    hide DecayedSum, Exact, Live, Weights;
    StoredAfterDrop(cfg, events, i, t);
    ReadExact(cfg, Live(cfg, events).value, [Floor(cfg, events, i)] + Weights(events[i + 1..]), t);
  }

  // ---- Order of arrival ---------------------------------------------------

  lemma {:induction false} SumSplits(r: real, a: seq<Weight>, b: seq<Weight>, t: int)
    ensures DecayedSum(r, a + b, t) == DecayedSum(r, a, t) + DecayedSum(r, b, t)
  {
    if b == [] {
      assert a + b == a;
    } else {
      var n := |b| - 1;
      assert (a + b)[..|a + b| - 1] == a + b[..n];
      SumSplits(r, a, b[..n], t);
    }
  }

  lemma SumWithout(r: real, b: seq<Weight>, i: nat, t: int)
    requires i < |b|
    ensures DecayedSum(r, b, t) == DecayedSum(r, b[..i] + b[i + 1..], t) + Share(r, b[i], t)
    ensures multiset(b[..i] + b[i + 1..]) == multiset(b) - multiset{b[i]}
  {
    var front, w, back := b[..i], [b[i]], b[i + 1..];
    assert b == (front + w) + back;
    SumSplits(r, front + w, back, t);
    SumSplits(r, front, w, t);
    SumSplits(r, front, back, t);
    assert w[..0] == [] && DecayedSum(r, w, t) == Share(r, b[i], t);
  }

  /** The sum does not see the order in which the weights arrived. */
  lemma {:induction false} SumIgnoresOrder(r: real, a: seq<Weight>, b: seq<Weight>, t: int)
    requires multiset(a) == multiset(b)
    ensures DecayedSum(r, a, t) == DecayedSum(r, b, t)
  {
    assert |multiset(a)| == |a| && |multiset(b)| == |b|;
    if a != [] {
      var n := |a| - 1;
      assert a[n] in multiset(b);
      var i :| 0 <= i < |b| && b[i] == a[n];
      SumWithout(r, a, n, t);
      SumWithout(r, b, i, t);
      assert a[..n] + a[n + 1..] == a[..n];
      SumIgnoresOrder(r, a[..n], b[..i] + b[i + 1..], t);
    }
  }

  /** Two lives with the same weights show the same score, whatever their idle ticks and whatever
      the order of same-second arrivals. */
  lemma ScoreIgnoresIdleTicksAndOrder(cfg: Config, a: seq<Event>, b: seq<Event>, t: int)
    requires Chronological(a) && NoImmediateDrop(a) && Live(cfg, a).Some?
    requires Chronological(b) && NoImmediateDrop(b) && Live(cfg, b).Some?
    requires (forall e <- a :: e.when <= t) && (forall e <- b :: e.when <= t)
    requires multiset(Weights(a)) == multiset(Weights(b))
    ensures ScoreAt(cfg, Live(cfg, a).value, t) == ScoreAt(cfg, Live(cfg, b).value, t)
  {
    ScoreIsClosedForm(cfg, a, t);
    ScoreIsClosedForm(cfg, b, t);
    SumIgnoresOrder(cfg.retention, Weights(a), Weights(b), t);
  }

  // ---- The ceiling ----------------------------------------------------------

  /** Weight that arrives in one second. */
  function InSecond(ws: seq<Weight>, s: int): real {
    if ws == [] then 0.0
    else
      var w := ws[|ws| - 1];
      InSecond(ws[..|ws| - 1], s) + (if w.when == s then w.amount else 0.0)
  }

  /** The value one second later: what was there decays once, what arrives is added. */
  predicate Follows(r: real, before: real, arriving: real, after: real) {
    after == r * before + arriving
  }

  lemma NextShare(r: real, w: Weight, t: int)
    ensures Follows(r, Share(r, w, t), if w.when == t + 1 then w.amount else 0.0, Share(r, w, t + 1))
  {
    if w.when <= t {
      assert Pow(r, t + 1 - w.when) == r * Pow(r, t - w.when);
      Reassociate(w.amount, r, Pow(r, t - w.when));
    }
  }

  lemma FollowsAdds(r: real, a: real, a': real, i: real, b: real, b': real, j: real)
    requires Follows(r, a, i, a') && Follows(r, b, j, b')
    ensures Follows(r, a + b, i + j, a' + b')
  {
    Distribute(a, b, r);
  }

  lemma {:induction false} NextSecond(r: real, ws: seq<Weight>, t: int)
    ensures Follows(r, DecayedSum(r, ws, t), InSecond(ws, t + 1), DecayedSum(r, ws, t + 1))
  {
    if ws != [] {
      var front, w := ws[..|ws| - 1], ws[|ws| - 1];
      var a, a', i := DecayedSum(r, front, t), DecayedSum(r, front, t + 1), InSecond(front, t + 1);
      var b, b', j := Share(r, w, t), Share(r, w, t + 1), if w.when == t + 1 then w.amount else 0.0;
      NextSecond(r, front, t);
      NextShare(r, w, t);
      FollowsAdds(r, a, a', i, b, b', j);
      assert DecayedSum(r, ws, t) == a + b;
      assert DecayedSum(r, ws, t + 1) == a' + b';
      assert InSecond(ws, t + 1) == i + j;
    }
  }

  lemma {:induction false} NothingYet(r: real, ws: seq<Weight>, t: int)
    requires forall w <- ws :: w.when > t
    ensures DecayedSum(r, ws, t) == 0.0
  {
    if ws != [] { NothingYet(r, ws[..|ws| - 1], t); }
  }

  lemma Distribute(a: real, b: real, c: real)
    ensures (a + b) * c == a * c + b * c
  {
  }

  lemma WeightedMean(r: real, q: real, x: real, y: real, cap: real)
    requires 0.0 <= r && 0.0 <= q && r + q == 1.0 && x <= cap && y <= cap
    ensures r * x + y * q <= cap
  {
    calc {
      r * x + y * q;
    <= { Scale(x, cap, r); }
      r * cap + y * q;
    <= { Scale(y, cap, q); }
      r * cap + cap * q;
    == { assert r * cap == cap * r; }
      cap * r + cap * q;
    == { assert cap * (r + q) == cap * r + cap * q; Unit(r + q, cap); }
      cap;
    }
  }

  lemma CeilingStep(r: real, q: real, d: real, i: real, next: real, cap: real)
    requires 0.0 <= r && 0.0 <= q && r + q == 1.0 && d * q <= cap && i <= cap && Follows(r, d, i, next)
    ensures next * q <= cap
  {
    WeightedMean(r, q, d * q, i, cap);
    Reassociate(r, d, q);
    Distribute(r * d, i, q);
  }

  lemma Unit(one: real, x: real)
    requires one == 1.0
    ensures one * x == x == x * one
  {
  }

  lemma {:induction false} CeilingFrom(r: real, q: real, ws: seq<Weight>, cap: real, start: int, n: nat)
    requires 0.0 <= r && 0.0 <= q && r + q == 1.0 && cap >= 0.0
    requires forall w <- ws :: w.when > start
    requires forall s :: InSecond(ws, s) <= cap
    ensures DecayedSum(r, ws, start + n) * q <= cap
    decreases n
  {
    hide DecayedSum, InSecond;
    if n == 0 {
      NothingYet(r, ws, start);
    } else {
      CeilingFrom(r, q, ws, cap, start, n - 1);
      CeilingNext(r, q, ws, cap, start + (n - 1));
      assert start + (n - 1) + 1 == start + n;
    }
  }

  lemma CeilingNext(r: real, q: real, ws: seq<Weight>, cap: real, t: int)
    requires 0.0 <= r && 0.0 <= q && r + q == 1.0 && cap >= 0.0
    requires InSecond(ws, t + 1) <= cap && DecayedSum(r, ws, t) * q <= cap
    ensures DecayedSum(r, ws, t + 1) * q <= cap
  {
    hide *;
    NextSecond(r, ws, t);
    CeilingStep(r, q, DecayedSum(r, ws, t), InSecond(ws, t + 1), DecayedSum(r, ws, t + 1), cap);
  }

  lemma {:induction false} Earliest(ws: seq<Weight>, t: int) returns (start: int)
    ensures start <= t && forall w <- ws :: w.when > start
  {
    if ws == [] {
      start := t;
    } else {
      var rest := Earliest(ws[..|ws| - 1], t);
      start := Min(rest, ws[|ws| - 1].when - 1);
      forall w | w in ws ensures w.when > start {
        if w != ws[|ws| - 1] { assert w in ws[..|ws| - 1]; }
      }
    }
  }

  lemma SumCeiling(r: real, q: real, ws: seq<Weight>, cap: real, t: int)
    requires 0.0 <= r && 0.0 < q && r + q == 1.0 && cap >= 0.0
    requires forall s :: InSecond(ws, s) <= cap
    ensures DecayedSum(r, ws, t) <= cap / q
  {
    var start := Earliest(ws, t);
    CeilingFrom(r, q, ws, cap, start, t - start);
    Divide(DecayedSum(r, ws, t), cap, q);
  }

  /** If no second brings more than `cap`, the score never exceeds cap / (1 - r). */
  lemma ScoreCeiling(cfg: Config, events: seq<Event>, cap: real, t: int)
    requires 0.0 < cfg.retention < 1.0 && cap >= 0.0
    requires Chronological(events) && NoImmediateDrop(events) && Live(cfg, events).Some?
    requires forall e <- events :: e.when <= t
    requires forall s :: InSecond(Weights(events), s) <= cap
    ensures ScoreAt(cfg, Live(cfg, events).value, t) <= cap / (1.0 - cfg.retention)
  {
    hide *;
    ScoreIsClosedForm(cfg, events, t);
    CeilingOf(cfg.retention, Weights(events), cap, t);
  }

  lemma CeilingOf(r: real, ws: seq<Weight>, cap: real, t: int)
    requires 0.0 < r < 1.0 && cap >= 0.0
    requires forall s :: InSecond(ws, s) <= cap
    ensures DecayedSum(r, ws, t) <= cap / (1.0 - r)
  {
    SumCeiling(r, 1.0 - r, ws, cap, t);
  }

  lemma Divide(a: real, b: real, c: real)
    requires c > 0.0 && a * c <= b
    ensures a <= b / c
  {
    assert (b / c) * c == b;
  }

  lemma Halves()
    ensures Pow(0.5, 1) == 0.5 && Pow(0.5, 2) == 0.25
  {
    assert Pow(0.5, 0) == 1.0;
    assert Pow(0.5, 1) == 0.5 * Pow(0.5, 0);
    assert Pow(0.5, 2) == 0.5 * Pow(0.5, 1);
  }

  lemma LateSum(wa: Weight, wb: Weight)
    requires wa == Weight(10, 4.0) && wb == Weight(8, 4.0)
    ensures DecayedSum(0.5, [wa, wb], 10) == 5.0
  {
    Halves();
    assert [wa, wb][..1] == [wa] && [wa][..0] == [];
    assert Share(0.5, wa, 10) == 4.0 * Pow(0.5, 0) && Share(0.5, wb, 10) == 4.0 * Pow(0.5, 2);
    assert DecayedSum(0.5, [wa], 10) == DecayedSum(0.5, [], 10) + Share(0.5, wa, 10);
  }

  lemma LateHits(cfg: Config, a: Event, b: Event) returns (rb: Record)
    requires cfg.retention == 0.5 && a == Scored(10, 4.0, "signal_rps") && b == Scored(8, 4.0, "signal_rps")
    ensures Live(cfg, [a, b]) == Some(rb) && rb.score == 8.0 && rb.lastUpdated == Some(8)
  {
    assert [a, b][..1] == [a] && [a][..0] == [];
    var ra := Hit(cfg, NEW_RECORD, 10, 4.0, "signal_rps");
    assert Live(cfg, [a]) == Some(ra);
    rb := Hit(cfg, ra, 8, 4.0, "signal_rps");
    assert Live(cfg, [a, b]) == Some(rb);
  }

  lemma TwoWeights(a: Event, b: Event)
    requires a.Scored? && b.Scored?
    ensures Weights([a, b]) == [Weight(a.when, a.weight), Weight(b.when, b.weight)]
  {
    assert [a, b][..1] == [a] && [a][..0] == [];
    assert Weights([a]) == [Weight(a.when, a.weight)];
  }

  lemma LateRead(cfg: Config, rec: Record)
    requires cfg.retention == 0.5 && rec.score == 8.0 && rec.lastUpdated == Some(8)
    ensures ScoreAt(cfg, rec, 10) == 2.0
  {
    Halves();
    assert DecayBy(cfg, 8.0, 2) == 8.0 * Pow(0.5, 2);
  }

  /** Chronology is needed: a weight stamped before the record's last step moves lastUpdated back,
      so the seconds in between are charged twice. */
  lemma LateWeightBreaksClosedForm(cfg: Config)
    requires cfg.retention == 0.5
    ensures var events := [Scored(10, 4.0, "signal_rps"), Scored(8, 4.0, "signal_rps")];
            && Live(cfg, events).Some?
            && ScoreAt(cfg, Live(cfg, events).value, 10) != DecayedSum(cfg.retention, Weights(events), 10)
  {
    var a, b := Scored(10, 4.0, "signal_rps"), Scored(8, 4.0, "signal_rps");
    var rb := LateHits(cfg, a, b);
    LateRead(cfg, rb);
    TwoWeights(a, b);
    LateSum(Weight(10, 4.0), Weight(8, 4.0));
  }
}
