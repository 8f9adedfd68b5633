/**
 Hill climbing of the compaction weights (src/compaction/adaptive.rs), over exact reals.
 */
module HillClimb {

  datatype Weights = Weights(del: real, size: real, age: real, stale: real, miss: real)

  const DEFAULT_WEIGHTS := Weights(10.0, 0.3, 0.2, 5.0, 3.0)

  /** Per-segment query feedback (src/query/feedback.rs). */
  datatype Feedback = Feedback(hits: nat, misses: nat, queries: nat)

  /** No history counts as a perfect hit ratio. */
  function HitRatio(f: Feedback): (r: real)
    ensures 0.0 <= r <= 1.0
    ensures f.hits + f.misses > 0 ==> r * (f.hits + f.misses) as real == f.hits as real
    ensures f.hits + f.misses == 0 ==> r == 1.0
  {
    if f.hits + f.misses == 0 then 1.0 else f.hits as real / (f.hits + f.misses) as real
  }

  const MIN_QUERIES: nat := 5
  const INTERVAL: nat := 10

  /** The scheduler's tuning state; `rollbacks` counts the rollbacks so far. */
  datatype Tuner = Tuner(weights: Weights, prev: Weights, step: real, calls: nat, prevHit: real, rollbacks: nat)

  const INITIAL := Tuner(DEFAULT_WEIGHTS, DEFAULT_WEIGHTS, 0.5, 0, 0.5, 0)

  // ------------------------------------------------------------------
  // adjust
  // ------------------------------------------------------------------

  /** The body of the loop in `adjust` for one segment with enough queries (lines 846-876). */
  function Climb(w: Weights, f: Feedback, step: real): Weights {
    var penalty := 1.0 - HitRatio(f);
    var stale :=
      if penalty > 0.5 then (if w.stale + step <= 20.0 then w.stale + step else w.stale)
      else if penalty < 0.1 && f.queries > 20 then (if w.stale - step * 0.5 >= 1.0 then w.stale - step * 0.5 else w.stale)
      else w.stale;
    var miss := if 1.0 - HitRatio(f) > 0.5 && f.queries > 10 && w.miss + step <= 10.0 then w.miss + step else w.miss;
    w.(stale := stale, miss := miss)
  }

  function ClimbAll(w: Weights, stats: seq<Feedback>, step: real): Weights {
    if stats == [] then w
    else
      var n := |stats| - 1;
      var v := ClimbAll(w, stats[..n], step);
      if stats[n].queries < MIN_QUERIES then v else Climb(v, stats[n], step)
  }

  /** More misses than hits. */
  predicate MostlyMisses(f: Feedback) {
    f.misses > f.hits
  }

  /** No history, or fewer than one miss in ten. */
  predicate AlmostAllHits(f: Feedback) {
    9 * f.misses < f.hits || f.hits + f.misses == 0
  }

  lemma RatiosAreCounts(f: Feedback)
    ensures 1.0 - HitRatio(f) > 0.5 <==> MostlyMisses(f)
    ensures 1.0 - HitRatio(f) < 0.1 <==> AlmostAllHits(f)
  {
    if f.hits + f.misses > 0 {
      assert (f.hits + f.misses) as real == f.hits as real + f.misses as real;
      ShareBelow(HitRatio(f), f.hits as real, f.misses as real, 0.5);
      ShareBelow(HitRatio(f), f.hits as real, f.misses as real, 0.9);
    }
  }

  /** The share `r` of `h` in `h + m` against a threshold. */
  lemma ShareBelow(r: real, h: real, m: real, c: real)
    requires h + m > 0.0 && r * (h + m) == h
    ensures r < c <==> h < c * (h + m)
    ensures r > c <==> h > c * (h + m)
  {
    var total := h + m;
    if r < c { Scale(r, c, total); } else if r > c { Scale(c, r, total); }
    assert c * total == c * (h + m);
  }

  lemma Scale(a: real, b: real, t: real)
    requires a < b && t > 0.0
    ensures a * t < b * t
  {
    var d := b - a;
    assert b * t == (a + d) * t == a * t + d * t;
  }

  /**
   The direction of a climb in terms of the counts: more misses than hits raise both weights by the step, almost
   only hits over more than twenty queries lower the stale weight by half a step, and nothing else moves.
   */
  lemma ClimbDirection(w: Weights, f: Feedback, step: real)
    ensures var v := Climb(w, f, step);
            && v == w.(stale := v.stale, miss := v.miss)
            && (MostlyMisses(f) ==> v.stale == if w.stale + step <= 20.0 then w.stale + step else w.stale)
            && (!MostlyMisses(f) && AlmostAllHits(f) && f.queries > 20 ==>
                  v.stale == if w.stale - step * 0.5 >= 1.0 then w.stale - step * 0.5 else w.stale)
            && (!MostlyMisses(f) && !(AlmostAllHits(f) && f.queries > 20) ==> v.stale == w.stale)
            && v.miss == if MostlyMisses(f) && f.queries > 10 && w.miss + step <= 10.0 then w.miss + step else w.miss
  {
    hide HitRatio, MostlyMisses, AlmostAllHits;
    RatiosAreCounts(f);
  }

  /** Every eligible segment counts, one after the other. */
  lemma {:induction false} ClimbConcat(w: Weights, a: seq<Feedback>, b: seq<Feedback>, step: real)
    ensures ClimbAll(w, a + b, step) == ClimbAll(ClimbAll(w, a, step), b, step)
    ensures forall f :: ClimbAll(w, [f], step) == if f.queries < MIN_QUERIES then w else Climb(w, f, step)
    decreases |b|
  {
    hide Climb;
    forall f ensures ClimbAll(w, [f], step) == if f.queries < MIN_QUERIES then w else Climb(w, f, step) { assert [f][..0] == []; }
    if b == [] {
      assert a + b == a;
    } else {
      ClimbConcat(w, a, b[..|b| - 1], step);
      assert (a + b)[..|a + b| - 1] == a + b[..|b| - 1];
    }
  }

  predicate AnyEligible(stats: seq<Feedback>) {
    exists i :: 0 <= i < |stats| && stats[i].queries >= MIN_QUERIES
  }

  /** Whether the next `adjust` call climbs: it is a tenth call and some segment has enough queries. */
  predicate Climbs(t: Tuner, stats: seq<Feedback>) {
    (t.calls + 1) % INTERVAL == 0 && AnyEligible(stats)
  }

  /** `adjust`: every tenth call climbs, after saving the weights for a rollback. */
  function Adjusted(t: Tuner, stats: seq<Feedback>): Tuner {
    var u := t.(calls := t.calls + 1);
    if !Climbs(t, stats) then u
    else u.(prev := t.weights, weights := ClimbAll(t.weights, stats, t.step))
  }

  // ------------------------------------------------------------------
  // record_compaction_outcome
  // ------------------------------------------------------------------

  function Min(a: real, b: real): real {
    if a < b then a else b
  }

  function Max(a: real, b: real): real {
    if a < b then b else a
  }

  /** A drop of more than 0.05 in the signal rolls the weights back and halves the step. */
  function Recorded(t: Tuner, signal: real): Tuner {
    var bounded := Min(signal, t.prevHit);
    if bounded - t.prevHit < -0.05
    then t.(weights := t.prev, step := Max(t.step * 0.5, 0.05), prevHit := bounded, rollbacks := t.rollbacks + 1)
    else t.(prevHit := bounded)
  }

  /** `DebtResolutionOutcome::from_merge_stats`: the share of rows that were not dropped, clamped to [0, 1]. */
  function RemainingRatio(rowsRead: nat, rowsDropped: nat): (r: real)
    ensures 0.0 <= r <= 1.0
    ensures rowsRead == 0 ==> r == 1.0
    ensures 0 < rowsRead < rowsDropped ==> r == 0.0
    ensures 0 < rowsRead && rowsDropped <= rowsRead ==> r * rowsRead as real == (rowsRead - rowsDropped) as real
  {
    if rowsRead == 0 then 1.0
    else
      var q := rowsDropped as real / rowsRead as real;
      assert q * rowsRead as real == rowsDropped as real;
      assert rowsDropped <= rowsRead ==> q <= 1.0;
      Max(0.0, Min(1.0 - q, 1.0))
  }

  // ------------------------------------------------------------------
  // Invariant of every run
  // ------------------------------------------------------------------

  predicate InBox(w: Weights) {
    && w.del == DEFAULT_WEIGHTS.del && w.size == DEFAULT_WEIGHTS.size && w.age == DEFAULT_WEIGHTS.age
    && 1.0 <= w.stale <= 20.0 && 3.0 <= w.miss <= 10.0
  }

  /** The step after `r` rollbacks: halved each time, down to 0.05. */
  function StepAfter(r: nat): (s: real)
    ensures 0.05 <= s <= 0.5
  {
    if r == 0 then 0.5 else Max(StepAfter(r - 1) * 0.5, 0.05)
  }

  /** Half, a quarter, an eighth, a sixteenth, and from the fourth rollback on 0.05. */
  lemma {:induction false} StepValues(r: nat)
    ensures StepAfter(1) == 0.25 && StepAfter(2) == 0.125 && StepAfter(3) == 0.0625
    ensures r >= 4 ==> StepAfter(r) == 0.05
  {
    assert StepAfter(0) == 0.5;
    assert StepAfter(1) == 0.25;
    assert StepAfter(2) == 0.125;
    assert StepAfter(3) == 0.0625;
    if r > 4 { StepValues(r - 1); }
  }

  /** Bounds of all tunables; every rollback so far has cost more than 0.05 of the hit ratio that started at 0.5. */
  predicate TunerOk(t: Tuner) {
    && InBox(t.weights) && InBox(t.prev)
    && t.step == StepAfter(t.rollbacks)
    && t.prevHit + 0.05 * t.rollbacks as real <= 0.5
    && (t.rollbacks > 0 ==> t.prevHit + 0.05 * t.rollbacks as real < 0.5)
  }

  lemma {:induction false} ClimbStaysInBox(w: Weights, stats: seq<Feedback>, step: real)
    requires InBox(w) && 0.05 <= step <= 0.5
    ensures InBox(ClimbAll(w, stats, step))
    ensures ClimbAll(w, stats, step).miss >= w.miss
    decreases |stats|
  {
    if stats != [] { ClimbStaysInBox(w, stats[..|stats| - 1], step); }
  }

  datatype Event = Adjust(stats: seq<Feedback>) | Record(signal: real)

  function Step(t: Tuner, e: Event): Tuner {
    match e
    case Adjust(stats) => Adjusted(t, stats)
    case Record(signal) => Recorded(t, signal)
  }

  function Run(events: seq<Event>): Tuner {
    if events == [] then INITIAL else Step(Run(events[..|events| - 1]), events[|events| - 1])
  }

  predicate SignalsOk(events: seq<Event>) {
    forall i :: 0 <= i < |events| && events[i].Record? ==> 0.0 <= events[i].signal
  }

  lemma StepKeepsOk(t: Tuner, e: Event)
    requires TunerOk(t)
    ensures TunerOk(Step(t, e)) && Step(t, e).prevHit <= t.prevHit
  {
    match e
    case Adjust(stats) => ClimbStaysInBox(t.weights, stats, t.step);
    case Record(signal) =>
      assert 0.05 * (t.rollbacks + 1) as real == 0.05 * t.rollbacks as real + 0.05;
  }

  /**
   Every run, in any order of the per-segment statistics and for any signals, keeps the tunables in their boxes,
   and every rollback costs more than 0.05 of the ratio; so with signals of at least 0 there are at most nine.
   */
  lemma {:induction false} RunsStayBounded(events: seq<Event>)
    ensures TunerOk(Run(events))
    ensures SignalsOk(events) ==> 0.0 <= Run(events).prevHit && Run(events).rollbacks <= 9
    decreases |events|
  {
    if events != [] {
      RunsStayBounded(events[..|events| - 1]);
      StepKeepsOk(Run(events[..|events| - 1]), events[|events| - 1]);
    }
  }

  /** The hit ratio never rises again, so neither does a later rollback become more likely. */
  lemma {:induction false} HitRatioNeverRises(events: seq<Event>, n: nat)
    requires n <= |events|
    ensures Run(events).prevHit <= Run(events[..n]).prevHit
    decreases |events| - n
  {
    if n == |events| {
      assert events[..n] == events;
    } else {
      HitRatioNeverRises(events, n + 1);
      assert events[..n + 1][..n] == events[..n];
      RunsStayBounded(events[..n]);
      StepKeepsOk(Run(events[..n]), events[n]);
    }
  }

  /** Whether event `n` of the run is an `adjust` call that climbs. */
  predicate ClimbsAt(events: seq<Event>, n: nat)
    requires n < |events|
  {
    events[n].Adjust? && Climbs(Run(events[..n]), events[n].stats)
  }

  function Adjusts(events: seq<Event>): nat {
    if events == [] then 0 else Adjusts(events[..|events| - 1]) + if events[|events| - 1].Adjust? then 1 else 0
  }

  lemma {:induction false} CallsAreAdjusts(events: seq<Event>)
    ensures Run(events).calls == Adjusts(events)
    decreases |events|
  {
    if events != [] { CallsAreAdjusts(events[..|events| - 1]); }
  }

  /** Exactly every tenth `adjust` call climbs, if some segment had five queries. */
  lemma ClimbsEveryTenth(events: seq<Event>, n: nat)
    requires n < |events|
    ensures ClimbsAt(events, n) <==>
            && events[n].Adjust? && Adjusts(events[..n + 1]) % 10 == 0
            && exists i :: 0 <= i < |events[n].stats| && events[n].stats[i].queries >= 5
  {
    CallsAreAdjusts(events[..n]);
    assert events[..n + 1][..n] == events[..n];
  }

  /** The recorded ratio is the least of 0.5 and all signals so far. */
  lemma {:induction false} RatioIsLeastSignal(events: seq<Event>)
    ensures var h := Run(events).prevHit;
            && h <= 0.5 && (forall i :: 0 <= i < |events| && events[i].Record? ==> h <= events[i].signal)
            && (h == 0.5 || exists i :: 0 <= i < |events| && events[i] == Record(h))
    decreases |events|
  {
    if events != [] {
      var n := |events| - 1;
      var init := events[..n];
      RatioIsLeastSignal(init);
      assert forall i :: 0 <= i < n ==> init[i] == events[i];
      if Run(events).prevHit == Run(init).prevHit {
        if i :| 0 <= i < n && init[i] == Record(Run(init).prevHit) { assert events[i] == Record(Run(events).prevHit); }
      } else {
        assert events[n] == Record(Run(events).prevHit);
      }
    }
  }

  /**
   However many calls come between, a rollback restores the weights from before the last climb,
   whole: neither an earlier climb nor an earlier rollback can leak into them.
   */
  lemma RollbackUndoesLastClimb(events: seq<Event>, n: nat, signal: real)
    requires n < |events| && ClimbsAt(events, n)
    requires forall k :: n < k < |events| ==> !ClimbsAt(events, k)
    requires signal < Run(events).prevHit - 0.05
    ensures Run(events + [Record(signal)]).weights == Run(events[..n]).weights
  {
    PrevIsSavedAt(events, n, |events|);
    assert events[..|events|] == events;
    assert (events + [Record(signal)])[..|events|] == events;
  }

  lemma {:induction false} PrevIsSavedAt(events: seq<Event>, n: nat, m: nat)
    requires n < m <= |events| && ClimbsAt(events, n)
    requires forall k :: n < k < |events| ==> !ClimbsAt(events, k)
    ensures Run(events[..m]).prev == Run(events[..n]).weights
  {
    assert events[..m][..m - 1] == events[..m - 1];
    if m - 1 > n {
      PrevIsSavedAt(events, n, m - 1);
      assert !ClimbsAt(events, m - 1);
    }
  }

  function Signals(n: nat): seq<Event> {
    if n == 0 then [] else Signals(n - 1) + [Record(0.5 - 0.055 * n as real)]
  }

  /** A signal that falls by 0.055 each time rolls back every time: nine times before it is negative, and without end after that. */
  lemma {:induction false} RollbacksHappen(n: nat)
    ensures Run(Signals(n)).rollbacks == n && Run(Signals(n)).prevHit == 0.5 - 0.055 * n as real
    ensures n <= 9 ==> SignalsOk(Signals(n))
  {
    if n > 0 {
      RollbacksHappen(n - 1);
      assert Signals(n)[..|Signals(n)| - 1] == Signals(n - 1);
      assert 0.055 * (n - 1) as real == 0.055 * n as real - 0.055;
    }
  }

  // ------------------------------------------------------------------
  // The scheduler object
  // ------------------------------------------------------------------

  class AdaptiveCompactionScheduler {
    var weights: Weights
    var prevWeights: Weights
    var stepSize: real
    var callCount: nat
    var prevHitRatio: real
    ghost var rollbacks: nat

    ghost function State(): Tuner
      reads this
    {
      Tuner(weights, prevWeights, stepSize, callCount, prevHitRatio, rollbacks)
    }

    constructor ()
      ensures State() == INITIAL
    {
      weights, prevWeights, stepSize := DEFAULT_WEIGHTS, DEFAULT_WEIGHTS, 0.5;
      callCount, prevHitRatio, rollbacks := 0, 0.5, 0;
    }

    /** `adjust` (src/compaction/adaptive.rs:820); `stats` in whatever order the hash map yields. */
    method Adjust(stats: seq<Feedback>)
      modifies this
      ensures State() == Adjusted(old(State()), stats)
      ensures old(TunerOk(State())) ==> TunerOk(State())
    {
      hide TunerOk, Climb;
      if TunerOk(State()) { StepKeepsOk(State(), Event.Adjust(stats)); }
      callCount := callCount + 1;
      if callCount % INTERVAL != 0 { return; }
      if stats == [] { return; }
      var anyChange := false;
      ghost var w0 := weights;
      for i := 0 to |stats|
        invariant callCount == old(callCount) + 1 && stepSize == old(stepSize)
        invariant prevHitRatio == old(prevHitRatio) && rollbacks == old(rollbacks)
        invariant anyChange <==> AnyEligible(stats[..i])
        invariant prevWeights == if anyChange then w0 else old(prevWeights)
        invariant weights == ClimbAll(w0, stats[..i], stepSize)
        invariant !anyChange ==> weights == w0
      {
        assert stats[..i + 1][..i] == stats[..i];
        var s := stats[i];
        if s.queries < MIN_QUERIES { continue; }
        if !anyChange {
          prevWeights := weights;
          anyChange := true;
        }
        ClimbFor(s);
      }
      assert stats[..|stats|] == stats;
    }

    /** The body of the loop for one segment (lines 846-876). */
    method ClimbFor(s: Feedback)
      modifies `weights
      ensures weights == Climb(old(weights), s, stepSize)
    {
      var penalty := 1.0 - HitRatio(s);
      if penalty > 0.5 {
        var newVal := weights.stale + stepSize;
        if newVal <= 20.0 { weights := weights.(stale := newVal); }
      } else if penalty < 0.1 && s.queries > 20 {
        var newVal := weights.stale - stepSize * 0.5;
        if newVal >= 1.0 { weights := weights.(stale := newVal); }
      }
      var missRatio := 1.0 - HitRatio(s);
      if missRatio > 0.5 && s.queries > 10 {
        var newVal := weights.miss + stepSize;
        if newVal <= 10.0 { weights := weights.(miss := newVal); }
      }
    }

    /** `record_compaction_outcome` (src/compaction/adaptive.rs:764); its branch for an improvement is dead. */
    method RecordCompactionOutcome(signal: real)
      modifies this
      ensures State() == Recorded(old(State()), signal)
      ensures old(TunerOk(State())) ==> TunerOk(State())
    {
      hide TunerOk;
      if TunerOk(State()) { StepKeepsOk(State(), Record(signal)); }
      var bounded := if signal >= prevHitRatio then prevHitRatio else signal;
      var delta := bounded - prevHitRatio;
      if delta > 0.05 {
        assert false;
      } else if delta < -0.05 {
        weights := prevWeights;
        stepSize := Max(stepSize * 0.5, 0.05);
        rollbacks := rollbacks + 1;
      }
      prevHitRatio := bounded;
    }
  }

}
