/**
 The worker loop of `CompactionIOScheduler::start` (src/compaction/io_scheduler.rs:594-620)
 as a state machine.  Every lock acquisition of the worker is a step of its own, and other
 threads may enqueue between any two steps.
 */
module IoWorker {
  import opened Common
  import opened IoScheduler

  /** Where the worker is: looking at the retry queue, inside `select_next`, or about to ask for tokens. */
  datatype Pc = Top | CheckP0 | CheckP1 | CheckP2 | PopFirst | PopSecond | PopThird | Acquire(task: Task)

  /** A choice of `select_next`, with everything that was queued when that call began. */
  datatype Pick = Pick(task: Task, seen: set<Task>, readOptimized: bool)

  /** A task that got its tokens: the clock, the milliseconds refilled so far, and the bucket's refill time. */
  datatype Dispatch = Dispatch(task: Task, time: nat, granted: nat, last: nat)

  datatype State = State(
    p0: set<Task>, p1: set<Task>, p2: set<Task>, retry: seq<Task>, pc: Pc, readOptimized: bool,
    bucket: Bucket, clock: nat, next: nat,
    // history
    admitted: set<Task>, seen: set<Task>, picks: seq<Pick>, log: seq<Dispatch>, granted: nat, spilled: nat)

  datatype Event =
    | Enqueue(request: Task)
    | LookAtRetry
    | CheckEmpty(readOptimized: bool)
    | PopHeap(chosen: Task)
    | TryAcquire(now: nat, later: nat)

  function Queued(s: State): set<Task> {
    s.p0 + s.p1 + s.p2
  }

  /** The heap that the current pop looks at. */
  function Heap(s: State): set<Task>
    requires s.pc.PopFirst? || s.pc.PopSecond? || s.pc.PopThird?
  {
    if s.pc.PopFirst? then s.p0
    else if s.pc.PopSecond? == s.readOptimized then s.p2
    else s.p1
  }

  predicate Enabled(s: State, e: Event) {
    match e
    case Enqueue(_) => true
    case LookAtRetry => s.pc.Top?
    case CheckEmpty(_) => s.pc.CheckP0? || s.pc.CheckP1? || s.pc.CheckP2?
    case PopHeap(chosen) =>
      (s.pc.PopFirst? || s.pc.PopSecond? || s.pc.PopThird?) && (Heap(s) != {} ==> IsMax(chosen, Heap(s)))
    case TryAcquire(now, later) =>
      // the u64 cast of the elapsed milliseconds does not truncate
      s.pc.Acquire? && s.bucket.last <= s.clock <= now <= later && (now - s.bucket.last) / MS < U64
  }

  function Step(s: State, e: Event): State
    requires Enabled(s, e)
  {
    match e
    case Enqueue(request) => StepEnqueue(s, request)
    case LookAtRetry =>
      if s.retry != [] then s.(pc := Acquire(s.retry[0]), retry := s.retry[1..])
      else s.(pc := CheckP0, seen := Queued(s))
    case CheckEmpty(readOptimized) =>
      var q := if s.pc.CheckP0? then s.p0 else if s.pc.CheckP1? then s.p1 else s.p2;
      if q != {} then s.(pc := PopFirst, readOptimized := readOptimized)
      else s.(pc := if s.pc.CheckP0? then CheckP1 else if s.pc.CheckP1? then CheckP2 else Top)
    case PopHeap(chosen) =>
      if Heap(s) == {} then s.(pc := if s.pc.PopFirst? then PopSecond else if s.pc.PopSecond? then PopThird else Top)
      else s.(p0 := s.p0 - {chosen}, p1 := s.p1 - {chosen}, p2 := s.p2 - {chosen}, pc := Acquire(chosen),
              picks := s.picks + [Pick(chosen, s.seen, s.readOptimized)])
    case TryAcquire(now, later) => StepAcquire(s, now, later)
  }

  function StepEnqueue(s: State, request: Task): State {
    if !Admitted(request) then s
    else
      var t := request.(arrival := s.next);
      var r := s.(next := s.next + 1, admitted := s.admitted + {t});
      match t.priority
      case Flush => r.(p0 := s.p0 + {t})
      case LowLevel => r.(p1 := s.p1 + {t})
      case HighLevel => r.(p2 := s.p2 + {t})
  }

  function StepAcquire(s: State, now: nat, later: nat): State
    requires s.pc.Acquire? && s.bucket.last <= s.clock <= now <= later
  {
    var t := s.pc.task;
    var (b, ok) := Acquired(s.bucket, IoBytes(t), now, later);
    var granted := s.granted + ElapsedMs(s.bucket, now);
    // without an elapsed millisecond the clock is not read a second time
    var clock := if ElapsedMs(s.bucket, now) == 0 then now else later;
    // what the refill would have brought above the capacity
    var excess := Max(0, s.bucket.tokens + ElapsedMs(s.bucket, now) * s.bucket.rate - s.bucket.capacity);
    var r := s.(pc := Top, bucket := b, clock := clock, granted := granted, spilled := s.spilled + excess);
    if ok then r.(log := s.log + [Dispatch(t, now, granted, b.last)]) else r.(retry := s.retry + [t])
  }

  /** Less than 2^64 milliseconds have passed since the last refill. */
  predicate Timely(s: State) {
    s.bucket.last <= s.clock && (s.clock - s.bucket.last) / MS < U64
  }

  predicate Init(s: State) {
    && Queued(s) == {} && s.retry == [] && s.pc == Top && s.next == 0
    && BucketOk(s.bucket) && Timely(s)
    && s.admitted == {} && s.picks == [] && s.log == [] && s.granted == 0 && s.spilled == 0
  }

  ghost predicate StepsTo(r: State, e: Event, s: State) {
    Enabled(r, e) && s == Step(r, e)
  }

  /** A run: states linked by the listed events. */
  ghost predicate IsRun(states: seq<State>, events: seq<Event>) {
    |states| == |events| + 1 && forall i, j :: 0 <= i < |events| && j == i + 1 ==> StepsTo(states[i], events[i], states[j])
  }

  // ------------------------------------------------------------------
  // Conservation and order
  // ------------------------------------------------------------------

  function PickTasks(picks: seq<Pick>): seq<Task> {
    seq(|picks|, i requires 0 <= i < |picks| => picks[i].task)
  }

  function LogTasks(log: seq<Dispatch>): seq<Task> {
    seq(|log|, i requires 0 <= i < |log| => log[i].task)
  }

  function Hand(pc: Pc): seq<Task> {
    if pc.Acquire? then [pc.task] else []
  }

  predicate Distinct(ts: seq<Task>) {
    forall i, j :: 0 <= i < j < |ts| ==> ts[i] != ts[j]
  }

  function AsSet(ts: seq<Task>): set<Task> {
    set t | t in ts
  }

  predicate QueuesOk(s: State) {
    && AllOf(s.p0, Flush) && AllOf(s.p1, LowLevel) && AllOf(s.p2, HighLevel)
    && forall u :: u in s.admitted ==> u.arrival < s.next
  }

  /**
   Every admitted task is in exactly one place, and tasks are dispatched in the order in which
   `select_next` chose them: the chosen ones are the dispatched ones, then the retry queue, then the one in hand.
   */
  ghost predicate Conserved(s: State) {
    && s.admitted == Queued(s) + AsSet(PickTasks(s.picks))
    && Queued(s) !! AsSet(PickTasks(s.picks))
    && Distinct(PickTasks(s.picks))
    && PickTasks(s.picks) == LogTasks(s.log) + s.retry + Hand(s.pc)
    && |s.retry| <= 1
    && (s.retry != [] ==> s.pc.Top?)
  }

  lemma ConservedStep(s: State, e: Event)
    requires QueuesOk(s) && Conserved(s) && Enabled(s, e)
    ensures QueuesOk(Step(s, e)) && Conserved(Step(s, e))
  {
    match e
    case Enqueue(request) => ConservedEnqueue(s, request);
    case LookAtRetry =>
      if s.retry != [] { assert s.retry == [s.retry[0]]; }
    case CheckEmpty(_) =>
    case PopHeap(chosen) => ConservedPop(s, chosen);
    case TryAcquire(now, later) => ConservedAcquire(s, now, later);
  }

  lemma ConservedEnqueue(s: State, request: Task)
    requires QueuesOk(s) && Conserved(s)
    ensures QueuesOk(StepEnqueue(s, request)) && Conserved(StepEnqueue(s, request))
  {
    if Admitted(request) {
      var t := request.(arrival := s.next);
      var r := StepEnqueue(s, request);
      assert t !in s.admitted;
      assert Queued(r) == Queued(s) + {t};
    }
  }

  lemma ConservedPop(s: State, chosen: Task)
    requires QueuesOk(s) && Conserved(s) && Enabled(s, PopHeap(chosen))
    ensures QueuesOk(Step(s, PopHeap(chosen))) && Conserved(Step(s, PopHeap(chosen)))
  {
    if Heap(s) != {} {
      var r := Step(s, PopHeap(chosen));
      assert PickTasks(r.picks) == PickTasks(s.picks) + [chosen];
      assert AsSet(PickTasks(r.picks)) == AsSet(PickTasks(s.picks)) + {chosen};
      assert Queued(r) == Queued(s) - {chosen} && chosen in Queued(s);
      assert chosen !in AsSet(PickTasks(s.picks));
    }
  }

  lemma ConservedAcquire(s: State, now: nat, later: nat)
    requires QueuesOk(s) && Conserved(s) && Enabled(s, TryAcquire(now, later))
    ensures QueuesOk(StepAcquire(s, now, later)) && Conserved(StepAcquire(s, now, later))
  {
    hide Acquired;
    var r := StepAcquire(s, now, later);
    if r.log != s.log {
      assert LogTasks(r.log) == LogTasks(s.log) + [s.pc.task];
    }
  }

  // ------------------------------------------------------------------
  // What select_next chooses while others enqueue
  // ------------------------------------------------------------------

  predicate NoneOf(q: set<Task>, p: Priority) {
    forall u :: u in q ==> u.priority != p
  }

  function SecondPriority(readOptimized: bool): Priority {
    if readOptimized then HighLevel else LowLevel
  }

  /** Everything seen at the start of the call is still queued, and none of it is in a heap already found empty. */
  predicate SeenOk(s: State) {
    match s.pc
    case Top => true
    case Acquire(_) => true
    case CheckP0 => s.seen <= Queued(s)
    case CheckP1 => s.seen <= Queued(s) && NoneOf(s.seen, Flush)
    case CheckP2 => s.seen <= Queued(s) && NoneOf(s.seen, Flush) && NoneOf(s.seen, LowLevel)
    case PopFirst => s.seen <= Queued(s)
    case PopSecond => s.seen <= Queued(s) && NoneOf(s.seen, Flush)
    case PopThird => s.seen <= Queued(s) && NoneOf(s.seen, Flush) && NoneOf(s.seen, SecondPriority(s.readOptimized))
  }

  ghost predicate PicksBest(picks: seq<Pick>) {
    forall i :: 0 <= i < |picks| ==> Best(picks[i].task, picks[i].seen, picks[i].readOptimized)
  }

  lemma SeenStep(s: State, e: Event)
    requires QueuesOk(s) && SeenOk(s) && Enabled(s, e)
    ensures SeenOk(Step(s, e))
  {
    match e
    case Enqueue(request) => EnqueueKeeps(s, request);
    case LookAtRetry =>
    case CheckEmpty(_) =>
    case PopHeap(_) =>
    case TryAcquire(now, later) => AcquireEndsSelection(s, now, later);
  }

  lemma EnqueueKeeps(s: State, request: Task)
    ensures var r := StepEnqueue(s, request);
            && Queued(s) <= Queued(r) && r.seen == s.seen && r.pc == s.pc && r.readOptimized == s.readOptimized
            && r.picks == s.picks && r.log == s.log && r.bucket == s.bucket && r.clock == s.clock && r.granted == s.granted
            && r.retry == s.retry && r.spilled == s.spilled
  {
  }

  lemma AcquireEndsSelection(s: State, now: nat, later: nat)
    requires Enabled(s, TryAcquire(now, later))
    ensures StepAcquire(s, now, later).pc == Top && StepAcquire(s, now, later).picks == s.picks
  {
  }

  /** A popped task is a best one of everything that was queued when the call began. */
  lemma PickIsBest(s: State, chosen: Task)
    requires QueuesOk(s) && SeenOk(s) && Enabled(s, PopHeap(chosen)) && Heap(s) != {}
    ensures Best(chosen, s.seen, s.readOptimized)
  {
    forall u | u in s.seen ensures Precedes(u, chosen, s.readOptimized) {
      if u in Heap(s) { assert Leq(u, chosen); }
    }
  }

  lemma PicksStep(s: State, e: Event)
    requires QueuesOk(s) && SeenOk(s) && PicksBest(s.picks) && Enabled(s, e)
    ensures PicksBest(Step(s, e).picks)
  {
  }

  /** `select_next` comes back empty-handed only if nothing was queued when it began. */
  lemma IdleOnlyWhenEmpty(s: State, e: Event)
    requires QueuesOk(s) && SeenOk(s) && Enabled(s, e) && (e.CheckEmpty? || e.PopHeap?) && Step(s, e).pc.Top?
    ensures s.seen == {}
  {
  }

  // ------------------------------------------------------------------
  // The rate bound
  // ------------------------------------------------------------------

  /** I/O bytes of the dispatches i, ..., j - 1. */
  function Spent(log: seq<Dispatch>, i: nat, j: nat): nat
    requires i <= j <= |log|
  {
    if i == j then 0 else Spent(log, i, j - 1) + IoBytes(log[j - 1].task)
  }

  lemma {:induction false} SpentPrefix(log: seq<Dispatch>, d: Dispatch, i: nat, j: nat)
    requires i <= j <= |log|
    ensures Spent(log + [d], i, j) == Spent(log, i, j)
    decreases j
  {
    if i < j { SpentPrefix(log, d, i, j - 1); }
  }

  /** From the i-th dispatch on, what was spent and what is left is covered by a full bucket and the refills since. */
  predicate Covered(s: State, i: nat)
    requires i < |s.log|
  {
    && s.log[i].granted <= s.granted && s.log[i].last <= s.bucket.last
    && s.log[i].time < s.log[i].last + MS
    && (s.granted - s.log[i].granted) * MS <= s.bucket.last - s.log[i].last
    && Spent(s.log, i, |s.log|) + s.bucket.tokens <= s.bucket.capacity + s.bucket.rate * (s.granted - s.log[i].granted)
  }

  /** The same for the window from dispatch i to dispatch j, as it stood when j was dispatched. */
  predicate WindowCovered(log: seq<Dispatch>, b: Bucket, i: nat, j: nat)
    requires i <= j < |log|
  {
    && log[i].time <= log[j].time
    && log[i].granted <= log[j].granted
    && log[i].time < log[i].last + MS
    && (log[j].granted - log[i].granted) * MS <= Max(log[j].time - log[i].last, 0)
    && Spent(log, i, j + 1) <= b.capacity + b.rate * (log[j].granted - log[i].granted)
  }

  predicate RateOk(s: State) {
    && BucketOk(s.bucket) && s.bucket.last <= s.clock
    && (forall i :: 0 <= i < |s.log| ==> s.log[i].time <= s.clock && Covered(s, i))
    && (forall i, j :: 0 <= i <= j < |s.log| ==> WindowCovered(s.log, s.bucket, i, j))
  }

  lemma RateStep(s: State, e: Event)
    requires RateOk(s) && Enabled(s, e)
    ensures RateOk(Step(s, e))
  {
    match e
    case Enqueue(request) => EnqueueKeeps(s, request); SameRate(s, StepEnqueue(s, request));
    case LookAtRetry => SameRate(s, Step(s, e));
    case CheckEmpty(_) => SameRate(s, Step(s, e));
    case PopHeap(_) => SameRate(s, Step(s, e));
    case TryAcquire(now, later) => RateAcquire(s, now, later);
  }

  lemma SameRate(s: State, r: State)
    requires RateOk(s) && r.log == s.log && r.bucket == s.bucket && r.clock == s.clock && r.granted == s.granted
    ensures RateOk(r)
  {
  }

  /** What a call of `try_acquire` does to the quantities of the bound. */
  lemma AcquireFacts(s: State, now: nat, later: nat)
    requires BucketOk(s.bucket) && Enabled(s, TryAcquire(now, later))
    ensures var r, bytes := StepAcquire(s, now, later), IoBytes(s.pc.task);
            var e := r.granted - s.granted;
            && e >= 0 && BucketOk(r.bucket) && r.bucket.rate == s.bucket.rate && r.bucket.capacity == s.bucket.capacity
            && now <= r.clock && r.bucket.last <= r.clock < r.bucket.last + MS && s.bucket.last <= r.bucket.last
            && s.bucket.last + e * MS <= now && now < r.bucket.last + MS && s.bucket.last + e * MS <= r.bucket.last
            && (r.log == s.log || r.log == s.log + [Dispatch(s.pc.task, now, r.granted, r.bucket.last)])
            && (r.log == s.log ==> r.bucket.tokens <= s.bucket.tokens + s.bucket.rate * e)
            && (r.log != s.log ==> bytes + r.bucket.tokens <= s.bucket.tokens + s.bucket.rate * e)
            && (r.log != s.log ==> bytes + r.bucket.tokens <= s.bucket.capacity)
  {
    RefillIsIdeal(s.bucket, now, later);
    ElapsedBounds(s.bucket, now);
    hide ElapsedMs;
    var e := ElapsedMs(s.bucket, now);
    assert e * s.bucket.rate == s.bucket.rate * e;
  }

  lemma ElapsedBounds(b: Bucket, now: nat)
    requires b.last <= now && (now - b.last) / MS < U64
    ensures b.last + ElapsedMs(b, now) * MS <= now < b.last + ElapsedMs(b, now) * MS + MS
  {
  }

  lemma RateAcquire(s: State, now: nat, later: nat)
    requires RateOk(s) && Enabled(s, TryAcquire(now, later))
    ensures RateOk(StepAcquire(s, now, later))
  {
    hide StepAcquire;
    AcquireFacts(s, now, later);
    var r := StepAcquire(s, now, later);
    var n := |s.log|;
    forall i | 0 <= i < |r.log| ensures r.log[i].time <= r.clock && Covered(r, i) {
      if i < n {
        CoveredAcquire(s, now, later, i);
      } else {
        assert Spent(r.log, n, n) == 0 && s.bucket.rate * 0 == 0;
      }
    }
    forall i, j | 0 <= i <= j < |r.log| ensures WindowCovered(r.log, r.bucket, i, j) {
      if j < n {
        assert WindowCovered(s.log, s.bucket, i, j);
        if r.log != s.log { SpentPrefix(s.log, r.log[n], i, j + 1); }
      } else if i < n {
        CoveredAcquire(s, now, later, i);
      } else {
        assert Covered(r, n);
      }
    }
  }

  lemma CoveredAcquire(s: State, now: nat, later: nat, i: nat)
    requires RateOk(s) && Enabled(s, TryAcquire(now, later)) && i < |s.log|
    ensures var r := StepAcquire(s, now, later);
            && i < |r.log| && r.log[i] == s.log[i] && Covered(r, i)
            && (r.granted - r.log[i].granted) * MS <= now - r.log[i].last
  {
    hide StepAcquire;
    AcquireFacts(s, now, later);
    assert Covered(s, i);
    var r := StepAcquire(s, now, later);
    var n, e := |s.log|, r.granted - s.granted;
    var g := s.granted - s.log[i].granted;
    assert s.bucket.rate * (g + e) == s.bucket.rate * g + s.bucket.rate * e;
    if r.log != s.log {
      SpentPrefix(s.log, r.log[n], i, n);
      assert Spent(r.log, i, n + 1) == Spent(r.log, i, n) + IoBytes(s.pc.task);
    }
  }

  /** In any window of a run the dispatched I/O is at most a full bucket plus the rate times the window in ms plus one. */
  lemma RateBound(s: State, i: nat, j: nat)
    requires RateOk(s) && i <= j < |s.log|
    ensures s.log[i].time <= s.log[j].time
    ensures Spent(s.log, i, j + 1) <= s.bucket.capacity + s.bucket.rate * ((s.log[j].time - s.log[i].time) / MS + 1)
  {
    assert WindowCovered(s.log, s.bucket, i, j);
    var k := s.log[j].granted - s.log[i].granted;
    var w := (s.log[j].time - s.log[i].time) / MS;
    assert k <= w + 1;
    Monotone(s.bucket.rate, k, w + 1);
  }

  lemma Monotone(r: nat, a: nat, b: nat)
    requires a <= b
    ensures r * a <= r * b
  {
  }

  // ------------------------------------------------------------------
  // Whole runs
  // ------------------------------------------------------------------

  ghost predicate Inv(s: State) {
    QueuesOk(s) && Conserved(s) && SeenOk(s) && PicksBest(s.picks) && RateOk(s) && Timely(s)
  }

  /** Every state of every interleaving satisfies all of the above. */
  lemma {:induction false} RunsKeepInv(states: seq<State>, events: seq<Event>, k: nat)
    requires IsRun(states, events) && Init(states[0]) && k < |states|
    ensures Inv(states[k])
    decreases k
  {
    if k > 0 {
      RunsKeepInv(states, events, k - 1);
      assert StepsTo(states[k - 1], events[k - 1], states[k]);
      InvStep(states[k - 1], events[k - 1]);
    }
  }

  lemma InvStep(s: State, e: Event)
    requires Inv(s) && Enabled(s, e)
    ensures Inv(Step(s, e))
  {
    hide QueuesOk;
    hide Conserved;
    hide SeenOk;
    hide PicksBest;
    hide RateOk;
    hide Enabled;
    hide Step;
    hide Timely;
    ConservedStep(s, e);
    SeenStep(s, e);
    PicksStep(s, e);
    RateStep(s, e);
    TimelyStep(s, e);
  }

  lemma TimelyStep(s: State, e: Event)
    requires RateOk(s) && Timely(s) && Enabled(s, e)
    ensures Timely(Step(s, e))
  {
    hide StepAcquire;
    if e.TryAcquire? { AcquireFacts(s, e.now, e.later); }
  }

  lemma {:induction false} BucketNeverResized(states: seq<State>, events: seq<Event>, k: nat)
    requires IsRun(states, events) && Init(states[0]) && k < |states|
    ensures states[k].bucket.capacity == states[0].bucket.capacity && states[k].bucket.rate == states[0].bucket.rate
    decreases k
  {
    hide Step, Enabled, Inv, Init;
    if k > 0 {
      BucketNeverResized(states, events, k - 1);
      RunsKeepInv(states, events, k - 1);
      InvFacts(states[k - 1]);
      assert StepsTo(states[k - 1], events[k - 1], states[k]);
      SameSize(states[k - 1], events[k - 1]);
    }
  }

  lemma SameSize(s: State, e: Event)
    requires BucketOk(s.bucket) && Enabled(s, e)
    ensures Step(s, e).bucket.capacity == s.bucket.capacity && Step(s, e).bucket.rate == s.bucket.rate
  {
    hide StepAcquire;
    if e.TryAcquire? { AcquireFacts(s, e.now, e.later); }
  }

  /** The rate bound for any run and any time window [from, to] that holds the dispatches i, ..., j. */
  lemma RunRateBound(states: seq<State>, events: seq<Event>, i: nat, j: nat, from: nat, to: nat)
    requires IsRun(states, events) && Init(states[0])
    requires var log := states[|events|].log; i <= j < |log| && from <= log[i].time && log[j].time <= to
    ensures from <= to
    ensures Spent(states[|events|].log, i, j + 1) <= states[0].bucket.capacity + states[0].bucket.rate * ((to - from) / MS + 1)
  {
    var s := states[|events|];
    RunsKeepInv(states, events, |events|);
    BucketNeverResized(states, events, |events|);
    RateBound(s, i, j);
    Monotone(s.bucket.rate, (s.log[j].time - s.log[i].time) / MS + 1, (to - from) / MS + 1);
  }

  // ------------------------------------------------------------------
  // No token is lost or invented
  // ------------------------------------------------------------------

  /** Tokens left, dispatched and spilled are the tokens at the start and all refills. */
  predicate Balanced(s: State, start: nat) {
    s.bucket.tokens + Spent(s.log, 0, |s.log|) + s.spilled == start + s.granted * s.bucket.rate
  }

  lemma BalancedAcquire(s: State, now: nat, later: nat, start: nat)
    requires BucketOk(s.bucket) && Enabled(s, TryAcquire(now, later)) && Balanced(s, start)
    ensures Balanced(StepAcquire(s, now, later), start)
  {
    hide Refilled, ElapsedMs, IoBytes;
    RefillIsIdeal(s.bucket, now, later);
    var r, e := StepAcquire(s, now, later), ElapsedMs(s.bucket, now);
    RefillKeepsShape(s.bucket, now, later);
    assert (s.granted + e) * s.bucket.rate == s.granted * s.bucket.rate + e * s.bucket.rate;
    if r.log != s.log { SpentPrefix(s.log, r.log[|s.log|], 0, |s.log|); }
  }

  lemma RefillKeepsShape(b: Bucket, now: nat, later: nat)
    requires b.last <= now <= later
    ensures Refilled(b, now, later).rate == b.rate && Refilled(b, now, later).capacity == b.capacity
  {
  }

  lemma BalancedStep(s: State, e: Event, start: nat)
    requires BucketOk(s.bucket) && Enabled(s, e) && Balanced(s, start)
    ensures Balanced(Step(s, e), start)
  {
    hide StepAcquire, Spent;
    match e
    case Enqueue(request) => EnqueueKeeps(s, request);
    case LookAtRetry =>
    case CheckEmpty(_) =>
    case PopHeap(_) =>
    case TryAcquire(now, later) => BalancedAcquire(s, now, later, start);
  }

  /** Over every run: the tokens at the end, the bytes dispatched and what overflowed equal the tokens at the start and the refills. */
  lemma {:induction false} RunBalance(states: seq<State>, events: seq<Event>, k: nat)
    requires IsRun(states, events) && Init(states[0]) && k < |states|
    ensures Balanced(states[k], states[0].bucket.tokens)
    decreases k
  {
    if k > 0 {
      hide Step, Enabled, Inv, Balanced, Init;
      RunBalance(states, events, k - 1);
      RunsKeepInv(states, events, k - 1);
      InvFacts(states[k - 1]);
      assert StepsTo(states[k - 1], events[k - 1], states[k]);
      BalancedStep(states[k - 1], events[k - 1], states[0].bucket.tokens);
    }
  }

  /** The segment sizes of the dispatches i, ..., j - 1. */
  function Sizes(log: seq<Dispatch>, i: nat, j: nat): nat
    requires i <= j <= |log|
  {
    if i == j then 0 else Sizes(log, i, j - 1) + log[j - 1].task.sizeBytes
  }

  /** How many of the dispatches i, ..., j - 1 are larger than 64 MiB. */
  function Large(log: seq<Dispatch>, i: nat, j: nat): nat
    requires i <= j <= |log|
  {
    if i == j then 0 else Large(log, i, j - 1) + if log[j - 1].task.sizeBytes > MAX_IO_BYTES then 1 else 0
  }

  /** What the bound counts: the sizes if none is above 64 MiB, and never less than 64 MiB for each one that is. */
  lemma {:induction false} SpentCountsSizes(log: seq<Dispatch>, i: nat, j: nat)
    requires i <= j <= |log|
    ensures 64 * 1048576 * Large(log, i, j) <= Spent(log, i, j) <= Min(Sizes(log, i, j), 64 * 1048576 * (j - i))
    ensures Large(log, i, j) == 0 <==> Spent(log, i, j) == Sizes(log, i, j)
    decreases j
  {
    if i < j { SpentCountsSizes(log, i, j - 1); }
  }

  // ------------------------------------------------------------------
  // Head-of-line blocking
  // ------------------------------------------------------------------

  /** Task `t` holds the worker: it waits in the retry queue or is about to ask for tokens again. */
  predicate Holding(s: State, t: Task) {
    (s.pc.Top? && s.retry == [t]) || (s.pc == Acquire(t) && s.retry == [])
  }

  ghost predicate Reach(s: State, r: State) {
    exists states, events :: IsRun(states, events) && states[0] == s && states[|events|] == r
  }

  lemma ReachSelf(s: State)
    ensures Reach(s, s)
  {
    assert IsRun([s], []);
  }

  lemma ReachStep(s: State, r: State, e: Event)
    requires Reach(s, r) && Enabled(r, e)
    ensures Reach(s, Step(r, e))
  {
    hide Enabled, Step;
    var states, events :| IsRun(states, events) && states[0] == s && states[|events|] == r;
    var states', events' := states + [Step(r, e)], events + [e];
    forall i, j | 0 <= i < |events'| && j == i + 1 ensures StepsTo(states'[i], events'[i], states'[j]) {
      if i < |events| { assert StepsTo(states[i], events[i], states[j]); }
    }
    assert IsRun(states', events');
  }

  /** `t` is among the dispatches between the two states. */
  predicate DispatchedBetween(s: State, r: State, t: Task) {
    exists i :: |s.log| <= i < |r.log| && r.log[i].task == t
  }

  /** Some continuation from `s` dispatches `t`. */
  ghost predicate CanDispatch(s: State, t: Task) {
    exists r :: Reach(s, r) && DispatchedBetween(s, r, t)
  }

  /** Any step keeps a request above the ceiling waiting, and the ceiling where it is. */
  lemma HoldingStep(s: State, e: Event, t: Task)
    requires Holding(s, t) && BucketOk(s.bucket) && Enabled(s, e) && IoBytes(t) > Ceiling(s.bucket)
    ensures Holding(Step(s, e), t) && Step(s, e).log == s.log
    ensures BucketOk(Step(s, e).bucket) && Ceiling(Step(s, e).bucket) == Ceiling(s.bucket)
  {
    hide Ceiling, IoBytes;
    match e
    case Enqueue(request) => EnqueueKeeps(s, request);
    case LookAtRetry =>
    case CheckEmpty(_) =>
    case PopHeap(_) =>
    case TryAcquire(now, later) => RefusedAboveCeiling(s, now, later);
  }

  lemma RefusedAboveCeiling(s: State, now: nat, later: nat)
    requires BucketOk(s.bucket) && Enabled(s, TryAcquire(now, later)) && IoBytes(s.pc.task) > Ceiling(s.bucket)
    ensures var r := StepAcquire(s, now, later);
            && r.pc == Top && r.log == s.log && r.retry == s.retry + [s.pc.task]
            && BucketOk(r.bucket) && Ceiling(r.bucket) == Ceiling(s.bucket)
  {
    hide Refilled, Ceiling, IoBytes;
    RefillIsIdeal(s.bucket, now, later);
    RefillWithinCeiling(s.bucket, now, later);
  }

  /** Above the ceiling nothing is dispatched ever after, neither `t` nor anything behind it. */
  lemma {:induction false} OversizedTaskBlocksForever(states: seq<State>, events: seq<Event>, k: nat, t: Task)
    requires IsRun(states, events) && k < |states|
    requires Holding(states[0], t) && BucketOk(states[0].bucket) && IoBytes(t) > Ceiling(states[0].bucket)
    ensures Holding(states[k], t) && states[k].log == states[0].log
    ensures BucketOk(states[k].bucket) && Ceiling(states[k].bucket) == Ceiling(states[0].bucket)
    decreases k
  {
    hide Holding, Ceiling, IoBytes;
    if k > 0 {
      OversizedTaskBlocksForever(states, events, k - 1, t);
      assert StepsTo(states[k - 1], events[k - 1], states[k]);
      HoldingStep(states[k - 1], events[k - 1], t);
    }
  }

  /** When the waiting request is within the ceiling, waiting long enough dispatches it. */
  lemma PatienceDispatches(s: State, t: Task)
    requires Holding(s, t) && BucketOk(s.bucket) && Timely(s) && IoBytes(t) <= Ceiling(s.bucket)
    ensures CanDispatch(s, t)
  {
    hide Reach, Ceiling, IoBytes;
    ReachSelf(s);
    var r := s;
    if s.pc.Top? {
      ReachStep(s, s, LookAtRetry);
      r := Step(s, LookAtRetry);
    }
    var now := Max(s.clock, s.bucket.last + s.bucket.capacity * MS);
    FullAfterLongWait(s.bucket, now);
    ReachStep(s, r, TryAcquire(now, now));
    var d := StepAcquire(r, now, now);
    assert d.log[|s.log|].task == t;
    assert DispatchedBetween(s, d, t);
  }

  /**
   A request that holds the worker is dispatched by some continuation exactly when it fits the bucket, or,
   with a zero refill rate, the tokens that are left.
   */
  lemma DispatchableIff(s: State, t: Task)
    requires Holding(s, t) && BucketOk(s.bucket) && Timely(s)
    ensures CanDispatch(s, t) <==> IoBytes(t) <= Ceiling(s.bucket)
  {
    hide Holding, Ceiling, IoBytes, Timely;
    if IoBytes(t) <= Ceiling(s.bucket) {
      PatienceDispatches(s, t);
    } else {
      forall r | Reach(s, r) ensures !DispatchedBetween(s, r, t) {
        var states, events :| IsRun(states, events) && states[0] == s && states[|events|] == r;
        OversizedTaskBlocksForever(states, events, |events|, t);
      }
    }
  }

  /** Some request holds the worker in `r` and no continuation dispatches it. */
  ghost predicate Stuck(r: State, t: Task) {
    Holding(r, t) && !CanDispatch(r, t)
  }

  /** A bucket of at least 64 MiB that refills: every state of every run can dispatch what holds the worker. */
  lemma NoRequestStuck(s: State, r: State, t: Task)
    requires Init(s) && Reach(s, r) && s.bucket.capacity >= MAX_IO_BYTES && s.bucket.rate > 0
    ensures !Stuck(r, t)
  {
    hide Inv, Timely, CanDispatch;
    if Holding(r, t) {
      var states, events :| IsRun(states, events) && states[0] == s && states[|events|] == r;
      RunsKeepInv(states, events, |events|);
      BucketNeverResized(states, events, |events|);
      InvFacts(r);
      DispatchableIff(r, t);
    }
  }

  lemma InvFacts(s: State)
    requires Inv(s)
    ensures BucketOk(s.bucket) && Timely(s)
  {
  }

  predicate Idle(s: State) {
    s.pc == Top && s.retry == [] && Queued(s) == {}
  }

  /** A flush request of 64 MiB as `enqueue` numbers it. */
  function BigRequest(arrival: nat): Task {
    Task(arrival, [], Flush, 0.0, MAX_IO_BYTES, PdtMerge)
  }

  /** From an idle state the worker picks up a big request. */
  lemma BigRequestArrives(s: State, r: State) returns (held: State)
    requires Reach(s, r) && Idle(r)
    ensures Reach(s, held) && held.pc == Acquire(BigRequest(r.next)) && held.retry == [] && Queued(held) == {}
    ensures held.bucket == r.bucket && held.clock == r.clock
  {
    hide Reach;
    var t := BigRequest(r.next);
    ReachStep(s, r, Enqueue(t));
    var a := Step(r, Enqueue(t));
    ReachStep(s, a, LookAtRetry);
    var b := Step(a, LookAtRetry);
    ReachStep(s, b, CheckEmpty(false));
    var c := Step(b, CheckEmpty(false));
    assert c.p0 == {t} && c.pc == PopFirst;
    ReachStep(s, c, PopHeap(t));
    held := Step(c, PopHeap(t));
  }

  /** Without a bucket of that kind big requests get stuck: at once, or after the tokens are used up. */
  lemma {:induction false} SomeRequestStuck(s: State, r: State)
    requires Reach(s, r) && Idle(r) && BucketOk(r.bucket) && Timely(r)
    requires r.bucket.capacity < MAX_IO_BYTES || r.bucket.rate == 0
    ensures exists x, t :: Reach(s, x) && Stuck(x, t)
    decreases r.bucket.tokens
  {
    hide Reach, CanDispatch;
    var held := BigRequestArrives(s, r);
    var t := held.pc.task;
    DispatchableIff(held, t);
    if MAX_IO_BYTES > Ceiling(r.bucket) {
      assert Stuck(held, t);
    } else {
      var next := StepAcquire(held, held.clock, held.clock);
      ReachStep(s, held, TryAcquire(held.clock, held.clock));
      SomeRequestStuck(s, next);
    }
  }

  /** Exactly which configurations can block the worker: those whose bucket holds less than 64 MiB or never refills. */
  lemma StuckIff(s: State)
    requires Init(s)
    ensures (exists r, t :: Reach(s, r) && Stuck(r, t)) <==> s.bucket.capacity < MAX_IO_BYTES || s.bucket.rate == 0
  {
    hide Reach, Stuck, Timely;
    if s.bucket.capacity < MAX_IO_BYTES || s.bucket.rate == 0 {
      ReachSelf(s);
      SomeRequestStuck(s, s);
    } else {
      forall r, t | Reach(s, r) ensures !Stuck(r, t) { NoRequestStuck(s, r, t); }
    }
  }
}
