/**
 The SILK I/O scheduler (src/compaction/io_scheduler.rs): token bucket, three
 priority heaps and the background worker with its retry queue.
 */
module IoScheduler {
  import opened Bytes
  import opened Common

  // ------------------------------------------------------------------
  // Tasks
  // ------------------------------------------------------------------

  datatype Priority = Flush | LowLevel | HighLevel

  datatype Action = PdtMerge | SmallFileMerge | QueryDriven | FlushL1ToL2 | CompactL2ToL3 | GuardMerge
                  | MetadataEvidenceRefresh | CheckpointPrivilege

  /** `arrival` numbers the admitted tasks, so that two equal requests stay two tasks. */
  datatype Task = Task(arrival: nat, seg: Bytes, priority: Priority, score: real, sizeBytes: nat, action: Action)

  predicate EvidenceDriven(a: Action) {
    a.QueryDriven? || a.MetadataEvidenceRefresh?
  }

  /** `enqueue` turns away stub-sized evidence-driven tasks. */
  predicate Admitted(t: Task) {
    !(EvidenceDriven(t.action) && t.sizeBytes == 0)
  }

  const MAX_IO_BYTES: nat := 64 * 1024 * 1024

  /** `estimated_io_bytes` (src/compaction/scheduler.rs:213). */
  function IoBytes(t: Task): nat {
    if t.sizeBytes < MAX_IO_BYTES then t.sizeBytes else MAX_IO_BYTES
  }

  function Rank(p: Priority): nat {
    match p case Flush => 0 case LowLevel => 1 case HighLevel => 2
  }

  /** `a <= b` under `SchedulableTask::cmp`: the smaller rank is the greater task, then the higher score. */
  predicate Leq(a: Task, b: Task) {
    Rank(a.priority) > Rank(b.priority) || (a.priority == b.priority && a.score <= b.score)
  }

  /** Place of a priority in the drain order; a read-optimised workload drains P2 before P1. */
  function Place(p: Priority, readOptimized: bool): nat {
    match p
    case Flush => 0
    case LowLevel => if readOptimized then 2 else 1
    case HighLevel => if readOptimized then 1 else 2
  }

  predicate Precedes(a: Task, b: Task, readOptimized: bool) {
    Place(a.priority, readOptimized) > Place(b.priority, readOptimized) || (a.priority == b.priority && a.score <= b.score)
  }

  /** `t` is a greatest task of `q` in the drain order. */
  ghost predicate Best(t: Task, q: set<Task>, readOptimized: bool) {
    forall u :: u in q ==> Precedes(u, t, readOptimized)
  }

  /**
   The drain order in full: nothing queued has the same priority and a higher score, and no priority that is
   drained earlier has anything queued, which is P0 before P1 before P2, or P0 before P2 before P1 when read-optimised.
   */
  lemma BestMeaning(t: Task, q: set<Task>, readOptimized: bool)
    ensures Best(t, q, readOptimized) <==>
            forall u :: u in q ==>
              && (u.priority == t.priority ==> u.score <= t.score)
              && (t.priority == LowLevel ==> u.priority != Flush && (readOptimized ==> u.priority != HighLevel))
              && (t.priority == HighLevel ==> u.priority != Flush && (!readOptimized ==> u.priority != LowLevel))
  {
    forall u | u in q
      ensures Precedes(u, t, readOptimized) <==>
              && (u.priority == t.priority ==> u.score <= t.score)
              && (t.priority == LowLevel ==> u.priority != Flush && (readOptimized ==> u.priority != HighLevel))
              && (t.priority == HighLevel ==> u.priority != Flush && (!readOptimized ==> u.priority != LowLevel))
    {
    }
    hide Precedes;
  }

  lemma PlainOrderIsCmp(a: Task, b: Task)
    ensures Precedes(a, b, false) <==> Leq(a, b)
  {
  }

  // ------------------------------------------------------------------
  // Token bucket
  // ------------------------------------------------------------------

  const MS: nat := 1_000_000     // clock ticks (nanoseconds) per millisecond

  datatype Bucket = Bucket(tokens: nat, capacity: nat, rate: nat, last: nat)

  predicate BucketOk(b: Bucket) {
    b.tokens <= b.capacity < U64 && b.rate < U64
  }

  function Cap(x: nat): nat {
    if x < U64 then x else U64 - 1
  }

  function ElapsedMs(b: Bucket, now: nat): nat
    requires b.last <= now
  {
    (now - b.last) / MS % U64
  }

  /** The refill of `try_acquire`: saturating arithmetic, and the clock is read a second time for `last_refill`. */
  function Refilled(b: Bucket, now: nat, later: nat): Bucket
    requires b.last <= now <= later
  {
    var e := ElapsedMs(b, now);
    if e == 0 then b
    else b.(tokens := Min(Cap(b.tokens + Cap(e * b.rate)), b.capacity), last := later)
  }

  function Acquired(b: Bucket, bytes: nat, now: nat, later: nat): (Bucket, bool)
    requires b.last <= now <= later
  {
    var r := Refilled(b, now, later);
    if r.tokens >= bytes then (r.(tokens := r.tokens - bytes), true) else (r, false)
  }

  /** Saturation never shows: the refill is the ideal one. */
  lemma RefillIsIdeal(b: Bucket, now: nat, later: nat)
    requires BucketOk(b) && b.last <= now <= later
    ensures Refilled(b, now, later).tokens == Min(b.capacity, b.tokens + ElapsedMs(b, now) * b.rate)
    ensures BucketOk(Refilled(b, now, later))
  {
  }

  class TokenBucket {
    var tokens: nat
    var last: nat
    const capacity: nat
    const rate: nat

    ghost predicate Valid()
      reads this
    {
      BucketOk(State())
    }

    ghost function State(): Bucket
      reads this
    {
      Bucket(tokens, capacity, rate, last)
    }

    constructor (capacityMb: nat, rateMbPerMs: nat, now: nat)
      requires capacityMb * 1048576 < U64 && rateMbPerMs * 1048576 < U64
      ensures Valid() && State() == Bucket(capacityMb * 1048576, capacityMb * 1048576, rateMbPerMs * 1048576, now)
    {
      capacity, rate := capacityMb * 1048576, rateMbPerMs * 1048576;
      tokens, last := capacityMb * 1048576, now;
    }

    /** `try_acquire` (src/compaction/io_scheduler.rs:293). */
    method TryAcquire(bytes: nat, now: nat, later: nat) returns (ok: bool)
      requires Valid() && last <= now <= later
      modifies this
      ensures Valid() && (State(), ok) == Acquired(old(State()), bytes, now, later)
      ensures var elapsed := (now - old(last)) / MS % U64;
              var ideal := Min(capacity, old(tokens) + elapsed * rate);
              && (ok <==> bytes <= ideal)
              && tokens == (if ok then ideal - bytes else ideal)
              && last == (if elapsed == 0 then old(last) else later)
    {
      RefillIsIdeal(State(), now, later);
      var elapsed := (now - last) / MS % U64;
      if elapsed > 0 {
        var refill := Cap(elapsed * rate);
        tokens := Min(Cap(tokens + refill), capacity);
        last := later;
      }
      if tokens >= bytes {
        tokens := tokens - bytes;
        ok := true;
      } else {
        ok := false;
      }
    }
  }

  /** The most the bucket can ever hold from here on without a grant: a zero rate never refills. */
  function Ceiling(b: Bucket): nat {
    if b.rate > 0 then b.capacity else b.tokens
  }

  /** A request can be served at some time exactly when it is within the ceiling. */
  lemma AcquirableIff(b: Bucket, bytes: nat)
    requires BucketOk(b)
    ensures (exists now, later :: b.last <= now <= later && Acquired(b, bytes, now, later).1) <==> bytes <= Ceiling(b)
  {
    hide Refilled;
    forall now: nat, later: nat | b.last <= now <= later && Acquired(b, bytes, now, later).1 ensures bytes <= Ceiling(b) {
      RefillWithinCeiling(b, now, later);
    }
    if bytes <= Ceiling(b) {
      var now := b.last + b.capacity * MS;
      ElapsedIs(b, now, b.capacity);
      FullAfterLongWait(b, now);
      assert Acquired(b, bytes, now, now).1;
    }
  }

  lemma RefillWithinCeiling(b: Bucket, now: nat, later: nat)
    requires BucketOk(b) && b.last <= now <= later
    ensures b.tokens <= Refilled(b, now, later).tokens <= Ceiling(b) && Ceiling(Refilled(b, now, later)) == Ceiling(b)
  {
    RefillIsIdeal(b, now, later);
  }

  /** After as many milliseconds as the capacity has bytes the bucket is at its ceiling. */
  lemma FullAfterLongWait(b: Bucket, now: nat)
    requires BucketOk(b) && b.last <= now && ElapsedMs(b, now) >= b.capacity
    ensures Refilled(b, now, now).tokens == Ceiling(b)
  {
    hide ElapsedMs;
    RefillIsIdeal(b, now, now);
    RefillWithinCeiling(b, now, now);
    if b.rate > 0 { AtLeastFactor(ElapsedMs(b, now), b.rate); }
  }

  lemma ElapsedIs(b: Bucket, now: nat, e: nat)
    requires now == b.last + e * MS && e < U64
    ensures ElapsedMs(b, now) == e
  {
  }

  lemma {:induction false} AtLeastFactor(e: nat, r: nat)
    requires r > 0
    ensures e * r >= e
  {
    if e > 0 {
      AtLeastFactor(e - 1, r);
      assert e * r == (e - 1) * r + r;
    }
  }

  // ------------------------------------------------------------------
  // The three heaps, called one at a time
  // ------------------------------------------------------------------

  predicate AllOf(q: set<Task>, p: Priority) {
    forall u :: u in q ==> u.priority == p
  }

  predicate IsMax(t: Task, q: set<Task>) {
    t in q && forall u :: u in q ==> Leq(u, t)
  }

  lemma MaxExists(q: set<Task>, p: Priority)
    requires q != {} && AllOf(q, p)
    ensures exists t :: t in q && IsMax(t, q)
  {
    var geq := (a: Task, b: Task) => Leq(b, a);
    LeastExists(geq, q);
    var t :| t in q && forall x :: x in q ==> geq(t, x);
    assert forall x :: x in q ==> geq(t, x) && Leq(x, t);
    assert IsMax(t, q);
  }

  /** `BinaryHeap::pop` on a heap of one priority. */
  method PopMax(q: set<Task>, ghost p: Priority) returns (t: Task, rest: set<Task>)
    requires q != {} && AllOf(q, p)
    ensures IsMax(t, q) && rest == q - {t}
  {
    MaxExists(q, p);
    t :| t in q && IsMax(t, q);
    rest := q - {t};
  }

  class CompactionIOScheduler {
    var p0: set<Task>
    var p1: set<Task>
    var p2: set<Task>
    var tasksEnqueued: nat

    ghost predicate Valid()
      reads this
    {
      && AllOf(p0, Flush) && AllOf(p1, LowLevel) && AllOf(p2, HighLevel)
      && forall u :: u in p0 + p1 + p2 ==> u.arrival < tasksEnqueued
    }

    ghost function Queued(): set<Task>
      reads this
    {
      p0 + p1 + p2
    }

    constructor ()
      ensures Valid() && Queued() == {} && tasksEnqueued == 0
    {
      p0, p1, p2, tasksEnqueued := {}, {}, {}, 0;
    }

    /** `enqueue` (src/compaction/io_scheduler.rs:524). */
    method Enqueue(request: Task)
      requires Valid()
      modifies this
      ensures Valid()
      ensures Admitted(request) <==> request.sizeBytes > 0 || !(request.action.QueryDriven? || request.action.MetadataEvidenceRefresh?)
      ensures !Admitted(request) ==> Queued() == old(Queued()) && tasksEnqueued == old(tasksEnqueued)
      ensures Admitted(request) ==> tasksEnqueued == old(tasksEnqueued) + 1
      ensures Admitted(request) ==> var t := request.(arrival := old(tasksEnqueued)); t !in old(Queued()) && Queued() == old(Queued()) + {t}
    {
      if EvidenceDriven(request.action) && request.sizeBytes == 0 { return; }
      var t := request.(arrival := tasksEnqueued);
      tasksEnqueued := tasksEnqueued + 1;
      match t.priority
      case Flush => p0 := p0 + {t};
      case LowLevel => p1 := p1 + {t};
      case HighLevel => p2 := p2 + {t};
    }

    /** `select_next` (src/compaction/io_scheduler.rs:677) with no enqueue in between. */
    method SelectNext(readOptimized: bool) returns (r: Option<Task>)
      requires Valid()
      modifies this`p0, this`p1, this`p2
      ensures Valid()
      ensures r.None? <==> old(Queued()) == {}
      ensures r.None? ==> Queued() == old(Queued())
      ensures r.Some? ==> r.value in old(Queued()) && Queued() == old(Queued()) - {r.value}
      ensures r.Some? ==> Best(r.value, old(Queued()), readOptimized)
    {
      if p0 == {} && p1 == {} && p2 == {} { return None; }
      var t: Task;
      if p0 != {} {
        t, p0 := PopMax(p0, Flush);
        return Some(t);
      }
      if readOptimized {
        if p2 != {} {
          t, p2 := PopMax(p2, HighLevel);
        } else {
          t, p1 := PopMax(p1, LowLevel);
        }
        return Some(t);
      }
      if p1 != {} {
        t, p1 := PopMax(p1, LowLevel);
      } else {
        t, p2 := PopMax(p2, HighLevel);
      }
      return Some(t);
    }
  }
}
