/**
 The LRU side of the access tracker (src/compaction/access_tracker.rs): a table of
 tracked segments and an ordered index on (last update, id) that eviction pops from.
 */
module AccessTracker {
  import opened Bytes
  import opened Common

  datatype LruKey = LruKey(time: nat, id: Bytes)

  /** Order of the BTreeMap keys. */
  predicate KeyLt(a: LruKey, b: LruKey) {
    a.time < b.time || (a.time == b.time && Lt(a.id, b.id))
  }

  predicate IsFirst(k: LruKey, index: set<LruKey>) {
    k in index && forall x :: x in index ==> !KeyLt(x, k)
  }

  lemma FirstExists(index: set<LruKey>)
    requires index != {}
    ensures exists k :: k in index && IsFirst(k, index)
  {
    var leq := (a: LruKey, b: LruKey) => !KeyLt(b, a);
    forall a: LruKey, b: LruKey ensures leq(a, b) || leq(b, a) { if Lt(a.id, b.id) { LtAsymmetric(a.id, b.id); } }
    forall a: LruKey, b: LruKey, c: LruKey | leq(a, b) && leq(b, c) ensures leq(a, c) {
      if a.time == b.time == c.time { LeTransitive(a.id, b.id, c.id); }
    }
    LeastExists(leq, index);
    var k :| k in index && forall x :: x in index ==> leq(k, x);
    assert forall x :: x in index ==> leq(k, x) && !KeyLt(x, k);
    assert IsFirst(k, index);
  }

  // ------------------------------------------------------------------
  // The two structures as values
  // ------------------------------------------------------------------

  /** Last update of every tracked segment, and the index. */
  datatype Tracked = Tracked(segments: map<Bytes, nat>, index: set<LruKey>)

  /** The index is exactly the pairs (last update, id) of the tracked segments. */
  ghost predicate Exact(t: Tracked) {
    forall k :: k in t.index <==> k.id in t.segments && t.segments[k.id] == k.time
  }

  /** A timestamp of zero is taken for "never updated". */
  predicate Positive(t: Tracked) {
    forall id :: id in t.segments ==> t.segments[id] > 0
  }

  /** Lines 227-235, shared by `mark_access` and `record_scan_range`. */
  function Touch(t: Tracked, id: Bytes, now: nat): Tracked {
    var index := if id in t.segments && t.segments[id] > 0 then t.index - {LruKey(t.segments[id], id)} else t.index;
    Tracked(t.segments[id := now], index + {LruKey(now, id)})
  }

  /** Popping the entry `k` of the index and dropping its segment. */
  function Evict(t: Tracked, k: LruKey): Tracked {
    Tracked(t.segments - {k.id}, t.index - {k})
  }

  function Forget(t: Tracked, id: Bytes): Tracked {
    Tracked(t.segments - {id}, if id in t.segments then t.index - {LruKey(t.segments[id], id)} else t.index)
  }

  /** The segment is tracked with a zero timestamp, which its next update takes for none. */
  predicate ZeroStamped(t: Tracked, id: Bytes, now: nat) {
    id in t.segments && t.segments[id] == 0 && now != 0
  }

  /** Touching keeps the index exact unless the segment is tracked with a zero timestamp, which leaves a stale entry behind. */
  lemma TouchKeepsExactIff(t: Tracked, id: Bytes, now: nat)
    requires Exact(t)
    ensures Exact(Touch(t, id, now)) <==> !ZeroStamped(t, id, now)
  {
    var r := Touch(t, id, now);
    if ZeroStamped(t, id, now) {
      assert LruKey(0, id) in t.index;
      assert LruKey(0, id) in r.index;
    }
  }

  lemma EvictKeepsExact(t: Tracked, k: LruKey)
    requires Exact(t) && k in t.index
    ensures Exact(Evict(t, k)) && k.id in t.segments && t.segments[k.id] == k.time
  {
  }

  lemma ForgetKeepsExact(t: Tracked, id: Bytes)
    requires Exact(t)
    ensures Exact(Forget(t, id))
  {
  }

  /** No tracked segment was updated earlier than `v`. */
  predicate LeastRecent(segments: map<Bytes, nat>, v: Bytes) {
    v in segments && forall id :: id in segments ==> segments[v] <= segments[id]
  }

  lemma FirstIsLeastRecent(t: Tracked, k: LruKey)
    requires Exact(t) && IsFirst(k, t.index)
    ensures LeastRecent(t.segments, k.id)
  {
    EvictKeepsExact(t, k);
    forall id | id in t.segments ensures t.segments[k.id] <= t.segments[id] {
      assert LruKey(t.segments[id], id) in t.index;
    }
  }

  /** Number of tracked segments after evicting `v` and touching `id`: a hit at capacity can shrink the table. */
  lemma CountAfterMark(segments: map<Bytes, nat>, v: Bytes, id: Bytes, now: nat)
    requires v in segments
    ensures |(segments - {v})[id := now]| == if id in segments && id != v then |segments| - 1 else |segments|
  {
  }

  /** What `mark_access` does: at capacity it pops the first entry of the index, and then it touches the segment. */
  ghost predicate Marked(s: Tracked, id: Bytes, rowCount: nat, now: nat, limit: nat, r: Tracked) {
    if rowCount == 0 || id == [] then r == s
    else if |s.segments| >= limit && s.index != {} then exists k :: IsFirst(k, s.index) && r == Touch(Evict(s, k), id, now)
    else r == Touch(s, id, now)
  }

  /**
   From an exact index, for any timestamp: at capacity exactly one least recently updated segment goes, the
   table stays within its bound, and the index stays exact unless a surviving zero timestamp is overwritten.
   */
  lemma MarkedMeaning(s: Tracked, id: Bytes, rowCount: nat, now: nat, limit: nat, r: Tracked)
    requires Marked(s, id, rowCount, now, limit, r) && Exact(s) && rowCount > 0 && id != []
    ensures |s.segments| < limit || s.segments == map[] ==>
              r.segments == s.segments[id := now] && (Exact(r) <==> !ZeroStamped(s, id, now))
    ensures |s.segments| >= limit && s.segments != map[] ==>
              exists v :: LeastRecent(s.segments, v) && r.segments == (s.segments - {v})[id := now]
                          && (Exact(r) <==> v == id || !ZeroStamped(s, id, now))
    ensures |r.segments| <= Max(Max(limit, 1), |s.segments|)
  {
    hide Exact;
    IndexEmptyIff(s);
    if |s.segments| >= limit && s.index != {} {
      var k :| IsFirst(k, s.index) && r == Touch(Evict(s, k), id, now);
      FirstIsLeastRecent(s, k);
      EvictKeepsExact(s, k);
      TouchKeepsExactIff(Evict(s, k), id, now);
      CountAfterMark(s.segments, k.id, id, now);
      assert LeastRecent(s.segments, k.id) && r.segments == (s.segments - {k.id})[id := now];
    } else {
      TouchKeepsExactIff(s, id, now);
    }
  }

  /** A mark with a positive timestamp keeps an exact index of positive timestamps. */
  lemma MarkedKeepsExact(s: Tracked, id: Bytes, rowCount: nat, now: nat, limit: nat, r: Tracked)
    requires Marked(s, id, rowCount, now, limit, r) && Exact(s) && Positive(s) && now > 0
    ensures Exact(r) && Positive(r) && |r.segments| <= Max(Max(limit, 1), |s.segments|)
  {
    hide Exact;
    if rowCount > 0 && id != [] {
      MarkedMeaning(s, id, rowCount, now, limit, r);
      IndexEmptyIff(s);
    }
  }

  // ------------------------------------------------------------------
  // The tracker
  // ------------------------------------------------------------------

  class AccessTracker {
    const maxTracked: nat
    var segments: map<Bytes, nat>
    var lruIndex: set<LruKey>

    ghost function State(): Tracked
      reads this
    {
      Tracked(segments, lruIndex)
    }

    ghost predicate Valid()
      reads this
    {
      Exact(State()) && Positive(State())
    }

    constructor (maxTracked: nat)
      ensures Valid() && segments == map[] && this.maxTracked == maxTracked
    {
      this.maxTracked := maxTracked;
      segments, lruIndex := map[], {};
    }

    /** `mark_access` (src/compaction/access_tracker.rs:207), at any time and in any state. */
    method MarkAccess(id: Bytes, rowCount: nat, now: nat)
      modifies this
      ensures Marked(old(State()), id, rowCount, now, maxTracked, State())
      ensures rowCount == 0 || id == [] ==> State() == old(State())
    {
      if rowCount == 0 || id == [] { return; }
      if |segments| >= maxTracked && lruIndex != {} {
        FirstExists(lruIndex);
        var k :| k in lruIndex && IsFirst(k, lruIndex);
        lruIndex := lruIndex - {k};
        segments := segments - {k.id};
      }
      TouchSegment(id, now);
    }

    method TouchSegment(id: Bytes, now: nat)
      modifies this
      ensures State() == Touch(old(State()), id, now)
    {
      if id in segments && segments[id] > 0 { lruIndex := lruIndex - {LruKey(segments[id], id)}; }
      segments := segments[id := now];
      lruIndex := lruIndex + {LruKey(now, id)};
    }

    /** `record_scan_range` (src/compaction/access_tracker.rs:268) tracks the segment without ever evicting one. */
    method RecordScanRange(id: Bytes, now: nat)
      modifies this
      ensures State() == Touch(old(State()), id, now) && segments == old(segments)[id := now]
      ensures old(Exact(State())) ==> (Exact(State()) <==> !ZeroStamped(old(State()), id, now))
    {
      if Exact(State()) { TouchKeepsExactIff(State(), id, now); }
      TouchSegment(id, now);
    }

    /** `forget_segment` (src/compaction/access_tracker.rs:399). */
    method ForgetSegment(id: Bytes)
      modifies this
      ensures State() == Forget(old(State()), id) && segments == old(segments) - {id}
      ensures old(Exact(State())) ==> Exact(State())
    {
      if Exact(State()) { ForgetKeepsExact(State(), id); }
      if id in segments { lruIndex := lruIndex - {LruKey(segments[id], id)}; }
      segments := segments - {id};
    }

    /** `clear` (src/compaction/access_tracker.rs:411). */
    method Clear()
      modifies this
      ensures Valid() && segments == map[]
    {
      segments, lruIndex := map[], {};
    }
  }

  lemma IndexEmptyIff(t: Tracked)
    requires Exact(t)
    ensures t.index == {} <==> t.segments == map[]
  {
    if id :| id in t.segments { assert LruKey(t.segments[id], id) in t.index; }
  }

  // ------------------------------------------------------------------
  // Whole runs
  // ------------------------------------------------------------------

  datatype Call = Mark(id: Bytes, rowCount: nat, now: nat) | Scan(id: Bytes, now: nat) | ForgetOne(id: Bytes) | ForgetAll

  predicate PositiveTime(c: Call) {
    (c.Mark? || c.Scan?) ==> c.now > 0
  }

  function Scans(calls: seq<Call>): nat {
    if calls == [] then 0 else Scans(calls[..|calls| - 1]) + if calls[|calls| - 1].Scan? then 1 else 0
  }

  /** After any run with positive timestamps the index is exact, and only scan ranges can push the table over its limit. */
  method RunTracker(calls: seq<Call>, limit: nat) returns (t: Tracked)
    requires forall i :: 0 <= i < |calls| ==> PositiveTime(calls[i])
    ensures Exact(t) && Positive(t)
    ensures |t.segments| <= Max(limit, 1) + Scans(calls)
  {
    hide Exact;
    var tracker := new AccessTracker(limit);
    for i := 0 to |calls|
      invariant fresh(tracker) && tracker.Valid() && tracker.maxTracked == limit
      invariant |tracker.segments| <= Max(limit, 1) + Scans(calls[..i])
    {
      assert calls[..i + 1][..i] == calls[..i];
      assert PositiveTime(calls[i]);
      match calls[i]
      case Mark(id, rowCount, now) =>
        ghost var before := tracker.State();
        tracker.MarkAccess(id, rowCount, now);
        MarkedKeepsExact(before, id, rowCount, now, limit, tracker.State());
      case Scan(id, now) =>
        tracker.RecordScanRange(id, now);
      case ForgetOne(id) =>
        assert (tracker.segments - {id}).Keys <= tracker.segments.Keys;
        SubsetSize((tracker.segments - {id}).Keys, tracker.segments.Keys);
        tracker.ForgetSegment(id);
      case ForgetAll => tracker.Clear();
    }
    assert calls[..|calls|] == calls;
    t := Tracked(tracker.segments, tracker.lruIndex);
  }

  lemma SubsetSize(a: set<Bytes>, b: set<Bytes>)
    requires a <= b
    ensures |a| <= |b|
  {
    assert b == a + (b - a);
    assert |b| == |a| + |b - a|;
  }
}
