/**
 MVCC shadow columns (src/mvcc/shadow_columns.rs): appending, stamping and
 filtering by the two hidden Int64 columns at the end of a batch.
 */
module Visibility {
  import opened Bytes
  import opened Common
  import opened Masks

  const NOT_DELETED: nat := U64 - 1

  // ------------------------------------------------------------------
  // Casts
  // ------------------------------------------------------------------

  predicate IsI64(i: int) {
    0 <= 2 * i + U64 < 2 * U64
  }

  /** `as i64` and `as u64` reinterpret the bits. */
  function AsI64(u: nat): int {
    if 2 * u >= U64 then u - U64 else u
  }

  function AsU64(i: int): nat
    requires IsI64(i)
  {
    if i < 0 then i + U64 else i
  }

  lemma CastRoundTrip(u: nat)
    requires u < U64
    ensures IsI64(AsI64(u)) && AsU64(AsI64(u)) == u
  {
  }

  // ------------------------------------------------------------------
  // Snapshots
  // ------------------------------------------------------------------

  datatype Snapshot = Snapshot(id: nat, active: set<nat>, commitTs: map<nat, nat>)

  /** The creating transaction is finished, committed and not in the future. */
  predicate CreatedBefore(s: Snapshot, c: nat) {
    c <= s.id && c !in s.active && c in s.commitTs && s.commitTs[c] <= s.id
  }

  /** The inlined test of `filter_by_visibility` (lines 184-198): an active deleter hides the row. */
  predicate Hides(s: Snapshot, d: nat) {
    d in s.active || (d in s.commitTs && s.commitTs[d] <= s.id)
  }

  predicate VisibleInline(s: Snapshot, c: nat, d: Option<nat>) {
    CreatedBefore(s, c) && (d.Some? ==> !Hides(s, d.value))
  }

  /** `TxnSnapshot::is_row_visible` (src/mvcc/visibility.rs:853), which the inlined test says it copies. */
  predicate VisibleReference(s: Snapshot, c: nat, d: Option<nat>) {
    if c > s.id then false
    else if c in s.active then false
    else if c !in s.commitTs then false
    else if s.commitTs[c] > s.id then false
    else if d.Some? && d.value !in s.active && d.value in s.commitTs && s.commitTs[d.value] <= s.id then false
    else true
  }

  /** The copy is exact except for rows whose deleter is still active, which only the copy hides. */
  lemma InlineAgreesIff(s: Snapshot, c: nat, d: Option<nat>)
    ensures VisibleInline(s, c, d) ==> VisibleReference(s, c, d)
    ensures (VisibleInline(s, c, d) <==> VisibleReference(s, c, d)) <==> !(CreatedBefore(s, c) && d.Some? && d.value in s.active)
  {
  }

  // ------------------------------------------------------------------
  // Batches
  // ------------------------------------------------------------------

  datatype Batch = Batch(rows: nat, cols: seq<seq<int>>)

  predicate BatchOk(b: Batch) {
    forall i :: 0 <= i < |b.cols| ==> |b.cols[i]| == b.rows
  }

  predicate AllI64(col: seq<int>) {
    forall i :: 0 <= i < |col| ==> IsI64(col[i])
  }

  /** The last two columns are Int64 columns. */
  predicate HasVisibility(b: Batch) {
    BatchOk(b) && |b.cols| >= 2 && AllI64(b.cols[|b.cols| - 2]) && AllI64(b.cols[|b.cols| - 1])
  }

  function CreatedAt(b: Batch, i: nat): nat
    requires HasVisibility(b) && i < b.rows
  {
    AsU64(b.cols[|b.cols| - 2][i])
  }

  function DeletedAt(b: Batch, i: nat): Option<nat>
    requires HasVisibility(b) && i < b.rows
  {
    var d := AsU64(b.cols[|b.cols| - 1][i]);
    if d == NOT_DELETED then None else Some(d)
  }

  predicate RowVisible(b: Batch, s: Snapshot, i: nat)
    requires HasVisibility(b) && i < b.rows
  {
    VisibleInline(s, CreatedAt(b, i), DeletedAt(b, i))
  }

  function MaskOf(b: Batch, s: Snapshot): seq<bool>
    requires HasVisibility(b)
  {
    seq(b.rows, i requires 0 <= i < b.rows => RowVisible(b, s, i))
  }

  /** The user columns of the visible rows. */
  function Filtered(b: Batch, s: Snapshot): Batch
    requires HasVisibility(b)
  {
    var mask := MaskOf(b, s);
    Batch(|Positions(mask)|, seq(|b.cols| - 2, c requires 0 <= c < |b.cols| - 2 => Keep(b.cols[c], mask)))
  }

  /** What a snapshot shows, read from the raw columns: the reference test, and no active deleter. */
  predicate SeenRow(b: Batch, s: Snapshot, i: nat)
    requires HasVisibility(b) && i < b.rows
  {
    var c, d := b.cols[|b.cols| - 2][i], b.cols[|b.cols| - 1][i];
    var deleter := if d == -1 then None else Some(AsU64(d));
    VisibleReference(s, AsU64(c), deleter) && !(deleter.Some? && deleter.value in s.active)
  }

  /** `r` holds the user columns of `b` at the ascending positions `p`, which are exactly those of the seen rows. */
  ghost predicate RowsAt(b: Batch, s: Snapshot, p: seq<nat>, r: Batch)
    requires HasVisibility(b)
  {
    && Ascending(p) && (forall i: nat :: i in p <==> i < b.rows && SeenRow(b, s, i))
    && r.rows == |p| && |r.cols| == |b.cols| - 2
    && forall c :: 0 <= c < |r.cols| ==> |r.cols[c]| == |p| && forall k :: 0 <= k < |p| ==> p[k] < b.rows && r.cols[c][k] == b.cols[c][p[k]]
  }

  lemma SeenIsVisible(b: Batch, s: Snapshot, i: nat)
    requires HasVisibility(b) && i < b.rows
    ensures RowVisible(b, s, i) <==> SeenRow(b, s, i)
  {
  }

  lemma FilteredRows(b: Batch, s: Snapshot)
    requires HasVisibility(b)
    ensures exists p :: RowsAt(b, s, p, Filtered(b, s))
  {
    hide Keep, Positions, SeenRow, RowVisible;
    var mask, r := MaskOf(b, s), Filtered(b, s);
    var p := Positions(mask);
    PositionsMeaning(mask);
    forall i: nat ensures i in p <==> i < b.rows && SeenRow(b, s, i) {
      if i < b.rows { SeenIsVisible(b, s, i); }
    }
    forall c | 0 <= c < |r.cols|
      ensures |r.cols[c]| == |p| && forall k :: 0 <= k < |p| ==> p[k] < b.rows && r.cols[c][k] == b.cols[c][p[k]]
    {
      KeepAt(b.cols[c], mask);
    }
    hide MaskOf, Filtered;
    assert RowsAt(b, s, p, r);
  }

  // ------------------------------------------------------------------
  // Operations
  // ------------------------------------------------------------------

  method AppendVisibilityColumns(b: Batch, created: nat, deleted: nat) returns (r: Batch)
    requires BatchOk(b) && created < U64 && deleted < U64
    ensures HasVisibility(r) && r.rows == b.rows && |r.cols| == |b.cols| + 2 && r.cols[..|b.cols|] == b.cols
    ensures forall i :: 0 <= i < r.rows ==> r.cols[|b.cols|][i] == AsI64(created) && r.cols[|b.cols| + 1][i] == AsI64(deleted)
    ensures forall i :: 0 <= i < r.rows ==> CreatedAt(r, i) == created
    ensures forall i :: 0 <= i < r.rows ==> DeletedAt(r, i) == if deleted == NOT_DELETED then None else Some(deleted)
  {
    CastRoundTrip(created);
    CastRoundTrip(deleted);
    var createdCol := seq(b.rows, _ => AsI64(created));
    var deletedCol := seq(b.rows, _ => AsI64(deleted));
    r := Batch(b.rows, b.cols + [createdCol, deletedCol]);
  }

  /** What `mark_rows_deleted` returns: only the last column changes, and only where the bitmap says so. */
  function Marked(b: Batch, stamp: seq<bool>, txn: nat): Batch
    requires HasVisibility(b) && |stamp| == b.rows
  {
    var last := |b.cols| - 1;
    b.(cols := b.cols[last := Stamped(b.cols[last], stamp, txn)])
  }

  function Stamped(col: seq<int>, stamp: seq<bool>, txn: nat): seq<int>
    requires |col| == |stamp|
  {
    seq(|col|, i requires 0 <= i < |col| => if stamp[i] then AsI64(txn) else col[i])
  }

  method MarkRowsDeleted(b: Batch, stamp: seq<bool>, txn: nat) returns (r: Batch)
    requires HasVisibility(b) && |stamp| == b.rows
    ensures r == Marked(b, stamp, txn)
    ensures var last := |b.cols| - 1;
            && |r.cols| == |b.cols| && |r.cols[last]| == b.rows
            && (forall c :: 0 <= c < last ==> r.cols[c] == b.cols[c])
            && (forall i :: 0 <= i < b.rows ==> r.cols[last][i] == if stamp[i] then AsI64(txn) else b.cols[last][i])
  {
    var last := |b.cols| - 1;
    var newDeleted := [];
    for i := 0 to b.rows
      invariant newDeleted == Stamped(b.cols[last], stamp, txn)[..i]
    {
      newDeleted := newDeleted + [if stamp[i] then AsI64(txn) else b.cols[last][i]];
    }
    assert newDeleted == Stamped(b.cols[last], stamp, txn);
    r := b.(cols := b.cols[last := newDeleted]);
  }

  /** The mask loop (lines 159-200); the hash set only speeds up the membership test. */
  method VisibilityMask(b: Batch, s: Snapshot) returns (mask: seq<bool>)
    requires HasVisibility(b)
    ensures mask == MaskOf(b, s) && |mask| == b.rows
  {
    var hashed: set<nat> := if |s.active| >= 5 then s.active else {};
    mask := [];
    for i := 0 to b.rows
      invariant mask == MaskOf(b, s)[..i]
    {
      var c := AsU64(b.cols[|b.cols| - 2][i]);
      var raw := AsU64(b.cols[|b.cols| - 1][i]);
      var visible;
      if c > s.id || c in s.active || c in hashed || c !in s.commitTs || s.commitTs[c] > s.id {
        visible := false;
      } else if raw != NOT_DELETED {
        visible := !(raw in s.active || raw in hashed || (raw in s.commitTs && s.commitTs[raw] <= s.id));
      } else {
        visible := true;
      }
      assert visible == RowVisible(b, s, i) == MaskOf(b, s)[i];
      mask := mask + [visible];
    }
  }

  /** `filter_by_visibility` (src/mvcc/shadow_columns.rs:140): a record batch needs a column, so two hidden ones alone are an error. */
  method FilterByVisibility(b: Batch, s: Snapshot) returns (r: Result<Batch>)
    requires |b.cols| >= 2 ==> HasVisibility(b)
    ensures |b.cols| < 2 ==> r == Ok(b)
    ensures |b.cols| == 2 ==> r == Err
    ensures |b.cols| > 2 ==> r == Ok(Filtered(b, s))
    ensures |b.cols| > 2 ==> r.Ok? && exists p :: RowsAt(b, s, p, r.value)
  {
    hide MaskOf, RowsAt;
    if |b.cols| < 2 { return Ok(b); }
    FilteredRows(b, s);
    var mask := VisibilityMask(b, s);
    var cols: seq<seq<int>> := [];
    for c := 0 to |b.cols| - 2
      invariant cols == Filtered(b, s).cols[..c]
    {
      cols := cols + [Keep(b.cols[c], mask)];
    }
    if cols == [] { return Err; }
    assert cols == Filtered(b, s).cols;
    r := Ok(Batch(|Positions(mask)|, cols));
  }

  // ------------------------------------------------------------------
  // Properties
  // ------------------------------------------------------------------

  predicate StampsLiveRows(b: Batch, stamp: seq<bool>)
    requires HasVisibility(b) && |stamp| == b.rows
  {
    forall i :: 0 <= i < b.rows && stamp[i] ==> DeletedAt(b, i).None?
  }

  /** Stamping with transaction `d` removes exactly the stamped rows, and only from snapshots in which `d` hides rows. */
  lemma StampedMask(b: Batch, stamp: seq<bool>, d: nat, s: Snapshot, i: nat)
    requires HasVisibility(b) && |stamp| == b.rows && d < U64 && StampsLiveRows(b, stamp) && i < b.rows
    ensures HasVisibility(Marked(b, stamp, d)) && Marked(b, stamp, d).rows == b.rows
    ensures RowVisible(Marked(b, stamp, d), s, i) <==> RowVisible(b, s, i) && !(stamp[i] && d != NOT_DELETED && Hides(s, d))
  {
  }

  /**
   A late delete does not disturb a snapshot exactly when its transaction does not hide rows there, or
   no stamped row was visible anyway.
   */
  lemma LateDeleteUnseenIff(b: Batch, stamp: seq<bool>, d: nat, s: Snapshot)
    requires HasVisibility(b) && |stamp| == b.rows && d < U64 && StampsLiveRows(b, stamp)
    ensures HasVisibility(Marked(b, stamp, d))
    ensures Filtered(Marked(b, stamp, d), s) == Filtered(b, s) <==>
            (d == NOT_DELETED || !Hides(s, d) || forall i :: 0 <= i < b.rows && stamp[i] ==> !RowVisible(b, s, i))
  {
    var m := Marked(b, stamp, d);
    forall i | 0 <= i < b.rows ensures RowVisible(m, s, i) <==> RowVisible(b, s, i) && !(stamp[i] && d != NOT_DELETED && Hides(s, d)) {
      StampedMask(b, stamp, d, s, i);
    }
    FewerKept(MaskOf(m, s), MaskOf(b, s));
    if d == NOT_DELETED || !Hides(s, d) || forall i :: 0 <= i < b.rows && stamp[i] ==> !RowVisible(b, s, i) {
      assert MaskOf(m, s) == MaskOf(b, s);
    } else {
      var i :| 0 <= i < b.rows && stamp[i] && RowVisible(b, s, i);
      assert MaskOf(b, s)[i] && !MaskOf(m, s)[i];
    }
  }

  /** Freshly appended rows come back unchanged in a snapshot that sees their creator, and not at all in any other. */
  lemma AppendThenFilter(b: Batch, r: Batch, created: nat, s: Snapshot)
    requires BatchOk(b) && HasVisibility(r) && r.rows == b.rows && |r.cols| == |b.cols| + 2 && r.cols[..|b.cols|] == b.cols
    requires forall i :: 0 <= i < r.rows ==> CreatedAt(r, i) == created && DeletedAt(r, i) == None
    ensures CreatedBefore(s, created) ==> Filtered(r, s) == b
    ensures !CreatedBefore(s, created) ==> Filtered(r, s).rows == 0
  {
    var mask := MaskOf(r, s);
    KeepUniform(seq(r.rows, i => i), mask, CreatedBefore(s, created));
    KeepAt(seq(r.rows, i => i), mask);
    forall c | 0 <= c < |b.cols| ensures CreatedBefore(s, created) ==> Keep(r.cols[c], mask) == b.cols[c] {
      assert r.cols[c] == r.cols[..|b.cols|][c];
      KeepUniform(r.cols[c], mask, CreatedBefore(s, created));
    }
  }
}
