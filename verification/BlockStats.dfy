/**
 Column statistics of one block (src/metadata/block_stats.rs) and the
 type-aware comparison that reads them back (src/metadata/block_zone_map.rs).
 */
module BlockStats {
  import opened Bytes

  type Width = w: nat | w == 1 || w == 2 || w == 4 || w == 8 witness 1

  /** `Other` stands for every type whose blocks carry neither a minimum nor a maximum. */
  datatype ColumnType = Int(signed: bool, width: Width) | Utf8 | Boolean | Other

  datatype Cell = Null | IntCell(v: int) | StrCell(s: Bytes) | BoolCell(b: bool) | OtherCell

  predicate HasType(c: Cell, dt: ColumnType) {
    match c
    case Null => true
    case IntCell(v) => dt.Int? && Fits(v, dt)
    case StrCell(_) => dt.Utf8?
    case BoolCell(_) => dt.Boolean?
    case OtherCell => dt.Other?
  }

  predicate Fits(v: int, dt: ColumnType)
    requires dt.Int?
  {
    var p := Pow256(dt.width);
    if dt.signed then 0 <= 2 * v + p < 2 * p else 0 <= v < p
  }

  predicate WellTyped(col: seq<Cell>, dt: ColumnType) {
    forall i :: 0 <= i < |col| ==> HasType(col[i], dt)
  }

  // ------------------------------------------------------------------
  // Values as bytes
  // ------------------------------------------------------------------

  /** `to_le_bytes` for integers, the raw bytes of a string, one byte for a boolean. */
  function Encode(c: Cell, dt: ColumnType): Bytes
    requires HasType(c, dt) && !c.Null? && !dt.Other?
  {
    match c
    case IntCell(v) => LeBytes(if v < 0 then v + Pow256(dt.width) else v, dt.width)
    case StrCell(s) => s
    case BoolCell(b) => [if b then 1 else 0]
  }

  /** `from_le_bytes` after `read_bytes`, which looks at the first `width` bytes only. */
  function DecodeInt(bytes: Bytes, dt: ColumnType): int
    requires dt.Int? && |bytes| >= dt.width
  {
    var u := LeValue(bytes[..dt.width]);
    if dt.signed && 2 * u >= Pow256(dt.width) then u - Pow256(dt.width) else u
  }

  lemma IntRoundTrip(v: int, dt: ColumnType)
    requires dt.Int? && Fits(v, dt)
    ensures DecodeInt(Encode(IntCell(v), dt), dt) == v
  {
    var u := if v < 0 then v + Pow256(dt.width) else v;
    LeRoundTrip(u, dt.width);
    assert LeBytes(u, dt.width)[..dt.width] == LeBytes(u, dt.width);
  }

  /** `read_bytes::<N>` panics on a slice shorter than N. */
  predicate Readable(bytes: Bytes, dt: ColumnType) {
    dt.Int? ==> |bytes| >= dt.width
  }

  /** An empty boolean slice sorts below `false`. */
  function BoolRank(bytes: Bytes): int {
    if bytes == [] then -1 else bytes[0]
  }

  /** `bytes_lt` (src/metadata/block_zone_map.rs:806). */
  predicate BytesLt(left: Bytes, right: Bytes, dt: ColumnType)
    requires Readable(left, dt) && Readable(right, dt)
  {
    match dt
    case Int(_, _) => DecodeInt(left, dt) < DecodeInt(right, dt)
    case Utf8 => Lt(left, right)
    case Boolean =>
      if left == [] && right == [] then false
      else if left == [] || right == [] then left == []
      else left[0] < right[0]
    case Other => false
  }

  /** The order of the values themselves, independent of any encoding. */
  predicate CellLt(a: Cell, b: Cell, dt: ColumnType)
    requires HasType(a, dt) && HasType(b, dt) && !a.Null? && !b.Null?
  {
    match a
    case IntCell(v) => v < b.v
    case StrCell(s) => Lt(s, b.s)
    case BoolCell(p) => !p && b.b
    case OtherCell => false
  }

  /** Comparing the encodings is comparing the values. */
  lemma BytesLtIsValueOrder(a: Cell, b: Cell, dt: ColumnType)
    requires HasType(a, dt) && HasType(b, dt) && !a.Null? && !b.Null? && !dt.Other?
    ensures Readable(Encode(a, dt), dt) && Readable(Encode(b, dt), dt)
    ensures BytesLt(Encode(a, dt), Encode(b, dt), dt) <==> CellLt(a, b, dt)
  {
    if dt.Int? {
      IntRoundTrip(a.v, dt);
      IntRoundTrip(b.v, dt);
    }
  }

  /** `c` has a value, and it is at or above `lo`. */
  predicate NotBelow(c: Cell, lo: Bytes, dt: ColumnType)
    requires HasType(c, dt) && Readable(lo, dt)
  {
    match c
    case Null => false
    case IntCell(v) => DecodeInt(lo, dt) <= v
    case StrCell(s) => !Lt(s, lo)
    case BoolCell(b) => BoolRank(lo) <= if b then 1 else 0
    case OtherCell => true
  }

  /** `c` has a value, and it is at or below `hi`. */
  predicate NotAbove(c: Cell, hi: Bytes, dt: ColumnType)
    requires HasType(c, dt) && Readable(hi, dt)
  {
    match c
    case Null => false
    case IntCell(v) => v <= DecodeInt(hi, dt)
    case StrCell(s) => !Lt(hi, s)
    case BoolCell(b) => (if b then 1 else 0) <= BoolRank(hi)
    case OtherCell => true
  }

  /** The value of `c` lies in [lo, hi]. */
  predicate InRange(c: Cell, lo: Bytes, hi: Bytes, dt: ColumnType)
    requires HasType(c, dt) && Readable(lo, dt) && Readable(hi, dt)
  {
    NotBelow(c, lo, dt) && NotAbove(c, hi, dt)
  }

  /** A range given by two encoded values selects exactly the values between them. */
  lemma InRangeOfEncodedBounds(c: Cell, a: Cell, b: Cell, dt: ColumnType)
    requires HasType(c, dt) && HasType(a, dt) && HasType(b, dt)
    requires !c.Null? && !a.Null? && !b.Null? && !dt.Other?
    ensures Readable(Encode(a, dt), dt) && Readable(Encode(b, dt), dt)
    ensures NotBelow(c, Encode(a, dt), dt) <==> !CellLt(c, a, dt)
    ensures NotAbove(c, Encode(b, dt), dt) <==> !CellLt(b, c, dt)
    ensures InRange(c, Encode(a, dt), Encode(b, dt), dt) <==> !CellLt(c, a, dt) && !CellLt(b, c, dt)
  {
    if dt.Int? {
      IntRoundTrip(a.v, dt);
      IntRoundTrip(b.v, dt);
    }
  }

  // ------------------------------------------------------------------
  // Statistics of a slice
  // ------------------------------------------------------------------

  datatype ColumnStats = ColumnStats(min: Option<Bytes>, max: Option<Bytes>, nullCount: nat)

  const NO_STATS := ColumnStats(None, None, 0)

  function CountNulls(cells: seq<Cell>): (n: nat)
    ensures n <= |cells|
    ensures n == |cells| <==> AllNull(cells)
  {
    if cells == [] then 0
    else
      var init := cells[..|cells| - 1];
      assert cells == init + [cells[|cells| - 1]];
      CountNulls(init) + if cells[|cells| - 1].Null? then 1 else 0
  }

  /** The positions of the nulls. */
  function NullPositions(cells: seq<Cell>): set<nat> {
    set i: nat | i < |cells| && cells[i].Null?
  }

  lemma {:induction false} CountNullsIsCardinality(cells: seq<Cell>)
    ensures CountNulls(cells) == |NullPositions(cells)|
    decreases |cells|
  {
    if cells != [] {
      var n := |cells| - 1;
      CountNullsIsCardinality(cells[..n]);
      NullPositionsStep(cells);
      hide NullPositions;
    }
  }

  lemma NullPositionsStep(cells: seq<Cell>)
    requires cells != []
    ensures var n := |cells| - 1;
            && n !in NullPositions(cells[..n])
            && NullPositions(cells) == (if cells[n].Null? then NullPositions(cells[..n]) + {n} else NullPositions(cells[..n]))
  {
    var n := |cells| - 1;
    forall i: nat ensures i in NullPositions(cells) <==> i in NullPositions(cells[..n]) || (i == n && cells[n].Null?) {
      if i < n { assert cells[..n][i] == cells[i]; }
    }
  }

  lemma {:induction false} CountNullsConcat(xs: seq<Cell>, ys: seq<Cell>)
    ensures CountNulls(xs + ys) == CountNulls(xs) + CountNulls(ys)
    decreases |ys|
  {
    if ys == [] {
      assert xs + ys == xs;
    } else {
      CountNullsConcat(xs, ys[..|ys| - 1]);
      assert (xs + ys)[..|xs + ys| - 1] == xs + ys[..|ys| - 1];
    }
  }

  predicate AllNull(cells: seq<Cell>) {
    forall i :: 0 <= i < |cells| ==> cells[i].Null?
  }

  predicate Least(cells: seq<Cell>, dt: ColumnType, i: nat)
    requires WellTyped(cells, dt) && i < |cells| && !cells[i].Null?
  {
    forall k :: 0 <= k < |cells| && !cells[k].Null? ==> !CellLt(cells[k], cells[i], dt)
  }

  predicate Greatest(cells: seq<Cell>, dt: ColumnType, i: nat)
    requires WellTyped(cells, dt) && i < |cells| && !cells[i].Null?
  {
    forall k :: 0 <= k < |cells| && !cells[k].Null? ==> !CellLt(cells[i], cells[k], dt)
  }

  /** `m` encodes a least non-null value of `cells`; only a boolean minimum may be missing while values exist. */
  ghost predicate IsMin(cells: seq<Cell>, dt: ColumnType, m: Option<Bytes>)
    requires WellTyped(cells, dt)
  {
    match dt
    case Other => m == None
    case Boolean => m == if BoolCell(false) in cells then Some([0]) else None
    case _ =>
      if AllNull(cells) then m == None
      else exists i :: 0 <= i < |cells| && !cells[i].Null? && m == Some(Encode(cells[i], dt)) && Least(cells, dt, i)
  }

  ghost predicate IsMax(cells: seq<Cell>, dt: ColumnType, m: Option<Bytes>)
    requires WellTyped(cells, dt)
  {
    match dt
    case Other => m == None
    case Boolean => m == if BoolCell(true) in cells then Some([1]) else None
    case _ =>
      if AllNull(cells) then m == None
      else exists i :: 0 <= i < |cells| && !cells[i].Null? && m == Some(Encode(cells[i], dt)) && Greatest(cells, dt, i)
  }

  /**
   What `compute_block_stats` reports.  An integer slice of nulls only leaves the
   function early, so its null count is lost; everywhere else the count is exact.
   */
  ghost predicate StatsOf(cells: seq<Cell>, dt: ColumnType, s: ColumnStats)
    requires WellTyped(cells, dt)
  {
    && IsMin(cells, dt, s.min)
    && IsMax(cells, dt, s.max)
    && s.nullCount == if dt.Int? && AllNull(cells) then 0 else CountNulls(cells)
  }

  function Slice(col: seq<Cell>, offset: nat, len: nat): seq<Cell> {
    var end := if offset + len < |col| then offset + len else |col|;
    if offset < end then col[offset..end] else []
  }

  method ComputeBlockStats(col: seq<Cell>, dt: ColumnType, offset: nat, len: nat) returns (s: ColumnStats)
    requires WellTyped(col, dt)
    ensures WellTyped(Slice(col, offset, len), dt)
    ensures StatsOf(Slice(col, offset, len), dt, s)
  {
    if len == 0 { return NO_STATS; }
    var cells := Slice(col, offset, len);
    var nulls := 0;
    for i := 0 to |cells|
      invariant nulls == CountNulls(cells[..i])
    {
      assert cells[..i + 1][..i] == cells[..i];
      if cells[i].Null? { nulls := nulls + 1; }
    }
    assert cells[..|cells|] == cells;
    var nonNull := len - nulls;
    match dt
    case Int(_, _) =>
      s := IntStats(cells, dt, nonNull, nulls);
    case Utf8 =>
      s := StringStats(cells, dt, nulls);
    case Boolean =>
      s := BooleanStats(cells, dt, nulls);
    case Other =>
      s := ColumnStats(None, None, nulls);
  }

  method IntStats(cells: seq<Cell>, dt: ColumnType, nonNull: nat, nulls: nat) returns (s: ColumnStats)
    requires WellTyped(cells, dt) && dt.Int?
    requires nulls == CountNulls(cells) && nonNull >= |cells| - nulls
    ensures StatsOf(cells, dt, s)
  {
    if cells == [] || nonNull == 0 { return NO_STATS; }
    var first := 0;
    while first < |cells| && cells[first].Null?
      invariant first <= |cells|
      invariant forall k :: 0 <= k < first ==> cells[k].Null?
    {
      first := first + 1;
    }
    if first == |cells| { return NO_STATS; }
    var mn, mx := first, first;
    for i := first + 1 to |cells|
      invariant first <= mn < i && first <= mx < i
      invariant !cells[mn].Null? && !cells[mx].Null?
      invariant forall k :: 0 <= k < i && !cells[k].Null? ==> cells[mn].v <= cells[k].v <= cells[mx].v
    {
      if !cells[i].Null? {
        if cells[i].v < cells[mn].v { mn := i; }
        if cells[i].v > cells[mx].v { mx := i; }
      }
    }
    assert Least(cells, dt, mn) && Greatest(cells, dt, mx);
    s := ColumnStats(Some(Encode(cells[mn], dt)), Some(Encode(cells[mx], dt)), nulls);
  }

  method StringStats(cells: seq<Cell>, dt: ColumnType, nulls: nat) returns (s: ColumnStats)
    requires WellTyped(cells, dt) && dt.Utf8? && nulls == CountNulls(cells)
    ensures StatsOf(cells, dt, s)
  {
    var mn: Option<nat>, mx: Option<nat> := None, None;
    for i := 0 to |cells|
      invariant mn.None? <==> mx.None?
      invariant mn.None? ==> forall k :: 0 <= k < i ==> cells[k].Null?
      invariant mn.Some? ==> mn.value < i && !cells[mn.value].Null? && mx.value < i && !cells[mx.value].Null?
      invariant mn.Some? ==> forall k :: 0 <= k < i && !cells[k].Null? ==> !Lt(cells[k].s, cells[mn.value].s)
      invariant mx.Some? ==> forall k :: 0 <= k < i && !cells[k].Null? ==> !Lt(cells[mx.value].s, cells[k].s)
    {
      if !cells[i].Null? {
        var t := cells[i].s;
        LtIrreflexive(t);
        if mn.None? {
          mn, mx := Some(i), Some(i);
        } else {
          var lo, hi := cells[mn.value].s, cells[mx.value].s;
          if Lt(t, lo) {
            LtAsymmetric(t, lo);
            forall k | 0 <= k < i && !cells[k].Null? ensures !Lt(cells[k].s, t) { LeTransitive(t, lo, cells[k].s); }
            mn := Some(i);
          }
          if Lt(hi, t) {
            LtAsymmetric(hi, t);
            forall k | 0 <= k < i && !cells[k].Null? ensures !Lt(t, cells[k].s) { LeTransitive(cells[k].s, hi, t); }
            mx := Some(i);
          }
        }
      }
    }
    if mn.None? {
      s := ColumnStats(None, None, nulls);
    } else {
      assert Least(cells, dt, mn.value) && Greatest(cells, dt, mx.value);
      s := ColumnStats(Some(cells[mn.value].s), Some(cells[mx.value].s), nulls);
    }
  }

  method BooleanStats(cells: seq<Cell>, dt: ColumnType, nulls: nat) returns (s: ColumnStats)
    requires WellTyped(cells, dt) && dt.Boolean? && nulls == CountNulls(cells)
    ensures StatsOf(cells, dt, s)
  {
    var hasTrue, hasFalse := false, false;
    for i := 0 to |cells|
      invariant hasTrue <==> BoolCell(true) in cells[..i]
      invariant hasFalse <==> BoolCell(false) in cells[..i]
    {
      assert cells[..i + 1] == cells[..i] + [cells[i]];
      if !cells[i].Null? {
        if cells[i].b { hasTrue := true; } else { hasFalse := true; }
      }
    }
    assert cells[..|cells|] == cells;
    s := ColumnStats(if hasFalse then Some([0]) else None, if hasTrue then Some([1]) else None, nulls);
  }

  // ------------------------------------------------------------------
  // Bounds and merging
  // ------------------------------------------------------------------

  /** No non-null cell lies outside the recorded bounds, compared as the column's type. */
  ghost predicate Bounds(s: ColumnStats, cells: seq<Cell>, dt: ColumnType)
    requires WellTyped(cells, dt)
  {
    && (dt.Other? ==> s.min.None? && s.max.None?)
    && (s.min.Some? ==> Readable(s.min.value, dt))
    && (s.max.Some? ==> Readable(s.max.value, dt))
    && forall i :: 0 <= i < |cells| && !cells[i].Null? && !dt.Other? ==> Within(s, cells[i], dt)
  }

  predicate Within(s: ColumnStats, c: Cell, dt: ColumnType)
    requires HasType(c, dt) && !c.Null? && !dt.Other?
    requires s.min.Some? ==> Readable(s.min.value, dt)
    requires s.max.Some? ==> Readable(s.max.value, dt)
  {
    && (s.min.Some? ==> !BytesLt(Encode(c, dt), s.min.value, dt))
    && (s.max.Some? ==> !BytesLt(s.max.value, Encode(c, dt), dt))
  }

  lemma StatsAreBounds(cells: seq<Cell>, dt: ColumnType, s: ColumnStats)
    requires WellTyped(cells, dt) && StatsOf(cells, dt, s)
    ensures Bounds(s, cells, dt)
  {
    forall i, j | 0 <= i < |cells| && 0 <= j < |cells| && !cells[i].Null? && !cells[j].Null? && !dt.Other?
      ensures Readable(Encode(cells[i], dt), dt)
      ensures BytesLt(Encode(cells[i], dt), Encode(cells[j], dt), dt) <==> CellLt(cells[i], cells[j], dt)
    {
      BytesLtIsValueOrder(cells[i], cells[j], dt);
    }
  }

  /** A block bounded below the range, or above it, holds nothing in the range. */
  lemma OutsideBoundsIsOutOfRange(s: ColumnStats, c: Cell, lo: Bytes, hi: Bytes, dt: ColumnType)
    requires HasType(c, dt) && !c.Null? && !dt.Other? && Readable(lo, dt) && Readable(hi, dt)
    requires s.min.Some? ==> Readable(s.min.value, dt)
    requires s.max.Some? ==> Readable(s.max.value, dt)
    requires Within(s, c, dt)
    requires (s.max.Some? && BytesLt(s.max.value, lo, dt)) || (s.min.Some? && BytesLt(hi, s.min.value, dt))
    ensures !InRange(c, lo, hi, dt)
  {
    match c
    case IntCell(v) =>
      IntRoundTrip(v, dt);
    case StrCell(t) =>
      if s.max.Some? && Lt(s.max.value, lo) {
        if !Lt(t, lo) { LeTransitive(lo, t, s.max.value); }
      } else if !Lt(hi, t) {
        LeTransitive(s.min.value, t, hi);
      }
    case BoolCell(_) =>
  }

  /** The recorded bounds lie wholly below or wholly above the range. */
  predicate Excluded(s: ColumnStats, lo: Bytes, hi: Bytes, dt: ColumnType)
    requires Readable(lo, dt) && Readable(hi, dt)
    requires (s.min.Some? ==> Readable(s.min.value, dt)) && (s.max.Some? ==> Readable(s.max.value, dt))
  {
    (s.max.Some? && BytesLt(s.max.value, lo, dt)) || (s.min.Some? && BytesLt(hi, s.min.value, dt))
  }

  /**
   What the statistics of a slice can tell about a range, in terms of its cells: a slice of nulls, or one with a
   value at or above `lo` and a value at or below `hi`.  A boolean slice is judged by its `true` and its `false`
   apart, and a slice of another type not at all.
   */
  ghost predicate CellsMayMatch(cells: seq<Cell>, lo: Bytes, hi: Bytes, dt: ColumnType)
    requires WellTyped(cells, dt) && Readable(lo, dt) && Readable(hi, dt)
  {
    match dt
    case Other => true
    case Boolean =>
      && (BoolCell(true) in cells ==> NotBelow(BoolCell(true), lo, dt))
      && (BoolCell(false) in cells ==> NotAbove(BoolCell(false), hi, dt))
    case _ =>
      || AllNull(cells)
      || (&& (exists i :: 0 <= i < |cells| && NotBelow(cells[i], lo, dt))
          && (exists i :: 0 <= i < |cells| && NotAbove(cells[i], hi, dt)))
  }

  /** Comparing an encoded value with a bound of the range. */
  lemma EncodedAgainstRange(c: Cell, lo: Bytes, hi: Bytes, dt: ColumnType)
    requires HasType(c, dt) && !c.Null? && !dt.Other? && Readable(lo, dt) && Readable(hi, dt)
    ensures Readable(Encode(c, dt), dt)
    ensures BytesLt(Encode(c, dt), lo, dt) <==> !NotBelow(c, lo, dt)
    ensures BytesLt(hi, Encode(c, dt), dt) <==> !NotAbove(c, hi, dt)
  {
    if dt.Int? { IntRoundTrip(c.v, dt); }
  }

  /** A value above one that is not below `lo` is not below `lo` either; and so for `hi`. */
  lemma RangeMonotone(a: Cell, b: Cell, lo: Bytes, hi: Bytes, dt: ColumnType)
    requires HasType(a, dt) && HasType(b, dt) && !a.Null? && !b.Null? && !dt.Other? && Readable(lo, dt) && Readable(hi, dt)
    requires !CellLt(b, a, dt)
    ensures NotBelow(a, lo, dt) ==> NotBelow(b, lo, dt)
    ensures NotAbove(b, hi, dt) ==> NotAbove(a, hi, dt)
  {
    if dt.Utf8? {
      if NotBelow(a, lo, dt) { LeTransitive(lo, a.s, b.s); }
      if NotAbove(b, hi, dt) { LeTransitive(a.s, b.s, hi); }
    }
  }

  /** The statistics rule a range out exactly when the cells of the slice do. */
  lemma ExcludedIff(cells: seq<Cell>, dt: ColumnType, s: ColumnStats, lo: Bytes, hi: Bytes)
    requires WellTyped(cells, dt) && StatsOf(cells, dt, s) && Readable(lo, dt) && Readable(hi, dt)
    ensures (s.min.Some? ==> Readable(s.min.value, dt)) && (s.max.Some? ==> Readable(s.max.value, dt))
    ensures Excluded(s, lo, hi, dt) <==> !CellsMayMatch(cells, lo, hi, dt)
  {
    hide Encode, Least, Greatest, CountNulls, DecodeInt;
    StatsAreBounds(cells, dt, s);
    if (dt.Int? || dt.Utf8?) && !AllNull(cells) {
      var i :| 0 <= i < |cells| && !cells[i].Null? && s.min == Some(Encode(cells[i], dt)) && Least(cells, dt, i);
      var j :| 0 <= j < |cells| && !cells[j].Null? && s.max == Some(Encode(cells[j], dt)) && Greatest(cells, dt, j);
      EncodedAgainstRange(cells[i], lo, hi, dt);
      EncodedAgainstRange(cells[j], lo, hi, dt);
      ExtremesDecide(cells, dt, i, j, lo, hi);
      hide NotBelow, NotAbove, BytesLt, IsMin, IsMax, Bounds;
    }
  }

  /** A slice has a value at or above `lo` if its greatest one is, and a value at or below `hi` if its least one is. */
  lemma ExtremesDecide(cells: seq<Cell>, dt: ColumnType, i: nat, j: nat, lo: Bytes, hi: Bytes)
    requires WellTyped(cells, dt) && !dt.Other? && Readable(lo, dt) && Readable(hi, dt) && i < |cells| && j < |cells|
    requires !cells[i].Null? && Least(cells, dt, i) && !cells[j].Null? && Greatest(cells, dt, j)
    ensures (exists k :: 0 <= k < |cells| && NotBelow(cells[k], lo, dt)) <==> NotBelow(cells[j], lo, dt)
    ensures (exists k :: 0 <= k < |cells| && NotAbove(cells[k], hi, dt)) <==> NotAbove(cells[i], hi, dt)
  {
    forall k | 0 <= k < |cells|
      ensures NotBelow(cells[k], lo, dt) ==> NotBelow(cells[j], lo, dt)
      ensures NotAbove(cells[k], hi, dt) ==> NotAbove(cells[i], hi, dt)
    {
      if !cells[k].Null? {
        RangeMonotone(cells[k], cells[j], lo, hi, dt);
        RangeMonotone(cells[i], cells[k], lo, hi, dt);
      }
    }
  }

  /** `merge_with` (src/metadata/block_stats.rs:21): raw byte comparison, whatever the column type. */
  function Merge(s: ColumnStats, t: ColumnStats): ColumnStats {
    ColumnStats(
      if t.min.Some? && (s.min.None? || Lt(t.min.value, s.min.value)) then t.min else s.min,
      if t.max.Some? && (s.max.None? || Lt(s.max.value, t.max.value)) then t.max else s.max,
      s.nullCount + t.nullCount)
  }

  /** Merging the statistics of any two slices bounds both slices. */
  ghost predicate MergeSound(dt: ColumnType) {
    forall xs, ys, s, t :: WellTyped(xs, dt) && WellTyped(ys, dt) && StatsOf(xs, dt, s) && StatsOf(ys, dt, t)
                           ==> WellTyped(xs + ys, dt) && Bounds(Merge(s, t), xs + ys, dt)
  }

  /** Raw byte order is the order of the type. */
  predicate ByteOrdered(dt: ColumnType) {
    dt.Int? ==> dt.width == 1 && !dt.signed
  }

  /** Byte-wise merging is right for exactly the byte-ordered types: it fails for every signed or wide integer type. */
  lemma MergeSoundIffByteOrdered(dt: ColumnType)
    ensures MergeSound(dt) <==> ByteOrdered(dt)
  {
    if ByteOrdered(dt) {
      forall xs, ys, s, t | WellTyped(xs, dt) && WellTyped(ys, dt) && StatsOf(xs, dt, s) && StatsOf(ys, dt, t)
        ensures WellTyped(xs + ys, dt) && Bounds(Merge(s, t), xs + ys, dt)
      {
        MergeBoundsBoth(xs, ys, s, t, dt);
      }
    } else {
      var (x, y) := if dt.signed then (-1, 0) else (1, 256);
      MergeLosesMinimum(x, y, dt);
    }
  }

  /** For byte-ordered types merging is exact: the result is the minimum and the maximum of the two slices together. */
  lemma MergeIsExact(xs: seq<Cell>, ys: seq<Cell>, s: ColumnStats, t: ColumnStats, dt: ColumnType)
    requires ByteOrdered(dt) && WellTyped(xs, dt) && WellTyped(ys, dt)
    requires StatsOf(xs, dt, s) && StatsOf(ys, dt, t)
    ensures WellTyped(xs + ys, dt) && IsMin(xs + ys, dt, Merge(s, t).min) && IsMax(xs + ys, dt, Merge(s, t).max)
    ensures dt.Int? || Merge(s, t).nullCount == CountNulls(xs + ys)
    ensures dt.Int? && !AllNull(xs) && !AllNull(ys) ==> Merge(s, t).nullCount == CountNulls(xs + ys)
  {
    CountNullsConcat(xs, ys);
    if dt.Int? || dt.Utf8? { MergeExactOrdered(xs, ys, s, t, dt); }
  }

  lemma MergeExactOrdered(xs: seq<Cell>, ys: seq<Cell>, s: ColumnStats, t: ColumnStats, dt: ColumnType)
    requires ByteOrdered(dt) && (dt.Int? || dt.Utf8?) && WellTyped(xs, dt) && WellTyped(ys, dt)
    requires StatsOf(xs, dt, s) && StatsOf(ys, dt, t)
    ensures WellTyped(xs + ys, dt) && IsMin(xs + ys, dt, Merge(s, t).min) && IsMax(xs + ys, dt, Merge(s, t).max)
  {
    hide *;
    MergeBoundsBoth(xs, ys, s, t, dt);
    AllNullConcat(xs, ys);
    var zs, m := xs + ys, Merge(s, t);
    if AllNull(zs) {
      MergeOfNulls(xs, ys, s, t, dt);
    } else {
      var i := MergedMinFrom(xs, ys, s, t, dt);
      var j := MergedMaxFrom(xs, ys, s, t, dt);
      BoundIsExtreme(zs, dt, m, i, j);
    }
  }

  lemma MergeOfNulls(xs: seq<Cell>, ys: seq<Cell>, s: ColumnStats, t: ColumnStats, dt: ColumnType)
    requires (dt.Int? || dt.Utf8?) && WellTyped(xs, dt) && WellTyped(ys, dt) && StatsOf(xs, dt, s) && StatsOf(ys, dt, t)
    requires AllNull(xs) && AllNull(ys) && AllNull(xs + ys) && WellTyped(xs + ys, dt)
    ensures IsMin(xs + ys, dt, Merge(s, t).min) && IsMax(xs + ys, dt, Merge(s, t).max)
  {
    hide AllNull, Encode, Least, Greatest;
  }

  lemma AllNullConcat(xs: seq<Cell>, ys: seq<Cell>)
    ensures AllNull(xs + ys) <==> AllNull(xs) && AllNull(ys)
  {
    if AllNull(xs + ys) {
      assert forall i :: 0 <= i < |xs| ==> xs[i] == (xs + ys)[i];
      assert forall i :: 0 <= i < |ys| ==> ys[i] == (xs + ys)[|xs| + i];
    }
  }

  lemma MergedMinFrom(xs: seq<Cell>, ys: seq<Cell>, s: ColumnStats, t: ColumnStats, dt: ColumnType) returns (i: nat)
    requires (dt.Int? || dt.Utf8?) && WellTyped(xs, dt) && WellTyped(ys, dt) && StatsOf(xs, dt, s) && StatsOf(ys, dt, t)
    requires !AllNull(xs) || !AllNull(ys)
    ensures i < |xs + ys| && !(xs + ys)[i].Null? && HasType((xs + ys)[i], dt) && Merge(s, t).min == Some(Encode((xs + ys)[i], dt))
  {
    if Merge(s, t).min == s.min && !AllNull(xs) {
      i :| 0 <= i < |xs| && !xs[i].Null? && s.min == Some(Encode(xs[i], dt)) && Least(xs, dt, i);
    } else {
      var k :| 0 <= k < |ys| && !ys[k].Null? && t.min == Some(Encode(ys[k], dt)) && Least(ys, dt, k);
      i := |xs| + k;
      assert (xs + ys)[i] == ys[k];
    }
  }

  lemma MergedMaxFrom(xs: seq<Cell>, ys: seq<Cell>, s: ColumnStats, t: ColumnStats, dt: ColumnType) returns (i: nat)
    requires (dt.Int? || dt.Utf8?) && WellTyped(xs, dt) && WellTyped(ys, dt) && StatsOf(xs, dt, s) && StatsOf(ys, dt, t)
    requires !AllNull(xs) || !AllNull(ys)
    ensures i < |xs + ys| && !(xs + ys)[i].Null? && HasType((xs + ys)[i], dt) && Merge(s, t).max == Some(Encode((xs + ys)[i], dt))
  {
    if Merge(s, t).max == s.max && !AllNull(xs) {
      i :| 0 <= i < |xs| && !xs[i].Null? && s.max == Some(Encode(xs[i], dt)) && Greatest(xs, dt, i);
    } else {
      var k :| 0 <= k < |ys| && !ys[k].Null? && t.max == Some(Encode(ys[k], dt)) && Greatest(ys, dt, k);
      i := |xs| + k;
      assert (xs + ys)[i] == ys[k];
    }
  }

  /** A bound that is the encoding of a cell is an extreme cell. */
  lemma BoundIsExtreme(zs: seq<Cell>, dt: ColumnType, m: ColumnStats, i: nat, j: nat)
    requires (dt.Int? || dt.Utf8?) && WellTyped(zs, dt) && Bounds(m, zs, dt) && i < |zs| && j < |zs|
    requires !zs[i].Null? && m.min == Some(Encode(zs[i], dt)) && !zs[j].Null? && m.max == Some(Encode(zs[j], dt))
    ensures Least(zs, dt, i) && Greatest(zs, dt, j) && IsMin(zs, dt, m.min) && IsMax(zs, dt, m.max)
  {
    hide Encode, CellLt;
    forall k | 0 <= k < |zs| && !zs[k].Null? ensures !CellLt(zs[k], zs[i], dt) && !CellLt(zs[j], zs[k], dt) {
      assert Within(m, zs[k], dt);
      BytesLtIsValueOrder(zs[k], zs[i], dt);
      BytesLtIsValueOrder(zs[j], zs[k], dt);
    }
  }

  lemma MergeBoundsBoth(xs: seq<Cell>, ys: seq<Cell>, s: ColumnStats, t: ColumnStats, dt: ColumnType)
    requires ByteOrdered(dt) && WellTyped(xs, dt) && WellTyped(ys, dt)
    requires StatsOf(xs, dt, s) && StatsOf(ys, dt, t)
    ensures WellTyped(xs + ys, dt) && Bounds(Merge(s, t), xs + ys, dt)
  {
    MergeBoundsFirst(xs, ys, s, t, dt);
    MergeBoundsFirst(ys, xs, t, s, dt);
    MergeCommutes(s, t);
    BoundsConcat(Merge(s, t), xs, ys, dt);
  }

  lemma BoundsConcat(m: ColumnStats, xs: seq<Cell>, ys: seq<Cell>, dt: ColumnType)
    requires WellTyped(xs, dt) && WellTyped(ys, dt) && Bounds(m, xs, dt) && Bounds(m, ys, dt)
    ensures WellTyped(xs + ys, dt) && Bounds(m, xs + ys, dt)
  {
  }

  lemma MergeBoundsFirst(xs: seq<Cell>, ys: seq<Cell>, s: ColumnStats, t: ColumnStats, dt: ColumnType)
    requires ByteOrdered(dt) && WellTyped(xs, dt) && WellTyped(ys, dt)
    requires StatsOf(xs, dt, s) && StatsOf(ys, dt, t)
    ensures Bounds(Merge(s, t), xs, dt)
  {
    StatsAreBounds(xs, dt, s);
    StatsAreBounds(ys, dt, t);
    forall i | 0 <= i < |xs| && !xs[i].Null? && !dt.Other?
      ensures Within(Merge(s, t), xs[i], dt)
    {
      if s.min.Some? && t.min.Some? && Lt(t.min.value, s.min.value) {
        LowerStaysBelow(t.min.value, s.min.value, Encode(xs[i], dt), dt);
      }
      if s.max.Some? && t.max.Some? && Lt(s.max.value, t.max.value) {
        UpperStaysAbove(Encode(xs[i], dt), s.max.value, t.max.value, dt);
      }
    }
  }

  lemma LowerStaysBelow(a: Bytes, b: Bytes, e: Bytes, dt: ColumnType)
    requires ByteOrdered(dt) && Readable(a, dt) && Readable(b, dt) && Readable(e, dt)
    requires Lt(a, b) && !BytesLt(e, b, dt)
    ensures !BytesLt(e, a, dt)
  {
    match dt
    case Int(_, _) => UInt8IsFirstByte(a, dt); UInt8IsFirstByte(b, dt);
    case Utf8 => LtAsymmetric(a, b); LeTransitive(a, b, e);
    case Boolean =>
    case Other =>
  }

  lemma UpperStaysAbove(e: Bytes, a: Bytes, b: Bytes, dt: ColumnType)
    requires ByteOrdered(dt) && Readable(a, dt) && Readable(b, dt) && Readable(e, dt)
    requires Lt(a, b) && !BytesLt(a, e, dt)
    ensures !BytesLt(b, e, dt)
  {
    match dt
    case Int(_, _) => UInt8IsFirstByte(a, dt); UInt8IsFirstByte(b, dt);
    case Utf8 => LtAsymmetric(a, b); LeTransitive(e, a, b);
    case Boolean =>
    case Other =>
  }

  lemma UInt8IsFirstByte(a: Bytes, dt: ColumnType)
    requires dt == Int(false, 1) && |a| >= 1
    ensures DecodeInt(a, dt) == a[0]
  {
  }

  lemma MergeCommutes(s: ColumnStats, t: ColumnStats)
    ensures Merge(s, t) == Merge(t, s)
  {
    if s.min.Some? && t.min.Some? { LtOneWay(s.min.value, t.min.value); }
    if s.max.Some? && t.max.Some? { LtOneWay(s.max.value, t.max.value); }
  }

  lemma LtOneWay(a: Bytes, b: Bytes)
    ensures a != b ==> (Lt(a, b) <==> !Lt(b, a))
  {
  }

  /** The statistics of a slice with the one row `x`. */
  function OneRow(x: int, dt: ColumnType): ColumnStats
    requires dt.Int? && Fits(x, dt)
  {
    ColumnStats(Some(Encode(IntCell(x), dt)), Some(Encode(IntCell(x), dt)), 0)
  }

  /** Two one-row slices, -1 and 0 or 1 and 256: the merged minimum is the second row, which is above the first. */
  lemma MergeLosesMinimum(x: int, y: int, dt: ColumnType)
    requires dt.Int? && (if dt.signed then x == -1 && y == 0 else x == 1 && y == 256 && dt.width > 1)
    ensures Fits(x, dt) && Fits(y, dt) && StatsOf([IntCell(x)], dt, OneRow(x, dt)) && StatsOf([IntCell(y)], dt, OneRow(y, dt))
    ensures Merge(OneRow(x, dt), OneRow(y, dt)).min == Some(Encode(IntCell(y), dt))
    ensures CellLt(IntCell(x), IntCell(y), dt) && !Bounds(Merge(OneRow(x, dt), OneRow(y, dt)), [IntCell(x)], dt)
    ensures !MergeSound(dt)
  {
    WideEnough(dt);
    OneRowStats(x, dt);
    OneRowStats(y, dt);
    var m := Merge(OneRow(x, dt), OneRow(y, dt));
    hide Encode, StatsOf;
    BytesLtIsValueOrder(IntCell(x), IntCell(y), dt);
    var xs, ys := [IntCell(x)], [IntCell(y)];
    assert xs[0] == IntCell(x) && (xs + ys)[0] == IntCell(x);
    assert !Bounds(m, xs, dt) && (WellTyped(xs + ys, dt) ==> !Bounds(m, xs + ys, dt));
  }

  lemma WideEnough(dt: ColumnType)
    requires dt.Int?
    ensures Pow256(dt.width) % 256 == 0 && Pow256(dt.width) >= 256
    ensures dt.width > 1 ==> Pow256(dt.width) > 256
  {
  }

  lemma OneRowStats(x: int, dt: ColumnType)
    requires dt.Int? && Fits(x, dt)
    ensures StatsOf([IntCell(x)], dt, OneRow(x, dt))
  {
    var cells := [IntCell(x)];
    assert cells[..0] == [];
    assert Least(cells, dt, 0) && Greatest(cells, dt, 0) && !cells[0].Null?;
  }
}
