/**
 Subaltern coding of one integer column against another (src/codec/corr_detector.rs).
 Every child value is stored as its distance from the least child of its parent.
 */
module Subaltern {
  import opened Bytes
  import opened Common

  const MAX: int := 0x7FFF_FFFF_FFFF_FFFF
  const MIN: int := -0x8000_0000_0000_0000

  type I64 = x: int | MIN <= x <= MAX

  function SaturatingSub(a: I64, b: I64): I64 {
    if a - b > MAX then MAX else if a - b < MIN then MIN else a - b
  }

  /** The two builds of the program: with overflow checks an overflowing `+` is an error, without them it wraps. */
  datatype Arithmetic = Checked | Wrapping

  function Add(mode: Arithmetic, a: I64, b: I64): Result<I64> {
    if MIN <= a + b <= MAX then Ok(a + b)
    else if mode == Checked then Err
    else Ok(if a + b > MAX then a + b - 0x1_0000_0000_0000_0000 else a + b + 0x1_0000_0000_0000_0000)
  }

  /** `zip` stops at the shorter column. */
  function Rows(parent: seq<I64>, other: seq<I64>): nat {
    if |parent| < |other| then |parent| else |other|
  }

  // ------------------------------------------------------------------
  // What the offset table must be
  // ------------------------------------------------------------------

  /** `m` is the least child of parent `p`. */
  predicate LeastOf(parent: seq<I64>, child: seq<I64>, p: I64, m: I64) {
    && (exists i :: 0 <= i < Rows(parent, child) && parent[i] == p && child[i] == m)
    && (forall i :: 0 <= i < Rows(parent, child) && parent[i] == p ==> m <= child[i])
  }

  /** The base value: the least child of all rows, or 0 when no child is below the largest integer. */
  predicate IsBase(parent: seq<I64>, child: seq<I64>, base: I64) {
    if exists i :: 0 <= i < Rows(parent, child) && child[i] < MAX
    then
      && (exists i :: 0 <= i < Rows(parent, child) && child[i] == base)
      && (forall i :: 0 <= i < Rows(parent, child) ==> base <= child[i])
    else base == 0
  }

  predicate IsTable(parent: seq<I64>, child: seq<I64>, table: map<I64, I64>, base: I64) {
    && IsBase(parent, child, base)
    && (forall i :: 0 <= i < Rows(parent, child) ==> parent[i] in table)
    && (forall p :: p in table ==> OffsetOk(parent, child, base, p, table[p]))
  }

  predicate OffsetOk(parent: seq<I64>, child: seq<I64>, base: I64, p: I64, offset: I64) {
    exists i :: 0 <= i < Rows(parent, child) && LeastOf(parent, child, p, child[i]) && offset == SaturatingSub(child[i], base)
  }

  // ------------------------------------------------------------------
  // build_subaltern_offset_table
  // ------------------------------------------------------------------

  /** The children that `p` collects from the first `n` rows, in row order. */
  function ChildrenOf(parent: seq<I64>, child: seq<I64>, p: I64, n: nat): (s: seq<I64>)
    requires n <= Rows(parent, child)
    ensures forall x :: x in s ==> exists i :: 0 <= i < n && parent[i] == p && child[i] == x
    ensures forall i :: 0 <= i < n && parent[i] == p ==> child[i] in s
  {
    if n == 0 then []
    else if parent[n - 1] == p then ChildrenOf(parent, child, p, n - 1) + [child[n - 1]]
    else ChildrenOf(parent, child, p, n - 1)
  }

  method MinOf(s: seq<I64>) returns (m: I64)
    requires s != []
    ensures m in s && forall x :: x in s ==> m <= x
  {
    m := s[0];
    for i := 1 to |s|
      invariant m in s && forall k :: 0 <= k < i ==> m <= s[k]
    {
      if s[i] < m { m := s[i]; }
    }
  }

  ghost predicate Grouped(parent: seq<I64>, child: seq<I64>, n: nat, groups: map<I64, seq<I64>>)
    requires n <= Rows(parent, child)
  {
    && (forall i :: 0 <= i < n ==> parent[i] in groups)
    && (forall p :: p in groups ==> groups[p] != [] && groups[p] == ChildrenOf(parent, child, p, n))
  }

  /** The grouping loop over the zipped rows (lines 418-421). */
  method GroupRows(parent: seq<I64>, child: seq<I64>) returns (groups: map<I64, seq<I64>>)
    ensures Grouped(parent, child, Rows(parent, child), groups)
  {
    groups := map[];
    for i := 0 to Rows(parent, child)
      invariant Grouped(parent, child, i, groups)
    {
      var p := parent[i];
      ghost var before := groups;
      if p in groups {
        groups := groups[p := groups[p] + [child[i]]];
      } else {
        NoChildren(parent, child, p, i);
        groups := groups[p := [child[i]]];
      }
      forall q | q in groups ensures groups[q] != [] && groups[q] == ChildrenOf(parent, child, q, i + 1) {
        if q != p { assert q in before; }
      }
    }
  }

  lemma {:induction false} NoChildren(parent: seq<I64>, child: seq<I64>, p: I64, n: nat)
    requires n <= Rows(parent, child) && forall i :: 0 <= i < n ==> parent[i] != p
    ensures ChildrenOf(parent, child, p, n) == []
  {
    if n > 0 { NoChildren(parent, child, p, n - 1); }
  }

  /** The least group minimum, visiting the groups in any order; 0 if none is below the largest integer (lines 423-433). */
  method BaseOf(parent: seq<I64>, child: seq<I64>, groups: map<I64, seq<I64>>) returns (base: I64)
    requires Grouped(parent, child, Rows(parent, child), groups)
    ensures IsBase(parent, child, base)
  {
    var n := Rows(parent, child);
    base := MAX;
    var todo := groups.Keys;
    while todo != {}
      invariant todo <= groups.Keys
      invariant forall p, x :: p in groups && p !in todo && x in groups[p] ==> base <= x
      invariant base == MAX || exists i :: 0 <= i < n && child[i] == base
    {
      var p :| p in todo;
      var m := MinOf(groups[p]);
      if m < base {
        base := m;
        var i :| 0 <= i < n && parent[i] == p && child[i] == m;
      }
      todo := todo - {p};
    }
    forall i | 0 <= i < n ensures base <= child[i] {
      assert parent[i] in groups && child[i] in groups[parent[i]];
    }
    if base == MAX {
      base := 0;
    }
  }

  method BuildOffsetTable(child: seq<I64>, parent: seq<I64>) returns (table: map<I64, I64>, base: I64)
    ensures IsTable(parent, child, table, base)
  {
    hide OffsetOk, IsBase, SaturatingSub, ChildrenOf;
    var groups := GroupRows(parent, child);
    base := BaseOf(parent, child, groups);
    table := map[];
    var todo := groups.Keys;
    while todo != {}
      invariant todo <= groups.Keys && table.Keys == groups.Keys - todo
      invariant forall p :: p in table ==> OffsetOk(parent, child, base, p, table[p])
    {
      var p :| p in todo;
      var m := MinOf(groups[p]);
      GroupMinGivesOffset(parent, child, base, p, m);
      table := table[p := SaturatingSub(m, base)];
      todo := todo - {p};
    }
  }

  lemma GroupMinGivesOffset(parent: seq<I64>, child: seq<I64>, base: I64, p: I64, m: I64)
    requires var s := ChildrenOf(parent, child, p, Rows(parent, child)); m in s && forall x :: x in s ==> m <= x
    ensures LeastOf(parent, child, p, m) && OffsetOk(parent, child, base, p, SaturatingSub(m, base))
  {
  }

  // ------------------------------------------------------------------
  // subaltern_encode and subaltern_decode
  // ------------------------------------------------------------------

  function OffsetFor(table: map<I64, I64>, p: I64): I64 {
    if p in table then table[p] else 0
  }

  function EncodeRow(mode: Arithmetic, c: I64, offset: I64, base: I64): Result<I64> {
    match Add(mode, offset, base)
    case Err => Err
    case Ok(b) => Ok(SaturatingSub(c, b))
  }

  function DecodeRow(mode: Arithmetic, d: I64, offset: I64, base: I64): Result<I64> {
    match Add(mode, d, offset)
    case Err => Err
    case Ok(s) => Add(mode, s, base)
  }

  /** One failing row fails the whole column. */
  function All(rows: seq<Result<I64>>): Result<seq<I64>> {
    if exists i :: 0 <= i < |rows| && rows[i].Err? then Err
    else Ok(seq(|rows|, i requires 0 <= i < |rows| => rows[i].value))
  }

  function Encode(mode: Arithmetic, child: seq<I64>, parent: seq<I64>, table: map<I64, I64>, base: I64): Result<seq<I64>> {
    All(seq(Rows(parent, child),
            i requires 0 <= i < Rows(parent, child) => EncodeRow(mode, child[i], OffsetFor(table, parent[i]), base)))
  }

  function Decode(mode: Arithmetic, diff: seq<I64>, parent: seq<I64>, table: map<I64, I64>, base: I64): Result<seq<I64>> {
    All(seq(Rows(parent, diff),
            i requires 0 <= i < Rows(parent, diff) => DecodeRow(mode, diff[i], OffsetFor(table, parent[i]), base)))
  }

  // ------------------------------------------------------------------
  // When decoding restores the column
  // ------------------------------------------------------------------

  /**
   With overflow checks: no child is further below row `i` than the largest integer. Without them:
   no child of the same parent is, and the column does not hold both extremes of the type.
   */
  predicate RowNarrow(mode: Arithmetic, parent: seq<I64>, child: seq<I64>, i: nat)
    requires i < Rows(parent, child)
  {
    forall j :: 0 <= j < Rows(parent, child) ==>
      if mode == Checked then child[i] - child[j] <= MAX
      else (parent[i] == parent[j] ==> child[i] - child[j] <= MAX) && !(child[i] == MAX && child[j] == MIN)
  }

  predicate Narrow(mode: Arithmetic, parent: seq<I64>, child: seq<I64>) {
    forall i :: 0 <= i < Rows(parent, child) ==> RowNarrow(mode, parent, child, i)
  }

  /** Row-wise: the distance is never negative, and decoding it gives the child back exactly if `ok`. */
  ghost predicate RowSpec(mode: Arithmetic, c: I64, offset: I64, base: I64, ok: bool) {
    var d := EncodeRow(mode, c, offset, base);
    d.Ok? && 0 <= d.value && (DecodeRow(mode, d.value, offset, base) == Ok(c) <==> ok)
  }

  /** The condition of one row in numbers: `m` is the least child of the row's parent. */
  predicate Fits(mode: Arithmetic, c: I64, m: I64, base: I64) {
    if mode == Checked then c - base <= MAX else c - m <= MAX && !(c == MAX && base == MIN)
  }

  lemma RowRoundTrip(mode: Arithmetic, c: I64, m: I64, base: I64)
    requires base <= m <= c
    ensures RowSpec(mode, c, SaturatingSub(m, base), base, Fits(mode, c, m, base))
  {
  }

  /** Row `i` of a proper table: the least child `m` of its parent, at or above the base. */
  lemma RowOffset(parent: seq<I64>, child: seq<I64>, table: map<I64, I64>, base: I64, i: nat) returns (k: nat)
    requires IsTable(parent, child, table, base) && i < Rows(parent, child)
    ensures k < Rows(parent, child) && parent[k] == parent[i] && base <= child[k] <= child[i]
    ensures forall j :: 0 <= j < Rows(parent, child) && parent[j] == parent[i] ==> child[k] <= child[j]
    ensures OffsetFor(table, parent[i]) == SaturatingSub(child[k], base)
  {
    var p := parent[i];
    var q :| 0 <= q < Rows(parent, child) && LeastOf(parent, child, p, child[q]) && table[p] == SaturatingSub(child[q], base);
    k :| 0 <= k < Rows(parent, child) && parent[k] == p && child[k] == child[q];
  }

  /** `Fits` speaks of the base and of one group minimum; `RowNarrow` speaks of the column only. */
  lemma FitsIsNarrow(mode: Arithmetic, parent: seq<I64>, child: seq<I64>, base: I64, i: nat, k: nat)
    requires IsBase(parent, child, base) && i < Rows(parent, child)
    requires k < Rows(parent, child) && parent[k] == parent[i] && base <= child[k] <= child[i]
    requires forall j :: 0 <= j < Rows(parent, child) && parent[j] == parent[i] ==> child[k] <= child[j]
    ensures Fits(mode, child[i], child[k], base) <==> RowNarrow(mode, parent, child, i)
  {
  }

  lemma RowRestoredIff(mode: Arithmetic, parent: seq<I64>, child: seq<I64>, table: map<I64, I64>, base: I64, i: nat)
    requires IsTable(parent, child, table, base) && i < Rows(parent, child)
    ensures RowSpec(mode, child[i], OffsetFor(table, parent[i]), base, RowNarrow(mode, parent, child, i))
  {
    hide RowSpec, RowNarrow, Fits, SaturatingSub, OffsetFor;
    var k := RowOffset(parent, child, table, base, i);
    RowRoundTrip(mode, child[i], child[k], base);
    FitsIsNarrow(mode, parent, child, base, i, k);
  }

  /** A row that no other row is too far below is stored as its distance from the least child of its parent. */
  lemma DistanceToLeast(mode: Arithmetic, parent: seq<I64>, child: seq<I64>, table: map<I64, I64>, base: I64, i: nat) returns (k: nat)
    requires IsTable(parent, child, table, base) && i < Rows(parent, child) && RowNarrow(Checked, parent, child, i)
    ensures k < Rows(parent, child) && LeastOf(parent, child, parent[i], child[k])
    ensures EncodeRow(mode, child[i], OffsetFor(table, parent[i]), base) == Ok(child[i] - child[k])
  {
    hide RowNarrow, SaturatingSub, OffsetFor, EncodeRow, OffsetOk, IsBase;
    k := RowOffset(parent, child, table, base, i);
    FitsIsNarrow(Checked, parent, child, base, i, k);
    NarrowDistance(mode, child[i], child[k], base);
  }

  lemma NarrowDistance(mode: Arithmetic, c: I64, m: I64, base: I64)
    requires base <= m <= c && Fits(Checked, c, m, base)
    ensures EncodeRow(mode, c, SaturatingSub(m, base), base) == Ok(c - m)
  {
  }

  /**
   The code is lossless exactly on narrow columns. Encoding itself never fails, and it never
   produces a negative distance, however wide the column.
   */
  lemma RoundTripIff(mode: Arithmetic, parent: seq<I64>, child: seq<I64>, table: map<I64, I64>, base: I64)
    requires IsTable(parent, child, table, base)
    ensures
      var n := Rows(parent, child);
      var diff := Encode(mode, child, parent, table, base);
      && diff.Ok? && |diff.value| == n
      && (forall i :: 0 <= i < n ==> 0 <= diff.value[i])
      && (Decode(mode, diff.value, parent, table, base) == Ok(child[..n]) <==> Narrow(mode, parent, child))
  {
    hide RowNarrow, IsTable, EncodeRow, DecodeRow, OffsetFor, Decode;
    var n := Rows(parent, child);
    forall i | 0 <= i < n
      ensures RowSpec(mode, child[i], OffsetFor(table, parent[i]), base, RowNarrow(mode, parent, child, i))
    {
      RowRestoredIff(mode, parent, child, table, base, i);
    }
    var diff := Encode(mode, child, parent, table, base).value;
    forall i | 0 <= i < n
      ensures diff[i] == EncodeRow(mode, child[i], OffsetFor(table, parent[i]), base).value && 0 <= diff[i]
      ensures RowBack(mode, diff, parent, table, base, i) == Ok(child[i]) <==> RowNarrow(mode, parent, child, i)
    {
      assert RowSpec(mode, child[i], OffsetFor(table, parent[i]), base, RowNarrow(mode, parent, child, i));
    }
    RestoredIff(mode, diff, parent, table, base, child[..n]);
  }

  function RowBack(mode: Arithmetic, diff: seq<I64>, parent: seq<I64>, table: map<I64, I64>, base: I64, i: nat): Result<I64>
    requires i < Rows(parent, diff)
  {
    DecodeRow(mode, diff[i], OffsetFor(table, parent[i]), base)
  }

  /** A column decodes to `want` exactly when every row does. */
  lemma RestoredIff(mode: Arithmetic, diff: seq<I64>, parent: seq<I64>, table: map<I64, I64>, base: I64, want: seq<I64>)
    requires |want| == Rows(parent, diff)
    ensures Decode(mode, diff, parent, table, base) == Ok(want) <==>
            forall i :: 0 <= i < |want| ==> RowBack(mode, diff, parent, table, base, i) == Ok(want[i])
  {
    hide DecodeRow, OffsetFor;
    var rows := seq(Rows(parent, diff),
                    i requires 0 <= i < Rows(parent, diff) => DecodeRow(mode, diff[i], OffsetFor(table, parent[i]), base));
    forall i | 0 <= i < |want| ensures rows[i] == RowBack(mode, diff, parent, table, base, i) {
    }
    AllIff(rows, want);
    assert Decode(mode, diff, parent, table, base) == All(rows);
  }

  lemma AllIff(rows: seq<Result<I64>>, want: seq<I64>)
    requires |want| == |rows|
    ensures All(rows) == Ok(want) <==> forall i :: 0 <= i < |want| ==> rows[i] == Ok(want[i])
  {
    if forall i :: 0 <= i < |want| ==> rows[i] == Ok(want[i]) {
      assert All(rows).value == want;
    } else {
      var i :| 0 <= i < |want| && rows[i] != Ok(want[i]);
      assert rows[i].Err? || All(rows).Err? || All(rows).value[i] != want[i];
    }
  }

  /** Build, encode and decode in one go: what a caller gets back, in terms of the two columns only. */
  method RoundTrip(mode: Arithmetic, child: seq<I64>, parent: seq<I64>) returns (back: Result<seq<I64>>)
    ensures back == Ok(child[..Rows(parent, child)]) <==> Narrow(mode, parent, child)
  {
    var table, base := BuildOffsetTable(child, parent);
    RoundTripIff(mode, parent, child, table, base);
    var diff := Encode(mode, child, parent, table, base);
    back := Decode(mode, diff.value, parent, table, base);
  }
}
