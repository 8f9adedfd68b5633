/**
 The block zone map of one column (src/metadata/block_zone_map.rs): the
 incremental builder and the pruning test `may_overlap`.
 */
module ZoneMap {
  import opened Bytes
  import opened Common
  import opened BlockStats

  const BLOCK_SIZE: nat := 8192
  const GRANULE_SIZE: nat := 8
  const MAX_BYTES_PER_BLOCK: nat := 10 * 1024 * 1024

  datatype Block = Block(rowStart: nat, rowEnd: nat, stats: ColumnStats)

  datatype Granule = Granule(id: nat, blocks: seq<Block>)

  datatype Index = Index(columnType: ColumnType, granules: seq<Granule>)

  function Blocks(granules: seq<Granule>): seq<Block> {
    if granules == [] then []
    else Blocks(granules[..|granules| - 1]) + granules[|granules| - 1].blocks
  }

  // ------------------------------------------------------------------
  // What an index must say about the rows it was built from
  // ------------------------------------------------------------------

  /** Consecutive non-empty ranges of at most BLOCK_SIZE rows that cover [0, n). */
  predicate Tiles(blocks: seq<Block>, n: nat) {
    && (if blocks == [] then n == 0 else blocks[0].rowStart == 0 && blocks[|blocks| - 1].rowEnd == n)
    && (forall i :: 0 <= i < |blocks| ==> blocks[i].rowStart < blocks[i].rowEnd <= blocks[i].rowStart + BLOCK_SIZE)
    && (forall i, j :: 0 <= i < |blocks| && j == i + 1 && j < |blocks| ==> blocks[j].rowStart == blocks[i].rowEnd)
  }

  /** The statistics of a block are those of exactly its own rows. */
  ghost predicate Describes(b: Block, rows: seq<Cell>, dt: ColumnType)
    requires WellTyped(rows, dt)
  {
    b.rowStart <= b.rowEnd <= |rows| && StatsOf(rows[b.rowStart..b.rowEnd], dt, b.stats)
  }

  ghost predicate AllDescribe(blocks: seq<Block>, rows: seq<Cell>, dt: ColumnType)
    requires WellTyped(rows, dt)
  {
    forall i :: 0 <= i < |blocks| ==> Describes(blocks[i], rows, dt)
  }

  predicate GranuleShape(granules: seq<Granule>) {
    forall i :: 0 <= i < |granules| ==> granules[i].id == i && 1 <= |granules[i].blocks| <= GRANULE_SIZE
  }

  ghost predicate IndexOf(index: Index, rows: seq<Cell>) {
    && WellTyped(rows, index.columnType)
    && GranuleShape(index.granules)
    && Tiles(Blocks(index.granules), |rows|)
    && AllDescribe(Blocks(index.granules), rows, index.columnType)
  }

  // ------------------------------------------------------------------
  // Pruning
  // ------------------------------------------------------------------

  ghost predicate ReadableBounds(s: ColumnStats, dt: ColumnType) {
    && (s.min.Some? ==> Readable(s.min.value, dt))
    && (s.max.Some? ==> Readable(s.max.value, dt))
  }

  ghost predicate ReadableIndex(index: Index) {
    forall i, j :: 0 <= i < |index.granules| && 0 <= j < |index.granules[i].blocks|
                   ==> ReadableBounds(index.granules[i].blocks[j].stats, index.columnType)
  }

  /** The block lies entirely below or entirely above the predicate range. */
  ghost predicate Pruned(b: Block, lo: Bytes, hi: Bytes, dt: ColumnType)
    requires Readable(lo, dt) && Readable(hi, dt) && ReadableBounds(b.stats, dt)
  {
    Excluded(b.stats, lo, hi, dt)
  }

  ghost predicate MayOverlap(index: Index, lo: Bytes, hi: Bytes)
    requires Readable(lo, index.columnType) && Readable(hi, index.columnType) && ReadableIndex(index)
  {
    exists i, j :: 0 <= i < |index.granules| && 0 <= j < |index.granules[i].blocks|
                   && !Pruned(index.granules[i].blocks[j], lo, hi, index.columnType)
  }

  /** `may_overlap` (src/metadata/block_zone_map.rs:558). */
  method CheckMayOverlap(index: Index, lo: Bytes, hi: Bytes) returns (r: bool)
    requires Readable(lo, index.columnType) && Readable(hi, index.columnType) && ReadableIndex(index)
    ensures r <==> MayOverlap(index, lo, hi)
  {
    var dt := index.columnType;
    for g := 0 to |index.granules|
      invariant forall i, j :: 0 <= i < g && 0 <= j < |index.granules[i].blocks|
                               ==> Pruned(index.granules[i].blocks[j], lo, hi, dt)
    {
      var blocks := index.granules[g].blocks;
      for k := 0 to |blocks|
        invariant forall j :: 0 <= j < k ==> Pruned(blocks[j], lo, hi, dt)
      {
        var s := index.granules[g].blocks[k].stats;
        assert ReadableBounds(s, dt);
        if s.max.Some? && BytesLt(s.max.value, lo, dt) { continue; }
        if s.min.Some? && BytesLt(hi, s.min.value, dt) { continue; }
        return true;
      }
    }
    return false;
  }

  lemma {:induction false} BlockInGranule(granules: seq<Granule>, i: nat) returns (g: nat, j: nat)
    requires i < |Blocks(granules)|
    ensures g < |granules| && j < |granules[g].blocks| && granules[g].blocks[j] == Blocks(granules)[i]
  {
    var init := granules[..|granules| - 1];
    if i < |Blocks(init)| {
      g, j := BlockInGranule(init, i);
    } else {
      g, j := |granules| - 1, i - |Blocks(init)|;
    }
  }

  lemma {:induction false} GranuleBlockListed(granules: seq<Granule>, g: nat, j: nat)
    requires g < |granules| && j < |granules[g].blocks|
    ensures granules[g].blocks[j] in Blocks(granules)
  {
    if g < |granules| - 1 { GranuleBlockListed(granules[..|granules| - 1], g, j); }
  }

  /** Every row belongs to a block. */
  lemma RowInBlock(blocks: seq<Block>, n: nat, row: nat) returns (i: nat)
    requires Tiles(blocks, n) && row < n
    ensures i < |blocks| && blocks[i].rowStart <= row < blocks[i].rowEnd
  {
    i := |blocks| - 1;
    while row < blocks[i].rowStart
      invariant i < |blocks| && row < blocks[i].rowEnd
    {
      i := i - 1;
    }
  }

  lemma IndexIsReadable(index: Index, rows: seq<Cell>)
    requires IndexOf(index, rows)
    ensures ReadableIndex(index)
  {
    var dt := index.columnType;
    forall g, j | 0 <= g < |index.granules| && 0 <= j < |index.granules[g].blocks|
      ensures ReadableBounds(index.granules[g].blocks[j].stats, dt)
    {
      var b := index.granules[g].blocks[j];
      GranuleBlockListed(index.granules, g, j);
      assert Describes(b, rows, dt);
      assert WellTyped(rows[b.rowStart..b.rowEnd], dt);
      StatsAreBounds(rows[b.rowStart..b.rowEnd], dt, b.stats);
    }
  }

  /** Pruning never contradicts a scan: a range the index rules out holds no row at all. */
  lemma PruningIsSound(index: Index, rows: seq<Cell>, lo: Bytes, hi: Bytes)
    requires IndexOf(index, rows) && Readable(lo, index.columnType) && Readable(hi, index.columnType)
    ensures ReadableIndex(index)
    ensures !MayOverlap(index, lo, hi) ==> forall r :: 0 <= r < |rows| ==> !InRange(rows[r], lo, hi, index.columnType)
  {
    IndexIsReadable(index, rows);
    if !MayOverlap(index, lo, hi) {
      forall r | 0 <= r < |rows| ensures !InRange(rows[r], lo, hi, index.columnType) {
        RowIsOutside(index, rows, lo, hi, r);
      }
    }
  }

  /** The rows of the block leave the range possible. */
  ghost predicate BlockMayMatch(b: Block, rows: seq<Cell>, lo: Bytes, hi: Bytes, dt: ColumnType)
    requires WellTyped(rows, dt) && Readable(lo, dt) && Readable(hi, dt)
  {
    b.rowStart <= b.rowEnd <= |rows| && CellsMayMatch(rows[b.rowStart..b.rowEnd], lo, hi, dt)
  }

  /** The rows of some block range do: what the index can know, without naming any statistics. */
  ghost predicate RowsMayMatch(index: Index, rows: seq<Cell>, lo: Bytes, hi: Bytes)
    requires WellTyped(rows, index.columnType) && Readable(lo, index.columnType) && Readable(hi, index.columnType)
  {
    exists i :: 0 <= i < |Blocks(index.granules)| && BlockMayMatch(Blocks(index.granules)[i], rows, lo, hi, index.columnType)
  }

  /** The index rules a range out exactly when the rows of every block range do: pruning is sound and as precise as it can be. */
  lemma OverlapIff(index: Index, rows: seq<Cell>, lo: Bytes, hi: Bytes)
    requires IndexOf(index, rows) && Readable(lo, index.columnType) && Readable(hi, index.columnType)
    ensures ReadableIndex(index) && (MayOverlap(index, lo, hi) <==> RowsMayMatch(index, rows, lo, hi))
  {
    hide CellsMayMatch, Excluded, StatsOf, Tiles;
    IndexIsReadable(index, rows);
    var dt, blocks := index.columnType, Blocks(index.granules);
    if MayOverlap(index, lo, hi) {
      var g, j :| 0 <= g < |index.granules| && 0 <= j < |index.granules[g].blocks| && !Pruned(index.granules[g].blocks[j], lo, hi, dt);
      GranuleBlockListed(index.granules, g, j);
      var i :| 0 <= i < |blocks| && blocks[i] == index.granules[g].blocks[j];
      PrunedIff(blocks[i], rows, lo, hi, dt);
    }
    if RowsMayMatch(index, rows, lo, hi) {
      var i :| 0 <= i < |blocks| && BlockMayMatch(blocks[i], rows, lo, hi, dt);
      var g, j := BlockInGranule(index.granules, i);
      PrunedIff(blocks[i], rows, lo, hi, dt);
      assert !Pruned(index.granules[g].blocks[j], lo, hi, dt);
    }
  }

  lemma PrunedIff(b: Block, rows: seq<Cell>, lo: Bytes, hi: Bytes, dt: ColumnType)
    requires WellTyped(rows, dt) && Describes(b, rows, dt) && Readable(lo, dt) && Readable(hi, dt) && ReadableBounds(b.stats, dt)
    ensures Pruned(b, lo, hi, dt) <==> !BlockMayMatch(b, rows, lo, hi, dt)
  {
    hide CellsMayMatch, Excluded, StatsOf;
    ExcludedIff(rows[b.rowStart..b.rowEnd], dt, b.stats, lo, hi);
  }

  lemma RowIsOutside(index: Index, rows: seq<Cell>, lo: Bytes, hi: Bytes, r: nat)
    requires IndexOf(index, rows) && Readable(lo, index.columnType) && Readable(hi, index.columnType)
    requires ReadableIndex(index) && !MayOverlap(index, lo, hi) && r < |rows|
    ensures !InRange(rows[r], lo, hi, index.columnType)
  {
    hide BytesLt, StatsOf, Tiles, Blocks, Readable, Within;
    var dt := index.columnType;
    var i := RowInBlock(Blocks(index.granules), |rows|, r);
    var g, j := BlockInGranule(index.granules, i);
    var b := index.granules[g].blocks[j];
    assert Pruned(b, lo, hi, dt);
    assert Describes(b, rows, dt);
    var cells := rows[b.rowStart..b.rowEnd];
    StatsAreBounds(cells, dt, b.stats);
    assert cells[r - b.rowStart] == rows[r];
    if !rows[r].Null? {
      assert Within(b.stats, cells[r - b.rowStart], dt);
      OutsideBoundsIsOutOfRange(b.stats, rows[r], lo, hi, dt);
    }
  }

  // ------------------------------------------------------------------
  // Row counts
  // ------------------------------------------------------------------

  /** `total_rows`: the sum of the block lengths. */
  function RowCount(blocks: seq<Block>): int {
    if blocks == [] then 0
    else RowCount(blocks[..|blocks| - 1]) + blocks[|blocks| - 1].rowEnd - blocks[|blocks| - 1].rowStart
  }

  lemma {:induction false} TilesCountRows(blocks: seq<Block>, n: nat)
    requires Tiles(blocks, n)
    ensures RowCount(blocks) == n
  {
    if blocks != [] { TilesCountRows(blocks[..|blocks| - 1], blocks[|blocks| - 1].rowStart); }
  }

  // ------------------------------------------------------------------
  // Layout
  // ------------------------------------------------------------------

  /** No cut lies strictly between `lo` and `hi`. */
  predicate Uncut(cuts: set<nat>, lo: nat, hi: nat) {
    forall c :: c in cuts ==> c <= lo || hi <= c
  }

  /** A block stays within one batch and is full unless it ends that batch. */
  predicate BlockPacked(b: Block, cuts: set<nat>) {
    Uncut(cuts, b.rowStart, b.rowEnd) && (b.rowEnd == b.rowStart + BLOCK_SIZE || b.rowEnd in cuts)
  }

  predicate AllPacked(blocks: seq<Block>, cuts: set<nat>) {
    forall i :: 0 <= i < |blocks| ==> BlockPacked(blocks[i], cuts)
  }

  /** So does a granule. */
  predicate GranulePacked(g: Granule, cuts: set<nat>) {
    && g.blocks != []
    && AllPacked(g.blocks, cuts)
    && Uncut(cuts, g.blocks[0].rowStart, g.blocks[|g.blocks| - 1].rowEnd)
    && (|g.blocks| == GRANULE_SIZE || g.blocks[|g.blocks| - 1].rowEnd in cuts)
  }

  predicate Packed(granules: seq<Granule>, cuts: set<nat>) {
    forall i :: 0 <= i < |granules| ==> GranulePacked(granules[i], cuts)
  }

  lemma AddBlock(blocks: seq<Block>, b: Block, cuts: set<nat>, lo: nat, hi: nat)
    requires AllPacked(blocks, cuts) && Uncut(cuts, lo, hi) && hi in cuts && lo <= b.rowStart && b.rowEnd <= hi
    requires b.rowEnd == b.rowStart + BLOCK_SIZE || b.rowEnd == hi
    ensures AllPacked(blocks + [b], cuts)
  {
  }

  /** Closing an open granule that is full or ends its batch. */
  lemma CloseGranule(granules: seq<Granule>, blocks: seq<Block>, cuts: set<nat>, lo: nat, hi: nat)
    requires GranuleShape(granules) && 1 <= |blocks| <= GRANULE_SIZE
    requires Packed(granules, cuts) && AllPacked(blocks, cuts) && Uncut(cuts, lo, hi) && hi in cuts
    requires lo <= blocks[0].rowStart && blocks[|blocks| - 1].rowEnd <= hi
    requires |blocks| == GRANULE_SIZE || blocks[|blocks| - 1].rowEnd == hi
    ensures Packed(granules + [Granule(|granules|, blocks)], cuts)
    ensures GranuleShape(granules + [Granule(|granules|, blocks)])
  {
    var g := Granule(|granules|, blocks);
    assert GranulePacked(g, cuts);
    hide GranulePacked;
  }

  lemma GranuleBlocks(granules: seq<Granule>, blocks: seq<Block>)
    ensures Blocks(granules + [Granule(|granules|, blocks)]) + [] == Blocks(granules) + blocks
  {
    assert (granules + [Granule(|granules|, blocks)])[..|granules|] == granules;
  }

  /** A later cut disturbs nothing that ends at or before it. */
  lemma LaterCut(granules: seq<Granule>, n: nat, cuts: set<nat>, c: nat)
    requires Tiles(Blocks(granules), n) && Packed(granules, cuts) && n <= c
    ensures Packed(granules, cuts + {c})
  {
    forall g | 0 <= g < |granules| ensures GranulePacked(granules[g], cuts + {c}) {
      assert GranulePacked(granules[g], cuts);
      forall j | 0 <= j < |granules[g].blocks|
        ensures granules[g].blocks[j].rowEnd <= n && BlockPacked(granules[g].blocks[j], cuts + {c})
      {
        GranuleBlockListed(granules, g, j);
        var i :| 0 <= i < |Blocks(granules)| && Blocks(granules)[i] == granules[g].blocks[j];
        EndsBelow(Blocks(granules), n, i);
        assert BlockPacked(granules[g].blocks[j], cuts);
      }
    }
  }

  /** The batch ends fix every block range: two packed indexes of the same rows have the same blocks. */
  lemma LayoutIsFixed(x: Index, y: Index, rows: seq<Cell>, cuts: set<nat>)
    requires IndexOf(x, rows) && IndexOf(y, rows) && Packed(x.granules, cuts) && Packed(y.granules, cuts)
    ensures |Blocks(x.granules)| == |Blocks(y.granules)|
    ensures forall i :: 0 <= i < |Blocks(x.granules)| ==>
              && Blocks(x.granules)[i].rowStart == Blocks(y.granules)[i].rowStart
              && Blocks(x.granules)[i].rowEnd == Blocks(y.granules)[i].rowEnd
  {
    var a, b := Blocks(x.granules), Blocks(y.granules);
    BlocksPacked(x.granules, cuts);
    BlocksPacked(y.granules, cuts);
    assert Tiles(a, |rows|) && Tiles(b, |rows|);
    hide IndexOf, Packed, AllPacked, Tiles;
    if |a| > 0 { PackedTilingUnique(a, b, |rows|, cuts, |a| - 1); }
    if |b| > 0 { PackedTilingUnique(b, a, |rows|, cuts, |b| - 1); }
    forall i | 0 <= i < |a| ensures a[i].rowStart == b[i].rowStart && a[i].rowEnd == b[i].rowEnd {
      PackedTilingUnique(a, b, |rows|, cuts, i);
    }
  }

  lemma {:induction false} BlocksPacked(granules: seq<Granule>, cuts: set<nat>)
    requires Packed(granules, cuts)
    ensures AllPacked(Blocks(granules), cuts)
  {
    if granules != [] {
      BlocksPacked(granules[..|granules| - 1], cuts);
      assert GranulePacked(granules[|granules| - 1], cuts);
    }
  }

  /** There is only one packed tiling. */
  lemma {:induction false} PackedTilingUnique(a: seq<Block>, b: seq<Block>, n: nat, cuts: set<nat>, i: nat)
    requires Tiles(a, n) && Tiles(b, n) && AllPacked(a, cuts) && AllPacked(b, cuts) && i < |a|
    ensures i < |b| && a[i].rowStart == b[i].rowStart && a[i].rowEnd == b[i].rowEnd
  {
    if i == 0 {
      assert BlockPacked(a[0], cuts) && BlockPacked(b[0], cuts);
    } else {
      PackedTilingUnique(a, b, n, cuts, i - 1);
      EndsBelow(a, n, i);
      assert BlockPacked(a[i], cuts) && BlockPacked(b[i], cuts);
    }
  }

  lemma {:induction false} EndsBelow(blocks: seq<Block>, n: nat, i: nat)
    requires Tiles(blocks, n) && i < |blocks|
    ensures blocks[i].rowEnd <= n
    decreases |blocks| - i
  {
    if i < |blocks| - 1 { EndsBelow(blocks, n, i + 1); }
  }

  // ------------------------------------------------------------------
  // The builder
  // ------------------------------------------------------------------

  /** The row counts at which a batch ends. */
  function Cuts(batches: seq<seq<Cell>>): set<nat> {
    if batches == [] then {0} else Cuts(batches[..|batches| - 1]) + {|Concat(batches)|}
  }

  /** The listed blocks tile and describe the flushed rows; `stats` describes the pending rows after them. */
  ghost predicate Accounted(rows: seq<Cell>, dt: ColumnType, blocks: seq<Block>, flushed: nat, pending: nat, stats: ColumnStats) {
    && WellTyped(rows, dt)
    && flushed + pending == |rows|
    && Tiles(blocks, flushed)
    && AllDescribe(blocks, rows, dt)
    && (pending == 0 ==> stats == NO_STATS)
    && (pending > 0 ==> StatsOf(rows[flushed..], dt, stats))
  }

  lemma NothingAccounted(dt: ColumnType)
    ensures Accounted([], dt, Blocks([]) + [], 0, 0, NO_STATS)
    ensures GranuleShape([]) && Packed([], {0}) && AllPacked([], {0}) && Uncut({0}, 0, 0)
  {
    hide StatsOf, Describes, GranulePacked, BlockPacked;
  }

  /** Flushing turns the pending rows into one more block. */
  lemma FlushAccounted(rows: seq<Cell>, dt: ColumnType, blocks: seq<Block>, flushed: nat, pending: nat, stats: ColumnStats)
    requires Accounted(rows, dt, blocks, flushed, pending, stats) && 0 < pending <= BLOCK_SIZE
    ensures Accounted(rows, dt, blocks + [Block(flushed, flushed + pending, stats)], flushed + pending, 0, NO_STATS)
  {
    var b := Block(flushed, flushed + pending, stats);
    assert rows[b.rowStart..b.rowEnd] == rows[flushed..];
    assert Describes(b, rows, dt);
  }

  /** New rows may join an empty block only: merging into NO_STATS is exact for every type. */
  lemma AddAccounted(rows: seq<Cell>, dt: ColumnType, blocks: seq<Block>, flushed: nat, cur: ColumnStats,
                     more: seq<Cell>, stats: ColumnStats)
    requires Accounted(rows, dt, blocks, flushed, 0, cur)
    requires WellTyped(more, dt) && more != [] && StatsOf(more, dt, stats)
    ensures Accounted(rows + more, dt, blocks, flushed, |more|, Merge(cur, stats))
  {
    assert (rows + more)[flushed..] == more;
    DescribesExtended(blocks, rows, more, dt);
  }

  predicate Bounded(cuts: set<nat>, n: nat) {
    forall c :: c in cuts ==> c <= n
  }

  class BlockZoneMapBuilder {
    const columnType: ColumnType
    var blockEndRow: nat
    var blocksFlushedRows: nat
    var pendingRows: nat
    var pendingBytes: nat
    var currentStats: ColumnStats
    var currentGranule: seq<Block>
    var completedGranules: seq<Granule>
    var blocksInGranule: nat

    /** Every row appended so far, in order. */
    ghost var rows: seq<Cell>

    /** The row counts at the ends of the batches, the one being appended included. */
    ghost var cuts: set<nat>
    ghost var batchStart: nat
    ghost var batchEnd: nat

    /** The blocks written so far are packed, and the open granule belongs to the current batch. */
    ghost predicate Layout()
      reads `cuts, `batchStart, `batchEnd, `blocksFlushedRows, `pendingRows, `completedGranules, `currentGranule
    {
      && batchEnd in cuts && Uncut(cuts, batchStart, batchEnd)
      && batchStart <= blocksFlushedRows <= blocksFlushedRows + pendingRows <= batchEnd
      && Packed(completedGranules, cuts)
      && AllPacked(currentGranule, cuts)
      && (currentGranule != [] ==>
            batchStart <= currentGranule[0].rowStart && currentGranule[|currentGranule| - 1].rowEnd == blocksFlushedRows)
    }

    /** Holds at every point of `append_batch`. */
    ghost predicate Building()
      reads this
    {
      && |rows| < U32
      && Layout()
      && blocksInGranule == |currentGranule| <= GRANULE_SIZE
      && pendingRows <= BLOCK_SIZE && pendingBytes == 8 * pendingRows
      && GranuleShape(completedGranules)
      && Accounted(rows, columnType, Blocks(completedGranules) + currentGranule, blocksFlushedRows, pendingRows, currentStats)
    }

    /** Holds between calls: `append_batch` leaves no pending row and no open granule. */
    ghost predicate Valid()
      reads this
    {
      Building() && pendingRows == 0 && currentGranule == [] && batchEnd == |rows| && Bounded(cuts, |rows|)
    }

    /** The batch in progress has been appended to its end, if not yet flushed. */
    ghost predicate Whole()
      reads this
    {
      Building() && blocksInGranule < GRANULE_SIZE && |rows| == batchEnd
    }

    lemma ValidIsWhole()
      requires Valid()
      ensures Whole()
    {
      hide Accounted, Layout;
    }

    constructor (columnType: ColumnType)
      ensures Valid() && rows == [] && cuts == {0} && this.columnType == columnType
    {
      hide Accounted, Packed, AllPacked, GranuleShape, Uncut, Blocks;
      NothingAccounted(columnType);
      this.columnType := columnType;
      blockEndRow, blocksFlushedRows, pendingRows, pendingBytes := 0, 0, 0, 0;
      currentStats, currentGranule, completedGranules, blocksInGranule := NO_STATS, [], [], 0;
      rows, cuts, batchStart, batchEnd := [], {0}, 0, 0;
    }

    method FlushBlock()
      requires Building() && blocksInGranule < GRANULE_SIZE
      requires pendingRows == 0 || pendingRows == BLOCK_SIZE || blocksFlushedRows + pendingRows == batchEnd
      modifies this
      ensures Building() && pendingRows == 0
      ensures blocksFlushedRows == old(blocksFlushedRows + pendingRows)
      ensures cuts == old(cuts) && batchStart == old(batchStart) && batchEnd == old(batchEnd)
      ensures rows == old(rows) && completedGranules == old(completedGranules)
      ensures blocksInGranule == old(blocksInGranule) + if old(pendingRows) == 0 then 0 else 1
    {
      hide Accounted, Packed, AllPacked, Uncut, GranuleShape, Blocks;
      if pendingRows == 0 { return; }
      var rowStart := blocksFlushedRows;
      var rowEnd := rowStart + pendingRows;
      var block := Block(rowStart, rowEnd, currentStats);
      FlushAccounted(rows, columnType, Blocks(completedGranules) + currentGranule, rowStart, pendingRows, currentStats);
      assert Blocks(completedGranules) + (currentGranule + [block]) == (Blocks(completedGranules) + currentGranule) + [block];
      AddBlock(currentGranule, block, cuts, batchStart, batchEnd);
      currentGranule := currentGranule + [block];
      blocksInGranule := blocksInGranule + 1;
      blocksFlushedRows := blocksFlushedRows + pendingRows;
      pendingRows, pendingBytes := 0, 0;
      currentStats := NO_STATS;
    }

    method FlushGranule()
      requires Building()
      requires blocksInGranule == 0 || blocksInGranule == GRANULE_SIZE || blocksFlushedRows == batchEnd
      modifies this
      ensures Building() && currentGranule == []
      ensures cuts == old(cuts) && batchStart == old(batchStart) && batchEnd == old(batchEnd)
      ensures blocksFlushedRows == old(blocksFlushedRows)
      ensures rows == old(rows) && pendingRows == old(pendingRows)
    {
      hide Accounted, Packed, BlockPacked, Uncut, GranuleShape, Blocks;
      if currentGranule == [] { return; }
      var granule := Granule(|completedGranules|, currentGranule);
      CloseGranule(completedGranules, currentGranule, cuts, batchStart, batchEnd);
      GranuleBlocks(completedGranules, currentGranule);
      completedGranules := completedGranules + [granule];
      currentGranule := [];
      blocksInGranule := 0;
    }

    /** Note where the batch of `n` rows about to be appended will end. */
    ghost method OpenBatch(n: nat)
      requires Valid()
      modifies `cuts, `batchStart, `batchEnd
      ensures Building() && blocksFlushedRows == batchStart == |rows| && batchEnd == |rows| + n && cuts == old(cuts) + {batchEnd}
    {
      hide AllDescribe, Packed;
      assert Blocks(completedGranules) + [] == Blocks(completedGranules);
      LaterCut(completedGranules, |rows|, cuts, |rows| + n);
      batchStart, batchEnd := |rows|, |rows| + n;
      cuts := cuts + {batchEnd};
    }

    /** The start of the loop body (lines 684-692): a full block is flushed, and then a full granule. */
    method MakeRoom()
      requires Building() && blocksInGranule < GRANULE_SIZE && (pendingRows == 0 || pendingRows == BLOCK_SIZE)
      modifies this
      ensures Building() && blocksInGranule < GRANULE_SIZE && pendingRows == 0
      ensures rows == old(rows) && blocksFlushedRows == old(blocksFlushedRows + pendingRows)
      ensures cuts == old(cuts) && batchStart == old(batchStart) && batchEnd == old(batchEnd)
    {
      hide Accounted, Layout;
      if pendingRows >= BLOCK_SIZE || pendingBytes >= MAX_BYTES_PER_BLOCK {
        FlushBlock();
        if blocksInGranule >= GRANULE_SIZE { FlushGranule(); }
      }
    }

    method AppendColumn(col: seq<Cell>) returns (rowsConsumed: nat)
      requires Valid() && WellTyped(col, columnType) && |rows| + |col| < U32
      modifies this
      ensures Building() && rows == old(rows) + col && rowsConsumed == |col|
      ensures blocksInGranule < GRANULE_SIZE
      ensures blocksFlushedRows + pendingRows == batchEnd == |rows| && cuts == old(cuts) + {batchEnd}
    {
      hide Accounted, Layout, GranuleShape;
      OpenBatch(|col|);
      var passEndRow := 0;
      rowsConsumed := 0;
      assert old(rows) + col[..0] == old(rows);
      while rowsConsumed < |col|
        invariant Building() && rowsConsumed <= |col| && rows == old(rows) + col[..rowsConsumed]
        invariant blocksInGranule < GRANULE_SIZE
        invariant blocksFlushedRows + pendingRows == |rows|
        invariant batchEnd == |old(rows)| + |col| && cuts == old(cuts) + {batchEnd}
        // A block that is neither empty nor full can only be the last one: no merge ever meets earlier statistics.
        invariant rowsConsumed < |col| ==> pendingRows == 0 || pendingRows == BLOCK_SIZE
      {
        MakeRoom();
        var rowsLeft := BLOCK_SIZE - pendingRows;
        var bytesLeft := if pendingBytes <= MAX_BYTES_PER_BLOCK then MAX_BYTES_PER_BLOCK - pendingBytes else 0;
        var rowsCanAdd := Min(Min((|col| - rowsConsumed) % U32, rowsLeft), Max(bytesLeft / 8, 1) % U32);
        if rowsCanAdd == 0 {
          assert false;
        } else {
          AddSlice(col, rowsConsumed, rowsCanAdd);
          passEndRow := passEndRow + rowsCanAdd;
          rowsConsumed := rowsConsumed + rowsCanAdd;
        }
      }
      blockEndRow := Max(blockEndRow, passEndRow);
      assert col[..rowsConsumed] == col;
    }

    /** The loop body's merge of col[offset..offset + n] (lines 712-717), which only ever meets an empty block. */
    method AddSlice(col: seq<Cell>, offset: nat, n: nat)
      requires Building() && pendingRows == 0 && WellTyped(col, columnType)
      requires offset + n <= |col| && 0 < n <= BLOCK_SIZE && |rows| + n < U32 && blocksFlushedRows + n <= batchEnd
      modifies this`rows, this`currentStats, this`pendingRows, this`pendingBytes
      ensures Building() && pendingRows == n && rows == old(rows) + col[offset..offset + n]
    {
      hide Accounted;
      var sliceStats := ComputeBlockStats(col, columnType, offset, n);
      AddAccounted(rows, columnType, Blocks(completedGranules) + currentGranule, blocksFlushedRows, currentStats,
                   Slice(col, offset, n), sliceStats);
      rows := rows + Slice(col, offset, n);
      currentStats := Merge(currentStats, sliceStats);
      pendingRows := pendingRows + n;
      pendingBytes := pendingBytes + n * 8;
    }

    /** `append_batch` (src/metadata/block_zone_map.rs:666). */
    method AppendBatch(col: seq<Cell>) returns (rowsConsumed: nat)
      requires Valid() && WellTyped(col, columnType) && |rows| + |col| < U32
      modifies this
      ensures Valid() && rows == old(rows) + col && rowsConsumed == |col| && cuts == old(cuts) + {|rows|}
    {
      hide Accounted, Packed, AllPacked, Uncut;
      rowsConsumed := AppendColumn(col);
      if pendingRows > 0 { FlushBlock(); }
      FlushGranule();
    }

    /** `finalize` (src/metadata/block_zone_map.rs:780). */
    method Finalize() returns (index: Index)
      requires Whole()
      modifies this
      ensures index.columnType == columnType && IndexOf(index, old(rows)) && Packed(index.granules, old(cuts))
    {
      hide Packed, AllPacked, Uncut;
      assert blocksFlushedRows + pendingRows == |rows|;
      if pendingRows > 0 { FlushBlock(); }
      if currentGranule != [] || blocksInGranule > 0 { FlushGranule(); }
      assert Blocks(completedGranules) + [] == Blocks(completedGranules);
      index := Index(columnType, completedGranules);
    }
  }

  lemma DescribesExtended(blocks: seq<Block>, rows: seq<Cell>, more: seq<Cell>, dt: ColumnType)
    requires WellTyped(rows, dt) && WellTyped(more, dt) && AllDescribe(blocks, rows, dt)
    ensures WellTyped(rows + more, dt) && AllDescribe(blocks, rows + more, dt)
  {
    forall i | 0 <= i < |blocks| ensures Describes(blocks[i], rows + more, dt) {
      var b := blocks[i];
      assert Describes(b, rows, dt);
      assert (rows + more)[b.rowStart..b.rowEnd] == rows[b.rowStart..b.rowEnd];
    }
  }

  /**
   Build the index of a column from any list of batches: the result tiles and describes exactly the
   appended rows, its blocks and granules are packed between the batch ends, its total row count is theirs, and whatever it prunes a full scan would not find.
   */
  method BuildIndex(batches: seq<seq<Cell>>, dt: ColumnType) returns (index: Index)
    requires forall i :: 0 <= i < |batches| ==> WellTyped(batches[i], dt)
    requires |Concat(batches)| < U32
    ensures index.columnType == dt && IndexOf(index, Concat(batches))
    ensures Packed(index.granules, Cuts(batches))
    ensures RowCount(Blocks(index.granules)) == |Concat(batches)|
    ensures ReadableIndex(index)
    ensures forall lo, hi :: Readable(lo, dt) && Readable(hi, dt) && !MayOverlap(index, lo, hi)
                             ==> forall r :: 0 <= r < |Concat(batches)| ==> !InRange(Concat(batches)[r], lo, hi, dt)
    ensures forall lo, hi :: Readable(lo, dt) && Readable(hi, dt)
                             ==> (MayOverlap(index, lo, hi) <==> RowsMayMatch(index, Concat(batches), lo, hi))
  {
    hide *;
    var builder := new BlockZoneMapBuilder(dt);
    NoBatches(batches);
    for i := 0 to |batches|
      invariant fresh(builder) && builder.Valid() && builder.columnType == dt
      invariant builder.rows == Concat(batches[..i]) && builder.cuts == Cuts(batches[..i])
    {
      OneMoreBatch(batches, i);
      var _ := builder.AppendBatch(batches[i]);
    }
    assert batches[..|batches|] == batches;
    builder.ValidIsWhole();
    index := builder.Finalize();
    IndexFacts(index, Concat(batches));
  }

  /** All that follows from an index describing its rows. */
  lemma IndexFacts(index: Index, rows: seq<Cell>)
    requires IndexOf(index, rows)
    ensures RowCount(Blocks(index.granules)) == |rows| && ReadableIndex(index)
    ensures forall lo, hi :: Readable(lo, index.columnType) && Readable(hi, index.columnType) && !MayOverlap(index, lo, hi)
                             ==> forall r :: 0 <= r < |rows| ==> !InRange(rows[r], lo, hi, index.columnType)
    ensures forall lo, hi :: Readable(lo, index.columnType) && Readable(hi, index.columnType)
                             ==> (MayOverlap(index, lo, hi) <==> RowsMayMatch(index, rows, lo, hi))
  {
    TilesCountRows(Blocks(index.granules), |rows|);
    IndexIsReadable(index, rows);
    hide MayOverlap, Readable, InRange, IndexOf;
    forall lo, hi | Readable(lo, index.columnType) && Readable(hi, index.columnType) && !MayOverlap(index, lo, hi)
      ensures forall r :: 0 <= r < |rows| ==> !InRange(rows[r], lo, hi, index.columnType)
    {
      PruningIsSound(index, rows, lo, hi);
    }
    hide RowsMayMatch;
    forall lo, hi | Readable(lo, index.columnType) && Readable(hi, index.columnType)
      ensures MayOverlap(index, lo, hi) <==> RowsMayMatch(index, rows, lo, hi)
    {
      OverlapIff(index, rows, lo, hi);
    }
  }

  lemma NoBatches(batches: seq<seq<Cell>>)
    ensures Concat(batches[..0]) == [] && Cuts(batches[..0]) == {0}
  {
  }

  lemma OneMoreBatch(batches: seq<seq<Cell>>, i: nat)
    requires i < |batches|
    ensures Concat(batches[..i + 1]) == Concat(batches[..i]) + batches[i]
    ensures Cuts(batches[..i + 1]) == Cuts(batches[..i]) + {|Concat(batches[..i + 1])|}
    ensures |Concat(batches[..i])| + |batches[i]| <= |Concat(batches)|
  {
    assert batches[..i + 1][..i] == batches[..i];
    ConcatPrefix(batches, i + 1);
  }

  lemma {:induction false} ConcatPrefix(batches: seq<seq<Cell>>, i: nat)
    requires i <= |batches|
    ensures |Concat(batches[..i])| <= |Concat(batches)|
    decreases |batches|
  {
    if i < |batches| {
      var init := batches[..|batches| - 1];
      ConcatPrefix(init, i);
      assert init[..i] == batches[..i];
    } else {
      assert batches[..i] == batches;
    }
  }
}
