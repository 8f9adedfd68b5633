/**
 The batch loop of `compact_segment` (src/compaction/pdt_merge.rs:226-351): drop the
 invisible rows of every column and of the visibility file.
 */
module PdtMerge {
  import opened Bytes
  import opened Common
  import opened Masks
  import opened Visibility

  /** One batch of the visibility file; `tagged` if its schema carries the two shadow columns by name. */
  datatype VisBatch = VisBatch(created: seq<int>, deleted: seq<int>, tagged: bool)

  /** The batches of every user column, and the visibility batches, of which there may be fewer. */
  datatype Segment = Segment(cols: seq<seq<seq<int>>>, vis: seq<VisBatch>)

  type Filter = (nat, Option<nat>) -> bool

  /** Batches of all files line up row by row. */
  predicate Aligned(seg: Segment) {
    && seg.cols != []
    && (forall c :: 0 <= c < |seg.cols| ==> SameShape(seg.cols[c], seg.cols[0]))
    && (forall b :: 0 <= b < |seg.vis| && b < |seg.cols[0]| ==>
          |seg.vis[b].created| == |seg.vis[b].deleted| == |seg.cols[0][b]| && AllI64(seg.vis[b].created) && AllI64(seg.vis[b].deleted))
  }

  function DeletedTxn(raw: int): Option<nat>
    requires IsI64(raw)
  {
    if AsU64(raw) == NOT_DELETED then None else Some(AsU64(raw))
  }

  // ------------------------------------------------------------------
  // Rows of a batch
  // ------------------------------------------------------------------

  /** The visibility values the output gets for a batch: the old ones, or 0 and NOT_DELETED for a segment without them. */
  function VisOf(seg: Segment, b: nat): VisBatch
    requires Aligned(seg) && b < |seg.cols[0]|
  {
    if b < |seg.vis| then seg.vis[b]
    else
      var n := |seg.cols[0][b]|;
      VisBatch(seq(n, _ => 0), seq(n, _ => AsI64(NOT_DELETED)), false)
  }

  predicate Alive(seg: Segment, visible: Filter, b: nat, i: nat)
    requires Aligned(seg) && b < |seg.cols[0]| && i < |seg.cols[0][b]|
  {
    b < |seg.vis| && seg.vis[b].tagged ==>
      visible(AsU64(seg.vis[b].created[i]), DeletedTxn(seg.vis[b].deleted[i]))
  }

  function BatchMask(seg: Segment, visible: Filter, b: nat): seq<bool>
    requires Aligned(seg) && b < |seg.cols[0]|
  {
    seq(|seg.cols[0][b]|, i requires 0 <= i < |seg.cols[0][b]| => Alive(seg, visible, b, i))
  }

  function MasksOf(seg: Segment, visible: Filter): seq<seq<bool>>
    requires Aligned(seg)
  {
    seq(|seg.cols[0]|, b requires 0 <= b < |seg.cols[0]| => BatchMask(seg, visible, b))
  }

  function CreatedBatches(seg: Segment): seq<seq<int>>
    requires Aligned(seg)
  {
    seq(|seg.cols[0]|, b requires 0 <= b < |seg.cols[0]| => VisOf(seg, b).created)
  }

  function DeletedBatches(seg: Segment): seq<seq<int>>
    requires Aligned(seg)
  {
    seq(|seg.cols[0]|, b requires 0 <= b < |seg.cols[0]| => VisOf(seg, b).deleted)
  }

  /** The selection over the whole segment. */
  function FullMask(seg: Segment, visible: Filter): seq<bool>
    requires Aligned(seg)
  {
    Concat(MasksOf(seg, visible))
  }

  // ------------------------------------------------------------------
  // What is written
  // ------------------------------------------------------------------

  datatype Output = Output(cols: seq<seq<seq<int>>>, created: seq<seq<int>>, deleted: seq<seq<int>>)

  predicate AnyAlive(mask: seq<bool>) {
    exists i :: 0 <= i < |mask| && mask[i]
  }

  lemma {:induction false} KeptIffAlive<T>(col: seq<T>, mask: seq<bool>)
    requires |col| == |mask|
    ensures Keep(col, mask) != [] <==> AnyAlive(mask)
    decreases |col|
  {
    if col != [] {
      var n := |col| - 1;
      KeptIffAlive(col[..n], mask[..n]);
      if i :| 0 <= i < n && mask[..n][i] { assert mask[i]; }
      if i :| 0 <= i < n && mask[i] { assert mask[..n][i]; }
    }
  }

  /** The kept rows batch by batch, without the batches that keep none. */
  function KeptBatches<T>(batches: seq<seq<T>>, masks: seq<seq<bool>>): seq<seq<T>>
    requires SameShape(batches, masks)
  {
    if batches == [] then []
    else
      var n := |batches| - 1;
      KeptBatches(batches[..n], masks[..n]) + if AnyAlive(masks[n]) then [Keep(batches[n], masks[n])] else []
  }

  predicate SomeKept(masks: seq<seq<bool>>) {
    exists b :: 0 <= b < |masks| && AnyAlive(masks[b])
  }

  /** The output files after the first `k` batches; no writer exists while no row has survived. */
  ghost function OutputUpTo(seg: Segment, masks: seq<seq<bool>>, k: nat): Output
    requires Aligned(seg) && SameShape(seg.cols[0], masks) && k <= |masks|
  {
    Output(
      if SomeKept(masks[..k]) then seq(|seg.cols|, c requires 0 <= c < |seg.cols| => KeptBatches(seg.cols[c][..k], masks[..k])) else [],
      KeptBatches(CreatedBatches(seg)[..k], masks[..k]),
      KeptBatches(DeletedBatches(seg)[..k], masks[..k]))
  }

  ghost function OutputOf(seg: Segment, visible: Filter): Output
    requires Aligned(seg)
  {
    OutputUpTo(seg, MasksOf(seg, visible), |seg.cols[0]|)
  }

  lemma KeptStep<T>(batches: seq<seq<T>>, masks: seq<seq<bool>>, k: nat)
    requires k < |batches| == |masks| && SameShape(batches[..k], masks[..k]) && |batches[k]| == |masks[k]|
    ensures SameShape(batches[..k + 1], masks[..k + 1])
    ensures KeptBatches(batches[..k + 1], masks[..k + 1]) ==
            if AnyAlive(masks[k]) then KeptBatches(batches[..k], masks[..k]) + [Keep(batches[k], masks[k])]
            else KeptBatches(batches[..k], masks[..k])
  {
    assert batches[..k + 1][..k] == batches[..k] && masks[..k + 1][..k] == masks[..k];
  }

  lemma SomeKeptStep(masks: seq<seq<bool>>, k: nat)
    requires k < |masks|
    ensures SomeKept(masks[..k + 1]) <==> SomeKept(masks[..k]) || AnyAlive(masks[k])
  {
    assert masks[..k + 1] == masks[..k] + [masks[k]];
    if SomeKept(masks[..k]) {
      var b :| 0 <= b < k && AnyAlive(masks[..k][b]);
      assert AnyAlive(masks[..k + 1][b]);
    } else if AnyAlive(masks[k]) {
      assert AnyAlive(masks[..k + 1][k]);
    }
  }

  lemma {:induction false} NoneKept<T>(batches: seq<seq<T>>, masks: seq<seq<bool>>)
    requires SameShape(batches, masks)
    ensures !SomeKept(masks) ==> KeptBatches(batches, masks) == []
    decreases |batches|
  {
    if batches != [] {
      var n := |batches| - 1;
      NoneKept(batches[..n], masks[..n]);
      SomeKeptStep(masks, n);
      assert masks[..n + 1] == masks;
    }
  }

  // ------------------------------------------------------------------
  // The loop
  // ------------------------------------------------------------------

  method BuildMask(seg: Segment, visible: Filter, b: nat) returns (mask: seq<bool>)
    requires Aligned(seg) && b < |seg.cols[0]|
    ensures mask == BatchMask(seg, visible, b)
  {
    mask := [];
    for i := 0 to |seg.cols[0][b]|
      invariant mask == BatchMask(seg, visible, b)[..i]
    {
      var alive := true;
      if b < |seg.vis| && seg.vis[b].tagged {
        alive := visible(AsU64(seg.vis[b].created[i]), DeletedTxn(seg.vis[b].deleted[i]));
      }
      mask := mask + [alive];
    }
  }

  /** The loops that copy the visibility values of the surviving rows (lines 272-301). */
  method CopyAlive(col: seq<int>, mask: seq<bool>) returns (r: seq<int>)
    requires |col| == |mask|
    ensures r == Keep(col, mask)
  {
    r := [];
    for i := 0 to |mask|
      invariant r == Keep(col[..i], mask[..i])
    {
      assert col[..i + 1][..i] == col[..i] && mask[..i + 1][..i] == mask[..i];
      if mask[i] { r := r + [col[i]]; }
    }
    assert col[..|mask|] == col && mask[..|mask|] == mask;
  }

  /** The per-column writers (lines 312-343): a writer is created on the first batch that survives. */
  method WriteColumns(seg: Segment, b: nat, mask: seq<bool>, writers: seq<seq<seq<int>>>) returns (w: seq<seq<seq<int>>>)
    requires Aligned(seg) && b < |seg.cols[0]| && |mask| == |seg.cols[0][b]| && AnyAlive(mask)
    requires |writers| == 0 || |writers| == |seg.cols|
    ensures |w| == |seg.cols|
    ensures forall c :: 0 <= c < |seg.cols| ==>
              |seg.cols[c]| == |seg.cols[0]| && |seg.cols[c][b]| == |mask|
              && w[c] == (if c < |writers| then writers[c] else []) + [Keep(seg.cols[c][b], mask)]
  {
    w := writers;
    for c := 0 to |seg.cols|
      invariant |w| == if |writers| == 0 then c else |seg.cols|
      invariant forall j :: 0 <= j < c ==>
                  |seg.cols[j]| == |seg.cols[0]| && |seg.cols[j][b]| == |mask|
                  && w[j] == (if j < |writers| then writers[j] else []) + [Keep(seg.cols[j][b], mask)]
      invariant forall j :: c <= j < |w| ==> w[j] == writers[j]
    {
      assert SameShape(seg.cols[c], seg.cols[0]);
      var filtered := Keep(seg.cols[c][b], mask);
      KeptIffAlive(seg.cols[c][b], mask);
      if |filtered| > 0 {
        if |w| <= c { w := w + [[]]; }
        w := w[c := w[c] + [filtered]];
      }
    }
  }

  /** The batch loop of `compact_segment`. */
  method CompactBatches(seg: Segment, visible: Filter) returns (out: Output)
    requires Aligned(seg)
    ensures out == OutputOf(seg, visible)
  {
    hide OutputUpTo, Alive, KeptBatches, SomeKept;
    ghost var masks := MasksOf(seg, visible);
    out := Output([], [], []);
    NothingWritten(seg, masks);
    for b := 0 to |seg.cols[0]|
      invariant out == OutputUpTo(seg, masks, b)
      invariant |out.cols| == 0 || |out.cols| == |seg.cols|
    {
      var mask := BuildMask(seg, visible, b);
      assert masks[b] == mask;
      OutputStep(seg, masks, b);
      if !AnyAlive(mask) { continue; }
      var vis := VisOf(seg, b);
      var created := CopyAlive(vis.created, mask);
      var deleted := CopyAlive(vis.deleted, mask);
      var cols := WriteColumns(seg, b, mask, out.cols);
      ghost var before := out;
      out := Output(cols, out.created + [created], out.deleted + [deleted]);
      ghost var next := OutputUpTo(seg, masks, b + 1);
      assert forall c :: 0 <= c < |seg.cols| ==> next.cols[c] == cols[c];
      assert next.cols == cols;
    }
  }

  lemma NothingWritten(seg: Segment, masks: seq<seq<bool>>)
    requires Aligned(seg) && SameShape(seg.cols[0], masks)
    ensures OutputUpTo(seg, masks, 0) == Output([], [], [])
  {
  }

  /** What one more batch adds. */
  lemma OutputStep(seg: Segment, masks: seq<seq<bool>>, b: nat)
    requires Aligned(seg) && SameShape(seg.cols[0], masks) && b < |masks|
    ensures |VisOf(seg, b).created| == |VisOf(seg, b).deleted| == |masks[b]|
    ensures forall c :: 0 <= c < |seg.cols| ==> |seg.cols[c]| == |masks| && |seg.cols[c][b]| == |masks[b]|
    ensures var old_, new_ := OutputUpTo(seg, masks, b), OutputUpTo(seg, masks, b + 1);
            if AnyAlive(masks[b]) then
              && |new_.cols| == |seg.cols|
              && (forall c :: 0 <= c < |seg.cols| ==>
                    new_.cols[c] == (if c < |old_.cols| then old_.cols[c] else []) + [Keep(seg.cols[c][b], masks[b])])
              && new_.created == old_.created + [Keep(VisOf(seg, b).created, masks[b])]
              && new_.deleted == old_.deleted + [Keep(VisOf(seg, b).deleted, masks[b])]
            else new_ == old_
  {
    hide KeptBatches, SomeKept, Keep, AnyAlive;
    SomeKeptStep(masks, b);
    KeptStep(CreatedBatches(seg), masks, b);
    KeptStep(DeletedBatches(seg), masks, b);
    forall c | 0 <= c < |seg.cols|
      ensures KeptBatches(seg.cols[c][..b + 1], masks[..b + 1]) ==
              if AnyAlive(masks[b]) then KeptBatches(seg.cols[c][..b], masks[..b]) + [Keep(seg.cols[c][b], masks[b])]
              else KeptBatches(seg.cols[c][..b], masks[..b])
      ensures !SomeKept(masks[..b]) ==> KeptBatches(seg.cols[c][..b], masks[..b]) == []
    {
      KeptStep(seg.cols[c], masks, b);
      NoneKept(seg.cols[c][..b], masks[..b]);
    }
    if !AnyAlive(masks[b]) {
      assert OutputUpTo(seg, masks, b + 1).cols == OutputUpTo(seg, masks, b).cols;
    }
  }

  // ------------------------------------------------------------------
  // Rows stay together
  // ------------------------------------------------------------------

  /** All rows written for column `c`. */
  function Written(out: Output, c: nat): seq<int> {
    if c < |out.cols| then Concat(out.cols[c]) else []
  }

  lemma {:induction false} ConcatKept<T>(batches: seq<seq<T>>, masks: seq<seq<bool>>)
    requires SameShape(batches, masks)
    ensures |Concat(batches)| == |Concat(masks)|
    ensures Concat(KeptBatches(batches, masks)) == Keep(Concat(batches), Concat(masks))
    decreases |batches|
  {
    KeepBatchesIsKeep(batches, masks);
    if batches != [] {
      var n := |batches| - 1;
      assert batches[..n + 1] == batches && masks[..n + 1] == masks;
      KeptStep(batches, masks, n);
      ConcatKept(batches[..n], masks[..n]);
      KeepBatchesIsKeep(batches[..n], masks[..n]);
      KeptIffAlive(batches[n], masks[n]);
    }
  }

  /** The whole files, over the whole selection. */
  lemma OutputFiles(seg: Segment, visible: Filter)
    requires Aligned(seg)
    ensures var masks, out := MasksOf(seg, visible), OutputOf(seg, visible);
            && SameShape(CreatedBatches(seg), masks) && out.created == KeptBatches(CreatedBatches(seg), masks)
            && SameShape(DeletedBatches(seg), masks) && out.deleted == KeptBatches(DeletedBatches(seg), masks)
            && |out.cols| == (if SomeKept(masks) then |seg.cols| else 0)
            && forall c :: 0 <= c < |seg.cols| ==>
                 SameShape(seg.cols[c], masks) && (if c < |out.cols| then out.cols[c] else []) == KeptBatches(seg.cols[c], masks)
  {
    hide KeptBatches, SomeKept;
    var masks, n := MasksOf(seg, visible), |seg.cols[0]|;
    assert masks[..n] == masks && CreatedBatches(seg)[..n] == CreatedBatches(seg) && DeletedBatches(seg)[..n] == DeletedBatches(seg);
    forall c | 0 <= c < |seg.cols|
      ensures SameShape(seg.cols[c], masks) && seg.cols[c][..n] == seg.cols[c] && (!SomeKept(masks) ==> KeptBatches(seg.cols[c], masks) == [])
    {
      assert seg.cols[c][..n] == seg.cols[c];
      NoneKept(seg.cols[c], masks);
    }
  }

  /**
   Output row k of every column and of both visibility columns is the same input row: the one at the
   k-th surviving position.
   */
  lemma RowsStayAligned(seg: Segment, visible: Filter, k: nat)
    requires Aligned(seg) && k < |Positions(FullMask(seg, visible))|
    ensures var out := OutputOf(seg, visible);
            var p := Positions(FullMask(seg, visible))[k];
            && (forall c :: 0 <= c < |seg.cols| ==>
                  (|Written(out, c)| == |Positions(FullMask(seg, visible))|
                   && p < |Concat(seg.cols[c])| && Written(out, c)[k] == Concat(seg.cols[c])[p]))
            && |Concat(out.created)| == |Concat(out.deleted)| == |Positions(FullMask(seg, visible))|
            && p < |Concat(CreatedBatches(seg))| && Concat(out.created)[k] == Concat(CreatedBatches(seg))[p]
            && p < |Concat(DeletedBatches(seg))| && Concat(out.deleted)[k] == Concat(DeletedBatches(seg))[p]
  {
    hide OutputOf, KeptBatches, MasksOf, Keep, Positions;
    var masks := MasksOf(seg, visible);
    OutputFiles(seg, visible);
    forall c | 0 <= c < |seg.cols|
      ensures |Written(OutputOf(seg, visible), c)| == |Positions(Concat(masks))|
      ensures Positions(Concat(masks))[k] < |Concat(seg.cols[c])|
      ensures Written(OutputOf(seg, visible), c)[k] == Concat(seg.cols[c])[Positions(Concat(masks))[k]]
    {
      ConcatKept(seg.cols[c], masks);
      KeepAt(Concat(seg.cols[c]), Concat(masks));
    }
    ConcatKept(CreatedBatches(seg), masks);
    KeepAt(Concat(CreatedBatches(seg)), Concat(masks));
    ConcatKept(DeletedBatches(seg), masks);
    KeepAt(Concat(DeletedBatches(seg)), Concat(masks));
  }

  // ------------------------------------------------------------------
  // Compacting the output again
  // ------------------------------------------------------------------

  predicate Passes(visible: Filter, created: int, deleted: int) {
    IsI64(created) && IsI64(deleted) && visible(AsU64(created), DeletedTxn(deleted))
  }

  predicate Tagged(seg: Segment, b: nat) {
    b < |seg.vis| && seg.vis[b].tagged
  }

  /** The visibility values written for the row, if it is kept, pass the filter. */
  predicate PassesAgain(seg: Segment, visible: Filter, b: nat, i: nat)
    requires Aligned(seg) && b < |seg.cols[0]| && i < |seg.cols[0][b]|
  {
    |VisOf(seg, b).created| == |VisOf(seg, b).deleted| == |seg.cols[0][b]| && Passes(visible, VisOf(seg, b).created[i], VisOf(seg, b).deleted[i])
  }

  /**
   A row with named visibility columns passes again if and only if it passed.  Any other row is kept the first
   time; what is written for it is (0, not deleted) if it has no visibility batch, and otherwise the two
   columns of that batch whatever their names.
   */
  lemma SecondPass(seg: Segment, visible: Filter, b: nat, i: nat)
    requires Aligned(seg) && b < |seg.cols[0]| && i < |seg.cols[0][b]|
    ensures Tagged(seg, b) ==> (Alive(seg, visible, b, i) <==> PassesAgain(seg, visible, b, i))
    ensures !Tagged(seg, b) ==> Alive(seg, visible, b, i)
    ensures b >= |seg.vis| ==> (PassesAgain(seg, visible, b, i) <==> visible(0, None))
    ensures b < |seg.vis| ==>
              (PassesAgain(seg, visible, b, i) <==> visible(AsU64(seg.vis[b].created[i]), DeletedTxn(seg.vis[b].deleted[i])))
  {
  }

  /** The files that were written, read back as a segment; the visibility file has the named columns. */
  function OutputSegment(out: Output): Segment
    requires |out.created| == |out.deleted|
  {
    Segment(out.cols, seq(|out.created|, b requires 0 <= b < |out.created| => VisBatch(out.created[b], out.deleted[b], true)))
  }

  lemma {:induction false} KeptShape<A, B>(x: seq<seq<A>>, y: seq<seq<B>>, masks: seq<seq<bool>>)
    requires SameShape(x, masks) && SameShape(y, masks)
    ensures SameShape(KeptBatches(x, masks), KeptBatches(y, masks))
    decreases |masks|
  {
    if masks != [] {
      var n := |masks| - 1;
      KeptShape(x[..n], y[..n], masks[..n]);
      KeepAt(x[n], masks[n]);
      KeepAt(y[n], masks[n]);
    }
  }

  predicate Nonempty<T>(batches: seq<seq<T>>) {
    forall b :: 0 <= b < |batches| ==> batches[b] != []
  }

  lemma {:induction false} KeptNonempty<T>(x: seq<seq<T>>, masks: seq<seq<bool>>)
    requires SameShape(x, masks)
    ensures Nonempty(KeptBatches(x, masks)) && |KeptBatches(x, masks)| <= |x|
    ensures SomeKept(masks) <==> KeptBatches(x, masks) != []
    decreases |masks|
  {
    NoneKept(x, masks);
    if masks != [] {
      var n := |masks| - 1;
      KeptNonempty(x[..n], masks[..n]);
      KeptIffAlive(x[n], masks[n]);
      SomeKeptStep(masks, n);
      assert masks[..n + 1] == masks;
    }
  }

  predicate I64Batches(batches: seq<seq<int>>) {
    forall b :: 0 <= b < |batches| ==> AllI64(batches[b])
  }

  lemma {:induction false} KeptI64(x: seq<seq<int>>, masks: seq<seq<bool>>)
    requires SameShape(x, masks) && I64Batches(x)
    ensures I64Batches(KeptBatches(x, masks))
    decreases |masks|
  {
    if masks != [] {
      var n := |masks| - 1;
      KeptI64(x[..n], masks[..n]);
      KeepAt(x[n], masks[n]);
      assert AllI64(x[n]);
    }
  }

  lemma OutputAligned(seg: Segment, visible: Filter)
    requires Aligned(seg) && OutputOf(seg, visible).cols != []
    ensures var out := OutputOf(seg, visible);
            && |out.created| == |out.deleted| && Aligned(OutputSegment(out))
            && SameShape(out.created, out.cols[0]) && SameShape(out.deleted, out.cols[0]) && Nonempty(out.cols[0])
  {
    hide OutputOf, MasksOf, KeptBatches;
    var masks, out := MasksOf(seg, visible), OutputOf(seg, visible);
    OutputFiles(seg, visible);
    assert SameShape(seg.cols[0], masks) && out.cols[0] == KeptBatches(seg.cols[0], masks);
    forall c | 0 <= c < |out.cols| ensures SameShape(out.cols[c], out.cols[0]) {
      assert SameShape(seg.cols[c], masks) && out.cols[c] == KeptBatches(seg.cols[c], masks);
      KeptShape(seg.cols[c], seg.cols[0], masks);
    }
    KeptShape(CreatedBatches(seg), seg.cols[0], masks);
    KeptShape(DeletedBatches(seg), seg.cols[0], masks);
    KeptNonempty(seg.cols[0], masks);
    KeptI64(CreatedBatches(seg), masks);
    KeptI64(DeletedBatches(seg), masks);
  }

  predicate AllTrue(masks: seq<seq<bool>>) {
    forall b, i :: 0 <= b < |masks| && 0 <= i < |masks[b]| ==> masks[b][i]
  }

  lemma {:induction false} KeepCount<T>(col: seq<T>, mask: seq<bool>)
    requires |col| == |mask|
    ensures |Keep(col, mask)| <= |col|
    ensures |Keep(col, mask)| == |col| <==> forall i :: 0 <= i < |mask| ==> mask[i]
    ensures |Keep(col, mask)| == |col| ==> Keep(col, mask) == col
    decreases |col|
  {
    if col != [] {
      var n := |col| - 1;
      KeepCount(col[..n], mask[..n]);
      if forall i :: 0 <= i < n ==> mask[..n][i] { assert forall i :: 0 <= i < n ==> mask[i] == mask[..n][i]; }
      assert col == col[..n] + [col[n]] && mask == mask[..n] + [mask[n]];
    }
  }

  /** Nothing is lost exactly when every row is selected. */
  lemma {:induction false} KeptAllIff<T>(batches: seq<seq<T>>, masks: seq<seq<bool>>)
    requires SameShape(batches, masks) && Nonempty(batches)
    ensures |Concat(KeptBatches(batches, masks))| <= |Concat(batches)|
    ensures |Concat(KeptBatches(batches, masks))| == |Concat(batches)| <==> AllTrue(masks)
    ensures AllTrue(masks) ==> KeptBatches(batches, masks) == batches
    decreases |masks|
  {
    if masks != [] {
      hide AllTrue, Concat, Keep, AnyAlive, KeptBatches;
      var n := |masks| - 1;
      KeptAllIff(batches[..n], masks[..n]);
      KeepCount(batches[n], masks[n]);
      LengthStep(batches, masks);
      AllTrueStep(masks);
      assert batches == batches[..n] + [batches[n]];
    }
  }

  lemma LengthStep<T>(batches: seq<seq<T>>, masks: seq<seq<bool>>)
    requires SameShape(batches, masks) && masks != []
    ensures var n := |masks| - 1;
            var x, m, last := batches[..n], masks[..n], Keep(batches[n], masks[n]);
            && |Concat(KeptBatches(batches, masks))| == |Concat(KeptBatches(x, m))| + |last|
            && |Concat(batches)| == |Concat(x)| + |batches[n]|
            && (last != [] ==> KeptBatches(batches, masks) == KeptBatches(x, m) + [last])
  {
    hide Keep;
    var n := |masks| - 1;
    assert batches[..n + 1] == batches && masks[..n + 1] == masks;
    KeptStep(batches, masks, n);
    KeptIffAlive(batches[n], masks[n]);
  }

  lemma AllTrueStep(masks: seq<seq<bool>>)
    requires masks != []
    ensures var n := |masks| - 1;
            AllTrue(masks) <==> AllTrue(masks[..n]) && forall i :: 0 <= i < |masks[n]| ==> masks[n][i]
  {
    var n := |masks| - 1;
    if AllTrue(masks[..n]) && forall i :: 0 <= i < |masks[n]| ==> masks[n][i] {
      forall b, i | 0 <= b < |masks| && 0 <= i < |masks[b]| ensures masks[b][i] {
        if b < n { assert masks[..n][b][i]; }
      }
    } else if AllTrue(masks) {
      forall b, i | 0 <= b < n && 0 <= i < |masks[..n][b]| ensures masks[..n][b][i] { assert masks[b][i]; }
    }
  }

  /** Every pair of a batch passes. */
  predicate BatchPasses(visible: Filter, created: seq<int>, deleted: seq<int>) {
    |created| == |deleted| && forall i :: 0 <= i < |created| ==> Passes(visible, created[i], deleted[i])
  }

  /** Every selected pair of a batch passes. */
  predicate SelectedPass(visible: Filter, created: seq<int>, deleted: seq<int>, mask: seq<bool>)
    requires |created| == |deleted| == |mask|
  {
    forall i :: 0 <= i < |mask| && mask[i] ==> Passes(visible, created[i], deleted[i])
  }

  lemma KeptPass(visible: Filter, created: seq<int>, deleted: seq<int>, mask: seq<bool>)
    requires |created| == |deleted| == |mask|
    ensures BatchPasses(visible, Keep(created, mask), Keep(deleted, mask)) <==> SelectedPass(visible, created, deleted, mask)
  {
    hide Passes, Keep, Positions;
    KeepAt(created, mask);
    KeepAt(deleted, mask);
    PositionsMeaning(mask);
    var p := Positions(mask);
    if SelectedPass(visible, created, deleted, mask) {
      forall k | 0 <= k < |p| ensures Passes(visible, created[p[k]], deleted[p[k]]) { assert p[k] in p; }
    } else {
      var i :| 0 <= i < |mask| && mask[i] && !Passes(visible, created[i], deleted[i]);
      assert i in p;
      var k :| 0 <= k < |p| && p[k] == i;
      assert !Passes(visible, Keep(created, mask)[k], Keep(deleted, mask)[k]);
    }
  }

  predicate BatchesPass(visible: Filter, created: seq<seq<int>>, deleted: seq<seq<int>>)
    requires |created| == |deleted|
  {
    forall b :: 0 <= b < |created| ==> BatchPasses(visible, created[b], deleted[b])
  }

  predicate AllSelectedPass(visible: Filter, created: seq<seq<int>>, deleted: seq<seq<int>>, masks: seq<seq<bool>>)
    requires SameShape(created, masks) && SameShape(deleted, masks)
  {
    forall b :: 0 <= b < |masks| ==> SelectedPass(visible, created[b], deleted[b], masks[b])
  }

  lemma {:induction false} KeptBatchesPass(visible: Filter, created: seq<seq<int>>, deleted: seq<seq<int>>, masks: seq<seq<bool>>)
    requires SameShape(created, masks) && SameShape(deleted, masks)
    ensures |KeptBatches(created, masks)| == |KeptBatches(deleted, masks)|
    ensures BatchesPass(visible, KeptBatches(created, masks), KeptBatches(deleted, masks)) <==> AllSelectedPass(visible, created, deleted, masks)
    decreases |masks|
  {
    hide BatchPasses, SelectedPass, Keep;
    KeptShape(created, deleted, masks);
    if masks != [] {
      var n := |masks| - 1;
      var c, d, m := created[..n], deleted[..n], masks[..n];
      KeptBatchesPass(visible, c, d, m);
      KeptPass(visible, created[n], deleted[n], masks[n]);
      NoneSelected(visible, created[n], deleted[n], masks[n]);
      assert created[..n + 1] == created && deleted[..n + 1] == deleted && masks[..n + 1] == masks;
      KeptStep(created, masks, n);
      KeptStep(deleted, masks, n);
      hide AnyAlive, KeptBatches, BatchesPass;
      PassAppend(visible, KeptBatches(c, m), KeptBatches(d, m), Keep(created[n], masks[n]), Keep(deleted[n], masks[n]));
      if AllSelectedPass(visible, created, deleted, masks) {
        forall b | 0 <= b < n ensures SelectedPass(visible, c[b], d[b], m[b]) {
          assert SelectedPass(visible, created[b], deleted[b], masks[b]);
        }
      } else if AllSelectedPass(visible, c, d, m) && SelectedPass(visible, created[n], deleted[n], masks[n]) {
        forall b | 0 <= b <= n ensures SelectedPass(visible, created[b], deleted[b], masks[b]) {
          if b < n { assert SelectedPass(visible, c[b], d[b], m[b]); }
        }
      }
    }
  }

  lemma NoneSelected(visible: Filter, created: seq<int>, deleted: seq<int>, mask: seq<bool>)
    requires |created| == |deleted| == |mask|
    ensures !AnyAlive(mask) ==> SelectedPass(visible, created, deleted, mask)
  {
  }

  lemma PassAppend(visible: Filter, created: seq<seq<int>>, deleted: seq<seq<int>>, c: seq<int>, d: seq<int>)
    requires |created| == |deleted|
    ensures BatchesPass(visible, created + [c], deleted + [d]) <==> BatchesPass(visible, created, deleted) && BatchPasses(visible, c, d)
  {
    hide BatchPasses;
    var x, y := created + [c], deleted + [d];
    if BatchesPass(visible, x, y) {
      forall b | 0 <= b < |created| ensures BatchPasses(visible, created[b], deleted[b]) { assert BatchPasses(visible, x[b], y[b]); }
      assert BatchPasses(visible, x[|created|], y[|created|]);
    }
  }

  /** The mask of the second pass, and what it keeps. */
  lemma SecondMasks(seg: Segment, visible: Filter)
    requires Aligned(seg) && OutputOf(seg, visible).cols != []
    ensures var out := OutputOf(seg, visible);
            && |out.created| == |out.deleted| && Aligned(OutputSegment(out))
            && CreatedBatches(OutputSegment(out)) == out.created && DeletedBatches(OutputSegment(out)) == out.deleted
            && (AllTrue(MasksOf(OutputSegment(out), visible)) <==> BatchesPass(visible, out.created, out.deleted))
  {
    hide OutputOf;
    OutputAligned(seg, visible);
    var out := OutputOf(seg, visible);
    var again := OutputSegment(out);
    assert CreatedBatches(again) == out.created && DeletedBatches(again) == out.deleted;
    var masks := MasksOf(again, visible);
    forall b, i | 0 <= b < |masks| && 0 <= i < |masks[b]|
      ensures masks[b][i] <==> Passes(visible, out.created[b][i], out.deleted[b][i])
    {
      SecondPass(again, visible, b, i);
    }
    hide Passes, MasksOf;
    if AllTrue(masks) {
      forall b | 0 <= b < |out.created| ensures BatchPasses(visible, out.created[b], out.deleted[b]) {
        assert |masks[b]| == |out.created[b]| == |out.deleted[b]|;
      }
    } else {
      var b, i :| 0 <= b < |masks| && 0 <= i < |masks[b]| && !masks[b][i];
      assert !BatchPasses(visible, out.created[b], out.deleted[b]);
    }
  }

  /** The rows kept the first time pass again exactly when those without named visibility columns do. */
  lemma WrittenPairsPass(seg: Segment, visible: Filter)
    requires Aligned(seg)
    ensures var out := OutputOf(seg, visible);
            && |out.created| == |out.deleted|
            && (BatchesPass(visible, out.created, out.deleted) <==>
                forall b, i :: 0 <= b < |seg.cols[0]| && 0 <= i < |seg.cols[0][b]| && !Tagged(seg, b) ==> PassesAgain(seg, visible, b, i))
  {
    hide OutputOf, KeptBatches, BatchesPass;
    var masks, c, d := MasksOf(seg, visible), CreatedBatches(seg), DeletedBatches(seg);
    OutputFiles(seg, visible);
    KeptBatchesPass(visible, c, d, masks);
    forall b, i | 0 <= b < |seg.cols[0]| && 0 <= i < |seg.cols[0][b]|
      ensures masks[b][i] == Alive(seg, visible, b, i) && |c[b]| == |d[b]| == |masks[b]| == |seg.cols[0][b]|
      ensures Passes(visible, c[b][i], d[b][i]) <==> PassesAgain(seg, visible, b, i)
      ensures if Tagged(seg, b) then masks[b][i] <==> PassesAgain(seg, visible, b, i) else masks[b][i]
    {
      SecondPass(seg, visible, b, i);
    }
    hide Passes, PassesAgain, MasksOf, Alive, Tagged;
    if AllSelectedPass(visible, c, d, masks) {
      forall b, i | 0 <= b < |seg.cols[0]| && 0 <= i < |seg.cols[0][b]| && !Tagged(seg, b) ensures PassesAgain(seg, visible, b, i) {
        assert SelectedPass(visible, c[b], d[b], masks[b]);
        assert masks[b][i];
      }
    } else {
      var b :| 0 <= b < |masks| && !SelectedPass(visible, c[b], d[b], masks[b]);
      var i :| 0 <= i < |masks[b]| && masks[b][i] && !Passes(visible, c[b][i], d[b][i]);
      assert !Tagged(seg, b) && !PassesAgain(seg, visible, b, i);
    }
  }

  /** A compaction keeps everything exactly when it selects everything. */
  lemma KeepsAllIff(seg: Segment, visible: Filter, out: Output)
    requires |out.created| == |out.deleted| && seg == OutputSegment(out) && Aligned(seg)
    requires CreatedBatches(seg) == out.created && DeletedBatches(seg) == out.deleted
    requires SameShape(out.created, out.cols[0]) && SameShape(out.deleted, out.cols[0]) && Nonempty(out.cols[0]) && out.cols[0] != []
    ensures OutputOf(seg, visible) == out <==> AllTrue(MasksOf(seg, visible))
  {
    hide OutputOf, KeptBatches, AllTrue, Concat;
    var masks := MasksOf(seg, visible);
    OutputFiles(seg, visible);
    KeptAllIff(out.created, masks);
    KeptAllIff(out.deleted, masks);
    KeptNonempty(seg.cols[0], masks);
    var again := OutputOf(seg, visible);
    forall c | 0 <= c < |seg.cols| ensures AllTrue(masks) ==> KeptBatches(seg.cols[c], masks) == seg.cols[c] {
      assert SameShape(seg.cols[c], seg.cols[0]);
      KeptAllIff(seg.cols[c], masks);
    }
    hide MasksOf;
    if AllTrue(masks) {
      assert KeptBatches(seg.cols[0], masks) != [];
      assert again.cols == out.cols;
    }
  }

  /**
   Compacting the output again with the same filter changes nothing exactly when every row without named
   visibility columns would pass with the values written for it.
   */
  lemma SecondCompactionIff(seg: Segment, visible: Filter)
    requires Aligned(seg) && OutputOf(seg, visible).cols != []
    ensures var out := OutputOf(seg, visible);
            && |out.created| == |out.deleted| && Aligned(OutputSegment(out))
            && (OutputOf(OutputSegment(out), visible) == out <==>
                forall b, i :: 0 <= b < |seg.cols[0]| && 0 <= i < |seg.cols[0][b]| && !Tagged(seg, b) ==> PassesAgain(seg, visible, b, i))
  {
    hide OutputOf, BatchesPass, AllTrue, PassesAgain, Tagged, MasksOf, CreatedBatches, DeletedBatches;
    var out := OutputOf(seg, visible);
    OutputAligned(seg, visible);
    SecondMasks(seg, visible);
    WrittenPairsPass(seg, visible);
    FirstColumnWritten(seg, visible);
    KeepsAllIff(OutputSegment(out), visible, out);
  }

  lemma FirstColumnWritten(seg: Segment, visible: Filter)
    requires Aligned(seg) && OutputOf(seg, visible).cols != []
    ensures OutputOf(seg, visible).cols[0] != []
  {
    hide OutputOf, KeptBatches, MasksOf;
    OutputFiles(seg, visible);
    assert SameShape(seg.cols[0], MasksOf(seg, visible));
    KeptNonempty(seg.cols[0], MasksOf(seg, visible));
  }

  /** `compact_segment` on a segment, and on what it wrote; nothing is written if no row survives. */
  method CompactTwice(seg: Segment, visible: Filter) returns (first: Output, second: Output)
    requires Aligned(seg)
    ensures first == OutputOf(seg, visible)
    ensures first.cols == [] ==> second == first
    ensures first.cols != [] ==>
              (second == first <==>
               forall b, i :: 0 <= b < |seg.cols[0]| && 0 <= i < |seg.cols[0][b]| && !Tagged(seg, b) ==> PassesAgain(seg, visible, b, i))
  {
    hide OutputOf, PassesAgain, Tagged;
    first := CompactBatches(seg, visible);
    if first.cols == [] {
      second := first;
    } else {
      SecondCompactionIff(seg, visible);
      second := CompactBatches(OutputSegment(first), visible);
    }
  }

  /** The filter that `compaction_overlay_filter` builds (src/segment/overlay.rs:97): newest snapshot, nothing active, no commit known. */
  function CompactionFilter(): Filter {
    (c: nat, d: Option<nat>) => VisibleReference(Snapshot(U64 - 1, {}, map[]), c, d)
  }

  /**
   The comment on that filter promises that every committed row is kept.  It knows no commit, so it accepts no
   row at all: a row survives compaction exactly when its batch has no visibility columns.
   */
  lemma CompactionKeepsIff(seg: Segment, b: nat, i: nat)
    requires Aligned(seg) && b < |seg.cols[0]| && i < |seg.cols[0][b]|
    ensures Alive(seg, CompactionFilter(), b, i) <==> !(b < |seg.vis| && seg.vis[b].tagged)
  {
  }

  /** Two compactions with that filter leave no row of any segment. */
  lemma TwoCompactionsEmpty(seg: Segment)
    requires Aligned(seg) && OutputOf(seg, CompactionFilter()).cols != []
    ensures var out := OutputOf(seg, CompactionFilter());
            && |out.created| == |out.deleted| && Aligned(OutputSegment(out))
            && OutputOf(OutputSegment(out), CompactionFilter()) == Output([], [], [])
  {
    hide OutputOf, KeptBatches;
    var visible := CompactionFilter();
    OutputAligned(seg, visible);
    var out := OutputOf(seg, visible);
    var again := OutputSegment(out);
    var masks := MasksOf(again, visible);
    forall b | 0 <= b < |masks| ensures !AnyAlive(masks[b]) {
      forall i | 0 <= i < |masks[b]| ensures !masks[b][i] { CompactionKeepsIff(again, b, i); }
    }
    hide MasksOf, AnyAlive;
    OutputFiles(again, visible);
    NoneKept(CreatedBatches(again), masks);
    NoneKept(DeletedBatches(again), masks);
  }
}
