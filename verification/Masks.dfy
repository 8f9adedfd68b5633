/** Filtering by a boolean mask, as `filter_record_batch` does on every column. */
module Masks {
  import opened Common

  /** The selected elements, in order. */
  function Keep<T>(col: seq<T>, mask: seq<bool>): seq<T>
    requires |col| == |mask|
  {
    if col == [] then []
    else
      var n := |col| - 1;
      Keep(col[..n], mask[..n]) + if mask[n] then [col[n]] else []
  }

  /** The selected positions, in order. */
  function Positions(mask: seq<bool>): seq<nat> {
    if mask == [] then []
    else
      var n := |mask| - 1;
      Positions(mask[..n]) + if mask[n] then [n] else []
  }

  lemma {:induction false} PositionsMeaning(mask: seq<bool>)
    ensures Ascending(Positions(mask))
    ensures forall i: nat :: i in Positions(mask) <==> i < |mask| && mask[i]
    decreases |mask|
  {
    if mask != [] {
      var n := |mask| - 1;
      PositionsMeaning(mask[..n]);
      var p := Positions(mask[..n]);
      forall k | 0 <= k < |p| ensures p[k] < n { assert p[k] in p; }
      forall i: nat ensures i in Positions(mask) <==> i < |mask| && mask[i] {
        assert i in p <==> i < n && mask[..n][i];
      }
    }
  }

  /** Kept element k is the element at selected position k. */
  lemma {:induction false} KeepAt<T>(col: seq<T>, mask: seq<bool>)
    requires |col| == |mask|
    ensures |Keep(col, mask)| == |Positions(mask)|
    ensures forall k :: 0 <= k < |Positions(mask)| ==> Positions(mask)[k] < |col| && Keep(col, mask)[k] == col[Positions(mask)[k]]
    decreases |col|
  {
    if col != [] {
      var n := |col| - 1;
      KeepAt(col[..n], mask[..n]);
    }
  }

  lemma {:induction false} KeepConcat<T>(a: seq<T>, b: seq<T>, ma: seq<bool>, mb: seq<bool>)
    requires |a| == |ma| && |b| == |mb|
    ensures Keep(a + b, ma + mb) == Keep(a, ma) + Keep(b, mb)
    decreases |b|
  {
    if b == [] {
      assert a + b == a && ma + mb == ma;
    } else {
      var n := |b| - 1;
      KeepConcat(a, b[..n], ma, mb[..n]);
      assert (a + b)[..|a + b| - 1] == a + b[..n] && (ma + mb)[..|ma + mb| - 1] == ma + mb[..n];
    }
  }

  /** Selecting fewer elements keeps fewer, and strictly fewer unless the selection is the same. */
  lemma {:induction false} FewerKept(a: seq<bool>, b: seq<bool>)
    requires |a| == |b| && forall i :: 0 <= i < |a| && a[i] ==> b[i]
    ensures |Positions(a)| <= |Positions(b)|
    ensures a != b ==> |Positions(a)| < |Positions(b)|
    decreases |a|
  {
    if a != [] {
      var n := |a| - 1;
      assert a == a[..n] + [a[n]] && b == b[..n] + [b[n]];
      FewerKept(a[..n], b[..n]);
    }
  }

  lemma {:induction false} KeepUniform<T>(col: seq<T>, mask: seq<bool>, keep: bool)
    requires |col| == |mask| && forall i :: 0 <= i < |mask| ==> mask[i] == keep
    ensures Keep(col, mask) == (if keep then col else [])
    decreases |col|
  {
    if col != [] {
      var n := |col| - 1;
      KeepUniform(col[..n], mask[..n], keep);
      assert mask[n] == keep;
      assert col == col[..n] + [col[n]];
    }
  }

  predicate SameShape<A, B>(a: seq<seq<A>>, b: seq<seq<B>>) {
    |a| == |b| && forall i :: 0 <= i < |a| ==> |a[i]| == |b[i]|
  }

  lemma {:induction false} ConcatLength<A, B>(a: seq<seq<A>>, b: seq<seq<B>>)
    requires SameShape(a, b)
    ensures |Concat(a)| == |Concat(b)|
    decreases |a|
  {
    if a != [] { ConcatLength(a[..|a| - 1], b[..|b| - 1]); }
  }

  /** Filtering batch by batch. */
  function KeepBatches<T>(batches: seq<seq<T>>, masks: seq<seq<bool>>): seq<T>
    requires SameShape(batches, masks)
  {
    if batches == [] then []
    else
      var n := |batches| - 1;
      KeepBatches(batches[..n], masks[..n]) + Keep(batches[n], masks[n])
  }

  /** Filtering batch by batch is filtering the whole column. */
  lemma {:induction false} KeepBatchesIsKeep<T>(batches: seq<seq<T>>, masks: seq<seq<bool>>)
    requires SameShape(batches, masks)
    ensures |Concat(batches)| == |Concat(masks)|
    ensures KeepBatches(batches, masks) == Keep(Concat(batches), Concat(masks))
    decreases |batches|
  {
    ConcatLength(batches, masks);
    if batches != [] {
      var n := |batches| - 1;
      KeepBatchesIsKeep(batches[..n], masks[..n]);
      KeepConcat(Concat(batches[..n]), batches[n], Concat(masks[..n]), masks[n]);
    }
  }
}
