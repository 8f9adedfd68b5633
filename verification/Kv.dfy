/**
 The metadata key-value engine as a finite map, and lists of single writes to it.
 A write batch is a list of writes; a crash may cut a list at any point.
 */
module Kv {
  import opened Bytes
  import opened Common

  datatype Bucket = PkIdx | SegAlias

  datatype Key = Key(bucket: Bucket, bytes: Bytes)

  /** Decoded stored values: the 3-field and 4-field location tuples and the alias target. */
  datatype Value =
    | Location(seg: Bytes, granule: u32, offset: nat)
    | Lookup(seg: Bytes, granule: u32, offset: nat, idxKey: Bytes)
    | Alias(seg: Bytes)

  type Store = map<Key, Value>

  datatype Write = Put(key: Key, value: Value) | Delete(key: Key)

  function Get(kv: Store, k: Key): Option<Value> {
    if k in kv then Some(kv[k]) else None
  }

  function Apply(w: Write, kv: Store): Store {
    match w
    case Put(k, v) => kv[k := v]
    case Delete(k) => kv - {k}
  }

  function ApplyAll(ws: seq<Write>, kv: Store): Store {
    if ws == [] then kv else Apply(ws[|ws| - 1], ApplyAll(ws[..|ws| - 1], kv))
  }

  function Touched(ws: seq<Write>): set<Key> {
    set w | w in ws :: w.key
  }

  /** What the last write to `k` leaves there. */
  function Final(ws: seq<Write>, k: Key): Option<Value> {
    if ws == [] then None
    else
      var w := ws[|ws| - 1];
      if w.key == k then (if w.Put? then Some(w.value) else None) else Final(ws[..|ws| - 1], k)
  }

  lemma StoreExtensional(a: Store, b: Store)
    requires forall k :: Get(a, k) == Get(b, k)
    ensures a == b
  {
    assert forall k :: k in a <==> Get(a, k).Some?;
    assert forall k :: k in b <==> Get(b, k).Some?;
    forall k | k in a ensures a[k] == b[k] { assert Get(a, k) == Some(a[k]) && Get(b, k) == Some(b[k]); }
  }

  /** Reading after a list of writes: the last write to the key decides, otherwise the old store. */
  lemma {:induction false} ReadAfter(ws: seq<Write>, kv: Store, k: Key)
    ensures Get(ApplyAll(ws, kv), k) == if k in Touched(ws) then Final(ws, k) else Get(kv, k)
    decreases |ws|
  {
    if ws != [] {
      var init, w := ws[..|ws| - 1], ws[|ws| - 1];
      ReadAfter(init, kv, k);
      assert ws == init + [w];
      assert k in Touched(ws) <==> k in Touched(init) || k == w.key;
    }
  }

  lemma {:induction false} ApplyConcat(a: seq<Write>, b: seq<Write>, kv: Store)
    ensures ApplyAll(a + b, kv) == ApplyAll(b, ApplyAll(a, kv))
    decreases |b|
  {
    if b == [] {
      assert a + b == a;
    } else {
      ApplyConcat(a, b[..|b| - 1], kv);
      assert (a + b)[..|a + b| - 1] == a + b[..|b| - 1];
    }
  }

  lemma TwoWrites(ws: seq<Write>, kv: Store)
    requires |ws| == 2
    ensures ApplyAll(ws, kv) == Apply(ws[1], Apply(ws[0], kv))
  {
    var first := ws[..1];
    assert first[..0] == [] && ApplyAll(first, kv) == Apply(ws[0], kv);
  }

  predicate AgreeOutside(a: Store, b: Store, keys: set<Key>) {
    && (forall k :: k in a && k !in keys ==> k in b && b[k] == a[k])
    && (forall k :: k in b && k !in keys ==> k in a)
  }

  /** Replaying a list erases every earlier difference on the keys it touches. */
  lemma Overwrites(ws: seq<Write>, a: Store, b: Store)
    requires AgreeOutside(a, b, Touched(ws))
    ensures ApplyAll(ws, a) == ApplyAll(ws, b)
  {
    forall k ensures Get(ApplyAll(ws, a), k) == Get(ApplyAll(ws, b), k) {
      ReadAfter(ws, a, k);
      ReadAfter(ws, b, k);
    }
    StoreExtensional(ApplyAll(ws, a), ApplyAll(ws, b));
  }

  lemma PrefixAgrees(ws: seq<Write>, cut: nat, kv: Store)
    requires cut <= |ws|
    ensures AgreeOutside(ApplyAll(ws[..cut], kv), kv, Touched(ws))
  {
    forall k | k !in Touched(ws) ensures Get(ApplyAll(ws[..cut], kv), k) == Get(kv, k) {
      ReadAfter(ws[..cut], kv, k);
      assert k !in Touched(ws[..cut]);
    }
    assert forall k :: k in kv <==> Get(kv, k).Some?;
    assert forall k :: k in ApplyAll(ws[..cut], kv) <==> Get(ApplyAll(ws[..cut], kv), k).Some?;
    forall k | k in kv && k !in Touched(ws) ensures k in ApplyAll(ws[..cut], kv) && ApplyAll(ws[..cut], kv)[k] == kv[k] {
      assert Get(ApplyAll(ws[..cut], kv), k) == Get(kv, k);
    }
  }

  /** The store after a series of replays of `ws`, the i-th of which crashed after `cuts[i]` single writes. */
  function Crashed(ws: seq<Write>, kv: Store, cuts: seq<nat>): Store {
    if cuts == [] then kv
    else
      var before := Crashed(ws, kv, cuts[..|cuts| - 1]);
      var cut := cuts[|cuts| - 1];
      ApplyAll(ws[..if cut < |ws| then cut else |ws|], before)
  }

  lemma {:induction false} CrashedAgrees(ws: seq<Write>, kv: Store, cuts: seq<nat>)
    ensures AgreeOutside(Crashed(ws, kv, cuts), kv, Touched(ws))
    decreases |cuts|
  {
    if cuts != [] {
      var init, cut := cuts[..|cuts| - 1], cuts[|cuts| - 1];
      CrashedAgrees(ws, kv, init);
      PrefixAgrees(ws, if cut < |ws| then cut else |ws|, Crashed(ws, kv, init));
    }
  }
}
