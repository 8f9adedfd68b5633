/**
 The double-entry primary-key index (src/metadata/pk_skiplist.rs): one entry
 under the segment, one reverse entry under the key alone.
 */
module PkIndex {
  import opened Bytes
  import opened Common
  import opened Kv

  const COLON: byte := 58
  const PK_IDX: Bytes := [112, 107, 95, 105, 100, 120, COLON]                        // "pk_idx:"
  const PK_LOOKUP: Bytes := [112, 107, 95, 108, 111, 111, 107, 117, 112, COLON]      // "pk_lookup:"
  const SEG_ALIAS: Bytes := [115, 101, 103, 95, 97, 108, 105, 97, 115, COLON]        // "seg_alias:"

  datatype Loc = Loc(seg: Bytes, granule: u32, offset: nat)

  function IdxBytes(seg: Bytes, granule: nat, pk: Bytes): Bytes {
    PK_IDX + seg + [COLON] + LeBytes(granule, 4) + [COLON] + pk
  }

  function IdxKey(seg: Bytes, granule: nat, pk: Bytes): Key {
    Key(PkIdx, IdxBytes(seg, granule, pk))
  }

  function LookupKey(pk: Bytes): Key {
    Key(PkIdx, PK_LOOKUP + pk)
  }

  function AliasKey(seg: Bytes): Key {
    Key(SegAlias, SEG_ALIAS + seg)
  }

  // ------------------------------------------------------------------
  // Keys
  // ------------------------------------------------------------------

  /** A segment id that cannot run into the separator: what `generate_seg_id` and `compact_segment` produce. */
  predicate Clean(seg: Bytes) {
    COLON !in seg
  }

  /** Index keys are injective on clean segment ids. */
  lemma IdxKeyInjective(s1: Bytes, g1: nat, p1: Bytes, s2: Bytes, g2: nat, p2: Bytes)
    requires Clean(s1) && Clean(s2) && g1 < U32 && g2 < U32
    requires IdxBytes(s1, g1, p1) == IdxBytes(s2, g2, p2)
    ensures s1 == s2 && g1 == g2 && p1 == p2
  {
    var a, b := IdxBytes(s1, g1, p1), IdxBytes(s2, g2, p2);
    SameLength(s1, g1, p1, s2, g2, p2);
    SameLength(s2, g2, p2, s1, g1, p1);
    var n := |s1|;
    assert a[7..7 + n] == s1 && b[7..7 + n] == s2;
    assert a[8 + n..12 + n] == LeBytes(g1, 4) && b[8 + n..12 + n] == LeBytes(g2, 4);
    assert a[13 + n..] == p1 && b[13 + n..] == p2;
    assert Pow256(4) == 256 * Pow256(3) == 65536 * Pow256(2) == U32;
    LeRoundTrip(g1, 4);
    LeRoundTrip(g2, 4);
  }

  lemma SameLength(s1: Bytes, g1: nat, p1: Bytes, s2: Bytes, g2: nat, p2: Bytes)
    requires Clean(s2) && IdxBytes(s1, g1, p1) == IdxBytes(s2, g2, p2)
    ensures |s1| >= |s2|
  {
    SeparatorPosition(s1, g1, p1);
    SeparatorPosition(s2, g2, p2);
  }

  lemma SeparatorPosition(s: Bytes, g: nat, p: Bytes)
    ensures |IdxBytes(s, g, p)| == 13 + |s| + |p| && IdxBytes(s, g, p)[7 + |s|] == COLON
    ensures Clean(s) ==> forall i :: 7 <= i < 7 + |s| ==> IdxBytes(s, g, p)[i] != COLON
  {
  }

  /** With a separator inside the segment id two different rows share one key, for every choice of the parts. */
  lemma UncleanKeysCollide(s: Bytes, w: Bytes, g: nat, p: Bytes)
    requires |w| == 4
    ensures IdxBytes(s, LeValue(w), LeBytes(g, 4) + [COLON] + p) == IdxBytes(s + [COLON] + w, g, p)
  {
    LeBytesOfValue(w);
    var head, tail := PK_IDX + s + [COLON], LeBytes(g, 4) + [COLON] + p;
    assert IdxBytes(s, LeValue(w), tail) == head + w + [COLON] + tail;
    assert PK_IDX + (s + [COLON] + w) == head + w;
    assert head + w + [COLON] + LeBytes(g, 4) + [COLON] + p == head + w + [COLON] + tail;
  }

  lemma {:induction false} LeBytesOfValue(w: Bytes)
    ensures LeBytes(LeValue(w), |w|) == w
  {
    if w != [] {
      LeBytesOfValue(w[1..]);
      assert LeValue(w) == w[0] + 256 * LeValue(w[1..]);
      assert LeValue(w) % 256 == w[0] && LeValue(w) / 256 == LeValue(w[1..]);
    }
  }

  lemma KeyFamiliesDisjoint(seg: Bytes, g: nat, p: Bytes, q: Bytes)
    ensures IdxKey(seg, g, p) != LookupKey(q)
  {
    assert IdxBytes(seg, g, p)[3] == 105;
    assert (PK_LOOKUP + q)[3] == 108;
  }

  lemma LookupKeyInjective(p: Bytes, q: Bytes)
    requires LookupKey(p) == LookupKey(q)
    ensures p == q
  {
    assert (PK_LOOKUP + p)[10..] == p && (PK_LOOKUP + q)[10..] == q;
  }

  // ------------------------------------------------------------------
  // Operations
  // ------------------------------------------------------------------

  /** The two writes of `put_pk_index_double` (src/metadata/pk_skiplist.rs:53). */
  function PutWrites(pk: Bytes, l: Loc): seq<Write> {
    [Put(IdxKey(l.seg, l.granule, pk), Location(l.seg, l.granule, l.offset)),
     Put(LookupKey(pk), Lookup(l.seg, l.granule, l.offset, IdxBytes(l.seg, l.granule, pk)))]
  }

  /** The two writes of `delete_pk_index_double` (src/metadata/pk_skiplist.rs:92). */
  function DeleteWrites(pk: Bytes, seg: Bytes, granule: u32): seq<Write> {
    [Delete(IdxKey(seg, granule, pk)), Delete(LookupKey(pk))]
  }

  /** `get_pk_index_by_pk` (src/metadata/pk_skiplist.rs:149): a 3-field value does not decode as a lookup. */
  function GetByPk(kv: Store, pk: Bytes): Result<Option<Loc>> {
    match Get(kv, LookupKey(pk))
    case None => Ok(None)
    case Some(Lookup(seg, granule, offset, idxKey)) =>
      (match Get(kv, AliasKey(seg))
       case None => Ok(Some(Loc(seg, granule, offset)))
       case Some(Alias(target)) =>
         (match Get(kv, Key(PkIdx, idxKey))
          case None => Ok(None)
          case Some(Location(_, g, o)) => Ok(Some(Loc(target, g, o)))
          case Some(_) => Err)
       case Some(_) => Err)
    case Some(_) => Err
  }

  function At<K(==)>(m: map<K, Loc>, k: K): Option<Loc> {
    if k in m then Some(m[k]) else None
  }

  /** What the reverse key of `pk` holds when its location is `l`. */
  function ReverseEntry(pk: Bytes, l: Option<Loc>): Option<Value> {
    match l
    case None => None
    case Some(l) => Some(Lookup(l.seg, l.granule, l.offset, IdxBytes(l.seg, l.granule, pk)))
  }

  /** The reverse entries are exactly the map `m`, and there is no alias. */
  ghost predicate LookupsAre(kv: Store, m: map<Bytes, Loc>) {
    && (forall pk :: Get(kv, LookupKey(pk)) == ReverseEntry(pk, At(m, pk)))
    && (forall k :: k in kv ==> k.bucket == PkIdx)
  }

  lemma LookupIsMap(kv: Store, m: map<Bytes, Loc>, pk: Bytes)
    requires LookupsAre(kv, m)
    ensures GetByPk(kv, pk) == Ok(At(m, pk))
  {
    assert Get(kv, LookupKey(pk)) == ReverseEntry(pk, At(m, pk));
  }

  /** A pair of writes to an index key and a reverse key changes no other reverse key. */
  lemma OtherLookups(ws: seq<Write>, kv: Store, seg: Bytes, g: nat, pk: Bytes, q: Bytes)
    requires |ws| == 2 && ws[0].key == IdxKey(seg, g, pk) && ws[1].key == LookupKey(pk)
    ensures q != pk ==> Get(ApplyAll(ws, kv), LookupKey(q)) == Get(kv, LookupKey(q))
    ensures Get(ApplyAll(ws, kv), LookupKey(pk)) == if ws[1].Put? then Some(ws[1].value) else None
  {
    TwoWrites(ws, kv);
    KeyFamiliesDisjoint(seg, g, pk, q);
    if LookupKey(q) == LookupKey(pk) { LookupKeyInjective(q, pk); }
  }

  /** For any segment id whatever. */
  lemma PutLooksUp(kv: Store, m: map<Bytes, Loc>, pk: Bytes, l: Loc)
    requires LookupsAre(kv, m)
    ensures LookupsAre(ApplyAll(PutWrites(pk, l), kv), m[pk := l])
  {
    TwoWrites(PutWrites(pk, l), kv);
    forall q ensures Get(ApplyAll(PutWrites(pk, l), kv), LookupKey(q)) == ReverseEntry(q, At(m[pk := l], q)) {
      OtherLookups(PutWrites(pk, l), kv, l.seg, l.granule, pk, q);
    }
  }

  /** Whatever segment the delete names. */
  lemma DeleteLooksUp(kv: Store, m: map<Bytes, Loc>, pk: Bytes, seg: Bytes, granule: u32)
    requires LookupsAre(kv, m)
    ensures LookupsAre(ApplyAll(DeleteWrites(pk, seg, granule), kv), m - {pk})
  {
    TwoWrites(DeleteWrites(pk, seg, granule), kv);
    forall q ensures Get(ApplyAll(DeleteWrites(pk, seg, granule), kv), LookupKey(q)) == ReverseEntry(q, At(m - {pk}, q)) {
      OtherLookups(DeleteWrites(pk, seg, granule), kv, seg, granule, pk, q);
    }
  }

  // ------------------------------------------------------------------
  // Whole runs
  // ------------------------------------------------------------------

  /** One call on the index; a delete carries the segment and granule its caller read earlier. */
  datatype PkOp = PutOp(table: Bytes, pk: Bytes, loc: Loc) | DeleteOp(table: Bytes, pk: Bytes, seg: Bytes, granule: u32)

  /** The table name takes no part in the writes. */
  function WritesOf(op: PkOp): seq<Write> {
    match op
    case PutOp(_, pk, l) => PutWrites(pk, l)
    case DeleteOp(_, pk, seg, granule) => DeleteWrites(pk, seg, granule)
  }

  function StoreAfter(ops: seq<PkOp>): Store {
    if ops == [] then map[] else ApplyAll(WritesOf(ops[|ops| - 1]), StoreAfter(ops[..|ops| - 1]))
  }

  /** The map from primary keys that the index stands for. */
  function Contents(ops: seq<PkOp>): map<Bytes, Loc> {
    if ops == [] then map[]
    else
      var m := Contents(ops[..|ops| - 1]);
      match ops[|ops| - 1]
      case PutOp(_, pk, l) => m[pk := l]
      case DeleteOp(_, pk, _, _) => m - {pk}
  }

  lemma {:induction false} LookupsAfter(ops: seq<PkOp>)
    ensures LookupsAre(StoreAfter(ops), Contents(ops))
    decreases |ops|
  {
    if ops != [] {
      var init := ops[..|ops| - 1];
      LookupsAfter(init);
      match ops[|ops| - 1]
      case PutOp(_, pk, l) => PutLooksUp(StoreAfter(init), Contents(init), pk, l);
      case DeleteOp(_, pk, seg, granule) => DeleteLooksUp(StoreAfter(init), Contents(init), pk, seg, granule);
    }
  }

  /** The engine that the index functions mutate. */
  class PkIndexStore {
    var kv: Store

    /** The calls made so far. */
    ghost var history: seq<PkOp>

    ghost predicate Valid()
      reads this
    {
      kv == StoreAfter(history)
    }

    constructor ()
      ensures Valid() && history == []
    {
      kv, history := map[], [];
    }

    method PutPkIndexDouble(table: Bytes, pk: Bytes, l: Loc)
      requires Valid()
      modifies this
      ensures Valid() && history == old(history) + [PutOp(table, pk, l)]
      ensures kv == ApplyAll(PutWrites(pk, l), old(kv))
    {
      TwoWrites(PutWrites(pk, l), kv);
      var idxKey := IdxKey(l.seg, l.granule, pk);
      kv := kv[idxKey := Location(l.seg, l.granule, l.offset)];
      kv := kv[LookupKey(pk) := Lookup(l.seg, l.granule, l.offset, idxKey.bytes)];
      history := history + [PutOp(table, pk, l)];
    }

    method DeletePkIndexDouble(table: Bytes, pk: Bytes, seg: Bytes, granule: u32)
      requires Valid()
      modifies this
      ensures Valid() && history == old(history) + [DeleteOp(table, pk, seg, granule)]
      ensures kv == ApplyAll(DeleteWrites(pk, seg, granule), old(kv))
    {
      TwoWrites(DeleteWrites(pk, seg, granule), kv);
      kv := kv - {IdxKey(seg, granule, pk)};
      kv := kv - {LookupKey(pk)};
      history := history + [DeleteOp(table, pk, seg, granule)];
    }

    /** The answer is the location of the last put of `pk` in whatever table. */
    method GetPkIndexByPk(table: Bytes, pk: Bytes) returns (r: Result<Option<Loc>>)
      requires Valid()
      ensures r == Ok(At(Contents(history), pk))
    {
      LookupsAfter(history);
      LookupIsMap(kv, Contents(history), pk);
      r := GetByPk(kv, pk);
    }
  }

  /** After any run every lookup answers with the last put that no later delete removed. */
  method RunPkOps(ops: seq<PkOp>) returns (kv: Store)
    ensures kv == StoreAfter(ops)
    ensures forall pk :: GetByPk(kv, pk) == Ok(At(Contents(ops), pk))
  {
    hide *;
    var index := new PkIndexStore();
    for i := 0 to |ops|
      invariant fresh(index) && index.Valid() && index.history == ops[..i]
    {
      match ops[i]
      case PutOp(table, pk, l) => index.PutPkIndexDouble(table, pk, l);
      case DeleteOp(table, pk, seg, granule) => index.DeletePkIndexDouble(table, pk, seg, granule);
    }
    assert ops[..|ops|] == ops;
    kv := StoreOf(index);
    LookupsAfter(ops);
    forall pk ensures GetByPk(kv, pk) == Ok(At(Contents(ops), pk)) {
      LookupIsMap(kv, Contents(ops), pk);
    }
  }

  method StoreOf(index: PkIndexStore) returns (kv: Store)
    requires index.Valid()
    ensures kv == StoreAfter(index.history)
  {
    kv := index.kv;
  }

  predicate LastPut(ops: seq<PkOp>, pk: Bytes, l: Loc, i: int) {
    0 <= i < |ops| && ops[i].PutOp? && ops[i].pk == pk && ops[i].loc == l && forall j :: i < j < |ops| ==> ops[j].pk != pk
  }

  /** The last put of `pk` wins unless a delete of `pk` follows it, whatever segment that delete names. */
  lemma ContentsIsLastPut(ops: seq<PkOp>, pk: Bytes, l: Loc)
    ensures At(Contents(ops), pk) == Some(l) <==> exists i :: LastPut(ops, pk, l, i)
  {
    if pk in Contents(ops) {
      var i := ContentsHasLastPut(ops, pk);
    }
    forall i | LastPut(ops, pk, l, i) ensures At(Contents(ops), pk) == Some(l) {
      LastPutIsContents(ops, pk, l, i);
    }
  }

  lemma {:induction false} LastPutIsContents(ops: seq<PkOp>, pk: Bytes, l: Loc, i: nat)
    requires LastPut(ops, pk, l, i)
    ensures At(Contents(ops), pk) == Some(l)
    decreases |ops|
  {
    var init := ops[..|ops| - 1];
    if i < |ops| - 1 { LastPutIsContents(init, pk, l, i); }
  }

  lemma {:induction false} ContentsHasLastPut(ops: seq<PkOp>, pk: Bytes) returns (i: nat)
    requires pk in Contents(ops)
    ensures LastPut(ops, pk, Contents(ops)[pk], i)
    decreases |ops|
  {
    var n := |ops| - 1;
    if ops[n].pk == pk { i := n; } else { i := ContentsHasLastPut(ops[..n], pk); }
  }

  // ------------------------------------------------------------------
  // Dangling reverse entries
  // ------------------------------------------------------------------

  /** The index entry that the reverse entry of `pk` points at is there and says the same. */
  predicate Anchored(kv: Store, pk: Bytes, l: Loc) {
    Get(kv, IdxKey(l.seg, l.granule, pk)) == Some(Location(l.seg, l.granule, l.offset))
  }

  function IdxKeyOf(op: PkOp): Key {
    match op
    case PutOp(_, pk, l) => IdxKey(l.seg, l.granule, pk)
    case DeleteOp(_, pk, seg, granule) => IdxKey(seg, granule, pk)
  }

  /** What one call does to an index key. */
  lemma EntryAfter(op: PkOp, kv: Store, seg: Bytes, g: nat, pk: Bytes)
    ensures Get(ApplyAll(WritesOf(op), kv), IdxKey(seg, g, pk)) ==
            if IdxKeyOf(op) != IdxKey(seg, g, pk) then Get(kv, IdxKey(seg, g, pk))
            else if op.PutOp? then Some(Location(op.loc.seg, op.loc.granule, op.loc.offset)) else None
  {
    TwoWrites(WritesOf(op), kv);
    KeyFamiliesDisjoint(seg, g, pk, op.pk);
  }

  /** A reverse entry dangles exactly when a later call on another primary key happened to use the same index key. */
  lemma {:induction false} AnchoredIff(ops: seq<PkOp>, pk: Bytes, l: Loc, i: nat)
    requires LastPut(ops, pk, l, i)
    ensures Anchored(StoreAfter(ops), pk, l) <==> forall j :: i < j < |ops| ==> IdxKeyOf(ops[j]) != IdxKey(l.seg, l.granule, pk)
    decreases |ops|
  {
    hide IdxKeyOf, IdxKey, WritesOf, ApplyAll;
    var n := |ops| - 1;
    var init, op := ops[..n], ops[n];
    EntryAfter(op, StoreAfter(init), l.seg, l.granule, pk);
    if i < n {
      AnchoredIff(init, pk, l, i);
      assert forall j :: i < j < n ==> init[j] == ops[j];
      if IdxKeyOf(op) == IdxKey(l.seg, l.granule, pk) { ClashIsVisible(op, pk, l); }
    } else {
      PutKey(op);
    }
  }

  lemma PutKey(op: PkOp)
    ensures op.PutOp? ==> IdxKeyOf(op) == IdxKey(op.loc.seg, op.loc.granule, op.pk)
  {
  }

  /** Two calls with one index key and different primary keys name different segments. */
  lemma ClashIsVisible(op: PkOp, pk: Bytes, l: Loc)
    requires op.pk != pk && IdxKeyOf(op) == IdxKey(l.seg, l.granule, pk)
    ensures op.PutOp? ==> op.loc.seg != l.seg
  {
    IdxSuffix(l.seg, l.granule, pk);
    if op.PutOp? { IdxSuffix(op.loc.seg, op.loc.granule, op.pk); }
  }

  lemma IdxSuffix(seg: Bytes, g: nat, pk: Bytes)
    ensures |IdxBytes(seg, g, pk)| >= 13 + |seg| && IdxBytes(seg, g, pk)[13 + |seg|..] == pk
  {
  }

  predicate CleanOp(op: PkOp) {
    match op
    case PutOp(_, _, l) => Clean(l.seg)
    case DeleteOp(_, _, seg, _) => Clean(seg)
  }

  /** With the segment ids that the store generates none dangles. */
  lemma CleanRunsAnchored(ops: seq<PkOp>, pk: Bytes)
    requires (forall i :: 0 <= i < |ops| ==> CleanOp(ops[i])) && pk in Contents(ops)
    ensures Anchored(StoreAfter(ops), pk, Contents(ops)[pk])
  {
    var l := Contents(ops)[pk];
    var i := ContentsHasLastPut(ops, pk);
    AnchoredIff(ops, pk, l, i);
    forall j | i < j < |ops| ensures IdxKeyOf(ops[j]) != IdxKey(l.seg, l.granule, pk) {
      assert CleanOp(ops[i]) && CleanOp(ops[j]) && ops[j].pk != pk;
      if IdxKeyOf(ops[j]) == IdxKey(l.seg, l.granule, pk) {
        match ops[j]
        case PutOp(_, q, m) => IdxKeyInjective(m.seg, m.granule, q, l.seg, l.granule, pk);
        case DeleteOp(_, q, seg, granule) => IdxKeyInjective(seg, granule, q, l.seg, l.granule, pk);
      }
    }
  }

  // ------------------------------------------------------------------
  // Tables
  // ------------------------------------------------------------------

  /** What callers, who pass a table with every call, expect the index to hold. */
  function Expected(ops: seq<PkOp>): map<(Bytes, Bytes), Loc> {
    if ops == [] then map[]
    else
      var m := Expected(ops[..|ops| - 1]);
      match ops[|ops| - 1]
      case PutOp(table, pk, l) => m[(table, pk) := l]
      case DeleteOp(table, pk, _, _) => m - {(table, pk)}
  }

  /** The last call naming `pk` in any table, or -1. */
  function LastNaming(ops: seq<PkOp>, pk: Bytes): (i: int)
    ensures -1 <= i < |ops|
  {
    if ops == [] then -1
    else if ops[|ops| - 1].pk == pk then |ops| - 1
    else LastNaming(ops[..|ops| - 1], pk)
  }

  /** The last call naming `pk` in `table`, or -1. */
  function LastNamingIn(ops: seq<PkOp>, table: Bytes, pk: Bytes): (i: int)
    ensures -1 <= i < |ops|
  {
    if ops == [] then -1
    else if ops[|ops| - 1].pk == pk && ops[|ops| - 1].table == table then |ops| - 1
    else LastNamingIn(ops[..|ops| - 1], table, pk)
  }

  /** What call `i` leaves under its key. */
  function OutcomeOf(ops: seq<PkOp>, i: int): Option<Loc>
    requires i < |ops|
  {
    if i >= 0 && ops[i].PutOp? then Some(ops[i].loc) else None
  }

  lemma {:induction false} LastOutcomes(ops: seq<PkOp>, table: Bytes, pk: Bytes)
    ensures At(Contents(ops), pk) == OutcomeOf(ops, LastNaming(ops, pk))
    ensures At(Expected(ops), (table, pk)) == OutcomeOf(ops, LastNamingIn(ops, table, pk))
    decreases |ops|
  {
    if ops != [] { LastOutcomes(ops[..|ops| - 1], table, pk); }
  }

  /** The lookup of (table, pk) is the one its caller expects. */
  ghost predicate LookupRight(ops: seq<PkOp>, table: Bytes, pk: Bytes) {
    GetByPk(StoreAfter(ops), pk) == Ok(At(Expected(ops), (table, pk)))
  }

  /**
   A lookup is right exactly when the last call that names the primary key in any table leaves the same
   location, or the same absence, as the last call that names it in the caller's table.
   */
  lemma TableLookupIff(ops: seq<PkOp>, table: Bytes, pk: Bytes)
    ensures LookupRight(ops, table, pk) <==>
            OutcomeOf(ops, LastNaming(ops, pk)) == OutcomeOf(ops, LastNamingIn(ops, table, pk))
  {
    LookupsAfter(ops);
    LookupIsMap(StoreAfter(ops), Contents(ops), pk);
    LastOutcomes(ops, table, pk);
  }

  /** No primary key is used by two tables. */
  predicate TablesApart(ops: seq<PkOp>) {
    forall i, j :: 0 <= i < |ops| && 0 <= j < |ops| && ops[i].pk == ops[j].pk ==> ops[i].table == ops[j].table
  }

  /** Then every table finds its own keys. */
  lemma ApartTablesRight(ops: seq<PkOp>, k: nat)
    requires TablesApart(ops) && k < |ops|
    ensures LookupRight(ops, ops[k].table, ops[k].pk)
  {
    SameLast(ops, ops[k].table, ops[k].pk);
    TableLookupIff(ops, ops[k].table, ops[k].pk);
  }

  lemma {:induction false} SameLast(ops: seq<PkOp>, table: Bytes, pk: Bytes)
    requires forall i :: 0 <= i < |ops| && ops[i].pk == pk ==> ops[i].table == table
    ensures LastNaming(ops, pk) == LastNamingIn(ops, table, pk)
    decreases |ops|
  {
    if ops != [] { SameLast(ops[..|ops| - 1], table, pk); }
  }

  /** One key in two tables: the later put hides the earlier row, and a delete in one table loses the row of the other. */
  lemma TablesClash(a: Bytes, b: Bytes, pk: Bytes, l: Loc, m: Loc)
    requires a != b && l != m
    ensures !LookupRight([PutOp(a, pk, l), PutOp(b, pk, m)], a, pk)
    ensures !LookupRight([PutOp(a, pk, l), DeleteOp(b, pk, m.seg, m.granule)], a, pk)
  {
    var put := [PutOp(a, pk, l)];
    var over, gone := put + [PutOp(b, pk, m)], put + [DeleteOp(b, pk, m.seg, m.granule)];
    assert over == [PutOp(a, pk, l), PutOp(b, pk, m)] && over[..1] == put;
    assert gone == [PutOp(a, pk, l), DeleteOp(b, pk, m.seg, m.granule)] && gone[..1] == put;
    assert LastNamingIn(put, a, pk) == 0;
    TableLookupIff(over, a, pk);
    TableLookupIff(gone, a, pk);
  }
}
