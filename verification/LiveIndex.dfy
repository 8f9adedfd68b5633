/**
 Recovery over the index that the live operations left behind (src/write/insert.rs, src/db.rs): a live write
 files a row under the granule of its offset, replay files it under granule 0, and a live update removes the
 old entry, which replay writes again.
 */
module LiveIndex {
  import opened Bytes
  import opened Common
  import opened Kv
  import opened PkIndex
  import opened Recovery
  import opened WalScan

  const GRANULE_ROWS: nat := 8192

  /** `allocate_position` (src/write/insert.rs:489). */
  function LiveLoc(seg: Bytes, offset: nat): Loc {
    Loc(seg, offset % U32 / GRANULE_ROWS, offset % U32)
  }

  /** The index writes of the live operation that logged the record. */
  function LiveWrites(op: WalOp): seq<Write> {
    match op.body.payload
    case Insert(pk, seg, offset) => PutWrites(pk, LiveLoc(seg, offset))
    case Update(pk, oldSeg, oldGranule, newSeg, offset) => DeleteWrites(pk, oldSeg, oldGranule) + PutWrites(pk, LiveLoc(newSeg, offset))
    case Remove(pk, seg, granule) => DeleteWrites(pk, seg, granule)
    case _ => []
  }

  function LiveList(ops: seq<WalOp>): seq<Write> {
    if ops == [] then [] else LiveList(ops[..|ops| - 1]) + LiveWrites(ops[|ops| - 1])
  }

  /** The index after the live operations. */
  function Live(ops: seq<WalOp>, kv: Store): Store {
    ApplyAll(LiveList(ops), kv)
  }

  /** The same index after recovery has replayed the operations over it. */
  function Again(ops: seq<WalOp>, kv: Store): Store {
    ApplyAll(ListWrites(ops), Live(ops, kv))
  }

  predicate IsData(op: WalOp) {
    op.body.intact && (op.body.payload.Insert? || op.body.payload.Update? || op.body.payload.Remove?)
  }

  predicate DataOps(ops: seq<WalOp>) {
    forall i :: 0 <= i < |ops| ==> IsData(ops[i])
  }

  predicate Puts(op: WalOp) {
    op.body.payload.Insert? || op.body.payload.Update?
  }

  function PutSeg(op: WalOp): Bytes
    requires Puts(op)
  {
    if op.body.payload.Insert? then op.body.payload.seg else op.body.payload.newSeg
  }

  /** The u32 offset of the row. */
  function PutOffset(op: WalOp): nat
    requires Puts(op)
  {
    op.body.payload.offset % U32
  }

  // ------------------------------------------------------------------
  // Reverse entries
  // ------------------------------------------------------------------

  /** What an operation leaves under the reverse key of its primary key. */
  function LeftLive(op: WalOp): Option<Value>
    requires IsData(op)
  {
    if Puts(op) then ReverseEntry(op.body.payload.pk, Some(LiveLoc(PutSeg(op), op.body.payload.offset))) else None
  }

  function LeftReplayed(op: WalOp): Option<Value>
    requires IsData(op)
  {
    if Puts(op) then ReverseEntry(op.body.payload.pk, Some(InsertLoc(PutSeg(op), op.body.payload.offset))) else None
  }

  /** The last operation on `pk`, or -1. */
  function LastOn(ops: seq<WalOp>, pk: Bytes): (i: int)
    requires DataOps(ops)
    ensures -1 <= i < |ops|
    ensures i >= 0 ==> ops[i].body.payload.pk == pk
  {
    if ops == [] then -1
    else if ops[|ops| - 1].body.payload.pk == pk then |ops| - 1
    else LastOn(ops[..|ops| - 1], pk)
  }

  lemma OneOpLookup(op: WalOp, kv: Store, pk: Bytes)
    requires IsData(op)
    ensures Get(ApplyAll(LiveWrites(op), kv), LookupKey(pk)) == if op.body.payload.pk == pk then LeftLive(op) else Get(kv, LookupKey(pk))
    ensures Get(ApplyAll(OpWrites(op), kv), LookupKey(pk)) == if op.body.payload.pk == pk then LeftReplayed(op) else Get(kv, LookupKey(pk))
  {
    match op.body.payload
    case Insert(q, seg, offset) =>
      OtherLookups(PutWrites(q, LiveLoc(seg, offset)), kv, seg, LiveLoc(seg, offset).granule, q, pk);
      OtherLookups(PutWrites(q, InsertLoc(seg, offset)), kv, seg, 0, q, pk);
    case Update(q, oldSeg, oldGranule, seg, offset) =>
      var gone, put := DeleteWrites(q, oldSeg, oldGranule), PutWrites(q, LiveLoc(seg, offset));
      ApplyConcat(gone, put, kv);
      OtherLookups(gone, kv, oldSeg, oldGranule, q, pk);
      OtherLookups(put, ApplyAll(gone, kv), seg, LiveLoc(seg, offset).granule, q, pk);
      OtherLookups(PutWrites(q, InsertLoc(seg, offset)), kv, seg, 0, q, pk);
    case Remove(q, seg, granule) =>
      OtherLookups(DeleteWrites(q, seg, granule), kv, seg, granule, q, pk);
  }

  lemma {:induction false} LastLookup(ops: seq<WalOp>, kv: Store, pk: Bytes)
    requires DataOps(ops)
    ensures var i := LastOn(ops, pk);
            && Get(ApplyAll(LiveList(ops), kv), LookupKey(pk)) == (if i < 0 then Get(kv, LookupKey(pk)) else LeftLive(ops[i]))
            && Get(ApplyAll(ListWrites(ops), kv), LookupKey(pk)) == (if i < 0 then Get(kv, LookupKey(pk)) else LeftReplayed(ops[i]))
    decreases |ops|
  {
    hide LiveWrites, OpWrites, LookupKey, LeftLive, LeftReplayed;
    if ops != [] {
      var n := |ops| - 1;
      LastLookup(ops[..n], kv, pk);
      ApplyConcat(LiveList(ops[..n]), LiveWrites(ops[n]), kv);
      ApplyConcat(ListWrites(ops[..n]), OpWrites(ops[n]), kv);
      OneOpLookup(ops[n], ApplyAll(LiveList(ops[..n]), kv), pk);
      OneOpLookup(ops[n], ApplyAll(ListWrites(ops[..n]), kv), pk);
    }
  }

  predicate NoAlias(kv: Store) {
    forall k :: k in kv ==> k.bucket == PkIdx
  }

  /** The last operation on `pk` put a row outside the first granule. */
  predicate EndsHigh(ops: seq<WalOp>, pk: Bytes)
    requires DataOps(ops)
  {
    var i := LastOn(ops, pk);
    i >= 0 && Puts(ops[i]) && PutOffset(ops[i]) >= GRANULE_ROWS
  }

  /** Replay keeps the segment and the offset of every answer; the granule becomes 0 for a row outside the first granule. */
  lemma ReplayedAnswer(ops: seq<WalOp>, kv: Store, pk: Bytes)
    requires DataOps(ops) && NoAlias(kv)
    ensures var i := LastOn(ops, pk);
            && (i < 0 ==> GetByPk(Again(ops, kv), pk) == GetByPk(Live(ops, kv), pk))
            && (i >= 0 && !Puts(ops[i]) ==> GetByPk(Again(ops, kv), pk) == GetByPk(Live(ops, kv), pk) == Ok(None))
            && (i >= 0 && Puts(ops[i]) ==>
                  && GetByPk(Live(ops, kv), pk) == Ok(Some(Loc(PutSeg(ops[i]), PutOffset(ops[i]) / GRANULE_ROWS, PutOffset(ops[i]))))
                  && GetByPk(Again(ops, kv), pk) == Ok(Some(Loc(PutSeg(ops[i]), 0, PutOffset(ops[i])))))
  {
    hide LiveList, ListWrites, LookupKey, ApplyAll;
    LastLookup(ops, kv, pk);
    LastLookup(ops, Live(ops, kv), pk);
    NoAliasKept(ops, kv);
  }

  lemma NoAliasKept(ops: seq<WalOp>, kv: Store)
    requires DataOps(ops) && NoAlias(kv)
    ensures NoAlias(Live(ops, kv)) && NoAlias(Again(ops, kv))
  {
    IndexWritesOnly(ops);
    WritesKeepNoAlias(LiveList(ops), kv);
    WritesKeepNoAlias(ListWrites(ops), Live(ops, kv));
  }

  predicate IndexOnly(ws: seq<Write>) {
    forall i :: 0 <= i < |ws| ==> ws[i].key.bucket == PkIdx
  }

  lemma OneOpIndexOnly(op: WalOp)
    requires IsData(op)
    ensures IndexOnly(LiveWrites(op)) && IndexOnly(OpWrites(op))
  {
  }

  lemma {:induction false} IndexWritesOnly(ops: seq<WalOp>)
    requires DataOps(ops)
    ensures IndexOnly(LiveList(ops)) && IndexOnly(ListWrites(ops))
    decreases |ops|
  {
    hide LiveWrites, OpWrites;
    if ops != [] {
      IndexWritesOnly(ops[..|ops| - 1]);
      OneOpIndexOnly(ops[|ops| - 1]);
    }
  }

  lemma {:induction false} WritesKeepNoAlias(ws: seq<Write>, kv: Store)
    requires IndexOnly(ws) && NoAlias(kv)
    ensures NoAlias(ApplyAll(ws, kv))
    decreases |ws|
  {
    if ws != [] { WritesKeepNoAlias(ws[..|ws| - 1], kv); }
  }

  // ------------------------------------------------------------------
  // Index entries
  // ------------------------------------------------------------------

  predicate CleanSegs(op: WalOp) {
    match op.body.payload
    case Insert(_, seg, _) => Clean(seg)
    case Update(_, oldSeg, _, newSeg, _) => Clean(oldSeg) && Clean(newSeg)
    case Remove(_, seg, _) => Clean(seg)
    case _ => true
  }

  predicate CleanOps(ops: seq<WalOp>) {
    forall i :: 0 <= i < |ops| ==> IsData(ops[i]) && CleanSegs(ops[i])
  }

  /** The operation puts `pk` into `seg`. */
  predicate PutsIn(op: WalOp, seg: Bytes, pk: Bytes) {
    Puts(op) && op.body.payload.pk == pk && PutSeg(op) == seg
  }

  /** And its live entry is in granule `g`. */
  predicate LivePut(op: WalOp, seg: Bytes, g: u32, pk: Bytes) {
    PutsIn(op, seg, pk) && PutOffset(op) / GRANULE_ROWS == g
  }

  /** A delete of the row that was filed under this entry. */
  predicate Removes(op: WalOp, seg: Bytes, g: u32, pk: Bytes) {
    op.body.payload == Remove(pk, seg, g)
  }

  /** An update that moved the row away from this entry. */
  predicate MovesAway(op: WalOp, seg: Bytes, g: u32, pk: Bytes) {
    op.body.payload.Update? && op.body.payload.pk == pk && op.body.payload.oldSeg == seg && op.body.payload.oldGranule == g
  }

  /** Some live put of the entry is followed by neither a delete nor a move. */
  predicate LivePresent(ops: seq<WalOp>, seg: Bytes, g: u32, pk: Bytes) {
    exists i :: 0 <= i < |ops| && LivePut(ops[i], seg, g, pk)
                && forall j :: i < j < |ops| ==> !Removes(ops[j], seg, g, pk) && !MovesAway(ops[j], seg, g, pk)
  }

  /** Some put into the segment is not followed by a delete in granule 0. */
  predicate PutAgain(ops: seq<WalOp>, seg: Bytes, pk: Bytes) {
    exists i :: 0 <= i < |ops| && PutsIn(ops[i], seg, pk) && forall j :: i < j < |ops| ==> !Removes(ops[j], seg, 0, pk)
  }

  predicate NeverRemoved(ops: seq<WalOp>, seg: Bytes, g: u32, pk: Bytes) {
    forall j :: 0 <= j < |ops| ==> !Removes(ops[j], seg, g, pk)
  }

  predicate NeverDropped(ops: seq<WalOp>, seg: Bytes, g: u32, pk: Bytes) {
    forall j :: 0 <= j < |ops| ==> !Removes(ops[j], seg, g, pk) && !MovesAway(ops[j], seg, g, pk)
  }

  lemma SameEntry(s1: Bytes, g1: u32, p1: Bytes, s2: Bytes, g2: u32, p2: Bytes)
    requires Clean(s1) && Clean(s2)
    ensures IdxKey(s1, g1, p1) == IdxKey(s2, g2, p2) <==> s1 == s2 && g1 == g2 && p1 == p2
  {
    if IdxKey(s1, g1, p1) == IdxKey(s2, g2, p2) { IdxKeyInjective(s1, g1, p1, s2, g2, p2); }
  }

  /** A put of (s, h, q) or a delete of it, at the entry (seg, g, pk). */
  lemma PairAtEntry(ws: seq<Write>, kv: Store, s: Bytes, h: u32, q: Bytes, seg: Bytes, g: u32, pk: Bytes)
    requires Clean(s) && Clean(seg) && |ws| == 2 && ws[0].key == IdxKey(s, h, q) && ws[1].key == LookupKey(q)
    ensures IdxKey(seg, g, pk) in ApplyAll(ws, kv) <==>
            if s == seg && h == g && q == pk then ws[0].Put? else IdxKey(seg, g, pk) in kv
  {
    hide IdxKey, LookupKey;
    TwoWrites(ws, kv);
    SameEntry(s, h, q, seg, g, pk);
    KeyFamiliesDisjoint(seg, g, pk, q);
  }

  lemma LiveOpAtEntry(op: WalOp, kv: Store, seg: Bytes, g: u32, pk: Bytes)
    requires IsData(op) && CleanSegs(op) && Clean(seg)
    ensures IdxKey(seg, g, pk) in ApplyAll(LiveWrites(op), kv) <==>
            LivePut(op, seg, g, pk) || (!Removes(op, seg, g, pk) && !MovesAway(op, seg, g, pk) && IdxKey(seg, g, pk) in kv)
  {
    hide IdxKey, LookupKey;
    match op.body.payload
    case Insert(q, s, offset) =>
      PairAtEntry(PutWrites(q, LiveLoc(s, offset)), kv, s, LiveLoc(s, offset).granule, q, seg, g, pk);
    case Update(q, oldSeg, oldGranule, s, offset) =>
      var gone, put := DeleteWrites(q, oldSeg, oldGranule), PutWrites(q, LiveLoc(s, offset));
      ApplyConcat(gone, put, kv);
      PairAtEntry(gone, kv, oldSeg, oldGranule, q, seg, g, pk);
      PairAtEntry(put, ApplyAll(gone, kv), s, LiveLoc(s, offset).granule, q, seg, g, pk);
    case Remove(q, s, granule) =>
      PairAtEntry(DeleteWrites(q, s, granule), kv, s, granule, q, seg, g, pk);
  }

  lemma ReplayOpAtEntry(op: WalOp, kv: Store, seg: Bytes, g: u32, pk: Bytes)
    requires IsData(op) && CleanSegs(op) && Clean(seg)
    ensures IdxKey(seg, g, pk) in ApplyAll(OpWrites(op), kv) <==>
            (g == 0 && PutsIn(op, seg, pk)) || (!Removes(op, seg, g, pk) && IdxKey(seg, g, pk) in kv)
  {
    hide IdxKey, LookupKey;
    match op.body.payload
    case Insert(q, s, offset) => PairAtEntry(PutWrites(q, InsertLoc(s, offset)), kv, s, 0, q, seg, g, pk);
    case Update(q, _, _, s, offset) => PairAtEntry(PutWrites(q, InsertLoc(s, offset)), kv, s, 0, q, seg, g, pk);
    case Remove(q, s, granule) => PairAtEntry(DeleteWrites(q, s, granule), kv, s, granule, q, seg, g, pk);
  }

  /** Which index entries the live operations leave. */
  lemma {:induction false} LiveEntryIff(ops: seq<WalOp>, kv: Store, seg: Bytes, g: u32, pk: Bytes)
    requires CleanOps(ops) && Clean(seg)
    ensures IdxKey(seg, g, pk) in Live(ops, kv) <==>
            LivePresent(ops, seg, g, pk) || (NeverDropped(ops, seg, g, pk) && IdxKey(seg, g, pk) in kv)
    decreases |ops|
  {
    hide IdxKey, LiveWrites, LivePut, Removes, MovesAway;
    if ops != [] {
      var n := |ops| - 1;
      LiveEntryIff(ops[..n], kv, seg, g, pk);
      ApplyConcat(LiveList(ops[..n]), LiveWrites(ops[n]), kv);
      LiveOpAtEntry(ops[n], Live(ops[..n], kv), seg, g, pk);
      LivePresentStep(ops, seg, g, pk);
    }
  }

  lemma LivePresentStep(ops: seq<WalOp>, seg: Bytes, g: u32, pk: Bytes)
    requires ops != []
    ensures var n := |ops| - 1;
            LivePresent(ops, seg, g, pk) <==>
            LivePut(ops[n], seg, g, pk) ||
            (!Removes(ops[n], seg, g, pk) && !MovesAway(ops[n], seg, g, pk) && LivePresent(ops[..n], seg, g, pk))
  {
    hide LivePut, Removes, MovesAway;
    var n := |ops| - 1;
    var init := ops[..n];
    if LivePut(ops[n], seg, g, pk) {
      assert LivePresent(ops, seg, g, pk);
    } else if LivePresent(ops, seg, g, pk) {
      var i :| 0 <= i < |ops| && LivePut(ops[i], seg, g, pk)
               && forall j :: i < j < |ops| ==> !Removes(ops[j], seg, g, pk) && !MovesAway(ops[j], seg, g, pk);
      assert i < n && init[i] == ops[i];
    } else if LivePresent(init, seg, g, pk) {
      var i :| 0 <= i < n && LivePut(init[i], seg, g, pk)
               && forall j :: i < j < n ==> !Removes(init[j], seg, g, pk) && !MovesAway(init[j], seg, g, pk);
      assert ops[i] == init[i] && forall j :: i < j < n ==> ops[j] == init[j];
    }
  }

  /** Which index entries replay leaves, over any store. */
  lemma {:induction false} ReplayEntryIff(ops: seq<WalOp>, kv: Store, seg: Bytes, g: u32, pk: Bytes)
    requires CleanOps(ops) && Clean(seg)
    ensures IdxKey(seg, g, pk) in ApplyAll(ListWrites(ops), kv) <==>
            (g == 0 && PutAgain(ops, seg, pk)) || (NeverRemoved(ops, seg, g, pk) && IdxKey(seg, g, pk) in kv)
    decreases |ops|
  {
    hide IdxKey, OpWrites, PutsIn, Removes;
    if ops != [] {
      var n := |ops| - 1;
      ReplayEntryIff(ops[..n], kv, seg, g, pk);
      ApplyConcat(ListWrites(ops[..n]), OpWrites(ops[n]), kv);
      ReplayOpAtEntry(ops[n], ApplyAll(ListWrites(ops[..n]), kv), seg, g, pk);
    }
  }

  /** A put that replay repeats although the live entry is gone: the row is outside the first granule, or an update moved it away. */
  predicate Resurrects(ops: seq<WalOp>, i: nat, seg: Bytes, pk: Bytes)
    requires i < |ops|
  {
    && PutsIn(ops[i], seg, pk)
    && (forall j :: i < j < |ops| ==> !Removes(ops[j], seg, 0, pk))
    && (PutOffset(ops[i]) >= GRANULE_ROWS || exists j :: i < j < |ops| && MovesAway(ops[j], seg, 0, pk))
  }

  /**
   The index entries that replay adds: those of granule 0 that are not live, for a put that no delete in
   granule 0 follows; and such a put was outside the first granule or an update moved its row away.
   */
  lemma EntryAddedIff(ops: seq<WalOp>, kv: Store, seg: Bytes, g: u32, pk: Bytes)
    requires CleanOps(ops) && Clean(seg)
    ensures IdxKey(seg, g, pk) !in Live(ops, kv) && IdxKey(seg, g, pk) in Again(ops, kv) <==>
            g == 0 && IdxKey(seg, g, pk) !in Live(ops, kv) && exists i: nat :: i < |ops| && Resurrects(ops, i, seg, pk)
  {
    hide IdxKey, Live;
    ReplayEntryIff(ops, Live(ops, kv), seg, g, pk);
    LiveEntryIff(ops, kv, seg, g, pk);
    if g == 0 && IdxKey(seg, g, pk) !in Live(ops, kv) && PutAgain(ops, seg, pk) {
      var i :| 0 <= i < |ops| && PutsIn(ops[i], seg, pk) && forall j :: i < j < |ops| ==> !Removes(ops[j], seg, 0, pk);
      if PutOffset(ops[i]) < GRANULE_ROWS {
        assert LivePut(ops[i], seg, 0, pk);
        var j :| i < j < |ops| && (Removes(ops[j], seg, 0, pk) || MovesAway(ops[j], seg, 0, pk));
      }
      assert Resurrects(ops, i, seg, pk);
    }
  }

  /** The index entries that replay removes: a row outside the first granule, filed again under an entry that was deleted earlier. */
  lemma EntryLostIff(ops: seq<WalOp>, kv: Store, seg: Bytes, g: u32, pk: Bytes)
    requires CleanOps(ops) && Clean(seg)
    ensures IdxKey(seg, g, pk) in Live(ops, kv) && IdxKey(seg, g, pk) !in Again(ops, kv) <==>
            g > 0 && LivePresent(ops, seg, g, pk) && !NeverRemoved(ops, seg, g, pk)
  {
    hide IdxKey, Live;
    ReplayEntryIff(ops, Live(ops, kv), seg, g, pk);
    LiveEntryIff(ops, kv, seg, g, pk);
    if g == 0 && LivePresent(ops, seg, g, pk) {
      var i :| 0 <= i < |ops| && LivePut(ops[i], seg, g, pk)
               && forall j :: i < j < |ops| ==> !Removes(ops[j], seg, g, pk) && !MovesAway(ops[j], seg, g, pk);
      assert PutsIn(ops[i], seg, pk);
    }
  }

  // ------------------------------------------------------------------
  // Compaction crashes over a live index
  // ------------------------------------------------------------------

  /** Over a live index with a row outside the first granule no crash of a compaction is repaired, wherever it happens. */
  lemma HighRowBreaksRepair(ops: seq<WalOp>, kv: Store, pk: Bytes, oldSeg: Bytes, newSeg: Bytes, entries: seq<Entry>, cut: nat)
    requires CleanOps(ops) && NoAlias(kv) && Clean(oldSeg) && cut <= |CompactionWrites(oldSeg, newSeg, entries)|
    requires EndsHigh(ops, pk)
    ensures var cw := CompactionWrites(oldSeg, newSeg, entries);
            ApplyAll(ListWrites(ops), ApplyAll(cw[..cut], Live(ops, kv))) != ApplyAll(cw, Live(ops, kv))
  {
    hide Live, GetByPk, ListWrites, CompactionWrites, ApplyAll, NoneReplayed;
    NoAliasKept(ops, kv);
    ReplayedAnswer(ops, kv, pk);
    CompactionCrashRecoversIff(ops, Live(ops, kv), oldSeg, newSeg, entries, cut);
  }

  /** Nor is one over a live index where replay adds an entry. */
  lemma AddedEntryBreaksRepair(ops: seq<WalOp>, kv: Store, seg: Bytes, pk: Bytes, i: nat,
                               oldSeg: Bytes, newSeg: Bytes, entries: seq<Entry>, cut: nat)
    requires CleanOps(ops) && NoAlias(kv) && Clean(oldSeg) && Clean(seg) && cut <= |CompactionWrites(oldSeg, newSeg, entries)|
    requires i < |ops| && Resurrects(ops, i, seg, pk) && IdxKey(seg, 0, pk) !in Live(ops, kv)
    ensures var cw := CompactionWrites(oldSeg, newSeg, entries);
            ApplyAll(ListWrites(ops), ApplyAll(cw[..cut], Live(ops, kv))) != ApplyAll(cw, Live(ops, kv))
  {
    hide Live, ListWrites, CompactionWrites, ApplyAll, NoneReplayed, IdxKey, Resurrects;
    NoAliasKept(ops, kv);
    EntryAddedIff(ops, kv, seg, 0, pk);
    CompactionCrashRecoversIff(ops, Live(ops, kv), oldSeg, newSeg, entries, cut);
  }

  function InsertOf(txn: nat, pk: Bytes, seg: Bytes, offset: nat): WalOp {
    WalRecord(InsertOp, txn, Change(Insert(pk, seg, offset), true))
  }

  function UpdateOf(txn: nat, pk: Bytes, oldSeg: Bytes, oldGranule: u32, newSeg: Bytes, offset: nat): WalOp {
    WalRecord(UpdateOp, txn, Change(Update(pk, oldSeg, oldGranule, newSeg, offset), true))
  }

  /**
   One committed insert at the start of granule 1 and a compaction of another segment and another key that has
   made all its writes: no compacted key is replayed, and still recovery does not give the compacted store.
   */
  lemma GranuleOneWitness(txn: nat, pk: Bytes, seg: Bytes, q: Bytes, oldSeg: Bytes, newSeg: Bytes, offset: nat)
    requires Clean(seg) && Clean(oldSeg) && pk != q
    ensures var ops, entries := [InsertOf(txn, pk, seg, GRANULE_ROWS)], [Entry(q, 0, offset)];
            var kv, cw := Live(ops, map[]), CompactionWrites(oldSeg, newSeg, entries);
            NoneReplayed(ops, entries) && ApplyAll(ListWrites(ops), ApplyAll(cw, kv)) != ApplyAll(cw, kv)
  {
    var op := InsertOf(txn, pk, seg, GRANULE_ROWS);
    var ops, entries := [op], [Entry(q, 0, offset)];
    assert ops[..0] == [] && LastOn(ops, pk) == 0;
    var cw := CompactionWrites(oldSeg, newSeg, entries);
    OnlyOwnLookup(op, q);
    assert cw[..|cw|] == cw;
    HighRowBreaksRepair(ops, map[], pk, oldSeg, newSeg, entries, |cw|);
  }

  lemma OnlyOwnLookup(op: WalOp, q: Bytes)
    requires op.body.payload.Insert? && op.body.intact && op.body.payload.pk != q
    ensures LookupKey(q) !in Touched(ListWrites([op]))
  {
    var pk, l := op.body.payload.pk, InsertLoc(op.body.payload.seg, op.body.payload.offset);
    assert [op][..0] == [] && ListWrites([op]) == [] + PutWrites(pk, l) == PutWrites(pk, l);
    KeyFamiliesDisjoint(l.seg, l.granule, pk, q);
    if LookupKey(q) == LookupKey(pk) { LookupKeyInjective(q, pk); }
  }

  /** An insert and an update that moves the row to another segment: replay brings the old index entry back. */
  lemma MovedRowWitness(txn: nat, pk: Bytes, seg: Bytes, newSeg: Bytes, a: nat, b: nat)
    requires Clean(seg) && Clean(newSeg) && seg != newSeg && a < GRANULE_ROWS && b < GRANULE_ROWS
    ensures var ops := [InsertOf(txn, pk, seg, a), UpdateOf(txn, pk, seg, 0, newSeg, b)];
            IdxKey(seg, 0, pk) !in Live(ops, map[]) && IdxKey(seg, 0, pk) in Again(ops, map[])
  {
    hide IdxKey, Live, Again;
    var ops := [InsertOf(txn, pk, seg, a), UpdateOf(txn, pk, seg, 0, newSeg, b)];
    assert MovesAway(ops[1], seg, 0, pk) && PutsIn(ops[0], seg, pk);
    assert Resurrects(ops, 0, seg, pk);
    LiveEntryIff(ops, map[], seg, 0, pk);
    EntryAddedIff(ops, map[], seg, 0, pk);
  }

  // ------------------------------------------------------------------
  // All lookups
  // ------------------------------------------------------------------

  /** Every lookup answers alike over the two stores. */
  ghost predicate SameAnswers(a: Store, b: Store) {
    forall pk :: GetByPk(a, pk) == GetByPk(b, pk)
  }

  /** No key ends with a row outside the first granule. */
  ghost predicate NoneEndsHigh(ops: seq<WalOp>)
    requires DataOps(ops)
  {
    forall pk :: !EndsHigh(ops, pk)
  }

  /**
   The comment on `replay_wal_ops` says that index updates can safely run again.  Every lookup answers as before
   exactly when the last operation on each key did not put a row outside the first granule.
   */
  lemma ReplayKeepsLookupsIff(ops: seq<WalOp>, kv: Store)
    requires DataOps(ops) && NoAlias(kv)
    ensures SameAnswers(Again(ops, kv), Live(ops, kv)) <==> NoneEndsHigh(ops)
  {
    hide Live, Again, GetByPk;
    forall pk ensures GetByPk(Again(ops, kv), pk) == GetByPk(Live(ops, kv), pk) <==> !EndsHigh(ops, pk) {
      ReplayedAnswer(ops, kv, pk);
    }
  }

  /** The two operations leave the same reverse entry, one live and the other replayed: both removed, or the same row in the first granule. */
  predicate SameOutcome(live: WalOp, replayed: WalOp) {
    || (!Puts(live) && !Puts(replayed))
    || (Puts(live) && Puts(replayed) && PutSeg(live) == PutSeg(replayed) && PutOffset(live) == PutOffset(replayed) < GRANULE_ROWS)
  }

  /**
   Commit order may differ from the order of the live operations, and uncommitted ones are not replayed.  For any
   live operations and any replayed ones the reverse entry of `pk` stays as it was exactly when none of the
   replayed ones names it, or the last one on either side leaves the same.
   */
  lemma ReorderedLookupIff(live: seq<WalOp>, ops: seq<WalOp>, kv: Store, pk: Bytes)
    requires DataOps(live) && DataOps(ops) && (LastOn(ops, pk) >= 0 ==> LastOn(live, pk) >= 0)
    ensures Get(ApplyAll(ListWrites(ops), Live(live, kv)), LookupKey(pk)) == Get(Live(live, kv), LookupKey(pk)) <==>
            (LastOn(ops, pk) >= 0 ==> SameOutcome(live[LastOn(live, pk)], ops[LastOn(ops, pk)]))
  {
    hide LiveList, ListWrites, LookupKey, ApplyAll, LeftLive, LeftReplayed, SameOutcome, LastOn;
    LastLookup(live, kv, pk);
    LastLookup(ops, Live(live, kv), pk);
    if LastOn(ops, pk) >= 0 { SameLeft(live[LastOn(live, pk)], ops[LastOn(ops, pk)]); }
  }

  lemma SameLeft(live: WalOp, replayed: WalOp)
    requires IsData(live) && IsData(replayed) && live.body.payload.pk == replayed.body.payload.pk
    ensures LeftLive(live) == LeftReplayed(replayed) <==> SameOutcome(live, replayed)
  {
  }
}
