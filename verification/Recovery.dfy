/**
 Crash recovery of the primary-key index and segment aliases: the apply closure
 of `replay_wal_ops` (src/db.rs), the WAL scan `replay_committed_ops`
 (src/write/wal_recovery.rs) and the key-value half of `run_compaction`
 (src/compaction/nonblocking.rs).
 */
module Recovery {
  import opened Bytes
  import opened Common
  import opened Kv
  import opened PkIndex
  import opened WalScan

  datatype Entry = Entry(pk: Bytes, granule: u32, offset: nat)

  /** The parts of a WAL payload that reach the index and alias buckets. */
  datatype Payload =
    | Insert(pk: Bytes, seg: Bytes, offset: nat)
    | Update(pk: Bytes, oldSeg: Bytes, oldGranule: u32, newSeg: Bytes, offset: nat)
    | Remove(pk: Bytes, seg: Bytes, granule: u32)
    | Compaction(oldSeg: Bytes, newSeg: Bytes, entries: seq<Entry>, commit: bool)
    | Marker

  /** `intact`: the Arrow or codec bytes decode and the data files accept the write. */
  datatype Change = Change(payload: Payload, intact: bool)

  type WalOp = WalRecord<Change>

  predicate Succeeds(op: WalOp) {
    op.body.intact || op.body.payload.Marker? || (op.body.payload.Compaction? && !op.body.payload.commit)
  }

  // ------------------------------------------------------------------
  // One operation
  // ------------------------------------------------------------------

  /** Row offsets are u64 in the WAL and cast to u32 for the index. */
  function InsertLoc(seg: Bytes, offset: nat): Loc {
    Loc(seg, 0, offset % U32)
  }

  function EntryWrites(oldSeg: Bytes, newSeg: Bytes, e: Entry): seq<Write> {
    [Put(LookupKey(e.pk), Location(newSeg, e.granule, e.offset)), Delete(IdxKey(oldSeg, e.granule, e.pk))]
  }

  function EntriesWrites(oldSeg: Bytes, newSeg: Bytes, entries: seq<Entry>): seq<Write> {
    if entries == [] then []
    else EntriesWrites(oldSeg, newSeg, entries[..|entries| - 1]) + EntryWrites(oldSeg, newSeg, entries[|entries| - 1])
  }

  /** The single writes of a compaction, in order; the alias comes last. */
  function CompactionWrites(oldSeg: Bytes, newSeg: Bytes, entries: seq<Entry>): seq<Write> {
    EntriesWrites(oldSeg, newSeg, entries) + [Put(AliasKey(oldSeg), Alias(newSeg))]
  }

  /** An operation that fails returns before its first key-value write. */
  function OpWrites(op: WalOp): seq<Write> {
    if !op.body.intact then []
    else
      match op.body.payload
      case Insert(pk, seg, offset) => PutWrites(pk, InsertLoc(seg, offset))
      case Update(pk, _, _, newSeg, offset) => PutWrites(pk, InsertLoc(newSeg, offset))
      case Remove(pk, seg, granule) => DeleteWrites(pk, seg, granule)
      case Compaction(oldSeg, newSeg, entries, commit) => if commit then CompactionWrites(oldSeg, newSeg, entries) else []
      case Marker => []
  }

  function ListWrites(ops: seq<WalOp>): seq<Write> {
    if ops == [] then [] else ListWrites(ops[..|ops| - 1]) + OpWrites(ops[|ops| - 1])
  }

  lemma {:induction false} ListConcat(a: seq<WalOp>, b: seq<WalOp>)
    ensures ListWrites(a + b) == ListWrites(a) + ListWrites(b)
    decreases |b|
  {
    hide OpWrites;
    if b == [] {
      assert a + b == a;
    } else {
      ListConcat(a, b[..|b| - 1]);
      assert (a + b)[..|a + b| - 1] == a + b[..|b| - 1];
    }
  }

  // ------------------------------------------------------------------
  // The WAL scan
  // ------------------------------------------------------------------

  /** Operations waiting for their commit, and the operations handed to the closure that succeeded, in order. */
  datatype Scan = Scan(pending: map<nat, seq<WalOp>>, applied: seq<WalOp>)

  /** A transaction is applied up to its first failing operation. */
  function Runnable(ops: seq<WalOp>): seq<WalOp> {
    if ops == [] || !Succeeds(ops[0]) then [] else [ops[0]] + Runnable(ops[1..])
  }

  function Pending(m: map<nat, seq<WalOp>>, t: nat): seq<WalOp> {
    if t in m then m[t] else []
  }

  function Step(s: Scan, op: WalOp): Scan {
    match op.opType
    case InsertOp | DeleteOp | UpdateOp => s.(pending := s.pending[op.txn := Pending(s.pending, op.txn) + [op]])
    case BeginOp => s.(pending := s.pending[op.txn := Pending(s.pending, op.txn)])
    case CommitOp => Scan(s.pending - {op.txn}, s.applied + Runnable(Pending(s.pending, op.txn)))
    case RollbackOp => s.(pending := s.pending - {op.txn})
    case CheckpointOp | CompactionOp => s
  }

  function ScanWal(records: seq<WalOp>): Scan {
    if records == [] then Scan(map[], []) else Step(ScanWal(records[..|records| - 1]), records[|records| - 1])
  }

  function RecoveryWrites(records: seq<WalOp>): seq<Write> {
    ListWrites(ScanWal(records).applied)
  }

  class Database {
    var kv: Store

    constructor (kv: Store)
      ensures this.kv == kv
    {
      this.kv := kv;
    }

    /** The compaction arm of the closure; `run_compaction` issues the same writes after its WAL record. */
    method ApplyCompaction(oldSeg: Bytes, newSeg: Bytes, entries: seq<Entry>)
      modifies this
      ensures kv == ApplyAll(CompactionWrites(oldSeg, newSeg, entries), old(kv))
      ensures Compacted(old(kv), kv, oldSeg, newSeg, entries)
    {
      hide Compacted;
      CompactionLeaves(kv, oldSeg, newSeg, entries);
      var pkOps: seq<Write> := [];
      for i := 0 to |entries|
        invariant pkOps == EntriesWrites(oldSeg, newSeg, entries[..i])
        invariant kv == old(kv)
      {
        assert entries[..i + 1][..i] == entries[..i];
        var e := entries[i];
        pkOps := pkOps + [Put(LookupKey(e.pk), Location(newSeg, e.granule, e.offset)), Delete(IdxKey(oldSeg, e.granule, e.pk))];
      }
      assert entries[..|entries|] == entries;
      if pkOps != [] { WriteBatch(pkOps); }
      kv := kv[AliasKey(oldSeg) := Alias(newSeg)];
      ApplyConcat(pkOps, [Put(AliasKey(oldSeg), Alias(newSeg))], old(kv));
    }

    method WriteBatch(ws: seq<Write>)
      modifies this
      ensures kv == ApplyAll(ws, old(kv))
    {
      for i := 0 to |ws|
        invariant kv == ApplyAll(ws[..i], old(kv))
      {
        assert ws[..i + 1][..i] == ws[..i];
        match ws[i]
        case Put(k, v) => kv := kv[k := v];
        case Delete(k) => kv := kv - {k};
      }
      assert ws[..|ws|] == ws;
    }

    /** The apply closure (src/db.rs:1185). */
    method ApplyOp(op: WalOp) returns (ok: bool)
      modifies this
      ensures ok <==> Succeeds(op)
      ensures !ok ==> kv == old(kv)
      ensures kv == ApplyAll(OpWrites(op), old(kv))
      ensures op.body.intact ==> Applied(op.body.payload, old(kv), kv)
    {
      hide Applied;
      if op.body.intact { OpLeaves(op, kv); }
      ok := true;
      match op.body.payload
      case Insert(pk, seg, offset) =>
        if !op.body.intact { return false; }
        WriteBatch(PutWrites(pk, InsertLoc(seg, offset)));
      case Update(pk, _, _, newSeg, offset) =>
        if !op.body.intact { return false; }
        WriteBatch(PutWrites(pk, InsertLoc(newSeg, offset)));
      case Remove(pk, seg, granule) =>
        if !op.body.intact { return false; }
        WriteBatch([Delete(IdxKey(seg, granule, pk)), Delete(LookupKey(pk))]);
      case Compaction(oldSeg, newSeg, entries, commit) =>
        if commit {
          if !op.body.intact { return false; }
          ApplyCompaction(oldSeg, newSeg, entries);
        }
      case Marker =>
    }

    /** `replay_committed_ops` (src/write/wal_recovery.rs:237). */
    method Recover(records: seq<WalOp>) returns (applied: seq<WalOp>)
      modifies this
      ensures applied == ScanWal(records).applied
      ensures forall t :: ReplaysRecords(records, t, OfTxn(applied, t))
      ensures kv == ApplyAll(RecoveryWrites(records), old(kv))
    {
      hide OpWrites, Runnable, ReplaysRecords;
      var pending: map<nat, seq<WalOp>> := map[];
      applied := [];
      for i := 0 to |records|
        invariant Scan(pending, applied) == ScanWal(records[..i])
        invariant kv == ApplyAll(ListWrites(applied), old(kv))
      {
        assert records[..i + 1][..i] == records[..i];
        var op := records[i];
        match op.opType
        case InsertOp | DeleteOp | UpdateOp =>
          pending := pending[op.txn := Pending(pending, op.txn) + [op]];
        case BeginOp =>
          pending := pending[op.txn := Pending(pending, op.txn)];
        case CommitOp =>
          var ops := Pending(pending, op.txn);
          pending := pending - {op.txn};
          var done := ApplyTransaction(ops);
          ListConcat(applied, done);
          ApplyConcat(ListWrites(applied), ListWrites(done), old(kv));
          applied := applied + done;
        case RollbackOp =>
          pending := pending - {op.txn};
        case CheckpointOp | CompactionOp =>
      }
      assert records[..|records|] == records;
      RecoveryReplays(records);
    }

    method ApplyTransaction(ops: seq<WalOp>) returns (done: seq<WalOp>)
      modifies this
      ensures done == Runnable(ops)
      ensures kv == ApplyAll(ListWrites(done), old(kv))
    {
      hide OpWrites, Succeeds, ListWrites, ApplyAll, Runnable;
      NothingYet(kv);
      done := [];
      var i := 0;
      while i < |ops|
        invariant 0 <= i <= |ops| && done + Runnable(ops[i..]) == Runnable(ops)
        invariant kv == ApplyAll(ListWrites(done), old(kv))
      {
        RunnableStep(ops, i);
        ListStep(done, ops[i]);
        ApplyConcat(ListWrites(done), OpWrites(ops[i]), old(kv));
        var ok := ApplyOp(ops[i]);
        if !ok { return; }
        assert done + ([ops[i]] + Runnable(ops[i + 1..])) == (done + [ops[i]]) + Runnable(ops[i + 1..]);
        done := done + [ops[i]];
        i := i + 1;
      }
      RunnableEnd(ops);
    }
  }

  lemma NothingYet(kv: Store)
    ensures ApplyAll(ListWrites([]), kv) == kv
  {
  }

  lemma RunnableStep(ops: seq<WalOp>, i: nat)
    requires i < |ops|
    ensures Runnable(ops[i..]) == if Succeeds(ops[i]) then [ops[i]] + Runnable(ops[i + 1..]) else []
  {
    assert ops[i..][1..] == ops[i + 1..];
  }

  lemma RunnableEnd(ops: seq<WalOp>)
    ensures Runnable(ops[|ops|..]) == []
  {
  }

  lemma ListStep(done: seq<WalOp>, op: WalOp)
    ensures ListWrites(done + [op]) == ListWrites(done) + OpWrites(op)
  {
    assert (done + [op])[..|done|] == done;
  }

  // ------------------------------------------------------------------
  // Convergence
  // ------------------------------------------------------------------

  /**
   Replay converges from every store that earlier, interrupted work could have left behind:
   replaying the whole list gives one store, whatever the keys it writes held before.
   */
  lemma ReplayConverges(ops: seq<WalOp>, kv: Store, other: Store)
    requires AgreeOutside(other, kv, Touched(ListWrites(ops)))
    ensures ApplyAll(ListWrites(ops), other) == ApplyAll(ListWrites(ops), kv)
  {
    Overwrites(ListWrites(ops), other, kv);
  }

  /** Any number of crashes, each after any number of single writes, compaction writes included. */
  lemma CrashRestartConverges(ops: seq<WalOp>, kv: Store, cuts: seq<nat>)
    ensures ApplyAll(ListWrites(ops), Crashed(ListWrites(ops), kv, cuts)) == ApplyAll(ListWrites(ops), kv)
  {
    CrashedAgrees(ListWrites(ops), kv, cuts);
    ReplayConverges(ops, kv, Crashed(ListWrites(ops), kv, cuts));
  }

  /** Recovering twice is recovering once. */
  lemma RecoveryIdempotent(records: seq<WalOp>, kv: Store)
    ensures var ws := RecoveryWrites(records); ApplyAll(ws, ApplyAll(ws, kv)) == ApplyAll(ws, kv)
  {
    var ws := RecoveryWrites(records);
    PrefixAgrees(ws, |ws|, kv);
    assert ws[..|ws|] == ws;
    Overwrites(ws, ApplyAll(ws, kv), kv);
  }

  /** A longer WAL only adds writes at the end. */
  lemma {:induction false} GrownWalExtendsWrites(records: seq<WalOp>, n: nat)
    requires n <= |records|
    ensures RecoveryWrites(records[..n]) <= RecoveryWrites(records) && ScanWal(records[..n]).applied <= ScanWal(records).applied
    decreases |records| - n
  {
    hide ScanWal, RecoveryWrites;
    if n == |records| {
      assert records[..n] == records;
    } else {
      GrownWalExtendsWrites(records, n + 1);
      OneRecordMore(records, n);
    }
  }

  lemma OneRecordMore(records: seq<WalOp>, n: nat)
    requires n < |records|
    ensures RecoveryWrites(records[..n]) <= RecoveryWrites(records[..n + 1])
    ensures ScanWal(records[..n]).applied <= ScanWal(records[..n + 1]).applied
  {
    hide Runnable, ListWrites;
    assert records[..n + 1][..n] == records[..n];
    var s, op := ScanWal(records[..n]), records[n];
    if op.opType.CommitOp? { ListConcat(s.applied, Runnable(Pending(s.pending, op.txn))); }
  }

  /** A recovery that saw the first `len` records of the log and crashed after `cut` single writes. */
  datatype Crash = Crash(len: nat, cut: nat)

  function CrashedWhileGrowing(records: seq<WalOp>, kv: Store, crashes: seq<Crash>): Store {
    if crashes == [] then kv
    else
      var n := |crashes| - 1;
      var before := CrashedWhileGrowing(records, kv, crashes[..n]);
      var ws := RecoveryWrites(records[..Min(crashes[n].len, |records|)]);
      ApplyAll(ws[..Min(crashes[n].cut, |ws|)], before)
  }

  lemma {:induction false} GrowingAgrees(records: seq<WalOp>, kv: Store, crashes: seq<Crash>)
    ensures AgreeOutside(CrashedWhileGrowing(records, kv, crashes), kv, Touched(RecoveryWrites(records)))
    decreases |crashes|
  {
    if crashes != [] {
      hide RecoveryWrites, ApplyAll, Touched;
      var n := |crashes| - 1;
      var len := Min(crashes[n].len, |records|);
      GrowingAgrees(records, kv, crashes[..n]);
      GrownWalExtendsWrites(records, len);
      var ws, all := RecoveryWrites(records[..len]), RecoveryWrites(records);
      var cut := Min(crashes[n].cut, |ws|);
      assert ws[..cut] == all[..cut];
      PrefixAgrees(all, cut, CrashedWhileGrowing(records, kv, crashes[..n]));
    }
  }

  /** Recovery converges while the log grows: crashes at any log length and any single write, then one full recovery. */
  lemma GrowingLogConverges(records: seq<WalOp>, kv: Store, crashes: seq<Crash>)
    ensures ApplyAll(RecoveryWrites(records), CrashedWhileGrowing(records, kv, crashes)) == ApplyAll(RecoveryWrites(records), kv)
  {
    GrowingAgrees(records, kv, crashes);
    Overwrites(RecoveryWrites(records), CrashedWhileGrowing(records, kv, crashes), kv);
  }

  // ------------------------------------------------------------------
  // Which records recovery replays
  // ------------------------------------------------------------------

  function OfTxn(ops: seq<WalOp>, t: nat): seq<WalOp> {
    if ops == [] then []
    else OfTxn(ops[..|ops| - 1], t) + if ops[|ops| - 1].txn == t then [ops[|ops| - 1]] else []
  }

  lemma {:induction false} OfTxnConcat(a: seq<WalOp>, b: seq<WalOp>, t: nat)
    ensures OfTxn(a + b, t) == OfTxn(a, t) + OfTxn(b, t)
    decreases |b|
  {
    if b == [] {
      assert a + b == a;
    } else {
      OfTxnConcat(a, b[..|b| - 1], t);
      assert (a + b)[..|a + b| - 1] == a + b[..|b| - 1];
    }
  }

  lemma {:induction false} OfTxnUniform(ops: seq<WalOp>, u: nat, t: nat)
    requires forall k :: 0 <= k < |ops| ==> ops[k].txn == u
    ensures OfTxn(ops, t) == if t == u then ops else []
    decreases |ops|
  {
    if ops != [] { OfTxnUniform(ops[..|ops| - 1], u, t); }
  }

  lemma {:induction false} RunnablePart(ops: seq<WalOp>)
    ensures Runnable(ops) <= ops
    ensures (forall k :: 0 <= k < |ops| ==> Succeeds(ops[k])) ==> Runnable(ops) == ops
    ensures forall k :: 0 <= k < |Runnable(ops)| ==> Succeeds(Runnable(ops)[k])
    decreases |ops|
  {
    if ops != [] {
      RunnablePart(ops[1..]);
      assert ops == [ops[0]] + ops[1..];
    }
  }

  /** The part of an index list before its first failing record. */
  function RunIdx(records: seq<WalOp>, p: seq<nat>): (r: seq<nat>)
    requires Below(p, |records|)
    ensures r <= p
  {
    if p == [] || !Succeeds(records[p[0]]) then []
    else
      assert Below(p[1..], |records|) && p == [p[0]] + p[1..];
      [p[0]] + RunIdx(records, p[1..])
  }

  /** The replayed records of transaction `t`, commit by commit. */
  function AppliedIdx(records: seq<WalOp>, t: nat): (a: seq<nat>)
    ensures Below(a, |records|)
  {
    if records == [] then []
    else
      var init, op := records[..|records| - 1], records[|records| - 1];
      PendingBelow(Events(init), t);
      AppliedIdx(init, t) + if EventOf(op.opType, op.txn) == Commit(t) then RunIdx(init, PendingIdx(Events(init), t)) else []
  }

  lemma PendingBelow(es: seq<Event>, t: nat)
    ensures Below(PendingIdx(es, t), |es|) && Ascending(PendingIdx(es, t))
  {
    ScanAscending(es, t);
    var e, p := EmittedIdx(es, t), PendingIdx(es, t);
    BelowParts(e, p, |es|);
    forall i, j | 0 <= i < j < |p| ensures p[i] < p[j] {
      assert (e + p)[|e| + i] < (e + p)[|e| + j];
    }
  }

  /** No commit and no rollback of the transaction lies between its data records `k` and `i`. */
  predicate SameGroup(es: seq<Event>, k: nat, i: nat)
    requires i < |es| && es[i].Data?
  {
    k <= i && es[k] == es[i] && forall m :: k < m < i ==> es[m] != Commit(es[i].txn) && es[m] != Rollback(es[i].txn)
  }

  /** Record `i` applies, and so does every earlier record of its transaction since the last commit or rollback. */
  ghost predicate Unbroken(records: seq<WalOp>, i: nat)
    requires i < |records| && Events(records)[i].Data?
  {
    forall k: nat :: SameGroup(Events(records), k, i) ==> Succeeds(records[k])
  }

  ghost predicate Replayed(records: seq<WalOp>, t: nat, i: nat) {
    Committed(Events(records), i) && records[i].txn == t && Unbroken(records, i)
  }

  /** Record `k` belongs to the same commit as the later record `i`: no commit or rollback record of the transaction between. */
  predicate SameCommit(records: seq<WalOp>, k: nat, i: nat)
    requires i < |records|
  {
    && k <= i && CarriesData(records[k]) && records[k].txn == records[i].txn
    && forall m :: k < m < i ==> !Ends(records[m], records[i].txn, CommitOp) && !Ends(records[m], records[i].txn, RollbackOp)
  }

  /** The same, said of the records themselves: committed, and nothing of its commit up to it fails. */
  ghost predicate RecordReplayed(records: seq<WalOp>, t: nat, i: nat) {
    && i < |records| && RecordCommitted(records, i) && records[i].txn == t
    && forall k: nat :: SameCommit(records, k, i) ==> Succeeds(records[k])
  }

  lemma ReplayedRecords(records: seq<WalOp>, t: nat, i: nat)
    ensures Replayed(records, t, i) <==> RecordReplayed(records, t, i)
  {
    hide RecordCommitted, Succeeds, Committed;
    CommittedRecords(records, i);
    CommittedIsData(records, i);
    if Committed(Events(records), i) {
      forall k: nat ensures SameGroup(Events(records), k, i) <==> SameCommit(records, k, i) {
        SameGroupRecords(records, k, i);
      }
      hide SameGroup, SameCommit;
    }
  }

  lemma CommittedIsData(records: seq<WalOp>, i: nat)
    ensures Committed(Events(records), i) ==> i < |records| && Events(records)[i].Data?
  {
  }

  lemma SameGroupRecords(records: seq<WalOp>, k: nat, i: nat)
    requires i < |records| && Events(records)[i].Data?
    ensures SameGroup(Events(records), k, i) <==> SameCommit(records, k, i)
  {
    hide CarriesData, Ends, EventOf;
    var t := records[i].txn;
    EventAt(records, i, t);
    assert Events(records)[i] == Data(t) by { DataHasTxn(records, i); }
    forall m: nat | m < |records|
      ensures Events(records)[m] == Data(t) <==> CarriesData(records[m]) && records[m].txn == t
      ensures Events(records)[m] == Commit(t) <==> Ends(records[m], t, CommitOp)
      ensures Events(records)[m] == Rollback(t) <==> Ends(records[m], t, RollbackOp)
    {
      EventAt(records, m, t);
    }
  }

  lemma DataHasTxn(records: seq<WalOp>, i: nat)
    requires i < |records| && Events(records)[i].Data?
    ensures Events(records)[i] == Data(records[i].txn)
  {
  }

  /** What the scan holds for transaction `t`: its open records, and of the applied operations those of `t`. */
  ghost predicate ScanHolds(s: Scan, records: seq<WalOp>, t: nat) {
    PendingBelow(Events(records), t);
    && Pending(s.pending, t) == Select(records, PendingIdx(Events(records), t))
    && OfTxn(s.applied, t) == Select(records, AppliedIdx(records, t))
  }

  /** Every waiting list holds records of its own transaction, taken from the log. */
  ghost predicate OwnRecords(s: Scan, records: seq<WalOp>) {
    forall t, k :: t in s.pending && 0 <= k < |s.pending[t]| ==> s.pending[t][k].txn == t && s.pending[t][k] in records
  }

  lemma {:induction false} OwnRecordsKept(records: seq<WalOp>)
    ensures OwnRecords(ScanWal(records), records)
    decreases |records|
  {
    if records != [] {
      var n := |records| - 1;
      OwnRecordsKept(records[..n]);
      assert forall op :: op in records[..n] ==> op in records;
    }
  }

  /**
   Of each transaction recovery replays exactly the committed records whose commit group has not failed up to
   them, each once and in log order.
   */
  lemma AppliedMeaning(records: seq<WalOp>, t: nat)
    ensures Ascending(AppliedIdx(records, t))
    ensures OfTxn(ScanWal(records).applied, t) == Select(records, AppliedIdx(records, t))
    ensures forall i: nat :: i in AppliedIdx(records, t) <==> RecordReplayed(records, t, i)
    ensures forall i: nat :: i in AppliedIdx(records, t) <==> Replayed(records, t, i)
  {
    AppliedIsSelected(records, t);
    AppliedIdxAscending(records, t);
    AppliedIdxMeaning(records, t);
    hide Replayed, RecordReplayed;
    forall i: nat ensures i in AppliedIdx(records, t) <==> RecordReplayed(records, t, i) { ReplayedRecords(records, t, i); }
  }

  /** `done` are the replayed records of transaction `t`, each once and in log order. */
  ghost predicate ReplaysRecords(records: seq<WalOp>, t: nat, done: seq<WalOp>) {
    exists idx :: Ascending(idx) && Below(idx, |records|) && done == Select(records, idx)
                  && forall i: nat :: i in idx <==> RecordReplayed(records, t, i)
  }

  lemma RecoveryReplays(records: seq<WalOp>)
    ensures forall t :: ReplaysRecords(records, t, OfTxn(ScanWal(records).applied, t))
  {
    hide RecordReplayed;
    forall t ensures ReplaysRecords(records, t, OfTxn(ScanWal(records).applied, t)) {
      AppliedMeaning(records, t);
    }
  }

  lemma {:induction false} AppliedIsSelected(records: seq<WalOp>, t: nat)
    ensures ScanHolds(ScanWal(records), records, t)
    decreases |records|
  {
    if records != [] {
      var init := records[..|records| - 1];
      AppliedIsSelected(init, t);
      OwnRecordsKept(init);
      AppliedStep(ScanWal(init), records, t);
    }
  }

  lemma AppliedStep(s: Scan, records: seq<WalOp>, t: nat)
    requires records != [] && ScanHolds(s, records[..|records| - 1], t) && OwnRecords(s, records[..|records| - 1])
    ensures ScanHolds(Step(s, records[|records| - 1]), records, t)
  {
    hide *;
    if records[|records| - 1].opType.CommitOp? {
      AppliedCommit(s, records, t);
    } else {
      AppliedOther(s, records, t);
    }
  }

  /** How the two index lists of `t` change with one more record. */
  lemma ListsStep(records: seq<WalOp>, t: nat)
    requires records != []
    ensures var n := |records| - 1;
            var init, e := records[..n], EventOf(records[n].opType, records[n].txn);
            var a, p := AppliedIdx(init, t), PendingIdx(Events(init), t);
            && Below(p, n)
            && AppliedIdx(records, t) == (if e == Commit(t) then a + RunIdx(init, p) else a)
            && PendingIdx(Events(records), t) == (if e == Data(t) then p + [n] else if e == Commit(t) || e == Rollback(t) then [] else p)
  {
    hide EmittedIdx, PendingIdx, RunIdx;
    var n := |records| - 1;
    assert Events(records[..n]) == Events(records)[..n];
    ScanStep(Events(records), t);
    AppliedIdxStep(records, t);
  }

  lemma AppliedOther(s: Scan, records: seq<WalOp>, t: nat)
    requires records != [] && ScanHolds(s, records[..|records| - 1], t) && !records[|records| - 1].opType.CommitOp?
    ensures ScanHolds(Step(s, records[|records| - 1]), records, t)
  {
    hide PendingIdx, AppliedIdx, RunIdx, Select, OfTxn, Events;
    var n := |records| - 1;
    var init := records[..n];
    ListsStep(records, t);
    PendingBelow(Events(records), t);
    SelectStep(records, AppliedIdx(init, t), PendingIdx(Events(init), t));
  }

  lemma AppliedCommit(s: Scan, records: seq<WalOp>, t: nat)
    requires records != [] && records[|records| - 1].opType.CommitOp?
    requires ScanHolds(s, records[..|records| - 1], t) && OwnRecords(s, records[..|records| - 1])
    ensures ScanHolds(Step(s, records[|records| - 1]), records, t)
  {
    hide PendingIdx, AppliedIdx, RunIdx, Select, OfTxn, Runnable, Events;
    var n := |records| - 1;
    var init, op := records[..n], records[n];
    var a, p := AppliedIdx(init, t), PendingIdx(Events(init), t);
    ListsStep(records, t);
    PendingBelow(Events(records), t);
    SelectStep(records, a, p);
    SelectStep(records, a, RunIdx(init, p));
    var ops := Pending(s.pending, op.txn);
    RunnablePart(ops);
    OfTxnConcat(s.applied, Runnable(ops), t);
    OfTxnUniform(Runnable(ops), op.txn, t);
    if op.txn == t { RunnableIsRunIdx(init, p); }
  }

  lemma AppliedIdxStep(records: seq<WalOp>, t: nat)
    requires records != []
    ensures Below(PendingIdx(Events(records[..|records| - 1]), t), |records| - 1)
    ensures
      var init, op := records[..|records| - 1], records[|records| - 1];
      var a, r := AppliedIdx(init, t), RunIdx(init, PendingIdx(Events(init), t));
      AppliedIdx(records, t) == if EventOf(op.opType, op.txn) == Commit(t) then a + r else a
  {
    PendingBelow(Events(records[..|records| - 1]), t);
  }

  lemma {:induction false} RunnableIsRunIdx(records: seq<WalOp>, p: seq<nat>)
    requires Below(p, |records|)
    ensures Runnable(Select(records, p)) == Select(records, RunIdx(records, p))
    decreases |p|
  {
    if p != [] && Succeeds(records[p[0]]) {
      RunnableIsRunIdx(records, p[1..]);
      assert Select(records, p)[1..] == Select(records, p[1..]);
    }
  }

  /** Entry `k` of a list is before the first failure exactly when no entry up to it fails. */
  lemma {:induction false} RunIdxMeaning(records: seq<WalOp>, p: seq<nat>, k: nat)
    requires Below(p, |records|) && k < |p|
    ensures k < |RunIdx(records, p)| <==> forall h :: 0 <= h <= k ==> Succeeds(records[p[h]])
    decreases |p|
  {
    if Succeeds(records[p[0]]) {
      var q := p[1..];
      if k > 0 {
        RunIdxMeaning(records, q, k - 1);
        if forall h :: 0 <= h <= k - 1 ==> Succeeds(records[q[h]]) {
          forall h | 0 <= h <= k ensures Succeeds(records[p[h]]) {
            if h > 0 { assert q[h - 1] == p[h]; }
          }
        } else {
          var h :| 0 <= h <= k - 1 && !Succeeds(records[q[h]]);
          assert q[h] == p[h + 1];
        }
      }
    }
  }

  /** The open records that would be replayed if the transaction committed now. */
  lemma RunsIff(records: seq<WalOp>, t: nat, i: nat)
    requires Open(Events(records), i) && records[i].txn == t
    ensures Below(PendingIdx(Events(records), t), |records|)
    ensures i in RunIdx(records, PendingIdx(Events(records), t)) <==> Unbroken(records, i)
  {
    var es := Events(records);
    assert es[i] == Data(t);
    hide *;
    PendingBelow(es, t);
    PendingMeaning(es, t);
    OpenInGroup(es, t, i);
    var p := PendingIdx(es, t);
    assert i in p;
    var k :| 0 <= k < |p| && p[k] == i;
    UnbrokenUpTo(records, p, k);
    RunIdxMeaning(records, p, k);
  }

  /** If the list `p` up to entry `k` is the group of record p[k], the group is unbroken when none of these entries fails. */
  lemma UnbrokenUpTo(records: seq<WalOp>, p: seq<nat>, k: nat)
    requires Below(p, |records|) && Ascending(p) && k < |p| && p[k] < |Events(records)| && Events(records)[p[k]].Data?
    requires forall g: nat :: SameGroup(Events(records), g, p[k]) <==> g <= p[k] && g in p
    ensures Unbroken(records, p[k]) <==> forall h :: 0 <= h <= k ==> Succeeds(records[p[h]])
  {
    hide SameGroup, Succeeds;
    if forall h :: 0 <= h <= k ==> Succeeds(records[p[h]]) {
      forall g: nat | SameGroup(Events(records), g, p[k]) ensures Succeeds(records[g]) {
        var h :| 0 <= h < |p| && p[h] == g;
      }
    } else {
      var h :| 0 <= h <= k && !Succeeds(records[p[h]]);
      assert p[h] in p;
      assert SameGroup(Events(records), p[h], p[k]);
    }
  }

  /** The group of an open record is the open records up to it. */
  lemma OpenInGroup(es: seq<Event>, t: nat, i: nat)
    requires Open(es, i) && es[i].txn == t
    ensures forall k: nat :: SameGroup(es, k, i) <==> k <= i && Open(es, k) && es[k].txn == t
  {
    forall k: nat | k <= i && Open(es, k) && es[k].txn == t ensures SameGroup(es, k, i) {}
    forall k: nat | SameGroup(es, k, i) ensures Open(es, k) {}
  }

  lemma {:induction false} AppliedIdxMeaning(records: seq<WalOp>, t: nat)
    ensures forall i: nat :: i in AppliedIdx(records, t) <==> Replayed(records, t, i)
    decreases |records|
  {
    if records != [] {
      AppliedIdxMeaning(records[..|records| - 1], t);
      forall i: nat ensures i in AppliedIdx(records, t) <==> Replayed(records, t, i) {
        ReplayedStep(records, t, i);
      }
    }
  }

  lemma ReplayedStep(records: seq<WalOp>, t: nat, i: nat)
    requires records != []
    requires i in AppliedIdx(records[..|records| - 1], t) <==> Replayed(records[..|records| - 1], t, i)
    ensures i in AppliedIdx(records, t) <==> Replayed(records, t, i)
  {
    hide AppliedIdx, PendingIdx, RunIdx, Unbroken, Open;
    var n := |records| - 1;
    var init, es := records[..n], Events(records);
    assert Events(init) == es[..n];
    AppliedIdxStep(records, t);
    CommittedStep(es, i, t);
    PendingMeaning(es[..n], t);
    if i < n && es[i].Data? { SameGroups(records, i); }
    if i < n && Open(es[..n], i) && records[i].txn == t { RunsIff(init, t, i); }
  }

  lemma SameGroups(records: seq<WalOp>, i: nat)
    requires i < |records| - 1 && Events(records)[i].Data?
    ensures Unbroken(records, i) <==> Unbroken(records[..|records| - 1], i)
  {
    var init := records[..|records| - 1];
    assert Events(init) == Events(records)[..|records| - 1];
    forall k: nat ensures SameGroup(Events(records), k, i) <==> SameGroup(Events(init), k, i) {}
    hide SameGroup;
  }

  lemma {:induction false} AppliedIdxAscending(records: seq<WalOp>, t: nat)
    ensures Ascending(AppliedIdx(records, t))
    decreases |records|
  {
    if records != [] {
      hide *;
      var init := records[..|records| - 1];
      AppliedIdxAscending(init, t);
      AppliedIdxStep(records, t);
      PendingBelow(Events(init), t);
      AppliedBeforePending(init, t);
      var p := PendingIdx(Events(init), t);
      AscendingJoin(AppliedIdx(init, t), p, RunIdx(init, p));
    }
  }

  predicate AllBefore(a: seq<nat>, p: seq<nat>) {
    forall x, y :: 0 <= x < |a| && 0 <= y < |p| ==> a[x] < p[y]
  }

  lemma AscendingJoin(a: seq<nat>, p: seq<nat>, r: seq<nat>)
    requires Ascending(a) && Ascending(p) && r <= p
    requires AllBefore(a, p)
    ensures Ascending(a + r)
  {
  }

  lemma AppliedBeforePending(records: seq<WalOp>, t: nat)
    ensures AllBefore(AppliedIdx(records, t), PendingIdx(Events(records), t))
  {
    hide AppliedIdx, PendingIdx, Commits, Unbroken;
    AppliedIdxMeaning(records, t);
    PendingMeaning(Events(records), t);
    var a, p := AppliedIdx(records, t), PendingIdx(Events(records), t);
    forall x, y | 0 <= x < |a| && 0 <= y < |p| ensures a[x] < p[y] {
      assert a[x] in a && p[y] in p;
      assert Replayed(records, t, a[x]);
      CommittedBeforeOpen(Events(records), a[x], p[y]);
    }
  }

  lemma CommittedBeforeOpen(es: seq<Event>, x: nat, y: nat)
    requires Committed(es, x) && Open(es, y) && es[x].txn == es[y].txn
    ensures x < y
  {
    var j: nat :| Commits(es, x, j);
  }

  predicate DataRecord(op: WalOp) {
    op.opType.InsertOp? || op.opType.UpdateOp? || op.opType.DeleteOp?
  }

  /** The record type tells the payload, as `append_durable` writes it. */
  predicate WellTagged(op: WalOp) {
    match op.opType
    case InsertOp => op.body.payload.Insert?
    case UpdateOp => op.body.payload.Update?
    case DeleteOp => op.body.payload.Remove?
    case CompactionOp => op.body.payload.Compaction?
    case _ => op.body.payload.Marker?
  }

  /** A compaction record never reaches the closure: only data records of committed transactions do. */
  lemma {:induction false} OnlyDataIsReplayed(records: seq<WalOp>)
    ensures forall op :: op in ScanWal(records).applied ==> op in records && DataRecord(op) && Succeeds(op)
    ensures forall t, k :: t in ScanWal(records).pending && 0 <= k < |ScanWal(records).pending[t]|
                           ==> DataRecord(ScanWal(records).pending[t][k]) && ScanWal(records).pending[t][k] in records
    decreases |records|
  {
    if records != [] {
      var n := |records| - 1;
      var init, op := records[..n], records[n];
      OnlyDataIsReplayed(init);
      assert forall x :: x in init ==> x in records;
      var ops := Pending(ScanWal(init).pending, op.txn);
      RunnablePart(ops);
      forall x | x in Runnable(ops) ensures x in records && DataRecord(x) && Succeeds(x) {
        var k :| 0 <= k < |Runnable(ops)| && Runnable(ops)[k] == x;
        assert ops[k] == x;
      }
    }
  }

  // ------------------------------------------------------------------
  // Crashing inside a compaction
  // ------------------------------------------------------------------

  /** A data operation on a clean segment id. */
  predicate CleanData(op: WalOp) {
    match op.body.payload
    case Insert(_, seg, _) => Clean(seg)
    case Update(_, _, _, newSeg, _) => Clean(newSeg)
    case Remove(_, seg, _) => Clean(seg)
    case _ => false
  }

  function SegOf(op: WalOp): Bytes
    requires CleanData(op)
  {
    match op.body.payload case Insert(_, seg, _) => seg case Update(_, _, _, seg, _) => seg case Remove(_, seg, _) => seg
  }

  function GranuleOf(op: WalOp): u32
    requires CleanData(op)
  {
    if op.body.payload.Remove? then op.body.payload.granule else 0
  }

  /** A data operation that succeeds makes two writes: its index entry and its reverse entry. */
  lemma DataShape(op: WalOp)
    requires CleanData(op) && op.body.intact
    ensures Clean(SegOf(op))
    ensures |OpWrites(op)| == 2
    ensures OpWrites(op)[0].key == IdxKey(SegOf(op), GranuleOf(op), op.body.payload.pk)
    ensures OpWrites(op)[1].key == LookupKey(op.body.payload.pk)
    ensures OpWrites(op)[1].Put? ==> OpWrites(op)[1].value.Lookup?
  {
  }

  predicate AllCleanData(ops: seq<WalOp>) {
    forall i :: 0 <= i < |ops| ==> CleanData(ops[i]) && ops[i].body.intact
  }

  lemma TouchedTwo(ws: seq<Write>, two: seq<Write>, k: Key)
    requires |two| == 2
    ensures Touched(ws + two) == Touched(ws) + {two[0].key, two[1].key}
    ensures Final(ws + two, k) ==
            if two[1].key == k then (if two[1].Put? then Some(two[1].value) else None)
            else if two[0].key == k then (if two[0].Put? then Some(two[0].value) else None)
            else Final(ws, k)
  {
    var all := ws + two;
    var one := all[..|all| - 1];
    assert one[..|one| - 1] == ws && one[|one| - 1] == two[0];
    assert forall w :: w in all <==> w in ws || w == two[0] || w == two[1];
  }

  lemma {:induction false} DataTouchesIndexOnly(ops: seq<WalOp>, k: Key)
    requires AllCleanData(ops) && k in Touched(ListWrites(ops))
    ensures k.bucket == PkIdx
    decreases |ops|
  {
    hide OpWrites;
    var n := |ops| - 1;
    DataShape(ops[n]);
    TouchedTwo(ListWrites(ops[..n]), OpWrites(ops[n]), k);
    if k in Touched(ListWrites(ops[..n])) { DataTouchesIndexOnly(ops[..n], k); }
  }

  /** What data operations leave under a reverse key is never a bare location. */
  lemma {:induction false} DataLeavesLookups(ops: seq<WalOp>, pk: Bytes)
    requires AllCleanData(ops)
    ensures Final(ListWrites(ops), LookupKey(pk)).Some? ==> Final(ListWrites(ops), LookupKey(pk)).value.Lookup?
    decreases |ops|
  {
    hide OpWrites;
    if ops != [] {
      var n := |ops| - 1;
      DataShape(ops[n]);
      TouchedTwo(ListWrites(ops[..n]), OpWrites(ops[n]), LookupKey(pk));
      KeyFamiliesDisjoint(SegOf(ops[n]), GranuleOf(ops[n]), ops[n].body.payload.pk, pk);
      DataLeavesLookups(ops[..n], pk);
    }
  }

  /** Data operations touch an index entry only together with the reverse entry of the same key. */
  lemma {:induction false} DataTouchesBoth(ops: seq<WalOp>, seg: Bytes, granule: u32, pk: Bytes)
    requires AllCleanData(ops) && Clean(seg) && IdxKey(seg, granule, pk) in Touched(ListWrites(ops))
    ensures LookupKey(pk) in Touched(ListWrites(ops))
    decreases |ops|
  {
    hide OpWrites;
    var n := |ops| - 1;
    var op := ops[n];
    DataShape(op);
    TouchedTwo(ListWrites(ops[..n]), OpWrites(op), LookupKey(pk));
    KeyFamiliesDisjoint(seg, granule, pk, op.body.payload.pk);
    if IdxKey(seg, granule, pk) in Touched(ListWrites(ops[..n])) {
      DataTouchesBoth(ops[..n], seg, granule, pk);
    } else {
      IdxKeyInjective(seg, granule, pk, SegOf(op), GranuleOf(op), op.body.payload.pk);
    }
  }

  predicate HasPk(entries: seq<Entry>, pk: Bytes) {
    exists i :: 0 <= i < |entries| && entries[i].pk == pk
  }

  predicate EntryKey(oldSeg: Bytes, e: Entry, k: Key) {
    k == LookupKey(e.pk) || k == IdxKey(oldSeg, e.granule, e.pk)
  }

  /** The keys of a compaction's entries: reverse keys and index keys of listed primary keys. */
  lemma {:induction false} EntriesTouch(oldSeg: Bytes, newSeg: Bytes, entries: seq<Entry>, k: Key)
    ensures k in Touched(EntriesWrites(oldSeg, newSeg, entries)) <==>
            exists i :: 0 <= i < |entries| && EntryKey(oldSeg, entries[i], k)
    decreases |entries|
  {
    hide LookupKey;
    hide IdxKey;
    hide Final;
    if entries != [] {
      var n := |entries| - 1;
      var init := entries[..n];
      EntriesTouch(oldSeg, newSeg, init, k);
      TouchedTwo(EntriesWrites(oldSeg, newSeg, init), EntryWrites(oldSeg, newSeg, entries[n]), k);
      if i :| 0 <= i < n && EntryKey(oldSeg, init[i], k) { assert EntryKey(oldSeg, entries[i], k); }
      if i :| 0 <= i < n && EntryKey(oldSeg, entries[i], k) { assert EntryKey(oldSeg, init[i], k); }
      assert k in Touched(EntriesWrites(oldSeg, newSeg, entries)) <==>
             k in Touched(EntriesWrites(oldSeg, newSeg, init)) || EntryKey(oldSeg, entries[n], k);
    }
  }

  /** The last listed entry of a primary key, or -1. */
  function LastEntry(entries: seq<Entry>, pk: Bytes): (i: int)
    ensures -1 <= i < |entries|
    ensures i >= 0 ==> entries[i].pk == pk && forall j :: i < j < |entries| ==> entries[j].pk != pk
    ensures i < 0 <==> !HasPk(entries, pk)
  {
    if entries == [] then -1
    else if entries[|entries| - 1].pk == pk then |entries| - 1
    else
      var init := entries[..|entries| - 1];
      assert forall j :: 0 <= j < |init| ==> entries[j] == init[j];
      LastEntry(init, pk)
  }

  /** A compaction leaves the location of the last listed entry, in the new segment, under every listed reverse key. */
  lemma {:induction false} EntriesFinal(oldSeg: Bytes, newSeg: Bytes, entries: seq<Entry>, pk: Bytes)
    requires HasPk(entries, pk)
    ensures var e := entries[LastEntry(entries, pk)];
            Final(EntriesWrites(oldSeg, newSeg, entries), LookupKey(pk)) == Some(Location(newSeg, e.granule, e.offset))
    decreases |entries|
  {
    hide LookupKey;
    hide IdxKey;
    hide Final;
    hide Touched;
    var n := |entries| - 1;
    TouchedTwo(EntriesWrites(oldSeg, newSeg, entries[..n]), EntryWrites(oldSeg, newSeg, entries[n]), LookupKey(pk));
    KeyFamiliesDisjoint(oldSeg, entries[n].granule, entries[n].pk, pk);
    if entries[n].pk != pk {
      if LookupKey(entries[n].pk) == LookupKey(pk) { LookupKeyInjective(entries[n].pk, pk); }
      var i :| 0 <= i < |entries| && entries[i].pk == pk;
      assert entries[..n][i].pk == pk;
      EntriesFinal(oldSeg, newSeg, entries[..n], pk);
    }
  }

  /** And no old index entry. */
  lemma {:induction false} EntriesDeleted(oldSeg: Bytes, newSeg: Bytes, entries: seq<Entry>, i: nat)
    requires i < |entries|
    ensures Final(EntriesWrites(oldSeg, newSeg, entries), IdxKey(oldSeg, entries[i].granule, entries[i].pk)) == None
    decreases |entries|
  {
    hide LookupKey;
    hide IdxKey;
    hide Final;
    hide Touched;
    var n, k := |entries| - 1, IdxKey(oldSeg, entries[i].granule, entries[i].pk);
    TouchedTwo(EntriesWrites(oldSeg, newSeg, entries[..n]), EntryWrites(oldSeg, newSeg, entries[n]), k);
    KeyFamiliesDisjoint(oldSeg, entries[i].granule, entries[i].pk, entries[n].pk);
    if i < n { EntriesDeleted(oldSeg, newSeg, entries[..n], i); }
  }

  lemma AliasLast(oldSeg: Bytes, newSeg: Bytes, entries: seq<Entry>, k: Key)
    ensures var cw := CompactionWrites(oldSeg, newSeg, entries);
            && Touched(cw) == Touched(EntriesWrites(oldSeg, newSeg, entries)) + {AliasKey(oldSeg)}
            && Final(cw, k) == (if k == AliasKey(oldSeg) then Some(Alias(newSeg)) else Final(EntriesWrites(oldSeg, newSeg, entries), k))
  {
  }

  /**
   The store that a compaction leaves: the last listed location of every listed key, in the new segment; none of
   the listed index entries; the alias; and everything else as before.
   */
  ghost predicate Compacted(before: Store, after: Store, oldSeg: Bytes, newSeg: Bytes, entries: seq<Entry>) {
    && (forall pk :: HasPk(entries, pk) ==>
          var e := entries[LastEntry(entries, pk)];
          Get(after, LookupKey(pk)) == Some(Location(newSeg, e.granule, e.offset)))
    && (forall i :: 0 <= i < |entries| ==> Get(after, IdxKey(oldSeg, entries[i].granule, entries[i].pk)) == None)
    && Get(after, AliasKey(oldSeg)) == Some(Alias(newSeg))
    && (forall k :: k != AliasKey(oldSeg) && (forall i :: 0 <= i < |entries| ==> !EntryKey(oldSeg, entries[i], k)) ==>
          Get(after, k) == Get(before, k))
  }

  lemma CompactionLeaves(kv: Store, oldSeg: Bytes, newSeg: Bytes, entries: seq<Entry>)
    ensures Compacted(kv, ApplyAll(CompactionWrites(oldSeg, newSeg, entries), kv), oldSeg, newSeg, entries)
  {
    hide CompactionWrites, EntriesWrites, ApplyAll, Touched, Final, EntryKey, LookupKey, IdxKey, HasPk;
    var cw := CompactionWrites(oldSeg, newSeg, entries);
    var after := ApplyAll(cw, kv);
    forall pk | HasPk(entries, pk)
      ensures var e := entries[LastEntry(entries, pk)]; Get(after, LookupKey(pk)) == Some(Location(newSeg, e.granule, e.offset))
    {
      EntryLeft(kv, oldSeg, newSeg, entries, LastEntry(entries, pk));
      EntriesFinal(oldSeg, newSeg, entries, pk);
    }
    forall i | 0 <= i < |entries| ensures Get(after, IdxKey(oldSeg, entries[i].granule, entries[i].pk)) == None {
      EntryLeft(kv, oldSeg, newSeg, entries, i);
      EntriesDeleted(oldSeg, newSeg, entries, i);
    }
    AliasLast(oldSeg, newSeg, entries, AliasKey(oldSeg));
    ReadAfter(cw, kv, AliasKey(oldSeg));
    forall k | k != AliasKey(oldSeg) && (forall i :: 0 <= i < |entries| ==> !EntryKey(oldSeg, entries[i], k))
      ensures Get(after, k) == Get(kv, k)
    {
      AliasLast(oldSeg, newSeg, entries, k);
      EntriesTouch(oldSeg, newSeg, entries, k);
      ReadAfter(cw, kv, k);
    }
  }

  /** Under the two keys of a listed entry the entries' own writes decide. */
  lemma EntryLeft(kv: Store, oldSeg: Bytes, newSeg: Bytes, entries: seq<Entry>, i: nat)
    requires i < |entries|
    ensures var after, ew := ApplyAll(CompactionWrites(oldSeg, newSeg, entries), kv), EntriesWrites(oldSeg, newSeg, entries);
            && Get(after, LookupKey(entries[i].pk)) == Final(ew, LookupKey(entries[i].pk))
            && Get(after, IdxKey(oldSeg, entries[i].granule, entries[i].pk)) == Final(ew, IdxKey(oldSeg, entries[i].granule, entries[i].pk))
  {
    hide CompactionWrites, EntriesWrites, ApplyAll, Touched, Final;
    var cw := CompactionWrites(oldSeg, newSeg, entries);
    var a, b := LookupKey(entries[i].pk), IdxKey(oldSeg, entries[i].granule, entries[i].pk);
    assert EntryKey(oldSeg, entries[i], a) && EntryKey(oldSeg, entries[i], b);
    AliasLast(oldSeg, newSeg, entries, a);
    AliasLast(oldSeg, newSeg, entries, b);
    EntriesTouch(oldSeg, newSeg, entries, a);
    EntriesTouch(oldSeg, newSeg, entries, b);
    ReadAfter(cw, kv, a);
    ReadAfter(cw, kv, b);
  }

  /**
   Lookups after a compaction.  A compacted key no longer decodes.  A key of the old segment that the compaction
   missed is redirected to the new segment, to the granule and offset of its old index entry, or is not found
   without one.  A key of another segment without an alias answers as before, and so does a key without an entry.
   */
  lemma LookupAfterCompaction(kv: Store, oldSeg: Bytes, newSeg: Bytes, entries: seq<Entry>, pk: Bytes, l: Loc)
    requires Clean(oldSeg)
    ensures var after := ApplyAll(CompactionWrites(oldSeg, newSeg, entries), kv);
            var missed, entry := !HasPk(entries, pk) && Get(kv, LookupKey(pk)) == ReverseEntry(pk, Some(l)), Get(kv, IdxKey(l.seg, l.granule, pk));
            && (HasPk(entries, pk) ==> GetByPk(after, pk) == Err)
            && (!HasPk(entries, pk) && Get(kv, LookupKey(pk)) == None ==> GetByPk(after, pk) == Ok(None))
            && (missed && l.seg == oldSeg && entry == None ==> GetByPk(after, pk) == Ok(None))
            && (missed && l.seg == oldSeg && entry.Some? && entry.value.Location? ==>
                  GetByPk(after, pk) == Ok(Some(Loc(newSeg, entry.value.granule, entry.value.offset))))
            && (missed && l.seg != oldSeg && Get(kv, AliasKey(l.seg)) == None ==> GetByPk(after, pk) == GetByPk(kv, pk) == Ok(Some(l)))
  {
    hide CompactionWrites, ApplyAll, LookupKey, IdxKey, IdxBytes, AliasKey;
    var after := ApplyAll(CompactionWrites(oldSeg, newSeg, entries), kv);
    CompactionLeaves(kv, oldSeg, newSeg, entries);
    if !HasPk(entries, pk) {
      MissedKeys(oldSeg, entries, pk);
      OtherAlias(oldSeg, l.seg, entries, pk);
      IsIdxBucket(l.seg, l.granule, pk);
      hide EntryKey, HasPk;
      assert Get(after, LookupKey(pk)) == Get(kv, LookupKey(pk));
      if l.seg == oldSeg {
        assert Get(after, IdxKey(oldSeg, l.granule, pk)) == Get(kv, IdxKey(oldSeg, l.granule, pk));
      } else {
        assert Get(after, AliasKey(l.seg)) == Get(kv, AliasKey(l.seg));
      }
    }
  }

  lemma IsIdxBucket(seg: Bytes, granule: nat, pk: Bytes)
    ensures IdxKey(seg, granule, pk) == Key(PkIdx, IdxBytes(seg, granule, pk)) && IdxKey(seg, granule, pk) != AliasKey(seg)
  {
  }

  lemma OtherAlias(oldSeg: Bytes, seg: Bytes, entries: seq<Entry>, pk: Bytes)
    ensures LookupKey(pk) != AliasKey(oldSeg) && (AliasKey(seg) == AliasKey(oldSeg) ==> seg == oldSeg)
    ensures forall i :: 0 <= i < |entries| ==> !EntryKey(oldSeg, entries[i], AliasKey(seg))
  {
    assert (SEG_ALIAS + seg)[10..] == seg && (SEG_ALIAS + oldSeg)[10..] == oldSeg;
  }

  /** The keys of an unlisted primary key are not among the compacted ones. */
  lemma MissedKeys(oldSeg: Bytes, entries: seq<Entry>, pk: Bytes)
    requires Clean(oldSeg) && !HasPk(entries, pk)
    ensures forall i :: 0 <= i < |entries| ==> !EntryKey(oldSeg, entries[i], LookupKey(pk))
    ensures forall i, g: u32 :: 0 <= i < |entries| ==> !EntryKey(oldSeg, entries[i], IdxKey(oldSeg, g, pk))
  {
    hide IdxKey, LookupKey;
    forall i | 0 <= i < |entries| ensures !EntryKey(oldSeg, entries[i], LookupKey(pk)) {
      KeyFamiliesDisjoint(oldSeg, entries[i].granule, entries[i].pk, pk);
      if LookupKey(entries[i].pk) == LookupKey(pk) { LookupKeyInjective(entries[i].pk, pk); }
    }
    forall i, g: u32 | 0 <= i < |entries| ensures !EntryKey(oldSeg, entries[i], IdxKey(oldSeg, g, pk)) {
      KeyFamiliesDisjoint(oldSeg, g, pk, entries[i].pk);
      SameIdxKey(oldSeg, g, pk, entries[i].granule, entries[i].pk);
    }
  }

  lemma SameIdxKey(seg: Bytes, g: u32, p: Bytes, h: u32, q: Bytes)
    requires Clean(seg)
    ensures IdxKey(seg, g, p) == IdxKey(seg, h, q) ==> p == q
  {
    if IdxKey(seg, g, p) == IdxKey(seg, h, q) { IdxKeyInjective(seg, g, p, seg, h, q); }
  }

  /** Both entries of `pk` are those of the location, or gone, and nothing else changed. */
  ghost predicate EntriesSet(before: Store, after: Store, seg: Bytes, granule: u32, pk: Bytes, l: Option<Loc>) {
    && Get(after, LookupKey(pk)) == ReverseEntry(pk, l)
    && Get(after, IdxKey(seg, granule, pk)) == (if l.Some? then Some(Location(l.value.seg, l.value.granule, l.value.offset)) else None)
    && forall k :: k != LookupKey(pk) && k != IdxKey(seg, granule, pk) ==> Get(after, k) == Get(before, k)
  }

  /** What an intact operation leaves in the store. */
  ghost predicate Applied(p: Payload, before: Store, after: Store) {
    match p
    case Insert(pk, seg, offset) => EntriesSet(before, after, seg, 0, pk, Some(Loc(seg, 0, offset % 0x1_0000_0000)))
    case Update(pk, _, _, newSeg, offset) => EntriesSet(before, after, newSeg, 0, pk, Some(Loc(newSeg, 0, offset % 0x1_0000_0000)))
    case Remove(pk, seg, granule) => EntriesSet(before, after, seg, granule, pk, None)
    case Compaction(oldSeg, newSeg, entries, commit) => if commit then Compacted(before, after, oldSeg, newSeg, entries) else after == before
    case Marker => after == before
  }

  lemma OpLeaves(op: WalOp, kv: Store)
    requires op.body.intact
    ensures Applied(op.body.payload, kv, ApplyAll(OpWrites(op), kv))
  {
    hide Compacted;
    match op.body.payload
    case Insert(pk, seg, offset) => PairLeaves(PutWrites(pk, InsertLoc(seg, offset)), kv, seg, 0, pk);
    case Update(pk, _, _, seg, offset) => PairLeaves(PutWrites(pk, InsertLoc(seg, offset)), kv, seg, 0, pk);
    case Remove(pk, seg, granule) => PairLeaves(DeleteWrites(pk, seg, granule), kv, seg, granule, pk);
    case Compaction(oldSeg, newSeg, entries, _) => CompactionLeaves(kv, oldSeg, newSeg, entries);
    case Marker =>
  }

  lemma PairLeaves(ws: seq<Write>, kv: Store, seg: Bytes, granule: u32, pk: Bytes)
    requires |ws| == 2 && ws[0].key == IdxKey(seg, granule, pk) && ws[1].key == LookupKey(pk)
    ensures var after := ApplyAll(ws, kv);
            && Get(after, LookupKey(pk)) == (if ws[1].Put? then Some(ws[1].value) else None)
            && Get(after, IdxKey(seg, granule, pk)) == (if ws[0].Put? then Some(ws[0].value) else None)
            && forall k :: k != LookupKey(pk) && k != IdxKey(seg, granule, pk) ==> Get(after, k) == Get(kv, k)
  {
    hide LookupKey, IdxKey;
    TwoWrites(ws, kv);
    KeyFamiliesDisjoint(seg, granule, pk, pk);
  }

  /** No operation that recovery replays names a compacted primary key. */
  predicate NoneReplayed(ops: seq<WalOp>, entries: seq<Entry>) {
    forall i :: 0 <= i < |entries| ==> LookupKey(entries[i].pk) !in Touched(ListWrites(ops))
  }

  /**
   `run_compaction` promises that after its WAL record a crash is repaired by recovery.  Recovery skips the
   record, so a crash after `cut` of the compaction's writes recovers to the compacted store exactly when every
   write had been made, the log replays no operation on a compacted key, and replay would have left the store
   before the compaction as it was.  The id of the new segment is fresh.
   */
  lemma CompactionCrashRecoversIff(ops: seq<WalOp>, kv: Store, oldSeg: Bytes, newSeg: Bytes, entries: seq<Entry>, cut: nat)
    requires AllCleanData(ops) && Clean(oldSeg)
    requires Get(kv, AliasKey(oldSeg)) != Some(Alias(newSeg))
    requires cut <= |CompactionWrites(oldSeg, newSeg, entries)|
    ensures var ws, cw := ListWrites(ops), CompactionWrites(oldSeg, newSeg, entries);
            ApplyAll(ws, ApplyAll(cw[..cut], kv)) == ApplyAll(cw, kv) <==>
            cut == |cw| && NoneReplayed(ops, entries) && ApplyAll(ws, kv) == kv
  {
    hide NoneReplayed, ListWrites, CompactionWrites, ApplyAll;
    var cw := CompactionWrites(oldSeg, newSeg, entries);
    if cut < |cw| {
      MissingAlias(ops, kv, oldSeg, newSeg, entries, cut);
    } else {
      assert cw[..cut] == cw;
      CompactedThenReplayed(ops, kv, oldSeg, newSeg, entries);
    }
  }

  lemma CompactedThenReplayed(ops: seq<WalOp>, kv: Store, oldSeg: Bytes, newSeg: Bytes, entries: seq<Entry>)
    requires AllCleanData(ops) && Clean(oldSeg)
    ensures var ws, cw := ListWrites(ops), CompactionWrites(oldSeg, newSeg, entries);
            ApplyAll(ws, ApplyAll(cw, kv)) == ApplyAll(cw, kv) <==> NoneReplayed(ops, entries) && ApplyAll(ws, kv) == kv
  {
    hide ListWrites, CompactionWrites, ApplyAll;
    if NoneReplayed(ops, entries) {
      ReplayCommutes(ops, kv, oldSeg, newSeg, entries);
      CompactionHidesNothing(ops, kv, oldSeg, newSeg, entries);
    } else {
      var i :| 0 <= i < |entries| && LookupKey(entries[i].pk) in Touched(ListWrites(ops));
      ReplayedEntry(ops, kv, oldSeg, newSeg, entries, i);
    }
  }

  lemma MissingAlias(ops: seq<WalOp>, kv: Store, oldSeg: Bytes, newSeg: Bytes, entries: seq<Entry>, cut: nat)
    requires AllCleanData(ops) && Get(kv, AliasKey(oldSeg)) != Some(Alias(newSeg))
    requires cut < |CompactionWrites(oldSeg, newSeg, entries)|
    ensures var ws, cw := ListWrites(ops), CompactionWrites(oldSeg, newSeg, entries);
            ApplyAll(ws, ApplyAll(cw[..cut], kv)) != ApplyAll(cw, kv)
  {
    var ws, cw, ew := ListWrites(ops), CompactionWrites(oldSeg, newSeg, entries), EntriesWrites(oldSeg, newSeg, entries);
    var k := AliasKey(oldSeg);
    AliasLast(oldSeg, newSeg, entries, k);
    ReadAfter(cw, kv, k);
    ReadAfter(ws, ApplyAll(cw[..cut], kv), k);
    ReadAfter(cw[..cut], kv, k);
    if k in Touched(ws) { DataTouchesIndexOnly(ops, k); }
    EntriesTouch(oldSeg, newSeg, entries, k);
    assert cw[..cut] == ew[..cut];
    assert forall w :: w in ew[..cut] ==> w in ew;
  }

  /** If the log replays no compacted key, replaying after the compaction is compacting after the replay. */
  lemma ReplayCommutes(ops: seq<WalOp>, kv: Store, oldSeg: Bytes, newSeg: Bytes, entries: seq<Entry>)
    requires AllCleanData(ops) && Clean(oldSeg) && NoneReplayed(ops, entries)
    ensures var ws, cw := ListWrites(ops), CompactionWrites(oldSeg, newSeg, entries);
            ApplyAll(ws, ApplyAll(cw, kv)) == ApplyAll(cw, ApplyAll(ws, kv))
  {
    hide ListWrites, CompactionWrites, ApplyAll, NoneReplayed, Touched, Final;
    var ws, cw := ListWrites(ops), CompactionWrites(oldSeg, newSeg, entries);
    var a, b := ApplyAll(ws, ApplyAll(cw, kv)), ApplyAll(cw, ApplyAll(ws, kv));
    forall k ensures Get(a, k) == Get(b, k) {
      ReadAfter(ws, ApplyAll(cw, kv), k);
      ReadAfter(cw, kv, k);
      ReadAfter(cw, ApplyAll(ws, kv), k);
      ReadAfter(ws, kv, k);
      if k in Touched(ws) { NotACompactionKey(ops, oldSeg, newSeg, entries, k); }
    }
    StoreExtensional(a, b);
  }

  /** And the compaction's writes hide no change that the replay makes. */
  lemma CompactionHidesNothing(ops: seq<WalOp>, kv: Store, oldSeg: Bytes, newSeg: Bytes, entries: seq<Entry>)
    requires AllCleanData(ops) && Clean(oldSeg) && NoneReplayed(ops, entries)
    ensures var ws, cw := ListWrites(ops), CompactionWrites(oldSeg, newSeg, entries);
            ApplyAll(cw, ApplyAll(ws, kv)) == ApplyAll(cw, kv) ==> ApplyAll(ws, kv) == kv
  {
    hide ListWrites, CompactionWrites, ApplyAll, NoneReplayed, Touched, Final;
    var ws, cw := ListWrites(ops), CompactionWrites(oldSeg, newSeg, entries);
    var r := ApplyAll(ws, kv);
    if ApplyAll(cw, r) == ApplyAll(cw, kv) {
      forall k ensures Get(r, k) == Get(kv, k) {
        ReadAfter(ws, kv, k);
        ReadAfter(cw, r, k);
        ReadAfter(cw, kv, k);
        if k in Touched(ws) { NotACompactionKey(ops, oldSeg, newSeg, entries, k); }
      }
      StoreExtensional(r, kv);
    }
  }

  lemma NotACompactionKey(ops: seq<WalOp>, oldSeg: Bytes, newSeg: Bytes, entries: seq<Entry>, k: Key)
    requires AllCleanData(ops) && Clean(oldSeg) && NoneReplayed(ops, entries)
    requires k in Touched(ListWrites(ops))
    ensures k !in Touched(CompactionWrites(oldSeg, newSeg, entries))
  {
    AliasLast(oldSeg, newSeg, entries, k);
    DataTouchesIndexOnly(ops, k);
    EntriesTouch(oldSeg, newSeg, entries, k);
    forall i | 0 <= i < |entries| ensures k != IdxKey(oldSeg, entries[i].granule, entries[i].pk) {
      if k == IdxKey(oldSeg, entries[i].granule, entries[i].pk) {
        DataTouchesBoth(ops, oldSeg, entries[i].granule, entries[i].pk);
      }
    }
  }

  lemma ReplayedEntry(ops: seq<WalOp>, kv: Store, oldSeg: Bytes, newSeg: Bytes, entries: seq<Entry>, i: nat)
    requires AllCleanData(ops) && i < |entries| && LookupKey(entries[i].pk) in Touched(ListWrites(ops))
    ensures var ws, cw := ListWrites(ops), CompactionWrites(oldSeg, newSeg, entries);
            ApplyAll(ws, ApplyAll(cw, kv)) != ApplyAll(cw, kv)
  {
    var ws, cw := ListWrites(ops), CompactionWrites(oldSeg, newSeg, entries);
    var pk := entries[i].pk;
    var k := LookupKey(pk);
    AliasLast(oldSeg, newSeg, entries, k);
    EntriesFinal(oldSeg, newSeg, entries, pk);
    EntriesTouch(oldSeg, newSeg, entries, k);
    ReadAfter(cw, kv, k);
    ReadAfter(ws, ApplyAll(cw, kv), k);
    DataLeavesLookups(ops, pk);
  }

  /** A log whose records are tagged with their payload and whose data records name clean segment ids. */
  predicate CleanLog(records: seq<WalOp>) {
    forall i :: 0 <= i < |records| ==> WellTagged(records[i]) && (DataRecord(records[i]) ==> CleanData(records[i]))
  }

  /** The same for a whole recovery: the log may hold the compaction's own record, it makes no difference. */
  lemma CompactionCrashRecovery(records: seq<WalOp>, kv: Store, oldSeg: Bytes, newSeg: Bytes, entries: seq<Entry>, cut: nat)
    requires CleanLog(records) && Clean(oldSeg)
    requires Get(kv, AliasKey(oldSeg)) != Some(Alias(newSeg))
    requires cut <= |CompactionWrites(oldSeg, newSeg, entries)|
    ensures var cw := CompactionWrites(oldSeg, newSeg, entries);
            ApplyAll(RecoveryWrites(records), ApplyAll(cw[..cut], kv)) == ApplyAll(cw, kv)
            <==> cut == |cw| && NoneReplayed(ScanWal(records).applied, entries) && ApplyAll(RecoveryWrites(records), kv) == kv
  {
    OnlyDataIsReplayed(records);
    var ops := ScanWal(records).applied;
    forall i | 0 <= i < |ops| ensures CleanData(ops[i]) && ops[i].body.intact {
      assert ops[i] in records;
    }
    CompactionCrashRecoversIff(ops, kv, oldSeg, newSeg, entries, cut);
  }
}
