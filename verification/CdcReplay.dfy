/**
 Change-data capture from the WAL: `ChangeStream::replay_wal_since` (src/cdc/stream.rs).
 */
module CdcReplay {
  import opened Bytes
  import opened Common
  import opened WalScan

  datatype CellOp = Inserted | Updated | Deleted

  datatype CellChange = CellChange(table: Bytes, seg: Bytes, col: Bytes, row: nat, op: CellOp,
                                   before: Option<Bytes>, after: Option<Bytes>, txn: nat)

  /** The body is the outcome of `wal_op_to_cell_change`; an operation without changes yields an empty list. */
  type WalOp = WalRecord<Result<seq<CellChange>>>

  datatype ChangeBatch = ChangeBatch(txn: nat, changes: seq<CellChange>)

  // ------------------------------------------------------------------
  // Declarative meaning
  // ------------------------------------------------------------------

  /** The cell changes of a list of operations, one after the other. */
  function CellsOf(ops: seq<WalOp>): seq<CellChange> {
    if ops == [] then []
    else CellsOf(ops[..|ops| - 1]) + (match ops[|ops| - 1].body case Ok(cs) => cs case Err => [])
  }

  predicate AnyFails(ops: seq<WalOp>) {
    exists k :: 0 <= k < |ops| && ops[k].body.Err?
  }

  /** The operations of transaction `t` that a later commit makes permanent, in log order. */
  function CommittedOps(records: seq<WalOp>, t: nat): seq<WalOp> {
    ScanAscending(Events(records), t);
    BelowParts(EmittedIdx(Events(records), t), PendingIdx(Events(records), t), |records|);
    Select(records, EmittedIdx(Events(records), t))
  }

  function OpenOps(records: seq<WalOp>, t: nat): seq<WalOp> {
    ScanAscending(Events(records), t);
    BelowParts(EmittedIdx(Events(records), t), PendingIdx(Events(records), t), |records|);
    Select(records, PendingIdx(Events(records), t))
  }

  predicate InWindow(t: nat, since: nat, stable: nat) {
    since < t <= stable
  }

  /** Some operation that has to be delivered cannot be converted. */
  ghost predicate Undeliverable(records: seq<WalOp>, since: nat, stable: nat) {
    exists t :: InWindow(t, since, stable) && AnyFails(CommittedOps(records, t))
  }

  ghost predicate HasBatch(batches: seq<ChangeBatch>, t: nat) {
    exists k :: 0 <= k < |batches| && batches[k].txn == t
  }

  predicate AscendingTxns(batches: seq<ChangeBatch>) {
    forall i, j :: 0 <= i < j < |batches| ==> batches[i].txn < batches[j].txn
  }

  /**
   The change feed of the window (since, stable]: strictly ascending transactions, one batch for exactly
   the transactions with committed changes, holding exactly those changes in log order.
   */
  ghost predicate IsFeed(batches: seq<ChangeBatch>, records: seq<WalOp>, since: nat, stable: nat) {
    && AscendingTxns(batches)
    && (forall t :: HasBatch(batches, t) <==> InWindow(t, since, stable) && CellsOf(CommittedOps(records, t)) != [])
    && (forall k :: 0 <= k < |batches| ==> batches[k].changes == CellsOf(CommittedOps(records, batches[k].txn)))
  }

  /** The feed, transaction by transaction. */
  function Feed(records: seq<WalOp>, since: nat, stable: nat): seq<ChangeBatch> {
    if stable <= since then []
    else
      var cells := CellsOf(CommittedOps(records, stable));
      Feed(records, since, stable - 1) + if cells == [] then [] else [ChangeBatch(stable, cells)]
  }

  /** What a reader of the window gets. */
  ghost function ReadSince(records: seq<WalOp>, since: nat, stable: nat): Result<seq<ChangeBatch>> {
    if Undeliverable(records, since, stable) then Err else Ok(Feed(records, since, stable))
  }

  // ------------------------------------------------------------------
  // The replay loop as a function
  // ------------------------------------------------------------------

  datatype Replay = Replay(pending: map<nat, seq<WalOp>>, txnOps: map<nat, seq<CellChange>>, committed: set<nat>)

  function Waiting(pending: map<nat, seq<WalOp>>, t: nat): seq<WalOp> {
    if t in pending then pending[t] else []
  }

  function Collected(txnOps: map<nat, seq<CellChange>>, t: nat): seq<CellChange> {
    if t in txnOps then txnOps[t] else []
  }

  /** Lines 700-704: convert and append one operation after the other; a failed conversion ends the replay. */
  function Convert(txnOps: map<nat, seq<CellChange>>, t: nat, ops: seq<WalOp>): Result<map<nat, seq<CellChange>>> {
    if ops == [] then Ok(txnOps)
    else
      match Convert(txnOps, t, ops[..|ops| - 1])
      case Err => Err
      case Ok(m) =>
        match ops[|ops| - 1].body
        case Err => Err
        case Ok(cs) => if cs == [] then Ok(m) else Ok(m[t := Collected(m, t) + cs])
  }

  function Step(s: Replay, op: WalOp, since: nat, stable: nat): Result<Replay> {
    match op.opType
    case InsertOp | UpdateOp | DeleteOp =>
      if InWindow(op.txn, since, stable) then Ok(s.(pending := s.pending[op.txn := Waiting(s.pending, op.txn) + [op]]))
      else Ok(s)
    case CommitOp =>
      if InWindow(op.txn, since, stable) then
        match Convert(s.txnOps, op.txn, Waiting(s.pending, op.txn))
        case Err => Err
        case Ok(m) => Ok(Replay(s.pending - {op.txn}, m, s.committed + {op.txn}))
      else Ok(s)
    case RollbackOp => Ok(s.(pending := s.pending - {op.txn}))
    case _ => Ok(s)
  }

  function Run(records: seq<WalOp>, since: nat, stable: nat): Result<Replay> {
    if records == [] then Ok(Replay(map[], map[], {}))
    else
      match Run(records[..|records| - 1], since, stable)
      case Err => Err
      case Ok(s) => Step(s, records[|records| - 1], since, stable)
  }

  // ------------------------------------------------------------------
  // The loop computes the declarative feed
  // ------------------------------------------------------------------

  lemma {:induction false} ConvertMeaning(m: map<nat, seq<CellChange>>, t: nat, ops: seq<WalOp>)
    ensures Convert(m, t, ops).Err? <==> AnyFails(ops)
    ensures Convert(m, t, ops).Ok? ==>
              var r := Convert(m, t, ops).value;
              && Collected(r, t) == Collected(m, t) + CellsOf(ops)
              && (t in r <==> t in m || CellsOf(ops) != [])
              && (forall u :: u != t ==> (u in r <==> u in m) && Collected(r, u) == Collected(m, u))
    decreases |ops|
  {
    if ops != [] {
      var n := |ops| - 1;
      ConvertMeaning(m, t, ops[..n]);
      FailsConcat(ops[..n], [ops[n]]);
      assert ops == ops[..n] + [ops[n]];
    }
  }

  lemma FailsConcat(a: seq<WalOp>, b: seq<WalOp>)
    ensures AnyFails(a + b) <==> AnyFails(a) || AnyFails(b)
    ensures |b| == 1 ==> (AnyFails(b) <==> b[0].body.Err?)
  {
    var c := a + b;
    if k :| 0 <= k < |a| && a[k].body.Err? { assert c[k].body.Err?; }
    if k :| 0 <= k < |b| && b[k].body.Err? { assert c[|a| + k].body.Err?; }
    if k :| 0 <= k < |c| && c[k].body.Err? {
      assert k < |a| ==> a[k] == c[k];
      assert k >= |a| ==> b[k - |a|] == c[k];
    }
  }

  lemma {:induction false} CellsConcat(a: seq<WalOp>, b: seq<WalOp>)
    ensures CellsOf(a + b) == CellsOf(a) + CellsOf(b)
    decreases |b|
  {
    if b == [] {
      assert a + b == a;
    } else {
      CellsConcat(a, b[..|b| - 1]);
      assert (a + b)[..|a + b| - 1] == a + b[..|b| - 1];
    }
  }

  /** What the maps hold after any prefix of the log, for a transaction of the window. */
  ghost predicate Holds(s: Replay, records: seq<WalOp>, t: nat) {
    && Waiting(s.pending, t) == OpenOps(records, t)
    && Collected(s.txnOps, t) == CellsOf(CommittedOps(records, t))
    && (t in s.txnOps <==> CellsOf(CommittedOps(records, t)) != [])
    && (t in s.txnOps ==> t in s.committed)
  }

  /** One more record: how the committed and the open operations of a transaction change. */
  lemma OpsStep(records: seq<WalOp>, t: nat)
    requires records != []
    ensures var n := |records| - 1;
            var init, e := records[..n], EventOf(records[n].opType, records[n].txn);
            && CommittedOps(records, t) == (if e == Commit(t) then CommittedOps(init, t) + OpenOps(init, t) else CommittedOps(init, t))
            && OpenOps(records, t) == (if e == Data(t) then OpenOps(init, t) + [records[n]]
                                       else if e == Commit(t) || e == Rollback(t) then [] else OpenOps(init, t))
  {
    hide EmittedIdx;
    hide PendingIdx;
    hide Select;
    var n := |records| - 1;
    var init := records[..n];
    assert Events(init) == Events(records)[..n];
    ScanStep(Events(records), t);
    ScanAscending(Events(init), t);
    var e, p := EmittedIdx(Events(init), t), PendingIdx(Events(init), t);
    BelowParts(e, p, n);
    SelectStep(records, e, p);
  }

  lemma UndeliverableStep(records: seq<WalOp>, since: nat, stable: nat)
    requires records != []
    ensures var n := |records| - 1;
            Undeliverable(records, since, stable) <==>
            || Undeliverable(records[..n], since, stable)
            || (records[n].opType.CommitOp? && InWindow(records[n].txn, since, stable) && AnyFails(OpenOps(records[..n], records[n].txn)))
  {
    hide AnyFails;
    hide CommittedOps;
    hide OpenOps;
    var n := |records| - 1;
    var init := records[..n];
    forall t ensures AnyFails(CommittedOps(records, t)) <==>
        AnyFails(CommittedOps(init, t)) || (EventOf(records[n].opType, records[n].txn) == Commit(t) && AnyFails(OpenOps(init, t)))
    {
      OpsStep(records, t);
      FailsConcat(CommittedOps(init, t), OpenOps(init, t));
    }
    if t :| InWindow(t, since, stable) && AnyFails(CommittedOps(init, t)) {
      assert AnyFails(CommittedOps(records, t));
    }
    if records[n].opType.CommitOp? && InWindow(records[n].txn, since, stable) && AnyFails(OpenOps(init, records[n].txn)) {
      assert AnyFails(CommittedOps(records, records[n].txn));
    }
  }

  lemma StepHolds(s: Replay, records: seq<WalOp>, since: nat, stable: nat, t: nat)
    requires records != [] && InWindow(t, since, stable)
    requires Holds(s, records[..|records| - 1], t)
    requires Step(s, records[|records| - 1], since, stable).Ok?
    ensures Holds(Step(s, records[|records| - 1], since, stable).value, records, t)
  {
    hide CommittedOps;
    hide OpenOps;
    hide Convert;
    hide CellsOf;
    var n := |records| - 1;
    var op := records[n];
    OpsStep(records, t);
    CellsConcat(CommittedOps(records[..n], t), OpenOps(records[..n], t));
    if op.opType.CommitOp? { ConvertMeaning(s.txnOps, op.txn, Waiting(s.pending, op.txn)); }
  }

  /** The replay loop fails exactly when a deliverable operation cannot be converted, and otherwise holds exactly the feed. */
  lemma {:induction false} RunMeaning(records: seq<WalOp>, since: nat, stable: nat)
    ensures Run(records, since, stable).Err? <==> Undeliverable(records, since, stable)
    ensures Run(records, since, stable).Ok? ==>
              forall t :: InWindow(t, since, stable) ==> Holds(Run(records, since, stable).value, records, t)
    ensures Run(records, since, stable).Ok? ==>
              forall t :: t in Run(records, since, stable).value.txnOps ==> InWindow(t, since, stable)
    decreases |records|
  {
    if records == [] {
      assert forall t :: CommittedOps(records, t) == [] && OpenOps(records, t) == [];
    } else {
      var n := |records| - 1;
      var init, op := records[..n], records[n];
      RunMeaning(init, since, stable);
      UndeliverableStep(records, since, stable);
      if Run(init, since, stable).Ok? {
        RunStep(Run(init, since, stable).value, records, since, stable);
      }
    }
  }

  lemma RunStep(s: Replay, records: seq<WalOp>, since: nat, stable: nat)
    requires records != []
    requires forall t :: InWindow(t, since, stable) ==> Holds(s, records[..|records| - 1], t)
    requires forall t :: t in s.txnOps ==> InWindow(t, since, stable)
    ensures var r, op := Step(s, records[|records| - 1], since, stable), records[|records| - 1];
            && (r.Err? <==> op.opType.CommitOp? && InWindow(op.txn, since, stable) && AnyFails(OpenOps(records[..|records| - 1], op.txn)))
            && (r.Ok? ==> forall t :: InWindow(t, since, stable) ==> Holds(r.value, records, t))
            && (r.Ok? ==> forall t :: t in r.value.txnOps ==> InWindow(t, since, stable))
  {
    hide CommittedOps;
    hide OpenOps;
    hide CellsOf;
    hide Convert;
    hide AnyFails;
    var n := |records| - 1;
    var init, op := records[..n], records[n];
    if op.opType.CommitOp? && InWindow(op.txn, since, stable) {
      assert Holds(s, init, op.txn);
      ConvertMeaning(s.txnOps, op.txn, Waiting(s.pending, op.txn));
    }
    if Step(s, op, since, stable).Ok? {
      forall t | InWindow(t, since, stable) ensures Holds(Step(s, op, since, stable).value, records, t) {
        StepHolds(s, records, since, stable, t);
      }
    }
  }

  /** The final `retain` removes nothing. */
  lemma RetainRemovesNothing(records: seq<WalOp>, since: nat, stable: nat)
    requires Run(records, since, stable).Ok?
    ensures Run(records, since, stable).value.txnOps.Keys <= Run(records, since, stable).value.committed
  {
    RunMeaning(records, since, stable);
    var s := Run(records, since, stable).value;
    forall t | t in s.txnOps ensures t in s.committed { assert Holds(s, records, t); }
  }

  // ------------------------------------------------------------------
  // The feed, said of the records themselves
  // ------------------------------------------------------------------

  /** The positions of the committed records of transaction `t`, in log order. */
  ghost predicate CommittedPositions(records: seq<WalOp>, t: nat, idx: seq<nat>) {
    && Ascending(idx) && Below(idx, |records|)
    && forall i: nat :: i in idx <==> i < |records| && RecordCommitted(records, i) && records[i].txn == t
  }

  /** The changes of the records at the listed positions, one list after the other; a failed conversion has none. */
  function ChangesAt(records: seq<WalOp>, idx: seq<nat>): seq<CellChange>
    requires Below(idx, |records|)
  {
    Concat(seq(|idx|, k requires 0 <= k < |idx| => if records[idx[k]].body.Ok? then records[idx[k]].body.value else []))
  }

  /** `changes` are those of the committed records of `t`. */
  ghost predicate ChangesOf(records: seq<WalOp>, t: nat, changes: seq<CellChange>) {
    exists idx :: CommittedPositions(records, t, idx) && changes == ChangesAt(records, idx)
  }

  function BatchOf(batches: seq<ChangeBatch>, t: nat): seq<CellChange> {
    if batches == [] then []
    else if batches[|batches| - 1].txn == t then batches[|batches| - 1].changes
    else BatchOf(batches[..|batches| - 1], t)
  }

  /** Some committed record of the window cannot be converted. */
  ghost predicate RecordFails(records: seq<WalOp>, since: nat, stable: nat) {
    exists i: nat :: i < |records| && RecordCommitted(records, i) && since < records[i].txn <= stable && records[i].body.Err?
  }

  /** Ascending non-empty batches of the window, and every transaction of the window has exactly its committed changes. */
  ghost predicate RecordFeed(batches: seq<ChangeBatch>, records: seq<WalOp>, since: nat, stable: nat) {
    && AscendingTxns(batches)
    && (forall k :: 0 <= k < |batches| ==> since < batches[k].txn <= stable && batches[k].changes != [])
    && (forall t :: since < t <= stable ==> ChangesOf(records, t, BatchOf(batches, t)))
  }

  lemma CommittedOpsAre(records: seq<WalOp>, t: nat) returns (idx: seq<nat>)
    ensures CommittedPositions(records, t, idx) && CommittedOps(records, t) == Select(records, idx)
  {
    idx := EmittedIdx(Events(records), t);
    ScanMeaning(Events(records), t);
    ScanAscending(Events(records), t);
    BelowParts(idx, PendingIdx(Events(records), t), |records|);
    forall i: nat ensures i in idx <==> i < |records| && RecordCommitted(records, i) && records[i].txn == t {
      CommittedRecords(records, i);
      if i < |records| { EventAt(records, i, t); }
    }
  }

  lemma {:induction false} CellsAre(ops: seq<WalOp>)
    ensures CellsOf(ops) == Concat(seq(|ops|, k requires 0 <= k < |ops| => if ops[k].body.Ok? then ops[k].body.value else []))
    decreases |ops|
  {
    var lists := seq(|ops|, k requires 0 <= k < |ops| => if ops[k].body.Ok? then ops[k].body.value else []);
    if ops != [] {
      var n := |ops| - 1;
      var init := ops[..n];
      CellsAre(init);
      assert lists[..n] == seq(|init|, k requires 0 <= k < |init| => if init[k].body.Ok? then init[k].body.value else []);
    }
  }

  lemma CommittedCells(records: seq<WalOp>, t: nat)
    ensures ChangesOf(records, t, CellsOf(CommittedOps(records, t)))
    ensures AnyFails(CommittedOps(records, t)) <==> exists i: nat :: i < |records| && RecordCommitted(records, i) && records[i].txn == t && records[i].body.Err?
  {
    hide RecordCommitted, CellsOf, CommittedOps, Concat;
    var idx := CommittedOpsAre(records, t);
    var ops := Select(records, idx);
    CellsAre(ops);
    assert seq(|ops|, k requires 0 <= k < |ops| => if ops[k].body.Ok? then ops[k].body.value else [])
           == seq(|idx|, k requires 0 <= k < |idx| => if records[idx[k]].body.Ok? then records[idx[k]].body.value else []);
    if AnyFails(ops) {
      var k :| 0 <= k < |ops| && ops[k].body.Err?;
      assert idx[k] in idx;
    }
    if i: nat :| i < |records| && RecordCommitted(records, i) && records[i].txn == t && records[i].body.Err? {
      assert i in idx;
      var k :| 0 <= k < |idx| && idx[k] == i;
      assert ops[k].body.Err?;
    }
  }

  lemma {:induction false} BatchOfIs(batches: seq<ChangeBatch>, t: nat)
    requires AscendingTxns(batches)
    ensures !HasBatch(batches, t) ==> BatchOf(batches, t) == []
    ensures forall k :: 0 <= k < |batches| && batches[k].txn == t ==> BatchOf(batches, t) == batches[k].changes
    decreases |batches|
  {
    if batches != [] {
      var init := batches[..|batches| - 1];
      BatchOfIs(init, t);
      if HasBatch(init, t) {
        var k :| 0 <= k < |init| && init[k].txn == t;
        assert batches[k].txn == t;
      }
    }
  }

  /** The declarative feed and its failure, said of the records. */
  lemma FeedOfRecords(batches: seq<ChangeBatch>, records: seq<WalOp>, since: nat, stable: nat)
    ensures Undeliverable(records, since, stable) <==> RecordFails(records, since, stable)
    ensures IsFeed(batches, records, since, stable) ==> RecordFeed(batches, records, since, stable)
  {
    hide RecordCommitted, CellsOf, CommittedOps, ChangesOf, BatchOf;
    forall t ensures AnyFails(CommittedOps(records, t)) <==> exists i: nat :: i < |records| && RecordCommitted(records, i) && records[i].txn == t && records[i].body.Err? {
      CommittedCells(records, t);
    }
    hide AnyFails;
    if Undeliverable(records, since, stable) {
      var t :| InWindow(t, since, stable) && AnyFails(CommittedOps(records, t));
    }
    if RecordFails(records, since, stable) {
      var i: nat :| i < |records| && RecordCommitted(records, i) && since < records[i].txn <= stable && records[i].body.Err?;
      assert InWindow(records[i].txn, since, stable) && AnyFails(CommittedOps(records, records[i].txn));
    }
    if IsFeed(batches, records, since, stable) {
      forall k | 0 <= k < |batches| ensures since < batches[k].txn <= stable && batches[k].changes != [] {
        assert HasBatch(batches, batches[k].txn);
      }
      forall t | since < t <= stable ensures ChangesOf(records, t, BatchOf(batches, t)) {
        BatchOfIs(batches, t);
        CommittedCells(records, t);
        assert InWindow(t, since, stable);
        if HasBatch(batches, t) { var k :| 0 <= k < |batches| && batches[k].txn == t; }
      }
    }
  }

  // ------------------------------------------------------------------
  // The method
  // ------------------------------------------------------------------

  predicate IsLeast(m: nat, s: set<nat>) {
    m in s && forall x :: x in s ==> m <= x
  }

  lemma LeastTxnExists(s: set<nat>)
    requires s != {}
    ensures exists m :: m in s && IsLeast(m, s)
  {
    var leq := (a: nat, b: nat) => a <= b;
    LeastExists(leq, s);
    var m :| m in s && forall x :: x in s ==> leq(m, x);
    assert forall x :: x in s ==> leq(m, x) && m <= x;
    assert IsLeast(m, s);
  }

  lemma HasBatchAppend(batches: seq<ChangeBatch>, b: ChangeBatch, t: nat)
    ensures HasBatch(batches + [b], t) <==> HasBatch(batches, t) || b.txn == t
  {
    var more := batches + [b];
    if k :| 0 <= k < |batches| && batches[k].txn == t { assert more[k].txn == t; }
    assert more[|batches|].txn == b.txn;
  }

  lemma BatchesHave(batches: seq<ChangeBatch>, keys: set<nat>)
    requires forall k :: 0 <= k < |batches| ==> batches[k].txn in keys
    ensures forall t :: HasBatch(batches, t) ==> t in keys
  {
  }

  /** Lines 715-719: collect the map into batches and sort them by transaction. */
  method SortedBatches(m: map<nat, seq<CellChange>>) returns (batches: seq<ChangeBatch>)
    ensures AscendingTxns(batches)
    ensures forall t :: HasBatch(batches, t) <==> t in m
    ensures forall k :: 0 <= k < |batches| ==> batches[k].txn in m && batches[k].changes == m[batches[k].txn]
  {
    hide HasBatch;
    batches := [];
    var rest := m.Keys;
    while rest != {}
      invariant rest <= m.Keys && AscendingTxns(batches)
      invariant forall k, t :: 0 <= k < |batches| && t in rest ==> batches[k].txn < t
      invariant forall k :: 0 <= k < |batches| ==> batches[k].txn in m && batches[k].changes == m[batches[k].txn]
      invariant forall t :: t in m && t !in rest ==> HasBatch(batches, t)
      decreases rest
    {
      LeastTxnExists(rest);
      var t :| t in rest && IsLeast(t, rest);
      forall u | u in m && u !in rest - {t} ensures HasBatch(batches + [ChangeBatch(t, m[t])], u) {
        HasBatchAppend(batches, ChangeBatch(t, m[t]), u);
      }
      batches := batches + [ChangeBatch(t, m[t])];
      rest := rest - {t};
    }
    BatchesHave(batches, m.Keys);
  }

  /** `replay_wal_since` (src/cdc/stream.rs:668) over the records that the best-effort reader returns. */
  method ReplayWalSince(records: seq<WalOp>, since: nat, stable: nat) returns (r: Result<seq<ChangeBatch>>)
    ensures r.Err? <==> Undeliverable(records, since, stable)
    ensures r.Ok? ==> IsFeed(r.value, records, since, stable)
    ensures r == ReadSince(records, since, stable)
    ensures r.Err? <==> RecordFails(records, since, stable)
    ensures r.Ok? ==> RecordFeed(r.value, records, since, stable)
  {
    hide RecordFails, RecordFeed;
    hide Feed, CommittedOps, OpenOps, CellsOf, Convert;
    var pending: map<nat, seq<WalOp>> := map[];
    var txnOps: map<nat, seq<CellChange>> := map[];
    var committedTxns: set<nat> := {};
    for i := 0 to |records|
      invariant Run(records[..i], since, stable) == Ok(Replay(pending, txnOps, committedTxns))
    {
      RunPrefix(records, i, since, stable);
      var op := records[i];
      var t := op.txn;
      match op.opType
      case InsertOp | UpdateOp | DeleteOp =>
        if InWindow(t, since, stable) { pending := pending[t := Waiting(pending, t) + [op]]; }
      case CommitOp =>
        if InWindow(t, since, stable) {
          committedTxns := committedTxns + {t};
          var ops := Waiting(pending, t);
          pending := pending - {t};
          var converted := ConvertLoop(txnOps, t, ops);
          if converted.Err? {
            RunMeaning(records, since, stable);
            FeedOfRecords([], records, since, stable);
            return Err;
          }
          txnOps := converted.value;
        }
      case RollbackOp =>
        pending := pending - {t};
      case _ =>
    }
    assert records[..|records|] == records;
    RetainRemovesNothing(records, since, stable);
    RunMeaning(records, since, stable);
    var kept := map t | t in txnOps && t in committedTxns :: txnOps[t];
    assert kept == txnOps;
    var batches := SortedBatches(kept);
    ghost var s := Replay(pending, txnOps, committedTxns);
    forall t | InWindow(t, since, stable) ensures t in txnOps <==> CellsOf(CommittedOps(records, t)) != [] {
      assert Holds(s, records, t);
    }
    forall k | 0 <= k < |batches| ensures batches[k].changes == CellsOf(CommittedOps(records, batches[k].txn)) {
      assert Holds(s, records, batches[k].txn);
    }
    FeedIsFeed(records, since, stable);
    FeedUnique(batches, Feed(records, since, stable), records, since, stable);
    FeedOfRecords(batches, records, since, stable);
    return Ok(batches);
  }

  method ConvertLoop(txnOps: map<nat, seq<CellChange>>, t: nat, ops: seq<WalOp>) returns (r: Result<map<nat, seq<CellChange>>>)
    ensures r == Convert(txnOps, t, ops)
  {
    var m := txnOps;
    for i := 0 to |ops|
      invariant Convert(txnOps, t, ops[..i]) == Ok(m)
    {
      assert ops[..i + 1][..i] == ops[..i];
      match ops[i].body
      case Err =>
        ConvertMeaning(txnOps, t, ops);
        assert AnyFails(ops);
        return Err;
      case Ok(cs) =>
        if cs != [] { m := m[t := Collected(m, t) + cs]; }
    }
    assert ops[..|ops|] == ops;
    return Ok(m);
  }

  /** A run over one more record; and once a run has failed it stays failed. */
  lemma {:induction false} RunPrefix(records: seq<WalOp>, i: nat, since: nat, stable: nat)
    requires i < |records|
    ensures Run(records[..i + 1], since, stable) ==
            match Run(records[..i], since, stable) case Err => Err case Ok(s) => Step(s, records[i], since, stable)
    ensures Run(records[..i + 1], since, stable).Err? ==> Run(records, since, stable).Err?
    decreases |records|
  {
    assert records[..i + 1][..i] == records[..i];
    if i + 1 == |records| {
      assert records[..i + 1] == records;
    } else {
      var init := records[..|records| - 1];
      RunPrefix(init, i, since, stable);
      assert init[..i + 1] == records[..i + 1];
    }
  }

  // ------------------------------------------------------------------
  // The feed of a window
  // ------------------------------------------------------------------

  lemma {:induction false} FeedIsFeed(records: seq<WalOp>, since: nat, stable: nat)
    ensures IsFeed(Feed(records, since, stable), records, since, stable)
    decreases stable
  {
    hide CommittedOps, CellsOf;
    if stable > since {
      FeedIsFeed(records, since, stable - 1);
      var init, cells := Feed(records, since, stable - 1), CellsOf(CommittedOps(records, stable));
      if cells == [] {
        assert Feed(records, since, stable) == init;
      } else {
        hide Feed, IsFeed;
        FeedGrows(init, records, since, stable);
      }
    }
  }

  lemma FeedGrows(init: seq<ChangeBatch>, records: seq<WalOp>, since: nat, stable: nat)
    requires since < stable && IsFeed(init, records, since, stable - 1) && CellsOf(CommittedOps(records, stable)) != []
    ensures IsFeed(init + [ChangeBatch(stable, CellsOf(CommittedOps(records, stable)))], records, since, stable)
  {
    hide CommittedOps, CellsOf;
    var b := ChangeBatch(stable, CellsOf(CommittedOps(records, stable)));
    forall k | 0 <= k < |init| ensures init[k].txn < stable { assert HasBatch(init, init[k].txn); }
    forall t ensures HasBatch(init + [b], t) <==> HasBatch(init, t) || t == stable { HasBatchAppend(init, b, t); }
    hide HasBatch;
  }

  /** A window has at most one feed. */
  lemma FeedUnique(x: seq<ChangeBatch>, y: seq<ChangeBatch>, records: seq<WalOp>, since: nat, stable: nat)
    requires IsFeed(x, records, since, stable) && IsFeed(y, records, since, stable)
    ensures x == y
  {
    hide CommittedOps, CellsOf;
    SameBatches(x, y);
  }

  lemma {:induction false} SameBatches(a: seq<ChangeBatch>, b: seq<ChangeBatch>)
    requires AscendingTxns(a) && AscendingTxns(b)
    requires forall t :: HasBatch(a, t) <==> HasBatch(b, t)
    requires forall i, j :: 0 <= i < |a| && 0 <= j < |b| && a[i].txn == b[j].txn ==> a[i] == b[j]
    ensures a == b
    decreases |a|
  {
    if a == [] {
      if b != [] { assert HasBatch(b, b[0].txn); }
    } else {
      assert HasBatch(a, a[0].txn);
      FirstsMatch(a, b);
      var x, y := a[1..], b[1..];
      forall t ensures HasBatch(x, t) <==> HasBatch(y, t) {
        DropFirst(a, t);
        DropFirst(b, t);
      }
      SameBatches(x, y);
      assert a == [a[0]] + x && b == [b[0]] + y;
    }
  }

  lemma FirstsMatch(a: seq<ChangeBatch>, b: seq<ChangeBatch>)
    requires AscendingTxns(a) && AscendingTxns(b) && a != []
    requires forall t :: HasBatch(a, t) <==> HasBatch(b, t)
    ensures b != [] && a[0].txn == b[0].txn
  {
    assert HasBatch(a, a[0].txn);
    var j :| 0 <= j < |b| && b[j].txn == a[0].txn;
    assert HasBatch(b, b[0].txn);
    var i :| 0 <= i < |a| && a[i].txn == b[0].txn;
  }

  lemma DropFirst(a: seq<ChangeBatch>, t: nat)
    requires AscendingTxns(a) && a != []
    ensures HasBatch(a[1..], t) <==> HasBatch(a, t) && t != a[0].txn
  {
  }

  /** Reading since `a` is reading since `a` up to `b` and then since `b`: nothing is lost, nothing is repeated. */
  lemma {:induction false} SplitAtWatermark(records: seq<WalOp>, a: nat, b: nat, stable: nat)
    requires a <= b
    ensures Feed(records, a, stable) == Feed(records, a, Min(b, stable)) + Feed(records, b, stable)
    decreases stable
  {
    hide CommittedOps, CellsOf;
    if stable > b { SplitAtWatermark(records, a, b, stable - 1); }
  }

  /** A later watermark can only fail less. */
  lemma LaterWatermarkFailsLess(records: seq<WalOp>, a: nat, b: nat, stable: nat)
    requires a <= b && Undeliverable(records, b, stable)
    ensures Undeliverable(records, a, stable)
  {
  }

  // ------------------------------------------------------------------
  // Resuming while the log grows
  // ------------------------------------------------------------------

  lemma {:induction false} CommittedOpsGrow(records: seq<WalOp>, more: seq<WalOp>, t: nat)
    ensures CommittedOps(records, t) <= CommittedOps(records + more, t)
    decreases |more|
  {
    hide CommittedOps;
    hide OpenOps;
    if more == [] {
      assert records + more == records;
    } else {
      var n := |more| - 1;
      CommittedOpsGrow(records, more[..n], t);
      assert (records + more)[..|records + more| - 1] == records + more[..n];
      OpsStep(records + more, t);
    }
  }

  /** The operations of `t` that only a commit in the new part of the log makes permanent. */
  function LateOps(records: seq<WalOp>, more: seq<WalOp>, t: nat): seq<WalOp> {
    CommittedOpsGrow(records, more, t);
    CommittedOps(records + more, t)[|CommittedOps(records, t)|..]
  }

  lemma LateCells(records: seq<WalOp>, more: seq<WalOp>, t: nat)
    ensures CellsOf(CommittedOps(records + more, t)) == CellsOf(CommittedOps(records, t)) + CellsOf(LateOps(records, more, t))
    ensures AnyFails(CommittedOps(records + more, t)) <==> AnyFails(CommittedOps(records, t)) || AnyFails(LateOps(records, more, t))
  {
    FailsConcat(CommittedOps(records, t), LateOps(records, more, t));
    CommittedOpsGrow(records, more, t);
    CellsConcat(CommittedOps(records, t), LateOps(records, more, t));
    assert CommittedOps(records + more, t) == CommittedOps(records, t) + LateOps(records, more, t);
  }

  /** Two logs have the same feed exactly when every transaction of the window has the same changes in both. */
  lemma {:induction false} FeedsEqualIff(r: seq<WalOp>, s: seq<WalOp>, a: nat, b: nat)
    ensures Feed(r, a, b) == Feed(s, a, b) <==>
            forall t :: InWindow(t, a, b) ==> CellsOf(CommittedOps(r, t)) == CellsOf(CommittedOps(s, t))
    decreases b
  {
    hide CommittedOps, CellsOf;
    if Feed(r, a, b) == Feed(s, a, b) {
      FeedIsFeed(r, a, b);
      FeedIsFeed(s, a, b);
      forall t | InWindow(t, a, b) ensures CellsOf(CommittedOps(r, t)) == CellsOf(CommittedOps(s, t)) {
        if HasBatch(Feed(r, a, b), t) { var k :| 0 <= k < |Feed(r, a, b)| && Feed(r, a, b)[k].txn == t; }
      }
    } else if a < b {
      FeedsEqualIff(r, s, a, b - 1);
      assert InWindow(b, a, b);
    }
  }

  /** A consumer that read up to `b`, and reads on from there when the log has grown. */
  ghost function Resumed(records: seq<WalOp>, more: seq<WalOp>, a: nat, b: nat, stable: nat): Result<seq<ChangeBatch>> {
    match ReadSince(records, a, b)
    case Err => Err
    case Ok(first) =>
      match ReadSince(records + more, b, stable)
      case Err => Err
      case Ok(rest) => Ok(first + rest)
  }

  /** Delivering the operations or not makes no difference. */
  ghost predicate Harmless(ops: seq<WalOp>) {
    !AnyFails(ops) && CellsOf(ops) == []
  }

  /**
   If both reads succeed, the consumer has seen what a single reader at the end sees exactly when no
   transaction at or below `b` commits anything in the new part of the log.
   */
  lemma ResumeOverGrowingLog(records: seq<WalOp>, more: seq<WalOp>, a: nat, b: nat, stable: nat)
    requires a <= b <= stable && ReadSince(records, a, b).Ok? && ReadSince(records + more, b, stable).Ok?
    ensures Resumed(records, more, a, b, stable) == ReadSince(records + more, a, stable) <==>
            forall t :: InWindow(t, a, b) ==> Harmless(LateOps(records, more, t))
  {
    hide CommittedOps, CellsOf, LateOps, Feed, AnyFails;
    var all := records + more;
    SplitAtWatermark(all, a, b, stable);
    FeedsEqualIff(records, all, a, b);
    SamePrefix(Feed(records, a, b), Feed(all, a, b), Feed(all, b, stable));
    forall t
      ensures CellsOf(CommittedOps(records, t)) == CellsOf(CommittedOps(all, t)) <==> CellsOf(LateOps(records, more, t)) == []
      ensures AnyFails(CommittedOps(all, t)) <==> AnyFails(CommittedOps(records, t)) || AnyFails(LateOps(records, more, t))
    {
      LateCells(records, more, t);
    }
    if t :| InWindow(t, a, b) && AnyFails(LateOps(records, more, t)) {
      assert InWindow(t, a, stable) && AnyFails(CommittedOps(all, t));
    } else {
      forall t: nat | InWindow(t, a, stable) ensures !AnyFails(CommittedOps(all, t)) {
        if t > b { assert InWindow(t, b, stable); } else { assert InWindow(t, a, b); }
      }
    }
  }

  lemma SamePrefix(x: seq<ChangeBatch>, y: seq<ChangeBatch>, rest: seq<ChangeBatch>)
    ensures x + rest == y + rest <==> x == y
  {
    if x + rest == y + rest {
      assert x == (x + rest)[..|x + rest| - |rest|] && y == (y + rest)[..|y + rest| - |rest|];
    }
  }

  /** Of the transactions of the window, only those in `active` write or commit in the new part of the log. */
  predicate OnlyActiveGoOn(more: seq<WalOp>, active: set<nat>, a: nat, b: nat) {
    forall k :: 0 <= k < |more| && (Events(more)[k].Data? || Events(more)[k].Commit?) && InWindow(more[k].txn, a, b) ==>
      more[k].txn in active
  }

  /**
   What can be checked at the watermark: resuming at `b` is right for every way the log can go on exactly when
   no transaction of the window is active.
   */
  lemma ResumeSafeIff(records: seq<WalOp>, active: set<nat>, a: nat, b: nat)
    requires a <= b && ReadSince(records, a, b).Ok?
    ensures (forall more, stable: nat :: b <= stable && OnlyActiveGoOn(more, active, a, b) ==>
               Resumed(records, more, a, b, stable) == ReadSince(records + more, a, stable))
            <==> forall t :: InWindow(t, a, b) ==> t !in active
  {
    hide Feed, CommittedOps, OpenOps, CellsOf, AnyFails, OnlyActiveGoOn, LateOps;
    if t :| InWindow(t, a, b) && t in active {
      var more := UnsafeContinuation(records, active, a, b, t);
      assert b <= b && OnlyActiveGoOn(more, active, a, b);
    } else {
      forall more, stable: nat | b <= stable && OnlyActiveGoOn(more, active, a, b)
        ensures Resumed(records, more, a, b, stable) == ReadSince(records + more, a, stable)
      {
        SafeContinuation(records, more, active, a, b, stable);
      }
    }
  }

  lemma SafeContinuation(records: seq<WalOp>, more: seq<WalOp>, active: set<nat>, a: nat, b: nat, stable: nat)
    requires a <= b <= stable && ReadSince(records, a, b).Ok? && OnlyActiveGoOn(more, active, a, b)
    requires forall t :: InWindow(t, a, b) ==> t !in active
    ensures Resumed(records, more, a, b, stable) == ReadSince(records + more, a, stable)
  {
    hide Feed, CommittedOps, OpenOps, CellsOf, AnyFails, LateOps;
    if ReadSince(records + more, b, stable).Ok? {
      NothingHarms();
      forall t | InWindow(t, a, b) ensures Harmless(LateOps(records, more, t)) {
        NoLateCommit(records, more, t);
      }
      ResumeOverGrowingLog(records, more, a, b, stable);
    } else {
      LaterWatermarkFailsLess(records + more, a, b, stable);
    }
  }

  lemma NothingHarms()
    ensures Harmless([])
  {
  }

  /** Without a new commit of `t` nothing of it becomes permanent late. */
  lemma {:induction false} NoLateCommit(records: seq<WalOp>, more: seq<WalOp>, t: nat)
    requires forall k :: 0 <= k < |more| ==> Events(more)[k] != Commit(t)
    ensures LateOps(records, more, t) == []
    decreases |more|
  {
    hide CommittedOps, OpenOps;
    if more == [] {
      assert records + more == records;
    } else {
      var n := |more| - 1;
      var init := more[..n];
      forall k | 0 <= k < |init| ensures Events(init)[k] != Commit(t) { assert Events(init)[k] == Events(more)[k]; }
      NoLateCommit(records, init, t);
      assert (records + more)[..|records + more| - 1] == records + init;
      OpsStep(records + more, t);
      assert Events(more)[n] == EventOf(more[n].opType, more[n].txn);
      CommittedOpsGrow(records, init, t);
    }
  }

  /** A transaction of the window that is active can write and commit below the watermark. */
  lemma UnsafeContinuation(records: seq<WalOp>, active: set<nat>, a: nat, b: nat, t: nat) returns (more: seq<WalOp>)
    requires a <= b && ReadSince(records, a, b).Ok? && InWindow(t, a, b) && t in active
    ensures OnlyActiveGoOn(more, active, a, b) && Resumed(records, more, a, b, b) != ReadSince(records + more, a, b)
  {
    hide Feed, CommittedOps, OpenOps, CellsOf, AnyFails, LateOps;
    more := [Write(t, ANY_CHANGE), CommitOf(t)];
    LateWriteCounts(records, t);
    assert !Undeliverable(records + more, b, b);
    ResumeOverGrowingLog(records, more, a, b, b);
  }

  const ANY_CHANGE := CellChange([], [], [], 0, Inserted, None, None, 0)

  lemma LateWriteCounts(records: seq<WalOp>, t: nat)
    ensures !Harmless(LateOps(records, [Write(t, ANY_CHANGE), CommitOf(t)], t))
  {
    hide CommittedOps, OpenOps, AnyFails;
    var w, c := Write(t, ANY_CHANGE), CommitOf(t);
    var one, all := records + [w], records + [w, c];
    assert all[..|all| - 1] == one && one[..|one| - 1] == records;
    OpsStep(one, t);
    OpsStep(all, t);
    CommittedOpsGrow(records, [w, c], t);
    assert LateOps(records, [w, c], t) == OpenOps(records, t) + [w];
    CellsConcat(OpenOps(records, t), [w]);
    assert [w][..0] == [] && CellsOf([w]) == CellsOf([]) + [ANY_CHANGE];
  }

  function Write(t: nat, c: CellChange): WalOp {
    WalRecord(InsertOp, t, Ok([c]))
  }

  function CommitOf(t: nat): WalOp {
    WalRecord(CommitOp, t, Ok([]))
  }

  /** Transaction 1 writes before transaction 2 but commits after it: a reader that stopped at 2 never sees its change. */
  lemma LateCommitIsLost(c: CellChange)
    ensures Resumed([Write(1, c), Write(2, c), CommitOf(2)], [CommitOf(1)], 0, 2, 2) == Ok([ChangeBatch(2, [c])])
    ensures ReadSince([Write(1, c), Write(2, c), CommitOf(2)] + [CommitOf(1)], 0, 2) == Ok([ChangeBatch(1, [c]), ChangeBatch(2, [c])])
  {
    hide CommittedOps, Write, CommitOf;
    var records: seq<WalOp> := [Write(1, c), Write(2, c), CommitOf(2)];
    var all := records + [CommitOf(1)];
    forall t
      ensures CommittedOps(records, t) == (if t == 2 then [Write(2, c)] else [])
      ensures CommittedOps(all, t) == (if t == 1 || t == 2 then [Write(t, c)] else [])
    {
      TwoWriters(c, t);
    }
    OneWrite(1, c);
    OneWrite(2, c);
    FeedOfTwo(records);
    FeedOfTwo(all);
    hide Feed, CellsOf, AnyFails;
    assert !Undeliverable(records, 0, 2) && !Undeliverable(all, 0, 2) && !Undeliverable(all, 2, 2);
    assert Feed(records, 0, 2) == [ChangeBatch(2, [c])] == [ChangeBatch(2, [c])] + Feed(all, 2, 2);
    assert Feed(all, 0, 2) == [ChangeBatch(1, [c]), ChangeBatch(2, [c])];
  }

  lemma OneWrite(t: nat, c: CellChange)
    ensures CellsOf([Write(t, c)]) == [c] && !AnyFails([Write(t, c)]) && CellsOf([]) == [] && !AnyFails([])
  {
    assert [Write(t, c)][..0] == [];
    assert CellsOf([Write(t, c)]) == CellsOf([]) + [c];
  }

  lemma TwoWriters(c: CellChange, t: nat)
    ensures CommittedOps([Write(1, c), Write(2, c), CommitOf(2)], t) == if t == 2 then [Write(2, c)] else []
    ensures CommittedOps([Write(1, c), Write(2, c), CommitOf(2)] + [CommitOf(1)], t) == if t == 1 || t == 2 then [Write(t, c)] else []
  {
    hide CommittedOps, OpenOps;
    var r1: seq<WalOp> := [Write(1, c)];
    var r2, r3 := r1 + [Write(2, c)], [Write(1, c), Write(2, c), CommitOf(2)];
    assert r1[..0] == [] && r2[..1] == r1 && r3[..2] == r2 && (r3 + [CommitOf(1)])[..3] == r3;
    EmptyLog(t);
    OpsStep(r1, t);
    OpsStep(r2, t);
    OpsStep(r3, t);
    OpsStep(r3 + [CommitOf(1)], t);
  }

  lemma FeedOfTwo(records: seq<WalOp>)
    ensures var one, two := CellsOf(CommittedOps(records, 1)), CellsOf(CommittedOps(records, 2));
            && Feed(records, 0, 2) == (if one == [] then [] else [ChangeBatch(1, one)]) + (if two == [] then [] else [ChangeBatch(2, two)])
            && Feed(records, 2, 2) == []
  {
    assert Feed(records, 0, 0) == [];
  }

  lemma EmptyLog(t: nat)
    ensures CommittedOps([], t) == [] && OpenOps([], t) == []
  {
  }
}
