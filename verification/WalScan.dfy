/**
 What it means for a WAL record to be committed, shared by crash recovery and
 change-data capture, and the two index lists that a one-pass scan keeps per transaction.
 */
module WalScan {
  import opened Common

  datatype OpType = BeginOp | InsertOp | DeleteOp | UpdateOp | CheckpointOp | CompactionOp | CommitOp | RollbackOp

  datatype Event = Data(txn: nat) | Commit(txn: nat) | Rollback(txn: nat) | Skip

  function EventOf(opType: OpType, txn: nat): Event {
    match opType
    case InsertOp | UpdateOp | DeleteOp => Data(txn)
    case CommitOp => Commit(txn)
    case RollbackOp => Rollback(txn)
    case _ => Skip
  }

  /** One record of the log; `body` is what the reader at hand makes of its payload. */
  datatype WalRecord<+P> = WalRecord(opType: OpType, txn: nat, body: P)

  function Events<P>(records: seq<WalRecord<P>>): seq<Event> {
    seq(|records|, i requires 0 <= i < |records| => EventOf(records[i].opType, records[i].txn))
  }

  // ------------------------------------------------------------------
  // Declarative meaning
  // ------------------------------------------------------------------

  /** Record `j` commits the data record `i`: it is a later commit with no rollback of the transaction in between. */
  predicate Commits(es: seq<Event>, i: nat, j: nat)
    requires i < |es| && es[i].Data?
  {
    i < j < |es| && es[j] == Commit(es[i].txn) && forall m :: i < m < j ==> es[m] != Rollback(es[i].txn)
  }

  ghost predicate Committed(es: seq<Event>, i: nat) {
    i < |es| && es[i].Data? && exists j: nat :: Commits(es, i, j)
  }

  /** No commit and no rollback of its transaction follows the data record `i`. */
  predicate Open(es: seq<Event>, i: nat) {
    i < |es| && es[i].Data? && forall m :: i < m < |es| ==> es[m] != Commit(es[i].txn) && es[m] != Rollback(es[i].txn)
  }

  // ------------------------------------------------------------------
  // The same, said of the records themselves
  // ------------------------------------------------------------------

  /** The record carries an insert, an update or a delete. */
  predicate CarriesData<P>(r: WalRecord<P>) {
    r.opType == InsertOp || r.opType == UpdateOp || r.opType == DeleteOp
  }

  predicate Ends<P>(r: WalRecord<P>, txn: nat, how: OpType) {
    r.txn == txn && r.opType == how
  }

  /** A later commit record of its transaction has no rollback record of the transaction before it. */
  ghost predicate RecordCommitted<P>(records: seq<WalRecord<P>>, i: nat) {
    && i < |records| && CarriesData(records[i])
    && exists j :: i < j < |records| && Ends(records[j], records[i].txn, CommitOp)
                   && forall m :: i < m < j ==> !Ends(records[m], records[i].txn, RollbackOp)
  }

  lemma EventAt<P>(records: seq<WalRecord<P>>, i: nat, t: nat)
    requires i < |records|
    ensures Events(records)[i] == Data(t) <==> CarriesData(records[i]) && records[i].txn == t
    ensures Events(records)[i] == Commit(t) <==> Ends(records[i], t, CommitOp)
    ensures Events(records)[i] == Rollback(t) <==> Ends(records[i], t, RollbackOp)
    ensures Events(records)[i].Data? <==> CarriesData(records[i])
  {
  }

  lemma CommittedRecords<P>(records: seq<WalRecord<P>>, i: nat)
    ensures Committed(Events(records), i) <==> RecordCommitted(records, i)
  {
    hide CarriesData, Ends, EventOf;
    var es := Events(records);
    forall m: nat | m < |records|
      ensures es[m].Data? <==> CarriesData(records[m])
      ensures i < |records| ==> (es[m] == Commit(records[i].txn) <==> Ends(records[m], records[i].txn, CommitOp))
      ensures i < |records| ==> (es[m] == Rollback(records[i].txn) <==> Ends(records[m], records[i].txn, RollbackOp))
    {
      EventAt(records, m, if i < |records| then records[i].txn else 0);
    }
    if i < |records| && CarriesData(records[i]) {
      EventAt(records, i, records[i].txn);
      if Committed(es, i) {
        var j: nat :| Commits(es, i, j);
        assert Ends(records[j], records[i].txn, CommitOp);
      }
      if RecordCommitted(records, i) {
        var j :| i < j < |records| && Ends(records[j], records[i].txn, CommitOp)
                 && forall m :: i < m < j ==> !Ends(records[m], records[i].txn, RollbackOp);
        assert Commits(es, i, j);
      }
    }
  }

  // ------------------------------------------------------------------
  // The one-pass scan of one transaction
  // ------------------------------------------------------------------

  function PendingIdx(es: seq<Event>, t: nat): seq<nat> {
    if es == [] then []
    else
      var n := |es| - 1;
      var p := PendingIdx(es[..n], t);
      if es[n] == Data(t) then p + [n]
      else if es[n] == Commit(t) || es[n] == Rollback(t) then []
      else p
  }

  function EmittedIdx(es: seq<Event>, t: nat): seq<nat> {
    if es == [] then []
    else
      var n := |es| - 1;
      EmittedIdx(es[..n], t) + if es[n] == Commit(t) then PendingIdx(es[..n], t) else []
  }

  /** The scan emits exactly the committed records of the transaction, each once, in log order. */
  lemma ScanMeaning(es: seq<Event>, t: nat)
    ensures Ascending(EmittedIdx(es, t))
    ensures forall i: nat :: i in EmittedIdx(es, t) <==> Committed(es, i) && es[i].txn == t
  {
    ScanAscending(es, t);
    EmittedMeaning(es, t);
    var e, p := EmittedIdx(es, t), PendingIdx(es, t);
    forall i, j | 0 <= i < j < |e| ensures e[i] < e[j] {
      assert (e + p)[i] < (e + p)[j];
    }
  }

  predicate Below(s: seq<nat>, n: nat) {
    forall k :: 0 <= k < |s| ==> s[k] < n
  }

  lemma {:induction false} ScanAscending(es: seq<Event>, t: nat)
    ensures Ascending(EmittedIdx(es, t) + PendingIdx(es, t)) && Below(EmittedIdx(es, t) + PendingIdx(es, t), |es|)
    decreases |es|
  {
    if es != [] {
      hide *;
      var n := |es| - 1;
      ScanAscending(es[..n], t);
      var e, p := EmittedIdx(es[..n], t), PendingIdx(es[..n], t);
      ScanStep(es, t);
      Extended(e + p, |e|, n);
      assert e + p + [n] == e + (p + [n]) && (e + p)[..|e|] == e == e + [] && (e + p) + [] == e + p;
    }
  }

  lemma ScanStep(es: seq<Event>, t: nat)
    requires es != []
    ensures var n := |es| - 1;
            var e, p := EmittedIdx(es[..n], t), PendingIdx(es[..n], t);
            && EmittedIdx(es, t) == (if es[n] == Commit(t) then e + p else e)
            && PendingIdx(es, t) == (if es[n] == Data(t) then p + [n] else if es[n] == Commit(t) || es[n] == Rollback(t) then [] else p)
  {
  }

  lemma Extended(s: seq<nat>, k: nat, n: nat)
    requires Ascending(s) && Below(s, n) && k <= |s|
    ensures Ascending(s[..k]) && Ascending(s + [n])
    ensures Below(s, n + 1) && Below(s[..k], n + 1) && Below(s + [n], n + 1)
  {
  }

  lemma {:induction false} PendingMeaning(es: seq<Event>, t: nat)
    ensures forall i: nat :: i in PendingIdx(es, t) <==> Open(es, i) && es[i].txn == t
    decreases |es|
  {
    if es != [] {
      var n := |es| - 1;
      PendingMeaning(es[..n], t);
      forall i: nat ensures i in PendingIdx(es, t) <==> Open(es, i) && es[i].txn == t {
        assert i in PendingIdx(es[..n], t) <==> Open(es[..n], i) && es[..n][i].txn == t;
      }
    }
  }

  lemma {:induction false} EmittedMeaning(es: seq<Event>, t: nat)
    ensures forall i: nat :: i in EmittedIdx(es, t) <==> Committed(es, i) && es[i].txn == t
    decreases |es|
  {
    if es != [] {
      var n := |es| - 1;
      EmittedMeaning(es[..n], t);
      PendingMeaning(es[..n], t);
      forall i: nat ensures i in EmittedIdx(es, t) <==> Committed(es, i) && es[i].txn == t {
        CommittedStep(es, i, t);
        assert i in EmittedIdx(es[..n], t) <==> Committed(es[..n], i) && es[..n][i].txn == t;
        assert i in PendingIdx(es[..n], t) <==> Open(es[..n], i) && es[..n][i].txn == t;
      }
    }
  }

  lemma CommittedStep(es: seq<Event>, i: nat, t: nat)
    requires es != []
    ensures var n := |es| - 1;
            (Committed(es, i) && es[i].txn == t) <==>
            ((Committed(es[..n], i) && es[i].txn == t) || (es[n] == Commit(t) && Open(es[..n], i) && es[i].txn == t))
  {
    var n := |es| - 1;
    var init := es[..n];
    if Committed(init, i) && es[i].txn == t {
      var j: nat :| Commits(init, i, j);
      assert Commits(es, i, j);
    } else if es[n] == Commit(t) && Open(init, i) && es[i].txn == t {
      assert Commits(es, i, n);
    } else if Committed(es, i) && es[i].txn == t {
      var j: nat :| Commits(es, i, j);
      FirstCommit(es, i, j);
    }
  }

  lemma FirstCommit(es: seq<Event>, i: nat, j: nat)
    requires i < |es| && es[i].Data? && Commits(es, i, j)
    ensures var n := |es| - 1;
            Committed(es[..n], i) || (j == n && Open(es[..n], i))
  {
    var n := |es| - 1;
    var init := es[..n];
    if j < n {
      assert Commits(init, i, j);
    } else if m: nat :| i < m < n && es[m] == Commit(es[i].txn) {
      assert Commits(init, i, m);
    }
  }

  // ------------------------------------------------------------------
  // Picking records by index
  // ------------------------------------------------------------------

  function Select<T>(records: seq<T>, idx: seq<nat>): seq<T>
    requires Below(idx, |records|)
  {
    seq(|idx|, k requires 0 <= k < |idx| => records[idx[k]])
  }

  lemma BelowParts(a: seq<nat>, b: seq<nat>, n: nat)
    requires Below(a + b, n)
    ensures Below(a, n) && Below(b, n)
  {
    assert forall k :: 0 <= k < |a| ==> a[k] == (a + b)[k];
    assert forall k :: 0 <= k < |b| ==> b[k] == (a + b)[|a| + k];
  }

  lemma SelectStep<T>(records: seq<T>, e: seq<nat>, p: seq<nat>)
    requires records != [] && Below(e, |records| - 1) && Below(p, |records| - 1)
    ensures var n := |records| - 1;
            && Below(e, |records|) && Below(p, |records|) && Below(e + p, |records|) && Below(p + [n], |records|)
            && Select(records, e) == Select(records[..n], e)
            && Select(records, p) == Select(records[..n], p)
            && Select(records, e + p) == Select(records[..n], e) + Select(records[..n], p)
            && Select(records, p + [n]) == Select(records[..n], p) + [records[n]]
            && Select(records, []) == []
  {
  }
}
