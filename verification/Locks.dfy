/**
 * PermanentDelete and MarkCommitted statement by statement, under row locks and the advisory
 * lock on the manifest id. Statements see committed data and their own changes.
 */
module Locks {
  import opened Vault
  import opened Metadata

  type TxId = nat

  datatype Tx =
    // PermanentDelete: row found and locked; advisory lock held; row deleted; references counted
    | Found(row: RowId, id: Hash)
    | Guarded(row: RowId, id: Hash)
    | Deleted(row: RowId, id: Hash)
    | Counted(row: RowId, id: Hash, lost: bool)
    // MarkCommitted: advisory lock held; row updated
    | Entered(row: RowId, id: Hash)
    | Updated(row: RowId, id: Hash)

  datatype Fine = Fine(db: Db, txs: map<TxId, Tx>)

  datatype Step =
    | FindRow(t: TxId, row: RowId)
    | TakeLock(t: TxId)
    | DeleteRow(t: TxId)
    | CountReferences(t: TxId)
    | CommitDelete(t: TxId)
    | Enter(t: TxId, row: RowId, id: Hash)
    | UpdateRow(t: TxId)
    | CommitMark(t: TxId)
    | Abort(t: TxId)
    | Atomic(a: Statement)

  /** Single statements of other requests; each waits for the row locks in its way. */
  datatype Statement =
    | Insert(row: RowId)
    | Expire(stale: set<RowId>)
    | Trash(row: RowId, trashed: bool)
    | RequeueOne(id: Hash)
    | CompleteOne(id: Hash)

  ghost predicate RowLocked(s: Fine, row: RowId) {
    exists t :: t in s.txs && !s.txs[t].Entered? && s.txs[t].row == row
  }

  predicate HoldsId(tx: Tx, id: Hash) {
    !tx.Found? && tx.id == id
  }

  ghost predicate IdLocked(s: Fine, id: Hash) {
    exists t :: t in s.txs && HoldsId(s.txs[t], id)
  }

  /** The upsert holds the request's row until commit. */
  ghost predicate RequestLocked(s: Fine, id: Hash) {
    exists t :: t in s.txs && s.txs[t].Counted? && s.txs[t].lost && s.txs[t].id == id
  }

  /** With locking off the advisory lock is granted to everybody. */
  ghost predicate Enabled(locking: bool, s: Fine, a: Step) {
    match a
    case FindRow(t, row) =>
      t !in s.txs && !RowLocked(s, row) && row in s.db.rows
      && s.db.rows[row].status == Committed && s.db.rows[row].manifest.Some? && s.db.rows[row].trashed
    case TakeLock(t) => t in s.txs && s.txs[t].Found? && (locking ==> !IdLocked(s, s.txs[t].id))
    case DeleteRow(t) => t in s.txs && s.txs[t].Guarded?
    case CountReferences(t) => t in s.txs && s.txs[t].Deleted? && !RequestLocked(s, s.txs[t].id)
    case CommitDelete(t) => t in s.txs && s.txs[t].Counted?
    case Enter(t, row, id) => t !in s.txs && (locking ==> !IdLocked(s, id))
    case UpdateRow(t) =>
      t in s.txs && s.txs[t].Entered? && !RowLocked(s, s.txs[t].row)
      && s.txs[t].row in s.db.rows && s.db.rows[s.txs[t].row].status == Pending
    case CommitMark(t) => t in s.txs && s.txs[t].Updated?
    case Abort(t) => t in s.txs
    case Atomic(Insert(row)) => row !in s.db.rows
    case Atomic(Expire(stale)) => forall r | r in stale :: !RowLocked(s, r)
    case Atomic(Trash(row, _)) => !RowLocked(s, row)
    case Atomic(RequeueOne(id)) => !RequestLocked(s, id)
    case Atomic(CompleteOne(id)) => !RequestLocked(s, id)
  }

  function Execute(db: Db, a: Statement): Db {
    match a
    case Insert(row) => CreatePending(db, row)
    case Expire(stale) => ExpirePending(db, stale)
    case Trash(row, trashed) => SetTrashed(db, row, trashed)
    case RequeueOne(id) => Requeue(db, id)
    case CompleteOne(id) => MarkCompleted(db, id)
  }

  ghost function After(s: Fine, a: Step): Fine
    requires Enabled(false, s, a)
  {
    match a
    case FindRow(t, row) => s.(txs := s.txs[t := Found(row, s.db.rows[row].manifest.value)])
    case TakeLock(t) => s.(txs := s.txs[t := Guarded(s.txs[t].row, s.txs[t].id)])
    case DeleteRow(t) => s.(txs := s.txs[t := Deleted(s.txs[t].row, s.txs[t].id)])
    case CountReferences(t) =>
      var tx := s.txs[t];
      s.(txs := s.txs[t := Counted(tx.row, tx.id, !HasReferences(s.db.rows - {tx.row}, tx.id))])
    case CommitDelete(t) =>
      var tx := s.txs[t];
      Fine(Db(s.db.rows - {tx.row}, if tx.lost then s.db.outbox[tx.id := Queued] else s.db.outbox), s.txs - {t})
    case Enter(t, row, id) => s.(txs := s.txs[t := Entered(row, id)])
    case UpdateRow(t) => s.(txs := s.txs[t := Updated(s.txs[t].row, s.txs[t].id)])
    case CommitMark(t) =>
      var r := MarkCommitted(s.db, s.txs[t].row, s.txs[t].id);
      Fine(if r.Ok? then r.value else s.db, s.txs - {t})
    case Abort(t) => s.(txs := s.txs - {t})
    case Atomic(st) => s.(db := Execute(s.db, st))
  }

  // ---------------------------------------------------------------- the fine steps refine the atomic ones

  /** What a transaction in flight may rely on. */
  ghost predicate TxOk(db: Db, tx: Tx) {
    match tx
    case Found(row, id) => row in db.rows && Refers(db.rows[row], id)
    case Guarded(row, id) => row in db.rows && Refers(db.rows[row], id)
    case Deleted(row, id) => row in db.rows && Refers(db.rows[row], id)
    case Counted(row, id, lost) =>
      row in db.rows && Refers(db.rows[row], id) && (lost <==> !HasReferences(db.rows - {row}, id))
    case Entered(_, _) => true
    case Updated(row, _) => row in db.rows && db.rows[row].status == Pending
  }

  ghost predicate Inv(s: Fine) {
    && (forall t | t in s.txs :: TxOk(s.db, s.txs[t]))
    && (forall t, u | t in s.txs && u in s.txs && t != u && !s.txs[t].Entered? && !s.txs[u].Entered? ::
          s.txs[t].row != s.txs[u].row)
    && (forall t, u | t in s.txs && u in s.txs && t != u && !s.txs[t].Found? && !s.txs[u].Found? ::
          s.txs[t].id != s.txs[u].id)
  }

  /** One atomic transaction or statement, or nothing at all. */
  ghost predicate AtomicStep(db: Db, a: Step, db': Db) {
    match a
    case CommitDelete(_) => exists row :: row in db.rows && DeletesRows(db, {row}, db')
    case CommitMark(_) => exists row, id :: MarkCommitted(db, row, id) == Ok(db')
    case Atomic(st) => db' == Execute(db, st)
    case _ => db' == db
  }

  lemma CommitDeleteIsAtomic(s: Fine, t: TxId)
    requires Inv(s) && Enabled(true, s, CommitDelete(t))
    ensures DeletesRows(s.db, {s.txs[t].row}, After(s, CommitDelete(t)).db)
  {
    var tx := s.txs[t];
    assert TxOk(s.db, tx);
    forall id
      ensures LosesLastReference(s.db.rows, {tx.row}, id) <==> id == tx.id && tx.lost
    {
      assert Refers(s.db.rows[tx.row], id) <==> id == tx.id;
    }
  }

  /** Under locking every step of the fine system is an atomic step or invisible. */
  lemma FineRefinesAtomic(s: Fine, a: Step)
    requires Inv(s) && Enabled(true, s, a)
    ensures AtomicStep(s.db, a, After(s, a).db)
  {
    if a.CommitDelete? {
      CommitDeleteIsAtomic(s, a.t);
    } else if a.CommitMark? {
      assert TxOk(s.db, s.txs[a.t]);
      assert MarkCommitted(s.db, s.txs[a.t].row, s.txs[a.t].id) == Ok(After(s, a).db);
    }
  }

  /** The rows differ at r only, and there they refer to nothing but touched. */
  ghost predicate DifferAt(rows: map<RowId, Row>, rows': map<RowId, Row>, r: RowId, touched: Hash) {
    && (forall k | k != r :: (k in rows <==> k in rows') && (k in rows ==> rows'[k] == rows[k]))
    && (r in rows ==> forall k :: Refers(rows[r], k) ==> k == touched)
    && (r in rows' ==> forall k :: Refers(rows'[r], k) ==> k == touched)
  }

  /** Adding or dropping a reference to one manifest leaves every other manifest's references alone. */
  lemma OtherManifestsUnaffected(rows: map<RowId, Row>, rows': map<RowId, Row>, r: RowId, touched: Hash, row: RowId, id: Hash)
    requires id != touched && row != r && DifferAt(rows, rows', r, touched)
    ensures HasReferences(rows - {row}, id) <==> HasReferences(rows' - {row}, id)
  {
    if k :| k in rows - {row} && Refers((rows - {row})[k], id) {
      assert k in rows' - {row} && Refers((rows' - {row})[k], id);
    }
    if k :| k in rows' - {row} && Refers((rows' - {row})[k], id) {
      assert k in rows - {row} && Refers((rows - {row})[k], id);
    }
  }

  /** Each row refers to what it referred to before. */
  ghost predicate SameReferences(rows: map<RowId, Row>, rows': map<RowId, Row>) {
    forall r, id :: (r in rows' && Refers(rows'[r], id)) <==> (r in rows && Refers(rows[r], id))
  }

  lemma SameReferencesCount(rows: map<RowId, Row>, rows': map<RowId, Row>, row: RowId, id: Hash)
    requires SameReferences(rows, rows')
    ensures HasReferences(rows - {row}, id) <==> HasReferences(rows' - {row}, id)
  {
    if k :| k in rows - {row} && Refers((rows - {row})[k], id) {
      assert k in rows' && Refers(rows'[k], id);
      assert k in rows' - {row} && Refers((rows' - {row})[k], id);
    }
    if k :| k in rows' - {row} && Refers((rows' - {row})[k], id) {
      assert k in rows && Refers(rows[k], id);
      assert k in rows - {row} && Refers((rows - {row})[k], id);
    }
  }

  lemma StatementKeepsTx(s: Fine, a: Statement, t: TxId)
    requires Inv(s) && Enabled(true, s, Atomic(a)) && t in s.txs
    ensures TxOk(Execute(s.db, a), s.txs[t])
  {
    var db', tx := Execute(s.db, a), s.txs[t];
    assert TxOk(s.db, tx);
    assert SameReferences(s.db.rows, db'.rows);
    SameReferencesCount(s.db.rows, db'.rows, tx.row, tx.id);
    assert !tx.Entered? ==> RowLocked(s, tx.row);
  }

  lemma CommitDeleteKeepsTx(s: Fine, t: TxId, u: TxId)
    requires Inv(s) && Enabled(true, s, CommitDelete(t)) && u in s.txs && u != t
    ensures TxOk(After(s, CommitDelete(t)).db, s.txs[u])
  {
    var rows, rows' := s.db.rows, After(s, CommitDelete(t)).db.rows;
    var tx, ux := s.txs[t], s.txs[u];
    assert TxOk(s.db, tx) && TxOk(s.db, ux);
    if ux.Counted? {
      OtherManifestsUnaffected(rows, rows', tx.row, tx.id, ux.row, ux.id);
    }
  }

  lemma CommitMarkKeepsTx(s: Fine, t: TxId, u: TxId)
    requires Inv(s) && Enabled(true, s, CommitMark(t)) && u in s.txs && u != t
    ensures TxOk(After(s, CommitMark(t)).db, s.txs[u])
  {
    var rows, rows' := s.db.rows, After(s, CommitMark(t)).db.rows;
    var tx, ux := s.txs[t], s.txs[u];
    assert TxOk(s.db, tx) && TxOk(s.db, ux);
    if ux.Counted? {
      OtherManifestsUnaffected(rows, rows', tx.row, tx.id, ux.row, ux.id);
    }
  }

  lemma StepKeepsTxs(s: Fine, a: Step)
    requires Inv(s) && Enabled(true, s, a)
    ensures var s' := After(s, a); forall t | t in s'.txs :: TxOk(s'.db, s'.txs[t])
  {
    var s' := After(s, a);
    forall u | u in s'.txs
      ensures TxOk(s'.db, s'.txs[u])
    {
      assert u in s.txs ==> TxOk(s.db, s.txs[u]);
      if a.Atomic? {
        StatementKeepsTx(s, a.a, u);
      } else if a.CommitDelete? {
        CommitDeleteKeepsTx(s, a.t, u);
      } else if a.CommitMark? {
        CommitMarkKeepsTx(s, a.t, u);
      }
    }
  }

  lemma StepKeepsInv(s: Fine, a: Step)
    requires Inv(s) && Enabled(true, s, a)
    ensures Inv(After(s, a))
  {
    hide TxOk;
    StepKeepsTxs(s, a);
    var s' := After(s, a);
    if a.FindRow? || a.UpdateRow? {
      assert forall u | u in s.txs && !s.txs[u].Entered? :: RowLocked(s, s.txs[u].row);
    }
    if a.TakeLock? || a.Enter? {
      assert forall u | u in s.txs && !s.txs[u].Found? :: HoldsId(s.txs[u], s.txs[u].id) && IdLocked(s, s.txs[u].id);
    }
  }

  // ---------------------------------------------------------------- whole runs

  ghost predicate Run(locking: bool, s: Fine, steps: seq<Step>, s': Fine)
    decreases |steps|
  {
    if steps == [] then s' == s
    else Enabled(locking, s, steps[0]) && Run(locking, After(s, steps[0]), steps[1..], s')
  }

  ghost predicate AtomicRun(db: Db, steps: seq<Step>, db': Db)
    decreases |steps|
  {
    if steps == [] then db' == db
    else exists mid :: AtomicStep(db, steps[0], mid) && AtomicRun(mid, steps[1..], db')
  }

  lemma {:induction false} FineRunIsAtomic(s: Fine, steps: seq<Step>, s': Fine)
    requires Inv(s) && Run(true, s, steps, s')
    ensures Inv(s') && AtomicRun(s.db, steps, s'.db)
    decreases |steps|
  {
    if steps != [] {
      var s1 := After(s, steps[0]);
      FineRefinesAtomic(s, steps[0]);
      StepKeepsInv(s, steps[0]);
      FineRunIsAtomic(s1, steps[1..], s');
    }
  }

  /** The outbox differs exactly at the manifests that lost their last row, and there a request is queued. */
  ghost predicate QueuedExactly(db: Db, db': Db) {
    && (forall r | r in db'.rows :: r in db.rows && db'.rows[r] == db.rows[r])
    && (forall id ::
          if HasReferences(db.rows, id) && !HasReferences(db'.rows, id) then IsQueued(db', id)
          else (id in db'.outbox <==> id in db.outbox) && (id in db.outbox ==> db'.outbox[id] == db.outbox[id]))
  }

  lemma DeleteKeepsQueuedExactly(db: Db, db1: Db, gone: set<RowId>, db2: Db)
    requires QueuedExactly(db, db1) && DeletesRows(db1, gone, db2)
    ensures QueuedExactly(db, db2)
  {
    forall id
      ensures HasReferences(db2.rows, id) ==> HasReferences(db1.rows, id)
      ensures HasReferences(db1.rows, id) ==> HasReferences(db.rows, id)
      ensures LosesLastReference(db1.rows, gone, id) <==> HasReferences(db1.rows, id) && !HasReferences(db2.rows, id)
    {
      if r :| r in db2.rows && Refers(db2.rows[r], id) {
        assert r in db1.rows && Refers(db1.rows[r], id);
      }
      if r :| r in db1.rows && Refers(db1.rows[r], id) {
        assert r in db.rows && Refers(db.rows[r], id);
        assert r in gone || (r in db2.rows && Refers(db2.rows[r], id));
      }
    }
  }

  lemma {:induction false} RunKeepsQueuedExactly(db: Db, s: Fine, steps: seq<Step>, s': Fine)
    requires Inv(s) && Run(true, s, steps, s') && QueuedExactly(db, s.db)
    requires forall a | a in steps :: !a.Enter? && !a.UpdateRow? && !a.CommitMark? && !a.Atomic?
    ensures QueuedExactly(db, s'.db)
    decreases |steps|
  {
    if steps != [] {
      var a := steps[0];
      if a.CommitDelete? {
        CommitDeleteIsAtomic(s, a.t);
        DeleteKeepsQueuedExactly(db, s.db, {s.txs[a.t].row}, After(s, a).db);
      }
      StepKeepsInv(s, a);
      RunKeepsQueuedExactly(db, After(s, a), steps[1..], s');
    }
  }

  /**
   * Permanent deletes in any interleaving, aborts included: a manifest that loses its last
   * committed row ends with its one request queued, and any other keeps the request it had.
   */
  lemma ConcurrentDeletesQueueExactly(db: Db, steps: seq<Step>, s: Fine)
    requires Run(true, Fine(db, map[]), steps, s)
    requires forall a | a in steps :: !a.Enter? && !a.UpdateRow? && !a.CommitMark? && !a.Atomic?
    ensures QueuedExactly(db, s.db)
  {
    RunKeepsQueuedExactly(db, Fine(db, map[]), steps, s);
  }

  lemma {:induction false} Snoc(locking: bool, s: Fine, steps: seq<Step>, s1: Fine, a: Step)
    requires Run(locking, s, steps, s1) && Enabled(locking, s1, a)
    ensures Run(locking, s, steps + [a], After(s1, a))
    decreases |steps|
  {
    if steps == [] {
      assert steps + [a] == [a];
    } else {
      Snoc(locking, After(s, steps[0]), steps[1..], s1, a);
      assert (steps + [a])[1..] == steps[1..] + [a];
    }
  }

  /** Without the advisory lock two deletes count each other's row and the manifest is never queued. */
  lemma WithoutTheLockARequestIsLost(id: Hash) returns (steps: seq<Step>, s: Fine)
    ensures var row := Row(Some(id), Committed, true);
            Run(false, Fine(Db(map[0 := row, 1 := row], map[]), map[]), steps, s)
    ensures s == Fine(Db(map[], map[]), map[])
  {
    var row := Row(Some(id), Committed, true);
    var rows := map[0 := row, 1 := row];
    var s0 := Fine(Db(rows, map[]), map[]);
    steps, s := [], s0;
    Snoc(false, s0, steps, s, FindRow(0, 0));
    steps, s := steps + [FindRow(0, 0)], After(s, FindRow(0, 0));
    Snoc(false, s0, steps, s, FindRow(1, 1));
    steps, s := steps + [FindRow(1, 1)], After(s, FindRow(1, 1));
    var more := BothProceed(s0, steps, s, id);
    steps := more;
    s := Fine(Db(map[], map[]), map[]);
  }

  lemma BothDelete(s0: Fine, before: seq<Step>, s1: Fine, id: Hash) returns (steps: seq<Step>)
    requires s1.txs == map[0 := Found(0, id), 1 := Found(1, id)] && Run(false, s0, before, s1)
    ensures Run(false, s0, steps, Fine(s1.db, map[0 := Deleted(0, id), 1 := Deleted(1, id)]))
  {
    var s := s1;
    steps := before;
    Snoc(false, s0, steps, s, TakeLock(0));
    steps, s := steps + [TakeLock(0)], After(s, TakeLock(0));
    Snoc(false, s0, steps, s, TakeLock(1));
    steps, s := steps + [TakeLock(1)], After(s, TakeLock(1));
    Snoc(false, s0, steps, s, DeleteRow(0));
    steps, s := steps + [DeleteRow(0)], After(s, DeleteRow(0));
    Snoc(false, s0, steps, s, DeleteRow(1));
    steps, s := steps + [DeleteRow(1)], After(s, DeleteRow(1));
    assert s.txs == map[0 := Deleted(0, id), 1 := Deleted(1, id)];
  }

  lemma BothProceed(s0: Fine, before: seq<Step>, s1: Fine, id: Hash) returns (steps: seq<Step>)
    requires var row := Row(Some(id), Committed, true);
             s1 == Fine(Db(map[0 := row, 1 := row], map[]), map[0 := Found(0, id), 1 := Found(1, id)])
    requires Run(false, s0, before, s1)
    ensures Run(false, s0, steps, Fine(Db(map[], map[]), map[]))
  {
    hide Run;
    steps := BothDelete(s0, before, s1, id);
    var s := Fine(s1.db, map[0 := Deleted(0, id), 1 := Deleted(1, id)]);
    assert Refers((s.db.rows - {0})[1], id) && Refers((s.db.rows - {1})[0], id);
    Snoc(false, s0, steps, s, CountReferences(0));
    steps, s := steps + [CountReferences(0)], After(s, CountReferences(0));
    Snoc(false, s0, steps, s, CountReferences(1));
    steps, s := steps + [CountReferences(1)], After(s, CountReferences(1));
    assert s.txs == map[0 := Counted(0, id, false), 1 := Counted(1, id, false)];
    Snoc(false, s0, steps, s, CommitDelete(0));
    steps, s := steps + [CommitDelete(0)], After(s, CommitDelete(0));
    Snoc(false, s0, steps, s, CommitDelete(1));
    steps, s := steps + [CommitDelete(1)], After(s, CommitDelete(1));
    assert s.db.rows == map[] && s.txs == map[];
  }
}
