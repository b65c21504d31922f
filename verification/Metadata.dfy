/** The application's metadata: file rows, the retirement outbox, and the transactions over them. */
module Metadata {
  import opened Vault

  type RowId = nat

  datatype RowStatus = Pending | Committed | Failed

  datatype Row = Row(manifest: Option<Hash>, status: RowStatus, trashed: bool)

  datatype Request = Queued | Completed

  datatype Db = Db(rows: map<RowId, Row>, outbox: map<Hash, Request>)

  predicate Refers(row: Row, id: Hash) {
    row.status == Committed && row.manifest == Some(id)
  }

  ghost predicate HasReferences(rows: map<RowId, Row>, id: Hash) {
    exists r :: r in rows && Refers(rows[r], id)
  }

  predicate IsQueued(db: Db, id: Hash) {
    id in db.outbox && db.outbox[id] == Queued
  }

  /** Manifests that had a committed row among those that go and have none left. */
  ghost predicate LosesLastReference(rows: map<RowId, Row>, gone: set<RowId>, id: Hash) {
    && (exists r :: r in gone && r in rows && Refers(rows[r], id))
    && !HasReferences(rows - gone, id)
  }

  /** A permanent delete taken as one transaction: rows go, and lost manifests are queued. */
  ghost predicate DeletesRows(db: Db, gone: set<RowId>, db': Db) {
    && db'.rows == db.rows - gone
    && (forall id :: id in db'.outbox <==> id in db.outbox || LosesLastReference(db.rows, gone, id))
    && (forall id | id in db'.outbox ::
          db'.outbox[id] == if LosesLastReference(db.rows, gone, id) then Queued else db.outbox[id])
  }

  function CreatePending(db: Db, r: RowId): Db {
    db.(rows := db.rows[r := Row(None, Pending, false)])
  }

  /** MarkCommitted finds only pending rows; anything else is its ErrNotFound. */
  function MarkCommitted(db: Db, r: RowId, id: Hash): Result<Db> {
    if r in db.rows && db.rows[r].status == Pending
    then Ok(db.(rows := db.rows[r := db.rows[r].(manifest := Some(id), status := Committed)]))
    else Err
  }

  function MarkFailed(db: Db, r: RowId): Db {
    if r in db.rows && db.rows[r].status == Pending
    then db.(rows := db.rows[r := db.rows[r].(status := Failed)])
    else db
  }

  function ExpirePending(db: Db, stale: set<RowId>): Db {
    db.(rows := map r | r in db.rows ::
          if r in stale && db.rows[r].status == Pending then db.rows[r].(status := Failed) else db.rows[r])
  }

  function SetTrashed(db: Db, r: RowId, trashed: bool): Db {
    if r in db.rows && db.rows[r].status == Committed
    then db.(rows := db.rows[r := db.rows[r].(trashed := trashed)])
    else db
  }

  /** Requeue and fail update an existing request; they never insert one. */
  function Requeue(db: Db, id: Hash): Db {
    if id in db.outbox then db.(outbox := db.outbox[id := Queued]) else db
  }

  /** Completion looks at neither the status nor the claim: it overwrites whatever is there. */
  function MarkCompleted(db: Db, id: Hash): Db {
    if id in db.outbox then db.(outbox := db.outbox[id := Completed]) else db
  }
}
