/**
 * Uploaders, deleters and the retirement worker as small steps over the metadata and the
 * Vault, which share nothing but the calls they make.
 */
module Retirement {
  import opened Vault
  import VM = VaultMachine
  import opened Metadata
  import opened Objects

  /** An uploader of FileService.Upload; its vault upload goes by the same id. */
  datatype Uploader =
    | Streaming(row: RowId)
    | Uploaded(row: RowId, id: Hash)
    | Marked(row: RowId, id: Hash)
    | Requeued(row: RowId, id: Hash)

  /** How far processManifestRetirement has come with its item. */
  datatype Phase = Claimed | Checked(referenced: bool) | RetiredOnce | Rechecked(referenced: bool) | Retained

  datatype Worker = Idle | Busy(item: Hash, phase: Phase, rest: seq<Hash>)

  datatype Sys = Sys(world: VM.World, db: Db, uploaders: map<UploadId, Uploader>, worker: Worker, clock: Time)

  datatype Step =
    // uploader
    | StartUpload(p: UploadId, row: RowId)
    | VaultAnswers(p: UploadId)
    | UploadFails(p: UploadId)
    | MarkRow(p: UploadId)
    | RequeueRow(p: UploadId, reached: bool)
    | RetainOwn(p: UploadId)
    // deleter and janitor
    | DeleteRows(gone: set<RowId>, db': Db)
    | Trash(row: RowId, trashed: bool)
    | Expire(stale: set<RowId>)
    // worker
    | Claim(items: seq<Hash>)
    | Check
    | WorkerRetain
    | WorkerRetire
    | Recheck
    | Finish
    | ItemFails(recorded: bool)
    | WorkerDies
    // vault and time
    | VaultStep(a: VM.Step)
    | Collect(d: Deletion)
    | Tick(now: Time)

  /** Sweeps use a cutoff this far in the past. */
  const GRACE: Time := 1800

  function InitialSys(clock: Time): Sys {
    Sys(VM.EMPTY, Db(map[], map[]), map[], Idle, clock)
  }

  // ---------------------------------------------------------------- who still needs a manifest

  ghost predicate Owes(s: Sys, p: UploadId, id: Hash) {
    p in s.uploaders && (s.uploaders[p].Marked? || s.uploaders[p].Requeued?) && s.uploaders[p].id == id
  }

  /** Some uploader has committed its row for id and still has its Retain to do. */
  ghost predicate Owed(s: Sys, id: Hash) {
    exists p :: Owes(s, p, id)
  }

  predicate IsRetired(s: Sys, id: Hash) {
    id in s.world.s.manifests && s.world.s.manifests[id].retired
  }

  ghost predicate UploaderHolds(env: Env, s: Sys, p: UploadId, id: Hash) {
    p in s.uploaders &&
      match s.uploaders[p]
      case Streaming(_) =>
        p in s.world.uploads && s.world.uploads[p].stage == VM.Committed && env.hash(s.world.uploads[p].content) == id
      case Uploaded(_, id') => id' == id
      case Marked(_, id') => id' == id
      case Requeued(_, id') => id' == id
  }

  predicate WorkerHolds(s: Sys, id: Hash) {
    s.worker.Busy? && s.worker.item == id && (s.worker.phase == Checked(true) || s.worker.phase == Rechecked(true))
  }

  /** A committed row, an uploader past its vault commit, or a worker about to retain. */
  ghost predicate Wanted(env: Env, s: Sys, id: Hash) {
    HasReferences(s.db.rows, id) || (exists p :: UploaderHolds(env, s, p, id)) || WorkerHolds(s, id)
  }

  /** Somebody is going to look at the manifest: a request, an uploader, or a worker about to retain. */
  ghost predicate Attended(env: Env, s: Sys, id: Hash) {
    || (HasReferences(s.db.rows, id) && (IsQueued(s.db, id) || Owed(s, id)))
    || (exists p :: UploaderHolds(env, s, p, id))
    || WorkerHolds(s, id)
  }

  /** Whoever has a retired manifest on its list has had it there for no longer than the grace. */
  ghost predicate WindowsWithinGrace(env: Env, s: Sys) {
    forall id | id in s.world.s.manifests && Attended(env, s, id) && s.world.s.manifests[id].retired ::
      VM.Kept(s.world.s.manifests[id], s.clock - GRACE)
  }

  // ---------------------------------------------------------------- steps

  ghost predicate Enabled(env: Env, s: Sys, a: Step)
    requires env.chunking.cfg.Valid()
  {
    match a
    case StartUpload(p, row) => p !in s.uploaders && p !in s.world.uploads && row !in s.db.rows
    case VaultAnswers(p) =>
      p in s.uploaders && s.uploaders[p].Streaming? && p in s.world.uploads && s.world.uploads[p].stage == VM.Committed
    case UploadFails(p) => p in s.uploaders && (s.uploaders[p].Streaming? || s.uploaders[p].Uploaded?)
    case MarkRow(p) => p in s.uploaders && s.uploaders[p].Uploaded?
    case RequeueRow(p, _) => p in s.uploaders && s.uploaders[p].Marked?
    case RetainOwn(p) => p in s.uploaders && s.uploaders[p].Requeued?
    case DeleteRows(gone, db') => DeletesRows(s.db, gone, db')
    case Trash(_, _) => true
    case Expire(_) => true
    case Claim(items) => s.worker.Idle? && Claimable(s.db, items)
    case Check => s.worker.Busy? && s.worker.phase.Claimed?
    case WorkerRetain => s.worker.Busy? && (s.worker.phase == Checked(true) || s.worker.phase == Rechecked(true))
    case WorkerRetire => s.worker.Busy? && s.worker.phase == Checked(false) && s.worker.item in s.world.s.manifests
    case Recheck => s.worker.Busy? && s.worker.phase.RetiredOnce?
    case Finish => s.worker.Busy? && (s.worker.phase.Retained? || s.worker.phase == Rechecked(false))
    case ItemFails(_) => s.worker.Busy?
    case WorkerDies => true
    case VaultStep(a) => VM.Enabled(s.world, a) && !a.Retire? && !a.Retain? && !a.SweepUp?
    case Collect(d) => VM.Enabled(s.world, VM.SweepUp(s.clock - GRACE, d))
    case Tick(now) => now >= s.clock
  }

  /** The timing hypothesis: a sweep comes only while every open window is shorter than the grace. */
  ghost predicate InTime(env: Env, s: Sys, a: Step) {
    a.Collect? ==> WindowsWithinGrace(env, s)
  }

  ghost predicate Claimable(db: Db, items: seq<Hash>) {
    && (forall i | 0 <= i < |items| :: IsQueued(db, items[i]))
    && (forall i, j | 0 <= i < j < |items| :: items[i] != items[j])
  }

  /** The Vault calls themselves check nothing but that the manifest exists. */
  function RetainIn(w: VM.World, id: Hash): VM.World {
    var r := SetLifecycle(w.s, id, false, 0);
    if r.Ok? then w.(s := r.value) else w
  }

  function RetireIn(w: VM.World, id: Hash, now: Time): VM.World {
    var r := SetLifecycle(w.s, id, true, now);
    if r.Ok? then w.(s := r.value) else w
  }

  function NextItem(rest: seq<Hash>): Worker {
    if rest == [] then Idle else Busy(rest[0], Claimed, rest[1..])
  }

  predicate RowCommits(s: Sys, p: UploadId)
    requires p in s.uploaders && s.uploaders[p].Uploaded?
  {
    MarkCommitted(s.db, s.uploaders[p].row, s.uploaders[p].id).Ok?
  }

  ghost function After(env: Env, s: Sys, a: Step): Sys
    requires env.chunking.cfg.Valid() && Enabled(env, s, a)
  {
    match a
    case StartUpload(p, row) =>
      s.(db := CreatePending(s.db, row), uploaders := s.uploaders[p := Streaming(row)])
    case VaultAnswers(p) =>
      s.(world := VM.Apply(env, s.world, VM.End(p)),
         uploaders := s.uploaders[p := Uploaded(s.uploaders[p].row, env.hash(s.world.uploads[p].content))])
    case UploadFails(p) =>
      s.(db := MarkFailed(s.db, s.uploaders[p].row), uploaders := s.uploaders - {p})
    case MarkRow(p) =>
      var up := s.uploaders[p];
      var r := MarkCommitted(s.db, up.row, up.id);
      if r.Ok? then s.(db := r.value, uploaders := s.uploaders[p := Marked(up.row, up.id)])
      else s.(uploaders := s.uploaders - {p})
    case RequeueRow(p, reached) =>
      var up := s.uploaders[p];
      s.(db := if reached then Requeue(s.db, up.id) else s.db, uploaders := s.uploaders[p := Requeued(up.row, up.id)])
    case RetainOwn(p) =>
      s.(world := RetainIn(s.world, s.uploaders[p].id), uploaders := s.uploaders - {p})
    case DeleteRows(_, db') => s.(db := db')
    case Trash(row, trashed) => s.(db := SetTrashed(s.db, row, trashed))
    case Expire(stale) => s.(db := ExpirePending(s.db, stale))
    case Claim(items) => s.(worker := NextItem(items))
    case Check => s.(worker := s.worker.(phase := Checked(HasReferences(s.db.rows, s.worker.item))))
    case WorkerRetain =>
      s.(world := RetainIn(s.world, s.worker.item), worker := s.worker.(phase := Retained))
    case WorkerRetire =>
      s.(world := RetireIn(s.world, s.worker.item, s.clock), worker := s.worker.(phase := RetiredOnce))
    case Recheck => s.(worker := s.worker.(phase := Rechecked(HasReferences(s.db.rows, s.worker.item))))
    case Finish => s.(db := MarkCompleted(s.db, s.worker.item), worker := NextItem(s.worker.rest))
    case ItemFails(recorded) =>
      s.(db := if recorded then Requeue(s.db, s.worker.item) else s.db, worker := NextItem(s.worker.rest))
    case WorkerDies => s.(worker := Idle)
    case VaultStep(a) => s.(world := VM.Apply(env, s.world, a))
    case Collect(d) => s.(world := VM.Apply(env, s.world, VM.SweepUp(s.clock - GRACE, d)))
    case Tick(now) => s.(clock := now)
  }

  // ---------------------------------------------------------------- what the steps do to rows and requests

  predicate InStatus(s: Sys, r: RowId, status: RowStatus) {
    r in s.db.rows && s.db.rows[r].status == status
  }

  /** Which step ends the waiting of a pending row. */
  ghost predicate Settles(env: Env, s: Sys, a: Step, r: RowId)
    requires env.chunking.cfg.Valid() && Enabled(env, s, a)
  {
    match a
    case MarkRow(p) => s.uploaders[p].row == r
    case UploadFails(p) => s.uploaders[p].row == r
    case Expire(stale) => r in stale
    case DeleteRows(gone, _) => r in gone
    case _ => false
  }

  /**
   * Exactly which steps change a row: only a started upload makes it pending, only its own
   * uploader commits it, and a committed row goes with a permanent delete only.
   */
  lemma RowsChangeExactly(env: Env, s: Sys, a: Step, r: RowId)
    requires env.chunking.cfg.Valid() && Enabled(env, s, a)
    ensures InStatus(After(env, s, a), r, Pending) <==>
              (InStatus(s, r, Pending) && !Settles(env, s, a, r)) || (a.StartUpload? && a.row == r)
    ensures InStatus(After(env, s, a), r, Committed) <==>
              || (InStatus(s, r, Committed) && !(a.DeleteRows? && r in a.gone))
              || (InStatus(s, r, Pending) && a.MarkRow? && s.uploaders[a.p].row == r)
    ensures InStatus(s, r, Committed) && InStatus(After(env, s, a), r, Committed) ==>
              var row, row' := s.db.rows[r], After(env, s, a).db.rows[r];
              row'.manifest == row.manifest && row'.trashed == if a.Trash? && a.row == r then a.trashed else row.trashed
  {
  }

  /** Which step asks for a manifest's retirement to be looked at. */
  ghost predicate Asks(env: Env, s: Sys, a: Step, id: Hash)
    requires env.chunking.cfg.Valid() && Enabled(env, s, a)
  {
    match a
    case DeleteRows(gone, _) => LosesLastReference(s.db.rows, gone, id)
    case RequeueRow(p, reached) => reached && s.uploaders[p].id == id && id in s.db.outbox
    case ItemFails(recorded) => recorded && s.worker.item == id && id in s.db.outbox
    case _ => false
  }

  /** Exactly which steps change a request: a lost last reference, a requeue, a noted failure, a completion. */
  lemma RequestsChangeExactly(env: Env, s: Sys, a: Step, id: Hash)
    requires env.chunking.cfg.Valid() && Enabled(env, s, a)
    ensures IsQueued(After(env, s, a).db, id) <==>
              Asks(env, s, a, id) || (IsQueued(s.db, id) && !(a.Finish? && s.worker.item == id))
  {
  }

  // ---------------------------------------------------------------- coverage

  /** A retired manifest with a committed row is on somebody's list. */
  ghost predicate Covered(s: Sys) {
    forall id | HasReferences(s.db.rows, id) && IsRetired(s, id) :: IsQueued(s.db, id) || Owed(s, id)
  }

  /** What the worker's place in its item says about the rest of the system. */
  ghost predicate WorkerOk(s: Sys) {
    s.worker.Busy? ==>
      && Claimable(s.db, [s.worker.item] + s.worker.rest)
      && (s.worker.phase == Retained ==> !IsRetired(s, s.worker.item))
      && (s.worker.phase == Rechecked(false) ==>
            HasReferences(s.db.rows, s.worker.item) && IsRetired(s, s.worker.item) ==> Owed(s, s.worker.item))
  }

  /** s' retires nothing new, forgets no request and no debt that still matters, and adds no reference. */
  ghost predicate Harmless(s: Sys, s': Sys) {
    && (forall id :: IsRetired(s', id) ==> IsRetired(s, id))
    && (forall id :: IsQueued(s.db, id) ==> IsQueued(s'.db, id))
    && (forall id :: HasReferences(s'.db.rows, id) ==> HasReferences(s.db.rows, id) || Owed(s', id))
    && (forall id :: Owed(s, id) && IsRetired(s', id) ==> Owed(s', id))
  }

  ghost predicate AllValid(ms: map<Hash, Manifest>) {
    forall id | id in ms :: ValidManifest(ms[id])
  }

  lemma HarmlessKeepsCover(s: Sys, s': Sys)
    requires Covered(s) && WorkerOk(s) && Harmless(s, s') && s'.worker == s.worker
    ensures Covered(s') && WorkerOk(s')
  {
  }

  lemma VaultStepRetiresNothing(env: Env, w: VM.World, a: VM.Step, id: Hash)
    requires env.chunking.cfg.Valid() && VM.Enabled(w, a) && !a.Retire?
    ensures var ms, ms' := w.s.manifests, VM.Apply(env, w, a).s.manifests;
            && (id in ms ==> id in ms')
            && (id in ms' && ms'[id].retired ==> id in ms && ms'[id] == ms[id])
  {
    if a.CommitUpload? {
      VM.CommitCases(w.s, VM.NewManifest(env, w.uploads[a.u].content, w.uploads[a.u].touched, a.now));
    }
  }

  lemma VaultStepKeepsCover(env: Env, s: Sys, a: Step)
    requires env.chunking.cfg.Valid() && Covered(s) && WorkerOk(s) && Enabled(env, s, a)
    requires a.VaultStep? || a.Collect?
    ensures Covered(After(env, s, a)) && WorkerOk(After(env, s, a))
  {
    var s' := After(env, s, a);
    var v := if a.VaultStep? then a.a else VM.SweepUp(s.clock - GRACE, a.d);
    assert forall p, id :: Owes(s, p, id) <==> Owes(s', p, id);
    forall id
      ensures IsRetired(s', id) ==> IsRetired(s, id)
    {
      VaultStepRetiresNothing(env, s.world, v, id);
    }
    HarmlessKeepsCover(s, s');
  }

  lemma UploaderStepKeepsCover(env: Env, s: Sys, a: Step)
    requires env.chunking.cfg.Valid() && Covered(s) && WorkerOk(s) && Enabled(env, s, a)
    requires a.StartUpload? || a.VaultAnswers? || a.UploadFails? || a.RequeueRow?
    ensures Covered(After(env, s, a)) && WorkerOk(After(env, s, a))
  {
    var s' := After(env, s, a);
    forall id
      ensures Owed(s, id) ==> Owed(s', id)
    {
      if Owed(s, id) {
        var p :| Owes(s, p, id);
        assert Owes(s', p, id);
      }
    }
    HarmlessKeepsCover(s, s');
  }

  lemma MarkRowKeepsCover(env: Env, s: Sys, p: UploadId)
    requires env.chunking.cfg.Valid() && Covered(s) && WorkerOk(s) && Enabled(env, s, MarkRow(p))
    ensures Covered(After(env, s, MarkRow(p))) && WorkerOk(After(env, s, MarkRow(p)))
  {
    var s' := After(env, s, MarkRow(p));
    forall id
      ensures Owed(s, id) ==> Owed(s', id)
    {
      if Owed(s, id) {
        var q :| Owes(s, q, id);
        assert Owes(s', q, id);
      }
    }
    assert RowCommits(s, p) ==> Owes(s', p, s.uploaders[p].id);
    HarmlessKeepsCover(s, s');
  }

  lemma RetainClears(w: VM.World, id: Hash, k: Hash)
    ensures var ms' := RetainIn(w, id).s.manifests;
            && ms'.Keys == w.s.manifests.Keys
            && (k in ms' && ms'[k].retired ==> ms'[k] == w.s.manifests[k])
            && (id in ms' && ValidManifest(w.s.manifests[id]) ==> !ms'[id].retired)
  {
  }

  lemma RetainOwnKeepsCover(env: Env, s: Sys, p: UploadId)
    requires env.chunking.cfg.Valid() && Covered(s) && WorkerOk(s) && Enabled(env, s, RetainOwn(p))
    requires AllValid(s.world.s.manifests)
    ensures Covered(After(env, s, RetainOwn(p))) && WorkerOk(After(env, s, RetainOwn(p)))
  {
    var s' := After(env, s, RetainOwn(p));
    var mine := s.uploaders[p].id;
    forall id
      ensures IsRetired(s', id) ==> IsRetired(s, id) && id != mine
      ensures Owed(s, id) && IsRetired(s', id) ==> Owed(s', id)
    {
      RetainClears(s.world, mine, id);
      if Owed(s, id) && id != mine {
        var q :| Owes(s, q, id);
        assert Owes(s', q, id);
      }
    }
    HarmlessKeepsCover(s, s');
  }

  lemma RowStepKeepsCover(env: Env, s: Sys, a: Step)
    requires env.chunking.cfg.Valid() && Covered(s) && WorkerOk(s) && Enabled(env, s, a)
    requires a.Trash? || a.Expire? || a.Tick? || a.WorkerDies?
    ensures Covered(After(env, s, a)) && WorkerOk(After(env, s, a))
  {
    var s' := After(env, s, a);
    assert forall id :: Owed(s, id) <==> Owed(s', id) by {
      assert forall p, id :: Owes(s, p, id) <==> Owes(s', p, id);
    }
    forall id
      ensures HasReferences(s'.db.rows, id) ==> HasReferences(s.db.rows, id)
    {
      if HasReferences(s'.db.rows, id) {
        var r :| r in s'.db.rows && Refers(s'.db.rows[r], id);
        assert Refers(s.db.rows[r], id);
      }
    }
    if !a.WorkerDies? {
      HarmlessKeepsCover(s, s');
    }
  }

  lemma DeleteKeepsCover(env: Env, s: Sys, gone: set<RowId>, db': Db)
    requires env.chunking.cfg.Valid() && Covered(s) && WorkerOk(s) && Enabled(env, s, DeleteRows(gone, db'))
    ensures Covered(After(env, s, DeleteRows(gone, db'))) && WorkerOk(After(env, s, DeleteRows(gone, db')))
  {
    var s' := After(env, s, DeleteRows(gone, db'));
    assert forall p, id :: Owes(s, p, id) <==> Owes(s', p, id);
    forall id
      ensures HasReferences(s'.db.rows, id) ==> HasReferences(s.db.rows, id)
    {
      if HasReferences(s'.db.rows, id) {
        var r :| r in s'.db.rows && Refers(s'.db.rows[r], id);
        assert Refers(s.db.rows[r], id);
      }
    }
    HarmlessKeepsCover(s, s');
  }

  lemma WorkerLooksKeepsCover(env: Env, s: Sys, a: Step)
    requires env.chunking.cfg.Valid() && Covered(s) && WorkerOk(s) && Enabled(env, s, a)
    requires a.Claim? || a.Check? || a.Recheck?
    ensures Covered(After(env, s, a)) && WorkerOk(After(env, s, a))
  {
    var s' := After(env, s, a);
    assert forall p, id :: Owes(s, p, id) <==> Owes(s', p, id);
    if a.Claim? {
      assert a.items != [] ==> [a.items[0]] + a.items[1..] == a.items;
    }
  }

  lemma WorkerRetainKeepsCover(env: Env, s: Sys)
    requires env.chunking.cfg.Valid() && Covered(s) && WorkerOk(s) && Enabled(env, s, WorkerRetain)
    requires AllValid(s.world.s.manifests)
    ensures Covered(After(env, s, WorkerRetain)) && WorkerOk(After(env, s, WorkerRetain))
  {
    var s' := After(env, s, WorkerRetain);
    var item := s.worker.item;
    assert forall p, id :: Owes(s, p, id) <==> Owes(s', p, id);
    forall id
      ensures IsRetired(s', id) ==> IsRetired(s, id) && id != item
    {
      RetainClears(s.world, item, id);
    }
  }

  lemma WorkerRetireKeepsCover(env: Env, s: Sys)
    requires env.chunking.cfg.Valid() && Covered(s) && WorkerOk(s) && Enabled(env, s, WorkerRetire)
    ensures Covered(After(env, s, WorkerRetire)) && WorkerOk(After(env, s, WorkerRetire))
  {
    var s' := After(env, s, WorkerRetire);
    assert forall p, id :: Owes(s, p, id) <==> Owes(s', p, id);
    assert IsQueued(s.db, ([s.worker.item] + s.worker.rest)[0]);
  }

  lemma ItemOverKeepsCover(env: Env, s: Sys, a: Step)
    requires env.chunking.cfg.Valid() && Covered(s) && WorkerOk(s) && Enabled(env, s, a)
    requires a.Finish? || a.ItemFails?
    ensures Covered(After(env, s, a)) && WorkerOk(After(env, s, a))
  {
    var s' := After(env, s, a);
    var item, rest, all := s.worker.item, s.worker.rest, [s.worker.item] + s.worker.rest;
    assert forall p, id :: Owes(s, p, id) <==> Owes(s', p, id);
    forall i | 0 <= i < |rest|
      ensures rest[i] != item && IsQueued(s'.db, rest[i])
    {
      assert all[0] == item && all[i + 1] == rest[i] && all[0] != all[i + 1];
    }
    forall i, j | 0 <= i < j < |rest|
      ensures rest[i] != rest[j]
    {
      assert all[i + 1] != all[j + 1];
    }
    assert rest != [] ==> [rest[0]] + rest[1..] == rest;
  }

  lemma StepKeepsCover(env: Env, s: Sys, a: Step)
    requires env.chunking.cfg.Valid() && Covered(s) && WorkerOk(s) && Enabled(env, s, a)
    requires AllValid(s.world.s.manifests)
    ensures Covered(After(env, s, a)) && WorkerOk(After(env, s, a))
  {
    if a.VaultStep? || a.Collect? {
      VaultStepKeepsCover(env, s, a);
    } else if a.Claim? || a.Check? || a.Recheck? {
      WorkerLooksKeepsCover(env, s, a);
    } else if a.Finish? || a.ItemFails? {
      ItemOverKeepsCover(env, s, a);
    } else if a.StartUpload? || a.VaultAnswers? || a.UploadFails? || a.RequeueRow? {
      UploaderStepKeepsCover(env, s, a);
    } else if a.Trash? || a.Expire? || a.Tick? || a.WorkerDies? {
      RowStepKeepsCover(env, s, a);
    } else if a.MarkRow? {
      MarkRowKeepsCover(env, s, a.p);
    } else if a.RetainOwn? {
      RetainOwnKeepsCover(env, s, a.p);
    } else if a.DeleteRows? {
      DeleteKeepsCover(env, s, a.gone, a.db');
    } else if a.WorkerRetain? {
      WorkerRetainKeepsCover(env, s);
    } else {
      WorkerRetireKeepsCover(env, s);
    }
  }

  lemma VaultStepKeepsValid(env: Env, w: VM.World, a: VM.Step)
    requires env.chunking.cfg.Valid() && AllValid(w.s.manifests) && VM.Enabled(w, a) && !a.Retire? && !a.Retain?
    ensures AllValid(VM.Apply(env, w, a).s.manifests)
  {
    if a.CommitUpload? {
      var up := w.uploads[a.u];
      VM.CommitCases(w.s, VM.NewManifest(env, up.content, up.touched, a.now));
    }
  }

  lemma LifecycleKeepsValid(w: VM.World, id: Hash, now: Time)
    requires AllValid(w.s.manifests) && now > 0
    ensures AllValid(RetainIn(w, id).s.manifests) && AllValid(RetireIn(w, id, now).s.manifests)
  {
  }

  lemma StepKeepsValid(env: Env, s: Sys, a: Step)
    requires env.chunking.cfg.Valid() && AllValid(s.world.s.manifests) && s.clock > 0 && Enabled(env, s, a)
    ensures AllValid(After(env, s, a).world.s.manifests)
  {
    match a
    case VaultAnswers(p) => VaultStepKeepsValid(env, s.world, VM.End(p));
    case RetainOwn(p) => LifecycleKeepsValid(s.world, s.uploaders[p].id, s.clock);
    case WorkerRetain => LifecycleKeepsValid(s.world, s.worker.item, s.clock);
    case WorkerRetire => LifecycleKeepsValid(s.world, s.worker.item, s.clock);
    case VaultStep(a) => VaultStepKeepsValid(env, s.world, a);
    case Collect(d) => VaultStepKeepsValid(env, s.world, VM.SweepUp(s.clock - GRACE, d));
    case _ =>
  }

  ghost predicate Run(env: Env, s: Sys, steps: seq<Step>, s': Sys)
    requires env.chunking.cfg.Valid()
    decreases |steps|
  {
    if steps == [] then s' == s
    else Enabled(env, s, steps[0]) && Run(env, After(env, s, steps[0]), steps[1..], s')
  }

  lemma {:induction false} RunKeepsCover(env: Env, s: Sys, steps: seq<Step>, s': Sys)
    requires env.chunking.cfg.Valid() && Run(env, s, steps, s')
    requires Covered(s) && WorkerOk(s) && AllValid(s.world.s.manifests) && s.clock > 0
    ensures Covered(s') && WorkerOk(s')
    decreases |steps|
  {
    if steps != [] {
      StepKeepsCover(env, s, steps[0]);
      StepKeepsValid(env, s, steps[0]);
      RunKeepsCover(env, After(env, s, steps[0]), steps[1..], s');
    }
  }

  /**
   * In every interleaving of uploads, deletes, sweeps and one worker that may fail or die at
   * any point: a retired manifest with a committed row has a queued request, or an uploader
   * that still has its Retain to do.
   */
  lemma RetiredReferencesAreCovered(env: Env, clock: Time, steps: seq<Step>, s: Sys, id: Hash)
    requires env.chunking.cfg.Valid() && clock > 0 && Run(env, InitialSys(clock), steps, s)
    requires HasReferences(s.db.rows, id) && IsRetired(s, id)
    ensures IsQueued(s.db, id) || Owed(s, id)
  {
    RunKeepsCover(env, InitialSys(clock), steps, s);
  }

  // ---------------------------------------------------------------- wanted manifests stay within reach

  ghost predicate WithinReach(w: VM.World, id: Hash) {
    id in w.s.manifests && VM.Kept(w.s.manifests[id], w.horizon)
  }

  ghost predicate WantedKept(env: Env, s: Sys) {
    forall id | Wanted(env, s, id) :: WithinReach(s.world, id)
  }

  ghost predicate Inv(env: Env, s: Sys)
    requires env.chunking.cfg.Valid()
  {
    && VM.Inv(env, s.world)
    && Covered(s) && WorkerOk(s)
    && WantedKept(env, s)
    && 0 < s.clock && s.world.horizon <= s.clock
  }

  /** The upload behind p has just committed id in the Vault. */
  ghost predicate CommitsNow(env: Env, s: Sys, a: Step, id: Hash)
    requires env.chunking.cfg.Valid() && Enabled(env, s, a)
  {
    a.VaultStep? && a.a.CommitUpload?
    && var w' := VM.Apply(env, s.world, a.a);
       w'.uploads[a.a.u].stage == VM.Committed && env.hash(s.world.uploads[a.a.u].content) == id
  }

  lemma ReferencesComeFromUploads(env: Env, s: Sys, a: Step, id: Hash)
    requires env.chunking.cfg.Valid() && Enabled(env, s, a) && HasReferences(After(env, s, a).db.rows, id)
    ensures Wanted(env, s, id)
  {
    var s' := After(env, s, a);
    var r :| r in s'.db.rows && Refers(s'.db.rows[r], id);
    if a.MarkRow? && RowCommits(s, a.p) && r == s.uploaders[a.p].row {
      assert UploaderHolds(env, s, a.p, id);
    } else {
      assert r in s.db.rows && Refers(s.db.rows[r], id);
    }
  }

  lemma HoldersComeFromCommits(env: Env, s: Sys, a: Step, p: UploadId, id: Hash)
    requires env.chunking.cfg.Valid() && Enabled(env, s, a) && UploaderHolds(env, After(env, s, a), p, id)
    ensures UploaderHolds(env, s, p, id) || CommitsNow(env, s, a, id)
  {
  }

  lemma WantedComesFromCommits(env: Env, s: Sys, a: Step, id: Hash)
    requires env.chunking.cfg.Valid() && Enabled(env, s, a) && Wanted(env, After(env, s, a), id)
    ensures Wanted(env, s, id) || CommitsNow(env, s, a, id)
  {
    var s' := After(env, s, a);
    if HasReferences(s'.db.rows, id) {
      ReferencesComeFromUploads(env, s, a, id);
    } else if exists p :: UploaderHolds(env, s', p, id) {
      var p :| UploaderHolds(env, s', p, id);
      HoldersComeFromCommits(env, s, a, p, id);
    }
  }

  lemma VaultStepKeepsReach(env: Env, w: VM.World, a: VM.Step, id: Hash)
    requires env.chunking.cfg.Valid() && VM.Enabled(w, a) && WithinReach(w, id)
    requires !a.Retire? && (a.SweepUp? && w.s.manifests[id].retired ==> VM.Kept(w.s.manifests[id], a.cutoff))
    ensures WithinReach(VM.Apply(env, w, a), id)
  {
    VaultStepRetiresNothing(env, w, a, id);
  }

  lemma CommitReaches(env: Env, w: VM.World, u: UploadId, now: Time)
    requires env.chunking.cfg.Valid() && VM.Enabled(w, VM.CommitUpload(u, now))
    ensures var w' := VM.Apply(env, w, VM.CommitUpload(u, now));
            w'.uploads[u].stage == VM.Committed ==> WithinReach(w', env.hash(w.uploads[u].content))
  {
    VM.CommitCases(w.s, VM.NewManifest(env, w.uploads[u].content, w.uploads[u].touched, now));
  }

  /** Coverage is what turns a wanted manifest into an attended one. */
  lemma RetiredWantedIsAttended(env: Env, s: Sys, id: Hash)
    requires Covered(s) && Wanted(env, s, id) && IsRetired(s, id)
    ensures Attended(env, s, id)
  {
  }

  /** A manifest within reach stays so, whoever acts, as long as sweeps respect its retirement. */
  lemma ReachIsKept(env: Env, s: Sys, a: Step, id: Hash)
    requires env.chunking.cfg.Valid() && Enabled(env, s, a) && WithinReach(s.world, id)
    requires 0 < s.clock && s.world.horizon <= s.clock
    requires a.Collect? && IsRetired(s, id) ==> VM.Kept(s.world.s.manifests[id], s.clock - GRACE)
    ensures WithinReach(After(env, s, a).world, id)
  {
    match a
    case VaultStep(v) => VaultStepKeepsReach(env, s.world, v, id);
    case Collect(d) => VaultStepKeepsReach(env, s.world, VM.SweepUp(s.clock - GRACE, d), id);
    case VaultAnswers(p) => VaultStepKeepsReach(env, s.world, VM.End(p), id);
    case RetainOwn(p) => RetainClears(s.world, s.uploaders[p].id, id);
    case WorkerRetain => RetainClears(s.world, s.worker.item, id);
    case WorkerRetire => RetireKeepsReach(s.world, s.worker.item, s.clock, id);
    case _ =>
  }

  lemma RetireKeepsReach(w: VM.World, id: Hash, now: Time, k: Hash)
    requires WithinReach(w, k) && w.horizon <= now
    ensures WithinReach(RetireIn(w, id, now), k)
  {
  }

  lemma StepKeepsReach(env: Env, s: Sys, a: Step, id: Hash)
    requires env.chunking.cfg.Valid() && Inv(env, s) && Enabled(env, s, a) && InTime(env, s, a)
    requires Wanted(env, After(env, s, a), id)
    ensures WithinReach(After(env, s, a).world, id)
  {
    WantedComesFromCommits(env, s, a, id);
    if CommitsNow(env, s, a, id) {
      CommitReaches(env, s.world, a.a.u, a.a.now);
    } else {
      if IsRetired(s, id) {
        RetiredWantedIsAttended(env, s, id);
      }
      ReachIsKept(env, s, a, id);
    }
  }

  /** Every Retain the application issues comes within the grace: the Vault's own hypothesis. */
  lemma RetainsComeInTime(env: Env, s: Sys)
    requires env.chunking.cfg.Valid() && Inv(env, s)
    ensures forall p | p in s.uploaders && !s.uploaders[p].Streaming? :: VM.InGrace(s.world, s.uploaders[p].id)
    ensures Enabled(env, s, WorkerRetain) ==> VM.InGrace(s.world, s.worker.item)
  {
    forall p | p in s.uploaders && !s.uploaders[p].Streaming?
      ensures VM.InGrace(s.world, s.uploaders[p].id)
    {
      assert UploaderHolds(env, s, p, s.uploaders[p].id);
      assert WithinReach(s.world, s.uploaders[p].id);
    }
    if Enabled(env, s, WorkerRetain) {
      assert WithinReach(s.world, s.worker.item);
    }
  }

  lemma LifecycleCallsAreVaultSteps(env: Env, w: VM.World, id: Hash, now: Time)
    requires env.chunking.cfg.Valid() && VM.Inv(env, w) && now > 0
    ensures VM.InGrace(w, id) ==> VM.Inv(env, RetainIn(w, id))
    ensures VM.Inv(env, RetireIn(w, id, now))
  {
    if VM.InGrace(w, id) {
      VM.LifecycleKeepsInv(env, w, VM.Retain(id));
      assert VM.Apply(env, w, VM.Retain(id)) == RetainIn(w, id);
    }
    VM.LifecycleKeepsInv(env, w, VM.Retire(id, now));
    assert VM.Apply(env, w, VM.Retire(id, now)) == RetireIn(w, id, now);
  }

  /** The Retains that step a would make come in time. */
  ghost predicate RetainsInGrace(s: Sys, a: Step) {
    && (a.RetainOwn? && a.p in s.uploaders && !s.uploaders[a.p].Streaming? ==> VM.InGrace(s.world, s.uploaders[a.p].id))
    && (a.WorkerRetain? && s.worker.Busy? ==> VM.InGrace(s.world, s.worker.item))
  }

  lemma StepKeepsVault(env: Env, s: Sys, a: Step)
    requires Sound(env) && VM.Inv(env, s.world) && s.clock > 0 && Enabled(env, s, a) && RetainsInGrace(s, a)
    ensures VM.Inv(env, After(env, s, a).world)
  {
    if a.VaultStep? {
      VM.StepKeepsInv(env, s.world, a.a);
    } else if a.Collect? {
      VM.StepKeepsInv(env, s.world, VM.SweepUp(s.clock - GRACE, a.d));
    } else if a.VaultAnswers? {
      VM.StepKeepsInv(env, s.world, VM.End(a.p));
    } else if a.RetainOwn? {
      LifecycleCallsAreVaultSteps(env, s.world, s.uploaders[a.p].id, s.clock);
    } else if a.WorkerRetain? || a.WorkerRetire? {
      LifecycleCallsAreVaultSteps(env, s.world, s.worker.item, s.clock);
    }
  }

  lemma StepKeepsClock(env: Env, s: Sys, a: Step)
    requires env.chunking.cfg.Valid() && Enabled(env, s, a) && 0 < s.clock && s.world.horizon <= s.clock
    ensures var s' := After(env, s, a); 0 < s'.clock && s'.world.horizon <= s'.clock
  {
  }

  lemma StepKeepsWanted(env: Env, s: Sys, a: Step)
    requires env.chunking.cfg.Valid() && Inv(env, s) && Enabled(env, s, a) && InTime(env, s, a)
    ensures WantedKept(env, After(env, s, a))
  {
    var s' := After(env, s, a);
    forall id | Wanted(env, s', id)
      ensures WithinReach(s'.world, id)
    {
      StepKeepsReach(env, s, a, id);
    }
  }

  lemma StepKeepsInv(env: Env, s: Sys, a: Step)
    requires Sound(env) && Inv(env, s) && Enabled(env, s, a) && InTime(env, s, a)
    ensures Inv(env, After(env, s, a))
  {
    RetainsComeInTime(env, s);
    StepKeepsVault(env, s, a);
    forall id | id in s.world.s.manifests ensures ValidManifest(s.world.s.manifests[id]) {
      assert VM.ManifestOk(env, id, s.world.s.manifests[id], s.world.contents);
    }
    StepKeepsCover(env, s, a);
    StepKeepsWanted(env, s, a);
    StepKeepsClock(env, s, a);
  }

  lemma CollectLosesNoWant(env: Env, s: Sys, d: Deletion, id: Hash)
    requires env.chunking.cfg.Valid() && Enabled(env, s, Collect(d)) && Wanted(env, s, id)
    ensures Wanted(env, After(env, s, Collect(d)), id)
  {
    if p :| UploaderHolds(env, s, p, id) {
      assert UploaderHolds(env, After(env, s, Collect(d)), p, id);
    }
  }

  lemma HorizonReachesCutoff(env: Env, s: Sys, d: Deletion, id: Hash)
    requires env.chunking.cfg.Valid() && Enabled(env, s, Collect(d)) && id in s.world.s.manifests
    requires WithinReach(After(env, s, Collect(d)).world, id)
    ensures VM.Kept(s.world.s.manifests[id], s.clock - GRACE)
  {
  }

  /** A sweep that leaves every wanted manifest within reach came while every window was short. */
  lemma CollectWasInTime(env: Env, s: Sys, d: Deletion)
    requires env.chunking.cfg.Valid() && Enabled(env, s, Collect(d)) && WantedKept(env, After(env, s, Collect(d)))
    ensures InTime(env, s, Collect(d))
  {
    forall id | id in s.world.s.manifests && Attended(env, s, id) && s.world.s.manifests[id].retired
      ensures VM.Kept(s.world.s.manifests[id], s.clock - GRACE)
    {
      hide Enabled, VM.Kept, UploaderHolds, WithinReach;
      CollectLosesNoWant(env, s, d, id);
      HorizonReachesCutoff(env, s, d, id);
    }
  }

  /** The timing hypothesis is exact: any step keeps the invariant if and only if it is in time. */
  lemma StepKeepsInvExactly(env: Env, s: Sys, a: Step)
    requires Sound(env) && Inv(env, s) && Enabled(env, s, a)
    ensures Inv(env, After(env, s, a)) <==> InTime(env, s, a)
  {
    if InTime(env, s, a) {
      StepKeepsInv(env, s, a);
    }
    if a.Collect? && Inv(env, After(env, s, a)) {
      CollectWasInTime(env, s, a.d);
    }
  }

  ghost predicate SoundThroughout(env: Env, s: Sys, steps: seq<Step>)
    requires env.chunking.cfg.Valid()
    decreases |steps|
  {
    Inv(env, s) &&
      (steps != [] ==> Enabled(env, s, steps[0]) && SoundThroughout(env, After(env, s, steps[0]), steps[1..]))
  }

  /** A run from a sound state keeps every state sound exactly when no sweep of it came too late. */
  lemma {:induction false} SoundExactlyWhenTimely(env: Env, s: Sys, steps: seq<Step>, s': Sys)
    requires Sound(env) && Inv(env, s) && Run(env, s, steps, s')
    ensures SoundThroughout(env, s, steps) <==> TimelyRun(env, s, steps, s')
    decreases |steps|
  {
    if steps != [] {
      StepKeepsInvExactly(env, s, steps[0]);
      if InTime(env, s, steps[0]) {
        SoundExactlyWhenTimely(env, After(env, s, steps[0]), steps[1..], s');
      }
    }
  }

  /** A run in which no sweep comes later than the grace allows. */
  ghost predicate TimelyRun(env: Env, s: Sys, steps: seq<Step>, s': Sys)
    requires env.chunking.cfg.Valid()
    decreases |steps|
  {
    if steps == [] then s' == s
    else
      && Enabled(env, s, steps[0]) && InTime(env, s, steps[0])
      && TimelyRun(env, After(env, s, steps[0]), steps[1..], s')
  }

  lemma {:induction false} TimelyRunKeepsInv(env: Env, s: Sys, steps: seq<Step>, s': Sys)
    requires Sound(env) && Inv(env, s) && TimelyRun(env, s, steps, s')
    ensures Inv(env, s')
    decreases |steps|
  {
    if steps != [] {
      StepKeepsInv(env, s, steps[0]);
      TimelyRunKeepsInv(env, After(env, s, steps[0]), steps[1..], s');
    }
  }

  /**
   * The two stores composed: while every request, uploader and worker gets to the retired
   * manifest on its list within the grace, no committed row ever loses a chunk; that no
   * committed row is off every list is the coverage theorem's part. The row's object opens,
   * verified, to the content the manifest was committed for, in every reachable state.
   */
  lemma CommittedFilesKeepTheirBytes(env: Env, clock: Time, steps: seq<Step>, s: Sys, id: Hash)
    requires Sound(env) && clock > 0 && TimelyRun(env, InitialSys(clock), steps, s)
    requires HasReferences(s.db.rows, id)
    ensures id in s.world.s.manifests && id in s.world.contents && env.hash(s.world.contents[id]) == id
    ensures var m, files := s.world.s.manifests[id], s.world.s.files;
            && Present(files, m) && Intact(env, files, m)
            && Assemble(files, m.chunkHashes) == s.world.contents[id]
  {
    TimelyRunKeepsInv(env, InitialSys(clock), steps, s);
    assert Wanted(env, s, id);
    ReachedBytes(env, s.world, id);
  }

  /** What is within reach of a sound Vault reads back as what was uploaded. */
  lemma ReachedBytes(env: Env, w: VM.World, id: Hash)
    requires Sound(env) && VM.Inv(env, w) && WithinReach(w, id)
    ensures id in w.contents && env.hash(w.contents[id]) == id
    ensures Present(w.s.files, w.s.manifests[id]) && Intact(env, w.s.files, w.s.manifests[id])
    ensures Assemble(w.s.files, w.s.manifests[id].chunkHashes) == w.contents[id]
  {
    assert VM.ManifestOk(env, id, w.s.manifests[id], w.contents);
    assert VM.Within(w.s.manifests[id].chunkHashes, VM.Stored(w.s));
    StoredContentComesBack(env, w.s.files, w.s.manifests[id], w.contents[id]);
  }
}
