/**
 * The other side of coverage: an active manifest no committed row refers to should be on
 * somebody's way to be retired or referenced. Exactly which steps leave one behind.
 */
module Tended {
  import opened Vault
  import VM = VaultMachine
  import opened Metadata
  import opened Retirement
  import W = Workers
  import RR = RetirementRuns

  /** Active in the Vault, and no committed row refers to it. */
  ghost predicate Bare(s: Sys, id: Hash) {
    id in s.world.s.manifests && !s.world.s.manifests[id].retired && !HasReferences(s.db.rows, id)
  }

  /** The Vault has committed id for p, and p has not yet tried to commit its row. */
  ghost predicate OnItsWay(env: Env, s: Sys, p: UploadId, id: Hash) {
    UploaderHolds(env, s, p, id) && (s.uploaders[p].Streaming? || s.uploaders[p].Uploaded?)
  }

  ghost predicate Held(env: Env, s: Sys, id: Hash) {
    exists p :: OnItsWay(env, s, p, id)
  }

  ghost predicate HeldByOther(env: Env, s: Sys, p: UploadId, id: Hash) {
    exists q :: q != p && OnItsWay(env, s, q, id)
  }

  /** Every bare manifest has a request waiting, or an uploader on its way to commit a row for it. */
  ghost predicate AllTended(env: Env, s: Sys) {
    forall id | Bare(s, id) :: IsQueued(s.db, id) || Held(env, s, id)
  }

  /** What p holds can do without p. */
  ghost predicate MayLetGo(env: Env, s: Sys, p: UploadId) {
    forall id | OnItsWay(env, s, p, id) && Bare(s, id) :: IsQueued(s.db, id) || HeldByOther(env, s, p, id)
  }

  /** Making id active strands it unless it is in use or somebody else sees to it. */
  ghost predicate MayRetain(env: Env, s: Sys, id: Hash) {
    id in s.world.s.manifests ==> HasReferences(s.db.rows, id) || IsQueued(s.db, id) || Held(env, s, id)
  }

  /** The manifest the commit of u makes active. */
  ghost predicate MayCommit(env: Env, s: Sys, u: UploadId, now: Time)
    requires env.chunking.cfg.Valid() && VM.Enabled(s.world, VM.CommitUpload(u, now))
  {
    VM.Apply(env, s.world, VM.CommitUpload(u, now)).uploads[u].stage == VM.Committed ==>
      var id := env.hash(s.world.uploads[u].content);
      HasReferences(s.db.rows, id) || IsQueued(s.db, id) || (u in s.uploaders && s.uploaders[u].Streaming?) || Held(env, s, id)
  }

  predicate Awaits(s: Sys, p: UploadId) {
    p in s.uploaders && s.uploaders[p].Streaming?
  }

  /** The Vault forgets every upload: whoever still waits for its answer holds nothing any more. */
  ghost predicate MayCrash(env: Env, s: Sys) {
    forall p, id | OnItsWay(env, s, p, id) && Awaits(s, p) && Bare(s, id) ::
      IsQueued(s.db, id) || exists q :: OnItsWay(env, s, q, id) && !Awaits(s, q)
  }

  ghost predicate Careful(env: Env, s: Sys, a: Step)
    requires env.chunking.cfg.Valid() && Enabled(env, s, a)
  {
    match a
    case UploadFails(p) => MayLetGo(env, s, p)
    case MarkRow(p) => !RowCommits(s, p) ==> MayLetGo(env, s, p)
    case RetainOwn(p) => MayRetain(env, s, s.uploaders[p].id)
    case WorkerRetain => MayRetain(env, s, s.worker.item)
    case Finish => Bare(s, s.worker.item) ==> Held(env, s, s.worker.item)
    case VaultStep(CommitUpload(u, now)) => MayCommit(env, s, u, now)
    case VaultStep(End(u)) => Awaits(s, u) ==> MayLetGo(env, s, u)
    case VaultStep(Crash) => MayCrash(env, s)
    case _ => true
  }

  // ---------------------------------------------------------------- steps that leave nothing behind

  /** s' has no new bare manifest, every request s had, and every holder whose manifest still needs one. */
  ghost predicate Gentle(env: Env, s: Sys, s': Sys) {
    && (forall id :: Bare(s', id) ==> Bare(s, id) || IsQueued(s'.db, id) || Held(env, s', id))
    && (forall id :: IsQueued(s.db, id) ==> IsQueued(s'.db, id))
    && (forall p, id :: OnItsWay(env, s, p, id) && Bare(s', id) ==> OnItsWay(env, s', p, id))
  }

  lemma GentleKeepsTended(env: Env, s: Sys, s': Sys)
    requires AllTended(env, s) && Gentle(env, s, s')
    ensures AllTended(env, s')
  {
    forall id | Bare(s', id) ensures IsQueued(s'.db, id) || Held(env, s', id) {
      if Bare(s, id) && Held(env, s, id) {
        var p :| OnItsWay(env, s, p, id);
        assert OnItsWay(env, s', p, id);
      }
    }
  }

  lemma ReferencesStay(rows: map<RowId, Row>, rows': map<RowId, Row>, id: Hash)
    requires forall r | r in rows && Refers(rows[r], id) :: r in rows' && Refers(rows'[r], id)
    ensures HasReferences(rows, id) ==> HasReferences(rows', id)
  {
  }

  lemma RowStepIsGentle(env: Env, s: Sys, a: Step)
    requires env.chunking.cfg.Valid() && Enabled(env, s, a)
    requires a.StartUpload? || a.Trash? || a.Expire? || a.RequeueRow? || a.Claim? || a.Check? || a.Recheck? || a.ItemFails?
             || a.WorkerDies? || a.Tick?
    ensures Gentle(env, s, After(env, s, a))
  {
    var s' := After(env, s, a);
    forall id ensures HasReferences(s.db.rows, id) ==> HasReferences(s'.db.rows, id) {
      ReferencesStay(s.db.rows, s'.db.rows, id);
    }
  }

  lemma DeleteIsGentle(env: Env, s: Sys, gone: set<RowId>, db': Db)
    requires env.chunking.cfg.Valid() && Enabled(env, s, DeleteRows(gone, db'))
    ensures Gentle(env, s, After(env, s, DeleteRows(gone, db')))
  {
    var s' := After(env, s, DeleteRows(gone, db'));
    assert forall r | r in s.db.rows && r !in gone :: r in s'.db.rows && s'.db.rows[r] == s.db.rows[r];
    forall id | Bare(s', id) ensures Bare(s, id) || IsQueued(s'.db, id) {
      if HasReferences(s.db.rows, id) {
        var r :| r in s.db.rows && Refers(s.db.rows[r], id);
        assert LosesLastReference(s.db.rows, gone, id);
      }
    }
    assert forall p, id :: OnItsWay(env, s, p, id) ==> OnItsWay(env, s', p, id);
  }

  lemma AnswerIsGentle(env: Env, s: Sys, p: UploadId)
    requires env.chunking.cfg.Valid() && Enabled(env, s, VaultAnswers(p))
    ensures Gentle(env, s, After(env, s, VaultAnswers(p)))
  {
  }

  lemma MarkIsGentle(env: Env, s: Sys, p: UploadId)
    requires env.chunking.cfg.Valid() && Enabled(env, s, MarkRow(p)) && RowCommits(s, p)
    ensures Gentle(env, s, After(env, s, MarkRow(p)))
  {
    var s', up := After(env, s, MarkRow(p)), s.uploaders[p];
    assert Refers(s'.db.rows[up.row], up.id);
    forall id ensures HasReferences(s.db.rows, id) ==> HasReferences(s'.db.rows, id) {
      ReferencesStay(s.db.rows, s'.db.rows, id);
    }
  }

  lemma RetireIsGentle(env: Env, s: Sys)
    requires env.chunking.cfg.Valid() && Enabled(env, s, WorkerRetire)
    ensures Gentle(env, s, After(env, s, WorkerRetire))
  {
  }

  lemma CollectIsGentle(env: Env, s: Sys, d: Deletion)
    requires env.chunking.cfg.Valid() && Enabled(env, s, Collect(d))
    ensures Gentle(env, s, After(env, s, Collect(d)))
  {
  }

  lemma TouchIsGentle(env: Env, s: Sys, a: VM.Step)
    requires env.chunking.cfg.Valid() && Enabled(env, s, VaultStep(a)) && !a.CommitUpload? && !a.End? && !a.Crash?
    ensures Gentle(env, s, After(env, s, VaultStep(a)))
  {
  }

  // ---------------------------------------------------------------- steps that can leave one behind

  /** s' is s without p's hold and with nothing else that matters changed. */
  ghost predicate LetsGo(env: Env, s: Sys, s': Sys, p: UploadId) {
    && (forall id :: Bare(s', id) <==> Bare(s, id))
    && (forall id :: IsQueued(s'.db, id) <==> IsQueued(s.db, id))
    && (forall q, id :: OnItsWay(env, s', q, id) <==> OnItsWay(env, s, q, id) && q != p)
  }

  lemma LettingGoExactly(env: Env, s: Sys, s': Sys, p: UploadId)
    requires AllTended(env, s) && LetsGo(env, s, s', p)
    ensures AllTended(env, s') <==> MayLetGo(env, s, p)
  {
    forall id ensures Held(env, s', id) <==> HeldByOther(env, s, p, id) {
      if q :| q != p && OnItsWay(env, s, q, id) {
        assert OnItsWay(env, s', q, id);
      }
      if q :| OnItsWay(env, s', q, id) {
        assert q != p && OnItsWay(env, s, q, id);
      }
    }
    forall id | Held(env, s, id) && !HeldByOther(env, s, p, id) ensures OnItsWay(env, s, p, id) {
      var q :| OnItsWay(env, s, q, id);
      assert q == p;
    }
  }

  lemma FailureLetsGo(env: Env, s: Sys, p: UploadId)
    requires env.chunking.cfg.Valid() && Enabled(env, s, UploadFails(p))
    ensures LetsGo(env, s, After(env, s, UploadFails(p)), p)
  {
    var s' := After(env, s, UploadFails(p));
    forall id ensures HasReferences(s.db.rows, id) <==> HasReferences(s'.db.rows, id) {
      ReferencesStay(s.db.rows, s'.db.rows, id);
      ReferencesStay(s'.db.rows, s.db.rows, id);
    }
  }

  lemma EndLetsGo(env: Env, s: Sys, u: UploadId)
    requires env.chunking.cfg.Valid() && Enabled(env, s, VaultStep(VM.End(u)))
    ensures Awaits(s, u) ==> LetsGo(env, s, After(env, s, VaultStep(VM.End(u))), u)
    ensures !Awaits(s, u) ==> Gentle(env, s, After(env, s, VaultStep(VM.End(u))))
  {
  }

  lemma CrashExactly(env: Env, s: Sys)
    requires env.chunking.cfg.Valid() && AllTended(env, s)
    ensures AllTended(env, After(env, s, VaultStep(VM.Crash))) <==> MayCrash(env, s)
  {
    var s' := After(env, s, VaultStep(VM.Crash));
    assert forall q, id :: OnItsWay(env, s', q, id) <==> OnItsWay(env, s, q, id) && !Awaits(s, q);
    forall id ensures Held(env, s', id) <==> exists q :: OnItsWay(env, s, q, id) && !Awaits(s, q) {
      if q :| OnItsWay(env, s, q, id) && !Awaits(s, q) {
        assert OnItsWay(env, s', q, id);
      }
    }
    if MayCrash(env, s) {
      forall id | Bare(s', id) ensures IsQueued(s'.db, id) || Held(env, s', id) {
        assert Bare(s, id);
        if Held(env, s, id) {
          var p :| OnItsWay(env, s, p, id);
          assert !Awaits(s, p) ==> OnItsWay(env, s', p, id);
        }
      }
    } else {
      var p, id :| OnItsWay(env, s, p, id) && Awaits(s, p) && Bare(s, id)
                   && !(IsQueued(s.db, id) || exists q :: OnItsWay(env, s, q, id) && !Awaits(s, q));
      assert Bare(s', id);
    }
  }

  /** Whoever calls: the manifest becomes active and nothing else changes. */
  lemma RetainTendsExactly(env: Env, s: Sys, s': Sys, item: Hash)
    requires AllTended(env, s) && AllValid(s.world.s.manifests)
    requires s'.world == RetainIn(s.world, item) && s'.db == s.db
    requires forall p, id :: OnItsWay(env, s', p, id) <==> OnItsWay(env, s, p, id)
    ensures AllTended(env, s') <==> MayRetain(env, s, item)
  {
    assert forall id :: Held(env, s', id) <==> Held(env, s, id);
    forall id | id != item ensures Bare(s', id) <==> Bare(s, id) {
      RetainClears(s.world, item, id);
    }
  }

  lemma RetainOwnExactly(env: Env, s: Sys, p: UploadId)
    requires env.chunking.cfg.Valid() && AllTended(env, s) && AllValid(s.world.s.manifests) && Enabled(env, s, RetainOwn(p))
    ensures AllTended(env, After(env, s, RetainOwn(p))) <==> MayRetain(env, s, s.uploaders[p].id)
  {
    RetainTendsExactly(env, s, After(env, s, RetainOwn(p)), s.uploaders[p].id);
  }

  lemma WorkerRetainExactly(env: Env, s: Sys)
    requires env.chunking.cfg.Valid() && AllTended(env, s) && AllValid(s.world.s.manifests) && Enabled(env, s, WorkerRetain)
    ensures AllTended(env, After(env, s, WorkerRetain)) <==> MayRetain(env, s, s.worker.item)
  {
    RetainTendsExactly(env, s, After(env, s, WorkerRetain), s.worker.item);
  }

  lemma FinishExactly(env: Env, s: Sys)
    requires env.chunking.cfg.Valid() && AllTended(env, s) && Enabled(env, s, Finish)
    ensures AllTended(env, After(env, s, Finish)) <==> Careful(env, s, Finish)
  {
    var s' := After(env, s, Finish);
    assert forall q, id :: OnItsWay(env, s', q, id) <==> OnItsWay(env, s, q, id);
    assert forall id :: Held(env, s', id) <==> Held(env, s, id);
    assert forall id :: Bare(s', id) <==> Bare(s, id);
  }

  lemma CommitExactly(env: Env, s: Sys, u: UploadId, now: Time)
    requires env.chunking.cfg.Valid() && AllTended(env, s) && Enabled(env, s, VaultStep(VM.CommitUpload(u, now)))
    ensures AllTended(env, After(env, s, VaultStep(VM.CommitUpload(u, now)))) <==> MayCommit(env, s, u, now)
  {
    var s', up := After(env, s, VaultStep(VM.CommitUpload(u, now))), s.world.uploads[u];
    var id := env.hash(up.content);
    VM.CommitCases(s.world.s, VM.NewManifest(env, up.content, up.touched, now));
    var stored := s'.world.uploads[u].stage == VM.Committed;
    assert forall q, k :: OnItsWay(env, s', q, k) <==>
        OnItsWay(env, s, q, k) || (stored && q == u && Awaits(s, u) && k == id);
    forall k ensures Held(env, s', k) <==> Held(env, s, k) || (stored && Awaits(s, u) && k == id) {
      if Held(env, s, k) {
        var q :| OnItsWay(env, s, q, k);
        assert OnItsWay(env, s', q, k);
      }
      if stored && Awaits(s, u) && k == id {
        assert OnItsWay(env, s', u, k);
      }
    }
    assert forall k | k != id || !stored :: Bare(s', k) <==> Bare(s, k);
  }

  lemma VaultStepTendsExactly(env: Env, s: Sys, v: VM.Step)
    requires env.chunking.cfg.Valid() && AllTended(env, s) && Enabled(env, s, VaultStep(v))
    ensures AllTended(env, After(env, s, VaultStep(v))) <==> Careful(env, s, VaultStep(v))
  {
    if v.CommitUpload? {
      CommitExactly(env, s, v.u, v.now);
    } else if v.Crash? {
      CrashExactly(env, s);
    } else if v.End? {
      EndLetsGo(env, s, v.u);
      if Awaits(s, v.u) {
        LettingGoExactly(env, s, After(env, s, VaultStep(v)), v.u);
      } else {
        GentleKeepsTended(env, s, After(env, s, VaultStep(v)));
      }
    } else {
      TouchIsGentle(env, s, v);
      GentleKeepsTended(env, s, After(env, s, VaultStep(v)));
    }
  }

  lemma MarkTendsExactly(env: Env, s: Sys, p: UploadId)
    requires env.chunking.cfg.Valid() && AllTended(env, s) && Enabled(env, s, MarkRow(p))
    ensures AllTended(env, After(env, s, MarkRow(p))) <==> Careful(env, s, MarkRow(p))
  {
    if RowCommits(s, p) {
      MarkIsGentle(env, s, p);
      GentleKeepsTended(env, s, After(env, s, MarkRow(p)));
    } else {
      LettingGoExactly(env, s, After(env, s, MarkRow(p)), p);
    }
  }

  /** One step keeps every bare manifest tended exactly when it is careful. */
  lemma StepTendsExactly(env: Env, s: Sys, a: Step)
    requires env.chunking.cfg.Valid() && AllTended(env, s) && AllValid(s.world.s.manifests) && Enabled(env, s, a)
    ensures AllTended(env, After(env, s, a)) <==> Careful(env, s, a)
  {
    match a
    case UploadFails(p) =>
      FailureLetsGo(env, s, p);
      LettingGoExactly(env, s, After(env, s, a), p);
    case MarkRow(p) => MarkTendsExactly(env, s, p);
    case RetainOwn(p) => RetainOwnExactly(env, s, p);
    case WorkerRetain => WorkerRetainExactly(env, s);
    case Finish => FinishExactly(env, s);
    case VaultStep(v) => VaultStepTendsExactly(env, s, v);
    case _ =>
      OtherStepIsGentle(env, s, a);
      GentleKeepsTended(env, s, After(env, s, a));
  }

  lemma OtherStepIsGentle(env: Env, s: Sys, a: Step)
    requires env.chunking.cfg.Valid() && Enabled(env, s, a)
    requires !a.UploadFails? && !a.MarkRow? && !a.RetainOwn? && !a.WorkerRetain? && !a.Finish? && !a.VaultStep?
    ensures Gentle(env, s, After(env, s, a))
  {
    match a
    case VaultAnswers(p) => AnswerIsGentle(env, s, p);
    case DeleteRows(gone, db') => DeleteIsGentle(env, s, gone, db');
    case WorkerRetire => RetireIsGentle(env, s);
    case Collect(d) => CollectIsGentle(env, s, d);
    case _ => RowStepIsGentle(env, s, a);
  }

  // ---------------------------------------------------------------- whole runs

  ghost predicate TendedThroughout(env: Env, s: Sys, steps: seq<Step>)
    requires env.chunking.cfg.Valid()
    decreases |steps|
  {
    AllTended(env, s) &&
      (steps != [] ==> Enabled(env, s, steps[0]) && TendedThroughout(env, After(env, s, steps[0]), steps[1..]))
  }

  ghost predicate CarefulThroughout(env: Env, s: Sys, steps: seq<Step>)
    requires env.chunking.cfg.Valid()
    decreases |steps|
  {
    steps != [] ==>
      && Enabled(env, s, steps[0]) && Careful(env, s, steps[0])
      && CarefulThroughout(env, After(env, s, steps[0]), steps[1..])
  }

  /** A run strands no manifest in any of its states exactly when each of its steps was careful. */
  lemma {:induction false} TendedExactlyWhenCareful(env: Env, s: Sys, steps: seq<Step>, s': Sys)
    requires env.chunking.cfg.Valid() && AllTended(env, s) && AllValid(s.world.s.manifests) && s.clock > 0
    requires Run(env, s, steps, s')
    ensures TendedThroughout(env, s, steps) <==> CarefulThroughout(env, s, steps)
    ensures CarefulThroughout(env, s, steps) ==> AllTended(env, s')
    decreases |steps|
  {
    if steps != [] {
      StepTendsExactly(env, s, steps[0]);
      StepKeepsValid(env, s, steps[0]);
      if Careful(env, s, steps[0]) {
        TendedExactlyWhenCareful(env, After(env, s, steps[0]), steps[1..], s');
      }
    }
  }

  /** The worker's own Retain never strands anything: its request is still pending. */
  lemma WorkerRetainIsCareful(env: Env, s: Sys)
    requires env.chunking.cfg.Valid() && WorkerOk(s) && Enabled(env, s, WorkerRetain)
    ensures Careful(env, s, WorkerRetain)
  {
    assert IsQueued(s.db, ([s.worker.item] + s.worker.rest)[0]);
  }

  // ---------------------------------------------------------------- several workers, late calls, giving up

  /** Giving up a Retain strands nothing; a Retain that lands late may. */
  ghost predicate CrewCareful(env: Env, c: W.Crew, a: W.CrewStep)
    requires env.chunking.cfg.Valid() && W.Possible(env, c, a)
  {
    match a
    case By(i, a) => Careful(env, W.Seat(c, i), a)
    case LoseTouch(_, _) => true
    case GiveUp(_, _) => true
    case Land(call) => !call.retire ==> MayRetain(env, c.s, call.id)
  }

  lemma SeatIsIrrelevant(env: Env, s: Sys, w: Worker)
    ensures AllTended(env, s) <==> AllTended(env, s.(worker := w))
  {
    var s' := s.(worker := w);
    assert forall p, id :: OnItsWay(env, s, p, id) <==> OnItsWay(env, s', p, id);
    assert forall id :: Held(env, s, id) <==> Held(env, s', id);
    assert forall id :: Bare(s, id) <==> Bare(s', id);
  }

  lemma SeatStepTendsExactly(env: Env, c: W.Crew, i: W.WorkerId, a: Step)
    requires env.chunking.cfg.Valid() && AllTended(env, c.s) && AllValid(c.s.world.s.manifests)
    requires i in c.workers && Enabled(env, W.Seat(c, i), a)
    ensures AllTended(env, W.Leave(c, i, After(env, W.Seat(c, i), a)).s) <==> Careful(env, W.Seat(c, i), a)
  {
    SeatIsIrrelevant(env, c.s, c.workers[i]);
    StepTendsExactly(env, W.Seat(c, i), a);
    SeatIsIrrelevant(env, After(env, W.Seat(c, i), a), Idle);
  }

  lemma GivingUpStrandsNothing(env: Env, c: W.Crew, p: UploadId, issued: bool)
    requires env.chunking.cfg.Valid() && AllTended(env, c.s) && W.Possible(env, c, W.GiveUp(p, issued))
    ensures AllTended(env, W.Next(env, c, W.GiveUp(p, issued)).s)
  {
    GentleKeepsTended(env, c.s, RR.Abandon(c.s, p));
  }

  lemma LandingTendsExactly(env: Env, c: W.Crew, call: W.Call)
    requires env.chunking.cfg.Valid() && AllTended(env, c.s) && AllValid(c.s.world.s.manifests)
    requires W.Possible(env, c, W.Land(call))
    ensures AllTended(env, W.Next(env, c, W.Land(call)).s) <==> CrewCareful(env, c, W.Land(call))
  {
    if call.retire {
      GentleKeepsTended(env, c.s, W.Next(env, c, W.Land(call)).s);
    } else {
      RetainTendsExactly(env, c.s, W.Next(env, c, W.Land(call)).s, call.id);
    }
  }

  /** The same for one step of a whole crew. */
  lemma CrewStepTendsExactly(env: Env, c: W.Crew, a: W.CrewStep)
    requires env.chunking.cfg.Valid() && AllTended(env, c.s) && AllValid(c.s.world.s.manifests) && W.Possible(env, c, a)
    ensures AllTended(env, W.Next(env, c, a).s) <==> CrewCareful(env, c, a)
  {
    match a
    case By(i, b) => SeatStepTendsExactly(env, c, i, b);
    case LoseTouch(i, b) => SeatStepTendsExactly(env, c, i, b);
    case GiveUp(p, issued) => GivingUpStrandsNothing(env, c, p, issued);
    case Land(call) => LandingTendsExactly(env, c, call);
  }

  ghost predicate CrewTendedThroughout(env: Env, c: W.Crew, steps: seq<W.CrewStep>)
    requires env.chunking.cfg.Valid()
    decreases |steps|
  {
    AllTended(env, c.s) &&
      (steps != [] ==> W.Possible(env, c, steps[0]) && CrewTendedThroughout(env, W.Next(env, c, steps[0]), steps[1..]))
  }

  ghost predicate CrewCarefulThroughout(env: Env, c: W.Crew, steps: seq<W.CrewStep>)
    requires env.chunking.cfg.Valid()
    decreases |steps|
  {
    steps != [] ==>
      && W.Possible(env, c, steps[0]) && CrewCareful(env, c, steps[0])
      && CrewCarefulThroughout(env, W.Next(env, c, steps[0]), steps[1..])
  }

  /** With any number of workers, late calls and givings up: nothing is stranded exactly when every step was careful. */
  lemma {:induction false} CrewTendsExactlyWhenCareful(env: Env, c: W.Crew, steps: seq<W.CrewStep>, c': W.Crew)
    requires env.chunking.cfg.Valid() && AllTended(env, c.s) && AllValid(c.s.world.s.manifests) && c.s.clock > 0
    requires W.CrewRun(env, c, steps, c')
    ensures CrewTendedThroughout(env, c, steps) <==> CrewCarefulThroughout(env, c, steps)
    ensures CrewCarefulThroughout(env, c, steps) ==> AllTended(env, c'.s)
    decreases |steps|
  {
    if steps != [] {
      CrewStepTendsExactly(env, c, steps[0]);
      W.StepStaysValid(env, c, steps[0]);
      if CrewCareful(env, c, steps[0]) {
        CrewTendsExactlyWhenCareful(env, W.Next(env, c, steps[0]), steps[1..], c');
      }
    }
  }
}
