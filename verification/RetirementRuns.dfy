/** Concrete runs of one worker, up to the states in which coverage hangs by a thread. */
module RetirementRuns {
  import opened Vault
  import VM = VaultMachine
  import VaultSweep
  import opened Metadata
  import opened Retirement

  /** The uploader stops before its Retain: the call fails, or the process dies. */
  function Abandon(s: Sys, p: UploadId): Sys {
    s.(uploaders := s.uploaders - {p})
  }

  // ---------------------------------------------------------------- concrete runs

  lemma {:induction false} Snoc(env: Env, s: Sys, steps: seq<Step>, s1: Sys, a: Step)
    requires env.chunking.cfg.Valid() && Run(env, s, steps, s1) && Enabled(env, s1, a)
    ensures Run(env, s, steps + [a], After(env, s1, a))
    decreases |steps|
  {
    if steps == [] {
      assert steps + [a] == [a];
    } else {
      Snoc(env, After(env, s, steps[0]), steps[1..], s1, a);
      assert (steps + [a])[1..] == steps[1..] + [a];
    }
  }

  function TinyId(env: Env): Hash {
    env.hash(VaultSweep.TINY)
  }

  /** The Vault with the one-byte file committed and nobody at work. */
  function TinyWorld(env: Env): VM.World {
    var h := TinyId(env);
    VM.World(State(map[h := VaultSweep.TinyManifest(env)], map[h := VaultSweep.TinyRecord(env, 1)],
                   map[h := ChunkFile(VaultSweep.TINY, 1)], map[]),
             map[], map[h := VaultSweep.TINY], 0, {})
  }

  function Lift(vsteps: seq<VM.Step>): (steps: seq<Step>)
    ensures |steps| == |vsteps| && forall i | 0 <= i < |vsteps| :: steps[i] == VaultStep(vsteps[i])
  {
    seq(|vsteps|, i requires 0 <= i < |vsteps| => VaultStep(vsteps[i]))
  }

  /** A run of the Vault alone is a run of the system in which nobody else moves. */
  lemma {:induction false} LiftRun(env: Env, s: Sys, vsteps: seq<VM.Step>, w: VM.World)
    requires env.chunking.cfg.Valid() && VM.Run(env, s.world, vsteps, w)
    requires forall a | a in vsteps :: !a.Retire? && !a.Retain? && !a.SweepUp?
    ensures Run(env, s, Lift(vsteps), s.(world := w))
    decreases |vsteps|
  {
    if vsteps != [] {
      LiftRun(env, s.(world := VM.Apply(env, s.world, vsteps[0])), vsteps[1..], w);
      assert Lift(vsteps)[1..] == Lift(vsteps[1..]);
    }
  }

  lemma {:induction false} Append(env: Env, s: Sys, xs: seq<Step>, s1: Sys, ys: seq<Step>, s2: Sys)
    requires env.chunking.cfg.Valid() && Run(env, s, xs, s1) && Run(env, s1, ys, s2)
    ensures Run(env, s, xs + ys, s2)
    decreases |xs|
  {
    if xs == [] {
      assert xs + ys == ys;
    } else {
      Append(env, After(env, s, xs[0]), xs[1..], s1, ys, s2);
      assert (xs + ys)[1..] == xs[1..] + ys;
    }
  }

  lemma TwoSteps(env: Env, s: Sys, a: Step, s1: Sys, b: Step, s2: Sys)
    requires env.chunking.cfg.Valid() && Enabled(env, s, a) && After(env, s, a) == s1
    requires Enabled(env, s1, b) && After(env, s1, b) == s2
    ensures Run(env, s, [a, b], s2)
  {
    assert [a, b][1..] == [b] && [b][1..] == [];
    assert Run(env, s2, [], s2);
    assert Run(env, s1, [b], s2);
  }

  /** An idle worker takes up h's request and looks for references. */
  lemma ClaimsAndChecks(env: Env, s: Sys, h: Hash)
    requires env.chunking.cfg.Valid() && s.worker == Idle && IsQueued(s.db, h)
    ensures Run(env, s, [Claim([h]), Check], s.(worker := Busy(h, Checked(HasReferences(s.db.rows, h)), [])))
  {
    var s1 := s.(worker := Busy(h, Claimed, []));
    assert NextItem([h]) == Busy(h, Claimed, []);
    TwoSteps(env, s, Claim([h]), s1, Check, s.(worker := Busy(h, Checked(HasReferences(s.db.rows, h)), [])));
  }

  /** A worker that found no reference retires the manifest, looks again, and still finds none. */
  lemma RetiresAndRechecks(env: Env, s: Sys, h: Hash)
    requires env.chunking.cfg.Valid() && s.worker == Busy(h, Checked(false), [])
    requires h in s.world.s.manifests && !HasReferences(s.db.rows, h)
    ensures Run(env, s, [WorkerRetire, Recheck],
                s.(world := RetireIn(s.world, h, s.clock), worker := Busy(h, Rechecked(false), [])))
  {
    var s1 := s.(world := RetireIn(s.world, h, s.clock), worker := Busy(h, RetiredOnce, []));
    TwoSteps(env, s, WorkerRetire, s1, Recheck, s1.(worker := Busy(h, Rechecked(false), [])));
  }

  /** The state with upload u of the byte at the end of its chunks. */
  function Touched(env: Env, w: VM.World, u: UploadId, stage: VM.Stage): VM.World {
    w.(s := w.s.(active := map[u := {TinyId(env)}]),
       uploads := map[u := VM.Upload(VaultSweep.TINY, [], [TinyId(env)], VM.Between, stage)])
  }

  lemma TouchAgain(env: Env, u: UploadId) returns (steps: seq<VM.Step>)
    requires env.chunking.cfg.Valid()
    ensures VM.Run(env, TinyWorld(env), steps, Touched(env, TinyWorld(env), u, VM.Running))
    ensures forall a | a in steps :: !a.Retire? && !a.Retain? && !a.SweepUp?
  {
    var w0 := TinyWorld(env);
    VaultSweep.TinyIsOneChunk(env.chunking);
    steps := [];
    var w := w0;
    VaultSweep.RunSnoc(env, w0, steps, w, VM.Begin(u, VaultSweep.TINY));
    steps, w := steps + [VM.Begin(u, VaultSweep.TINY)], VM.Apply(env, w, VM.Begin(u, VaultSweep.TINY));
    assert w.uploads == map[u := VM.Upload(VaultSweep.TINY, [VaultSweep.TINY], [], VM.Between, VM.Running)];
    VaultSweep.RunSnoc(env, w0, steps, w, VM.Look(u));
    steps, w := steps + [VM.Look(u)], VM.Apply(env, w, VM.Look(u));
    VaultSweep.RunSnoc(env, w0, steps, w, VM.PutFile(u, 4));
    steps, w := steps + [VM.PutFile(u, 4)], VM.Apply(env, w, VM.PutFile(u, 4));
    VaultSweep.RunSnoc(env, w0, steps, w, VM.Mark(u));
    steps, w := steps + [VM.Mark(u)], VM.Apply(env, w, VM.Mark(u));
    assert w.uploads[u] == VM.Upload(VaultSweep.TINY, [], [TinyId(env)], VM.Between, VM.Running);
    assert w.s.active[u] == {TinyId(env)};
    assert w.s.active == map[u := {TinyId(env)}];
    assert w.uploads == map[u := VM.Upload(VaultSweep.TINY, [], [TinyId(env)], VM.Between, VM.Running)];
    assert w == Touched(env, w0, u, VM.Running);
  }

  lemma CommitAgain(env: Env, u: UploadId) returns (steps: seq<VM.Step>)
    requires env.chunking.cfg.Valid() && TinyId(env) != ""
    ensures VM.Run(env, TinyWorld(env), steps, Touched(env, TinyWorld(env), u, VM.Committed))
    ensures forall a | a in steps :: !a.Retire? && !a.Retain? && !a.SweepUp?
  {
    steps := TouchAgain(env, u);
    var w := Touched(env, TinyWorld(env), u, VM.Running);
    VaultSweep.RunSnoc(env, TinyWorld(env), steps, w, VM.CommitUpload(u, 5));
    steps := steps + [VM.CommitUpload(u, 5)];
    var w' := VM.Apply(env, w, VM.CommitUpload(u, 5));
    assert w'.contents == w.contents;
    assert w'.uploads == Touched(env, TinyWorld(env), u, VM.Committed).uploads;
  }

  /** Uploading the byte once more leaves the Vault as it was and the uploader with its answer. */
  lemma UploadAgain(env: Env, s: Sys) returns (steps: seq<Step>, s': Sys)
    requires Sound(env) && s.world == TinyWorld(env) && s.uploaders == map[] && 1 !in s.db.rows
    ensures Run(env, s, steps, s')
    ensures s' == s.(db := CreatePending(s.db, 1), uploaders := map["b" := Uploaded(1, TinyId(env))])
  {
    hide VM.Run;
    var vsteps := CommitAgain(env, "b");
    var s1 := After(env, s, StartUpload("b", 1));
    var s2 := s1.(world := Touched(env, TinyWorld(env), "b", VM.Committed));
    LiftRun(env, s1, vsteps, s2.world);
    Append(env, s, [StartUpload("b", 1)], s1, Lift(vsteps), s2);
    steps := [StartUpload("b", 1)] + Lift(vsteps);
    Snoc(env, s, steps, s2, VaultAnswers("b"));
    steps, s' := steps + [VaultAnswers("b")], After(env, s2, VaultAnswers("b"));
    assert s'.world.s.active == map[] && s'.world.uploads == map[];
    assert s'.world == TinyWorld(env);
  }

  /** First upload, then its row is deleted for good: an active manifest, no row, a queued request. */
  function DeletedOnce(env: Env): Sys {
    Sys(TinyWorld(env), Db(map[], map[TinyId(env) := Queued]), map[], Idle, 100)
  }

  lemma UploadFirst(env: Env) returns (steps: seq<Step>, s: Sys)
    requires Sound(env)
    ensures Run(env, InitialSys(100), steps, s)
    ensures s == Sys(TinyWorld(env), Db(map[0 := Row(None, Pending, false)], map[]),
                     map["a" := Uploaded(0, TinyId(env))], Idle, 100)
  {
    var h := TinyId(env);
    var s0 := InitialSys(100);
    var s1 := After(env, s0, StartUpload("a", 0));
    var vsteps, w := VaultSweep.TinyCommitted(env);
    LiftRun(env, s1, vsteps, w);
    var s2 := s1.(world := w);
    Append(env, s0, [StartUpload("a", 0)], s1, Lift(vsteps), s2);
    steps := [StartUpload("a", 0)] + Lift(vsteps);
    Snoc(env, s0, steps, s2, VaultAnswers("a"));
    steps, s := steps + [VaultAnswers("a")], After(env, s2, VaultAnswers("a"));
    assert s.world.s.active == map[] && s.world.uploads == map[];
    assert s.world == TinyWorld(env);
  }

  lemma DeleteFirst(env: Env) returns (steps: seq<Step>)
    requires Sound(env)
    ensures Run(env, InitialSys(100), steps, DeletedOnce(env))
  {
    var h := TinyId(env);
    var s0 := InitialSys(100);
    var s;
    steps, s := UploadFirst(env);
    Snoc(env, s0, steps, s, MarkRow("a"));
    steps, s := steps + [MarkRow("a")], After(env, s, MarkRow("a"));
    assert s.uploaders["a"] == Marked(0, h);
    Snoc(env, s0, steps, s, RequeueRow("a", true));
    steps, s := steps + [RequeueRow("a", true)], After(env, s, RequeueRow("a", true));
    Snoc(env, s0, steps, s, RetainOwn("a"));
    steps, s := steps + [RetainOwn("a")], After(env, s, RetainOwn("a"));
    assert s.uploaders == map[];
    var rows := map[0 := Row(Some(h), Committed, false)];
    assert s == Sys(TinyWorld(env), Db(rows, map[]), map[], Idle, 100);
    var db' := Db(map[], map[h := Queued]);
    OnlyRowDeleted(h);
    Snoc(env, s0, steps, s, DeleteRows({0}, db'));
    steps := steps + [DeleteRows({0}, db')];
  }

  /** Active, referred to by no row, asked for by no request, and nobody is at work on it. */
  ghost predicate Stranded(s: Sys, id: Hash) {
    && id in s.world.s.manifests && !IsRetired(s, id) && !HasReferences(s.db.rows, id)
    && !IsQueued(s.db, id) && s.uploaders == map[] && s.worker == Idle
  }

  /**
   * An upload whose row is never committed leaves an active manifest that no row refers to, no
   * request mentions and nobody is at work on: nothing will retire it.
   */
  lemma StrandedManifest(env: Env) returns (steps: seq<Step>, s: Sys)
    requires Sound(env)
    ensures Run(env, InitialSys(100), steps, s)
    ensures Stranded(s, TinyId(env))
  {
    var s1;
    steps, s1 := UploadFirst(env);
    Snoc(env, InitialSys(100), steps, s1, UploadFails("a"));
    steps, s := steps + [UploadFails("a")], After(env, s1, UploadFails("a"));
  }

  /** The uploader's row is committed and deleted again before the uploader's Retain. */
  function DeletedBeforeRetain(env: Env): Sys {
    Sys(TinyWorld(env), Db(map[], map[TinyId(env) := Queued]), map["a" := Requeued(0, TinyId(env))], Idle, 100)
  }

  lemma ReachDeletedBeforeRetain(env: Env) returns (steps: seq<Step>)
    requires Sound(env)
    ensures Run(env, InitialSys(100), steps, DeletedBeforeRetain(env))
  {
    var h, s0 := TinyId(env), InitialSys(100);
    var s;
    steps, s := UploadFirst(env);
    Snoc(env, s0, steps, s, MarkRow("a"));
    steps, s := steps + [MarkRow("a")], After(env, s, MarkRow("a"));
    Snoc(env, s0, steps, s, RequeueRow("a", true));
    steps, s := steps + [RequeueRow("a", true)], After(env, s, RequeueRow("a", true));
    assert s.uploaders == map["a" := Requeued(0, h)];
    OnlyRowDeleted(h);
    Snoc(env, s0, steps, s, DeleteRows({0}, Db(map[], map[h := Queued])));
    steps := steps + [DeleteRows({0}, Db(map[], map[h := Queued]))];
  }

  lemma OnlyRowDeleted(h: Hash)
    ensures DeletesRows(Db(map[0 := Row(Some(h), Committed, false)], map[]), {0}, Db(map[], map[h := Queued]))
  {
    var rows := map[0 := Row(Some(h), Committed, false)];
    assert rows - {0} == map[];
    assert Refers(rows[0], h);
    assert LosesLastReference(rows, {0}, h);
    assert forall id :: LosesLastReference(rows, {0}, id) ==> id == h;
  }

  /** The worker retires the unreferenced manifest and completes its request. */
  lemma WorkerRetiresFirst(env: Env) returns (steps: seq<Step>, s: Sys)
    requires Sound(env)
    ensures Run(env, DeletedBeforeRetain(env), steps, s)
    ensures s == DeletedBeforeRetain(env).(world := RetireIn(TinyWorld(env), TinyId(env), 100),
                                           db := Db(map[], map[TinyId(env) := Completed]))
  {
    var h, s0 := TinyId(env), DeletedBeforeRetain(env);
    var s1 := s0.(worker := Busy(h, Checked(false), []));
    var s2 := s0.(world := RetireIn(TinyWorld(env), h, 100), worker := Busy(h, Rechecked(false), []));
    ClaimsAndChecks(env, s0, h);
    RetiresAndRechecks(env, s1, h);
    Append(env, s0, [Claim([h]), Check], s1, [WorkerRetire, Recheck], s2);
    Snoc(env, s0, [Claim([h]), Check] + [WorkerRetire, Recheck], s2, Finish);
    steps, s := [Claim([h]), Check] + [WorkerRetire, Recheck] + [Finish], After(env, s2, Finish);
    assert s.db.outbox == map[h := Completed];
  }

  /** Then the uploader's Retain makes the manifest active again, for good. */
  lemma LateRetainStrands(env: Env) returns (steps: seq<Step>, s: Sys)
    requires Sound(env)
    ensures Run(env, InitialSys(100), steps, s) && Stranded(s, TinyId(env))
  {
    var s1;
    var xs := ReachDeletedBeforeRetain(env);
    var ys;
    ys, s1 := WorkerRetiresFirst(env);
    Append(env, InitialSys(100), xs, DeletedBeforeRetain(env), ys, s1);
    Snoc(env, InitialSys(100), xs + ys, s1, RetainOwn("a"));
    steps, s := xs + ys + [RetainOwn("a")], After(env, s1, RetainOwn("a"));
    assert s.uploaders == map[];
  }

  /** Uncovered for good: referenced, retired, completed, nobody owes a Retain, and no worker holds it. */
  ghost predicate Forgotten(s: Sys, id: Hash) {
    && HasReferences(s.db.rows, id) && IsRetired(s, id)
    && id in s.db.outbox && s.db.outbox[id] == Completed
    && !Owed(s, id) && s.worker == Idle
  }

  /** The second upload has its answer; its row is still pending. */
  function SecondUploaded(env: Env): Sys {
    DeletedOnce(env).(db := CreatePending(DeletedOnce(env).db, 1), uploaders := map["b" := Uploaded(1, TinyId(env))])
  }

  lemma ReachSecondUploaded(env: Env) returns (steps: seq<Step>)
    requires Sound(env)
    ensures Run(env, InitialSys(100), steps, SecondUploaded(env))
  {
    var first := DeleteFirst(env);
    var again, s := UploadAgain(env, DeletedOnce(env));
    Append(env, InitialSys(100), first, DeletedOnce(env), again, s);
    steps := first + again;
  }

  /** The worker has retired the manifest and has seen, twice, that nobody refers to it. */
  function RetiredUnreferenced(env: Env): Sys {
    var h := TinyId(env);
    SecondUploaded(env).(world := RetireIn(TinyWorld(env), h, 100), worker := Busy(h, Rechecked(false), []))
  }

  lemma WorkerRetires(env: Env) returns (steps: seq<Step>)
    requires Sound(env)
    ensures Run(env, SecondUploaded(env), steps, RetiredUnreferenced(env))
  {
    var h, s0 := TinyId(env), SecondUploaded(env);
    assert s0.db.rows == map[1 := Row(None, Pending, false)];
    assert !HasReferences(s0.db.rows, h);
    var s1 := s0.(worker := Busy(h, Checked(false), []));
    ClaimsAndChecks(env, s0, h);
    RetiresAndRechecks(env, s1, h);
    Append(env, s0, [Claim([h]), Check], s1, [WorkerRetire, Recheck], RetiredUnreferenced(env));
    steps := [Claim([h]), Check] + [WorkerRetire, Recheck];
  }

  /** The uploader's row is committed and requeued, and the worker's completion overwrites that. */
  lemma CompletionOverwrites(env: Env) returns (steps: seq<Step>, s: Sys)
    requires Sound(env)
    ensures Run(env, RetiredUnreferenced(env), steps, s)
    ensures Owes(s, "b", TinyId(env)) && Forgotten(Abandon(s, "b"), TinyId(env))
  {
    var h := TinyId(env);
    var s0 := RetiredUnreferenced(env);
    s := s0;
    steps := [];
    Snoc(env, s0, steps, s, MarkRow("b"));
    steps, s := steps + [MarkRow("b")], After(env, s, MarkRow("b"));
    assert s.uploaders["b"] == Marked(1, h) && Refers(s.db.rows[1], h);
    Snoc(env, s0, steps, s, RequeueRow("b", true));
    steps, s := steps + [RequeueRow("b", true)], After(env, s, RequeueRow("b", true));
    Snoc(env, s0, steps, s, Finish);
    steps, s := steps + [Finish], After(env, s, Finish);
    assert s.uploaders == map["b" := Requeued(1, h)];
    assert Refers(s.db.rows[1], h);
    assert s.world.s.manifests[h].retired;
    assert Abandon(s, "b").uploaders == map[];
  }

  /**
   * The unconditional completion really can overwrite a requeue: in this run only the Retain
   * that the uploader still owes stands between a committed row and being forgotten.
   */
  lemma OnlyTheRetainIsLeft(env: Env) returns (steps: seq<Step>, s: Sys)
    requires Sound(env)
    ensures Run(env, InitialSys(100), steps, s)
    ensures Owes(s, "b", TinyId(env)) && Forgotten(Abandon(s, "b"), TinyId(env))
  {
    var xs := ReachSecondUploaded(env);
    var ys := WorkerRetires(env);
    var zs;
    zs, s := CompletionOverwrites(env);
    Append(env, InitialSys(100), xs, SecondUploaded(env), ys, RetiredUnreferenced(env));
    Append(env, InitialSys(100), xs + ys, RetiredUnreferenced(env), zs, s);
    steps := xs + ys + zs;
  }

  // ---------------------------------------------------------------- a second worker

  /** A worker that has checked the first request and is then held up. */
  lemma FirstWorkerChecks(env: Env) returns (steps: seq<Step>)
    requires Sound(env)
    ensures Run(env, InitialSys(100), steps, DeletedOnce(env).(worker := Busy(TinyId(env), Checked(false), [])))
  {
    var h := TinyId(env);
    var before := DeleteFirst(env);
    assert !HasReferences(DeletedOnce(env).db.rows, h);
    ClaimsAndChecks(env, DeletedOnce(env), h);
    Append(env, InitialSys(100), before, DeletedOnce(env), [Claim([h]), Check],
           DeletedOnce(env).(worker := Busy(h, Checked(false), [])));
    steps := before + [Claim([h]), Check];
  }

  /** Meanwhile an upload commits its row and retains, and another worker handles the request to the end. */
  function Settled(env: Env): Sys {
    var h := TinyId(env);
    Sys(TinyWorld(env), Db(map[1 := Row(Some(h), Committed, false)], map[h := Completed]), map[], Idle, 100)
  }

  lemma SecondWorkerFinishes(env: Env) returns (steps: seq<Step>)
    requires Sound(env)
    ensures Run(env, DeletedOnce(env), steps, Settled(env))
  {
    var h := TinyId(env);
    var s0 := DeletedOnce(env);
    var s;
    steps, s := UploadAgain(env, s0);
    Snoc(env, s0, steps, s, MarkRow("b"));
    steps, s := steps + [MarkRow("b")], After(env, s, MarkRow("b"));
    Snoc(env, s0, steps, s, RequeueRow("b", true));
    steps, s := steps + [RequeueRow("b", true)], After(env, s, RequeueRow("b", true));
    Snoc(env, s0, steps, s, RetainOwn("b"));
    steps, s := steps + [RetainOwn("b")], After(env, s, RetainOwn("b"));
    assert s == Sys(TinyWorld(env), Db(map[1 := Row(Some(h), Committed, false)], map[h := Queued]), map[], Idle, 100);
    assert Refers(s.db.rows[1], h);
    var more := WorkerKeeps(env, s);
    Append(env, s0, steps, s, more, Settled(env));
    steps := steps + more;
  }

  lemma WorkerKeeps(env: Env, s0: Sys) returns (steps: seq<Step>)
    requires Sound(env) && s0 == Settled(env).(db := Db(Settled(env).db.rows, map[TinyId(env) := Queued]))
    ensures Run(env, s0, steps, Settled(env))
  {
    var h := TinyId(env);
    var s1 := s0.(worker := Busy(h, Checked(true), []));
    assert Refers(s0.db.rows[1], h);
    ClaimsAndChecks(env, s0, h);
    KeepsAndFinishes(env, s1, h);
    Append(env, s0, [Claim([h]), Check], s1, [WorkerRetain, Finish], Settled(env));
    steps := [Claim([h]), Check] + [WorkerRetain, Finish];
  }

  lemma KeepsAndFinishes(env: Env, s: Sys, h: Hash)
    requires env.chunking.cfg.Valid() && s.worker == Busy(h, Checked(true), []) && h == TinyId(env)
    requires s.world == TinyWorld(env) && s.db.outbox == map[h := Queued]
    ensures Run(env, s, [WorkerRetain, Finish], s.(db := s.db.(outbox := map[h := Completed]), worker := Idle))
  {
    var s1 := s.(worker := Busy(h, Retained, []));
    assert RetainIn(s.world, h) == s.world;
    assert s.db.outbox[h := Completed] == map[h := Completed];
    TwoSteps(env, s, WorkerRetain, s1, Finish, s.(db := s.db.(outbox := map[h := Completed]), worker := Idle));
  }
}
