/**
 * The whole system as the program builds it, and more: several workers, uploaders that give up,
 * calls that land late, and a collector on a Store of its own.
 */
module Whole {
  import opened Vault
  import VM = VaultMachine
  import opened Metadata
  import opened Objects
  import opened Retirement
  import opened Workers
  import TS = TwoStores

  datatype System = System(c: Crew, sweeper: TS.Sweeper)

  datatype Act = ByCrew(a: CrewStep) | ByCollector(m: TS.Move)

  function Vaults(f: System): TS.Program {
    TS.Program(f.c.s.world, f.sweeper)
  }

  /** The crew never sweeps; the collector scans with the cutoff its grace gives it. */
  ghost predicate MayHappen(env: Env, f: System, act: Act)
    requires env.chunking.cfg.Valid()
  {
    match act
    case ByCrew(a) => Workers.Possible(env, f.c, a) && (a.By? ==> !a.a.Collect?)
    case ByCollector(m) => TS.Possible(Vaults(f), m) && !m.Own? && (m.Scan? ==> m.cutoff == f.c.s.clock - GRACE)
  }

  ghost function Then(env: Env, f: System, act: Act): System
    requires env.chunking.cfg.Valid() && MayHappen(env, f, act)
  {
    match act
    case ByCrew(a) => f.(c := Workers.Next(env, f.c, a))
    case ByCollector(m) =>
      var p := TS.After(env, Vaults(f), m);
      System(f.c.(s := f.c.s.(world := p.w)), p.sweeper)
  }

  // ---------------------------------------------------------------- who needs a manifest, who will see to it

  ghost predicate SomeWorkerHolds(c: Crew, id: Hash) {
    exists i :: i in c.workers && WorkerHolds(Seat(c, i), id)
  }

  ghost predicate SomeUploaderHolds(env: Env, s: Sys, id: Hash) {
    exists p :: UploaderHolds(env, s, p, id)
  }

  ghost predicate NeededBy(env: Env, c: Crew, id: Hash) {
    || HasReferences(c.s.db.rows, id) || SomeUploaderHolds(env, c.s, id)
    || SomeWorkerHolds(c, id) || Call(id, false) in c.flying
  }

  /** Needed, and if only by a row then with a request or an uploader's Retain still to come. */
  ghost predicate MindedBy(env: Env, c: Crew, id: Hash) {
    || (HasReferences(c.s.db.rows, id) && (IsQueued(c.s.db, id) || Owed(c.s, id)))
    || SomeUploaderHolds(env, c.s, id) || SomeWorkerHolds(c, id) || Call(id, false) in c.flying
  }

  ghost predicate NoWindowTooLong(env: Env, c: Crew) {
    forall id | MindedBy(env, c, id) && IsRetired(c.s, id) :: VM.Kept(c.s.world.s.manifests[id], c.s.clock - GRACE)
  }

  /**
   * The hypotheses on one act: no stale retire, completion or giving up; no deletion of a chunk in
   * use; no scan while a retired manifest has been on somebody's list for longer than the grace.
   */
  ghost predicate InOrder(env: Env, f: System, act: Act)
    requires env.chunking.cfg.Valid() && MayHappen(env, f, act)
  {
    match act
    case ByCrew(a) => Fresh(env, f.c, a)
    case ByCollector(m) => TS.Harmless(env, Vaults(f), m) && (m.Scan? ==> NoWindowTooLong(env, f.c))
  }

  ghost predicate Inv(env: Env, c: Crew)
    requires env.chunking.cfg.Valid()
  {
    && VM.Inv(env, c.s.world) && Covered(c.s)
    && (forall id | NeededBy(env, c, id) :: WithinReach(c.s.world, id))
    && 0 < c.s.clock && c.s.world.horizon <= c.s.clock
  }

  // ---------------------------------------------------------------- a worker's or the system's own step

  lemma NeedsComeFromSeat(env: Env, c: Crew, i: WorkerId, id: Hash)
    requires i in c.workers && Wanted(env, Seat(c, i), id)
    ensures NeededBy(env, c, id)
  {
    if p :| UploaderHolds(env, Seat(c, i), p, id) {
      assert UploaderHolds(env, c.s, p, id);
    }
  }

  /** After worker i's step whatever is needed was needed before, or is being committed. */
  lemma NeedsComeFromBefore(env: Env, c: Crew, i: WorkerId, a: Step, id: Hash)
    requires env.chunking.cfg.Valid() && Workers.Possible(env, c, By(i, a))
    requires NeededBy(env, Leave(c, i, After(env, Seat(c, i), a)), id)
    ensures NeededBy(env, c, id) || CommitsNow(env, Seat(c, i), a, id)
  {
    var s, s' := Seat(c, i), After(env, Seat(c, i), a);
    var c' := Leave(c, i, s');
    if Call(id, false) !in c.flying {
      if Wanted(env, s', id) {
        WantedComesFromCommits(env, s, a, id);
        if Wanted(env, s, id) {
          NeedsComeFromSeat(env, c, i, id);
        }
      } else {
        NotByTheSeat(env, c, i, s', id);
        var j :| j in c'.workers && WorkerHolds(Seat(c', j), id);
        assert j != i ==> WorkerHolds(Seat(c, j), id);
      }
    }
  }

  lemma NotByTheSeat(env: Env, c: Crew, i: WorkerId, s': Sys, id: Hash)
    requires !Wanted(env, s', id) && NeededBy(env, Leave(c, i, s'), id) && Call(id, false) !in c.flying
    ensures exists j :: j in c.workers && j != i && WorkerHolds(Seat(Leave(c, i, s'), j), id)
  {
    var c' := Leave(c, i, s');
    if p :| UploaderHolds(env, c'.s, p, id) {
      assert UploaderHolds(env, s', p, id);
      assert false;
    }
    var j :| j in c'.workers && WorkerHolds(Seat(c', j), id);
    assert j == i ==> WorkerHolds(s', id);
  }

  lemma SeatRetainsInGrace(env: Env, c: Crew, i: WorkerId, a: Step)
    requires env.chunking.cfg.Valid() && Inv(env, c) && Workers.Possible(env, c, By(i, a))
    ensures RetainsInGrace(Seat(c, i), a)
  {
    if a.RetainOwn? {
      assert UploaderHolds(env, c.s, a.p, c.s.uploaders[a.p].id);
      assert NeededBy(env, c, c.s.uploaders[a.p].id);
    } else if a.WorkerRetain? {
      assert WorkerHolds(Seat(c, i), c.workers[i].item);
      assert NeededBy(env, c, c.workers[i].item);
    }
  }

  lemma StepKeepsNeeds(env: Env, c: Crew, i: WorkerId, a: Step, id: Hash)
    requires env.chunking.cfg.Valid() && Inv(env, c) && Workers.Possible(env, c, By(i, a)) && !a.Collect?
    requires NeededBy(env, Leave(c, i, After(env, Seat(c, i), a)), id)
    ensures WithinReach(After(env, Seat(c, i), a).world, id)
  {
    NeedsComeFromBefore(env, c, i, a, id);
    if CommitsNow(env, Seat(c, i), a, id) {
      CommitReaches(env, c.s.world, a.a.u, a.a.now);
    } else {
      ReachIsKept(env, Seat(c, i), a, id);
    }
  }

  lemma ByKeepsInv(env: Env, c: Crew, i: WorkerId, a: Step)
    requires Sound(env) && Inv(env, c) && Workers.Possible(env, c, By(i, a)) && !a.Collect? && Fresh(env, c, By(i, a))
    ensures Inv(env, Workers.Next(env, c, By(i, a)))
  {
    var s' := After(env, Seat(c, i), a);
    SeatRetainsInGrace(env, c, i, a);
    StepKeepsVault(env, Seat(c, i), a);
    StepKeepsClock(env, Seat(c, i), a);
    StepCoversExactly(env, c, By(i, a));
    forall id | NeededBy(env, Leave(c, i, s'), id) ensures WithinReach(s'.world, id) {
      StepKeepsNeeds(env, c, i, a, id);
    }
  }

  // ---------------------------------------------------------------- losing touch, giving up, landing late

  lemma LoseTouchKeepsInv(env: Env, c: Crew, i: WorkerId, a: Step)
    requires Sound(env) && Inv(env, c) && Workers.Possible(env, c, LoseTouch(i, a))
    ensures Inv(env, Workers.Next(env, c, LoseTouch(i, a)))
  {
    var c1, c' := Workers.Next(env, c, By(i, a)), Workers.Next(env, c, LoseTouch(i, a));
    ByKeepsInv(env, c, i, a);
    forall id | NeededBy(env, c', id) ensures WithinReach(c'.s.world, id) {
      if Call(id, false) in c'.flying && Call(id, false) !in c.flying {
        assert WorkerHolds(Seat(c, i), id);
        assert WithinReach(c.s.world, id);
      }
    }
  }

  lemma GiveUpKeepsInv(env: Env, c: Crew, p: UploadId, issued: bool)
    requires env.chunking.cfg.Valid() && Inv(env, c)
    requires Workers.Possible(env, c, GiveUp(p, issued)) && Fresh(env, c, GiveUp(p, issued))
    ensures Inv(env, Workers.Next(env, c, GiveUp(p, issued)))
  {
    var c' := Workers.Next(env, c, GiveUp(p, issued));
    StepCoversExactly(env, c, GiveUp(p, issued));
    forall id | NeededBy(env, c', id) ensures WithinReach(c'.s.world, id) {
      if q :| UploaderHolds(env, c'.s, q, id) {
        assert UploaderHolds(env, c.s, q, id);
      } else if i :| i in c'.workers && WorkerHolds(Seat(c', i), id) {
        assert WorkerHolds(Seat(c, i), id);
      } else if Call(id, false) in c'.flying && Call(id, false) !in c.flying {
        assert UploaderHolds(env, c.s, p, id);
      }
    }
  }

  lemma LandKeepsInv(env: Env, c: Crew, call: Call)
    requires Sound(env) && Inv(env, c) && Workers.Possible(env, c, Land(call)) && Fresh(env, c, Land(call))
    ensures Inv(env, Workers.Next(env, c, Land(call)))
  {
    var c' := Workers.Next(env, c, Land(call));
    StepCoversExactly(env, c, Land(call));
    LifecycleCallsAreVaultSteps(env, c.s.world, call.id, c.s.clock);
    assert !call.retire ==> NeededBy(env, c, call.id);
    forall id | NeededBy(env, c', id) ensures WithinReach(c'.s.world, id) {
      LandingAddsNoNeed(env, c, call, id);
      if call.retire {
        RetireKeepsReach(c.s.world, call.id, c.s.clock, id);
      } else {
        RetainClears(c.s.world, call.id, id);
      }
    }
  }

  lemma LandingAddsNoNeed(env: Env, c: Crew, call: Call, id: Hash)
    requires env.chunking.cfg.Valid() && Workers.Possible(env, c, Land(call))
    requires NeededBy(env, Workers.Next(env, c, Land(call)), id)
    ensures NeededBy(env, c, id)
  {
    var c' := Workers.Next(env, c, Land(call));
    if q :| UploaderHolds(env, c'.s, q, id) {
      assert UploaderHolds(env, c.s, q, id);
    } else if i :| i in c'.workers && WorkerHolds(Seat(c', i), id) {
      assert WorkerHolds(Seat(c, i), id);
    }
  }

  // ---------------------------------------------------------------- the collector

  /** Coverage: a retired manifest that is needed is on somebody's list. */
  lemma RetiredNeededIsMinded(env: Env, c: Crew, id: Hash)
    requires Covered(c.s) && NeededBy(env, c, id) && IsRetired(c.s, id)
    ensures MindedBy(env, c, id)
  {
  }

  lemma CollectorAddsNoNeed(env: Env, f: System, m: TS.Move, id: Hash)
    requires env.chunking.cfg.Valid() && MayHappen(env, f, ByCollector(m))
    requires NeededBy(env, Then(env, f, ByCollector(m)).c, id)
    ensures NeededBy(env, f.c, id)
  {
    var c' := Then(env, f, ByCollector(m)).c;
    if q :| UploaderHolds(env, c'.s, q, id) {
      assert UploaderHolds(env, f.c.s, q, id);
    } else if i :| i in c'.workers && WorkerHolds(Seat(c', i), id) {
      assert WorkerHolds(Seat(f.c, i), id);
    }
  }

  lemma CollectorKeepsInv(env: Env, f: System, m: TS.Move)
    requires Sound(env) && Inv(env, f.c) && MayHappen(env, f, ByCollector(m)) && InOrder(env, f, ByCollector(m))
    ensures Inv(env, Then(env, f, ByCollector(m)).c)
  {
    var c' := Then(env, f, ByCollector(m)).c;
    TS.MoveKeepsInvExactly(env, Vaults(f), m);
    assert forall p, k :: Owes(f.c.s, p, k) <==> Owes(c'.s, p, k);
    forall id | NeededBy(env, c', id) ensures WithinReach(c'.s.world, id) {
      CollectorAddsNoNeed(env, f, m, id);
      if IsRetired(f.c.s, id) {
        RetiredNeededIsMinded(env, f.c, id);
      }
    }
  }

  lemma CollectorLosesNoNeed(env: Env, f: System, m: TS.Move, id: Hash)
    requires env.chunking.cfg.Valid() && MayHappen(env, f, ByCollector(m)) && NeededBy(env, f.c, id)
    ensures NeededBy(env, Then(env, f, ByCollector(m)).c, id)
  {
    var c' := Then(env, f, ByCollector(m)).c;
    if q :| UploaderHolds(env, f.c.s, q, id) {
      assert UploaderHolds(env, c'.s, q, id);
    } else if i :| i in f.c.workers && WorkerHolds(Seat(f.c, i), id) {
      assert WorkerHolds(Seat(c', i), id);
    }
  }

  lemma CollectorWasInOrder(env: Env, f: System, m: TS.Move)
    requires Sound(env) && Inv(env, f.c) && MayHappen(env, f, ByCollector(m))
    requires Inv(env, Then(env, f, ByCollector(m)).c)
    ensures InOrder(env, f, ByCollector(m))
  {
    var c' := Then(env, f, ByCollector(m)).c;
    TS.MoveKeepsInvExactly(env, Vaults(f), m);
    if m.Scan? {
      forall id | MindedBy(env, f.c, id) && IsRetired(f.c.s, id)
        ensures VM.Kept(f.c.s.world.s.manifests[id], f.c.s.clock - GRACE)
      {
        CollectorLosesNoNeed(env, f, m, id);
        assert WithinReach(c'.s.world, id);
      }
    }
  }

  // ---------------------------------------------------------------- whole runs

  lemma CrewKeepsInv(env: Env, c: Crew, a: CrewStep)
    requires Sound(env) && Inv(env, c) && Workers.Possible(env, c, a) && (a.By? ==> !a.a.Collect?) && Fresh(env, c, a)
    ensures Inv(env, Workers.Next(env, c, a))
  {
    match a
    case By(i, b) => ByKeepsInv(env, c, i, b);
    case LoseTouch(i, b) => LoseTouchKeepsInv(env, c, i, b);
    case GiveUp(p, issued) => GiveUpKeepsInv(env, c, p, issued);
    case Land(call) => LandKeepsInv(env, c, call);
  }

  /** An act keeps the invariant exactly when it is in order. */
  lemma ActKeepsInvExactly(env: Env, f: System, act: Act)
    requires Sound(env) && Inv(env, f.c) && MayHappen(env, f, act)
    ensures Inv(env, Then(env, f, act).c) <==> InOrder(env, f, act)
  {
    match act
    case ByCollector(m) =>
      if InOrder(env, f, act) {
        CollectorKeepsInv(env, f, m);
      }
      if Inv(env, Then(env, f, act).c) {
        CollectorWasInOrder(env, f, m);
      }
    case ByCrew(a) =>
      StepCoversExactly(env, f.c, a);
      if InOrder(env, f, act) {
        CrewKeepsInv(env, f.c, a);
      }
  }

  /** f' is reached from f by these acts. */
  ghost predicate Runs(env: Env, f: System, acts: seq<Act>, f': System)
    requires env.chunking.cfg.Valid()
    decreases |acts|
  {
    if acts == [] then f' == f
    else MayHappen(env, f, acts[0]) && Runs(env, Then(env, f, acts[0]), acts[1..], f')
  }

  /** Each act was in order when it happened. */
  ghost predicate OrderlyThroughout(env: Env, f: System, acts: seq<Act>)
    requires env.chunking.cfg.Valid()
    decreases |acts|
  {
    acts != [] ==>
      && MayHappen(env, f, acts[0]) && InOrder(env, f, acts[0])
      && OrderlyThroughout(env, Then(env, f, acts[0]), acts[1..])
  }

  ghost predicate SoundThroughout(env: Env, f: System, acts: seq<Act>)
    requires env.chunking.cfg.Valid()
    decreases |acts|
  {
    Inv(env, f.c) &&
      (acts != [] ==> MayHappen(env, f, acts[0]) && SoundThroughout(env, Then(env, f, acts[0]), acts[1..]))
  }

  /** Every state of a run is sound exactly when every act of the run was in order. */
  lemma {:induction false} SoundExactlyWhenOrderly(env: Env, f: System, acts: seq<Act>, f': System)
    requires Sound(env) && Inv(env, f.c) && Runs(env, f, acts, f')
    ensures SoundThroughout(env, f, acts) <==> OrderlyThroughout(env, f, acts)
    ensures OrderlyThroughout(env, f, acts) ==> Inv(env, f'.c)
    decreases |acts|
  {
    if acts != [] {
      ActKeepsInvExactly(env, f, acts[0]);
      if InOrder(env, f, acts[0]) {
        SoundExactlyWhenOrderly(env, Then(env, f, acts[0]), acts[1..], f');
      }
    }
  }

  function Start(clock: Time, staff: set<WorkerId>): System {
    System(Crew(InitialSys(clock), map i | i in staff :: Idle, multiset{}), TS.Resting)
  }

  /**
   * Any number of workers, uploaders that give up, calls that land late, and a collector that
   * shares neither lock nor active set: as long as every act of the run is in order, every
   * manifest with a committed row reads back as the content it was made from.
   */
  lemma CommittedFilesKeepTheirBytes(env: Env, clock: Time, staff: set<WorkerId>, acts: seq<Act>, f: System, id: Hash)
    requires Sound(env) && clock > 0 && Runs(env, Start(clock, staff), acts, f)
    requires OrderlyThroughout(env, Start(clock, staff), acts)
    requires HasReferences(f.c.s.db.rows, id)
    ensures var w := f.c.s.world;
            && id in w.s.manifests && id in w.contents && env.hash(w.contents[id]) == id
            && Present(w.s.files, w.s.manifests[id]) && Intact(env, w.s.files, w.s.manifests[id])
            && Assemble(w.s.files, w.s.manifests[id].chunkHashes) == w.contents[id]
  {
    var start := Start(clock, staff);
    forall k ensures !NeededBy(env, start.c, k) {
      assert forall i | i in start.c.workers :: start.c.workers[i] == Idle;
    }
    SoundExactlyWhenOrderly(env, start, acts, f);
    ReachedBytes(env, f.c.s.world, id);
  }
}
