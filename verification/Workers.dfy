/**
 * The retirement system without its hypotheses: several workers, uploaders that give up, and
 * Vault calls that take effect after whoever made them has gone.
 */
module Workers {
  import opened Vault
  import opened Metadata
  import opened Retirement
  import RR = RetirementRuns

  type WorkerId = nat

  /** A Vault call still on its way. */
  datatype Call = Call(id: Hash, retire: bool)

  /** The system, whose own worker seat stays empty, with its workers and the calls that outlived their callers. */
  datatype Crew = Crew(s: Sys, workers: map<WorkerId, Worker>, flying: multiset<Call>)

  datatype CrewStep =
    | By(i: WorkerId, a: Step)
    | LoseTouch(i: WorkerId, a: Step)
    | GiveUp(p: UploadId, issued: bool)
    | Land(call: Call)

  /** The system as worker i sees it. */
  function Seat(c: Crew, i: WorkerId): Sys
    requires i in c.workers
  {
    c.s.(worker := c.workers[i])
  }

  function Leave(c: Crew, i: WorkerId, s: Sys): Crew {
    c.(s := s.(worker := Idle), workers := c.workers[i := s.worker])
  }

  /** The call the worker is about to make, or has made without an answer yet. */
  function CallOf(w: Worker): Call
    requires w.Busy?
  {
    Call(w.item, w.phase == Checked(false))
  }

  ghost predicate Possible(env: Env, c: Crew, a: CrewStep)
    requires env.chunking.cfg.Valid()
  {
    match a
    case By(i, a) => i in c.workers && Enabled(env, Seat(c, i), a)
    case LoseTouch(i, a) =>
      && i in c.workers && c.workers[i].Busy?
      && (c.workers[i].phase.Checked? || c.workers[i].phase == Rechecked(true))
      && (a == WorkerDies || a.ItemFails?)
    case GiveUp(p, _) => p in c.s.uploaders && (c.s.uploaders[p].Marked? || c.s.uploaders[p].Requeued?)
    case Land(call) => call in c.flying
  }

  ghost function Next(env: Env, c: Crew, a: CrewStep): Crew
    requires env.chunking.cfg.Valid() && Possible(env, c, a)
  {
    match a
    case By(i, a) => Leave(c, i, After(env, Seat(c, i), a))
    case LoseTouch(i, a) => Leave(c, i, After(env, Seat(c, i), a)).(flying := c.flying + multiset{CallOf(c.workers[i])})
    case GiveUp(p, issued) =>
      c.(s := RR.Abandon(c.s, p), flying := if issued then c.flying + multiset{Call(c.s.uploaders[p].id, false)} else c.flying)
    case Land(call) =>
      c.(s := c.s.(world := if call.retire then RetireIn(c.s.world, call.id, c.s.clock) else RetainIn(c.s.world, call.id)),
         flying := c.flying - multiset{call})
  }

  // ---------------------------------------------------------------- exactly which steps break coverage

  /** Retiring id is in order: nobody refers to it, or somebody will look at it again. */
  ghost predicate MayRetire(s: Sys, id: Hash) {
    HasReferences(s.db.rows, id) ==> IsQueued(s.db, id) || Owed(s, id)
  }

  /** Completing id's request is in order: no retired manifest with a reference is left to it. */
  ghost predicate MayComplete(s: Sys, id: Hash) {
    HasReferences(s.db.rows, id) && IsRetired(s, id) ==> Owed(s, id)
  }

  /** The uploader may go: its manifest needs no Retain, or somebody else will see to it. */
  ghost predicate MayGiveUp(s: Sys, p: UploadId, id: Hash) {
    HasReferences(s.db.rows, id) && IsRetired(s, id) ==> IsQueued(s.db, id) || exists q :: Owes(s, q, id) && q != p
  }

  ghost predicate Fresh(env: Env, c: Crew, a: CrewStep)
    requires env.chunking.cfg.Valid() && Possible(env, c, a)
  {
    match a
    case By(i, WorkerRetire) => MayRetire(c.s, c.workers[i].item)
    case By(i, Finish) => MayComplete(c.s, c.workers[i].item)
    case By(_, _) => true
    case LoseTouch(_, _) => true
    case GiveUp(p, _) => MayGiveUp(c.s, p, c.s.uploaders[p].id)
    case Land(call) => call.retire && call.id in c.s.world.s.manifests ==> MayRetire(c.s, call.id)
  }

  lemma RetireCoversExactly(s: Sys, id: Hash, now: Time)
    requires Covered(s) && AllValid(s.world.s.manifests) && id in s.world.s.manifests && now > 0
    ensures Covered(s.(world := RetireIn(s.world, id, now))) <==> MayRetire(s, id)
  {
    var s' := s.(world := RetireIn(s.world, id, now));
    assert forall p, k :: Owes(s, p, k) <==> Owes(s', p, k);
    assert forall k :: IsRetired(s', k) <==> IsRetired(s, k) || k == id;
  }

  lemma RetainCovers(s: Sys, id: Hash)
    requires Covered(s)
    ensures Covered(s.(world := RetainIn(s.world, id)))
  {
    var s' := s.(world := RetainIn(s.world, id));
    assert forall p, k :: Owes(s, p, k) <==> Owes(s', p, k);
    forall k ensures IsRetired(s', k) ==> IsRetired(s, k) {
      RetainClears(s.world, id, k);
    }
  }

  lemma CompletionCoversExactly(s: Sys, id: Hash)
    requires Covered(s)
    ensures Covered(s.(db := MarkCompleted(s.db, id))) <==> MayComplete(s, id)
  {
    var s' := s.(db := MarkCompleted(s.db, id));
    assert forall p, k :: Owes(s, p, k) <==> Owes(s', p, k);
  }

  lemma GiveUpCoversExactly(s: Sys, p: UploadId, id: Hash)
    requires Covered(s) && Owes(s, p, id)
    ensures Covered(RR.Abandon(s, p)) <==> MayGiveUp(s, p, id)
  {
    var s' := RR.Abandon(s, p);
    forall k
      ensures Owed(s', k) <==> exists q :: Owes(s, q, k) && q != p
    {
      if q :| Owes(s, q, k) && q != p {
        assert Owes(s', q, k);
      }
      if q :| Owes(s', q, k) {
        assert Owes(s, q, k) && q != p;
      }
    }
    assert forall k | k != id :: Owed(s, k) ==> Owed(s', k);
    assert forall k :: HasReferences(s'.db.rows, k) == HasReferences(s.db.rows, k) && IsRetired(s', k) == IsRetired(s, k);
  }

  predicate OfWorker(a: Step) {
    a.Claim? || a.Check? || a.WorkerRetain? || a.WorkerRetire? || a.Recheck? || a.Finish? || a.ItemFails? || a.WorkerDies?
  }

  /** Coverage does not depend on who sits in the worker's seat. */
  lemma SeatIsIrrelevant(s: Sys, w: Worker)
    ensures Covered(s) <==> Covered(s.(worker := w))
  {
    var s' := s.(worker := w);
    assert forall p, k :: Owes(s, p, k) <==> Owes(s', p, k);
  }

  lemma OthersCover(env: Env, s: Sys, a: Step)
    requires env.chunking.cfg.Valid() && Covered(s) && AllValid(s.world.s.manifests) && Enabled(env, s, a)
    requires !a.WorkerRetire? && !a.Finish?
    ensures Covered(After(env, s, a))
  {
    if !OfWorker(a) {
      var idle := s.(worker := Idle);
      SeatIsIrrelevant(s, Idle);
      StepKeepsCover(env, idle, a);
      assert After(env, s, a) == After(env, idle, a).(worker := s.worker);
      SeatIsIrrelevant(After(env, idle, a), s.worker);
    } else if a.WorkerRetain? {
      RetainCovers(s, s.worker.item);
      SeatIsIrrelevant(s.(world := RetainIn(s.world, s.worker.item)), After(env, s, a).worker);
    } else {
      var s' := After(env, s, a);
      assert forall p, k :: Owes(s, p, k) <==> Owes(s', p, k);
      assert forall k :: IsQueued(s.db, k) ==> IsQueued(s'.db, k);
    }
  }

  lemma ByCoversExactly(env: Env, s: Sys, a: Step)
    requires env.chunking.cfg.Valid() && Covered(s) && AllValid(s.world.s.manifests) && s.clock > 0 && Enabled(env, s, a)
    ensures Covered(After(env, s, a)) <==>
            && (a.WorkerRetire? ==> MayRetire(s, s.worker.item))
            && (a.Finish? ==> MayComplete(s, s.worker.item))
  {
    if a.WorkerRetire? {
      RetireCoversExactly(s, s.worker.item, s.clock);
      SeatIsIrrelevant(s.(world := RetireIn(s.world, s.worker.item, s.clock)), After(env, s, a).worker);
    } else if a.Finish? {
      CompletionCoversExactly(s, s.worker.item);
      SeatIsIrrelevant(s.(db := MarkCompleted(s.db, s.worker.item)), After(env, s, a).worker);
    } else {
      OthersCover(env, s, a);
    }
  }

  lemma SameNeeds(s: Sys, w: Worker, id: Hash)
    ensures MayRetire(s, id) <==> MayRetire(s.(worker := w), id)
    ensures MayComplete(s, id) <==> MayComplete(s.(worker := w), id)
  {
    var s' := s.(worker := w);
    assert forall p, k :: Owes(s, p, k) <==> Owes(s', p, k);
  }

  /** One step with any number of workers keeps coverage exactly when it is fresh. */
  lemma StepCoversExactly(env: Env, c: Crew, a: CrewStep)
    requires env.chunking.cfg.Valid() && Covered(c.s) && AllValid(c.s.world.s.manifests) && c.s.clock > 0
    requires Possible(env, c, a)
    ensures Covered(Next(env, c, a).s) <==> Fresh(env, c, a)
  {
    match a
    case By(i, b) =>
      SeatIsIrrelevant(c.s, c.workers[i]);
      ByCoversExactly(env, Seat(c, i), b);
      SeatIsIrrelevant(After(env, Seat(c, i), b), Idle);
      if b.WorkerRetire? || b.Finish? {
        SameNeeds(c.s, c.workers[i], c.workers[i].item);
      }
    case LoseTouch(i, b) =>
      SeatIsIrrelevant(c.s, c.workers[i]);
      OthersCover(env, Seat(c, i), b);
      SeatIsIrrelevant(After(env, Seat(c, i), b), Idle);
    case GiveUp(p, _) =>
      assert Owes(c.s, p, c.s.uploaders[p].id);
      GiveUpCoversExactly(c.s, p, c.s.uploaders[p].id);
    case Land(call) =>
      if !call.retire {
        RetainCovers(c.s, call.id);
      } else if call.id in c.s.world.s.manifests {
        RetireCoversExactly(c.s, call.id, c.s.clock);
      }
  }

  lemma StepStaysValid(env: Env, c: Crew, a: CrewStep)
    requires env.chunking.cfg.Valid() && AllValid(c.s.world.s.manifests) && c.s.clock > 0 && Possible(env, c, a)
    ensures AllValid(Next(env, c, a).s.world.s.manifests) && Next(env, c, a).s.clock > 0
  {
    match a
    case By(i, b) => StepKeepsValid(env, Seat(c, i), b);
    case LoseTouch(i, b) => StepKeepsValid(env, Seat(c, i), b);
    case GiveUp(_, _) =>
    case Land(call) => LifecycleKeepsValid(c.s.world, call.id, c.s.clock);
  }

  ghost predicate CrewRun(env: Env, c: Crew, steps: seq<CrewStep>, c': Crew)
    requires env.chunking.cfg.Valid()
    decreases |steps|
  {
    if steps == [] then c' == c
    else Possible(env, c, steps[0]) && CrewRun(env, Next(env, c, steps[0]), steps[1..], c')
  }

  ghost predicate CoveredThroughout(env: Env, c: Crew, steps: seq<CrewStep>)
    requires env.chunking.cfg.Valid()
    decreases |steps|
  {
    Covered(c.s) &&
      (steps != [] ==> Possible(env, c, steps[0]) && CoveredThroughout(env, Next(env, c, steps[0]), steps[1..]))
  }

  ghost predicate FreshThroughout(env: Env, c: Crew, steps: seq<CrewStep>)
    requires env.chunking.cfg.Valid()
    decreases |steps|
  {
    steps != [] ==>
      Possible(env, c, steps[0]) && Fresh(env, c, steps[0]) && FreshThroughout(env, Next(env, c, steps[0]), steps[1..])
  }

  /**
   * With several workers, uploaders that give up and calls that land late, a run keeps every
   * retired manifest with a committed row on somebody's list exactly when each retire, each
   * completion, each giving up and each late retire of the run was still in order when it happened.
   */
  lemma {:induction false} CoveredExactlyWhenFresh(env: Env, c: Crew, steps: seq<CrewStep>, c': Crew)
    requires env.chunking.cfg.Valid() && Covered(c.s) && AllValid(c.s.world.s.manifests) && c.s.clock > 0
    requires CrewRun(env, c, steps, c')
    ensures CoveredThroughout(env, c, steps) <==> FreshThroughout(env, c, steps)
    ensures FreshThroughout(env, c, steps) ==> Covered(c'.s)
    decreases |steps|
  {
    if steps != [] {
      StepCoversExactly(env, c, steps[0]);
      StepStaysValid(env, c, steps[0]);
      if Fresh(env, c, steps[0]) {
        CoveredExactlyWhenFresh(env, Next(env, c, steps[0]), steps[1..], c');
      }
    }
  }

  /** What the requeue is for: once it has reached a request, the uploader's own Retain is no longer needed. */
  lemma RequeueMakesGivingUpFresh(env: Env, c: Crew, i: WorkerId, p: UploadId, issued: bool)
    requires env.chunking.cfg.Valid() && Possible(env, c, By(i, RequeueRow(p, true))) && c.s.uploaders[p].id in c.s.db.outbox
    ensures var c' := Next(env, c, By(i, RequeueRow(p, true)));
            Possible(env, c', GiveUp(p, issued)) && Fresh(env, c', GiveUp(p, issued))
  {
  }

  // ---------------------------------------------------------------- workers that never share an item

  function Items(w: Worker): set<Hash> {
    if w.Idle? then {} else {w.item} + set id | id in w.rest
  }

  ghost predicate Apart(workers: map<WorkerId, Worker>) {
    forall i, j | i in workers && j in workers && i != j :: Items(workers[i]) !! Items(workers[j])
  }

  ghost predicate CrewOk(c: Crew) {
    && Covered(c.s) && AllValid(c.s.world.s.manifests) && c.s.clock > 0
    && Apart(c.workers) && forall i | i in c.workers :: WorkerOk(Seat(c, i))
  }

  /** Nobody gives up, no call lands late, and a claim takes nothing another worker still has. */
  ghost predicate Exclusive(env: Env, c: Crew, a: CrewStep)
    requires env.chunking.cfg.Valid() && Possible(env, c, a)
  {
    a.By? && (a.a.Claim? ==> forall j | j in c.workers && j != a.i :: Items(c.workers[j]) !! set id | id in a.a.items)
  }

  /** A worker's step leaves what another one, busy with other items, knows about its own. */
  lemma OthersKeepTheirPlace(env: Env, s: Sys, a: Step, w: Worker)
    requires env.chunking.cfg.Valid() && Enabled(env, s, a) && OfWorker(a) && AllValid(s.world.s.manifests)
    requires WorkerOk(s.(worker := w)) && (s.worker.Busy? ==> s.worker.item !in Items(w))
    ensures WorkerOk(After(env, s, a).(worker := w))
  {
    var t, t' := s.(worker := w), After(env, s, a).(worker := w);
    assert forall p, k :: Owes(t, p, k) <==> Owes(t', p, k);
    if w.Busy? {
      var all := [w.item] + w.rest;
      forall i | 0 <= i < |all| ensures IsQueued(t'.db, all[i]) {
        assert IsQueued(t.db, all[i]) && all[i] in Items(w);
      }
      forall k | k == w.item ensures IsRetired(t', k) ==> IsRetired(t, k) {
        if a.WorkerRetain? {
          RetainClears(s.world, s.worker.item, k);
        }
      }
    }
  }

  lemma ExclusiveKeepsPlaces(env: Env, c: Crew, i: WorkerId, a: Step, j: WorkerId)
    requires env.chunking.cfg.Valid() && CrewOk(c) && Possible(env, c, By(i, a)) && j in c.workers && j != i
    ensures WorkerOk(After(env, Seat(c, i), a).(worker := c.workers[j]))
  {
    assert WorkerOk(Seat(c, j));
    if OfWorker(a) {
      OthersKeepTheirPlace(env, Seat(c, i), a, c.workers[j]);
    } else {
      SeatIsIrrelevant(c.s, c.workers[j]);
      StepKeepsCover(env, Seat(c, j), a);
      assert After(env, Seat(c, i), a).(worker := c.workers[j]) == After(env, Seat(c, j), a);
    }
  }

  lemma ExclusiveKeepsApart(env: Env, c: Crew, i: WorkerId, a: Step)
    requires env.chunking.cfg.Valid() && Apart(c.workers) && Possible(env, c, By(i, a)) && Exclusive(env, c, By(i, a))
    ensures Apart(Next(env, c, By(i, a)).workers)
  {
  }

  lemma ExclusiveKeepsCrewOk(env: Env, c: Crew, i: WorkerId, a: Step)
    requires env.chunking.cfg.Valid() && CrewOk(c) && Possible(env, c, By(i, a)) && Exclusive(env, c, By(i, a))
    ensures CrewOk(Next(env, c, By(i, a)))
  {
    var c' := Next(env, c, By(i, a));
    SeatIsIrrelevant(c.s, c.workers[i]);
    StepKeepsCover(env, Seat(c, i), a);
    SeatIsIrrelevant(After(env, Seat(c, i), a), Idle);
    StepStaysValid(env, c, By(i, a));
    ExclusiveKeepsApart(env, c, i, a);
    forall j | j in c'.workers ensures WorkerOk(Seat(c', j)) {
      if j != i {
        ExclusiveKeepsPlaces(env, c, i, a, j);
        assert Seat(c', j) == After(env, Seat(c, i), a).(worker := c.workers[j]);
      } else {
        assert Seat(c', i) == After(env, Seat(c, i), a);
      }
    }
  }

  ghost predicate ExclusiveThroughout(env: Env, c: Crew, steps: seq<CrewStep>)
    requires env.chunking.cfg.Valid()
    decreases |steps|
  {
    steps != [] ==>
      && Possible(env, c, steps[0]) && Exclusive(env, c, steps[0])
      && ExclusiveThroughout(env, Next(env, c, steps[0]), steps[1..])
  }

  /** Any number of workers is safe as long as no two of them ever have the same item in hand. */
  lemma {:induction false} ExclusiveWorkersKeepCover(env: Env, c: Crew, steps: seq<CrewStep>, c': Crew)
    requires env.chunking.cfg.Valid() && CrewOk(c)
    requires CrewRun(env, c, steps, c') && ExclusiveThroughout(env, c, steps)
    ensures CrewOk(c')
    decreases |steps|
  {
    if steps != [] {
      ExclusiveKeepsCrewOk(env, c, steps[0].i, steps[0].a);
      ExclusiveWorkersKeepCover(env, Next(env, c, steps[0]), steps[1..], c');
    }
  }
}
