/** Runs that end with a committed file nobody will ever retain. */
module WorkerRuns {
  import opened Vault
  import opened Metadata
  import opened Retirement
  import RR = RetirementRuns
  import opened Workers

  function Lift(i: WorkerId, steps: seq<Step>): (moves: seq<CrewStep>)
    ensures |moves| == |steps| && forall k | 0 <= k < |steps| :: moves[k] == By(i, steps[k])
  {
    seq(|steps|, k requires 0 <= k < |steps| => By(i, steps[k]))
  }

  /** A run of the system with worker i in the seat is a run of the crew. */
  lemma {:induction false} LiftRun(env: Env, c: Crew, i: WorkerId, steps: seq<Step>, s': Sys)
    requires env.chunking.cfg.Valid() && i in c.workers && c.s.worker == Idle && Run(env, Seat(c, i), steps, s')
    ensures CrewRun(env, c, Lift(i, steps), Leave(c, i, s'))
    decreases |steps|
  {
    if steps == [] {
      assert c.workers[i := c.workers[i]] == c.workers;
    } else {
      var c1 := Leave(c, i, After(env, Seat(c, i), steps[0]));
      assert Seat(c1, i) == After(env, Seat(c, i), steps[0]);
      LiftRun(env, c1, i, steps[1..], s');
      assert Lift(i, steps)[1..] == Lift(i, steps[1..]);
      assert c1.workers[i := s'.worker] == c.workers[i := s'.worker];
    }
  }

  lemma {:induction false} Append(env: Env, c: Crew, xs: seq<CrewStep>, c1: Crew, ys: seq<CrewStep>, c2: Crew)
    requires env.chunking.cfg.Valid() && CrewRun(env, c, xs, c1) && CrewRun(env, c1, ys, c2)
    ensures CrewRun(env, c, xs + ys, c2)
    decreases |xs|
  {
    hide Next, Possible;
    if xs == [] {
      assert xs + ys == ys;
    } else {
      Append(env, Next(env, c, xs[0]), xs[1..], c1, ys, c2);
      assert [xs[0]] + (xs[1..] + ys) == xs + ys;
    }
  }

  lemma OneMore(env: Env, c: Crew, xs: seq<CrewStep>, c1: Crew, a: CrewStep)
    requires env.chunking.cfg.Valid() && CrewRun(env, c, xs, c1) && Possible(env, c1, a)
    ensures CrewRun(env, c, xs + [a], Next(env, c1, a))
  {
    assert CrewRun(env, Next(env, c1, a), [], Next(env, c1, a));
    assert [a][1..] == [];
    Append(env, c, xs, c1, [a], Next(env, c1, a));
  }

  /** Referenced and retired, its request completed, nobody owing a Retain, all hands idle and no call under way. */
  ghost predicate ForgottenBy(c: Crew, id: Hash) {
    RR.Forgotten(c.s, id) && c.flying == multiset{} && forall i | i in c.workers :: c.workers[i] == Idle
  }

  function Crewed(clock: Time, workers: map<WorkerId, Worker>): Crew {
    Crew(InitialSys(clock), workers, multiset{})
  }

  lemma Held(env: Env, workers: map<WorkerId, Worker>) returns (steps: seq<CrewStep>)
    requires Sound(env) && 0 in workers && workers[0] == Idle
    ensures var busy := Busy(RR.TinyId(env), Checked(false), []);
            CrewRun(env, Crewed(100, workers), steps, Crew(RR.DeletedOnce(env), workers[0 := busy], multiset{}))
    ensures forall a | a in steps :: a.By?
  {
    var c := Crewed(100, workers);
    var before := RR.FirstWorkerChecks(env);
    assert Seat(c, 0) == InitialSys(100);
    var s' := RR.DeletedOnce(env).(worker := Busy(RR.TinyId(env), Checked(false), []));
    LiftRun(env, c, 0, before, s');
    steps := Lift(0, before);
    assert Leave(c, 0, s') == Crew(RR.DeletedOnce(env), workers[0 := s'.worker], multiset{});
  }

  /** Worker i, idle, sees the second upload's request through to the end. */
  lemma SeenThrough(env: Env, c: Crew, i: WorkerId) returns (steps: seq<CrewStep>)
    requires Sound(env) && i in c.workers && c.workers[i] == Idle && c.s == RR.DeletedOnce(env)
    ensures CrewRun(env, c, steps, c.(s := RR.Settled(env))) && forall a | a in steps :: a.By?
  {
    var meanwhile := RR.SecondWorkerFinishes(env);
    assert Seat(c, i) == RR.DeletedOnce(env);
    LiftRun(env, c, i, meanwhile, RR.Settled(env));
    steps := Lift(i, meanwhile);
    assert c.workers[i := Idle] == c.workers;
    assert Leave(c, i, RR.Settled(env)) == c.(s := RR.Settled(env));
  }

  lemma RetiredForgotten(env: Env, s: Sys)
    requires var h := RR.TinyId(env); s == RR.Settled(env).(world := RetireIn(RR.TinyWorld(env), h, 100))
    requires Sound(env)
    ensures RR.Forgotten(s, RR.TinyId(env))
  {
    var h := RR.TinyId(env);
    assert Refers(s.db.rows[1], h);
    assert s.world.s.manifests[h].retired;
  }

  /** The first worker wakes up, retires what it checked long ago, and dies. */
  lemma Woken(env: Env, c: Crew) returns (steps: seq<CrewStep>, c': Crew)
    requires Sound(env) && c.s == RR.Settled(env) && 0 in c.workers
    requires c.workers[0] == Busy(RR.TinyId(env), Checked(false), [])
    ensures steps == [By(0, WorkerRetire)] + [By(0, WorkerDies)] && CrewRun(env, c, steps, c')
    ensures c' == c.(s := RR.Settled(env).(world := RetireIn(RR.TinyWorld(env), RR.TinyId(env), 100)),
                     workers := c.workers[0 := Idle])
  {
    var c1 := Next(env, c, By(0, WorkerRetire));
    assert [By(0, WorkerRetire)] == [] + [By(0, WorkerRetire)];
    OneMore(env, c, [], c, By(0, WorkerRetire));
    OneMore(env, c, [By(0, WorkerRetire)], c1, By(0, WorkerDies));
    steps, c' := [By(0, WorkerRetire)] + [By(0, WorkerDies)], Next(env, c1, By(0, WorkerDies));
    assert c'.workers == c.workers[0 := Idle];
  }

  /**
   * Several workers are not safe, whatever the worker's own comment says. The first checks an
   * unreferenced manifest and is held up. Then an upload commits a row for it, requeues the
   * request and retains, and the second worker completes the request. The first one goes on,
   * retires the manifest, and dies before its second look.
   */
  lemma TwoWorkersForgetAFile(env: Env) returns (steps: seq<CrewStep>, c: Crew)
    requires Sound(env)
    ensures CrewRun(env, Crewed(100, map[0 := Idle, 1 := Idle]), steps, c) && ForgottenBy(c, RR.TinyId(env))
    ensures forall a | a in steps :: a.By?
  {
    var workers := map[0 := Idle, 1 := Idle];
    var start := Crewed(100, workers);
    steps := Held(env, workers);
    var held := Crew(RR.DeletedOnce(env), workers[0 := Busy(RR.TinyId(env), Checked(false), [])], multiset{});
    var more := SeenThrough(env, held, 1);
    var settled := held.(s := RR.Settled(env));
    Append(env, start, steps, held, more, settled);
    var last;
    last, c := Woken(env, settled);
    Append(env, start, steps + more, settled, last, c);
    steps := steps + more + last;
    RetiredForgotten(env, c.s);
  }

  /** The only worker dies with its Retire under way and is restarted. */
  lemma DiedRetiring(env: Env) returns (steps: seq<CrewStep>)
    requires Sound(env)
    ensures CrewRun(env, Crewed(100, map[0 := Idle]), steps,
                    Crew(RR.DeletedOnce(env), map[0 := Idle], multiset{Call(RR.TinyId(env), true)}))
  {
    hide CrewRun;
    var workers, busy := map[0 := Idle], Busy(RR.TinyId(env), Checked(false), []);
    var before := Held(env, workers);
    var held := Crew(RR.DeletedOnce(env), workers[0 := busy], multiset{});
    OneMore(env, Crewed(100, workers), before, held, LoseTouch(0, WorkerDies));
    steps := before + [LoseTouch(0, WorkerDies)];
    assert workers[0 := busy][0 := Idle] == workers;
    assert Next(env, held, LoseTouch(0, WorkerDies)) ==
      Crew(RR.DeletedOnce(env), map[0 := Idle], multiset{Call(RR.TinyId(env), true)}) by {
      assert multiset{} + multiset{Call(RR.TinyId(env), true)} == multiset{Call(RR.TinyId(env), true)};
    }
  }

  /**
   * One worker is not enough either when a call can outlive it: the Retire of a worker that died
   * waiting for the Vault lands after the restarted worker has completed the request.
   */
  lemma LateRetireForgetsAFile(env: Env) returns (steps: seq<CrewStep>, c: Crew)
    requires Sound(env)
    ensures CrewRun(env, Crewed(100, map[0 := Idle]), steps, c) && ForgottenBy(c, RR.TinyId(env))
  {
    var late := Call(RR.TinyId(env), true);
    var dead := Crew(RR.DeletedOnce(env), map[0 := Idle], multiset{late});
    var settled := dead.(s := RR.Settled(env));
    steps := DiedRetiring(env);
    var more := SeenThrough(env, dead, 0);
    Append(env, Crewed(100, map[0 := Idle]), steps, dead, more, settled);
    OneMore(env, Crewed(100, map[0 := Idle]), steps + more, settled, Land(late));
    steps, c := steps + more + [Land(late)], Next(env, settled, Land(late));
    RetiredForgotten(env, c.s);
  }

  /** And an uploader that gives up before its own Retain leaves a file that was covered by nothing else. */
  lemma GivingUpForgetsAFile(env: Env) returns (steps: seq<CrewStep>, c: Crew)
    requires Sound(env)
    ensures CrewRun(env, Crewed(100, map[0 := Idle]), steps, c) && ForgottenBy(c, RR.TinyId(env))
  {
    var start := Crewed(100, map[0 := Idle]);
    var run, s := RR.OnlyTheRetainIsLeft(env);
    assert Seat(start, 0) == InitialSys(100);
    LiftRun(env, start, 0, run, s);
    var left := Leave(start, 0, s);
    assert left.s == s;
    OneMore(env, start, Lift(0, run), left, GiveUp("b", false));
    steps, c := Lift(0, run) + [GiveUp("b", false)], Next(env, left, GiveUp("b", false));
    assert c.s == RR.Abandon(s, "b");
  }
}
