/**
 * Two Stores over one database, as the program builds them: the collector's Store shares neither
 * the lifecycle lock nor the active uploads with the Store that serves uploads.
 */
module TwoStores {
  import opened Vault
  import opened VaultMachine
  import opened VaultSweep

  // ---------------------------------------------------------------- what a deletion may take

  /** The upload is inside touchChunk on h and has seen or written its file. */
  predicate HoldsFile(env: Env, up: Upload, h: Hash) {
    (up.phase.Filed? || up.phase.Recorded?) && up.todo != [] && env.hash(up.todo[0]) == h
  }

  /** The upload is inside touchChunk on h and has seen or written its record. */
  predicate HoldsRecord(env: Env, up: Upload, h: Hash) {
    && (up.phase == Looked(true) || up.phase == Filed(true) || up.phase.Recorded?)
    && up.todo != [] && env.hash(up.todo[0]) == h
  }

  ghost predicate KeptChunk(ms: map<Hash, Manifest>, horizon: Time, h: Hash) {
    exists id :: id in ms && Kept(ms[id], horizon) && h in ms[id].chunkHashes
  }

  /** Nothing that goes is used by a kept manifest or by an upload, marked or in the middle of a touch. */
  ghost predicate Spared(env: Env, w: World, horizon: Time, files: set<Hash>, records: set<Hash>) {
    && (forall h | h in files || h in records :: !ActiveChunk(w.s, h) && !KeptChunk(w.s.manifests, horizon, h))
    && (forall u, h | u in w.uploads && h in files :: !HoldsFile(env, w.uploads[u], h))
    && (forall u, h | u in w.uploads && h in records :: !HoldsRecord(env, w.uploads[u], h))
  }

  function Without(w: World, horizon: Time, files: set<Hash>, records: set<Hash>): World {
    w.(s := w.s.(files := w.s.files - files, records := w.s.records - records), horizon := horizon)
  }

  lemma SparedKeepsInv(env: Env, w: World, horizon: Time, files: set<Hash>, records: set<Hash>)
    requires env.chunking.cfg.Valid() && Inv(env, w) && horizon >= w.horizon && Spared(env, w, horizon, files, records)
    ensures Inv(env, Without(w, horizon, files, records))
  {
    var w' := Without(w, horizon, files, records);
    forall id | id in w.s.manifests && Kept(w.s.manifests[id], horizon)
      ensures Within(w.s.manifests[id].chunkHashes, Stored(w'.s))
    {
      assert Within(w.s.manifests[id].chunkHashes, Stored(w.s));
      assert forall h | h in w.s.manifests[id].chunkHashes :: KeptChunk(w.s.manifests, horizon, h);
    }
    forall u | u in w.s.active
      ensures w.s.active[u] <= Stored(w'.s)
    {
      assert forall h | h in w.s.active[u] :: ActiveChunk(w.s, h);
    }
    forall u | u in w.uploads
      ensures UploadOk(env, w'.s.records.Keys, w'.s.files.Keys, w.s.active[u], w.uploads[u])
    {
      assert UploadOk(env, w.s.records.Keys, w.s.files.Keys, w.s.active[u], w.uploads[u]);
    }
  }

  lemma InvSpares(env: Env, w: World, horizon: Time, files: set<Hash>, records: set<Hash>)
    requires env.chunking.cfg.Valid() && Inv(env, w) && Inv(env, Without(w, horizon, files, records))
    ensures Spared(env, w, horizon, files, records)
  {
    hide ManifestsOk, ChunkIds, Kept;
    var w' := Without(w, horizon, files, records);
    forall h | h in files || h in records
      ensures !ActiveChunk(w.s, h) && !KeptChunk(w.s.manifests, horizon, h)
    {
      assert h !in Stored(w'.s);
      assert forall u | u in w.s.active :: w.s.active[u] <= Stored(w'.s);
      assert forall id | id in w.s.manifests && Kept(w.s.manifests[id], horizon) ::
          Within(w.s.manifests[id].chunkHashes, Stored(w'.s));
    }
    forall u, h | u in w.uploads
      ensures h in files ==> !HoldsFile(env, w.uploads[u], h)
      ensures h in records ==> !HoldsRecord(env, w.uploads[u], h)
    {
      assert UploadOk(env, w'.s.records.Keys, w'.s.files.Keys, w.s.active[u], w.uploads[u]);
    }
  }

  /** Whatever files and records go, at whatever moment: the invariant survives exactly when they are spared. */
  lemma DeletionKeepsInvExactly(env: Env, w: World, horizon: Time, files: set<Hash>, records: set<Hash>)
    requires env.chunking.cfg.Valid() && Inv(env, w) && horizon >= w.horizon
    ensures Inv(env, Without(w, horizon, files, records)) <==> Spared(env, w, horizon, files, records)
  {
    if Spared(env, w, horizon, files, records) {
      SparedKeepsInv(env, w, horizon, files, records);
    } else if Inv(env, Without(w, horizon, files, records)) {
      InvSpares(env, w, horizon, files, records);
    }
  }

  // ---------------------------------------------------------------- a foreign sweep as one deletion

  /** What a collector built on a Store of its own may delete: it sees no upload of the other Store. */
  ghost predicate ForeignPermitted(s: State, cutoff: Time, d: Deletion) {
    Permitted(s.(active := map[]), cutoff, d)
  }

  lemma ForeignSparesKept(s: State, cutoff: Time, horizon: Time, h: Hash)
    requires horizon >= cutoff && !Referenced(s, h) && RetirementsExpired(s, h, cutoff)
    ensures !KeptChunk(s.manifests, horizon, h)
  {
    forall id | id in s.manifests && h in s.manifests[id].chunkHashes
      ensures !Kept(s.manifests[id], horizon)
    {
      assert RetiredBefore(s.manifests[id], cutoff);
    }
  }

  lemma TargetIsExpired(s: State, h: Hash, cutoff: Time)
    requires Garbage(s, h, cutoff) || Stray(s, h, cutoff)
    ensures !Referenced(s, h) && RetirementsExpired(s, h, cutoff)
  {
    if !InRetired(s, h) {
      assert RetirementsExpired(s, h, cutoff);
    }
  }

  /**
   * A foreign sweep is safe exactly when it takes no chunk that an upload of the other Store has
   * marked, no record such an upload has just seen, and no file it has just seen or written.
   */
  lemma ForeignSweepSafeExactly(env: Env, w: World, cutoff: Time, d: Deletion)
    requires env.chunking.cfg.Valid() && Inv(env, w) && ForeignPermitted(w.s, cutoff, d)
    ensures var horizon := if cutoff > w.horizon then cutoff else w.horizon;
            Inv(env, w.(s := Sweep(w.s, d), horizon := horizon)) <==>
              && (forall h | h in d.filesGone || h in d.straysGone :: !ActiveChunk(w.s, h))
              && (forall u, h | u in w.uploads && (h in d.filesGone || h in d.straysGone) :: !HoldsFile(env, w.uploads[u], h))
              && (forall u, h | u in w.uploads && h in d.recordsGone :: !HoldsRecord(env, w.uploads[u], h))
  {
    hide Inv;
    var horizon := if cutoff > w.horizon then cutoff else w.horizon;
    var files, seen := d.filesGone + d.straysGone, w.s.(active := map[]);
    forall h | h in files
      ensures !KeptChunk(w.s.manifests, horizon, h)
    {
      TargetIsExpired(seen, h, cutoff);
      ForeignSparesKept(seen, cutoff, horizon, h);
    }
    assert w.s.files - d.filesGone - d.straysGone == w.s.files - files;
    assert w.(s := Sweep(w.s, d), horizon := horizon) == Without(w, horizon, files, d.recordsGone);
    DeletionKeepsInvExactly(env, w, horizon, files, d.recordsGone);
  }

  // ---------------------------------------------------------------- the program as built

  /** How far the collector has come; snap is the database as its scan saw it, without any upload. */
  datatype Sweeper =
    | Resting
    | Scanned(cutoff: Time, snap: State)
    | Sweeping(cutoff: Time, snap: State, strays: set<Hash>, unfiled: set<Hash>)

  datatype Program = Program(w: World, sweeper: Sweeper)

  /** One step of the serving Store, or one step of the collector; they interleave freely. */
  datatype Move =
    | Own(a: Step)
    | Scan(cutoff: Time)
    | Walk
    | RemoveFile(h: Hash)
    | RemoveRecord(h: Hash)
    | RemoveStray(h: Hash)
    | Rest

  ghost predicate Possible(p: Program, m: Move) {
    match m
    case Own(a) => Enabled(p.w, a) && !a.SweepUp?
    case Scan(_) => p.sweeper.Resting?
    case Walk => p.sweeper.Scanned?
    case RemoveFile(h) => p.sweeper.Sweeping? && Garbage(p.sweeper.snap, h, p.sweeper.cutoff)
    case RemoveRecord(h) => p.sweeper.Sweeping? && h in p.sweeper.unfiled
    case RemoveStray(h) => p.sweeper.Sweeping? && h in p.sweeper.strays
    case Rest => true
  }

  /** deleteChunkMetadata's second look, at the record as it is by then. */
  ghost predicate RecordGoes(p: Program, h: Hash)
    requires p.sweeper.Sweeping?
  {
    h in p.w.s.records ==>
      var r := p.w.s.records[h];
      InRetired(p.sweeper.snap, h) || (r.refCount == 0 && r.createdAt != 0 && r.createdAt < p.sweeper.cutoff)
  }

  /** A record that has come into use, or was made anew, since the scan survives the second look. */
  lemma SecondLookSpares(env: Env, p: Program, h: Hash)
    requires env.chunking.cfg.Valid() && Possible(p, RemoveRecord(h)) && h in p.w.s.records
    requires forall id | id in p.sweeper.snap.manifests && h in p.sweeper.snap.manifests[id].chunkHashes ::
               !p.sweeper.snap.manifests[id].retired
    ensures h in After(env, p, RemoveRecord(h)).w.s.records <==>
              var r := p.w.s.records[h]; r.refCount != 0 || r.createdAt == 0 || r.createdAt >= p.sweeper.cutoff
  {
    assert !InRetired(p.sweeper.snap, h);
  }

  ghost function After(env: Env, p: Program, m: Move): Program
    requires env.chunking.cfg.Valid() && Possible(p, m)
  {
    match m
    case Own(a) => p.(w := Apply(env, p.w, a))
    case Scan(cutoff) =>
      Program(Without(p.w, if cutoff > p.w.horizon then cutoff else p.w.horizon, {}, {}),
              Scanned(cutoff, p.w.s.(active := map[])))
    case Walk =>
      var seen := p.sweeper.snap.(files := p.w.s.files);
      p.(sweeper := Sweeping(p.sweeper.cutoff, p.sweeper.snap,
                             set h | h in p.w.s.files && Stray(seen, h, p.sweeper.cutoff), {}))
    case RemoveFile(h) =>
      Program(Without(p.w, p.w.horizon, {h}, {}), p.sweeper.(unfiled := p.sweeper.unfiled + {h}))
    case RemoveRecord(h) =>
      var rested := p.sweeper.(unfiled := p.sweeper.unfiled - {h});
      if RecordGoes(p, h) then Program(Without(p.w, p.w.horizon, {}, {h}), rested) else p.(sweeper := rested)
    case RemoveStray(h) =>
      Program(Without(p.w, p.w.horizon, {h}, {}), p.sweeper.(strays := p.sweeper.strays - {h}))
    case Rest => p.(sweeper := Resting)
  }

  /** What the collector would have to know: that nobody needs the chunk at the moment it goes. */
  ghost predicate Harmless(env: Env, p: Program, m: Move)
    requires Possible(p, m)
  {
    match m
    case RemoveFile(h) => Spared(env, p.w, p.w.horizon, {h}, {})
    case RemoveStray(h) => Spared(env, p.w, p.w.horizon, {h}, {})
    case RemoveRecord(h) => RecordGoes(p, h) ==> Spared(env, p.w, p.w.horizon, {}, {h})
    case _ => true
  }

  lemma MoveKeepsInvExactly(env: Env, p: Program, m: Move)
    requires Sound(env) && Inv(env, p.w) && Possible(p, m)
    ensures Inv(env, After(env, p, m).w) <==> Harmless(env, p, m)
  {
    match m
    case Own(a) => StepKeepsInv(env, p.w, a);
    case Scan(cutoff) => DeletionKeepsInvExactly(env, p.w, if cutoff > p.w.horizon then cutoff else p.w.horizon, {}, {});
    case RemoveFile(h) => DeletionKeepsInvExactly(env, p.w, p.w.horizon, {h}, {});
    case RemoveRecord(h) => DeletionKeepsInvExactly(env, p.w, p.w.horizon, {}, {h});
    case RemoveStray(h) => DeletionKeepsInvExactly(env, p.w, p.w.horizon, {h}, {});
    case _ =>
  }

  ghost predicate Runs(env: Env, p: Program, moves: seq<Move>, p': Program)
    requires env.chunking.cfg.Valid()
    decreases |moves|
  {
    if moves == [] then p' == p
    else Possible(p, moves[0]) && Runs(env, After(env, p, moves[0]), moves[1..], p')
  }

  /** The invariant holds in every state the run passes through. */
  ghost predicate AlwaysSafe(env: Env, p: Program, moves: seq<Move>)
    requires env.chunking.cfg.Valid()
    decreases |moves|
  {
    Inv(env, p.w) && (moves != [] ==> Possible(p, moves[0]) && AlwaysSafe(env, After(env, p, moves[0]), moves[1..]))
  }

  ghost predicate HarmlessThroughout(env: Env, p: Program, moves: seq<Move>)
    requires env.chunking.cfg.Valid()
    decreases |moves|
  {
    moves != [] ==>
      && Possible(p, moves[0]) && Harmless(env, p, moves[0])
      && HarmlessThroughout(env, After(env, p, moves[0]), moves[1..])
  }

  /**
   * The program with its two Stores keeps every kept manifest and every upload's chunks, in every
   * state of a run, exactly when each single deletion of the run hits a chunk nobody needs.
   */
  lemma {:induction false} SafeExactlyWhenHarmless(env: Env, p: Program, moves: seq<Move>, p': Program)
    requires Sound(env) && Inv(env, p.w) && Runs(env, p, moves, p')
    ensures AlwaysSafe(env, p, moves) <==> HarmlessThroughout(env, p, moves)
    ensures HarmlessThroughout(env, p, moves) ==> Inv(env, p'.w)
    decreases |moves|
  {
    if moves != [] {
      MoveKeepsInvExactly(env, p, moves[0]);
      if Harmless(env, p, moves[0]) {
        SafeExactlyWhenHarmless(env, After(env, p, moves[0]), moves[1..], p');
      }
    }
  }

  // ---------------------------------------------------------------- what the age of a file protects

  /** The files on the collector's list are there, and older than its cutoff. */
  ghost predicate StraysAreOld(p: Program) {
    p.sweeper.Sweeping? ==>
      && (forall h | h in p.sweeper.strays :: h in p.w.s.files && p.w.s.files[h].modTime < p.sweeper.cutoff)
      && (forall h | h in p.sweeper.strays :: h !in p.sweeper.snap.records)
  }

  lemma MoveKeepsStraysOld(env: Env, p: Program, m: Move)
    requires env.chunking.cfg.Valid() && StraysAreOld(p) && Possible(p, m)
    ensures StraysAreOld(After(env, p, m))
  {
    if m.Own? && p.sweeper.Sweeping? {
      forall h | h in p.w.s.files
        ensures h in Apply(env, p.w, m.a).s.files && Apply(env, p.w, m.a).s.files[h] == p.w.s.files[h]
      {
        OwnStepKeepsFile(env, p.w, m.a, h);
      }
    }
  }

  /** The serving Store takes no file away and writes over none. */
  lemma OwnStepKeepsFile(env: Env, w: World, a: Step, h: Hash)
    requires env.chunking.cfg.Valid() && Enabled(w, a) && !a.SweepUp? && h in w.s.files
    ensures h in Apply(env, w, a).s.files && Apply(env, w, a).s.files[h] == w.s.files[h]
  {
  }

  lemma {:induction false} RunKeepsStraysOld(env: Env, p: Program, moves: seq<Move>, p': Program)
    requires env.chunking.cfg.Valid() && StraysAreOld(p) && Runs(env, p, moves, p')
    ensures StraysAreOld(p')
    decreases |moves|
  {
    if moves != [] {
      MoveKeepsStraysOld(env, p, moves[0]);
      RunKeepsStraysOld(env, After(env, p, moves[0]), moves[1..], p');
    }
  }

  /**
   * However the two Stores interleave: a file that goes for want of a record was written before
   * the cutoff. So a file that an upload inside touchChunk wrote at the cutoff or later stays.
   */
  lemma YoungFilesAreNoStrays(env: Env, p: Program, moves: seq<Move>, p': Program, h: Hash)
    requires env.chunking.cfg.Valid() && p.sweeper.Resting? && Runs(env, p, moves, p') && Possible(p', RemoveStray(h))
    ensures h in p'.w.s.files && p'.w.s.files[h].modTime < p'.sweeper.cutoff
  {
    RunKeepsStraysOld(env, p, moves, p');
  }

  /** The walk lists a file exactly when the scan saw no reason to keep it and it is older than the cutoff. */
  lemma WalkListsExactly(env: Env, p: Program, h: Hash)
    requires env.chunking.cfg.Valid() && Possible(p, Walk) && p.sweeper.snap.active == map[]
    requires forall id | id in p.sweeper.snap.manifests && p.sweeper.snap.manifests[id].retired ::
               p.sweeper.snap.manifests[id].retiredAt.Some?
    ensures Possible(After(env, p, Walk), RemoveStray(h)) <==>
              && h in p.w.s.files && p.w.s.files[h].modTime < p.sweeper.cutoff
              && h !in p.sweeper.snap.records && !ListedSince(p.sweeper.snap, h, p.sweeper.cutoff)
  {
    var seen := p.sweeper.snap.(files := p.w.s.files);
    ListedMeans(seen, h, p.sweeper.cutoff);
    assert ListedSince(seen, h, p.sweeper.cutoff) <==> ListedSince(p.sweeper.snap, h, p.sweeper.cutoff);
  }

  // ---------------------------------------------------------------- sweeping while nobody uploads

  /** The collector scans only while no upload is in flight, and nothing else happens until it rests. */
  ghost predicate Quiet(env: Env, p: Program, moves: seq<Move>)
    requires env.chunking.cfg.Valid()
    decreases |moves|
  {
    moves != [] ==>
      && Possible(p, moves[0])
      && (moves[0].Own? ==> p.sweeper.Resting?)
      && (moves[0].Scan? ==> p.w.uploads == map[])
      && Quiet(env, After(env, p, moves[0]), moves[1..])
  }

  /** What the collector's snapshot is still worth in a quiet run. */
  ghost predicate Still(p: Program) {
    !p.sweeper.Resting? ==>
      && p.w.uploads == map[] && p.w.s.active == map[]
      && p.sweeper.snap.active == map[] && p.sweeper.snap.manifests == p.w.s.manifests
      && p.w.horizon >= p.sweeper.cutoff
      && (p.sweeper.Sweeping? ==>
            && (forall h | h in p.sweeper.unfiled :: Garbage(p.sweeper.snap, h, p.sweeper.cutoff))
            && (forall h | h in p.sweeper.strays ::
                  !Referenced(p.sweeper.snap, h) && RetirementsExpired(p.sweeper.snap, h, p.sweeper.cutoff)))
  }

  lemma StillMeansHarmless(env: Env, p: Program, m: Move)
    requires Still(p) && Possible(p, m) && !m.Own?
    ensures Harmless(env, p, m)
  {
    if m.RemoveFile? || m.RemoveRecord? || m.RemoveStray? {
      var snap, cutoff := p.sweeper.snap, p.sweeper.cutoff;
      if !m.RemoveStray? {
        TargetIsExpired(snap, m.h, cutoff);
      }
      ForeignSparesKept(snap, cutoff, p.w.horizon, m.h);
    }
  }

  lemma QuietStaysStill(env: Env, p: Program, m: Move)
    requires env.chunking.cfg.Valid() && Inv(env, p.w) && Still(p) && Possible(p, m)
    requires (m.Own? ==> p.sweeper.Resting?) && (m.Scan? ==> p.w.uploads == map[])
    ensures Still(After(env, p, m))
  {
    if m.Walk? {
      var seen := p.sweeper.snap.(files := p.w.s.files);
      forall h | h in p.w.s.files && Stray(seen, h, p.sweeper.cutoff)
        ensures !Referenced(p.sweeper.snap, h) && RetirementsExpired(p.sweeper.snap, h, p.sweeper.cutoff)
      {
        TargetIsExpired(seen, h, p.sweeper.cutoff);
        assert Referenced(seen, h) <==> Referenced(p.sweeper.snap, h);
        assert RetirementsExpired(seen, h, p.sweeper.cutoff) <==> RetirementsExpired(p.sweeper.snap, h, p.sweeper.cutoff);
      }
    } else if m.Scan? {
      assert p.w.s.active.Keys == p.w.uploads.Keys;
    }
  }

  /** Two Stores are safe as long as the collector works only while no upload does. */
  lemma {:induction false} QuietSweepsAreSafe(env: Env, p: Program, moves: seq<Move>)
    requires Sound(env) && Inv(env, p.w) && Still(p) && Quiet(env, p, moves)
    ensures AlwaysSafe(env, p, moves)
    decreases |moves|
  {
    if moves != [] {
      if !moves[0].Own? {
        StillMeansHarmless(env, p, moves[0]);
      }
      MoveKeepsInvExactly(env, p, moves[0]);
      QuietStaysStill(env, p, moves[0]);
      QuietSweepsAreSafe(env, After(env, p, moves[0]), moves[1..]);
    }
  }

  // ---------------------------------------------------------------- runs that lose a chunk

  const START: Program := Program(EMPTY, Resting)

  lemma {:induction false} Snoc(env: Env, p: Program, moves: seq<Move>, p1: Program, m: Move)
    requires env.chunking.cfg.Valid() && Runs(env, p, moves, p1) && Possible(p1, m)
    ensures Runs(env, p, moves + [m], After(env, p1, m))
    decreases |moves|
  {
    if moves == [] {
      assert moves + [m] == [m];
    } else {
      Snoc(env, After(env, p, moves[0]), moves[1..], p1, m);
      assert (moves + [m])[1..] == moves[1..] + [m];
    }
  }

  function Lift(steps: seq<Step>): (moves: seq<Move>)
    ensures |moves| == |steps| && forall i | 0 <= i < |steps| :: moves[i] == Own(steps[i])
  {
    seq(|steps|, i requires 0 <= i < |steps| => Own(steps[i]))
  }

  /** A run of the serving Store alone. */
  lemma {:induction false} LiftRun(env: Env, w: World, steps: seq<Step>, w': World)
    requires env.chunking.cfg.Valid() && Run(env, w, steps, w') && forall a | a in steps :: !a.SweepUp?
    ensures Runs(env, Program(w, Resting), Lift(steps), Program(w', Resting))
    decreases |steps|
  {
    if steps != [] {
      LiftRun(env, Apply(env, w, steps[0]), steps[1..], w');
      assert Lift(steps)[1..] == Lift(steps[1..]);
    }
  }

  /** An active manifest without record and file for its only chunk. */
  ghost predicate LostItsChunk(w: World, h: Hash) {
    && h in w.s.manifests && !w.s.manifests[h].retired && w.s.manifests[h].chunkHashes == [h]
    && h !in w.s.records && h !in w.s.files
  }

  /** An identical upload has looked the record up and found the file; nothing is marked yet. */
  lemma TinyFound(env: Env) returns (steps: seq<Step>, w: World)
    requires Sound(env)
    ensures Run(env, EMPTY, steps, w) && forall a | a in steps :: !a.SweepUp?
    ensures var h := env.hash(TINY);
            w == World(State(map[h := Retired(TinyManifest(env), 3)], map[h := TinyRecord(env, 1)],
                             map[h := ChunkFile(TINY, 1)], map["b" := {}]),
                       map["b" := Upload(TINY, [TINY], [], Filed(true), Running)], map[h := TINY], 0, {})
  {
    steps, w := TinyRetired(env);
    TinyIsOneChunk(env.chunking);
    RunSnoc(env, EMPTY, steps, w, Begin("b", TINY));
    steps, w := steps + [Begin("b", TINY)], Apply(env, w, Begin("b", TINY));
    assert w.uploads == map["b" := Upload(TINY, [TINY], [], Between, Running)];
    RunSnoc(env, EMPTY, steps, w, Look("b"));
    steps, w := steps + [Look("b")], Apply(env, w, Look("b"));
    RunSnoc(env, EMPTY, steps, w, PutFile("b", 4));
    steps, w := steps + [PutFile("b", 4)], Apply(env, w, PutFile("b", 4));
    assert w.uploads == map["b" := Upload(TINY, [TINY], [], Filed(true), Running)];
  }

  lemma TinyTouchedAgain(env: Env) returns (steps: seq<Step>, w: World)
    requires Sound(env)
    ensures Run(env, EMPTY, steps, w) && forall a | a in steps :: !a.SweepUp?
    ensures var h := env.hash(TINY);
            w == World(State(map[h := Retired(TinyManifest(env), 3)], map[h := TinyRecord(env, 1)],
                             map[h := ChunkFile(TINY, 1)], map["b" := {h}]),
                       map["b" := Upload(TINY, [], [h], Between, Running)], map[h := TINY], 0, {})
  {
    steps, w := TinyFound(env);
    RunSnoc(env, EMPTY, steps, w, Mark("b"));
    steps, w := steps + [Mark("b")], Apply(env, w, Mark("b"));
    assert w.uploads["b"] == Upload(TINY, [], [env.hash(TINY)], Between, Running);
    assert w.s.active["b"] == {env.hash(TINY)};
  }

  /** The collector scans, walks, and takes the byte's file and record. */
  lemma Collected(env: Env, moves: seq<Move>, w: World) returns (more: seq<Move>, p: Program)
    requires Sound(env) && Runs(env, START, moves, Program(w, Resting))
    requires var h := env.hash(TINY);
             && w.s.manifests == map[h := Retired(TinyManifest(env), 3)] && w.s.records == map[h := TinyRecord(env, 1)]
             && w.s.files == map[h := ChunkFile(TINY, 1)] && w.horizon == 0
    ensures Runs(env, START, more, p) && p.sweeper.Sweeping?
    ensures p.w == Without(w, 10, {env.hash(TINY)}, {env.hash(TINY)})
  {
    var h := env.hash(TINY);
    more, p := moves, Program(w, Resting);
    Snoc(env, START, more, p, Scan(10));
    more, p := more + [Scan(10)], After(env, p, Scan(10));
    TinyIsGarbage(env, p.sweeper.snap);
    Snoc(env, START, more, p, Walk);
    more, p := more + [Walk], After(env, p, Walk);
    Snoc(env, START, more, p, RemoveFile(h));
    more, p := more + [RemoveFile(h)], After(env, p, RemoveFile(h));
    Snoc(env, START, more, p, RemoveRecord(h));
    more, p := more + [RemoveRecord(h)], After(env, p, RemoveRecord(h));
  }

  /**
   * The collector's active set is empty. An identical upload has marked the chunk and holds no
   * lock; the chunk goes all the same, and the commit reactivates the manifest without a look.
   */
  lemma TwoStoresLoseAChunk(env: Env) returns (moves: seq<Move>, p: Program)
    requires Sound(env)
    ensures Runs(env, START, moves, p) && LostItsChunk(p.w, env.hash(TINY))
  {
    var steps, w := TinyTouchedAgain(env);
    LiftRun(env, EMPTY, steps, w);
    moves, p := Collected(env, Lift(steps), w);
    Snoc(env, START, moves, p, Own(CommitUpload("b", 5)));
    moves, p := moves + [Own(CommitUpload("b", 5))], After(env, p, Own(CommitUpload("b", 5)));
  }

  /** What is left of the upload: it marks a chunk that is gone, and commits. */
  lemma MarksAndCommits(env: Env, p: Program) returns (more: seq<Move>, p': Program)
    requires Sound(env)
    requires var h := env.hash(TINY);
             && p.w.s == State(map[h := Retired(TinyManifest(env), 3)], map[], map[], map["b" := {}])
             && p.w.uploads == map["b" := Upload(TINY, [TINY], [], Filed(true), Running)]
    ensures Runs(env, p, more, p') && (forall m | m in more :: m.Own?) && LostItsChunk(p'.w, env.hash(TINY))
  {
    hide Run;
    var h := env.hash(TINY);
    more, p' := [], p;
    assert Runs(env, p, more, p');
    hide Runs;
    Snoc(env, p, more, p', Own(Mark("b")));
    more, p' := more + [Own(Mark("b"))], After(env, p', Own(Mark("b")));
    assert p'.w.uploads["b"] == Upload(TINY, [], [h], Between, Running);
    Snoc(env, p, more, p', Own(CommitUpload("b", 5)));
    more, p' := more + [Own(CommitUpload("b", 5))], After(env, p', Own(CommitUpload("b", 5)));
  }

  /**
   * A shared active set alone would not help: the sweep falls inside touchChunk, when no upload
   * has marked anything, and the upload marks and commits a chunk that is gone.
   */
  lemma SweepInsideTouchLosesAChunk(env: Env) returns (moves: seq<Move>, p: Program, more: seq<Move>, p': Program)
    requires Sound(env)
    ensures Runs(env, START, moves, p) && (forall h :: !ActiveChunk(p.w.s, h)) && env.hash(TINY) !in p.w.s.files
    ensures Runs(env, p, more, p') && (forall m | m in more :: m.Own?) && LostItsChunk(p'.w, env.hash(TINY))
  {
    hide Run, Possible, Garbage, Stray;
    var h := env.hash(TINY);
    var steps, w := TinyFound(env);
    LiftRun(env, EMPTY, steps, w);
    moves, p := Collected(env, Lift(steps), w);
    assert p.w.s == State(map[h := Retired(TinyManifest(env), 3)], map[], map[], map["b" := {}]);
    more, p' := MarksAndCommits(env, p);
  }
}
