/** What a sweep deletes, and what goes wrong when the Store's hypotheses are dropped. */
module VaultSweep {
  import opened FastCdc
  import opened Vault
  import opened VaultMachine
  import opened VaultCounts
  import opened Uploads

  /**
   * In every run the sweep's targets are exactly the recorded chunks that no active manifest
   * and no upload in flight uses and that are past their grace: by the latest retirement when
   * some retired manifest lists the chunk, by the record's age otherwise. The count adds nothing.
   */
  lemma GarbageInEveryRun(env: Env, steps: seq<Step>, w: World, h: Hash, cutoff: Time)
    requires Sound(env) && Run(env, EMPTY, steps, w)
    ensures Garbage(w.s, h, cutoff) <==>
              && h in w.s.records && !Referenced(w.s, h) && !ActiveChunk(w.s, h)
              && RetirementsExpired(w.s, h, cutoff)
              && (InRetired(w.s, h) || w.s.records[h].createdAt < cutoff)
  {
    RunKeepsInv(env, EMPTY, steps, w);
    if h in w.s.records {
      if w.s.records[h].refCount != 0 {
        PositiveCountHasManifest(env, steps, w, h);
      }
    }
  }

  /** Some manifest that is active, or was retired at the cutoff or later, lists the chunk. */
  ghost predicate ListedSince(s: State, h: Hash, cutoff: Time) {
    exists id :: id in s.manifests && h in s.manifests[id].chunkHashes
                 && (s.manifests[id].retired ==> s.manifests[id].retiredAt.Some? && s.manifests[id].retiredAt.value >= cutoff)
  }

  ghost predicate Listed(s: State, h: Hash) {
    exists id :: id in s.manifests && h in s.manifests[id].chunkHashes
  }

  ghost predicate InUse(s: State, h: Hash) {
    exists u :: u in s.active && h in s.active[u]
  }

  lemma ListedMeans(s: State, h: Hash, cutoff: Time)
    requires forall id | id in s.manifests && s.manifests[id].retired :: s.manifests[id].retiredAt.Some?
    ensures ListedSince(s, h, cutoff) <==> Referenced(s, h) || !RetirementsExpired(s, h, cutoff)
    ensures Listed(s, h) <==> Referenced(s, h) || InRetired(s, h)
  {
    if !RetirementsExpired(s, h, cutoff) {
      var id :| id in s.manifests && s.manifests[id].retired && h in s.manifests[id].chunkHashes
                && !RetiredBefore(s.manifests[id], cutoff);
      assert s.manifests[id].retiredAt.value >= cutoff;
    }
    if ListedSince(s, h, cutoff) && !Referenced(s, h) {
      var id :| id in s.manifests && h in s.manifests[id].chunkHashes
                && (s.manifests[id].retired ==> s.manifests[id].retiredAt.Some? && s.manifests[id].retiredAt.value >= cutoff);
      assert !RetiredBefore(s.manifests[id], cutoff);
    }
  }

  lemma RetirementsHaveTimes(env: Env, w: World)
    requires env.chunking.cfg.Valid() && Inv(env, w)
    ensures forall id | id in w.s.manifests && w.s.manifests[id].retired :: w.s.manifests[id].retiredAt.Some?
  {
    forall id | id in w.s.manifests && w.s.manifests[id].retired
      ensures w.s.manifests[id].retiredAt.Some?
    {
      assert ManifestOk(env, id, w.s.manifests[id], w.contents);
    }
  }

  /**
   * What an error-free sweep leaves, in every run. A record stays exactly when a manifest lists
   * it that is active or retired since the cutoff, when an upload in flight uses it, or when no
   * manifest lists it and it was made at the cutoff or later. A file stays exactly when its
   * record does, or when it has none and was listed or used in the same way or written at the
   * cutoff or later.
   */
  lemma SweepLeavesExactly(env: Env, steps: seq<Step>, w: World, cutoff: Time, d: Deletion, h: Hash)
    requires Sound(env) && Run(env, EMPTY, steps, w) && Complete(w.s, cutoff, d)
    ensures h in Sweep(w.s, d).records <==>
              && h in w.s.records
              && (ListedSince(w.s, h, cutoff) || InUse(w.s, h) || (!Listed(w.s, h) && w.s.records[h].createdAt >= cutoff))
    ensures h in Sweep(w.s, d).files <==>
              && h in w.s.files
              && if h in w.s.records then h in Sweep(w.s, d).records
                 else ListedSince(w.s, h, cutoff) || InUse(w.s, h) || w.s.files[h].modTime >= cutoff
  {
    GarbageInEveryRun(env, steps, w, h, cutoff);
    RunKeepsInv(env, EMPTY, steps, w);
    RetirementsHaveTimes(env, w);
    ListedMeans(w.s, h, cutoff);
    assert InUse(w.s, h) <==> ActiveChunk(w.s, h);
  }

  /** Which files without a record an error-free sweep takes, in any database whose retirements have times. */
  lemma StraysGoExactly(s: State, cutoff: Time, d: Deletion, h: Hash)
    requires Complete(s, cutoff, d)
    requires forall id | id in s.manifests && s.manifests[id].retired :: s.manifests[id].retiredAt.Some?
    ensures h in d.straysGone <==>
              && h in s.files && h !in s.records && !ListedSince(s, h, cutoff) && !InUse(s, h)
              && s.files[h].modTime < cutoff
  {
    ListedMeans(s, h, cutoff);
    assert InUse(s, h) <==> ActiveChunk(s, h);
  }

  lemma UnusedMeans(s: State, s1: State, u: UploadId, h: Hash)
    requires s1.manifests == s.manifests && s1.active == s.active - {u}
    requires !Listed(s, h) && !InUse(UnregisterUpload(s, u), h)
    ensures !ActiveChunk(s1, h) && !Referenced(s1, h) && !InRetired(s1, h)
  {
  }

  /** What an upload that fails leaves behind goes with the first sweep whose cutoff is after its time, and no sooner. */
  lemma NewChunkGoesExactlyLater(env: Env, s: State, u: UploadId, parts: seq<Bytes>, now: Time, cutoff: Time, h: Hash)
    requires u in s.active && now != 0 && !Listed(s, h)
    requires !InUse(UnregisterUpload(s, u), h)
    requires h in Hashes(env, parts) && h !in s.records
    ensures Garbage(UnregisterUpload(TouchAll(env, s, u, parts, now), u), h, cutoff) <==> now < cutoff
  {
    hide TouchAll;
    var s1 := UnregisterUpload(TouchAll(env, s, u, parts, now), u);
    NewChunksAreNew(env, s, u, parts, now);
    TouchAllAdds(env, s, u, parts, now);
    assert h in HashSet(env, parts);
    UnusedMeans(s, s1, u, h);
  }

  /** The same for a file whose record was never written. */
  lemma NewFileGoesExactlyLater(s: State, h: Hash, bytes: Bytes, now: Time, cutoff: Time)
    requires h !in s.files && h !in s.records && !Listed(s, h) && !InUse(s, h)
    ensures Stray(WriteIfMissing(s, h, bytes, now), h, cutoff) <==> now < cutoff
  {
    var s1 := WriteIfMissing(s, h, bytes, now);
    assert !ActiveChunk(s1, h) && !Referenced(s1, h) && RetirementsExpired(s1, h, cutoff);
  }

  /** Deleting chunks makes no other chunk deletable. */
  lemma SweepMakesNoGarbage(s: State, cutoff: Time, d: Deletion, h: Hash)
    ensures Garbage(Sweep(s, d), h, cutoff) ==> Garbage(s, h, cutoff) && h !in d.recordsGone
    ensures Stray(Sweep(s, d), h, cutoff) ==>
              h !in d.filesGone && h !in d.straysGone && (h in d.recordsGone || Stray(s, h, cutoff))
  {
    var s' := Sweep(s, d);
    assert Referenced(s, h) <==> Referenced(s', h);
    assert ActiveChunk(s, h) <==> ActiveChunk(s', h);
    assert InRetired(s, h) <==> InRetired(s', h);
    assert RetirementsExpired(s', h, cutoff) <==> RetirementsExpired(s, h, cutoff);
  }

  /** An error-free sweep leaves nothing for a second one with the same cutoff. */
  lemma SecondSweepIsIdle(s: State, cutoff: Time, d: Deletion, again: Deletion)
    requires Complete(s, cutoff, d) && Permitted(Sweep(s, d), cutoff, again)
    ensures again == Deletion({}, {}, {})
  {
    forall h
      ensures h !in again.filesGone && h !in again.straysGone
    {
      SweepMakesNoGarbage(s, cutoff, d, h);
    }
  }

  /**
   * A sweep cut short between a chunk's file and its record: whoever touches that chunk next
   * has the file back before marking the chunk, and cannot commit before marking it.
   */
  lemma TouchRestoresSweptFile(env: Env, w: World, u: UploadId, now: Time)
    requires env.chunking.cfg.Valid() && Inv(env, w) && now > 0 && RunningAt(w, u, Looked(true))
    ensures var up, w1 := w.uploads[u], Apply(env, w, PutFile(u, now));
            && up.todo != []
            && env.hash(up.todo[0]) in Stored(w1.s)
            && env.hash(w1.s.files[env.hash(up.todo[0])].bytes) == env.hash(up.todo[0])
            && w1.uploads[u].phase == Filed(true) && w1.uploads[u].todo == up.todo
  {
    assert PhaseOk(env, w.s.records.Keys, w.s.files.Keys, w.uploads[u]) by {
      assert UploadOk(env, w.s.records.Keys, w.s.files.Keys, w.s.active[u], w.uploads[u]);
    }
  }

  /** Retain out of grace is safe exactly when every chunk of the manifest is still stored. */
  lemma RetainSafeExactlyWhenStored(env: Env, w: World, id: Hash)
    requires env.chunking.cfg.Valid() && Inv(env, w) && id in w.s.manifests
    ensures SetLifecycle(w.s, id, false, 0).Ok?
    ensures var s' := SetLifecycle(w.s, id, false, 0).value;
            KeptStored(s'.manifests, Stored(s'), w.horizon) <==> Within(w.s.manifests[id].chunkHashes, Stored(w.s))
  {
    assert ManifestOk(env, id, w.s.manifests[id], w.contents);
    var s' := SetLifecycle(w.s, id, false, 0).value;
    assert Stored(s') == Stored(w.s);
    assert s'.manifests[id].chunkHashes == w.s.manifests[id].chunkHashes && !s'.manifests[id].retired;
    assert forall k | k in w.s.manifests && k != id :: s'.manifests[k] == w.s.manifests[k];
  }

  // ---------------------------------------------------------------- dropping a hypothesis

  lemma {:induction false} RunSnoc(env: Env, w: World, steps: seq<Step>, w1: World, a: Step)
    requires env.chunking.cfg.Valid() && Run(env, w, steps, w1) && Enabled(w1, a)
    ensures Run(env, w, steps + [a], Apply(env, w1, a))
    decreases |steps|
  {
    if steps == [] {
      assert steps + [a] == [a];
    } else {
      RunSnoc(env, Apply(env, w, steps[0]), steps[1..], w1, a);
      assert (steps + [a])[1..] == steps[1..] + [a];
    }
  }

  const TINY: Bytes := [0]

  lemma TinyIsOneChunk(c: Chunking)
    requires c.cfg.Valid()
    ensures SplitBytes(c, TINY) == [TINY]
  {
    assert TINY[..1] == TINY && TINY[1..] == [];
  }

  function TinyManifest(env: Env): Manifest {
    NewManifest(env, TINY, [env.hash(TINY)], 2)
  }

  function TinyRecord(env: Env, count: nat): ChunkRecord {
    ChunkRecord(env.hash(TINY), 1, count, count > 0, 1)
  }

  /** One byte goes all the way through touchChunk. */
  lemma TinyFiled(env: Env) returns (steps: seq<Step>, w: World)
    requires env.chunking.cfg.Valid()
    ensures Run(env, EMPTY, steps, w) && forall a | a in steps :: !a.Retire? && !a.Retain? && !a.SweepUp?
    ensures w == World(State(map[], map[], map[env.hash(TINY) := ChunkFile(TINY, 1)], map["a" := {}]),
                       map["a" := Upload(TINY, [TINY], [], Filed(false), Running)], map[], 0, {})
  {
    TinyIsOneChunk(env.chunking);
    steps, w := [], EMPTY;
    RunSnoc(env, EMPTY, steps, w, Begin("a", TINY));
    steps, w := steps + [Begin("a", TINY)], Apply(env, w, Begin("a", TINY));
    assert w.uploads == map["a" := Upload(TINY, [TINY], [], Between, Running)];
    RunSnoc(env, EMPTY, steps, w, Look("a"));
    steps, w := steps + [Look("a")], Apply(env, w, Look("a"));
    RunSnoc(env, EMPTY, steps, w, PutFile("a", 1));
    steps, w := steps + [PutFile("a", 1)], Apply(env, w, PutFile("a", 1));
    assert w.uploads == map["a" := Upload(TINY, [TINY], [], Filed(false), Running)];
  }

  lemma TinyTouched(env: Env) returns (steps: seq<Step>, w: World)
    requires env.chunking.cfg.Valid()
    ensures Run(env, EMPTY, steps, w) && forall a | a in steps :: !a.Retire? && !a.Retain? && !a.SweepUp?
    ensures var h := env.hash(TINY);
            w == World(State(map[], map[h := TinyRecord(env, 0)], map[h := ChunkFile(TINY, 1)], map["a" := {h}]),
                       map["a" := Upload(TINY, [], [h], Between, Running)], map[], 0, {})
  {
    steps, w := TinyFiled(env);
    RunSnoc(env, EMPTY, steps, w, PutRecord("a", 1));
    steps, w := steps + [PutRecord("a", 1)], Apply(env, w, PutRecord("a", 1));
    RunSnoc(env, EMPTY, steps, w, Mark("a"));
    steps, w := steps + [Mark("a")], Apply(env, w, Mark("a"));
    assert w.uploads["a"] == Upload(TINY, [], [env.hash(TINY)], Between, Running);
    assert w.s.active["a"] == {env.hash(TINY)};
  }

  /** The byte is committed and its upload about to end. */
  lemma TinyCommitted(env: Env) returns (steps: seq<Step>, w: World)
    requires Sound(env)
    ensures Run(env, EMPTY, steps, w) && forall a | a in steps :: !a.Retire? && !a.Retain? && !a.SweepUp?
    ensures var h := env.hash(TINY);
            w == World(State(map[h := TinyManifest(env)], map[h := TinyRecord(env, 1)],
                             map[h := ChunkFile(TINY, 1)], map["a" := {h}]),
                       map["a" := Upload(TINY, [], [h], Between, Committed)], map[h := TINY], 0, {})
  {
    var h := env.hash(TINY);
    steps, w := TinyTouched(env);
    RunSnoc(env, EMPTY, steps, w, CommitUpload("a", 2));
    steps, w := steps + [CommitUpload("a", 2)], Apply(env, w, CommitUpload("a", 2));
    assert multiset([h])[h] == 1;
    assert w.s.manifests == map[h := TinyManifest(env)];
    assert w.s.records == map[h := TinyRecord(env, 1)];
  }

  /** Its upload is over, and the manifest is retired at time 3. */
  lemma TinyRetired(env: Env) returns (steps: seq<Step>, w: World)
    requires Sound(env)
    ensures Run(env, EMPTY, steps, w) && forall a | a in steps :: !a.SweepUp?
    ensures var h := env.hash(TINY);
            w == World(State(map[h := Retired(TinyManifest(env), 3)], map[h := TinyRecord(env, 1)],
                             map[h := ChunkFile(TINY, 1)], map[]),
                       map[], map[h := TINY], 0, {})
  {
    var h := env.hash(TINY);
    steps, w := TinyCommitted(env);
    RunSnoc(env, EMPTY, steps, w, End("a"));
    steps, w := steps + [End("a")], Apply(env, w, End("a"));
    assert w.s.active == map[] && w.uploads == map[];
    RunSnoc(env, EMPTY, steps, w, Retire(h, 3));
    steps, w := steps + [Retire(h, 3)], Apply(env, w, Retire(h, 3));
  }

  lemma TinyIsGarbage(env: Env, s: State)
    requires var h := env.hash(TINY);
             && s.manifests == map[h := Retired(TinyManifest(env), 3)] && s.records == map[h := TinyRecord(env, 1)]
             && s.active == map[]
    ensures var h := env.hash(TINY); Permitted(s, 10, Deletion({h}, {h}, {}))
  {
    var h := env.hash(TINY);
    var m := s.manifests[h];
    assert m.retired && m.chunkHashes == [h] && RetiredBefore(m, 10);
    assert h in s.manifests && h in m.chunkHashes;
    assert InRetired(s, h);
    assert Garbage(s, h, 10);
  }

  /**
   * Retain has to come in time. After an error-free sweep past the retirement the record and
   * the file are gone, Retain still succeeds, and an active manifest is left without its chunk.
   */
  lemma LateRetainLosesAChunk(env: Env) returns (steps: seq<Step>, w: World)
    requires Sound(env)
    ensures Run(env, EMPTY, steps, w)
    ensures var h := env.hash(TINY);
            && h in w.s.manifests && !InGrace(w, h)
            && SetLifecycle(w.s, h, false, 0).Ok?
            && var s' := SetLifecycle(w.s, h, false, 0).value;
               !s'.manifests[h].retired && s'.manifests[h].chunkHashes == [h] && h !in s'.records && h !in s'.files
  {
    var h := env.hash(TINY);
    steps, w := TinyRetired(env);
    var d := Deletion({h}, {h}, {});
    TinyIsGarbage(env, w.s);
    RunSnoc(env, EMPTY, steps, w, SweepUp(10, d));
    steps, w := steps + [SweepUp(10, d)], Apply(env, w, SweepUp(10, d));
  }
}
