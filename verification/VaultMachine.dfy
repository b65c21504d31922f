/**
 * One Store under concurrency. Everything done while holding the lifecycle read lock is cut
 * into the steps between which other holders may run; a sweep needs the lock exclusively.
 */
module VaultMachine {
  import opened FastCdc
  import opened Vault

  /** Where an upload stands inside touchChunk; every phase but Between holds the read lock. */
  datatype Phase = Between | Looked(found: bool) | Filed(found: bool) | Recorded

  datatype Stage = Running | Committed | Failed

  datatype Upload = Upload(content: Bytes, todo: seq<Bytes>, touched: seq<Hash>, phase: Phase, stage: Stage)

  /**
   * The state together with its history: contents remembers which file each manifest came
   * from, horizon is the largest cutoff any sweep has used, swept the chunks whose record a
   * sweep has deleted at least once.
   */
  datatype World = World(
    s: State, uploads: map<UploadId, Upload>, contents: map<Hash, Bytes>, horizon: Time, swept: set<Hash>)

  datatype Step =
    | Begin(u: UploadId, content: Bytes)
    | Look(u: UploadId)
    | PutFile(u: UploadId, now: Time)
    | PutRecord(u: UploadId, now: Time)
    | Mark(u: UploadId)
    | CommitUpload(u: UploadId, now: Time)
    | Fail(u: UploadId)
    | End(u: UploadId)
    | Crash
    | Retire(id: Hash, now: Time)
    | Retain(id: Hash)
    | SweepUp(cutoff: Time, d: Deletion)

  const EMPTY: World := World(State(map[], map[], map[], map[]), map[], map[], 0, {})

  function NewManifest(env: Env, content: Bytes, touched: seq<Hash>, now: Time): Manifest {
    Manifest(env.hash(content), env.hash(content), touched, |content|, |touched|, now, true, false, None)
  }

  ghost predicate RunningAt(w: World, u: UploadId, phase: Phase) {
    u in w.uploads && w.uploads[u].stage == Running && w.uploads[u].phase == phase
  }

  ghost predicate LockFree(w: World) {
    forall u | u in w.uploads :: w.uploads[u].phase == Between
  }

  /** Retain does not look at the chunks, so its callers must come before any sweep that could take them. */
  ghost predicate InGrace(w: World, id: Hash) {
    id in w.s.manifests ==> Kept(w.s.manifests[id], w.horizon)
  }

  ghost predicate Enabled(w: World, a: Step) {
    match a
    case Begin(u, _) => u !in w.uploads
    case Look(u) => RunningAt(w, u, Between) && w.uploads[u].todo != []
    case PutFile(u, now) => now > 0 && (RunningAt(w, u, Looked(true)) || RunningAt(w, u, Looked(false)))
    case PutRecord(u, now) => now > 0 && RunningAt(w, u, Filed(false))
    case Mark(u) => RunningAt(w, u, Filed(true)) || RunningAt(w, u, Recorded)
    case CommitUpload(u, now) => now > 0 && RunningAt(w, u, Between) && w.uploads[u].todo == []
    case Fail(u) => u in w.uploads && w.uploads[u].stage == Running
    case End(u) => u in w.uploads && w.uploads[u].stage != Running
    case Crash => true
    case Retire(_, now) => now > 0
    case Retain(id) => InGrace(w, id)
    case SweepUp(cutoff, d) => LockFree(w) && Permitted(w.s, cutoff, d)
  }

  ghost function Apply(env: Env, w: World, a: Step): World
    requires env.chunking.cfg.Valid() && Enabled(w, a)
  {
    match a
    case Begin(u, content) =>
      w.(s := RegisterUpload(w.s, u),
         uploads := w.uploads[u := Upload(content, SplitBytes(env.chunking, content), [], Between, Running)])
    case Look(u) =>
      var up := w.uploads[u];
      w.(uploads := w.uploads[u := up.(phase := Looked(env.hash(up.todo[0]) in w.s.records))])
    case PutFile(u, now) =>
      var up := w.uploads[u];
      if up.todo == [] then w
      else w.(s := WriteIfMissing(w.s, env.hash(up.todo[0]), up.todo[0], now),
              uploads := w.uploads[u := up.(phase := Filed(up.phase.found))])
    case PutRecord(u, now) =>
      var up := w.uploads[u];
      if up.todo == [] then w
      else w.(s := RecordIfMissing(w.s, env.hash(up.todo[0]), |up.todo[0]|, now),
              uploads := w.uploads[u := up.(phase := Recorded)])
    case Mark(u) =>
      var up := w.uploads[u];
      if up.todo == [] then w
      else
        var h := env.hash(up.todo[0]);
        w.(s := MarkActive(w.s, u, h),
           uploads := w.uploads[u := up.(todo := up.todo[1..], touched := up.touched + [h], phase := Between)])
    case CommitUpload(u, now) =>
      var up := w.uploads[u];
      var m := NewManifest(env, up.content, up.touched, now);
      var r := Commit(w.s, m);
      if up.content == [] || r.Err? then w.(uploads := w.uploads[u := up.(stage := Failed)])
      else w.(s := r.value, uploads := w.uploads[u := up.(stage := Committed)],
              contents := w.contents[m.manifestId := up.content])
    case Fail(u) =>
      w.(uploads := w.uploads[u := w.uploads[u].(phase := Between, stage := Failed)])
    case End(u) =>
      w.(s := UnregisterUpload(w.s, u), uploads := w.uploads - {u})
    case Crash =>
      w.(s := w.s.(active := map[]), uploads := map[])
    case Retire(id, now) =>
      var r := SetLifecycle(w.s, id, true, now);
      if r.Ok? then w.(s := r.value) else w
    case Retain(id) =>
      var r := SetLifecycle(w.s, id, false, 0);
      if r.Ok? then w.(s := r.value) else w
    case SweepUp(cutoff, d) =>
      w.(s := Sweep(w.s, d), horizon := if cutoff > w.horizon then cutoff else w.horizon,
         swept := w.swept + d.recordsGone)
  }

  // ---------------------------------------------------------------- the invariant

  ghost predicate ManifestsOk(env: Env, ms: map<Hash, Manifest>, contents: map<Hash, Bytes>)
    requires env.chunking.cfg.Valid()
  {
    forall id | id in ms :: ManifestOk(env, id, ms[id], contents)
  }

  ghost predicate ManifestOk(env: Env, id: Hash, m: Manifest, contents: map<Hash, Bytes>)
    requires env.chunking.cfg.Valid()
  {
    && ValidManifest(m) && m.manifestId == id
    && id in contents && env.hash(contents[id]) == id
    && m.chunkHashes == ChunkIds(env, contents[id])
    && m.totalSize == |contents[id]|
  }

  predicate Kept(m: Manifest, horizon: Time) {
    !m.retired || (m.retiredAt.Some? && m.retiredAt.value >= horizon)
  }

  /** Chunks with both a record and a file. */
  function Stored(s: State): set<Hash> {
    s.records.Keys * s.files.Keys
  }

  ghost predicate Within(hs: seq<Hash>, stored: set<Hash>) {
    forall h | h in hs :: h in stored
  }

  ghost predicate KeptStored(ms: map<Hash, Manifest>, stored: set<Hash>, horizon: Time) {
    forall id | id in ms && Kept(ms[id], horizon) :: Within(ms[id].chunkHashes, stored)
  }

  ghost predicate ActiveStored(active: map<UploadId, set<Hash>>, stored: set<Hash>) {
    forall u | u in active :: active[u] <= stored
  }

  ghost predicate RecordsOk(records: map<Hash, ChunkRecord>) {
    forall h | h in records :: records[h].chunkHash == h && records[h].createdAt > 0
  }

  ghost predicate FilesOk(env: Env, files: map<Hash, ChunkFile>) {
    forall h | h in files :: env.hash(files[h].bytes) == h
  }

  /** The chunk being touched has what the phase says it has. */
  ghost predicate PhaseOk(env: Env, recorded: set<Hash>, filed: set<Hash>, up: Upload) {
    up.phase != Between ==>
      && up.todo != [] && up.stage == Running
      && var h := env.hash(up.todo[0]);
         match up.phase
         case Between => true
         case Looked(found) => found ==> h in recorded
         case Filed(found) => h in filed && (found ==> h in recorded)
         case Recorded => h in filed && h in recorded
  }

  ghost predicate UploadOk(env: Env, recorded: set<Hash>, filed: set<Hash>, mine: set<Hash>, up: Upload)
    requires env.chunking.cfg.Valid()
  {
    && ChunkIds(env, up.content) == up.touched + Hashes(env, up.todo)
    && Within(up.touched, mine)
    && PhaseOk(env, recorded, filed, up)
  }

  ghost predicate UploadsOk(env: Env, s: State, uploads: map<UploadId, Upload>)
    requires env.chunking.cfg.Valid()
  {
    && uploads.Keys == s.active.Keys
    && forall u | u in uploads :: UploadOk(env, s.records.Keys, s.files.Keys, s.active[u], uploads[u])
  }

  ghost predicate Inv(env: Env, w: World)
    requires env.chunking.cfg.Valid()
  {
    && ManifestsOk(env, w.s.manifests, w.contents)
    && RecordsOk(w.s.records) && FilesOk(env, w.s.files)
    && KeptStored(w.s.manifests, Stored(w.s), w.horizon)
    && ActiveStored(w.s.active, Stored(w.s))
    && UploadsOk(env, w.s, w.uploads)
  }

  // ---------------------------------------------------------------- one step keeps it

  /** Nothing stored goes away, and active sets only grow. */
  ghost predicate Grows(s: State, s': State) {
    && s.records.Keys <= s'.records.Keys && s.files.Keys <= s'.files.Keys
    && s.active.Keys == s'.active.Keys
    && (forall u | u in s.active :: s.active[u] <= s'.active[u])
  }

  lemma UploadOkGrows(env: Env, s: State, s': State, mine: set<Hash>, mine': set<Hash>, up: Upload)
    requires env.chunking.cfg.Valid() && UploadOk(env, s.records.Keys, s.files.Keys, mine, up)
    requires s.records.Keys <= s'.records.Keys && s.files.Keys <= s'.files.Keys && mine <= mine'
    ensures UploadOk(env, s'.records.Keys, s'.files.Keys, mine', up)
  {
  }

  lemma UploadsOkUpdate(env: Env, s: State, s': State, uploads: map<UploadId, Upload>, u: UploadId, up: Upload)
    requires env.chunking.cfg.Valid() && UploadsOk(env, s, uploads) && Grows(s, s')
    requires u in uploads && UploadOk(env, s'.records.Keys, s'.files.Keys, s'.active[u], up)
    ensures UploadsOk(env, s', uploads[u := up])
  {
    forall v | v in uploads && v != u
      ensures UploadOk(env, s'.records.Keys, s'.files.Keys, s'.active[v], uploads[v])
    {
      UploadOkGrows(env, s, s', s.active[v], s'.active[v], uploads[v]);
    }
  }

  /** A larger store still backs every kept manifest. */
  lemma KeptStoredGrows(ms: map<Hash, Manifest>, stored: set<Hash>, stored': set<Hash>, horizon: Time)
    requires KeptStored(ms, stored, horizon) && stored <= stored'
    ensures KeptStored(ms, stored', horizon)
  {
    forall id | id in ms && Kept(ms[id], horizon)
      ensures Within(ms[id].chunkHashes, stored')
    {
      assert Within(ms[id].chunkHashes, stored);
    }
  }

  lemma LookKeepsInv(env: Env, w: World, u: UploadId)
    requires env.chunking.cfg.Valid() && Inv(env, w) && Enabled(w, Look(u))
    ensures Inv(env, Apply(env, w, Look(u)))
  {
    UploadsOkUpdate(env, w.s, w.s, w.uploads, u, Apply(env, w, Look(u)).uploads[u]);
  }

  lemma PutFileKeepsInv(env: Env, w: World, u: UploadId, now: Time)
    requires env.chunking.cfg.Valid() && Inv(env, w) && Enabled(w, PutFile(u, now))
    ensures Inv(env, Apply(env, w, PutFile(u, now)))
  {
    var w' := Apply(env, w, PutFile(u, now));
    assert PhaseOk(env, w.s.records.Keys, w.s.files.Keys, w.uploads[u]);
    KeptStoredGrows(w.s.manifests, Stored(w.s), Stored(w'.s), w.horizon);
    UploadsOkUpdate(env, w.s, w'.s, w.uploads, u, w'.uploads[u]);
  }

  lemma PutRecordKeepsInv(env: Env, w: World, u: UploadId, now: Time)
    requires env.chunking.cfg.Valid() && Inv(env, w) && Enabled(w, PutRecord(u, now))
    ensures Inv(env, Apply(env, w, PutRecord(u, now)))
  {
    var w' := Apply(env, w, PutRecord(u, now));
    assert PhaseOk(env, w.s.records.Keys, w.s.files.Keys, w.uploads[u]);
    KeptStoredGrows(w.s.manifests, Stored(w.s), Stored(w'.s), w.horizon);
    UploadsOkUpdate(env, w.s, w'.s, w.uploads, u, w'.uploads[u]);
  }

  lemma MarkKeepsUpload(env: Env, recorded: set<Hash>, filed: set<Hash>, mine: set<Hash>, up: Upload)
    requires env.chunking.cfg.Valid() && UploadOk(env, recorded, filed, mine, up) && up.todo != []
    ensures var h := env.hash(up.todo[0]);
            UploadOk(env, recorded, filed, mine + {h},
                     up.(todo := up.todo[1..], touched := up.touched + [h], phase := Between))
  {
    MovesOneChunk(env, up.touched, up.todo);
  }

  lemma MarkKeepsInv(env: Env, w: World, u: UploadId)
    requires env.chunking.cfg.Valid() && Inv(env, w) && Enabled(w, Mark(u))
    ensures Inv(env, Apply(env, w, Mark(u)))
  {
    var w' := Apply(env, w, Mark(u));
    var up := w.uploads[u];
    assert UploadOk(env, w.s.records.Keys, w.s.files.Keys, w.s.active[u], up);
    if up.todo != [] {
      MarkKeepsUpload(env, w.s.records.Keys, w.s.files.Keys, w.s.active[u], up);
      UploadsOkUpdate(env, w.s, w'.s, w.uploads, u, w'.uploads[u]);
    }
  }

  lemma MovesOneChunk(env: Env, touched: seq<Hash>, todo: seq<Bytes>)
    requires todo != []
    ensures touched + Hashes(env, todo) == (touched + [env.hash(todo[0])]) + Hashes(env, todo[1..])
  {
  }

  lemma BeginKeepsInv(env: Env, w: World, u: UploadId, content: Bytes)
    requires env.chunking.cfg.Valid() && Inv(env, w) && Enabled(w, Begin(u, content))
    ensures Inv(env, Apply(env, w, Begin(u, content)))
  {
    var w' := Apply(env, w, Begin(u, content));
    var parts := SplitBytes(env.chunking, content);
    assert [] + Hashes(env, parts) == ChunkIds(env, content);
    forall v | v in w.uploads
      ensures UploadOk(env, w'.s.records.Keys, w'.s.files.Keys, w'.s.active[v], w'.uploads[v])
    {
      UploadOkGrows(env, w.s, w'.s, w.s.active[v], w'.s.active[v], w.uploads[v]);
    }
  }

  lemma FailKeepsInv(env: Env, w: World, u: UploadId)
    requires env.chunking.cfg.Valid() && Inv(env, w) && Enabled(w, Fail(u))
    ensures Inv(env, Apply(env, w, Fail(u)))
  {
    UploadsOkUpdate(env, w.s, w.s, w.uploads, u, Apply(env, w, Fail(u)).uploads[u]);
  }

  lemma EndKeepsInv(env: Env, w: World, u: UploadId)
    requires env.chunking.cfg.Valid() && Inv(env, w) && Enabled(w, End(u))
    ensures Inv(env, Apply(env, w, End(u)))
  {
    var w' := Apply(env, w, End(u));
    forall v | v in w'.uploads
      ensures UploadOk(env, w'.s.records.Keys, w'.s.files.Keys, w'.s.active[v], w'.uploads[v])
    {
      UploadOkGrows(env, w.s, w'.s, w.s.active[v], w'.s.active[v], w.uploads[v]);
    }
  }

  lemma CrashKeepsInv(env: Env, w: World)
    requires env.chunking.cfg.Valid() && Inv(env, w)
    ensures Inv(env, Apply(env, w, Crash))
  {
  }

  /** At its commit an upload has touched exactly the chunk list of its content, and all of it is stored. */
  lemma TouchedAll(env: Env, w: World, u: UploadId)
    requires env.chunking.cfg.Valid() && Inv(env, w) && u in w.uploads && w.uploads[u].todo == []
    ensures w.uploads[u].touched == ChunkIds(env, w.uploads[u].content)
    ensures Within(w.uploads[u].touched, Stored(w.s))
  {
    var up := w.uploads[u];
    assert UploadOk(env, w.s.records.Keys, w.s.files.Keys, w.s.active[u], up);
    assert up.touched + Hashes(env, up.todo) == up.touched;
  }

  lemma SameContent(env: Env, x: Bytes, y: Bytes)
    requires Sound(env) && env.hash(x) == env.hash(y)
    ensures x == y
  {
  }

  /**
   * Reactivation relies on chunking being a function of content: a manifest stored under the
   * same file hash lists exactly the chunks this upload has just touched.
   */
  lemma ReactivationFindsItsChunks(env: Env, w: World, u: UploadId)
    requires Sound(env) && Inv(env, w) && u in w.uploads && w.uploads[u].todo == []
    requires env.hash(w.uploads[u].content) in w.s.manifests
    ensures var id := env.hash(w.uploads[u].content);
            && w.contents[id] == w.uploads[u].content
            && w.s.manifests[id].chunkHashes == w.uploads[u].touched
            && Within(w.s.manifests[id].chunkHashes, Stored(w.s))
  {
    var up := w.uploads[u];
    var id := env.hash(up.content);
    TouchedAll(env, w, u);
    assert ManifestOk(env, id, w.s.manifests[id], w.contents);
    SameContent(env, w.contents[id], up.content);
  }

  /** A commit fails only for the empty file: no chunk record can have gone missing meanwhile. */
  lemma CommitSucceeds(env: Env, w: World, u: UploadId, now: Time)
    requires Sound(env) && Inv(env, w) && Enabled(w, CommitUpload(u, now))
    ensures w.uploads[u].content != [] ==> Apply(env, w, CommitUpload(u, now)).uploads[u].stage == Committed
  {
    var up := w.uploads[u];
    TouchedAll(env, w, u);
    var m := NewManifest(env, up.content, up.touched, now);
    assert ValidManifest(m);
    if m.manifestId in w.s.manifests {
      assert ManifestOk(env, m.manifestId, w.s.manifests[m.manifestId], w.contents);
    }
  }

  /** What the database transaction may do to the state, case by case. */
  lemma CommitCases(s: State, m: Manifest)
    ensures var id, r := m.manifestId, Commit(s, m);
            r.Ok? ==>
              && ValidManifest(m)
              && r.value.files == s.files && r.value.active == s.active
              && r.value.records.Keys == s.records.Keys
              && r.value.manifests == if id !in s.manifests then s.manifests[id := m]
                                      else if s.manifests[id].retired then s.manifests[id := Reactivated(s.manifests[id])]
                                      else s.manifests
    ensures Commit(s, m).Ok? ==>
              var ms := Commit(s, m).value.manifests;
              m.manifestId in ms && ValidManifest(ms[m.manifestId])
              && (!m.retired ==> !ms[m.manifestId].retired)
    ensures var r := Commit(s, m);
            r.Ok? ==> forall h | h in s.records ::
              && r.value.records[h].chunkHash == s.records[h].chunkHash
              && r.value.records[h].createdAt == s.records[h].createdAt
  {
  }

  /** The upload under this file hash, if any, had the same content. */
  ghost predicate Matches(env: Env, w: World, up: Upload)
    requires env.chunking.cfg.Valid()
  {
    var id := env.hash(up.content);
    id in w.s.manifests ==>
      id in w.contents && w.contents[id] == up.content && w.s.manifests[id].chunkHashes == up.touched
  }

  lemma CommitKeepsManifests(env: Env, w: World, u: UploadId, now: Time)
    requires env.chunking.cfg.Valid() && Inv(env, w) && Enabled(w, CommitUpload(u, now)) && Matches(env, w, w.uploads[u])
    ensures var w' := Apply(env, w, CommitUpload(u, now));
            && ManifestsOk(env, w'.s.manifests, w'.contents)
            && KeptStored(w'.s.manifests, Stored(w.s), w.horizon)
  {
    var up, w' := w.uploads[u], Apply(env, w, CommitUpload(u, now));
    var id := env.hash(up.content);
    var m := NewManifest(env, up.content, up.touched, now);
    TouchedAll(env, w, u);
    CommitCases(w.s, m);
    forall k | k in w'.s.manifests
      ensures ManifestOk(env, k, w'.s.manifests[k], w'.contents)
      ensures Kept(w'.s.manifests[k], w.horizon) ==> Within(w'.s.manifests[k].chunkHashes, Stored(w.s))
    {
      if k in w.s.manifests {
        assert ManifestOk(env, k, w.s.manifests[k], w.contents);
      }
    }
  }

  lemma CommitKeepsInv(env: Env, w: World, u: UploadId, now: Time)
    requires Sound(env) && Inv(env, w) && Enabled(w, CommitUpload(u, now))
    ensures Inv(env, Apply(env, w, CommitUpload(u, now)))
  {
    if env.hash(w.uploads[u].content) in w.s.manifests {
      ReactivationFindsItsChunks(env, w, u);
      assert ManifestOk(env, env.hash(w.uploads[u].content), w.s.manifests[env.hash(w.uploads[u].content)], w.contents);
    }
    MatchingCommitKeepsInv(env, w, u, now);
  }

  lemma MatchingCommitKeepsInv(env: Env, w: World, u: UploadId, now: Time)
    requires env.chunking.cfg.Valid() && Inv(env, w) && Enabled(w, CommitUpload(u, now)) && Matches(env, w, w.uploads[u])
    ensures Inv(env, Apply(env, w, CommitUpload(u, now)))
  {
    var w' := Apply(env, w, CommitUpload(u, now));
    CommitKeepsManifests(env, w, u, now);
    CommitCases(w.s, NewManifest(env, w.uploads[u].content, w.uploads[u].touched, now));
    assert Stored(w'.s) == Stored(w.s);
    assert UploadOk(env, w.s.records.Keys, w.s.files.Keys, w.s.active[u], w.uploads[u]);
    UploadsOkUpdate(env, w.s, w'.s, w.uploads, u, w'.uploads[u]);
  }

  lemma LifecycleKeepsInv(env: Env, w: World, a: Step)
    requires env.chunking.cfg.Valid() && Inv(env, w) && Enabled(w, a) && (a.Retire? || a.Retain?)
    ensures Inv(env, Apply(env, w, a))
  {
    var w' := Apply(env, w, a);
    forall k | k in w'.s.manifests
      ensures ManifestOk(env, k, w'.s.manifests[k], w'.contents)
      ensures Kept(w'.s.manifests[k], w.horizon) ==> Within(w'.s.manifests[k].chunkHashes, Stored(w.s))
    {
      assert ManifestOk(env, k, w.s.manifests[k], w.contents);
    }
  }

  /** No permitted deletion touches a chunk that something kept or in flight still needs. */
  lemma DeletionSparesKept(env: Env, w: World, cutoff: Time, d: Deletion, id: Hash)
    requires env.chunking.cfg.Valid() && Inv(env, w) && Permitted(w.s, cutoff, d)
    requires id in w.s.manifests && Kept(w.s.manifests[id], w.horizon) && Kept(w.s.manifests[id], cutoff)
    ensures Within(w.s.manifests[id].chunkHashes, Stored(Sweep(w.s, d)))
  {
    var m := w.s.manifests[id];
    assert Within(m.chunkHashes, Stored(w.s));
    assert ManifestOk(env, id, m, w.contents);
    forall h | h in m.chunkHashes
      ensures h !in d.filesGone && h !in d.straysGone
    {
      if !m.retired {
        assert Referenced(w.s, h);
      } else {
        assert InRetired(w.s, h);
        assert !RetiredBefore(m, cutoff);
      }
    }
  }

  lemma SweepKeepsInv(env: Env, w: World, cutoff: Time, d: Deletion)
    requires env.chunking.cfg.Valid() && Inv(env, w) && Enabled(w, SweepUp(cutoff, d))
    ensures Inv(env, Apply(env, w, SweepUp(cutoff, d)))
  {
    var w' := Apply(env, w, SweepUp(cutoff, d));
    forall id | id in w'.s.manifests && Kept(w'.s.manifests[id], w'.horizon)
      ensures Within(w'.s.manifests[id].chunkHashes, Stored(w'.s))
    {
      DeletionSparesKept(env, w, cutoff, d, id);
    }
    forall u | u in w.s.active
      ensures w.s.active[u] <= Stored(w'.s)
    {
      assert forall h | h in w.s.active[u] :: ActiveChunk(w.s, h);
    }
    forall u | u in w.uploads
      ensures UploadOk(env, w'.s.records.Keys, w'.s.files.Keys, w.s.active[u], w.uploads[u])
    {
      assert UploadOk(env, w.s.records.Keys, w.s.files.Keys, w.s.active[u], w.uploads[u]);
    }
  }

  lemma StepKeepsInv(env: Env, w: World, a: Step)
    requires Sound(env) && Inv(env, w) && Enabled(w, a)
    ensures Inv(env, Apply(env, w, a))
  {
    match a
    case Begin(u, content) => BeginKeepsInv(env, w, u, content);
    case Look(u) => LookKeepsInv(env, w, u);
    case PutFile(u, now) => PutFileKeepsInv(env, w, u, now);
    case PutRecord(u, now) => PutRecordKeepsInv(env, w, u, now);
    case Mark(u) => MarkKeepsInv(env, w, u);
    case CommitUpload(u, now) => CommitKeepsInv(env, w, u, now);
    case Fail(u) => FailKeepsInv(env, w, u);
    case End(u) => EndKeepsInv(env, w, u);
    case Crash => CrashKeepsInv(env, w);
    case Retire(_, _) => LifecycleKeepsInv(env, w, a);
    case Retain(_) => LifecycleKeepsInv(env, w, a);
    case SweepUp(cutoff, d) => SweepKeepsInv(env, w, cutoff, d);
  }

  // ---------------------------------------------------------------- whole runs

  /** w' is reached from w by these steps, each enabled when it is taken. */
  ghost predicate Run(env: Env, w: World, steps: seq<Step>, w': World)
    requires env.chunking.cfg.Valid()
    decreases |steps|
  {
    if steps == [] then w' == w
    else Enabled(w, steps[0]) && Run(env, Apply(env, w, steps[0]), steps[1..], w')
  }

  lemma {:induction false} RunKeepsInv(env: Env, w: World, steps: seq<Step>, w': World)
    requires Sound(env) && Inv(env, w) && Run(env, w, steps, w')
    ensures Inv(env, w')
    decreases |steps|
  {
    if steps != [] {
      StepKeepsInv(env, w, steps[0]);
      RunKeepsInv(env, Apply(env, w, steps[0]), steps[1..], w');
    }
  }

  /**
   * Safety over every run of one Store: a manifest that is active, or was retired no earlier
   * than the largest cutoff used, has a record and a file with the right bytes for each of its
   * chunks, and so has every chunk an upload in flight has touched.
   */
  lemma EveryRunIsSafe(env: Env, steps: seq<Step>, w: World)
    requires Sound(env) && Run(env, EMPTY, steps, w)
    ensures forall id, h | id in w.s.manifests && Kept(w.s.manifests[id], w.horizon) && h in w.s.manifests[id].chunkHashes ::
              h in w.s.records && h in w.s.files && env.hash(w.s.files[h].bytes) == h
    ensures forall u, h | u in w.uploads && h in w.uploads[u].touched ::
              h in w.s.records && h in w.s.files && env.hash(w.s.files[h].bytes) == h
    ensures forall id | id in w.s.manifests ::
              id in w.contents && env.hash(w.contents[id]) == id && w.s.manifests[id].chunkHashes == ChunkIds(env, w.contents[id])
  {
    RunKeepsInv(env, EMPTY, steps, w);
    forall id, h | id in w.s.manifests && Kept(w.s.manifests[id], w.horizon) && h in w.s.manifests[id].chunkHashes
      ensures h in Stored(w.s)
    {
      assert Within(w.s.manifests[id].chunkHashes, Stored(w.s));
    }
    forall u, h | u in w.uploads && h in w.uploads[u].touched
      ensures h in Stored(w.s)
    {
      assert UploadOk(env, w.s.records.Keys, w.s.files.Keys, w.s.active[u], w.uploads[u]);
    }
    forall id | id in w.s.manifests
      ensures ManifestOk(env, id, w.s.manifests[id], w.contents)
    {
    }
  }
}
