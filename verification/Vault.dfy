/** The Vault's persistent state and the atomic changes its operations make to it. */
module Vault {
  import opened FastCdc

  type Hash = string
  type UploadId = string

  /** Clock readings; 0 is Go's zero time, which no clock returns. */
  type Time = int

  datatype Option<+T> = None | Some(value: T)

  datatype Manifest = Manifest(
    manifestId: Hash, fileHash: Hash, chunkHashes: seq<Hash>, totalSize: int, chunkCount: int,
    createdAt: Time, immutable: bool, retired: bool, retiredAt: Option<Time>)

  datatype ChunkRecord = ChunkRecord(chunkHash: Hash, sizeBytes: nat, refCount: int, retained: bool, createdAt: Time)

  datatype ChunkFile = ChunkFile(bytes: Bytes, modTime: Time)

  datatype State = State(
    manifests: map<Hash, Manifest>, records: map<Hash, ChunkRecord>,
    files: map<Hash, ChunkFile>, active: map<UploadId, set<Hash>>)

  /** What stays fixed while a database lives: the chunking and the hash function. */
  datatype Env = Env(chunking: Chunking, hash: Bytes -> Hash)

  ghost predicate Sound(env: Env) {
    && env.chunking.cfg.Valid()
    && (forall x, y :: env.hash(x) == env.hash(y) ==> x == y)
    && (forall x :: env.hash(x) != "")
  }

  // ---------------------------------------------------------------- content addresses

  function Hashes(env: Env, parts: seq<Bytes>): (r: seq<Hash>)
    ensures |r| == |parts| && forall i | 0 <= i < |parts| :: r[i] == env.hash(parts[i])
  {
    seq(|parts|, i requires 0 <= i < |parts| => env.hash(parts[i]))
  }

  /** The chunk list of a file is a function of its content alone. */
  function ChunkIds(env: Env, content: Bytes): seq<Hash>
    requires env.chunking.cfg.Valid()
  {
    Hashes(env, SplitBytes(env.chunking, content))
  }

  predicate ValidManifest(m: Manifest) {
    && m.manifestId != "" && m.manifestId == m.fileHash
    && m.chunkCount == |m.chunkHashes|
    && m.totalSize >= 0
    && m.immutable
    && (m.retired ==> m.retiredAt.Some? && m.retiredAt.value != 0)
  }

  // ---------------------------------------------------------------- active uploads

  function RegisterUpload(s: State, u: UploadId): State {
    s.(active := s.active[u := {}])
  }

  function UnregisterUpload(s: State, u: UploadId): State {
    s.(active := s.active - {u})
  }

  function MarkActive(s: State, u: UploadId, h: Hash): State {
    if u in s.active then s.(active := s.active[u := s.active[u] + {h}]) else s
  }

  ghost predicate ActiveChunk(s: State, h: Hash) {
    exists u :: u in s.active && h in s.active[u]
  }

  // ---------------------------------------------------------------- chunks

  function WriteIfMissing(s: State, h: Hash, bytes: Bytes, now: Time): State {
    if h in s.files then s else s.(files := s.files[h := ChunkFile(bytes, now)])
  }

  function RecordIfMissing(s: State, h: Hash, size: nat, now: Time): State {
    if h in s.records then s else s.(records := s.records[h := ChunkRecord(h, size, 0, false, now)])
  }

  /** One touchChunk call with nobody else in between. */
  function Touch(s: State, u: UploadId, h: Hash, bytes: Bytes, now: Time): State {
    MarkActive(RecordIfMissing(WriteIfMissing(s, h, bytes, now), h, |bytes|, now), u, h)
  }

  // ---------------------------------------------------------------- manifests

  function Bump(r: ChunkRecord, n: nat): ChunkRecord {
    r.(refCount := r.refCount + n, retained := r.refCount + n > 0)
  }

  function Reactivated(m: Manifest): Manifest {
    m.(retired := false, retiredAt := None)
  }

  function Retired(m: Manifest, at: Time): Manifest {
    m.(retired := true, retiredAt := Some(at))
  }

  datatype Result<+T> = Ok(value: T) | Err

  function Commit(s: State, m: Manifest): Result<State> {
    if !ValidManifest(m) then Err
    else if m.manifestId in s.manifests then
      var existing := s.manifests[m.manifestId];
      if !ValidManifest(existing) then Err
      else if existing.retired then Ok(s.(manifests := s.manifests[m.manifestId := Reactivated(existing)]))
      else Ok(s)
    else if exists h | h in m.chunkHashes :: h !in s.records then Err
    else
      Ok(s.(manifests := s.manifests[m.manifestId := m],
            records := map h | h in s.records ::
              if h in m.chunkHashes then Bump(s.records[h], multiset(m.chunkHashes)[h]) else s.records[h]))
  }

  /** updateManifestLifecycle: retire or retain, without a look at the chunks. */
  function SetLifecycle(s: State, id: Hash, retired: bool, now: Time): Result<State> {
    if id !in s.manifests || !ValidManifest(s.manifests[id]) then Err
    else
      var m := s.manifests[id];
      if m.retired == retired then Ok(s)
      else Ok(s.(manifests := s.manifests[id := if retired then Retired(m, now) else Reactivated(m)]))
  }

  /** A stored manifest with one field changed is noticed, unless the new value is one the field may have. */
  lemma OneChangedFieldIsNoticed(m: Manifest)
    requires ValidManifest(m)
    ensures forall x :: ValidManifest(m.(manifestId := x)) <==> x == m.fileHash
    ensures forall x :: ValidManifest(m.(fileHash := x)) <==> x == m.manifestId
    ensures forall n :: ValidManifest(m.(chunkCount := n)) <==> n == |m.chunkHashes|
    ensures forall hs :: ValidManifest(m.(chunkHashes := hs)) <==> |hs| == m.chunkCount
    ensures forall n :: ValidManifest(m.(totalSize := n)) <==> n >= 0
    ensures !ValidManifest(m.(immutable := false)) && !ValidManifest(m.(retired := true, retiredAt := None))
    ensures forall t :: ValidManifest(m.(retired := true, retiredAt := Some(t))) <==> t != 0
    ensures forall t :: ValidManifest(m.(retired := false, retiredAt := t))
  {
  }

  ghost predicate SetLifecycleOnly(s: State, s': State, id: Hash)
    requires id in s.manifests
  {
    id in s'.manifests && s' == s.(manifests := s.manifests[id := s'.manifests[id]])
  }

  /**
   * Retiring notes the time of the first call and touches nothing else; a retain, or an upload
   * of the same content, gives back the very state from before.
   */
  lemma RetirementIsUndone(s: State, id: Hash, at: Time, later: Time, m: Manifest)
    requires id in s.manifests && ValidManifest(s.manifests[id]) && at != 0
    requires !s.manifests[id].retired && s.manifests[id].retiredAt.None?
    requires ValidManifest(m) && m.manifestId == id
    ensures var retired := SetLifecycle(s, id, true, at);
            && retired.Ok? && SetLifecycleOnly(s, retired.value, id)
            && retired.value.manifests[id].retired && retired.value.manifests[id].retiredAt == Some(at)
            && SetLifecycle(retired.value, id, true, later) == retired
            && SetLifecycle(retired.value, id, false, later) == Ok(s)
            && Commit(retired.value, m) == Ok(s)
    ensures SetLifecycle(s, id, false, later) == Ok(s) && Commit(s, m) == Ok(s)
  {
    var s' := SetLifecycle(s, id, true, at).value;
    assert s'.manifests[id := s.manifests[id]] == s.manifests;
  }

  // ---------------------------------------------------------------- garbage

  ghost predicate Referenced(s: State, h: Hash) {
    exists id :: id in s.manifests && !s.manifests[id].retired && h in s.manifests[id].chunkHashes
  }

  ghost predicate InRetired(s: State, h: Hash) {
    exists id :: id in s.manifests && s.manifests[id].retired && h in s.manifests[id].chunkHashes
  }

  predicate RetiredBefore(m: Manifest, cutoff: Time) {
    m.retired && (m.retiredAt.Some? ==> m.retiredAt.value < cutoff)
  }

  /** Every retired manifest that uses h left service before the cutoff. */
  ghost predicate RetirementsExpired(s: State, h: Hash, cutoff: Time) {
    forall id | id in s.manifests && s.manifests[id].retired && h in s.manifests[id].chunkHashes ::
      RetiredBefore(s.manifests[id], cutoff)
  }

  /** A chunk record the sweep may delete. */
  ghost predicate Garbage(s: State, h: Hash, cutoff: Time) {
    && h in s.records && !Referenced(s, h) && !ActiveChunk(s, h)
    && (if InRetired(s, h) then RetirementsExpired(s, h, cutoff)
        else s.records[h].refCount == 0 && s.records[h].createdAt != 0 && s.records[h].createdAt < cutoff)
  }

  /** A chunk file without a record that the sweep may delete. */
  ghost predicate Stray(s: State, h: Hash, cutoff: Time) {
    && h in s.files && h !in s.records && !Referenced(s, h) && !ActiveChunk(s, h)
    && RetirementsExpired(s, h, cutoff)
    && s.files[h].modTime < cutoff
  }

  /**
   * What one sweep deletes. The file goes before the record, so an error or a crash can leave
   * a chunk in filesGone and not in recordsGone, and may leave any candidate in neither.
   */
  datatype Deletion = Deletion(filesGone: set<Hash>, recordsGone: set<Hash>, straysGone: set<Hash>)

  ghost predicate Permitted(s: State, cutoff: Time, d: Deletion) {
    && d.recordsGone <= d.filesGone
    && (forall h | h in d.filesGone :: Garbage(s, h, cutoff))
    && (forall h | h in d.straysGone :: Stray(s, h, cutoff))
  }

  function Sweep(s: State, d: Deletion): State {
    s.(files := s.files - d.filesGone - d.straysGone, records := s.records - d.recordsGone)
  }

  ghost predicate Complete(s: State, cutoff: Time, d: Deletion) {
    && Permitted(s, cutoff, d)
    && d.filesGone == d.recordsGone
    && (forall h | Garbage(s, h, cutoff) :: h in d.recordsGone)
    && (forall h | Stray(s, h, cutoff) :: h in d.straysGone)
  }
}
