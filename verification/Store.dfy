/** The Store object: the Vault's operations in the order the code performs them. */
module Store {
  import opened FastCdc
  import opened Vault
  import opened VaultMachine
  import opened Objects
  import opened Uploads

  datatype Fault = NoFault | FileFault | RecordFault

  datatype UploadResult = UploadResult(
    manifestId: Hash, totalSize: nat, chunkCount: nat, newChunks: int, reusedChunks: int)

  /** Bytes handed to the reader, the announced length, and whether the stream ended without an error. */
  datatype Object = Object(bytes: Bytes, length: int, clean: bool)

  /** A look at the context, or a file or record the collector works on. */
  datatype Look = AtManifest(n: nat) | AtRecord(n: nat) | AtFile(n: nat) | AtSweep(n: nat) | AtStray(n: nat)

  /**
   * What goes wrong during a collection: deletions that fail, a walk that fails, a walk cut short
   * by a file that vanishes, which is no error, or a context cancelled at a look.
   */
  datatype Trouble = Trouble(
    fileFails: set<Hash>, recordFails: set<Hash>, walkFails: bool, vanishes: Option<nat>, cancelled: Look -> bool)

  ghost predicate Untroubled(t: Trouble) {
    t.fileFails == t.recordFails == {} && !t.walkFails && t.vanishes.None? && forall l: Look :: !t.cancelled(l)
  }

  datatype Report = Report(scannedManifests: nat, scannedRecords: nat, candidates: nat, deletedChunks: nat, deletedStrays: nat)

  class Store {
    const env: Env
    const strictVerify: bool
    const strictVerifyMaxBytes: int
    var manifests: map<Hash, Manifest>
    var records: map<Hash, ChunkRecord>
    var files: map<Hash, ChunkFile>
    var activeUploads: map<UploadId, set<Hash>>

    function View(): State
      reads this
    {
      State(manifests, records, files, activeUploads)
    }

    /** NewStore over an existing database and chunk directory. */
    constructor (env: Env, ms: map<Hash, Manifest>, rs: map<Hash, ChunkRecord>, fs: map<Hash, ChunkFile>,
                 strictVerify: bool, strictVerifyMaxBytes: int)
      ensures View() == State(ms, rs, fs, map[]) && this.env == env
      ensures this.strictVerify == strictVerify && this.strictVerifyMaxBytes == strictVerifyMaxBytes
    {
      this.env, this.strictVerify, this.strictVerifyMaxBytes := env, strictVerify, strictVerifyMaxBytes;
      manifests, records, files, activeUploads := ms, rs, fs, map[];
    }

    // -------------------------------------------------------------- active uploads

    method RegisterActiveUpload(u: UploadId)
      modifies this`activeUploads
      ensures View() == RegisterUpload(old(View()), u)
      ensures u in activeUploads && activeUploads[u] == {}
    {
      activeUploads := activeUploads[u := {}];
    }

    method UnregisterActiveUpload(u: UploadId)
      modifies this`activeUploads
      ensures View() == UnregisterUpload(old(View()), u)
      ensures u !in activeUploads
    {
      activeUploads := activeUploads - {u};
    }

    method MarkActiveUploadChunk(u: UploadId, h: Hash)
      modifies this`activeUploads
      ensures View() == MarkActive(old(View()), u, h)
      ensures u in old(activeUploads) ==> u in activeUploads && activeUploads[u] == old(activeUploads)[u] + {h}
    {
      if u !in activeUploads {
        return;
      }
      activeUploads := activeUploads[u := activeUploads[u] + {h}];
    }

    method SnapshotActiveChunkHashes() returns (active: set<Hash>)
      ensures forall h :: h in active <==> ActiveChunk(View(), h)
      ensures forall h :: h in active <==> exists u :: u in activeUploads && h in activeUploads[u]
    {
      active := {};
      var rest := activeUploads.Keys;
      while rest != {}
        invariant rest <= activeUploads.Keys
        invariant forall h :: h in active <==> exists u :: u in activeUploads && u !in rest && h in activeUploads[u]
        decreases |rest|
      {
        var u :| u in rest;
        active, rest := active + activeUploads[u], rest - {u};
      }
    }

    // -------------------------------------------------------------- uploads

    method WriteChunkIfMissing(h: Hash, bytes: Bytes, now: Time)
      modifies this`files
      ensures View() == WriteIfMissing(old(View()), h, bytes, now)
      ensures files == if h in old(files) then old(files) else old(files)[h := ChunkFile(bytes, now)]
    {
      if h in files {
        return;
      }
      files := files[h := ChunkFile(bytes, now)];
    }

    /** touchChunk; fault tells which write fails, if the call gets as far as that write. */
    method TouchChunk(u: UploadId, h: Hash, bytes: Bytes, now: Time, fault: Fault) returns (created: bool, ok: bool)
      modifies this`records, this`files, this`activeUploads
      ensures ok ==> View() == Touch(old(View()), u, h, bytes, now) && (created <==> h !in old(records))
      ensures !ok ==> !created && (View() == old(View()) || View() == WriteIfMissing(old(View()), h, bytes, now))
      ensures fault == NoFault ==> ok
    {
      if h in records {
        if h !in files {
          if fault == FileFault {
            return false, false;
          }
          WriteChunkIfMissing(h, bytes, now);
        }
        MarkActiveUploadChunk(u, h);
        return false, true;
      }
      if fault == FileFault {
        return false, false;
      }
      WriteChunkIfMissing(h, bytes, now);
      if fault == RecordFault {
        return false, false;
      }
      created := false;
      if h !in records {
        records := records[h := ChunkRecord(h, |bytes|, 0, false, now)];
        created := true;
      }
      MarkActiveUploadChunk(u, h);
      ok := true;
    }

    /**
     * commitManifestAndChunkRefs: the transaction works on a copy and is dropped on any error;
     * fails stands for a cancelled context or a transaction the database turns down.
     */
    method CommitManifestAndChunkRefs(m: Manifest, fails: bool) returns (ok: bool)
      modifies this`manifests, this`records
      ensures ok <==> !fails && Commit(old(View()), m).Ok?
      ensures ok <==>
                && !fails && ValidManifest(m)
                && if m.manifestId in old(manifests) then ValidManifest(old(manifests)[m.manifestId])
                   else forall h | h in m.chunkHashes :: h in old(records)
      ensures View() == if ok then Commit(old(View()), m).value else old(View())
    {
      if fails || !ValidManifest(m) {
        return false;
      }
      var chunkRefCount := CountChunks(m.chunkHashes);
      if m.manifestId in manifests {
        var existing := manifests[m.manifestId];
        if !ValidManifest(existing) {
          return false;
        }
        if existing.retired {
          manifests := manifests[m.manifestId := Reactivated(existing)];
        }
        return true;
      }
      var staged := records;
      var rest := chunkRefCount.Keys;
      while rest != {}
        invariant rest <= chunkRefCount.Keys
        invariant staged.Keys == records.Keys
        invariant forall h | h in chunkRefCount && h !in rest :: h in records
        invariant forall h | h in records ::
                    staged[h] == if h in chunkRefCount && h !in rest then Bump(records[h], chunkRefCount[h]) else records[h]
        decreases |rest|
      {
        var h :| h in rest;
        if h !in staged {
          assert h in m.chunkHashes && h !in records;
          return false;
        }
        staged, rest := staged[h := Bump(staged[h], chunkRefCount[h])], rest - {h};
      }
      ghost var s' := Commit(View(), m);
      assert s'.Ok? && s'.value.records == staged;
      manifests, records := manifests[m.manifestId := m], staged;
      ok := true;
    }

    static method CountChunks(hashes: seq<Hash>) returns (counts: map<Hash, nat>)
      ensures forall h :: h in counts <==> h in hashes
      ensures forall h | h in counts :: counts[h] == multiset(hashes)[h]
    {
      counts := map[];
      for i := 0 to |hashes|
        invariant forall h :: h in counts <==> h in hashes[..i]
        invariant forall h | h in counts :: counts[h] == multiset(hashes[..i])[h]
      {
        var h := hashes[i];
        assert hashes[..i + 1] == hashes[..i] + [h];
        counts := counts[h := (if h in counts then counts[h] else 0) + 1];
      }
      assert hashes[..|hashes|] == hashes;
    }

    method UpdateManifestLifecycle(id: Hash, retired: bool, now: Time, fails: bool) returns (ok: bool)
      modifies this`manifests
      ensures ok <==> !fails && SetLifecycle(old(View()), id, retired, now).Ok?
      ensures ok <==> !fails && id in old(manifests) && ValidManifest(old(manifests)[id])
      ensures ok && old(manifests)[id].retired != retired ==>
                manifests == old(manifests)[id := old(manifests)[id].(
                               retired := retired, retiredAt := if retired then Some(now) else None)]
      ensures !ok || old(manifests)[id].retired == retired ==> manifests == old(manifests)
      ensures View() == if ok then SetLifecycle(old(View()), id, retired, now).value else old(View())
    {
      if fails || id !in manifests {
        return false;
      }
      var manifest := manifests[id];
      if !ValidManifest(manifest) {
        return false;
      }
      if manifest.retired == retired {
        return true;
      }
      manifests := manifests[id := manifest.(retired := retired, retiredAt := if retired then Some(now) else None)];
      ok := true;
    }

    /** The consuming loop of ProcessUpload; fault(i) is what goes wrong with the i-th chunk. */
    method TouchChunks(u: UploadId, chunks: seq<Chunk>, ghost parts: seq<Bytes>, now: Time, fault: nat -> Fault)
      returns (chunkHashes: seq<Hash>, fileBytes: Bytes, created: nat, ok: bool)
      requires u in activeUploads && chunks <= Numbered(parts)
      modifies this`records, this`files, this`activeUploads
      ensures Untouched(old(View()), View(), u)
      ensures ok ==> var seen := parts[..|chunks|];
                && View() == TouchAll(env, old(View()), u, seen, now)
                && chunkHashes == Hashes(env, seen) && fileBytes == Concat(seen)
                && created == |HashSet(env, seen) - old(records).Keys| <= |chunks|
    {
      hide TouchAll, Touch, WriteIfMissing, Untouched, HashSet;
      ghost var before := View();
      chunkHashes, fileBytes, created, ok := [], [], 0, true;
      NothingTouched(env, before, u, parts, now);
      for i := 0 to |chunks|
        invariant chunkHashes == Hashes(env, parts[..i]) && fileBytes == Concat(parts[..i])
        invariant Progress(env, before, View(), u, parts, i, now, created)
      {
        var chunk := chunks[i];
        assert chunk == Numbered(parts)[i];
        var chunkHash := env.hash(chunk.bytes);
        NextTouched(env, before, View(), u, parts, i, now, created);
        var isNew;
        isNew, ok := TouchChunk(u, chunkHash, chunk.bytes, now, fault(i));
        if !ok {
          return;
        }
        fileBytes, chunkHashes := fileBytes + chunk.bytes, chunkHashes + [chunkHash];
        created := if isNew then created + 1 else created;
      }
    }

    /** The splitting pipeline: ok when the whole stream was read, split and touched and is not empty. */
    method StreamChunks(u: UploadId, script: seq<Read>, cancelled: nat -> bool, fault: nat -> Fault, now: Time)
      returns (chunkHashes: seq<Hash>, fileBytes: Bytes, created: nat, ok: bool)
      requires u in activeUploads
      modifies this`records, this`files, this`activeUploads
      ensures Untouched(old(View()), View(), u)
      ensures ok ==> Streamed(env, old(View()), View(), u, script, now, created)
                     && fileBytes == Delivered(script) && chunkHashes == ChunkIds(env, fileBytes)
    {
      chunkHashes, fileBytes, created, ok := [], [], 0, false;
      var chunks, outcome := Split(env.chunking, script, cancelled);
      if outcome == BadConfig {
        return;
      }
      ghost var parts := SplitBytes(env.chunking, Delivered(script));
      chunkHashes, fileBytes, created, ok := TouchChunks(u, chunks, parts, now, fault);
      if outcome == Done {
        assert parts[..|chunks|] == parts;
        SplitIsChunking(env.chunking, Delivered(script));
      }
      ok := ok && outcome == Done && fileBytes != [];
    }

    /**
     * ProcessUpload with nobody else running: the chunks of the stream are touched one by one,
     * which leads to touched, then the manifest is committed. The last write, of the session,
     * can still fail: then the caller gets an error and the manifest stays.
     */
    method ProcessUpload(u: UploadId, script: seq<Read>, cancelled: nat -> bool, fault: nat -> Fault, now: Time,
                         commitFails: bool, sessionFails: bool)
      returns (r: Result<UploadResult>, ghost touched: State, ghost res: UploadResult)
      requires u !in activeUploads
      modifies this`manifests, this`records, this`files, this`activeUploads
      ensures activeUploads == old(activeUploads)
      ensures r.Ok? ==> r.value == res
      ensures var stored := Uploaded(env, RegisterUpload(old(View()), u), touched, View(), u, script, now, res);
              if r.Ok? then stored else Untouched(old(View()), View(), u) || (sessionFails && stored)
    {
      hide Commit, ValidManifest;
      ghost var before := View();
      RegisterActiveUpload(u);
      var chunkHashes, fileBytes, created, streamed := StreamChunks(u, script, cancelled, fault, now);
      touched := View();
      OnlyChunksAdded(before, touched, u);
      var fileHash := env.hash(fileBytes);
      res := UploadResult(fileHash, |fileBytes|, |chunkHashes|, created, |chunkHashes| - created);
      if !streamed {
        UnregisterActiveUpload(u);
        return Err, touched, res;
      }
      var ok := CommitManifestAndChunkRefs(
        Manifest(fileHash, fileHash, chunkHashes, |fileBytes|, |chunkHashes|, now, true, false, None), commitFails);
      ghost var committed := View();
      UnregisterActiveUpload(u);
      if !ok {
        return Err, touched, res;
      }
      assert NewManifest(env, fileBytes, chunkHashes, now) ==
        Manifest(fileHash, fileHash, chunkHashes, |fileBytes|, |chunkHashes|, now, true, false, None);
      if sessionFails {
        return Err, touched, res;
      }
      r := Ok(UploadResult(fileHash, |fileBytes|, |chunkHashes|, created, |chunkHashes| - created));
    }

    // -------------------------------------------------------------- reading back

    /**
     * OpenObject. Nothing is sent for an unknown or malformed manifest, while a chunk file is
     * missing, or when something fails before the first byte. In strict mode bytes are sent only
     * if every read and every check passes; in stream mode the bytes come first, and the stream
     * ends cleanly exactly when every read and every check passes. breaks(i) is the number of
     * bytes after which the i-th chunk cannot be read any further.
     */
    method OpenObject(id: Hash, fails: bool, breaks: nat -> Option<nat>) returns (r: Result<Object>)
      ensures fails || id !in manifests || !ValidManifest(manifests[id]) ==> r.Err?
      ensures !fails && id in manifests && ValidManifest(manifests[id]) ==>
                var m := manifests[id];
                if !Present(files, m) then r.Err?
                else if strictVerify && m.totalSize <= strictVerifyMaxBytes then
                  (r.Ok? <==> Intact(env, files, m) && AllReadable(breaks, |m.chunkHashes|))
                  && (r.Ok? ==> r.value == Object(Assemble(files, m.chunkHashes), |Assemble(files, m.chunkHashes)|, true))
                else
                  && r.Ok? && r.value.length == m.totalSize
                  && (r.value.clean <==> Intact(env, files, m) && AllReadable(breaks, |m.chunkHashes|))
                  && SentPrefix(env, files, m.chunkHashes, r.value.bytes)
                  && (r.value.clean ==> r.value.bytes == Assemble(files, m.chunkHashes))
    {
      if fails || id !in manifests || !ValidManifest(manifests[id]) {
        return Err;
      }
      var m := manifests[id];
      for i := 0 to |m.chunkHashes|
        invariant forall h | h in m.chunkHashes[..i] :: h in files
      {
        if m.chunkHashes[i] !in files {
          return Err;
        }
        assert m.chunkHashes[..i + 1] == m.chunkHashes[..i] + [m.chunkHashes[i]];
      }
      assert m.chunkHashes[..|m.chunkHashes|] == m.chunkHashes;
      var bytes, ok := CopyChunks(m, breaks);
      if strictVerify && m.totalSize <= strictVerifyMaxBytes {
        r := if ok then Ok(Object(bytes, |bytes|, true)) else Err;
      } else {
        r := Ok(Object(bytes, m.totalSize, ok));
      }
    }

    /** The copy loop of both modes: each chunk is copied out and then compared with its hash. */
    method CopyChunks(m: Manifest, breaks: nat -> Option<nat>) returns (bytes: Bytes, ok: bool)
      requires Present(files, m)
      ensures ok <==> Intact(env, files, m) && AllReadable(breaks, |m.chunkHashes|)
      ensures SentPrefix(env, files, m.chunkHashes, bytes)
      ensures ok ==> bytes == Assemble(files, m.chunkHashes)
    {
      var hs := m.chunkHashes;
      bytes := [];
      assert SentUpTo(env, files, hs, bytes, 0);
      for i := 0 to |hs|
        invariant bytes == Assemble(files, hs[..i]) && Verified(env, files, hs[..i])
        invariant forall k | 0 <= k < i :: breaks(k).None?
      {
        var h := hs[i];
        NextChunk(files, hs, i);
        var content := files[h].bytes;
        if breaks(i).Some? {
          var sent := if breaks(i).value < |content| then content[..breaks(i).value] else content;
          assert SentUpTo(env, files, hs, bytes + sent, i + 1);
          return bytes + sent, false;
        }
        if env.hash(content) != h {
          assert SentUpTo(env, files, hs, bytes + content, i + 1);
          return bytes + content, false;
        }
        bytes := bytes + content;
      }
      assert hs[..|hs|] == hs;
      if hs != [] {
        NextChunk(files, hs, |hs| - 1);
      }
      assert SentUpTo(env, files, hs, bytes, |hs|);
      ok := env.hash(bytes) == m.fileHash;
    }

    // -------------------------------------------------------------- garbage collection

    /** The manifest half of scanGarbageCollection. */
    method ScanManifests(cancelled: Look -> bool) returns (ok: bool, referenced: set<Hash>, retiredAt: map<Hash, Time>)
      ensures ok ==> forall id | id in manifests :: ValidManifest(manifests[id]) && manifests[id].manifestId == id
      ensures ok ==> Scanned(manifests, manifests.Keys, referenced, retiredAt)
      ensures (forall id | id in manifests :: ValidManifest(manifests[id]) && manifests[id].manifestId == id) ==>
                (forall l: Look :: !cancelled(l)) ==> ok
    {
      referenced, retiredAt := {}, map[];
      var rest, looks := manifests.Keys, 0;
      while rest != {}
        invariant rest <= manifests.Keys
        invariant forall id | id in manifests && id !in rest :: Readable(id, manifests[id])
        invariant Scanned(manifests, manifests.Keys - rest, referenced, retiredAt)
        decreases |rest|
      {
        var id :| id in rest;
        if cancelled(AtManifest(looks)) || !Readable(id, manifests[id]) {
          return false, referenced, retiredAt;
        }
        ghost var done := manifests.Keys - rest;
        var referenced', retiredAt' := AddManifest(manifests[id], referenced, retiredAt);
        ScannedGrows(manifests, done, id, referenced, retiredAt, referenced', retiredAt');
        rest, looks := rest - {id}, looks + 1;
        assert manifests.Keys - rest == done + {id};
        referenced, retiredAt := referenced', retiredAt';
      }
      assert manifests.Keys - rest == manifests.Keys;
      ok := true;
    }

    static method AddManifest(m: Manifest, referenced: set<Hash>, retiredAt: map<Hash, Time>)
      returns (referenced': set<Hash>, retiredAt': map<Hash, Time>)
      requires ValidManifest(m)
      ensures forall h :: h in referenced' <==> h in referenced || (!m.retired && h in m.chunkHashes)
      ensures forall h :: h in retiredAt' <==> h in retiredAt || (m.retired && h in m.chunkHashes)
      ensures forall h | h in retiredAt' :: retiredAt'[h] ==
                if !m.retired || h !in m.chunkHashes then retiredAt[h]
                else if h in retiredAt && retiredAt[h] >= m.retiredAt.value then retiredAt[h]
                else m.retiredAt.value
    {
      var hs := m.chunkHashes;
      referenced', retiredAt' := referenced, retiredAt;
      for i := 0 to |hs|
        invariant forall h :: h in referenced' <==> h in referenced || (!m.retired && h in hs[..i])
        invariant forall h :: h in retiredAt' <==> h in retiredAt || (m.retired && h in hs[..i])
        invariant forall h | h in retiredAt' :: retiredAt'[h] ==
                    if !m.retired || h !in hs[..i] then retiredAt[h]
                    else if h in retiredAt && retiredAt[h] >= m.retiredAt.value then retiredAt[h]
                    else m.retiredAt.value
      {
        var h := hs[i];
        assert hs[..i + 1] == hs[..i] + [h];
        if !m.retired {
          referenced' := referenced' + {h};
        } else if h !in retiredAt' || m.retiredAt.value > retiredAt'[h] {
          retiredAt' := retiredAt'[h := m.retiredAt.value];
        }
      }
      assert hs[..|hs|] == hs;
    }

    /** The decision the sweep loop takes for one record. */
    static function IsCandidate(h: Hash, record: ChunkRecord, referenced: set<Hash>, active: set<Hash>,
                                retiredAt: map<Hash, Time>, cutoff: Time): bool
    {
      if h in referenced then false
      else if h in active then false
      else if h in retiredAt then retiredAt[h] < cutoff
      else Stale(record, cutoff)
    }

    /** The decision the directory walk takes for one chunk file. */
    static function IsStray(h: Hash, file: ChunkFile, records: map<Hash, ChunkRecord>, referenced: set<Hash>, active: set<Hash>,
                            retiredAt: map<Hash, Time>, cutoff: Time): bool
    {
      if h in referenced then false
      else if h in records then false
      else if h in active then false
      else if h in retiredAt && retiredAt[h] >= cutoff then false
      else file.modTime < cutoff
    }

    method ScanRecords(cancelled: Look -> bool) returns (ok: bool)
      ensures ok ==> forall h | h in records :: records[h].chunkHash == h && records[h].refCount >= 0
      ensures (forall h | h in records :: records[h].chunkHash == h && records[h].refCount >= 0) ==>
                (forall l: Look :: !cancelled(l)) ==> ok
    {
      var rest, looks := records.Keys, 0;
      while rest != {}
        invariant rest <= records.Keys
        invariant forall h | h in records && h !in rest :: RecordReadable(h, records[h])
        decreases |rest|
      {
        var h :| h in rest;
        if cancelled(AtRecord(looks)) || !RecordReadable(h, records[h]) {
          return false;
        }
        rest, looks := rest - {h}, looks + 1;
      }
      ok := true;
    }

    /** The directory walk: chunk files that have no record and no other reason to stay. */
    method ScanFiles(referenced: set<Hash>, active: set<Hash>, retiredAt: map<Hash, Time>, cutoff: Time, trouble: Trouble)
      returns (ok: bool, strays: set<Hash>)
      requires ScanOf(View(), active, referenced, retiredAt)
      ensures ok ==> forall h :: h in strays ==> Stray(View(), h, cutoff)
      ensures ok && trouble.vanishes.None? ==> forall h :: Stray(View(), h, cutoff) ==> h in strays
      ensures ok ==> !trouble.walkFails
      ensures Untroubled(trouble) ==> ok
    {
      ok, strays := false, {};
      if trouble.walkFails {
        return;
      }
      var rest, looks := files.Keys, 0;
      while rest != {}
        invariant rest <= files.Keys
        invariant forall h :: h in strays <==> h !in rest && Stray(View(), h, cutoff)
        decreases |rest|
      {
        if trouble.vanishes == Some(looks) {
          return true, strays;
        }
        if trouble.cancelled(AtFile(looks)) {
          return;
        }
        var h :| h in rest;
        StrayIsStray(View(), active, referenced, retiredAt, h, cutoff);
        if IsStray(h, files[h], records, referenced, active, retiredAt, cutoff) {
          strays := strays + {h};
        }
        rest, looks := rest - {h}, looks + 1;
      }
      ok := true;
    }

    /** deleteChunkMetadata: the transaction looks at the record once more before it deletes it. */
    method DeleteChunkMetadata(h: Hash, cutoff: Time, retired: bool, fails: bool) returns (deleted: bool, ok: bool)
      modifies this`records
      ensures ok <==> !fails
      ensures deleted <==>
                !fails && (h in old(records) && !retired ==>
                             var r := old(records)[h]; r.refCount == 0 && r.createdAt != 0 && r.createdAt < cutoff)
      ensures records == if deleted then old(records) - {h} else old(records)
    {
      if fails {
        return false, false;
      }
      if h !in records {
        assert records - {h} == records;
        return true, true;
      }
      var record := records[h];
      if !retired && !Stale(record, cutoff) {
        return false, true;
      }
      records := records - {h};
      return true, true;
    }

    /** The record loop of the sweep. */
    method SweepRecords(referenced: set<Hash>, active: set<Hash>, retiredAt: map<Hash, Time>, cutoff: Time, trouble: Trouble)
      returns (ok: bool, stopped: bool, candidates: nat, deleted: nat, ghost d: Deletion, ghost left: set<Hash>)
      requires ScanOf(View(), active, referenced, retiredAt)
      modifies this`records, this`files
      ensures SweptRecords(old(View()), View(), cutoff, left, d, ok) && (ok ==> left == {})
      ensures deleted == |d.recordsGone| <= candidates
      ensures ok ==> deleted == candidates && !stopped
      ensures Untroubled(trouble) ==> ok
    {
      ghost var before := View();
      var rest := records.Keys;
      ok, stopped, candidates, deleted, d := true, false, 0, 0, Deletion({}, {}, {});
      SweptStart(before, cutoff);
      var polls := 0;
      while rest != {}
        invariant rest <= before.records.Keys
        invariant SweptRecords(before, View(), cutoff, rest, d, ok)
        invariant deleted == |d.recordsGone| <= candidates && !stopped
        invariant ok ==> deleted == candidates
        invariant Untroubled(trouble) ==> ok
        decreases |rest|
      {
        if trouble.cancelled(AtSweep(polls)) {
          ok, stopped, left := false, true, rest;
          return;
        }
        var h :| h in rest;
        ghost var now, d0, clean := View(), d, ok;
        var fileGone, recordGone := false, false;
        CandidateIsGarbage(before, active, referenced, retiredAt, h, cutoff);
        if IsCandidate(h, records[h], referenced, active, retiredAt, cutoff) {
          candidates := candidates + 1;
          if h in trouble.fileFails {
            ok := false;
          } else {
            files, fileGone := files - {h}, true;
            var done;
            recordGone, done := DeleteChunkMetadata(h, cutoff, h in retiredAt, h in trouble.recordFails);
            ok := ok && done;
            if recordGone {
              deleted := deleted + 1;
            }
          }
        }
        SweptNext(before, now, cutoff, rest, d0, clean, h, fileGone, recordGone);
        d := Deletion(if fileGone then d.filesGone + {h} else d.filesGone,
                      if recordGone then d.recordsGone + {h} else d.recordsGone, {});
        rest, polls := rest - {h}, polls + 1;
      }
      left := {};
    }

    /** The stray loop of the sweep. */
    method SweepStrays(strays: set<Hash>, trouble: Trouble)
      returns (ok: bool, deleted: nat, ghost gone: set<Hash>)
      modifies this`files
      ensures gone <= strays && files == old(files) - gone && deleted == |gone|
      ensures ok ==> gone == strays
      ensures Untroubled(trouble) ==> ok
    {
      ok, deleted, gone := true, 0, {};
      var rest, polls := strays, 0;
      while rest != {}
        invariant rest <= strays && gone <= strays - rest
        invariant files == old(files) - gone && deleted == |gone|
        invariant ok ==> gone == strays - rest
        invariant Untroubled(trouble) ==> ok
        decreases |rest|
      {
        if trouble.cancelled(AtStray(polls)) {
          ok := false;
          return;
        }
        var h :| h in rest;
        if h in trouble.fileFails {
          ok := false;
        } else {
          DropOne(old(files), gone, h);
          files, deleted, gone := files - {h}, deleted + 1, gone + {h};
        }
        rest, polls := rest - {h}, polls + 1;
      }
    }

    /**
     * CollectGarbage. Whatever trouble it meets, only permitted chunks go; an error-free call
     * removes exactly the garbage, so the re-check of a record never refuses a candidate, and all
     * strays unless its walk was cut short.
     */
    method CollectGarbage(cutoff: Time, trouble: Trouble)
      returns (report: Report, ok: bool, ghost d: Deletion)
      modifies this`records, this`files
      ensures Permitted(old(View()), cutoff, d) && View() == Sweep(old(View()), d)
      ensures ok ==> Cleared(old(View()), cutoff, d) && report.candidates == report.deletedChunks
      ensures ok && trouble.vanishes.None? ==> Complete(old(View()), cutoff, d)
      ensures report.deletedChunks == |d.recordsGone| && report.deletedStrays == |d.straysGone|
      ensures ok ==> Scannable(old(View()))
      ensures ok ==> report.scannedManifests == |old(manifests)| && report.scannedRecords == |old(records)|
      ensures !Scannable(old(View())) || trouble.walkFails ==> !ok && View() == old(View())
      ensures Scannable(old(View())) && Untroubled(trouble) ==> ok
    {
      hide Garbage, Stray, Permitted, Sweep, ScanOf, Scannable, Cleared, Complete, SweptRecords;
      ghost var before := View();
      report, d := Report(0, 0, 0, 0, 0), Deletion({}, {}, {});
      EmptyDeletion(before, cutoff);
      var readable, active, referenced, retiredAt, strays := ScanGarbageCollection(cutoff, trouble);
      if !readable {
        return report, false, d;
      }
      report := Report(|manifests|, |records|, 0, 0, 0);
      var candidates, deleted, stopped;
      ghost var left;
      ok, stopped, candidates, deleted, d, left :=
        SweepRecords(referenced, active, retiredAt, cutoff, trouble);
      report := report.(candidates := candidates, deletedChunks := deleted);
      ghost var swept, clean := View(), ok;
      if stopped {
        SweepsCompose(before, swept, cutoff, left, d, clean, {});
        return report, false, d;
      }
      var straysOk, deletedStrays;
      ghost var gone;
      straysOk, deletedStrays, gone := SweepStrays(strays, trouble);
      SweepsCompose(before, swept, cutoff, left, d, clean, gone);
      report, ok, d := report.(deletedStrays := deletedStrays), ok && straysOk, d.(straysGone := gone);
    }

    method ScanGarbageCollection(cutoff: Time, trouble: Trouble)
      returns (readable: bool, active: set<Hash>, referenced: set<Hash>, retiredAt: map<Hash, Time>, strays: set<Hash>)
      ensures readable ==> Scannable(View()) && !trouble.walkFails
      ensures Scannable(View()) && Untroubled(trouble) ==> readable
      ensures readable ==> ScanOf(View(), active, referenced, retiredAt)
      ensures readable ==> forall h :: h in strays ==> Stray(View(), h, cutoff)
      ensures readable && trouble.vanishes.None? ==> forall h :: Stray(View(), h, cutoff) ==> h in strays
    {
      strays := {};
      active := SnapshotActiveChunkHashes();
      readable, referenced, retiredAt := ScanManifests(trouble.cancelled);
      if !readable {
        return;
      }
      readable := ScanRecords(trouble.cancelled);
      if !readable {
        return;
      }
      ScannedAll(View(), active, referenced, retiredAt);
      readable, strays := ScanFiles(referenced, active, retiredAt, cutoff, trouble);
    }
  }

  lemma DropOne(files: map<Hash, ChunkFile>, gone: set<Hash>, h: Hash)
    ensures files - (gone + {h}) == files - gone - {h}
  {
  }

  lemma EmptyDeletion(s: State, cutoff: Time)
    ensures Permitted(s, cutoff, Deletion({}, {}, {})) && Sweep(s, Deletion({}, {}, {})) == s
  {
    assert s.files - {} - {} == s.files && s.records - {} == s.records;
  }

  /** Every candidate went, file and record. */
  ghost predicate Cleared(s: State, cutoff: Time, d: Deletion) {
    Permitted(s, cutoff, d) && d.filesGone == d.recordsGone && forall h | Garbage(s, h, cutoff) :: h in d.recordsGone
  }

  ghost predicate Scannable(s: State) {
    && (forall id | id in s.manifests :: Readable(id, s.manifests[id]))
    && (forall h | h in s.records :: RecordReadable(h, s.records[h]))
  }

  lemma SweepsCompose(s: State, swept: State, cutoff: Time, left: set<Hash>, d: Deletion, clean: bool, gone: set<Hash>)
    requires SweptRecords(s, swept, cutoff, left, d, clean) && (clean ==> left == {})
    requires forall h | h in gone :: Stray(s, h, cutoff)
    ensures var d' := d.(straysGone := gone);
            && Permitted(s, cutoff, d')
            && d'.filesGone == d.filesGone && d'.recordsGone == d.recordsGone
            && Sweep(s, d') == swept.(files := swept.files - gone)
            && (gone == {} ==> d' == d && Sweep(s, d) == swept)
            && (clean ==> Cleared(s, cutoff, d'))
            && (clean && (forall h | Stray(s, h, cutoff) :: h in gone) ==> Complete(s, cutoff, d'))
  {
    assert s.files - d.filesGone - {} - gone == s.files - d.filesGone - gone;
    assert gone == {} ==> swept.files - gone == swept.files;
  }

  /** A manifest the scan accepts: valid, and stored under its own id. */
  predicate Readable(id: Hash, m: Manifest) {
    ValidManifest(m) && m.manifestId == id
  }

  /** What the scan knows after the manifests in done: who is referenced, and who retired last and when. */
  ghost predicate Scanned(ms: map<Hash, Manifest>, done: set<Hash>, referenced: set<Hash>, retiredAt: map<Hash, Time>)
    requires done <= ms.Keys
  {
    && (forall h :: h in referenced <==> exists id :: id in done && !ms[id].retired && h in ms[id].chunkHashes)
    && (forall h :: h in retiredAt <==> exists id :: id in done && ms[id].retired && h in ms[id].chunkHashes)
    && (forall h, c: Time | h in retiredAt :: ExpiredAmong(ms, done, h, c) <==> retiredAt[h] < c)
  }

  ghost predicate ExpiredAmong(ms: map<Hash, Manifest>, done: set<Hash>, h: Hash, cutoff: Time)
    requires done <= ms.Keys
  {
    forall id | id in done && ms[id].retired && h in ms[id].chunkHashes :: RetiredBefore(ms[id], cutoff)
  }

  /** An unreferenced record past its grace. */
  predicate Stale(r: ChunkRecord, cutoff: Time) {
    r.refCount == 0 && r.createdAt != 0 && r.createdAt < cutoff
  }

  predicate RecordReadable(h: Hash, r: ChunkRecord) {
    r.chunkHash == h && r.refCount >= 0
  }

  /** What the whole scan established about a state. */
  ghost predicate ScanOf(s: State, active: set<Hash>, referenced: set<Hash>, retiredAt: map<Hash, Time>) {
    && (forall h :: h in active <==> ActiveChunk(s, h))
    && (forall h :: h in referenced <==> Referenced(s, h))
    && (forall h :: h in retiredAt <==> InRetired(s, h))
    && (forall h, c: Time | h in retiredAt :: RetirementsExpired(s, h, c) <==> retiredAt[h] < c)
  }

  lemma ScannedAll(s: State, active: set<Hash>, referenced: set<Hash>, retiredAt: map<Hash, Time>)
    requires forall h :: h in active <==> ActiveChunk(s, h)
    requires Scanned(s.manifests, s.manifests.Keys, referenced, retiredAt)
    ensures ScanOf(s, active, referenced, retiredAt)
  {
    forall h
      ensures h in referenced <==> Referenced(s, h)
      ensures h in retiredAt <==> InRetired(s, h)
    {
    }
    forall h, c: Time | h in retiredAt
      ensures RetirementsExpired(s, h, c) <==> retiredAt[h] < c
    {
      assert ExpiredAmong(s.manifests, s.manifests.Keys, h, c) <==> retiredAt[h] < c;
    }
  }

  lemma CandidateIsGarbage(s: State, active: set<Hash>, referenced: set<Hash>, retiredAt: map<Hash, Time>, h: Hash, cutoff: Time)
    requires ScanOf(s, active, referenced, retiredAt) && h in s.records
    ensures Store.IsCandidate(h, s.records[h], referenced, active, retiredAt, cutoff) <==> Garbage(s, h, cutoff)
  {
  }

  lemma StrayIsStray(s: State, active: set<Hash>, referenced: set<Hash>, retiredAt: map<Hash, Time>, h: Hash, cutoff: Time)
    requires ScanOf(s, active, referenced, retiredAt) && h in s.files
    ensures Store.IsStray(h, s.files[h], s.records, referenced, active, retiredAt, cutoff) <==> Stray(s, h, cutoff)
  {
    if h !in retiredAt {
      assert !InRetired(s, h);
      assert RetirementsExpired(s, h, cutoff);
    }
  }

  /** The record loop has dealt with all records but those in rest. */
  ghost predicate SweptRecords(s: State, now: State, cutoff: Time, rest: set<Hash>, d: Deletion, clean: bool) {
    && now == Sweep(s, d) && d.straysGone == {}
    && d.recordsGone <= d.filesGone && d.filesGone !! rest
    && (forall h | h in d.filesGone :: Garbage(s, h, cutoff))
    && (clean ==> d.filesGone == d.recordsGone && forall h | h !in rest && Garbage(s, h, cutoff) :: h in d.recordsGone)
  }

  lemma SweptStart(s: State, cutoff: Time)
    ensures SweptRecords(s, s, cutoff, s.records.Keys, Deletion({}, {}, {}), true)
  {
    var d := Deletion({}, {}, {});
    assert s.files - d.filesGone - d.straysGone == s.files && s.records - d.recordsGone == s.records;
  }

  /** One more record h: kept, its file gone, or both gone. */
  lemma SweptNext(s: State, now: State, cutoff: Time, rest: set<Hash>, d: Deletion, clean: bool, h: Hash,
                  fileGone: bool, recordGone: bool)
    requires SweptRecords(s, now, cutoff, rest, d, clean) && h in rest
    requires (fileGone ==> Garbage(s, h, cutoff)) && (recordGone ==> fileGone)
    ensures var d' := Deletion(if fileGone then d.filesGone + {h} else d.filesGone,
                               if recordGone then d.recordsGone + {h} else d.recordsGone, {});
            var now' := now.(files := if fileGone then now.files - {h} else now.files,
                             records := if recordGone then now.records - {h} else now.records);
            SweptRecords(s, now', cutoff, rest - {h}, d', clean && (Garbage(s, h, cutoff) ==> recordGone))
  {
    assert fileGone ==> now.files - {h} == s.files - (d.filesGone + {h}) - {};
    assert recordGone ==> now.records - {h} == s.records - (d.recordsGone + {h});
  }

  lemma ScannedGrows(ms: map<Hash, Manifest>, done: set<Hash>, id: Hash, referenced: set<Hash>, retiredAt: map<Hash, Time>,
                     referenced': set<Hash>, retiredAt': map<Hash, Time>)
    requires done <= ms.Keys && id in ms && ValidManifest(ms[id]) && Scanned(ms, done, referenced, retiredAt)
    requires var m := ms[id];
             && (forall h :: h in referenced' <==> h in referenced || (!m.retired && h in m.chunkHashes))
             && (forall h :: h in retiredAt' <==> h in retiredAt || (m.retired && h in m.chunkHashes))
             && (forall h | h in retiredAt' :: retiredAt'[h] ==
                   if !m.retired || h !in m.chunkHashes then retiredAt[h]
                   else if h in retiredAt && retiredAt[h] >= m.retiredAt.value then retiredAt[h]
                   else m.retiredAt.value)
    ensures Scanned(ms, done + {id}, referenced', retiredAt')
  {
    var m := ms[id];
    forall h, c: Time | h in retiredAt'
      ensures ExpiredAmong(ms, done + {id}, h, c) <==> retiredAt'[h] < c
    {
      if h in retiredAt {
        assert ExpiredAmong(ms, done, h, c) <==> retiredAt[h] < c;
      }
      assert ExpiredAmong(ms, done + {id}, h, c) <==>
        ExpiredAmong(ms, done, h, c) && (m.retired && h in m.chunkHashes ==> RetiredBefore(m, c));
    }
  }

  predicate AllReadable(breaks: nat -> Option<nat>, n: nat) {
    forall i | 0 <= i < n :: breaks(i).None?
  }

  lemma NextChunk(files: map<Hash, ChunkFile>, hashes: seq<Hash>, i: nat)
    requires i < |hashes| && forall h | h in hashes :: h in files
    ensures hashes[..i + 1] == hashes[..i] + [hashes[i]]
    ensures Assemble(files, hashes[..i + 1]) == Assemble(files, hashes[..i]) + files[hashes[i]].bytes
  {
    assert hashes[..i + 1][..i] == hashes[..i];
  }

  /** k chunks have gone out, the last one perhaps in part, and all before it were verified. */
  ghost predicate SentUpTo(env: Env, files: map<Hash, ChunkFile>, hashes: seq<Hash>, bytes: Bytes, k: nat)
    requires forall h | h in hashes :: h in files
  {
    && k <= |hashes| && bytes <= Assemble(files, hashes[..k])
    && (k > 0 ==> Assemble(files, hashes[..k - 1]) <= bytes && Verified(env, files, hashes[..k - 1]))
  }

  /** What reaches the client is the chunk files in manifest order; only the last one sent may be wrong or cut. */
  ghost predicate SentPrefix(env: Env, files: map<Hash, ChunkFile>, hashes: seq<Hash>, bytes: Bytes)
    requires forall h | h in hashes :: h in files
  {
    exists k :: SentUpTo(env, files, hashes, bytes, k)
  }

  /** Nothing goes out after a chunk that is not what its name says. */
  lemma NothingAfterAWrongChunk(env: Env, files: map<Hash, ChunkFile>, hashes: seq<Hash>, bytes: Bytes, i: nat)
    requires forall h | h in hashes :: h in files
    requires SentPrefix(env, files, hashes, bytes) && i < |hashes| && env.hash(files[hashes[i]].bytes) != hashes[i]
    ensures bytes <= Assemble(files, hashes[..i + 1])
  {
    var k: nat :| SentUpTo(env, files, hashes, bytes, k);
    assert forall j | 0 <= j < k - 1 :: hashes[j] == hashes[..k - 1][j];
    assert k <= i + 1;
    AssembleGrows(files, hashes, k, i + 1);
  }

  lemma {:induction false} AssembleGrows(files: map<Hash, ChunkFile>, hashes: seq<Hash>, k: nat, n: nat)
    requires (forall h | h in hashes :: h in files) && k <= n <= |hashes|
    ensures Assemble(files, hashes[..k]) <= Assemble(files, hashes[..n])
    decreases n - k
  {
    if k < n {
      NextChunk(files, hashes, n - 1);
      AssembleGrows(files, hashes, k, n - 1);
    }
  }

  /** The whole non-empty stream went through touchChunk, creating this many records. */
  ghost predicate Streamed(env: Env, before: State, s: State, u: UploadId, script: seq<Read>, now: Time, created: nat) {
    && env.chunking.cfg.Valid() && !Breaks(script) && Delivered(script) != []
    && var parts := SplitBytes(env.chunking, Delivered(script));
       && s == TouchAll(env, before, u, parts, now)
       && created == |HashSet(env, parts) - before.records.Keys|
  }

  /** A successful upload: every chunk touched, the content's manifest committed, the report right. */
  ghost predicate Uploaded(env: Env, before: State, touched: State, after: State, u: UploadId, script: seq<Read>, now: Time,
                           res: UploadResult) {
    && res.newChunks >= 0
    && Streamed(env, before, touched, u, script, now, res.newChunks)
    && var content := Delivered(script);
       var ids := ChunkIds(env, content);
       var committed := Commit(touched, NewManifest(env, content, ids, now));
       && committed.Ok?
       && after == UnregisterUpload(committed.value, u)
       && res == UploadResult(env.hash(content), |content|, |ids|, res.newChunks, |ids| - res.newChunks)
  }

  /** After i chunks of an upload that started in before. */
  ghost predicate Progress(env: Env, before: State, s: State, u: UploadId, parts: seq<Bytes>, i: nat, now: Time, created: nat) {
    && i <= |parts| && created <= i
    && s == TouchAll(env, before, u, parts[..i], now)
    && created == |HashSet(env, parts[..i]) - before.records.Keys|
    && Untouched(before, s, u)
  }

  lemma NothingTouched(env: Env, before: State, u: UploadId, parts: seq<Bytes>, now: Time)
    ensures Progress(env, before, before, u, parts, 0, now, 0)
  {
    assert HashSet(env, parts[..0]) - before.records.Keys == {};
  }

  lemma NextCount(env: Env, parts: seq<Bytes>, i: nat, known: set<Hash>)
    requires i < |parts|
    ensures var h, prior := env.hash(parts[i]), HashSet(env, parts[..i]);
            |HashSet(env, parts[..i + 1]) - known| == |prior - known| + if h in known + prior then 0 else 1
  {
    var h, prior := env.hash(parts[i]), HashSet(env, parts[..i]);
    NextPart(env, parts, i);
    assert prior + {h} - known == if h in known + prior then prior - known else (prior - known) + {h};
  }

  lemma AddedIsUntouched(before: State, s: State, u: UploadId, hs: set<Hash>)
    requires u in before.active && Added(before, s, u, hs)
    ensures Untouched(before, s, u)
  {
  }

  lemma TouchedSoFar(env: Env, before: State, u: UploadId, parts: seq<Bytes>, now: Time)
    requires u in before.active
    ensures TouchAll(env, before, u, parts, now).records.Keys == before.records.Keys + HashSet(env, parts)
    ensures Untouched(before, TouchAll(env, before, u, parts, now), u)
  {
    TouchAllAdds(env, before, u, parts, now);
    AddedIsUntouched(before, TouchAll(env, before, u, parts, now), u, HashSet(env, parts));
  }

  lemma NextTouched(env: Env, before: State, s: State, u: UploadId, parts: seq<Bytes>, i: nat, now: Time, created: nat)
    requires Progress(env, before, s, u, parts, i, now, created) && i < |parts| && u in before.active
    ensures var h := env.hash(parts[i]);
            && Untouched(before, WriteIfMissing(s, h, parts[i], now), u)
            && Progress(env, before, Touch(s, u, h, parts[i], now), u, parts, i + 1, now,
                        if h in s.records then created else created + 1)
    ensures Hashes(env, parts[..i + 1]) == Hashes(env, parts[..i]) + [env.hash(parts[i])]
    ensures Concat(parts[..i + 1]) == Concat(parts[..i]) + parts[i]
  {
    NextPart(env, parts, i);
    NextCount(env, parts, i, before.records.Keys);
    NextUntouched(before, s, u, env.hash(parts[i]), parts[i], now);
    TouchedSoFar(env, before, u, parts[..i], now);
  }

  lemma NextUntouched(before: State, s: State, u: UploadId, h: Hash, bytes: Bytes, now: Time)
    requires Untouched(before, s, u)
    ensures Untouched(before, WriteIfMissing(s, h, bytes, now), u)
    ensures Untouched(before, Touch(s, u, h, bytes, now), u)
  {
    TouchAddsStored(s, u, h, bytes, now);
  }

  /** Ending an upload that only added chunks leaves the other uploads' marks as they were. */
  lemma OnlyChunksAdded(s: State, s': State, u: UploadId)
    requires u !in s.active && Untouched(RegisterUpload(s, u), s', u)
    ensures Untouched(s, UnregisterUpload(s', u), u) && s'.active - {u} == s.active
  {
    assert RegisterUpload(s, u).active - {u} == s.active;
  }

  /** Nothing committed is touched, nothing stored is overwritten, and only u's marks change. */
  ghost predicate Untouched(s: State, s': State, u: UploadId) {
    && s'.manifests == s.manifests
    && (forall h | h in s.records :: h in s'.records && s'.records[h] == s.records[h])
    && (forall h | h in s.files :: h in s'.files && s'.files[h] == s.files[h])
    && s'.active - {u} == s.active - {u}
  }

  lemma NextPart(env: Env, parts: seq<Bytes>, i: nat)
    requires i < |parts|
    ensures parts[..i + 1][..i] == parts[..i] && parts[..i + 1][i] == parts[i] == Numbered(parts)[i].bytes
    ensures Concat(parts[..i + 1]) == Concat(parts[..i]) + parts[i]
    ensures Hashes(env, parts[..i + 1]) == Hashes(env, parts[..i]) + [env.hash(parts[i])]
    ensures HashSet(env, parts[..i + 1]) == HashSet(env, parts[..i]) + {env.hash(parts[i])}
  {
    assert parts[..i + 1] == parts[..i] + [parts[i]];
    ConcatAppend(parts[..i], [parts[i]]);
    assert Concat([parts[i]]) == parts[i] + Concat([]) == parts[i];
    HashSetSnoc(env, parts[..i], parts[i]);
  }
}
