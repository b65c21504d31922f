/** An upload followed by a read, over a store in any condition. */
module RoundTrip {
  import opened FastCdc
  import opened Vault
  import opened VaultMachine
  import VaultSweep
  import opened Objects
  import opened Uploads
  import opened Store

  lemma CommittedManifest(s: State, m: Manifest)
    requires Commit(s, m).Ok? && !m.retired
    requires m.manifestId in s.manifests ==> s.manifests[m.manifestId].chunkHashes == m.chunkHashes
    ensures var s' := Commit(s, m).value;
            && s'.files == s.files && m.manifestId in s'.manifests
            && var got := s'.manifests[m.manifestId];
               !got.retired && ValidManifest(got) && got.chunkHashes == m.chunkHashes
               && (m.manifestId in s.manifests ==>
                     got.fileHash == s.manifests[m.manifestId].fileHash && got.totalSize == s.manifests[m.manifestId].totalSize)
               && (m.manifestId !in s.manifests ==> got == m)
               && (m.manifestId in s.manifests ==> got.createdAt == s.manifests[m.manifestId].createdAt)
  {
  }

  lemma FilesAfterTouching(env: Env, before: State, u: UploadId, parts: seq<Bytes>, now: Time)
    requires u in before.active
    ensures var files := TouchAll(env, before, u, parts, now).files;
            && TouchAll(env, before, u, parts, now).manifests == before.manifests
            && forall h | h in Hashes(env, parts) ::
                 h in files && if h in before.files then files[h] == before.files[h] else env.hash(files[h].bytes) == h
  {
    TouchAllAdds(env, before, u, parts, now);
    NewFilesAreRight(env, before, u, parts, now);
    assert forall h | h in Hashes(env, parts) :: h in HashSet(env, parts);
  }

  /** No chunk of the content was already there under the right name with the wrong bytes. */
  ghost predicate NoneCorrupt(env: Env, files: map<Hash, ChunkFile>, content: Bytes)
    requires env.chunking.cfg.Valid()
  {
    forall h | h in ChunkIds(env, content) && h in files :: env.hash(files[h].bytes) == h
  }

  lemma VerifiedMeansIntact(env: Env, files: map<Hash, ChunkFile>, m: Manifest, content: Bytes)
    requires Sound(env) && Present(files, m) && m.fileHash == env.hash(content) && m.chunkHashes == ChunkIds(env, content)
    ensures Intact(env, files, m) <==> Verified(env, files, m.chunkHashes)
    ensures Intact(env, files, m) ==> Assemble(files, m.chunkHashes) == content
  {
    if Verified(env, files, m.chunkHashes) {
      AssembleParts(env, files, SplitBytes(env.chunking, content));
      SplitIsChunking(env.chunking, content);
    }
  }

  /** A manifest already on file under the content's hash, if any, is one of this content. */
  ghost predicate OnFileMatches(env: Env, ms: map<Hash, Manifest>, content: Bytes)
    requires env.chunking.cfg.Valid()
  {
    var id := env.hash(content);
    id in ms ==> ms[id].chunkHashes == ChunkIds(env, content) && ms[id].fileHash == id && ms[id].totalSize == |content|
  }

  /**
   * After a successful upload the manifest is active and every chunk file is there. The object
   * opens to the uploaded bytes exactly when no chunk of it was already stored with wrong bytes:
   * an upload never looks into a file it finds. A manifest already on file under this hash is
   * taken to be one of this content, as in every run.
   */
  lemma UploadThenOpen(env: Env, before: State, touched: State, after: State, u: UploadId, script: seq<Read>, now: Time,
                       res: UploadResult)
    requires Sound(env) && u in before.active
    requires Uploaded(env, before, touched, after, u, script, now, res)
    requires OnFileMatches(env, before.manifests, Delivered(script))
    ensures res.manifestId == env.hash(Delivered(script)) && res.manifestId in after.manifests
    ensures var m := after.manifests[res.manifestId];
            && !m.retired && ValidManifest(m) && Present(after.files, m)
            && m.totalSize == |Delivered(script)|
            && m.createdAt == (if res.manifestId in before.manifests then before.manifests[res.manifestId].createdAt else now)
            && (Intact(env, after.files, m) <==> NoneCorrupt(env, before.files, Delivered(script)))
            && m.chunkHashes == ChunkIds(env, Delivered(script))
            && (Intact(env, after.files, m) ==> Assemble(after.files, m.chunkHashes) == Delivered(script))
  {
    var content := Delivered(script);
    FilesAfterTouching(env, before, u, SplitBytes(env.chunking, content), now);
    CommittedManifest(touched, NewManifest(env, content, ChunkIds(env, content), now));
    var m := after.manifests[res.manifestId];
    VerifiedMeansIntact(env, after.files, m, content);
  }

  /** The report of an upload: its bytes, its chunks, and how many of them no record knew before. */
  lemma UploadReport(env: Env, before: State, touched: State, after: State, u: UploadId, script: seq<Read>, now: Time,
                     res: UploadResult)
    requires env.chunking.cfg.Valid() && Uploaded(env, before, touched, after, u, script, now, res)
    ensures res.totalSize == |Delivered(script)| && res.chunkCount == |ChunkIds(env, Delivered(script))|
    ensures res.newChunks == |set h | h in ChunkIds(env, Delivered(script)) && h !in before.records|
    ensures res.newChunks + res.reusedChunks == res.chunkCount
  {
    hide TouchAll, Commit, SplitBytes, Hashes, HashSet;
    UnknownOnes(env, SplitBytes(env.chunking, Delivered(script)), before.records);
  }

  lemma UnknownOnes(env: Env, parts: seq<Bytes>, known: map<Hash, ChunkRecord>)
    ensures HashSet(env, parts) - known.Keys == set h | h in Hashes(env, parts) && h !in known
  {
  }

  /**
   * An upload and then a read of what it reports. If the upload succeeds, the read ends cleanly,
   * with exactly the uploaded bytes and their length announced, exactly when nothing fails on the
   * way out and no chunk of the content was already stored with wrong bytes.
   */
  method UploadAndOpen(store: Store, u: UploadId, script: seq<Read>, cancelled: nat -> bool, fault: nat -> Fault, now: Time,
                       commitFails: bool, sessionFails: bool, openFails: bool, breaks: nat -> Option<nat>)
    returns (uploaded: Result<UploadResult>, answer: Result<Object>)
    requires Sound(store.env) && u !in store.activeUploads
    requires OnFileMatches(store.env, store.manifests, Delivered(script))
    modifies store`manifests, store`records, store`files, store`activeUploads
    ensures uploaded.Ok? ==>
              (answer.Ok? && answer.value.clean <==>
                && !openFails && AllReadable(breaks, |ChunkIds(store.env, Delivered(script))|)
                && NoneCorrupt(store.env, old(store.files), Delivered(script)))
    ensures uploaded.Ok? && answer.Ok? && answer.value.clean ==>
              answer.value == Object(Delivered(script), |Delivered(script)|, true)
  {
    ghost var before := RegisterUpload(store.View(), u);
    answer := Err;
    ghost var touched, res;
    uploaded, touched, res := store.ProcessUpload(u, script, cancelled, fault, now, commitFails, sessionFails);
    if uploaded.Ok? {
      UploadThenOpen(store.env, before, touched, store.View(), u, script, now, res);
      answer := store.OpenObject(uploaded.value.manifestId, openFails, breaks);
    }
  }

  /** A store with nothing in it but one file that does not hold what its name says. */
  function OneBadFile(env: Env, u: UploadId, bad: Bytes): State {
    State(map[], map[], map[env.hash(VaultSweep.TINY) := ChunkFile(bad, 0)], map[u := {}])
  }

  /** The upload succeeds over the bad file, leaves it in place, and the object never opens. */
  lemma CorruptChunkSurvivesUpload(env: Env, u: UploadId, bad: Bytes, now: Time)
    returns (touched: State, after: State, res: UploadResult)
    requires Sound(env) && bad != VaultSweep.TINY
    ensures Uploaded(env, OneBadFile(env, u, bad), touched, after, u, [Read(VaultSweep.TINY, EndOfFile)], now, res)
    ensures res.manifestId in after.manifests
    ensures var m := after.manifests[res.manifestId];
            !m.retired && Present(after.files, m) && !Intact(env, after.files, m)
  {
    var before, script := OneBadFile(env, u, bad), [Read(VaultSweep.TINY, EndOfFile)];
    var h, parts := env.hash(VaultSweep.TINY), [VaultSweep.TINY];
    VaultSweep.TinyIsOneChunk(env.chunking);
    assert Delivered(script) == VaultSweep.TINY;
    assert Hashes(env, parts) == [h];
    touched := TouchAll(env, before, u, parts, now);
    FilesAfterTouching(env, before, u, parts, now);
    TouchAllAdds(env, before, u, parts, now);
    assert h in HashSet(env, parts);
    var m := NewManifest(env, VaultSweep.TINY, [h], now);
    assert Commit(touched, m).Ok?;
    after := UnregisterUpload(Commit(touched, m).value, u);
    assert HashSet(env, parts) - before.records.Keys == {h};
    res := UploadResult(h, 1, 1, 1, 0);
    if env.hash(bad) == h {
      SameContent(env, bad, VaultSweep.TINY);
      assert false;
    }
    assert h in ChunkIds(env, VaultSweep.TINY);
    UploadThenOpen(env, before, touched, after, u, script, now, res);
  }
}
