/** Reading an object back: what a manifest and the chunk files spell out. */
module Objects {
  import opened FastCdc
  import opened Vault
  import opened VaultMachine

  function Assemble(files: map<Hash, ChunkFile>, hashes: seq<Hash>): Bytes
    requires forall h | h in hashes :: h in files
  {
    if hashes == [] then []
    else Assemble(files, hashes[..|hashes| - 1]) + files[hashes[|hashes| - 1]].bytes
  }

  ghost predicate Verified(env: Env, files: map<Hash, ChunkFile>, hashes: seq<Hash>)
    requires forall h | h in hashes :: h in files
  {
    forall h | h in hashes :: env.hash(files[h].bytes) == h
  }

  predicate Present(files: map<Hash, ChunkFile>, m: Manifest) {
    forall h | h in m.chunkHashes :: h in files
  }

  /** Every chunk file and the whole object hash to what the manifest says. */
  ghost predicate Intact(env: Env, files: map<Hash, ChunkFile>, m: Manifest)
    requires Present(files, m)
  {
    Verified(env, files, m.chunkHashes) && env.hash(Assemble(files, m.chunkHashes)) == m.fileHash
  }

  /** Files that hash to a content's chunk ids can only spell that content. */
  lemma {:induction false} AssembleParts(env: Env, files: map<Hash, ChunkFile>, parts: seq<Bytes>)
    requires Sound(env)
    requires forall h | h in Hashes(env, parts) :: h in files && env.hash(files[h].bytes) == h
    ensures Assemble(files, Hashes(env, parts)) == Concat(parts)
  {
    if parts == [] {
    } else {
      var n := |parts| - 1;
      var front, last := parts[..n], parts[n];
      assert Hashes(env, parts)[..n] == Hashes(env, front);
      AssembleParts(env, files, front);
      assert env.hash(last) in Hashes(env, parts);
      SameContent(env, files[env.hash(last)].bytes, last);
      assert parts == front + [last];
      ConcatAppend(front, [last]);
      assert Concat([last]) == last + Concat([]) == last;
    }
  }

  /** Round trip: with every chunk in place an upload's manifest spells exactly its content. */
  lemma StoredContentComesBack(env: Env, files: map<Hash, ChunkFile>, m: Manifest, content: Bytes)
    requires Sound(env) && FilesOk(env, files) && Present(files, m)
    requires m.fileHash == env.hash(content) && m.chunkHashes == ChunkIds(env, content)
    ensures Intact(env, files, m) && Assemble(files, m.chunkHashes) == content
  {
    AssembleParts(env, files, SplitBytes(env.chunking, content));
    SplitIsChunking(env.chunking, content);
  }

  /** Over any files whatsoever, an object that passes its checks is the uploaded content. */
  lemma CleanMeansOriginal(env: Env, files: map<Hash, ChunkFile>, m: Manifest, content: Bytes)
    requires Sound(env) && Present(files, m) && m.fileHash == env.hash(content)
    ensures Intact(env, files, m) ==> Assemble(files, m.chunkHashes) == content
  {
    if Intact(env, files, m) {
      SameContent(env, Assemble(files, m.chunkHashes), content);
    }
  }

  /** In every run every kept manifest opens to the content it was committed for. */
  lemma KeptObjectsReadBack(env: Env, steps: seq<Step>, w: World, id: Hash)
    requires Sound(env) && Run(env, EMPTY, steps, w)
    requires id in w.s.manifests && Kept(w.s.manifests[id], w.horizon)
    ensures id in w.contents && Present(w.s.files, w.s.manifests[id])
    ensures Intact(env, w.s.files, w.s.manifests[id])
    ensures Assemble(w.s.files, w.s.manifests[id].chunkHashes) == w.contents[id]
    ensures w.s.manifests[id].totalSize == |w.contents[id]|
  {
    RunKeepsInv(env, EMPTY, steps, w);
    assert ManifestOk(env, id, w.s.manifests[id], w.contents);
    assert Within(w.s.manifests[id].chunkHashes, Stored(w.s));
    StoredContentComesBack(env, w.s.files, w.s.manifests[id], w.contents[id]);
  }
}
