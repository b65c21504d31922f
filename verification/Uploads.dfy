/** An upload that runs alone: what touching its chunks one after the other adds to the state. */
module Uploads {
  import opened FastCdc
  import opened Vault

  function TouchAll(env: Env, s: State, u: UploadId, parts: seq<Bytes>, now: Time): State {
    if parts == [] then s
    else
      var last := parts[|parts| - 1];
      Touch(TouchAll(env, s, u, parts[..|parts| - 1], now), u, env.hash(last), last, now)
  }

  ghost function HashSet(env: Env, parts: seq<Bytes>): set<Hash> {
    set h | h in Hashes(env, parts)
  }

  lemma HashSetSnoc(env: Env, front: seq<Bytes>, last: Bytes)
    ensures Hashes(env, front + [last]) == Hashes(env, front) + [env.hash(last)]
    ensures HashSet(env, front + [last]) == HashSet(env, front) + {env.hash(last)}
  {
    assert Hashes(env, front + [last]) == Hashes(env, front) + [env.hash(last)];
  }

  /** s' is s with records and files for the hashes in hs, which upload u has marked. */
  ghost predicate Added(s: State, s': State, u: UploadId, hs: set<Hash>)
    requires u in s.active
  {
    && s'.manifests == s.manifests
    && s'.records.Keys == s.records.Keys + hs
    && s'.files.Keys == s.files.Keys + hs
    && (forall h | h in s.records :: s'.records[h] == s.records[h])
    && (forall h | h in s.files :: s'.files[h] == s.files[h])
    && s'.active == s.active[u := s.active[u] + hs]
  }

  lemma TouchAddsStored(s: State, u: UploadId, h: Hash, bytes: Bytes, now: Time)
    ensures var s' := Touch(s, u, h, bytes, now);
            && s'.manifests == s.manifests
            && s'.records.Keys == s.records.Keys + {h} && s'.files.Keys == s.files.Keys + {h}
            && (forall k | k in s.records :: s'.records[k] == s.records[k])
            && (forall k | k in s.files :: s'.files[k] == s.files[k])
            && s'.active == if u in s.active then s.active[u := s.active[u] + {h}] else s.active
  {
    var filed := WriteIfMissing(s, h, bytes, now);
    var recorded := RecordIfMissing(filed, h, |bytes|, now);
    assert filed.files.Keys == s.files.Keys + {h};
    assert recorded.records.Keys == s.records.Keys + {h};
    assert Touch(s, u, h, bytes, now) == MarkActive(recorded, u, h);
  }

  lemma TouchAdds(s: State, s': State, u: UploadId, hs: set<Hash>, h: Hash, bytes: Bytes, now: Time)
    requires u in s.active && Added(s, s', u, hs)
    ensures Added(s, Touch(s', u, h, bytes, now), u, hs + {h})
  {
    TouchAddsStored(s', u, h, bytes, now);
    assert s.active[u] + hs + {h} == s.active[u] + (hs + {h});
    assert s.records.Keys + hs + {h} == s.records.Keys + (hs + {h});
    assert s.files.Keys + hs + {h} == s.files.Keys + (hs + {h});
  }

  /**
   * Touching adds a record and a file for exactly the missing hashes, overwrites nothing, and
   * marks every chunk as in use by this upload and by no other.
   */
  lemma {:induction false} TouchAllAdds(env: Env, s: State, u: UploadId, parts: seq<Bytes>, now: Time)
    requires u in s.active
    ensures Added(s, TouchAll(env, s, u, parts, now), u, HashSet(env, parts))
  {
    if parts == [] {
      assert s.active[u] + HashSet(env, parts) == s.active[u];
    } else {
      var front, last := parts[..|parts| - 1], parts[|parts| - 1];
      assert parts == front + [last];
      HashSetSnoc(env, front, last);
      TouchAllAdds(env, s, u, front, now);
      TouchAdds(s, TouchAll(env, s, u, front, now), u, HashSet(env, front), env.hash(last), last, now);
    }
  }

  /** A file that touching adds holds the bytes of its chunk. */
  lemma {:induction false} NewFilesAreRight(env: Env, s: State, u: UploadId, parts: seq<Bytes>, now: Time)
    ensures forall h | h in TouchAll(env, s, u, parts, now).files && h !in s.files ::
              env.hash(TouchAll(env, s, u, parts, now).files[h].bytes) == h
  {
    if parts != [] {
      NewFilesAreRight(env, s, u, parts[..|parts| - 1], now);
    }
  }

  /** What touching adds is new: unreferenced, of the size of its chunk, and as old as the call. */
  lemma {:induction false} NewChunksAreNew(env: Env, s: State, u: UploadId, parts: seq<Bytes>, now: Time)
    ensures var s' := TouchAll(env, s, u, parts, now);
            && (forall h | h in s'.records && h !in s.records ::
                  exists p :: p in parts && env.hash(p) == h && s'.records[h] == ChunkRecord(h, |p|, 0, false, now))
            && (forall h | h in s'.files && h !in s.files ::
                  exists p :: p in parts && env.hash(p) == h && s'.files[h] == ChunkFile(p, now))
  {
    if parts != [] {
      var front, last := parts[..|parts| - 1], parts[|parts| - 1];
      NewChunksAreNew(env, s, u, front, now);
      assert parts == front + [last];
    }
  }

  lemma HashSetConcat(env: Env, a: seq<Bytes>, b: seq<Bytes>)
    ensures HashSet(env, a + b) == HashSet(env, a) + HashSet(env, b)
  {
    assert Hashes(env, a + b) == Hashes(env, a) + Hashes(env, b);
  }

  /**
   * Deduplication across files: when p + s is stored and q + s cuts where p + s cuts, at the
   * start of s, uploading q + s creates records for chunks of q only.
   */
  lemma SharedSuffixCreatesNoRecords(env: Env, st: State, u: UploadId, p: Bytes, q: Bytes, s: Bytes, now: Time)
    requires env.chunking.cfg.Valid() && u in st.active
    requires IsCutPoint(env.chunking, p + s, |p|) && IsCutPoint(env.chunking, q + s, |q|)
    requires HashSet(env, SplitBytes(env.chunking, p + s)) <= st.records.Keys
    ensures TouchAll(env, st, u, SplitBytes(env.chunking, q + s), now).records.Keys
         == st.records.Keys + HashSet(env, SplitBytes(env.chunking, q))
  {
    var c := env.chunking;
    Resynchronise(c, p, s);
    Resynchronise(c, q, s);
    HashSetConcat(env, SplitBytes(c, p), SplitBytes(c, s));
    HashSetConcat(env, SplitBytes(c, q), SplitBytes(c, s));
    TouchAllAdds(env, st, u, SplitBytes(c, q + s), now);
  }
}
