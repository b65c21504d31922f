/** Reference counts: what ManifestRefCount says about the stored manifests in every run. */
module VaultCounts {
  import opened Vault
  import opened VaultMachine

  function Multiplicity(m: Manifest, h: Hash): nat {
    multiset(m.chunkHashes)[h]
  }

  /** Occurrences of h over the chunk lists of all stored manifests. */
  ghost function Occurrences(ms: map<Hash, Manifest>, h: Hash): nat {
    if ms == map[] then 0
    else
      var id :| id in ms;
      Multiplicity(ms[id], h) + Occurrences(ms - {id}, h)
  }

  lemma {:induction false} OccurrencesSplit(ms: map<Hash, Manifest>, id: Hash, h: Hash)
    requires id in ms
    ensures Occurrences(ms, h) == Multiplicity(ms[id], h) + Occurrences(ms - {id}, h)
    decreases |ms|
  {
    var k :| k in ms && Occurrences(ms, h) == Multiplicity(ms[k], h) + Occurrences(ms - {k}, h);
    if k != id {
      OccurrencesSplit(ms - {k}, id, h);
      OccurrencesSplit(ms - {id}, k, h);
      assert ms - {k} - {id} == ms - {id} - {k};
    }
  }

  /** Storing a manifest under id replaces what id contributed before. */
  lemma OccurrencesUpdate(ms: map<Hash, Manifest>, id: Hash, m: Manifest, h: Hash)
    ensures Occurrences(ms[id := m], h)
         == Multiplicity(m, h) + Occurrences(ms, h) - (if id in ms then Multiplicity(ms[id], h) else 0)
  {
    OccurrencesSplit(ms[id := m], id, h);
    if id in ms {
      OccurrencesSplit(ms, id, h);
      assert ms[id := m] - {id} == ms - {id};
    } else {
      assert ms[id := m] - {id} == ms;
    }
  }

  lemma {:induction false} OccurrencesPositive(ms: map<Hash, Manifest>, h: Hash)
    ensures Occurrences(ms, h) > 0 <==> exists id :: id in ms && h in ms[id].chunkHashes
    decreases |ms|
  {
    if ms != map[] {
      var k :| k in ms && Occurrences(ms, h) == Multiplicity(ms[k], h) + Occurrences(ms - {k}, h);
      OccurrencesPositive(ms - {k}, h);
      assert Multiplicity(ms[k], h) > 0 <==> h in ms[k].chunkHashes;
      if id :| id in ms && h in ms[id].chunkHashes && id != k {
        assert id in ms - {k};
      }
    }
  }

  ghost predicate CountOk(s: State, swept: set<Hash>, h: Hash) {
    if h in s.records then
      && 0 <= s.records[h].refCount <= Occurrences(s.manifests, h)
      && (s.records[h].retained <==> s.records[h].refCount > 0)
      && (h !in swept ==> s.records[h].refCount == Occurrences(s.manifests, h))
    else
      h !in swept ==> Occurrences(s.manifests, h) == 0
  }

  ghost predicate CountsOk(w: World) {
    forall h :: CountOk(w.s, w.swept, h)
  }

  lemma CommitKeepsCount(s: State, m: Manifest, swept: set<Hash>, h: Hash)
    requires CountOk(s, swept, h) && Commit(s, m).Ok?
    ensures CountOk(Commit(s, m).value, swept, h)
  {
    var s' := Commit(s, m).value;
    var id := m.manifestId;
    if id in s.manifests {
      OccurrencesUpdate(s.manifests, id, Reactivated(s.manifests[id]), h);
    } else {
      OccurrencesUpdate(s.manifests, id, m, h);
      assert h in m.chunkHashes <==> Multiplicity(m, h) > 0;
      assert h in m.chunkHashes ==> h in s.records;
    }
  }

  lemma LifecycleKeepsCount(s: State, id: Hash, retired: bool, now: Time, swept: set<Hash>, h: Hash)
    requires CountOk(s, swept, h) && SetLifecycle(s, id, retired, now).Ok?
    ensures CountOk(SetLifecycle(s, id, retired, now).value, swept, h)
  {
    var m := s.manifests[id];
    OccurrencesUpdate(s.manifests, id, if retired then Retired(m, now) else Reactivated(m), h);
  }

  lemma StepKeepsCount(env: Env, w: World, a: Step, h: Hash)
    requires env.chunking.cfg.Valid() && Enabled(w, a) && CountOk(w.s, w.swept, h)
    ensures CountOk(Apply(env, w, a).s, Apply(env, w, a).swept, h)
  {
    match a
    case CommitUpload(u, now) =>
      var m := NewManifest(env, w.uploads[u].content, w.uploads[u].touched, now);
      if Commit(w.s, m).Ok? {
        CommitKeepsCount(w.s, m, w.swept, h);
      }
    case Retire(id, now) =>
      if SetLifecycle(w.s, id, true, now).Ok? {
        LifecycleKeepsCount(w.s, id, true, now, w.swept, h);
      }
    case Retain(id) =>
      if SetLifecycle(w.s, id, false, 0).Ok? {
        LifecycleKeepsCount(w.s, id, false, 0, w.swept, h);
      }
    case _ =>
  }

  lemma {:induction false} RunKeepsCounts(env: Env, w: World, steps: seq<Step>, w': World)
    requires env.chunking.cfg.Valid() && Run(env, w, steps, w') && CountsOk(w)
    ensures CountsOk(w')
    decreases |steps|
  {
    if steps != [] {
      forall h {
        StepKeepsCount(env, w, steps[0], h);
      }
      RunKeepsCounts(env, Apply(env, w, steps[0]), steps[1..], w');
    }
  }

  /**
   * In every run a count is never negative and never exceeds the true number of occurrences,
   * and is exact until the sweep first deletes the chunk's record; the mark beside it says
   * whether it is positive.
   */
  lemma CountsInEveryRun(env: Env, steps: seq<Step>, w: World, h: Hash)
    requires env.chunking.cfg.Valid() && Run(env, EMPTY, steps, w) && h in w.s.records
    ensures 0 <= w.s.records[h].refCount <= Occurrences(w.s.manifests, h)
    ensures h !in w.swept ==> w.s.records[h].refCount == Occurrences(w.s.manifests, h)
    ensures w.s.records[h].retained <==> w.s.records[h].refCount > 0
  {
    assert CountsOk(EMPTY);
    RunKeepsCounts(env, EMPTY, steps, w);
    assert CountOk(w.s, w.swept, h);
  }

  /** The branch for a positive count without any manifest is never taken. */
  lemma PositiveCountHasManifest(env: Env, steps: seq<Step>, w: World, h: Hash)
    requires env.chunking.cfg.Valid() && Run(env, EMPTY, steps, w)
    requires h in w.s.records && w.s.records[h].refCount != 0
    ensures Referenced(w.s, h) || InRetired(w.s, h)
  {
    CountsInEveryRun(env, steps, w, h);
    OccurrencesPositive(w.s.manifests, h);
  }
}
