/** The file repository and the retirement worker's item, call by call. */
module Repository {
  import opened Vault
  import opened Metadata
  import opened Forest
  import opened Directory
  import opened Outbox
  import St = Store

  method HasManifestReferences(rows: map<RowId, Row>, id: Hash) returns (referenced: bool)
    ensures referenced <==> HasReferences(rows, id)
    ensures referenced <==> exists r :: r in rows && rows[r].status == Committed && rows[r].manifest == Some(id)
  {
    var rest := rows.Keys;
    while rest != {}
      invariant rest <= rows.Keys
      invariant forall r | r in rows && r !in rest :: !Refers(rows[r], id)
      decreases |rest|
    {
      var r :| r in rest;
      if Refers(rows[r], id) {
        return true;
      }
      rest := rest - {r};
    }
    referenced := false;
  }

  /** Of the given manifests exactly the unreferenced ones are queued; what was pending or done stays on file. */
  method QueueManifestRetirements(rows: map<RowId, Row>, outbox: Queue, ids: seq<Hash>, now: Time)
    returns (queued: Queue)
    ensures forall id :: id in queued <==> id in outbox || (id in ids && !HasReferences(rows, id))
    ensures forall id | id in queued ::
              queued[id] == if id in ids && !HasReferences(rows, id) then Entry(Queued, 0, now) else outbox[id]
  {
    queued := outbox;
    var uniqueIds := set id | id in ids;
    var rest := uniqueIds;
    while rest != {}
      invariant rest <= uniqueIds
      invariant forall id :: id in queued <==> id in outbox || (id in uniqueIds - rest && !HasReferences(rows, id))
      invariant forall id | id in queued ::
                  queued[id] == if id in uniqueIds - rest && !HasReferences(rows, id) then Entry(Queued, 0, now)
                                else outbox[id]
      decreases |rest|
    {
      var id :| id in rest;
      var referenced := HasManifestReferences(rows, id);
      if !referenced {
        queued := Asked(queued, id, now);
      }
      rest := rest - {id};
    }
  }

  /** A row that has failed, and one more than it may have, leaves its name to the next upload of the same place. */
  lemma FailedRowFreesItsName(fold: Fold, files: map<RowId, File>, files': map<RowId, File>, row: RowId)
    requires UniqueNames(fold, files) && row in files && files[row].status != Failed && files[row].deletedAt.None?
    requires files'.Keys == files.Keys && files'[row].status == Failed
    requires forall r | r in files :: files'[r] == files[r] || files'[r] == files[r].(status := Failed)
    ensures forall r | r in files' ::
              var f, g := files'[r], files[row];
              !(f.owner == g.owner && f.dir == g.dir && fold(f.name) == fold(g.name) && f.status != Failed && f.deletedAt.None?)
  {
    forall r | r in files' && r != row && files'[r].status != Failed && SameName(fold, files[r], files[row])
      ensures files'[r].deletedAt.Some?
    {
      assert files'[r] == files[r];
    }
  }

  class FileRepository {
    const fold: Fold
    var dirs: map<DirId, Dir>
    var files: map<RowId, File>
    var outbox: Queue

    function View(): Db
      reads this
    {
      Db(RowsOf(files), RequestsOf(outbox))
    }

    constructor (fold: Fold, dirs: map<DirId, Dir>, files: map<RowId, File>, outbox: Queue)
      ensures this.fold == fold && this.dirs == dirs && this.files == files && this.outbox == outbox
    {
      this.fold, this.dirs, this.files, this.outbox := fold, dirs, files, outbox;
    }

    /** At the root, or in a directory that is there and not deleted. */
    predicate InActivePlace(f: File)
      reads this
    {
      f.dir.None? || (f.dir.value in dirs && dirs[f.dir.value].deletedAt.None?)
    }

    predicate Owns(user: UserId, row: RowId)
      reads this
    {
      row in files && files[row].owner == user
    }

    /** CreatePending: false stands for the unique index turning the name down. */
    method CreatePending(row: RowId, user: UserId, dir: Option<DirId>, name: string, now: Time) returns (ok: bool)
      requires row !in files && UniqueNames(fold, files)
      modifies this`files
      ensures UniqueNames(fold, files)
      ensures ok <==> forall r | r in old(files) ::
                var f := old(files)[r];
                !(f.owner == user && f.dir == dir && fold(f.name) == fold(name) && f.status != Failed && f.deletedAt.None?)
      ensures files == if ok then old(files)[row := File(user, dir, name, None, Pending, now, None)] else old(files)
      ensures ok ==> View() == Metadata.CreatePending(old(View()), row)
    {
      var f := File(user, dir, name, None, Pending, now, None);
      var rest := files.Keys;
      while rest != {}
        invariant rest <= files.Keys
        invariant forall r | r in files && r !in rest :: !(SameName(fold, files[r], f) && files[r].deletedAt.None?)
        decreases |rest|
      {
        var r :| r in rest;
        if SameName(fold, files[r], f) && files[r].deletedAt.None? {
          return false;
        }
        rest := rest - {r};
      }
      files := files[row := f];
      assert RowsOf(files) == RowsOf(old(files))[row := Row(None, Pending, false)];
      ok := true;
    }

    /** PermanentDelete: false stands for ErrNotFound. */
    method PermanentDelete(row: RowId, user: UserId, now: Time) returns (ok: bool)
      modifies this`files, this`outbox
      ensures ok <==>
              && row in old(files) && old(files)[row].owner == user
              && old(files)[row].status == Committed && old(files)[row].deletedAt.Some?
              && (old(files)[row].dir.Some?
                  ==> old(files)[row].dir.value in dirs && dirs[old(files)[row].dir.value].deletedAt.None?)
      ensures ok ==> files == old(files) - {row} && DeletesRows(old(View()), {row}, View())
      ensures !ok ==> files == old(files) && outbox == old(outbox)
    {
      if !(Owns(user, row) && files[row].status == Committed && InActivePlace(files[row]) && files[row].deletedAt.Some?) {
        return false;
      }
      ghost var rows: map<RowId, Row> := RowsOf(files);
      var ids := match files[row].manifest case Some(id) => [id] case None => [];
      files := files - {row};
      ghost var gone: set<RowId> := {row};
      assert RowsOf(files) == rows - gone;
      assert forall id :: id in ids <==> Refers(rows[row], id);
      assert forall id :: LosesLastReference(rows, gone, id) <==> id in ids && !HasReferences(RowsOf(files), id);
      outbox := QueueManifestRetirements(RowsOf(files), outbox, ids, now);
      ok := true;
    }

    /** MarkCommitted: false stands for ErrNotFound. */
    method MarkRowCommitted(row: RowId, user: UserId, id: Hash, now: Time) returns (ok: bool)
      modifies this`files
      ensures ok <==> row in old(files) && old(files)[row].owner == user && old(files)[row].status == Pending
      ensures files == if ok
                       then old(files)[row := old(files)[row].(manifest := Some(id), status := Committed, createdAt := now)]
                       else old(files)
      ensures ok ==> MarkCommitted(old(View()), row, id) == Ok(View())
    {
      if !Owns(user, row) || files[row].status != Pending {
        return false;
      }
      files := files[row := files[row].(manifest := Some(id), status := Committed, createdAt := now)];
      assert RowsOf(files) == RowsOf(old(files))[row := RowsOf(old(files))[row].(manifest := Some(id), status := Committed)];
      ok := true;
    }

    method MarkRowFailed(row: RowId, user: UserId)
      modifies this`files
      ensures View() == if old(Owns(user, row)) then MarkFailed(old(View()), row) else old(View())
      ensures files == if row in old(files) && old(files)[row].owner == user && old(files)[row].status == Pending
                       then old(files)[row := old(files)[row].(status := Failed)] else old(files)
    {
      if Owns(user, row) && files[row].status == Pending {
        files := files[row := files[row].(status := Failed)];
        assert RowsOf(files) == RowsOf(old(files))[row := RowsOf(old(files))[row].(status := Failed)];
      }
    }

    /** Fails the pending rows that are older than the given time. */
    method ExpireStalePending(olderThan: Time) returns (affected: nat)
      modifies this`files
      ensures var stale := set r | r in old(files) && old(files)[r].status == Pending && old(files)[r].createdAt < olderThan;
              View() == ExpirePending(old(View()), stale) && affected == |stale|
      ensures files.Keys == old(files).Keys && forall r | r in files ::
                files[r] == if old(files)[r].status == Pending && old(files)[r].createdAt < olderThan
                            then old(files)[r].(status := Failed) else old(files)[r]
    {
      var stale := set r | r in files && files[r].status == Pending && files[r].createdAt < olderThan;
      files := map r | r in files :: if r in stale then files[r].(status := Failed) else files[r];
      affected := |stale|;
      assert RowsOf(files) == ExpirePending(old(View()), stale).rows;
    }

    method RequeueManifestRetirement(id: Hash, now: Time)
      modifies this`outbox
      ensures outbox == Requeued(old(outbox), id, now)
      ensures outbox == if id in old(outbox) then old(outbox)[id := old(outbox)[id].(request := Queued, dueAt := now)]
                        else old(outbox)
      ensures View() == Requeue(old(View()), id)
    {
      if id in outbox {
        outbox := outbox[id := outbox[id].(request := Queued, dueAt := now)];
      }
      assert RequestsOf(outbox) == Requeue(old(View()), id).outbox;
    }

    method MarkManifestRetirementCompleted(id: Hash)
      modifies this`outbox
      ensures outbox == Finished(old(outbox), id)
      ensures outbox == if id in old(outbox) then old(outbox)[id := old(outbox)[id].(request := Completed)] else old(outbox)
      ensures View() == MarkCompleted(old(View()), id)
    {
      if id in outbox {
        outbox := outbox[id := outbox[id].(request := Completed)];
      }
      assert RequestsOf(outbox) == MarkCompleted(old(View()), id).outbox;
    }

    /** A failed attempt makes a request pending too, whatever its status, but puts it off. */
    method MarkManifestRetirementFailed(id: Hash, now: Time)
      modifies this`outbox
      ensures outbox == Postponed(old(outbox), id, now)
      ensures outbox == if id in old(outbox) then old(outbox)[id := old(outbox)[id].(request := Queued, dueAt := now + 60)]
                        else old(outbox)
      ensures View() == Requeue(old(View()), id)
    {
      if id in outbox {
        outbox := outbox[id := outbox[id].(request := Queued, dueAt := now + RETRY)];
      }
      assert RequestsOf(outbox) == Requeue(old(View()), id).outbox;
    }

    /**
     * The first of the due requests that no other transaction has locked, in the order of the
     * queue and up to the limit. A claim puts them off and changes no status.
     */
    method ClaimPendingManifestRetirements(limit: int, now: Time, rank: Hash -> int, locked: set<Hash>)
      returns (ids: seq<Hash>)
      requires Ranks(rank)
      modifies this`outbox
      ensures var cap := if limit <= 0 then 16 else if limit > 100 then 100 else limit;
              IsHead(old(outbox), rank, Claimable(old(outbox), locked, now), cap, ids)
      ensures outbox == Claimed(old(outbox), SetOf(ids), now)
      ensures View() == old(View())
      ensures forall id | id in ids ::
                id in old(outbox) && old(outbox)[id].request == Queued && old(outbox)[id].dueAt <= now && id !in locked
      ensures forall i, j | 0 <= i < j < |ids| ::
                var (a, b) := (old(outbox)[ids[i]], old(outbox)[ids[j]]);
                a.dueAt < b.dueAt || (a.dueAt == b.dueAt && rank(ids[i]) < rank(ids[j]))
      ensures forall k | k in old(outbox) && old(outbox)[k].request == Queued && old(outbox)[k].dueAt <= now
                         && k !in locked && k !in ids ::
                |ids| == (if limit <= 0 then 16 else if limit > 100 then 100 else limit)
                && forall i | 0 <= i < |ids| :: old(outbox)[ids[i]].dueAt <= old(outbox)[k].dueAt
      ensures outbox.Keys == old(outbox).Keys && forall id | id in outbox ::
                outbox[id] == if id in ids then old(outbox)[id].(attempts := old(outbox)[id].attempts + 1, dueAt := now + 60)
                              else old(outbox)[id]
    {
      var cap := if limit <= 0 then 16 else if limit > 100 then 100 else limit;
      var claimable := Claimable(outbox, locked, now);
      ids := FirstOf(outbox, rank, claimable, cap);
      PutOffClaimed(ids, now, rank, claimable, cap);
    }

    /** The claim's own update, request by request. */
    method PutOffClaimed(ids: seq<Hash>, now: Time, ghost rank: Hash -> int, ghost claimable: set<Hash>, ghost cap: nat)
      requires claimable <= outbox.Keys && IsHead(outbox, rank, claimable, cap, ids)
      requires forall id | id in claimable :: outbox[id].request == Queued
      modifies this`outbox
      ensures outbox == Claimed(old(outbox), SetOf(ids), now)
      ensures View() == old(View())
    {
      var i := 0;
      while i < |ids|
        invariant 0 <= i <= |ids|
        invariant outbox == Claimed(old(outbox), SetOf(ids[..i]), now)
      {
        NoRepeats(old(outbox), rank, claimable, cap, ids, i);
        var id := ids[i];
        if id in outbox && outbox[id].request == Queued {
          outbox := outbox[id := outbox[id].(attempts := outbox[id].attempts + 1, dueAt := now + RETRY)];
        }
        assert SetOf(ids[..i + 1]) == SetOf(ids[..i]) + {id};
        i := i + 1;
      }
      assert ids[..i] == ids;
      assert RequestsOf(outbox) == RequestsOf(old(outbox));
    }
  }

  /** Which of the worker's calls fail; record is the note about a failure, whose own error is ignored. */
  datatype Faults = Faults(firstCheck: bool, retire: bool, secondCheck: bool, retain: bool, complete: bool,
                           record: bool, recordedAt: Time)

  /**
   * What others do while an item is under way: files and outbox as they stand at the second look,
   * and what becomes of the Vault's manifests before the first call and after the retirement.
   */
  datatype Meanwhile = Meanwhile(files: map<RowId, File>, outbox: Queue,
                                 beforeCall: map<Hash, Manifest> -> map<Hash, Manifest>,
                                 afterRetire: map<Hash, Manifest> -> map<Hash, Manifest>)

  /** A failure puts the request off, unless taking note of it fails too. */
  function Noted(outbox: Queue, id: Hash, faults: Faults): Queue {
    if faults.record then outbox else Postponed(outbox, id, faults.recordedAt)
  }

  method RecordFailure(repo: FileRepository, id: Hash, faults: Faults)
    modifies repo`outbox
    ensures repo.outbox == Noted(old(repo.outbox), id, faults)
    ensures !faults.record && id in old(repo.outbox) ==>
              repo.outbox == old(repo.outbox)[id := old(repo.outbox)[id].(request := Queued, dueAt := faults.recordedAt + 60)]
  {
    if !faults.record {
      repo.MarkManifestRetirementFailed(id, faults.recordedAt);
    }
  }

  ghost predicate OthersKept(ms: map<Hash, Manifest>, ms': map<Hash, Manifest>, id: Hash) {
    forall k | k != id :: (k in ms' <==> k in ms) && (k in ms ==> ms'[k] == ms[k])
  }

  ghost predicate Unusable(ms: map<Hash, Manifest>, id: Hash) {
    id !in ms || !ValidManifest(ms[id])
  }

  /** The manifests as the others leave them to the item's last call. */
  ghost function LeftByOthers(ms: map<Hash, Manifest>, meanwhile: Meanwhile, id: Hash, now: Time, retires: bool):
      map<Hash, Manifest>
  {
    var first := meanwhile.beforeCall(ms);
    if !retires || Unusable(first, id) then first
    else meanwhile.afterRetire(if first[id].retired then first else first[id := Retired(first[id], now)])
  }

  /**
   * processManifestRetirement on one item. Success leaves the request completed, whatever has
   * become of it meanwhile; a manifest that either look found in use is in service, and one
   * that neither did is as the others left it after its retirement. A failure completes nothing,
   * whatever the Vault has been told by then.
   */
  method ProcessManifestRetirement(repo: FileRepository, vault: St.Store, id: Hash, now: Time, faults: Faults,
                                   meanwhile: Meanwhile) returns (ok: bool)
    requires id in repo.outbox && id in meanwhile.outbox
    modifies repo`files, repo`outbox, vault`manifests
    ensures var first := HasReferences(RowsOf(old(repo.files)), id);
            var second := HasReferences(RowsOf(meanwhile.files), id);
            var left := LeftByOthers(old(vault.manifests), meanwhile, id, now, !first && !faults.retire);
            var settled :=
              && !faults.firstCheck && !Unusable(meanwhile.beforeCall(old(vault.manifests)), id)
              && (first || (!faults.retire && !faults.secondCheck))
              && (first || second ==> !faults.retain && !Unusable(left, id));
            && (ok <==> settled && !faults.complete)
            && repo.outbox == (if ok then Finished(meanwhile.outbox, id)
                               else if settled then meanwhile.outbox
                               else Noted(if faults.firstCheck then old(repo.outbox) else meanwhile.outbox, id, faults))
            && (ok && (first || second) ==> id in vault.manifests && !vault.manifests[id].retired)
            && (ok && !first && !second ==> vault.manifests == left)
            && OthersKept(if faults.firstCheck then old(vault.manifests) else left, vault.manifests, id)
    ensures repo.files == if faults.firstCheck then old(repo.files) else meanwhile.files
  {
    hide HasReferences, RowsOf, ValidManifest, Finished, Postponed;
    if faults.firstCheck {
      RecordFailure(repo, id, faults);
      return false;
    }
    var referenced := HasManifestReferences(RowsOf(repo.files), id);
    repo.files, repo.outbox := meanwhile.files, meanwhile.outbox;
    vault.manifests := meanwhile.beforeCall(vault.manifests);
    if referenced {
      ok := RetainAndComplete(repo, vault, id, now, faults);
      return;
    }
    ok := vault.UpdateManifestLifecycle(id, true, now, faults.retire);
    if !ok {
      RecordFailure(repo, id, faults);
      return;
    }
    vault.manifests := meanwhile.afterRetire(vault.manifests);
    ok := LookAgain(repo, vault, id, now, faults);
  }

  /** The second look closes the window between the first one and the retirement. */
  method LookAgain(repo: FileRepository, vault: St.Store, id: Hash, now: Time, faults: Faults) returns (ok: bool)
    requires id in repo.outbox
    modifies repo`outbox, vault`manifests
    ensures var second := HasReferences(RowsOf(repo.files), id);
            var settled := !faults.secondCheck && (second ==> !faults.retain && !Unusable(old(vault.manifests), id));
            && (ok <==> settled && !faults.complete)
            && repo.outbox == (if ok then Finished(old(repo.outbox), id)
                               else if settled then old(repo.outbox)
                               else Noted(old(repo.outbox), id, faults))
            && (ok && second ==> id in vault.manifests && !vault.manifests[id].retired)
            && (!second ==> vault.manifests == old(vault.manifests))
    ensures OthersKept(old(vault.manifests), vault.manifests, id)
  {
    if faults.secondCheck {
      RecordFailure(repo, id, faults);
      return false;
    }
    var referenced := HasManifestReferences(RowsOf(repo.files), id);
    if referenced {
      ok := RetainAndComplete(repo, vault, id, now, faults);
      return;
    }
    ok := !faults.complete;
    if ok {
      repo.MarkManifestRetirementCompleted(id);
    }
  }

  /** The retain branch, reached from either look. */
  method RetainAndComplete(repo: FileRepository, vault: St.Store, id: Hash, now: Time, faults: Faults) returns (ok: bool)
    requires id in repo.outbox
    modifies repo`outbox, vault`manifests
    ensures var kept := SetLifecycle(old(vault.View()), id, false, now);
            && (ok <==> !faults.retain && kept.Ok? && !faults.complete)
            && vault.manifests == (if !faults.retain && kept.Ok? then kept.value.manifests else old(vault.manifests))
            && repo.outbox == (if ok then Finished(old(repo.outbox), id)
                               else if !faults.retain && kept.Ok? then old(repo.outbox)
                               else Noted(old(repo.outbox), id, faults))
  {
    ok := vault.UpdateManifestLifecycle(id, false, now, faults.retain);
    if !ok {
      RecordFailure(repo, id, faults);
      return;
    }
    ok := !faults.complete;
    if ok {
      repo.MarkManifestRetirementCompleted(id);
    }
  }
}
