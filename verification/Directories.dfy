/** The directory repository, transaction by transaction. */
module Directories {
  import opened Vault
  import opened Metadata
  import opened Forest
  import opened Directory
  import opened Trash
  import opened Outbox
  import Repository

  function FilesUnder(files: map<RowId, File>, subtree: set<DirId>): set<RowId> {
    set r | r in files && FileIn(files[r], subtree)
  }

  method CommittedManifests(files: map<RowId, File>, subtree: set<DirId>) returns (ids: seq<Hash>)
    ensures forall id :: id in ids <==> exists r :: r in files && FileIn(files[r], subtree) && Refers(RowsOf(files)[r], id)
  {
    ids := [];
    var rest := files.Keys;
    while rest != {}
      invariant rest <= files.Keys
      invariant forall id :: id in ids <==>
                  exists r :: r in files && r !in rest && FileIn(files[r], subtree) && Refers(RowsOf(files)[r], id)
      decreases |rest|
    {
      var r :| r in rest;
      var f := files[r];
      if FileIn(f, subtree) && f.status == Committed && f.manifest.Some? {
        ids := ids + [f.manifest.value];
        assert Refers(RowsOf(files)[r], f.manifest.value);
      }
      rest := rest - {r};
    }
  }

  /** Among the listed manifests of the subtree, those without another row are the ones that lose their last. */
  lemma LostAreQueued(files: map<RowId, File>, subtree: set<DirId>, ids: seq<Hash>, q: Queue, q': Queue)
    requires forall id :: id in ids <==> exists r :: r in files && FileIn(files[r], subtree) && Refers(RowsOf(files)[r], id)
    requires var left := RowsOf(files) - FilesUnder(files, subtree);
             && (forall id :: id in q' <==> id in q || (id in ids && !HasReferences(left, id)))
             && (forall id | id in q' ::
                   q'[id].request == if id in ids && !HasReferences(left, id) then Queued else q[id].request)
    ensures var rows, gone := RowsOf(files), FilesUnder(files, subtree);
            DeletesRows(Db(rows, RequestsOf(q)), gone, Db(rows - gone, RequestsOf(q')))
  {
    var rows, gone := RowsOf(files), FilesUnder(files, subtree);
    assert forall id :: LosesLastReference(rows, gone, id) <==> id in ids && !HasReferences(rows - gone, id);
  }

  lemma FewerFilesKeepNames(fold: Fold, files: map<RowId, File>, left: map<RowId, File>)
    requires UniqueNames(fold, files) && forall r | r in left :: r in files && left[r] == files[r]
    ensures UniqueNames(fold, left)
  {
  }

  class DirectoryRepository {
    const fold: Fold
    var dirs: map<DirId, Dir>
    var closure: set<Link>
    var files: map<RowId, File>
    var outbox: Queue
    ghost var parent: Parents

    function View(): Tables
      reads this
    {
      Tables(dirs, closure, files)
    }

    ghost predicate Valid()
      reads this
    {
      Indexed(View(), parent) && UniqueNames(fold, files)
    }

    /** Opens a database that other parts of the application fill with files. */
    constructor (fold: Fold, t: Tables, requests: Queue, ghost parent: Parents)
      requires Indexed(t, parent) && UniqueNames(fold, t.files)
      ensures Valid() && this.fold == fold && View() == t && outbox == requests && this.parent == parent
    {
      this.fold := fold;
      dirs, closure, files, outbox := t.dirs, t.closure, t.files, requests;
      this.parent := parent;
    }

    /** id is what the database generates for the new row. */
    method Create(user: UserId, name: string, up: Option<DirId>, id: DirId) returns (outcome: Outcome<()>)
      requires Valid() && id !in dirs
      modifies this`dirs, this`closure, this`parent
      ensures Valid()
      ensures outcome == NotFound <==> up.Some? && !OwnedActive(old(View()), up.value, user)
      ensures outcome == Conflict <==>
              && outcome != NotFound
              && exists d :: d in old(parent) && old(parent)[d] == up && OwnedActive(old(View()), d, user)
                             && fold(old(dirs)[d].name) == fold(name)
      ensures outcome == Done(()) ==> parent == old(parent)[id := up] && dirs == old(dirs)[id := Dir(user, name, None)]
      ensures outcome != Done(()) ==> View() == old(View()) && parent == old(parent)
      ensures outcome != Rejected
    {
      TakenMeansActiveSibling(fold, View(), parent, user, name, up);
      if up.Some? && !OwnedActive(View(), up.value, user) {
        return NotFound;
      }
      if Taken(fold, View(), user, name, up) {
        return Conflict;
      }
      CreateKeepsIndex(fold, View(), parent, user, name, up, id);
      dirs := dirs[id := Dir(user, name, None)];
      if up.None? {
        closure := closure + {Link(id, id, 0)};
      } else {
        var inherited := set l | l in closure && l.descendant == up.value :: Link(l.ancestor, id, l.depth + 1);
        closure := closure + ({Link(id, id, 0)} + inherited);
      }
      parent := parent[id := up];
      outcome := Done(());
    }

    method SoftDeleteSubtree(d: DirId, user: UserId, now: Time) returns (outcome: Outcome<()>)
      requires Valid()
      modifies this`dirs, this`files
      ensures Valid()
      ensures outcome == if OwnedActive(old(View()), d, user) then Done(()) else NotFound
      ensures outcome == Done(()) ==> SoftDelete(old(View()), d, user, now) == Done(View())
      ensures outcome == Done(()) ==> dirs.Keys == old(dirs).Keys && forall x | x in dirs ::
                dirs[x] == if IsAncestor(parent, d, x) then old(dirs)[x].(deletedAt := Dated(old(dirs)[x].deletedAt, now))
                           else old(dirs)[x]
      ensures outcome == Done(()) ==> files.Keys == old(files).Keys && forall r | r in files ::
                files[r] == if LiesUnder(parent, d, old(files)[r])
                            then old(files)[r].(deletedAt := Dated(old(files)[r].deletedAt, now)) else old(files)[r]
      ensures outcome != Done(()) ==> View() == old(View())
    {
      if !OwnedActive(View(), d, user) {
        return NotFound;
      }
      SoftDeleteKeepsIndex(View(), parent, d, user, now);
      SoftDeleteExactly(View(), parent, d, user, now);
      SubtreeIsBelow(closure, parent, d);
      SubtreeHasOneOwner(View(), parent, d);
      var gone := Subtree(closure, d);
      SoftDeleteKeepsNames(fold, View(), gone, now);
      var trashedFiles := TrashedFiles(View(), gone, now);
      var trashedDirs := TrashedDirs(View(), gone, user, now);
      files := trashedFiles;
      dirs := trashedDirs;
      outcome := Done(());
    }

    method RestoreSubtree(d: DirId, user: UserId) returns (outcome: Outcome<()>)
      requires Valid()
      modifies this`dirs, this`files
      ensures Valid()
      ensures outcome == NotFound <==> !OwnedDeleted(old(View()), d, user)
      ensures outcome == Done(()) <==> OwnedDeleted(old(View()), d, user) && NamesApart(fold, old(files), Subtree(closure, d))
      ensures outcome == Done(()) ==> Restore(fold, old(View()), d, user) == Done(View())
      ensures outcome == Done(()) ==> dirs.Keys == old(dirs).Keys && forall x | x in dirs ::
                dirs[x] == if IsAncestor(parent, d, x) then old(dirs)[x].(deletedAt := None) else old(dirs)[x]
      ensures outcome == Done(()) ==> files.Keys == old(files).Keys && forall r | r in files ::
                files[r] == if LiesUnder(parent, d, old(files)[r]) then old(files)[r].(deletedAt := None) else old(files)[r]
      ensures outcome != Done(()) ==> View() == old(View())
      ensures outcome != Conflict
    {
      if !OwnedDeleted(View(), d, user) {
        return NotFound;
      }
      RestoreGoesThrough(fold, View(), parent, d, user);
      SubtreeIsBelow(closure, parent, d);
      SubtreeHasOneOwner(View(), parent, d);
      var back := Subtree(closure, d);
      var restoredDirs := RestoredDirs(View(), back, user);
      var restoredFiles := RestoredFiles(View(), back, user);
      if !UniqueNames(fold, restoredFiles) {
        return Rejected;
      }
      RestoreKeepsIndex(fold, View(), parent, d, user);
      RestoreExactly(fold, View(), parent, d, user);
      dirs := restoredDirs;
      files := restoredFiles;
      outcome := Done(());
    }

    /** The files of the subtree go, and their lost manifests are queued. */
    method DropFiles(subtree: set<DirId>, now: Time)
      modifies this`files, this`outbox
      ensures files == map r | r in old(files) && !FileIn(old(files)[r], subtree) :: old(files)[r]
      ensures DeletesRows(Db(RowsOf(old(files)), RequestsOf(old(outbox))),
                          FilesUnder(old(files), subtree),
                          Db(RowsOf(files), RequestsOf(outbox)))
    {
      hide DeletesRows, LosesLastReference, HasReferences, Refers, RequestsOf;
      var ids := CommittedManifests(files, subtree);
      ghost var gone := FilesUnder(files, subtree);
      files := map r | r in files && !FileIn(files[r], subtree) :: files[r];
      assert RowsOf(files) == RowsOf(old(files)) - gone;
      outbox := Repository.QueueManifestRetirements(RowsOf(files), outbox, ids, now);
      LostAreQueued(old(files), subtree, ids, old(outbox), outbox);
    }

    /** The subtree goes with its files, and exactly the manifests that lose their last committed row are queued. */
    method PermanentDeleteSubtree(d: DirId, user: UserId, now: Time) returns (outcome: Outcome<()>)
      requires Valid()
      modifies this
      ensures Valid()
      ensures outcome == if OwnedDeleted(old(View()), d, user) then Done(()) else NotFound
      ensures outcome == Done(()) ==> parent == old(parent) - Subtree(old(closure), d)
      ensures outcome == Done(()) ==> PermanentDelete(old(View()), d, user) == Done(View())
      ensures outcome == Done(()) ==>
                && (forall x :: x in dirs <==> x in old(dirs) && !IsAncestor(old(parent), d, x))
                && (forall r :: r in files <==> r in old(files) && !LiesUnder(old(parent), d, old(files)[r]))
      ensures outcome == Done(()) ==>
                DeletesRows(Db(RowsOf(old(files)), RequestsOf(old(outbox))),
                            FilesUnder(old(files), Subtree(old(closure), d)),
                            Db(RowsOf(files), RequestsOf(outbox)))
      ensures outcome != Done(()) ==> View() == old(View()) && outbox == old(outbox) && parent == old(parent)
    {
      hide DeletesRows, LiesUnder, IsAncestor, Indexed, UniqueNames;
      PermanentDeleteKeepsIndex(View(), parent, d, user);
      if !OwnedDeleted(View(), d, user) {
        return NotFound;
      }
      PermanentDeleteExactly(View(), parent, d, user);
      ghost var t' := PermanentDelete(View(), d, user).value;
      var subtree := Subtree(closure, d);
      SubtreeHasOneOwner(View(), parent, d);
      DropFiles(subtree, now);
      FewerFilesKeepNames(fold, old(files), files);
      closure := Unlinked(closure, subtree);
      dirs := map x | x in dirs && !(x in subtree && dirs[x].owner == user) :: dirs[x];
      parent := parent - subtree;
      outcome := Done(());
      assert dirs == t'.dirs && files == t'.files && closure == t'.closure;
    }
  }
}
