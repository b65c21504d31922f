/** What soft deletes and restores add up to: trash roots, and when a restore undoes a delete. */
module Trash {
  import opened Vault
  import opened Metadata
  import opened Forest
  import opened Directory

  // ---------------------------------------------------------------- trash roots

  /** ListTrashRoots: deleted, with no deleted directory above it. */
  ghost predicate IsTrashRoot(t: Tables, user: UserId, d: DirId) {
    && OwnedDeleted(t, d, user)
    && forall l | l in t.closure && l.descendant == d && l.depth > 0 && l.ancestor in t.dirs ::
         t.dirs[l.ancestor].deletedAt.None?
  }

  /** A deleted directory is a trash root or lies under exactly one. */
  lemma {:induction false} TrashRootExists(t: Tables, parent: Parents, rank: map<DirId, nat>, d: DirId)
    requires Indexed(t, parent) && Ranked(parent, rank) && d in t.dirs && t.dirs[d].deletedAt.Some?
    ensures exists a :: IsTrashRoot(t, t.dirs[d].owner, a) && IsAncestor(parent, a, d)
    decreases rank[d]
  {
    if l :| l in t.closure && l.descendant == d && l.depth > 0 && l.ancestor in t.dirs && t.dirs[l.ancestor].deletedAt.Some? {
      assert AncestorAt(parent, d, l.depth) == Some(l.ancestor);
      RankFalls(parent, rank, d, l.depth);
      OwnersAgree(t.dirs, parent, d, l.depth);
      TrashRootExists(t, parent, rank, l.ancestor);
      var a :| IsTrashRoot(t, t.dirs[d].owner, a) && IsAncestor(parent, a, l.ancestor);
      IsAncestorTransitive(parent, a, l.ancestor, d);
    } else {
      assert AncestorAt(parent, d, 0) == Some(d);
      assert IsTrashRoot(t, t.dirs[d].owner, d);
    }
  }

  lemma NothingDeletedAbove(t: Tables, parent: Parents, user: UserId, a: DirId, b: DirId, d: DirId, j: nat, k: nat)
    requires Indexed(t, parent) && j < k && IsTrashRoot(t, user, a)
    requires AncestorAt(parent, d, j) == Some(a) && AncestorAt(parent, d, k) == Some(b)
    ensures b in t.dirs && t.dirs[b].deletedAt.None?
  {
    AncestorsCompose(parent, d, j, k - j);
    assert Link(b, a, k - j) in t.closure;
    OwnersAgree(t.dirs, parent, d, k);
  }

  lemma OneTrashRoot(t: Tables, parent: Parents, d: DirId)
    requires Indexed(t, parent) && d in t.dirs && t.dirs[d].deletedAt.Some?
    ensures exists a :: IsTrashRoot(t, t.dirs[d].owner, a) && IsAncestor(parent, a, d)
    ensures forall user, a, b | IsTrashRoot(t, user, a) && IsAncestor(parent, a, d) &&
                                IsTrashRoot(t, user, b) && IsAncestor(parent, b, d) :: a == b
  {
    var rank :| Ranked(parent, rank);
    TrashRootExists(t, parent, rank, d);
    forall user, a, b | IsTrashRoot(t, user, a) && IsAncestor(parent, a, d) &&
                        IsTrashRoot(t, user, b) && IsAncestor(parent, b, d)
      ensures a == b
    {
      var j: nat :| AncestorAt(parent, d, j) == Some(a);
      var k: nat :| AncestorAt(parent, d, k) == Some(b);
      if j < k {
        NothingDeletedAbove(t, parent, user, a, b, d, j, k);
      } else if k < j {
        NothingDeletedAbove(t, parent, user, b, a, d, k, j);
      }
    }
  }

  // ---------------------------------------------------------------- every step keeps the index

  lemma SoftDeleteKeepsIndex(t: Tables, parent: Parents, d: DirId, user: UserId, now: Time)
    requires Indexed(t, parent) && SoftDelete(t, d, user, now).Done?
    ensures Indexed(SoftDelete(t, d, user, now).value, parent)
  {
    assert SoftDelete(t, d, user, now).value.dirs.Keys == t.dirs.Keys;
  }

  lemma SoftDeleteKeepsNames(fold: Fold, t: Tables, gone: set<DirId>, now: Time)
    requires UniqueNames(fold, t.files)
    ensures UniqueNames(fold, TrashedFiles(t, gone, now))
  {
    var files := TrashedFiles(t, gone, now);
    forall r, s | r in files && s in files && r != s && SameName(fold, files[r], files[s])
      ensures files[r].deletedAt.Some? || files[s].deletedAt.Some?
    {
      assert SameName(fold, t.files[r], t.files[s]);
    }
  }

  lemma RestoreKeepsIndex(fold: Fold, t: Tables, parent: Parents, d: DirId, user: UserId)
    requires Indexed(t, parent) && Restore(fold, t, d, user).Done?
    ensures Indexed(Restore(fold, t, d, user).value, parent)
  {
    assert Restore(fold, t, d, user).value.dirs.Keys == t.dirs.Keys;
  }

  // ---------------------------------------------------------------- when a restore goes through

  /** No two live files in the given directories share owner, directory and folded name. */
  ghost predicate NamesApart(fold: Fold, files: map<RowId, File>, dirs: set<DirId>) {
    forall r, s | r in files && s in files && r != s && FileIn(files[r], dirs) :: !SameName(fold, files[r], files[s])
  }

  /** The unique index lets a restore through exactly when no two files under it share a name, trashed or not. */
  lemma RestoreGoesThrough(fold: Fold, t: Tables, parent: Parents, d: DirId, user: UserId)
    requires Indexed(t, parent) && UniqueNames(fold, t.files) && OwnedDeleted(t, d, user)
    ensures Restore(fold, t, d, user).Done? <==> NamesApart(fold, t.files, Subtree(t.closure, d))
    ensures Restore(fold, t, d, user).Done? || Restore(fold, t, d, user) == Rejected
  {
    var back := Subtree(t.closure, d);
    var files := RestoredFiles(t, back, user);
    SubtreeHasOneOwner(t, parent, d);
    if NamesApart(fold, t.files, back) {
      forall r, s | r in files && s in files && r != s && SameName(fold, files[r], files[s])
        ensures files[r].deletedAt.Some? || files[s].deletedAt.Some?
      {
        assert SameName(fold, t.files[r], t.files[s]);
        assert !FileIn(t.files[r], back);
      }
    } else {
      var r, s :| r in t.files && s in t.files && r != s && FileIn(t.files[r], back) && SameName(fold, t.files[r], t.files[s]);
      assert SameName(fold, files[r], files[s]) && files[r].deletedAt.None? && files[s].deletedAt.None?;
    }
  }

  // ---------------------------------------------------------------- restore after delete

  ghost predicate AllActive(t: Tables, under: set<DirId>) {
    && (forall x | x in under && x in t.dirs :: t.dirs[x].deletedAt.None?)
    && (forall r | r in t.files && FileIn(t.files[r], under) :: t.files[r].deletedAt.None?)
  }

  /** Restore gives back the very tables the soft delete found exactly when nothing under it was deleted before. */
  lemma RestoreUndoesSoftDelete(fold: Fold, t: Tables, parent: Parents, d: DirId, user: UserId, now: Time)
    requires Indexed(t, parent) && UniqueNames(fold, t.files) && OwnedActive(t, d, user)
    ensures Restore(fold, SoftDelete(t, d, user, now).value, d, user) == Done(t) <==>
            AllActive(t, Subtree(t.closure, d))
  {
    var under := Subtree(t.closure, d);
    var t1 := SoftDelete(t, d, user, now).value;
    SubtreeHasOneOwner(t, parent, d);
    var dirs, files := RestoredDirs(t1, under, user), RestoredFiles(t1, under, user);
    assert OwnedDeleted(t1, d, user);
    if AllActive(t, under) {
      assert dirs == t.dirs;
      assert files == t.files;
    } else if x :| x in under && x in t.dirs && t.dirs[x].deletedAt.Some? {
      assert dirs[x].deletedAt.None?;
      assert dirs != t.dirs;
    } else {
      var r :| r in t.files && FileIn(t.files[r], under) && t.files[r].deletedAt.Some?;
      assert files[r].deletedAt.None?;
      assert files != t.files;
    }
  }

  // ---------------------------------------------------------------- emptying the trash upwards

  function RestoreAll(fold: Fold, t: Tables, roots: seq<DirId>, user: UserId): Outcome<Tables>
    decreases |roots|
  {
    if roots == [] then Done(t)
    else
      var first := Restore(fold, t, roots[0], user);
      if first.Done? then RestoreAll(fold, first.value, roots[1..], user) else first
  }

  ghost predicate ListsTrashRoots(t: Tables, user: UserId, roots: seq<DirId>) {
    && (forall i, j | 0 <= i < j < |roots| :: roots[i] != roots[j])
    && (forall d :: d in roots <==> IsTrashRoot(t, user, d))
  }

  function Under(closure: set<Link>, roots: seq<DirId>): set<DirId> {
    set l | l in closure && l.ancestor in roots :: l.descendant
  }

  lemma TrashRootsApart(t: Tables, parent: Parents, user: UserId, a: DirId, b: DirId)
    requires Indexed(t, parent) && IsTrashRoot(t, user, b) && a in t.dirs && a != b && b in Subtree(t.closure, a)
    ensures t.dirs[a].deletedAt.None?
  {
    var l :| l in t.closure && l.ancestor == a && l.descendant == b;
    assert AncestorAt(parent, b, l.depth) == Some(a);
  }

  /** Restoring one trash root takes exactly that one off the list. */
  lemma RestoreTakesOneRoot(fold: Fold, t: Tables, parent: Parents, user: UserId, a: DirId, d: DirId)
    requires Indexed(t, parent) && IsTrashRoot(t, user, a) && Restore(fold, t, a, user).Done?
    ensures IsTrashRoot(Restore(fold, t, a, user).value, user, d) <==> IsTrashRoot(t, user, d) && d != a
  {
    var back := Subtree(t.closure, a);
    var t1 := Restore(fold, t, a, user).value;
    SubtreeHasOneOwner(t, parent, a);
    if IsTrashRoot(t, user, d) && d != a && d in back {
      TrashRootsApart(t, parent, user, a, d);
    }
    if IsTrashRoot(t1, user, d) {
      assert d !in back;
      forall l | l in t.closure && l.descendant == d && l.depth > 0 && l.ancestor in t.dirs
        ensures t.dirs[l.ancestor].deletedAt.None?
      {
        if l.ancestor in back {
          SubtreeIsBelow(t.closure, parent, a);
          assert AncestorAt(parent, d, l.depth) == Some(l.ancestor);
          IsAncestorTransitive(parent, a, l.ancestor, d);
          assert false;
        }
      }
    }
  }

  lemma NamesApartSplits(fold: Fold, files: map<RowId, File>, xs: set<DirId>, ys: set<DirId>)
    ensures NamesApart(fold, files, xs + ys) <==> NamesApart(fold, files, xs) && NamesApart(fold, files, ys)
  {
    forall f: File ensures FileIn(f, xs + ys) <==> FileIn(f, xs) || FileIn(f, ys) {}
  }

  lemma RestoreKeepsNames(fold: Fold, t: Tables, d: DirId, user: UserId, dirs: set<DirId>)
    requires Restore(fold, t, d, user).Done?
    ensures NamesApart(fold, Restore(fold, t, d, user).value.files, dirs) <==> NamesApart(fold, t.files, dirs)
  {
    var files := Restore(fold, t, d, user).value.files;
    forall r, s | r in files && s in files
      ensures SameName(fold, files[r], files[s]) <==> SameName(fold, t.files[r], t.files[s])
      ensures FileIn(files[r], dirs) <==> FileIn(t.files[r], dirs)
    {}
  }

  /**
   * Restoring every trash root, in any order, leaves none of the user's directories deleted,
   * and it goes through exactly when no two files under the trash roots share a name.
   */
  lemma {:induction false} RestoringEveryTrashRoot(fold: Fold, t: Tables, parent: Parents, roots: seq<DirId>, user: UserId)
    requires Indexed(t, parent) && UniqueNames(fold, t.files) && ListsTrashRoots(t, user, roots)
    ensures RestoreAll(fold, t, roots, user).Done? <==> NamesApart(fold, t.files, Under(t.closure, roots))
    ensures RestoreAll(fold, t, roots, user).Done? ==>
              forall d :: !OwnedDeleted(RestoreAll(fold, t, roots, user).value, d, user)
    decreases |roots|
  {
    if roots == [] {
      assert NamesApart(fold, t.files, {});
      forall d ensures !OwnedDeleted(t, d, user) {
        if OwnedDeleted(t, d, user) {
          OneTrashRoot(t, parent, d);
          assert false;
        }
      }
    } else {
      var a, rest := roots[0], roots[1..];
      assert a in roots;
      RestoreGoesThrough(fold, t, parent, a, user);
      assert Under(t.closure, roots) == Subtree(t.closure, a) + Under(t.closure, rest);
      NamesApartSplits(fold, t.files, Subtree(t.closure, a), Under(t.closure, rest));
      if Restore(fold, t, a, user).Done? {
        var t1 := Restore(fold, t, a, user).value;
        RestoreKeepsIndex(fold, t, parent, a, user);
        ListAfterRestore(fold, t, parent, roots, user);
        RestoreKeepsNames(fold, t, a, user, Under(t.closure, rest));
        RestoringEveryTrashRoot(fold, t1, parent, rest, user);
      }
    }
  }

  lemma ListAfterRestore(fold: Fold, t: Tables, parent: Parents, roots: seq<DirId>, user: UserId)
    requires Indexed(t, parent) && roots != [] && ListsTrashRoots(t, user, roots) && Restore(fold, t, roots[0], user).Done?
    ensures ListsTrashRoots(Restore(fold, t, roots[0], user).value, user, roots[1..])
  {
    var t1 := Restore(fold, t, roots[0], user).value;
    forall d ensures d in roots[1..] <==> IsTrashRoot(t1, user, d) {
      assert roots[0] in roots;
      RestoreTakesOneRoot(fold, t, parent, user, roots[0], d);
      assert d in roots <==> d == roots[0] || d in roots[1..];
    }
  }

  // ---------------------------------------------------------------- a restore that cannot go through

  function Copy(d: DirId, user: UserId, name: string, deletedAt: Option<Time>): File {
    File(user, Some(d), name, None, Committed, 0, deletedAt)
  }

  /** One directory with two committed files of one name. */
  function Box(d: DirId, user: UserId, name: string, deletedAt: Option<Time>, first: Option<Time>, second: Option<Time>): Tables {
    Tables(map[d := Dir(user, name, deletedAt)], {Link(d, d, 0)},
           map[0 := Copy(d, user, name, first), 1 := Copy(d, user, name, second)])
  }

  lemma BoxIsIndexed(d: DirId, user: UserId, name: string, deletedAt: Option<Time>, first: Option<Time>, second: Option<Time>)
    ensures Indexed(Box(d, user, name, deletedAt, first, second), map[d := None])
    ensures Subtree({Link(d, d, 0)}, d) == {d}
  {
    var parent: Parents := map[d := None];
    assert Ranked(parent, map[d := 0]);
    SubtreeHasOneOwner(Box(d, user, name, deletedAt, first, second), parent, d);
  }

  lemma BoxAfterSoftDelete(d: DirId, user: UserId, name: string, earlier: Time, now: Time)
    ensures SoftDelete(Box(d, user, name, None, Some(earlier), None), d, user, now)
         == Done(Box(d, user, name, Some(now), Some(earlier), Some(now)))
  {
    var t1 := Box(d, user, name, Some(now), Some(earlier), Some(now));
    BoxIsIndexed(d, user, name, None, Some(earlier), None);
    var r := SoftDelete(Box(d, user, name, None, Some(earlier), None), d, user, now);
    assert r.value.files == t1.files;
    assert r.value.dirs == t1.dirs;
  }

  /**
   * A file is trashed, its name is used again, and the directory is trashed:
   * from then on the directory's own restore is turned down.
   */
  lemma ReusedNameBlocksRestore(fold: Fold, d: DirId, user: UserId, name: string, earlier: Time, now: Time)
    ensures var t := Box(d, user, name, None, Some(earlier), None);
            && UniqueNames(fold, t.files)
            && SoftDelete(t, d, user, now).Done?
            && Restore(fold, SoftDelete(t, d, user, now).value, d, user) == Rejected
  {
    hide SoftDelete, Restore, Indexed;
    var t1 := Box(d, user, name, Some(now), Some(earlier), Some(now));
    BoxAfterSoftDelete(d, user, name, earlier, now);
    BoxIsIndexed(d, user, name, Some(now), Some(earlier), Some(now));
    RestoreGoesThrough(fold, t1, map[d := None], d, user);
    assert SameName(fold, t1.files[0], t1.files[1]);
  }
}
