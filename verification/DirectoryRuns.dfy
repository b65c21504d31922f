/** Whole runs over the directory tables, from the empty database on. */
module DirectoryRuns {
  import opened Vault
  import opened Metadata
  import opened Forest
  import opened Directory
  import opened Trash

  function NoTables(): Tables {
    Tables(map[], {}, map[])
  }

  datatype Op =
    | MakeDirectory(user: UserId, name: string, up: Option<DirId>, id: DirId)
    | PutFile(row: RowId, file: File)
    | SettleFile(row: RowId, manifest: Option<Hash>, status: RowStatus)
    | DiscardFile(row: RowId, user: UserId, now: Time)
    | BringBackFile(row: RowId, user: UserId)
    | PurgeFile(row: RowId, user: UserId)
    | Discard(d: DirId, user: UserId, now: Time)
    | BringBack(d: DirId, user: UserId)
    | Purge(d: DirId, user: UserId)

  /** New directories and files get new ids. */
  predicate Possible(t: Tables, op: Op) {
    match op
    case MakeDirectory(_, _, _, id) => id !in t.dirs
    case PutFile(row, _) => row !in t.files
    case _ => true
  }

  /** The single-file operations see committed files of their user, at the root or in an active directory. */
  predicate InReach(t: Tables, row: RowId, user: UserId) {
    && row in t.files && t.files[row].owner == user && t.files[row].status == Committed
    && (t.files[row].dir.Some? ==> t.files[row].dir.value in t.dirs && t.dirs[t.files[row].dir.value].deletedAt.None?)
  }

  function WithFile(fold: Fold, t: Tables, row: RowId, file: File): Outcome<Tables> {
    var files := t.files[row := file];
    if UniqueNames(fold, files) then Done(t.(files := files)) else Rejected
  }

  function Attempt(fold: Fold, t: Tables, op: Op): Outcome<Tables> {
    match op
    case MakeDirectory(user, name, up, id) => Create(fold, t, user, name, up, id)
    case PutFile(row, file) => WithFile(fold, t, row, file)
    case SettleFile(row, manifest, status) =>
      if row in t.files && t.files[row].status == Pending
      then WithFile(fold, t, row, t.files[row].(manifest := manifest, status := status)) else NotFound
    case DiscardFile(row, user, now) =>
      if InReach(t, row, user) && t.files[row].deletedAt.None?
      then WithFile(fold, t, row, t.files[row].(deletedAt := Some(now))) else NotFound
    case BringBackFile(row, user) =>
      if InReach(t, row, user) && t.files[row].deletedAt.Some?
      then WithFile(fold, t, row, t.files[row].(deletedAt := None)) else NotFound
    case PurgeFile(row, user) =>
      if InReach(t, row, user) && t.files[row].deletedAt.Some?
      then Done(t.(files := map r | r in t.files && r != row :: t.files[r])) else NotFound
    case Discard(d, user, now) => SoftDelete(t, d, user, now)
    case BringBack(d, user) => Restore(fold, t, d, user)
    case Purge(d, user) => PermanentDelete(t, d, user)
  }

  /** What is turned down changes nothing. */
  function Execute(fold: Fold, t: Tables, op: Op): Tables {
    var r := Attempt(fold, t, op);
    if r.Done? then r.value else t
  }

  predicate Run(fold: Fold, t: Tables, ops: seq<Op>, t': Tables)
    decreases |ops|
  {
    if ops == [] then t' == t
    else Possible(t, ops[0]) && Run(fold, Execute(fold, t, ops[0]), ops[1..], t')
  }

  ghost predicate Consistent(fold: Fold, t: Tables) {
    UniqueNames(fold, t.files) && exists parent :: Indexed(t, parent)
  }

  /**
   * One file: trashing dates it, bringing it back gives the very tables from before, and a purge
   * takes it and nothing else, for its owner, once it is committed, in a place that is active;
   * otherwise nothing happens.
   */
  lemma OneFileExactly(fold: Fold, t: Tables, row: RowId, user: UserId, now: Time)
    requires UniqueNames(fold, t.files)
    ensures var trashed := Execute(fold, t, DiscardFile(row, user, now));
            if row in t.files && t.files[row].owner == user && t.files[row].status == Committed && t.files[row].deletedAt.None?
               && (t.files[row].dir.Some? ==> t.files[row].dir.value in t.dirs && t.dirs[t.files[row].dir.value].deletedAt.None?)
            then
              && trashed == t.(files := t.files[row := t.files[row].(deletedAt := Some(now))])
              && Execute(fold, trashed, BringBackFile(row, user)) == t
              && Execute(fold, trashed, PurgeFile(row, user)) == t.(files := t.files - {row})
            else trashed == t
    ensures row in t.files && t.files[row].deletedAt.None? ==>
              Execute(fold, t, BringBackFile(row, user)) == t && Execute(fold, t, PurgeFile(row, user)) == t
  {
    if row in t.files {
      var gone := t.files[row := t.files[row].(deletedAt := Some(now))];
      TrashingKeepsNames(fold, t.files, row, now);
      assert gone[row := t.files[row]] == t.files;
      assert (map r | r in gone && r != row :: gone[r]) == t.files - {row};
    }
  }

  lemma TrashingKeepsNames(fold: Fold, files: map<RowId, File>, row: RowId, now: Time)
    requires UniqueNames(fold, files) && row in files
    ensures UniqueNames(fold, files[row := files[row].(deletedAt := Some(now))])
  {
    var gone := files[row := files[row].(deletedAt := Some(now))];
    forall r, s | r in gone && s in gone && r != s && SameName(fold, gone[r], gone[s])
      ensures gone[r].deletedAt.Some? || gone[s].deletedAt.Some?
    {
      assert SameName(fold, files[r], files[s]);
    }
  }

  lemma OpKeepsIndex(fold: Fold, t: Tables, parent: Parents, op: Op) returns (parent': Parents)
    requires Indexed(t, parent) && Possible(t, op)
    ensures Indexed(Execute(fold, t, op), parent')
  {
    parent' := parent;
    if Attempt(fold, t, op).Done? {
      match op {
        case MakeDirectory(user, name, up, id) =>
          CreateKeepsIndex(fold, t, parent, user, name, up, id);
          parent' := parent[id := up];
        case Discard(d, user, now) =>
          SoftDeleteKeepsIndex(t, parent, d, user, now);
        case BringBack(d, user) =>
          RestoreKeepsIndex(fold, t, parent, d, user);
        case Purge(d, user) =>
          PermanentDeleteKeepsIndex(t, parent, d, user);
          parent' := parent - Subtree(t.closure, d);
        case _ =>
      }
    }
  }

  lemma OpKeepsNames(fold: Fold, t: Tables, op: Op)
    requires UniqueNames(fold, t.files) && Possible(t, op)
    ensures UniqueNames(fold, Execute(fold, t, op).files)
  {
    if op.Discard? {
      SoftDeleteKeepsNames(fold, t, Subtree(t.closure, op.d), op.now);
    }
  }

  /** In every reachable database the closure table is the exact index of a one-owner-per-tree forest. */
  lemma {:induction false} EveryRunStaysIndexed(fold: Fold, t: Tables, ops: seq<Op>, t': Tables)
    requires Consistent(fold, t) && Run(fold, t, ops, t')
    ensures Consistent(fold, t')
    decreases |ops|
  {
    if ops != [] {
      var parent :| Indexed(t, parent);
      var parent' := OpKeepsIndex(fold, t, parent, ops[0]);
      OpKeepsNames(fold, t, ops[0]);
      EveryRunStaysIndexed(fold, Execute(fold, t, ops[0]), ops[1..], t');
    }
  }

  /**
   * Whatever happened since the empty database: every deleted directory hangs below one trash root,
   * and restoring the listed trash roots one by one clears the user's trash exactly when the file
   * names under them do not collide.
   */
  lemma TrashCanBeCleared(fold: Fold, ops: seq<Op>, t: Tables, user: UserId, roots: seq<DirId>)
    requires Run(fold, NoTables(), ops, t) && ListsTrashRoots(t, user, roots)
    ensures forall d | OwnedDeleted(t, d, user) :: exists a :: a in roots && d in Subtree(t.closure, a)
    ensures RestoreAll(fold, t, roots, user).Done? <==> NamesApart(fold, t.files, Under(t.closure, roots))
    ensures RestoreAll(fold, t, roots, user).Done? ==>
              forall d :: !OwnedDeleted(RestoreAll(fold, t, roots, user).value, d, user)
  {
    var none: Parents := map[];
    assert Ranked(none, map[]);
    assert Indexed(NoTables(), none);
    EveryRunStaysIndexed(fold, NoTables(), ops, t);
    var parent :| Indexed(t, parent);
    forall d | OwnedDeleted(t, d, user)
      ensures exists a :: a in roots && d in Subtree(t.closure, a)
    {
      OneTrashRoot(t, parent, d);
      var a :| IsTrashRoot(t, user, a) && IsAncestor(parent, a, d);
      SubtreeIsBelow(t.closure, parent, a);
    }
    RestoringEveryTrashRoot(fold, t, parent, roots, user);
  }

  // ---------------------------------------------------------------- what a restore does not look at

  lemma {:induction false} Snoc(fold: Fold, t: Tables, ops: seq<Op>, t1: Tables, op: Op)
    requires Run(fold, t, ops, t1) && Possible(t1, op)
    ensures Run(fold, t, ops + [op], Execute(fold, t1, op))
    decreases |ops|
  {
    if ops == [] {
      assert ops + [op] == [op];
    } else {
      Snoc(fold, Execute(fold, t, ops[0]), ops[1..], t1, op);
      assert (ops + [op])[1..] == ops[1..] + [op];
    }
  }

  lemma AloneSubtree(closure: set<Link>, a: DirId)
    requires forall l | l in closure && l.ancestor == a :: l.descendant == a
    requires Link(a, a, 0) in closure
    ensures Subtree(closure, a) == {a}
  {
  }

  function One(user: UserId, name: string, a: DirId, deletedAt: Option<Time>): Tables {
    Tables(map[a := Dir(user, name, deletedAt)], {Link(a, a, 0)}, map[])
  }

  /** Two directories of one name, related as the third link set says. */
  function Two(user: UserId, name: string, a: DirId, aDeleted: Option<Time>, b: DirId, bDeleted: Option<Time>,
               between: set<Link>): Tables {
    Tables(map[a := Dir(user, name, aDeleted), b := Dir(user, name, bDeleted)],
           {Link(a, a, 0), Link(b, b, 0)} + between, map[])
  }

  lemma OneIsMade(fold: Fold, user: UserId, name: string, a: DirId)
    ensures Execute(fold, NoTables(), MakeDirectory(user, name, None, a)) == One(user, name, a, None)
  {
    assert {} + NewLinks({}, a, None) == {Link(a, a, 0)};
  }

  lemma OneIsTrashed(fold: Fold, user: UserId, name: string, a: DirId, now: Time)
    ensures Execute(fold, One(user, name, a, None), Discard(a, user, now)) == One(user, name, a, Some(now))
  {
    var t := One(user, name, a, None);
    AloneSubtree(t.closure, a);
    assert TrashedDirs(t, {a}, user, now) == One(user, name, a, Some(now)).dirs && TrashedFiles(t, {a}, now) == map[];
  }

  lemma NameIsUsedAgain(fold: Fold, user: UserId, name: string, a: DirId, b: DirId, now: Time)
    requires a != b
    ensures Execute(fold, One(user, name, a, Some(now)), MakeDirectory(user, name, None, b))
         == Two(user, name, a, Some(now), b, None, {})
  {
    assert {Link(a, a, 0)} + NewLinks({Link(a, a, 0)}, b, None) == {Link(a, a, 0), Link(b, b, 0)} + {};
  }

  lemma ComesBack(fold: Fold, user: UserId, name: string, a: DirId, aDeleted: Option<Time>, b: DirId, bDeleted: Option<Time>,
                  between: set<Link>, d: DirId)
    requires a != b && (d == a || d == b) && (if d == a then aDeleted.Some? else bDeleted.Some?)
    requires forall l | l in between :: l.ancestor != d
    ensures Execute(fold, Two(user, name, a, aDeleted, b, bDeleted, between), BringBack(d, user))
         == Two(user, name, a, if d == a then None else aDeleted, b, if d == b then None else bDeleted, between)
  {
    hide Subtree, SameName;
    var t := Two(user, name, a, aDeleted, b, bDeleted, between);
    AloneSubtree(t.closure, d);
    var t' := Two(user, name, a, if d == a then None else aDeleted, b, if d == b then None else bDeleted, between);
    assert RestoredDirs(t, {d}, user) == t'.dirs && RestoredFiles(t, {d}, user) == map[];
  }

  /** A name is trashed, used again, and brought back: two active siblings with one name. */
  lemma SiblingsMayShareAName(fold: Fold, user: UserId, name: string, a: DirId, b: DirId, now: Time)
    returns (ops: seq<Op>, t: Tables)
    requires a != b
    ensures Run(fold, NoTables(), ops, t)
    ensures OwnedActive(t, a, user) && OwnedActive(t, b, user) && t.dirs[a].name == t.dirs[b].name == name
    ensures !HasParentLink(t.closure, a) && !HasParentLink(t.closure, b)
  {
    OneIsMade(fold, user, name, a);
    OneIsTrashed(fold, user, name, a, now);
    NameIsUsedAgain(fold, user, name, a, b, now);
    ComesBack(fold, user, name, a, Some(now), b, None, {}, a);
    ops := [];
    Snoc(fold, NoTables(), ops, NoTables(), MakeDirectory(user, name, None, a));
    ops := ops + [MakeDirectory(user, name, None, a)];
    Snoc(fold, NoTables(), ops, One(user, name, a, None), Discard(a, user, now));
    ops := ops + [Discard(a, user, now)];
    Snoc(fold, NoTables(), ops, One(user, name, a, Some(now)), MakeDirectory(user, name, None, b));
    ops := ops + [MakeDirectory(user, name, None, b)];
    Snoc(fold, NoTables(), ops, Two(user, name, a, Some(now), b, None, {}), BringBack(a, user));
    ops, t := ops + [BringBack(a, user)], Two(user, name, a, None, b, None, {});
  }

  lemma ChildIsMade(fold: Fold, user: UserId, name: string, a: DirId, b: DirId)
    requires a != b
    ensures Execute(fold, One(user, name, a, None), MakeDirectory(user, name, Some(a), b))
         == Two(user, name, a, None, b, None, {Link(a, b, 1)})
  {
    var closure := {Link(a, a, 0)};
    assert Link(a, a, 0) in closure;
    assert closure + NewLinks(closure, b, Some(a)) == {Link(a, a, 0), Link(b, b, 0)} + {Link(a, b, 1)};
  }

  lemma BothAreTrashed(fold: Fold, user: UserId, name: string, a: DirId, b: DirId, now: Time)
    requires a != b
    ensures Execute(fold, Two(user, name, a, None, b, None, {Link(a, b, 1)}), Discard(a, user, now))
         == Two(user, name, a, Some(now), b, Some(now), {Link(a, b, 1)})
  {
    var t, t' := Two(user, name, a, None, b, None, {Link(a, b, 1)}), Two(user, name, a, Some(now), b, Some(now), {Link(a, b, 1)});
    assert Subtree(t.closure, a) == {a, b} by {
      assert Link(a, a, 0) in t.closure && Link(a, b, 1) in t.closure;
    }
    assert TrashedDirs(t, {a, b}, user, now) == t'.dirs && TrashedFiles(t, {a, b}, now) == map[];
  }

  /** A directory is trashed with its child, and only the child is brought back. */
  lemma ActiveBelowDeleted(fold: Fold, user: UserId, name: string, a: DirId, b: DirId, now: Time)
    returns (ops: seq<Op>, t: Tables)
    requires a != b
    ensures Run(fold, NoTables(), ops, t)
    ensures OwnedDeleted(t, a, user) && OwnedActive(t, b, user) && Link(a, b, 1) in t.closure
  {
    OneIsMade(fold, user, name, a);
    ChildIsMade(fold, user, name, a, b);
    BothAreTrashed(fold, user, name, a, b, now);
    ComesBack(fold, user, name, a, Some(now), b, Some(now), {Link(a, b, 1)}, b);
    ops := [];
    Snoc(fold, NoTables(), ops, NoTables(), MakeDirectory(user, name, None, a));
    ops := ops + [MakeDirectory(user, name, None, a)];
    Snoc(fold, NoTables(), ops, One(user, name, a, None), MakeDirectory(user, name, Some(a), b));
    ops := ops + [MakeDirectory(user, name, Some(a), b)];
    Snoc(fold, NoTables(), ops, Two(user, name, a, None, b, None, {Link(a, b, 1)}), Discard(a, user, now));
    ops := ops + [Discard(a, user, now)];
    Snoc(fold, NoTables(), ops, Two(user, name, a, Some(now), b, Some(now), {Link(a, b, 1)}), BringBack(b, user));
    ops, t := ops + [BringBack(b, user)], Two(user, name, a, Some(now), b, None, {Link(a, b, 1)});
  }
}
