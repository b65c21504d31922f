/**
 * The directory tables: what create, soft delete, restore and permanent delete do to them,
 * and why the closure table stays the index of a plain forest.
 */
module Directory {
  import opened Vault
  import opened Metadata
  import opened Forest

  type UserId = string

  datatype Dir = Dir(owner: UserId, name: string, deletedAt: Option<Time>)

  /** One row of directory_closure. */
  datatype Link = Link(ancestor: DirId, descendant: DirId, depth: nat)

  datatype File = File(
    owner: UserId, dir: Option<DirId>, name: string,
    manifest: Option<Hash>, status: RowStatus, createdAt: Time, deletedAt: Option<Time>)

  datatype Tables = Tables(dirs: map<DirId, Dir>, closure: set<Link>, files: map<RowId, File>)

  /** The file table as the retirement queue sees it. */
  function RowsOf(files: map<RowId, File>): map<RowId, Row> {
    map r | r in files :: Row(files[r].manifest, files[r].status, files[r].deletedAt.Some?)
  }

  /** Rejected stands for the unique index on active file names turning the transaction down. */
  datatype Outcome<+T> = Done(value: T) | NotFound | Conflict | Rejected

  /** Stands for SQL's lower(). */
  type Fold = string -> string

  // ---------------------------------------------------------------- the operations

  predicate OwnedActive(t: Tables, d: DirId, user: UserId) {
    d in t.dirs && t.dirs[d].owner == user && t.dirs[d].deletedAt.None?
  }

  predicate OwnedDeleted(t: Tables, d: DirId, user: UserId) {
    d in t.dirs && t.dirs[d].owner == user && t.dirs[d].deletedAt.Some?
  }

  predicate HasParentLink(closure: set<Link>, d: DirId) {
    exists l :: l in closure && l.descendant == d && l.depth == 1
  }

  /** checkDuplicate, as the closure table answers it. */
  predicate Taken(fold: Fold, t: Tables, user: UserId, name: string, up: Option<DirId>) {
    exists d :: d in t.dirs && OwnedActive(t, d, user) && fold(t.dirs[d].name) == fold(name)
                && if up.Some? then Link(up.value, d, 1) in t.closure else !HasParentLink(t.closure, d)
  }

  function NewLinks(closure: set<Link>, id: DirId, up: Option<DirId>): set<Link> {
    {Link(id, id, 0)} +
    if up.None? then {}
    else set l | l in closure && l.descendant == up.value :: Link(l.ancestor, id, l.depth + 1)
  }

  function Create(fold: Fold, t: Tables, user: UserId, name: string, up: Option<DirId>, id: DirId): Outcome<Tables> {
    if up.Some? && !OwnedActive(t, up.value, user) then NotFound
    else if Taken(fold, t, user, name, up) then Conflict
    else Done(t.(dirs := t.dirs[id := Dir(user, name, None)], closure := t.closure + NewLinks(t.closure, id, up)))
  }

  function Subtree(closure: set<Link>, d: DirId): set<DirId> {
    set l | l in closure && l.ancestor == d :: l.descendant
  }

  predicate FileIn(f: File, dirs: set<DirId>) {
    f.dir.Some? && f.dir.value in dirs
  }

  /** COALESCE: what is deleted already keeps its time. */
  function Stamp(deletedAt: Option<Time>, now: Time): Option<Time> {
    if deletedAt.Some? then deletedAt else Some(now)
  }

  function TrashedFiles(t: Tables, gone: set<DirId>, now: Time): map<RowId, File> {
    map r | r in t.files ::
      if FileIn(t.files[r], gone) then t.files[r].(deletedAt := Stamp(t.files[r].deletedAt, now)) else t.files[r]
  }

  function TrashedDirs(t: Tables, gone: set<DirId>, user: UserId, now: Time): map<DirId, Dir> {
    map x | x in t.dirs ::
      if x in gone && t.dirs[x].owner == user
      then t.dirs[x].(deletedAt := Stamp(t.dirs[x].deletedAt, now)) else t.dirs[x]
  }

  function SoftDelete(t: Tables, d: DirId, user: UserId, now: Time): Outcome<Tables> {
    if !OwnedActive(t, d, user) then NotFound
    else
      var gone := Subtree(t.closure, d);
      Done(t.(files := TrashedFiles(t, gone, now), dirs := TrashedDirs(t, gone, user, now)))
  }

  function RestoredFiles(t: Tables, back: set<DirId>, user: UserId): map<RowId, File> {
    map r | r in t.files ::
      if FileIn(t.files[r], back) && t.files[r].dir.value in t.dirs && t.dirs[t.files[r].dir.value].owner == user
      then t.files[r].(deletedAt := None) else t.files[r]
  }

  function RestoredDirs(t: Tables, back: set<DirId>, user: UserId): map<DirId, Dir> {
    map x | x in t.dirs ::
      if x in back && t.dirs[x].owner == user then t.dirs[x].(deletedAt := None) else t.dirs[x]
  }

  /** Files that the index on active names looks at and that share owner, place and folded name. */
  predicate SameName(fold: Fold, f: File, g: File) {
    && f.status != Failed && g.status != Failed
    && f.owner == g.owner && f.dir == g.dir && fold(f.name) == fold(g.name)
  }

  /** The unique index: no two active pending or committed files share a name. */
  predicate UniqueNames(fold: Fold, files: map<RowId, File>) {
    forall r, s | r in files && s in files && r != s && SameName(fold, files[r], files[s]) ::
      files[r].deletedAt.Some? || files[s].deletedAt.Some?
  }

  function Restore(fold: Fold, t: Tables, d: DirId, user: UserId): Outcome<Tables> {
    if !OwnedDeleted(t, d, user) then NotFound
    else
      var back := Subtree(t.closure, d);
      var t' := t.(dirs := RestoredDirs(t, back, user), files := RestoredFiles(t, back, user));
      if UniqueNames(fold, t'.files) then Done(t') else Rejected
  }

  function Unlinked(closure: set<Link>, gone: set<DirId>): set<Link> {
    set l | l in closure && l.ancestor !in gone && l.descendant !in gone
  }

  function PermanentDelete(t: Tables, d: DirId, user: UserId): Outcome<Tables> {
    if !OwnedDeleted(t, d, user) then NotFound
    else
      var gone := Subtree(t.closure, d);
      if gone == {} then NotFound
      else Done(Tables(
                map x | x in t.dirs && !(x in gone && t.dirs[x].owner == user) :: t.dirs[x],
                Unlinked(t.closure, gone),
                map r | r in t.files && !FileIn(t.files[r], gone) :: t.files[r]))
  }

  // ---------------------------------------------------------------- the index is exact

  ghost predicate Exact(closure: set<Link>, parent: Parents) {
    forall l: Link :: l in closure <==> AncestorAt(parent, l.descendant, l.depth) == Some(l.ancestor)
  }

  ghost predicate OneOwner(dirs: map<DirId, Dir>, parent: Parents) {
    forall d | d in parent && parent[d].Some? ::
      d in dirs && parent[d].value in dirs && dirs[d].owner == dirs[parent[d].value].owner
  }

  /** The closure table is exactly the index of a forest in which every tree has one owner. */
  ghost predicate Indexed(t: Tables, parent: Parents) {
    && parent.Keys == t.dirs.Keys
    && IsForest(parent)
    && OneOwner(t.dirs, parent)
    && Exact(t.closure, parent)
  }

  lemma SubtreeIsBelow(closure: set<Link>, parent: Parents, a: DirId)
    requires Exact(closure, parent)
    ensures Below(parent, a, Subtree(closure, a))
  {
    forall d
      ensures d in Subtree(closure, a) <==> d in parent && IsAncestor(parent, a, d)
    {
      if d in Subtree(closure, a) {
        var l :| l in closure && l.ancestor == a && l.descendant == d;
        assert AncestorAt(parent, d, l.depth) == Some(a);
      }
      if IsAncestor(parent, a, d) {
        var k: nat :| AncestorAt(parent, d, k) == Some(a);
        assert Link(a, d, k) in closure;
      }
    }
  }

  lemma ParentLinks(closure: set<Link>, parent: Parents, d: DirId)
    requires Exact(closure, parent) && d in parent
    requires forall x | x in parent && parent[x].Some? :: parent[x].value in parent
    ensures HasParentLink(closure, d) <==> parent[d].Some?
    ensures forall p :: Link(p, d, 1) in closure <==> parent[d] == Some(p)
  {
    forall p
      ensures Link(p, d, 1) in closure <==> parent[d] == Some(p)
    {
      assert parent[d].Some? ==> AncestorAt(parent, d, 1) == AncestorAt(parent, parent[d].value, 0);
    }
    if parent[d].Some? {
      assert Link(parent[d].value, d, 1) in closure;
    }
  }

  /** Create turns a name down exactly when an active sibling of the same owner has it. */
  lemma TakenMeansActiveSibling(fold: Fold, t: Tables, parent: Parents, user: UserId, name: string, up: Option<DirId>)
    requires Indexed(t, parent)
    ensures Taken(fold, t, user, name, up) <==>
            exists d :: d in parent && parent[d] == up && OwnedActive(t, d, user) && fold(t.dirs[d].name) == fold(name)
  {
    forall d | d in parent
      ensures parent[d] == up <==> if up.Some? then Link(up.value, d, 1) in t.closure else !HasParentLink(t.closure, d)
    {
      ParentLinks(t.closure, parent, d);
    }
  }

  lemma NewLinksAreExact(closure: set<Link>, parent: Parents, id: DirId, up: Option<DirId>)
    requires Exact(closure, parent) && id !in parent && (up.Some? ==> up.value in parent)
    requires forall x | x in parent && parent[x].Some? :: parent[x].value in parent
    ensures Exact(closure + NewLinks(closure, id, up), parent[id := up])
  {
    forall l: Link
      ensures l in closure + NewLinks(closure, id, up) <==>
              AncestorAt(parent[id := up], l.descendant, l.depth) == Some(l.ancestor)
    {
      AncestorsAfterAdd(parent, id, up, l.descendant, l.depth);
      if l.descendant == id && l.depth > 0 && up.Some? {
        var above := Link(l.ancestor, up.value, l.depth - 1);
        assert above in closure <==> l in NewLinks(closure, id, up);
      }
    }
  }

  lemma CreateKeepsIndex(fold: Fold, t: Tables, parent: Parents, user: UserId, name: string, up: Option<DirId>, id: DirId)
    requires Indexed(t, parent) && id !in t.dirs && Create(fold, t, user, name, up, id).Done?
    ensures Indexed(Create(fold, t, user, name, up, id).value, parent[id := up])
  {
    AddKeepsForest(parent, id, up);
    NewLinksAreExact(t.closure, parent, id, up);
  }

  lemma {:induction false} OwnersAgree(dirs: map<DirId, Dir>, parent: Parents, d: DirId, k: nat)
    requires OneOwner(dirs, parent) && parent.Keys == dirs.Keys && AncestorAt(parent, d, k).Some?
    ensures d in dirs && AncestorAt(parent, d, k).value in dirs
    ensures dirs[AncestorAt(parent, d, k).value].owner == dirs[d].owner
    decreases k
  {
    if k > 0 {
      OwnersAgree(dirs, parent, parent[d].value, k - 1);
    }
  }

  lemma SubtreeHasOneOwner(t: Tables, parent: Parents, d: DirId)
    requires Indexed(t, parent) && d in t.dirs
    ensures d in Subtree(t.closure, d)
    ensures forall x | x in Subtree(t.closure, d) :: x in t.dirs && t.dirs[x].owner == t.dirs[d].owner
  {
    assert AncestorAt(parent, d, 0) == Some(d);
    assert Link(d, d, 0) in t.closure;
    forall x | x in Subtree(t.closure, d)
      ensures x in t.dirs && t.dirs[x].owner == t.dirs[d].owner
    {
      var l :| l in t.closure && l.ancestor == d && l.descendant == x;
      OwnersAgree(t.dirs, parent, x, l.depth);
    }
  }

  // ---------------------------------------------------------------- exactly what the deletions and the restore change

  /** The file lies in d or somewhere below it. */
  ghost predicate LiesUnder(parent: Parents, d: DirId, f: File) {
    f.dir.Some? && IsAncestor(parent, d, f.dir.value)
  }

  lemma FilesUnderIsLiesUnder(closure: set<Link>, parent: Parents, d: DirId)
    requires Exact(closure, parent)
    ensures forall f: File :: FileIn(f, Subtree(closure, d)) <==> LiesUnder(parent, d, f)
  {
    SubtreeIsBelow(closure, parent, d);
    forall f: File
      ensures FileIn(f, Subtree(closure, d)) <==> LiesUnder(parent, d, f)
    {
      if LiesUnder(parent, d, f) {
        var k: nat :| AncestorAt(parent, f.dir.value, k) == Some(d);
        assert f.dir.value in parent;
      }
    }
  }

  /** What is deleted already keeps its time, all else gets the new one. */
  function Dated(deletedAt: Option<Time>, now: Time): Option<Time> {
    match deletedAt
    case Some(t) => Some(t)
    case None => Some(now)
  }

  /** A soft delete dates d, every directory below it and every file in one of them, and changes nothing else. */
  lemma SoftDeleteExactly(t: Tables, parent: Parents, d: DirId, user: UserId, now: Time)
    requires Indexed(t, parent) && OwnedActive(t, d, user)
    ensures SoftDelete(t, d, user, now).Done?
    ensures var t' := SoftDelete(t, d, user, now).value;
            && t'.closure == t.closure && t'.dirs.Keys == t.dirs.Keys && t'.files.Keys == t.files.Keys
            && (forall x | x in t.dirs :: t'.dirs[x] ==
                  if IsAncestor(parent, d, x) then t.dirs[x].(deletedAt := Dated(t.dirs[x].deletedAt, now)) else t.dirs[x])
            && (forall r | r in t.files :: t'.files[r] ==
                  if LiesUnder(parent, d, t.files[r]) then t.files[r].(deletedAt := Dated(t.files[r].deletedAt, now))
                  else t.files[r])
  {
    SubtreeIsBelow(t.closure, parent, d);
    SubtreeHasOneOwner(t, parent, d);
    FilesUnderIsLiesUnder(t.closure, parent, d);
  }

  /** A restore that goes through clears the same directories and files, and changes nothing else. */
  lemma RestoreExactly(fold: Fold, t: Tables, parent: Parents, d: DirId, user: UserId)
    requires Indexed(t, parent) && Restore(fold, t, d, user).Done?
    ensures var t' := Restore(fold, t, d, user).value;
            && t'.closure == t.closure && t'.dirs.Keys == t.dirs.Keys && t'.files.Keys == t.files.Keys
            && (forall x | x in t.dirs :: t'.dirs[x] ==
                  if IsAncestor(parent, d, x) then t.dirs[x].(deletedAt := None) else t.dirs[x])
            && (forall r | r in t.files :: t'.files[r] ==
                  if LiesUnder(parent, d, t.files[r]) then t.files[r].(deletedAt := None) else t.files[r])
  {
    SubtreeIsBelow(t.closure, parent, d);
    SubtreeHasOneOwner(t, parent, d);
    FilesUnderIsLiesUnder(t.closure, parent, d);
  }

  /** A permanent delete takes the same directories and files away, and changes nothing that stays. */
  lemma PermanentDeleteExactly(t: Tables, parent: Parents, d: DirId, user: UserId)
    requires Indexed(t, parent) && PermanentDelete(t, d, user).Done?
    ensures var t' := PermanentDelete(t, d, user).value;
            && (forall x :: x in t'.dirs <==> x in t.dirs && !IsAncestor(parent, d, x))
            && (forall x | x in t'.dirs :: t'.dirs[x] == t.dirs[x])
            && (forall r :: r in t'.files <==> r in t.files && !LiesUnder(parent, d, t.files[r]))
            && (forall r | r in t'.files :: t'.files[r] == t.files[r])
  {
    SubtreeIsBelow(t.closure, parent, d);
    SubtreeHasOneOwner(t, parent, d);
    FilesUnderIsLiesUnder(t.closure, parent, d);
  }

  lemma IsAncestorTransitive(parent: Parents, a: DirId, b: DirId, c: DirId)
    requires IsAncestor(parent, a, b) && IsAncestor(parent, b, c)
    ensures IsAncestor(parent, a, c)
  {
    var j: nat :| AncestorAt(parent, b, j) == Some(a);
    var k: nat :| AncestorAt(parent, c, k) == Some(b);
    AncestorsCompose(parent, c, k, j);
  }

  lemma PrunedLinksAreExact(closure: set<Link>, parent: Parents, d: DirId)
    requires Exact(closure, parent)
    ensures Exact(Unlinked(closure, Subtree(closure, d)), parent - Subtree(closure, d))
  {
    var gone := Subtree(closure, d);
    SubtreeIsBelow(closure, parent, d);
    forall l: Link
      ensures l in Unlinked(closure, gone) <==>
              AncestorAt(parent - gone, l.descendant, l.depth) == Some(l.ancestor)
    {
      if l.descendant !in gone {
        AncestorsAfterPrune(parent, d, gone, l.descendant, l.depth);
        if l in closure && l.ancestor in gone {
          IsAncestorTransitive(parent, d, l.ancestor, l.descendant);
          assert false;
        }
      }
    }
  }

  /** Permanent delete takes the whole subtree out of the forest, its links and its files. */
  lemma PermanentDeleteKeepsIndex(t: Tables, parent: Parents, d: DirId, user: UserId)
    requires Indexed(t, parent)
    ensures PermanentDelete(t, d, user).Done? <==> OwnedDeleted(t, d, user)
    ensures PermanentDelete(t, d, user).Done? ==>
              Indexed(PermanentDelete(t, d, user).value, parent - Subtree(t.closure, d))
  {
    if OwnedDeleted(t, d, user) {
      var gone := Subtree(t.closure, d);
      SubtreeHasOneOwner(t, parent, d);
      SubtreeIsBelow(t.closure, parent, d);
      PruneKeepsForest(parent, d, gone);
      PrunedLinksAreExact(t.closure, parent, d);
      var t' := PermanentDelete(t, d, user).value;
      assert t'.dirs == t.dirs - gone;
      assert (parent - gone).Keys == t'.dirs.Keys;
    }
  }
}
