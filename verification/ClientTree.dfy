/** What the client knows: the tree query, and the client's list made of its answers. */
module ClientTree {
  import opened Vault
  import opened Forest
  import opened Directory
  import opened Breadcrumbs

  // ---------------------------------------------------------------- the server's query

  /** Without a root: the user's active directories that have no parent. */
  ghost predicate AnswersRoots(t: Tables, user: UserId, records: seq<Record>) {
    forall r: Record :: r in records <==>
      OwnedActive(t, r.id, user) && r.parentId.None? && forall p :: Link(p, r.id, 1) !in t.closure
  }

  ghost predicate AtOrBelow(t: Tables, root: DirId, d: DirId) {
    exists k: nat :: Link(root, d, k) in t.closure
  }

  /** The parent column: the ancestor one step up, whether active or not, or null. */
  ghost predicate NamesParent(t: Tables, r: Record) {
    match r.parentId
    case Some(p) => Link(p, r.id, 1) in t.closure
    case None => forall p :: Link(p, r.id, 1) !in t.closure
  }

  /** With a root: the user's active directories at or below it, deleted ones in between or not. */
  ghost predicate AnswersSubtree(t: Tables, user: UserId, root: DirId, records: seq<Record>) {
    forall r: Record :: r in records <==> OwnedActive(t, r.id, user) && AtOrBelow(t, root, r.id) && NamesParent(t, r)
  }

  // ---------------------------------------------------------------- the client's list

  function Flat(subtrees: seq<seq<Record>>): (all: seq<Record>)
    ensures forall r :: r in all <==> exists i :: 0 <= i < |subtrees| && r in subtrees[i]
  {
    if subtrees == [] then []
    else
      var last := |subtrees| - 1;
      assert forall i | 0 <= i < last :: subtrees[i] == subtrees[..last][i];
      Flat(subtrees[..last]) + subtrees[last]
  }

  lemma ByIdSnoc(records: seq<Record>, r: Record)
    ensures ById(records + [r]) == ById(records)[r.id := r]
  {
    assert (records + [r])[..|records|] == records;
  }

  /** getDirectoryTreeExpanded: one map over all subtrees, handed on as a list in some order. */
  method Merge(subtrees: seq<seq<Record>>) returns (records: seq<Record>)
    ensures ById(records) == ById(Flat(subtrees))
    ensures forall i, j | 0 <= i < j < |records| :: records[i].id != records[j].id
  {
    var byId: map<DirId, Record> := map[];
    for i := 0 to |subtrees|
      invariant byId == ById(Flat(subtrees[..i]))
    {
      var subtree := subtrees[i];
      assert Flat(subtrees[..i]) + subtree[..0] == Flat(subtrees[..i]);
      for j := 0 to |subtree|
        invariant byId == ById(Flat(subtrees[..i]) + subtree[..j])
      {
        ByIdSnoc(Flat(subtrees[..i]) + subtree[..j], subtree[j]);
        assert Flat(subtrees[..i]) + subtree[..j + 1] == Flat(subtrees[..i]) + subtree[..j] + [subtree[j]];
        byId := byId[subtree[j].id := subtree[j]];
      }
      assert subtree[..|subtree|] == subtree;
      assert subtrees[..i + 1][..i] == subtrees[..i];
    }
    assert subtrees[..|subtrees|] == subtrees;
    records := Values(byId);
  }

  method Values(byId: map<DirId, Record>) returns (records: seq<Record>)
    requires forall id | id in byId :: byId[id].id == id
    ensures ById(records) == byId
    ensures forall i, j | 0 <= i < j < |records| :: records[i].id != records[j].id
  {
    hide ById;
    records := [];
    assert ById(records) == map[];
    var rest := byId.Keys;
    while rest != {}
      invariant rest <= byId.Keys
      invariant ById(records) == byId - rest
      invariant forall i | 0 <= i < |records| :: records[i].id in byId && records[i].id !in rest
      invariant forall i, j | 0 <= i < j < |records| :: records[i].id != records[j].id
      decreases |rest|
    {
      var id :| id in rest;
      ByIdSnoc(records, byId[id]);
      records, rest := records + [byId[id]], rest - {id};
    }
  }

  /** The client asks for the roots and then for the subtree of each. */
  ghost predicate Asked(t: Tables, user: UserId, roots: seq<Record>, subtrees: seq<seq<Record>>) {
    && AnswersRoots(t, user, roots) && |subtrees| == |roots|
    && forall i | 0 <= i < |roots| :: AnswersSubtree(t, user, roots[i].id, subtrees[i])
  }

  lemma ParentIsNamed(t: Tables, parent: Parents, r: Record)
    requires Indexed(t, parent) && r.id in t.dirs
    ensures NamesParent(t, r) <==> r.parentId == parent[r.id]
  {
    ParentLinks(t.closure, parent, r.id);
    assert parent[r.id].Some? ==> Link(parent[r.id].value, r.id, 1) in t.closure;
  }

  lemma ListedRecords(t: Tables, user: UserId, roots: seq<Record>, subtrees: seq<seq<Record>>, x: DirId)
    requires Asked(t, user, roots, subtrees) && x in ById(Flat(subtrees))
    ensures OwnedActive(t, x, user) && NamesParent(t, ById(Flat(subtrees))[x])
  {
    ByIdPicks(Flat(subtrees), x);
    var i :| 0 <= i < |subtrees| && ById(Flat(subtrees))[x] in subtrees[i];
  }

  lemma {:induction false} ByIdPicks(records: seq<Record>, id: DirId)
    requires id in ById(records)
    ensures ById(records)[id] in records
  {
    var last := |records| - 1;
    if records[last].id != id {
      ByIdPicks(records[..last], id);
    }
  }

  /** The root above a directory that has nothing deleted above it is one the client asks for. */
  lemma RootIsAskedFor(t: Tables, parent: Parents, user: UserId, roots: seq<Record>, x: DirId) returns (root: DirId)
    requires Indexed(t, parent) && AnswersRoots(t, user, roots)
    requires x in t.dirs && t.dirs[x].owner == user && ActiveToTheRoot(t, parent, x)
    ensures Record(root, None) in roots && AtOrBelow(t, root, x)
  {
    var rank :| Ranked(parent, rank);
    WalkEnds(parent, rank, x);
    var n: nat :| Levels(parent, x, n);
    root := AncestorAt(parent, x, n - 1).value;
    OwnersAgree(t.dirs, parent, x, n - 1);
    AncestorsCompose(parent, x, n - 1, 1);
    assert AncestorAt(parent, root, 1).None?;
    assert Link(root, x, n - 1) in t.closure;
    assert forall p :: Link(p, root, 1) in t.closure <==> AncestorAt(parent, root, 1) == Some(p);
  }

  /** The client's list is exactly of the kind the breadcrumb theorem is about. */
  lemma ClientHasFetched(t: Tables, parent: Parents, user: UserId, roots: seq<Record>, subtrees: seq<seq<Record>>)
    requires Indexed(t, parent) && "" !in parent && Asked(t, user, roots, subtrees)
    ensures Fetched(t, user, ById(Flat(subtrees)), parent)
  {
    var byId := ById(Flat(subtrees));
    forall x | x in byId
      ensures OwnedActive(t, x, user) && byId[x].parentId == parent[x]
    {
      ListedRecords(t, user, roots, subtrees, x);
      ParentIsNamed(t, parent, byId[x]);
    }
    forall x | x in t.dirs && t.dirs[x].owner == user && ActiveToTheRoot(t, parent, x)
      ensures x in byId
    {
      var root := RootIsAskedFor(t, parent, user, roots, x);
      var i :| 0 <= i < |roots| && roots[i] == Record(root, None);
      assert AncestorAt(parent, x, 0) == Some(x);
      ParentIsNamed(t, parent, Record(x, parent[x]));
      assert Record(x, parent[x]) in subtrees[i];
      assert Record(x, parent[x]) in Flat(subtrees);
    }
  }

  /**
   * From the queries to the screen: the client that asks, merges and walks shows what the
   * server's breadcrumb says exactly when no directory on the way up is deleted, and otherwise
   * nothing at all.
   */
  method ShowBreadcrumb(ghost t: Tables, ghost parent: Parents, ghost user: UserId, ghost roots: seq<Record>,
                        subtrees: seq<seq<Record>>, d: DirId, ghost n: nat, ghost items: seq<Link>)
    returns (path: seq<Record>)
    requires Indexed(t, parent) && "" !in parent && Asked(t, user, roots, subtrees)
    requires OwnedActive(t, d, user) && Levels(parent, d, n) && Answers(t, user, d, Done(items))
    ensures (|items| == |path| && forall i | 0 <= i < |items| :: items[i].ancestor == path[i].id)
       <==> AncestorsActive(t, parent, d, n)
    ensures !AncestorsActive(t, parent, d, n) ==> path == []
  {
    var records := Merge(subtrees);
    path := BuildPath(records, Some(d));
    ClientHasFetched(t, parent, user, roots, subtrees);
    BreadcrumbsAgree(t, parent, user, d, n, records, items, path);
    ClientShowsAllOrNothing(t, parent, user, d, n, ById(records), path);
  }
}
