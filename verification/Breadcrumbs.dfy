/** Two breadcrumbs for one directory: the server's query on the closure table and the client's parent walk. */
module Breadcrumbs {
  import opened Vault
  import opened Forest
  import opened Directory

  // ---------------------------------------------------------------- the server's query

  predicate Selected(t: Tables, d: DirId, l: Link) {
    l in t.closure && l.descendant == d && l.ancestor in t.dirs && t.dirs[l.ancestor].deletedAt.None?
  }

  predicate FarthestFirst(items: seq<Link>) {
    forall i, j | 0 <= i < j < |items| :: items[i].depth >= items[j].depth && items[i] != items[j]
  }

  /** What the query may answer: the selected rows, each once, ordered by falling depth; no row is ErrNotFound. */
  ghost predicate Answers(t: Tables, user: UserId, d: DirId, answer: Outcome<seq<Link>>) {
    match answer
    case Done(items) =>
      items != [] && FarthestFirst(items) && forall l: Link :: l in items <==> OwnedActive(t, d, user) && Selected(t, d, l)
    case NotFound =>
      forall l: Link :: !(OwnedActive(t, d, user) && Selected(t, d, l))
    case _ => false
  }

  /** The row at distance k, when the directory there is active. */
  function RowAt(t: Tables, parent: Parents, d: DirId, k: nat): seq<Link>
    requires AncestorAt(parent, d, k).Some?
  {
    var a := AncestorAt(parent, d, k).value;
    if a in t.dirs && t.dirs[a].deletedAt.None? then [Link(a, d, k)] else []
  }

  /** The n nearest directories on d's walk that are active, the farthest first, with their distances. */
  ghost function ActiveWalk(t: Tables, parent: Parents, d: DirId, n: nat): seq<Link>
    requires n > 0 ==> AncestorAt(parent, d, n - 1).Some?
    decreases n
  {
    if n == 0 then []
    else
      SomeBefore(parent, d, n - 1);
      RowAt(t, parent, d, n - 1) + ActiveWalk(t, parent, d, n - 1)
  }

  lemma RowAtSelects(t: Tables, parent: Parents, d: DirId, k: nat, l: Link)
    requires Exact(t.closure, parent) && AncestorAt(parent, d, k).Some?
    ensures l in RowAt(t, parent, d, k) <==> Selected(t, d, l) && l.depth == k
  {
    assert l in t.closure <==> AncestorAt(parent, l.descendant, l.depth) == Some(l.ancestor);
  }

  lemma {:induction false} ActiveWalkSelects(t: Tables, parent: Parents, d: DirId, n: nat)
    requires Exact(t.closure, parent) && (n > 0 ==> AncestorAt(parent, d, n - 1).Some?)
    ensures FarthestFirst(ActiveWalk(t, parent, d, n))
    ensures forall l: Link :: l in ActiveWalk(t, parent, d, n) <==> Selected(t, d, l) && l.depth < n
    decreases n
  {
    if n > 0 {
      SomeBefore(parent, d, n - 1);
      ActiveWalkSelects(t, parent, d, n - 1);
      var here, nearer := RowAt(t, parent, d, n - 1), ActiveWalk(t, parent, d, n - 1);
      forall l: Link
        ensures l in here + nearer <==> Selected(t, d, l) && l.depth < n
      {
        RowAtSelects(t, parent, d, n - 1, l);
      }
      FartherInFront(here, nearer, n - 1);
    }
  }

  lemma FartherInFront(here: seq<Link>, nearer: seq<Link>, k: nat)
    requires |here| <= 1 && (forall l | l in here :: l.depth == k)
    requires FarthestFirst(nearer) && forall l | l in nearer :: l.depth < k
    ensures FarthestFirst(here + nearer)
  {
  }

  lemma SomethingListed(xs: seq<Link>)
    ensures xs == [] || exists l: Link :: l in xs
  {
    if xs != [] {
      assert xs[0] in xs;
    }
  }

  /** Rows of different depth leave one order only. */
  lemma {:induction false} OneOrder(xs: seq<Link>, ys: seq<Link>)
    requires FarthestFirst(xs) && FarthestFirst(ys)
    requires forall l: Link :: l in xs <==> l in ys
    requires forall k, l | k in xs && l in xs && k.depth == l.depth :: k == l
    ensures xs == ys
  {
    if xs == [] {
      SomethingListed(ys);
    } else {
      assert xs[0] in ys;
      assert ys[0] in xs;
      assert xs[0] == ys[0];
      forall l: Link ensures l in xs[1..] <==> l in ys[1..] {
        assert l in xs <==> l == xs[0] || l in xs[1..];
        assert l in ys <==> l == ys[0] || l in ys[1..];
      }
      OneOrder(xs[1..], ys[1..]);
    }
  }

  lemma ActiveWalkAnswers(t: Tables, parent: Parents, user: UserId, d: DirId, n: nat)
    requires Indexed(t, parent) && OwnedActive(t, d, user) && Levels(parent, d, n)
    ensures Answers(t, user, d, Done(ActiveWalk(t, parent, d, n)))
    ensures !Answers(t, user, d, NotFound)
  {
    assert AncestorAt(parent, d, 0) == Some(d);
    assert Selected(t, d, Link(d, d, 0));
    ActiveWalkSelects(t, parent, d, n);
    assert Link(d, d, 0) in ActiveWalk(t, parent, d, n);
    forall l | Selected(t, d, l) ensures l.depth < n {
      DepthsBelowLevels(parent, d, n, l.depth);
    }
  }

  /** The query has exactly one answer: the walk from the root down, with deleted directories left out. */
  lemma BreadcrumbIsActiveWalk(t: Tables, parent: Parents, user: UserId, d: DirId, n: nat, answer: Outcome<seq<Link>>)
    requires Indexed(t, parent) && (d in parent ==> Levels(parent, d, n)) && (d !in parent ==> n == 0)
    ensures Answers(t, user, d, answer) <==>
            answer == if OwnedActive(t, d, user) then Done(ActiveWalk(t, parent, d, n)) else NotFound
  {
    if OwnedActive(t, d, user) {
      ActiveWalkAnswers(t, parent, user, d, n);
      if answer.Done? && Answers(t, user, d, answer) {
        SameDepthSameRow(t, parent, d, answer.value);
        OneOrder(answer.value, ActiveWalk(t, parent, d, n));
      }
    } else if answer.Done? && answer.value != [] {
      assert answer.value[0] in answer.value;
    }
  }

  lemma DepthsBelowLevels(parent: Parents, d: DirId, n: nat, k: nat)
    requires Levels(parent, d, n)
    ensures AncestorAt(parent, d, k).Some? <==> k < n
  {
    if k < n {
      SomeBefore(parent, d, n - 1);
    } else {
      NoneStaysNone(parent, d, n, k);
    }
  }

  lemma SameDepthSameRow(t: Tables, parent: Parents, d: DirId, items: seq<Link>)
    requires Exact(t.closure, parent) && forall l | l in items :: Selected(t, d, l)
    ensures forall k, l | k in items && l in items && k.depth == l.depth :: k == l
  {
    forall k, l | k in items && l in items && k.depth == l.depth
      ensures k == l
    {
      assert AncestorAt(parent, d, k.depth) == Some(k.ancestor);
      assert AncestorAt(parent, d, l.depth) == Some(l.ancestor);
    }
  }

  function Names(items: seq<Link>): (names: seq<DirId>)
    ensures |names| == |items|
    ensures forall i | 0 <= i < |items| :: names[i] == items[i].ancestor
  {
    seq(|items|, i requires 0 <= i < |items| => items[i].ancestor)
  }

  ghost predicate AncestorsActive(t: Tables, parent: Parents, d: DirId, n: nat) {
    forall k: nat | k < n && AncestorAt(parent, d, k).Some? ::
      AncestorAt(parent, d, k).value in t.dirs && t.dirs[AncestorAt(parent, d, k).value].deletedAt.None?
  }

  lemma {:induction false} WholeWalkWhenActive(t: Tables, parent: Parents, d: DirId, n: nat)
    requires n > 0 ==> AncestorAt(parent, d, n - 1).Some?
    ensures |ActiveWalk(t, parent, d, n)| <= n
    ensures AncestorsActive(t, parent, d, n) ==> Names(ActiveWalk(t, parent, d, n)) == Walk(parent, d, n)
    ensures !AncestorsActive(t, parent, d, n) ==> |ActiveWalk(t, parent, d, n)| < n
    decreases n
  {
    if n > 0 {
      SomeBefore(parent, d, n - 1);
      WholeWalkWhenActive(t, parent, d, n - 1);
      assert Walk(parent, d, n) == [AncestorAt(parent, d, n - 1).value] + Walk(parent, d, n - 1);
    }
  }

  // ---------------------------------------------------------------- the client's walk

  datatype Record = Record(id: DirId, parentId: Option<DirId>)

  /** The client treats the empty string like null. */
  predicate Absent(id: Option<DirId>) {
    id.None? || id.value == ""
  }

  /** new Map(...): of two records with one id the later wins. */
  function ById(records: seq<Record>): (m: map<DirId, Record>)
    ensures forall id | id in m :: m[id].id == id
    ensures forall id :: id in m <==> exists i :: 0 <= i < |records| && records[i].id == id
  {
    if records == [] then map[]
    else
      var last := records[|records| - 1];
      var before := ById(records[..|records| - 1]);
      assert forall i | 0 <= i < |records| - 1 :: records[i] == records[..|records| - 1][i];
      before[last.id := last]
  }

  predicate Listed(path: seq<Record>, id: DirId) {
    exists i :: 0 <= i < |path| && path[i].id == id
  }

  /** A trail down to id: each record is on file, each names the one before it as its parent, none repeats. */
  ghost predicate Trail(byId: map<DirId, Record>, path: seq<Record>, id: DirId) {
    && (path != [] ==> path[|path| - 1].id == id)
    && (forall i | 0 <= i < |path| :: path[i].id != "" && path[i].id in byId && byId[path[i].id] == path[i])
    && (forall i | 0 < i < |path| :: path[i].parentId == Some(path[i - 1].id))
    && (forall i, j | 0 <= i < j < |path| :: path[i].id != path[j].id)
  }

  /** Where a trail goes on. */
  function Onward(path: seq<Record>, id: DirId): Option<DirId> {
    if path == [] then Some(id) else path[0].parentId
  }

  /** The walk met a directory that is not on file. */
  ghost predicate Broken(byId: map<DirId, Record>, trail: seq<Record>, id: DirId) {
    Trail(byId, trail, id) && !Absent(Onward(trail, id)) && Onward(trail, id).value !in byId
  }

  /** What the client shows: nothing for no directory or a broken walk, else a trail that cannot go on. */
  ghost predicate ClientPath(byId: map<DirId, Record>, target: Option<DirId>, path: seq<Record>) {
    if Absent(target) then path == []
    else if path == [] then exists trail :: Broken(byId, trail, target.value)
    else Trail(byId, path, target.value) && (Absent(path[0].parentId) || Listed(path, path[0].parentId.value))
  }

  lemma TrailGrows(byId: map<DirId, Record>, path: seq<Record>, id: DirId)
    requires Trail(byId, path, id) && !Absent(Onward(path, id)) && Onward(path, id).value in byId
    requires !Listed(path, Onward(path, id).value) && byId[Onward(path, id).value].id == Onward(path, id).value
    ensures Trail(byId, [byId[Onward(path, id).value]] + path, id)
  {
    var longer := [byId[Onward(path, id).value]] + path;
    assert forall i | 0 < i < |longer| :: longer[i] == path[i - 1];
  }

  lemma TrailOfRoot(byId: map<DirId, Record>, trail: seq<Record>, d: DirId)
    requires d in byId && Absent(byId[d].parentId) && Trail(byId, trail, d)
    ensures trail == [] || trail == [byId[d]]
  {
    if |trail| > 1 {
      assert trail[|trail| - 1].parentId == Some(trail[|trail| - 2].id);
    }
  }

  /** A directory without a parent, or with an empty one, is shown alone. */
  lemma RootShowsItself(byId: map<DirId, Record>, d: DirId, path: seq<Record>)
    requires d != "" && d in byId && byId[d].id == d && (byId[d].parentId == None || byId[d].parentId == Some(""))
    requires forall x | x in byId :: byId[x].id == x
    ensures ClientPath(byId, Some(d), path) <==> path == [byId[d]]
  {
    if ClientPath(byId, Some(d), path) {
      if path == [] {
        var trail :| Broken(byId, trail, d);
        TrailOfRoot(byId, trail, d);
      } else {
        TrailOfRoot(byId, path, d);
      }
    }
    assert Trail(byId, [byId[d]], d);
  }

  method Index(records: seq<Record>) returns (byId: map<DirId, Record>)
    ensures byId == ById(records)
  {
    byId := map[];
    for i := 0 to |records|
      invariant byId == ById(records[..i])
    {
      assert records[..i + 1][..i] == records[..i];
      byId := byId[records[i].id := records[i]];
    }
    assert records[..|records|] == records;
  }

  method BuildPath(records: seq<Record>, target: Option<DirId>) returns (path: seq<Record>)
    ensures ClientPath(ById(records), target, path)
  {
    path := [];
    if Absent(target) {
      return;
    }
    var byId := Index(records);
    var visited: set<DirId> := {};
    var current := target;
    while !Absent(current) && current.value !in visited
      invariant Trail(byId, path, target.value)
      invariant current == Onward(path, target.value)
      invariant forall id :: id in visited <==> Listed(path, id)
      invariant visited <= byId.Keys
      decreases byId.Keys - visited
    {
      if current.value !in byId {
        assert Broken(byId, path, target.value);
        return [];
      }
      visited := visited + {current.value};
      var record := byId[current.value];
      TrailGrows(byId, path, target.value);
      ListedGrows(path, record);
      path := [record] + path;
      current := record.parentId;
    }
  }

  lemma ListedGrows(path: seq<Record>, record: Record)
    ensures forall id :: Listed([record] + path, id) <==> id == record.id || Listed(path, id)
  {
    var longer := [record] + path;
    forall id ensures Listed(longer, id) <==> id == record.id || Listed(path, id) {
      if Listed(path, id) {
        var i :| 0 <= i < |path| && path[i].id == id;
        assert longer[i + 1].id == id;
      }
      assert longer[0].id == record.id;
    }
  }

  // ---------------------------------------------------------------- they agree

  /** What is on file has its true parent. */
  ghost predicate Truthful(byId: map<DirId, Record>, parent: Parents) {
    "" !in parent && forall x | x in parent && x in byId :: byId[x].parentId == parent[x]
  }

  ghost predicate ActiveToTheRoot(t: Tables, parent: Parents, d: DirId) {
    forall k: nat | AncestorAt(parent, d, k).Some? ::
      AncestorAt(parent, d, k).value in t.dirs && t.dirs[AncestorAt(parent, d, k).value].deletedAt.None?
  }

  /** A client's records: active directories of its user only, and all that have no deleted one above them. */
  ghost predicate Fetched(t: Tables, user: UserId, byId: map<DirId, Record>, parent: Parents) {
    && Truthful(byId, parent)
    && (forall x | x in byId :: OwnedActive(t, x, user))
    && (forall x | x in t.dirs && t.dirs[x].owner == user && ActiveToTheRoot(t, parent, x) :: x in byId)
  }

  lemma {:induction false} TrailFollowsParents(byId: map<DirId, Record>, parent: Parents, path: seq<Record>, d: DirId, k: nat)
    requires Truthful(byId, parent) && d in parent && IsForest(parent)
    requires Trail(byId, path, d) && k < |path|
    ensures AncestorAt(parent, d, k) == Some(path[|path| - 1 - k].id)
    ensures path[|path| - 1 - k].id in parent
    decreases k
  {
    if k > 0 {
      TrailFollowsParents(byId, parent, path, d, k - 1);
      var rank :| Ranked(parent, rank);
      var below := path[|path| - k];
      assert parent[below.id] == Some(path[|path| - 1 - k].id);
      AncestorsCompose(parent, d, k - 1, 1);
      assert AncestorAt(parent, below.id, 1) == AncestorAt(parent, path[|path| - 1 - k].id, 0);
    }
  }

  /** Where the walk breaks there is an ancestor, and it is not on file. */
  lemma BreaksAtAnAncestor(byId: map<DirId, Record>, parent: Parents, trail: seq<Record>, d: DirId)
    requires Truthful(byId, parent) && d in parent && IsForest(parent) && Broken(byId, trail, d)
    ensures AncestorAt(parent, d, |trail|).Some? && AncestorAt(parent, d, |trail|).value !in byId
  {
    if trail != [] {
      TrailFollowsParents(byId, parent, trail, d, |trail| - 1);
      AncestorsCompose(parent, d, |trail| - 1, 1);
      var rank :| Ranked(parent, rank);
      var top, up := trail[0].id, Onward(trail, d).value;
      assert parent[top] == Some(up);
      assert AncestorAt(parent, top, 1) == AncestorAt(parent, up, 0);
    }
  }

  /** On a forest the client's walk, when it does not break, is the whole walk from the root. */
  lemma FinishedTrailIsTheWalk(byId: map<DirId, Record>, parent: Parents, path: seq<Record>, d: DirId, n: nat)
    requires Truthful(byId, parent) && d in parent && IsForest(parent) && Levels(parent, d, n)
    requires path != [] && Trail(byId, path, d)
    requires Absent(path[0].parentId) || Listed(path, path[0].parentId.value)
    ensures |path| == n
    ensures forall i | 0 <= i < n :: path[i].id == Walk(parent, d, n)[i]
  {
    forall k: nat | k < |path| ensures AncestorAt(parent, d, k) == Some(path[|path| - 1 - k].id) {
      TrailFollowsParents(byId, parent, path, d, k);
    }
    var top := path[0].id;
    TrailFollowsParents(byId, parent, path, d, |path| - 1);
    AncestorsCompose(parent, d, |path| - 1, 1);
    assert AncestorAt(parent, top, 1) == AncestorAt(parent, d, |path|);
    var rank :| Ranked(parent, rank);
    if parent[top].Some? {
      var up := parent[top].value;
      assert AncestorAt(parent, top, 1) == AncestorAt(parent, up, 0) == Some(up);
      var i :| 0 <= i < |path| && path[i].id == up;
      DistancesAreUnique(parent, d, |path| - 1 - i, |path|);
      assert false;
    }
    DepthsBelowLevels(parent, d, n, |path|);
    DepthsBelowLevels(parent, d, n, |path| - 1);
  }

  lemma ActiveAboveToo(t: Tables, parent: Parents, d: DirId, n: nat, k: nat)
    requires Levels(parent, d, n) && AncestorsActive(t, parent, d, n) && AncestorAt(parent, d, k).Some?
    ensures ActiveToTheRoot(t, parent, AncestorAt(parent, d, k).value)
  {
    var a := AncestorAt(parent, d, k).value;
    forall j: nat | AncestorAt(parent, a, j).Some?
      ensures AncestorAt(parent, a, j).value in t.dirs && t.dirs[AncestorAt(parent, a, j).value].deletedAt.None?
    {
      AncestorsCompose(parent, d, k, j);
      DepthsBelowLevels(parent, d, n, k + j);
    }
  }

  /** The client shows the whole walk when every directory on it is active, and otherwise nothing at all. */
  lemma ClientShowsAllOrNothing(t: Tables, parent: Parents, user: UserId, d: DirId, n: nat, byId: map<DirId, Record>,
                                path: seq<Record>)
    requires Indexed(t, parent) && OwnedActive(t, d, user) && Levels(parent, d, n)
    requires Fetched(t, user, byId, parent) && ClientPath(byId, Some(d), path)
    ensures if AncestorsActive(t, parent, d, n) then
              |path| == n && forall i | 0 <= i < n :: path[i].id == Walk(parent, d, n)[i]
            else path == []
  {
    if path == [] {
      var trail :| Broken(byId, trail, d);
      BreaksAtAnAncestor(byId, parent, trail, d);
      OwnersAgree(t.dirs, parent, d, |trail|);
      if AncestorsActive(t, parent, d, n) {
        ActiveAboveToo(t, parent, d, n, |trail|);
      }
    } else {
      FinishedTrailIsTheWalk(byId, parent, path, d, n);
      forall k: nat | k < n && AncestorAt(parent, d, k).Some?
        ensures AncestorAt(parent, d, k).value in t.dirs && t.dirs[AncestorAt(parent, d, k).value].deletedAt.None?
      {
        TrailFollowsParents(byId, parent, path, d, k);
        assert path[|path| - 1 - k].id in byId;
      }
    }
  }

  /**
   * With what a client can fetch on file, the server's breadcrumb and the client's are the
   * same list of directories exactly when no directory on the way up is deleted.
   */
  lemma BreadcrumbsAgree(t: Tables, parent: Parents, user: UserId, d: DirId, n: nat, records: seq<Record>,
                         items: seq<Link>, path: seq<Record>)
    requires Indexed(t, parent) && OwnedActive(t, d, user) && Levels(parent, d, n)
    requires Fetched(t, user, ById(records), parent)
    requires Answers(t, user, d, Done(items)) && ClientPath(ById(records), Some(d), path)
    ensures (|items| == |path| && forall i | 0 <= i < |items| :: items[i].ancestor == path[i].id)
       <==> AncestorsActive(t, parent, d, n)
  {
    ClientShowsAllOrNothing(t, parent, user, d, n, ById(records), path);
    BreadcrumbIsActiveWalk(t, parent, user, d, n, Done(items));
    WholeWalkWhenActive(t, parent, d, n);
    assert Names(items) == Names(ActiveWalk(t, parent, d, n));
  }
}
