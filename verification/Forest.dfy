/** The plain picture behind the closure table: every directory has at most one parent. */
module Forest {
  import opened Vault

  type DirId = string

  /** Parent of each directory; None for a root. */
  type Parents = map<DirId, Option<DirId>>

  ghost predicate Ranked(parent: Parents, rank: map<DirId, nat>) {
    && rank.Keys == parent.Keys
    && forall d | d in parent && parent[d].Some? :: parent[d].value in parent && rank[parent[d].value] < rank[d]
  }

  ghost predicate IsForest(parent: Parents) {
    exists rank :: Ranked(parent, rank)
  }

  /** The ancestor k steps up; a directory is its own ancestor at distance 0. */
  function AncestorAt(parent: Parents, d: DirId, k: nat): Option<DirId>
    decreases k
  {
    if d !in parent then None
    else if k == 0 then Some(d)
    else match parent[d] case None => None case Some(p) => AncestorAt(parent, p, k - 1)
  }

  ghost predicate IsAncestor(parent: Parents, a: DirId, d: DirId) {
    exists k: nat :: AncestorAt(parent, d, k) == Some(a)
  }

  /** The subtree of a: everything that has a among its ancestors, a included. */
  ghost predicate Below(parent: Parents, a: DirId, xs: set<DirId>) {
    forall d :: d in xs <==> d in parent && IsAncestor(parent, a, d)
  }

  lemma {:induction false} AncestorsCompose(parent: Parents, d: DirId, j: nat, k: nat)
    requires AncestorAt(parent, d, j).Some?
    ensures AncestorAt(parent, d, j + k) == AncestorAt(parent, AncestorAt(parent, d, j).value, k)
    decreases j
  {
    if j > 0 {
      AncestorsCompose(parent, parent[d].value, j - 1, k);
    }
  }

  lemma {:induction false} RankFalls(parent: Parents, rank: map<DirId, nat>, d: DirId, k: nat)
    requires Ranked(parent, rank) && AncestorAt(parent, d, k).Some?
    ensures AncestorAt(parent, d, k).value in parent && rank[AncestorAt(parent, d, k).value] + k <= rank[d]
    decreases k
  {
    if k > 0 {
      RankFalls(parent, rank, parent[d].value, k - 1);
    }
  }

  /** In a forest the distance to an ancestor is determined, and there are only finitely many. */
  lemma DistancesAreUnique(parent: Parents, d: DirId, j: nat, k: nat)
    requires IsForest(parent) && AncestorAt(parent, d, j).Some? && AncestorAt(parent, d, j) == AncestorAt(parent, d, k)
    ensures j == k
  {
    var rank :| Ranked(parent, rank);
    var lo, hi := if j < k then j else k, if j < k then k else j;
    AncestorsCompose(parent, d, lo, hi - lo);
    RankFalls(parent, rank, AncestorAt(parent, d, lo).value, hi - lo);
  }

  /** n directories lie on the walk from d up to its root. */
  ghost predicate Levels(parent: Parents, d: DirId, n: nat) {
    n > 0 && AncestorAt(parent, d, n - 1).Some? && AncestorAt(parent, d, n).None?
  }

  lemma {:induction false} WalkEnds(parent: Parents, rank: map<DirId, nat>, d: DirId)
    requires Ranked(parent, rank) && d in parent
    ensures exists n: nat :: Levels(parent, d, n)
    decreases rank[d]
  {
    match parent[d]
    case None =>
      assert Levels(parent, d, 1);
    case Some(p) =>
      WalkEnds(parent, rank, p);
      var n: nat :| Levels(parent, p, n);
      assert Levels(parent, d, n + 1);
  }

  /** The n nearest directories on d's walk, the farthest first. */
  ghost function Walk(parent: Parents, d: DirId, n: nat): (path: seq<DirId>)
    requires n > 0 ==> AncestorAt(parent, d, n - 1).Some?
    ensures |path| == n
    ensures forall i | 0 <= i < n :: AncestorAt(parent, d, n - 1 - i) == Some(path[i])
    decreases n
  {
    if n == 0 then []
    else
      SomeBefore(parent, d, n - 1);
      var rest := Walk(parent, d, n - 1);
      [AncestorAt(parent, d, n - 1).value] + rest
  }

  lemma SomeBefore(parent: Parents, d: DirId, n: nat)
    requires AncestorAt(parent, d, n).Some?
    ensures forall k: nat | k <= n :: AncestorAt(parent, d, k).Some?
  {
    forall k: nat | k <= n ensures AncestorAt(parent, d, k).Some? {
      if AncestorAt(parent, d, k) == None {
        NoneStaysNone(parent, d, k, n);
      }
    }
  }

  lemma {:induction false} NoneStaysNone(parent: Parents, d: DirId, j: nat, k: nat)
    requires AncestorAt(parent, d, j) == None && j <= k
    ensures AncestorAt(parent, d, k) == None
    decreases j
  {
    if j > 0 && d in parent && parent[d].Some? {
      NoneStaysNone(parent, parent[d].value, j - 1, k - 1);
    }
  }

  // ---------------------------------------------------------------- growing and pruning

  lemma {:induction false} AncestorsAfterAdd(parent: Parents, id: DirId, up: Option<DirId>, d: DirId, k: nat)
    requires id !in parent && (up.Some? ==> up.value in parent)
    requires forall x | x in parent && parent[x].Some? :: parent[x].value in parent
    ensures d in parent ==> AncestorAt(parent[id := up], d, k) == AncestorAt(parent, d, k)
    ensures d == id && k == 0 ==> AncestorAt(parent[id := up], d, k) == Some(id)
    ensures d == id && k > 0 && up.None? ==> AncestorAt(parent[id := up], d, k) == None
    ensures d == id && k > 0 && up.Some? ==> AncestorAt(parent[id := up], d, k) == AncestorAt(parent, up.value, k - 1)
    decreases k
  {
    if k > 0 {
      if d in parent && parent[d].Some? {
        AncestorsAfterAdd(parent, id, up, parent[d].value, k - 1);
      }
      if d == id && up.Some? {
        AncestorsAfterAdd(parent, id, up, up.value, k - 1);
      }
    }
  }

  lemma AddKeepsForest(parent: Parents, id: DirId, up: Option<DirId>)
    requires IsForest(parent) && id !in parent && (up.Some? ==> up.value in parent)
    ensures IsForest(parent[id := up])
  {
    var rank :| Ranked(parent, rank);
    assert Ranked(parent[id := up], rank[id := if up.Some? then rank[up.value] + 1 else 0]);
  }

  lemma ChildIsBelow(parent: Parents, a: DirId, d: DirId)
    requires d in parent && parent[d].Some?
    ensures IsAncestor(parent, a, parent[d].value) ==> IsAncestor(parent, a, d)
  {
    if IsAncestor(parent, a, parent[d].value) {
      var j: nat :| AncestorAt(parent, parent[d].value, j) == Some(a);
      assert AncestorAt(parent, d, j + 1) == Some(a);
    }
  }

  /** Cutting off a whole subtree leaves everybody else's ancestors alone. */
  lemma {:induction false} AncestorsAfterPrune(parent: Parents, a: DirId, gone: set<DirId>, d: DirId, k: nat)
    requires Below(parent, a, gone) && d !in gone
    ensures AncestorAt(parent - gone, d, k) == AncestorAt(parent, d, k)
    decreases k
  {
    if k > 0 && d in parent && parent[d].Some? {
      var p := parent[d].value;
      ChildIsBelow(parent, a, d);
      if p in gone {
        assert false;
      } else {
        AncestorsAfterPrune(parent, a, gone, p, k - 1);
      }
    }
  }

  lemma PruneKeepsForest(parent: Parents, a: DirId, gone: set<DirId>)
    requires IsForest(parent) && Below(parent, a, gone)
    ensures IsForest(parent - gone)
  {
    var rank :| Ranked(parent, rank);
    forall d | d in parent - gone && parent[d].Some?
      ensures parent[d].value in parent - gone
    {
      ChildIsBelow(parent, a, d);
    }
    assert Ranked(parent - gone, rank - gone);
  }
}
