/** Two rules one would expect of a directory tree, and exactly which restores break them. */
module DirectoryRules {
  import opened Vault
  import opened Forest
  import opened Directory
  import opened DirectoryRuns

  predicate Live(t: Tables, d: DirId) {
    d in t.dirs && t.dirs[d].deletedAt.None?
  }

  /** Above an active directory there is an active directory. */
  ghost predicate ActiveUpwards(t: Tables) {
    forall p, d | Link(p, d, 1) in t.closure && Live(t, d) :: Live(t, p)
  }

  ghost predicate SameParent(closure: set<Link>, a: DirId, b: DirId) {
    forall p :: Link(p, a, 1) in closure <==> Link(p, b, 1) in closure
  }

  /** Two directories of one owner in one place whose names the duplicate check takes for the same. */
  ghost predicate Namesakes(fold: Fold, t: Tables, a: DirId, b: DirId) {
    && a != b && a in t.dirs && b in t.dirs && t.dirs[a].owner == t.dirs[b].owner
    && fold(t.dirs[a].name) == fold(t.dirs[b].name) && SameParent(t.closure, a, b)
  }

  /** No two active siblings share a name. */
  ghost predicate SiblingsApart(fold: Fold, t: Tables) {
    forall a, b | Namesakes(fold, t, a, b) :: !Live(t, a) || !Live(t, b)
  }

  // ---------------------------------------------------------------- parents and subtrees

  lemma SameParentMeans(t: Tables, parent: Parents, a: DirId, b: DirId)
    requires Indexed(t, parent) && a in t.dirs && b in t.dirs
    ensures SameParent(t.closure, a, b) <==> parent[a] == parent[b]
  {
    if SameParent(t.closure, a, b) {
      assert parent[a].Some? ==> Link(parent[a].value, a, 1) in t.closure;
      assert parent[b].Some? ==> Link(parent[b].value, b, 1) in t.closure;
    }
  }

  /** A subtree holds the children of what it holds, the parents of all but its root, and not its root's. */
  lemma SubtreeAndLinks(t: Tables, parent: Parents, d: DirId, p: DirId, x: DirId)
    requires Indexed(t, parent) && Link(p, x, 1) in t.closure
    ensures p in Subtree(t.closure, d) ==> x in Subtree(t.closure, d)
    ensures x in Subtree(t.closure, d) && x != d ==> p in Subtree(t.closure, d)
    ensures x == d ==> p !in Subtree(t.closure, d)
  {
    SubtreeIsBelow(t.closure, parent, d);
    ChildIsBelow(parent, d, x);
    if x in Subtree(t.closure, d) && x != d {
      var k: nat :| AncestorAt(parent, x, k) == Some(d);
      assert k > 0 && AncestorAt(parent, p, k - 1) == Some(d);
    }
    if x == d && p in Subtree(t.closure, d) {
      var k: nat :| AncestorAt(parent, p, k) == Some(d);
      assert AncestorAt(parent, d, k + 1) == AncestorAt(parent, d, 0);
      DistancesAreUnique(parent, d, k + 1, 0);
      assert false;
    }
  }

  // ---------------------------------------------------------------- active upwards

  /** A restore keeps parents of active directories active exactly when it starts below an active parent or none. */
  lemma RestoreKeepsUpwardsExactly(fold: Fold, t: Tables, parent: Parents, d: DirId, user: UserId)
    requires Indexed(t, parent) && ActiveUpwards(t) && Restore(fold, t, d, user).Done?
    ensures ActiveUpwards(Restore(fold, t, d, user).value) <==> forall p | Link(p, d, 1) in t.closure :: Live(t, p)
  {
    var back, t' := Subtree(t.closure, d), Restore(fold, t, d, user).value;
    SubtreeHasOneOwner(t, parent, d);
    assert forall x :: Live(t', x) <==> Live(t, x) || x in back;
    forall p, x | Link(p, x, 1) in t.closure
      ensures p in back ==> x in back
      ensures x in back && x != d ==> p in back
      ensures x == d ==> p !in back
    {
      SubtreeAndLinks(t, parent, d, p, x);
    }
  }

  lemma CreateKeepsUpwards(fold: Fold, t: Tables, parent: Parents, user: UserId, name: string, up: Option<DirId>, id: DirId)
    requires Indexed(t, parent) && ActiveUpwards(t) && id !in t.dirs && Create(fold, t, user, name, up, id).Done?
    ensures ActiveUpwards(Create(fold, t, user, name, up, id).value)
  {
    var t' := Create(fold, t, user, name, up, id).value;
    CreateKeepsIndex(fold, t, parent, user, name, up, id);
    forall p, x | Link(p, x, 1) in t'.closure && Live(t', x)
      ensures Live(t', p)
    {
      if x != id {
        assert Live(t, p);
      }
    }
  }

  lemma SoftDeleteKeepsUpwards(t: Tables, parent: Parents, d: DirId, user: UserId, now: Time)
    requires Indexed(t, parent) && ActiveUpwards(t) && SoftDelete(t, d, user, now).Done?
    ensures ActiveUpwards(SoftDelete(t, d, user, now).value)
  {
    var gone, t' := Subtree(t.closure, d), SoftDelete(t, d, user, now).value;
    SubtreeHasOneOwner(t, parent, d);
    assert forall x :: Live(t', x) <==> Live(t, x) && x !in gone;
    forall p, x | Link(p, x, 1) in t.closure
      ensures p in gone ==> x in gone
    {
      SubtreeAndLinks(t, parent, d, p, x);
    }
  }

  lemma PermanentDeleteKeepsUpwards(t: Tables, d: DirId, user: UserId)
    requires ActiveUpwards(t) && PermanentDelete(t, d, user).Done?
    ensures ActiveUpwards(PermanentDelete(t, d, user).value)
  {
    var t' := PermanentDelete(t, d, user).value;
    forall p, x | Link(p, x, 1) in t'.closure && Live(t', x)
      ensures Live(t', p)
    {
      assert Link(p, x, 1) in t.closure && Live(t, x);
    }
  }

  // ---------------------------------------------------------------- siblings apart

  /** Every namesake of what comes back stays behind, deleted. */
  ghost predicate NamesakesStayDeleted(fold: Fold, t: Tables, d: DirId) {
    forall a, b | a in Subtree(t.closure, d) && Namesakes(fold, t, a, b) ::
      b !in Subtree(t.closure, d) && t.dirs[b].deletedAt.Some?
  }

  /** A restore keeps active siblings apart exactly when every namesake of what comes back stays behind, deleted. */
  lemma RestoreKeepsApartExactly(fold: Fold, t: Tables, parent: Parents, d: DirId, user: UserId)
    requires Indexed(t, parent) && SiblingsApart(fold, t) && Restore(fold, t, d, user).Done?
    ensures SiblingsApart(fold, Restore(fold, t, d, user).value) <==> NamesakesStayDeleted(fold, t, d)
  {
    var back, t' := Subtree(t.closure, d), Restore(fold, t, d, user).value;
    SubtreeHasOneOwner(t, parent, d);
    assert forall x :: Live(t', x) <==> Live(t, x) || x in back;
    forall a, b
      ensures Namesakes(fold, t', a, b) <==> Namesakes(fold, t, a, b)
      ensures Namesakes(fold, t, a, b) ==> Namesakes(fold, t, b, a)
    {
    }
  }

  lemma CreateKeepsApart(fold: Fold, t: Tables, parent: Parents, user: UserId, name: string, up: Option<DirId>, id: DirId)
    requires Indexed(t, parent) && SiblingsApart(fold, t) && id !in t.dirs && Create(fold, t, user, name, up, id).Done?
    ensures SiblingsApart(fold, Create(fold, t, user, name, up, id).value)
  {
    var t', parent' := Create(fold, t, user, name, up, id).value, parent[id := up];
    CreateKeepsIndex(fold, t, parent, user, name, up, id);
    TakenMeansActiveSibling(fold, t, parent, user, name, up);
    forall a, b | Namesakes(fold, t', a, b)
      ensures !Live(t', a) || !Live(t', b)
    {
      SameParentMeans(t', parent', a, b);
      if a != id && b != id {
        SameParentMeans(t, parent, a, b);
        assert Namesakes(fold, t, a, b);
      } else if a == id {
        assert !OwnedActive(t, b, user);
      } else {
        assert !OwnedActive(t, a, user);
      }
    }
  }

  lemma SoftDeleteKeepsApart(fold: Fold, t: Tables, d: DirId, user: UserId, now: Time)
    requires SiblingsApart(fold, t) && SoftDelete(t, d, user, now).Done?
    ensures SiblingsApart(fold, SoftDelete(t, d, user, now).value)
  {
    var t' := SoftDelete(t, d, user, now).value;
    assert forall x :: Live(t', x) ==> Live(t, x);
    assert forall a, b :: Namesakes(fold, t', a, b) ==> Namesakes(fold, t, a, b);
  }

  lemma PermanentDeleteKeepsApart(fold: Fold, t: Tables, parent: Parents, d: DirId, user: UserId)
    requires Indexed(t, parent) && SiblingsApart(fold, t) && PermanentDelete(t, d, user).Done?
    ensures SiblingsApart(fold, PermanentDelete(t, d, user).value)
  {
    var t' := PermanentDelete(t, d, user).value;
    PermanentDeleteKeepsIndex(t, parent, d, user);
    forall a, b | Namesakes(fold, t', a, b)
      ensures !Live(t', a) || !Live(t', b)
    {
      SameParentMeans(t', parent - Subtree(t.closure, d), a, b);
      SameParentMeans(t, parent, a, b);
      assert Namesakes(fold, t, a, b);
    }
  }

  // ---------------------------------------------------------------- whole runs

  datatype Rule = Upwards | Apart

  ghost predicate Holds(rule: Rule, fold: Fold, t: Tables) {
    match rule
    case Upwards => ActiveUpwards(t)
    case Apart => SiblingsApart(fold, t)
  }

  /** What a restore would have to look at; every other operation is always in order. */
  ghost predicate Meets(rule: Rule, fold: Fold, t: Tables, op: Op) {
    op.BringBack? && Restore(fold, t, op.d, op.user).Done? ==>
      match rule
      case Upwards => forall p | Link(p, op.d, 1) in t.closure :: Live(t, p)
      case Apart => NamesakesStayDeleted(fold, t, op.d)
  }

  lemma SameDirectories(rule: Rule, fold: Fold, t: Tables, t': Tables)
    requires t'.dirs == t.dirs && t'.closure == t.closure
    ensures Holds(rule, fold, t') <==> Holds(rule, fold, t)
  {
    assert forall a, b :: Namesakes(fold, t', a, b) <==> Namesakes(fold, t, a, b);
  }

  lemma OpKeepsRuleExactly(rule: Rule, fold: Fold, t: Tables, op: Op)
    requires Consistent(fold, t) && Holds(rule, fold, t) && Possible(t, op)
    ensures Holds(rule, fold, Execute(fold, t, op)) <==> Meets(rule, fold, t, op)
  {
    var parent :| Indexed(t, parent);
    if Attempt(fold, t, op).Done? {
      match op {
        case MakeDirectory(user, name, up, id) =>
          if rule == Upwards { CreateKeepsUpwards(fold, t, parent, user, name, up, id); }
          else { CreateKeepsApart(fold, t, parent, user, name, up, id); }
        case Discard(d, user, now) =>
          if rule == Upwards { SoftDeleteKeepsUpwards(t, parent, d, user, now); }
          else { SoftDeleteKeepsApart(fold, t, d, user, now); }
        case BringBack(d, user) =>
          if rule == Upwards { RestoreKeepsUpwardsExactly(fold, t, parent, d, user); }
          else { RestoreKeepsApartExactly(fold, t, parent, d, user); }
        case Purge(d, user) =>
          if rule == Upwards { PermanentDeleteKeepsUpwards(t, d, user); }
          else { PermanentDeleteKeepsApart(fold, t, parent, d, user); }
        case _ =>
          SameDirectories(rule, fold, t, Execute(fold, t, op));
      }
    }
  }

  /** The rule holds in every state the run passes through. */
  ghost predicate Always(rule: Rule, fold: Fold, t: Tables, ops: seq<Op>)
    decreases |ops|
  {
    Holds(rule, fold, t) && (ops != [] ==> Always(rule, fold, Execute(fold, t, ops[0]), ops[1..]))
  }

  ghost predicate MeetsThroughout(rule: Rule, fold: Fold, t: Tables, ops: seq<Op>)
    decreases |ops|
  {
    ops != [] ==> Meets(rule, fold, t, ops[0]) && MeetsThroughout(rule, fold, Execute(fold, t, ops[0]), ops[1..])
  }

  /** A run keeps either rule in all its states exactly when each of its restores met the rule's condition. */
  lemma {:induction false} RuleKeptExactly(rule: Rule, fold: Fold, t: Tables, ops: seq<Op>, t': Tables)
    requires Consistent(fold, t) && Holds(rule, fold, t) && Run(fold, t, ops, t')
    ensures Always(rule, fold, t, ops) <==> MeetsThroughout(rule, fold, t, ops)
    decreases |ops|
  {
    if ops != [] {
      OpKeepsRuleExactly(rule, fold, t, ops[0]);
      EveryRunStaysIndexed(fold, t, [ops[0]], Execute(fold, t, ops[0]));
      if Meets(rule, fold, t, ops[0]) {
        RuleKeptExactly(rule, fold, Execute(fold, t, ops[0]), ops[1..], t');
      }
    }
  }

  lemma RulesKeptFromTheStart(rule: Rule, fold: Fold, ops: seq<Op>, t: Tables)
    requires Run(fold, NoTables(), ops, t)
    ensures Always(rule, fold, NoTables(), ops) <==> MeetsThroughout(rule, fold, NoTables(), ops)
  {
    var none: Parents := map[];
    assert Ranked(none, map[]);
    assert Indexed(NoTables(), none);
    RuleKeptExactly(rule, fold, NoTables(), ops, t);
  }
}
