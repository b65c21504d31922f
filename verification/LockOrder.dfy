/**
 * Transactions that take the advisory locks of their manifests in sorted order. The lock is on a
 * hash of the id, and two ids may share one. Ids stand for their rank in the sort order.
 */
module LockOrder {

  type TxId = nat

  type Hashing = nat -> int

  /** A transaction with the ids whose locks it has and those still to take, in order. */
  datatype Locker = Locker(held: seq<nat>, todo: seq<nat>)

  type Lockers = map<TxId, Locker>

  datatype Step = Start(t: TxId, ids: set<nat>) | Lock(t: TxId) | End(t: TxId)

  ghost predicate Ascending(ids: seq<nat>) {
    forall i, j | 0 <= i < j < |ids| :: ids[i] < ids[j]
  }

  lemma HasLeast(ids: set<nat>, x: nat)
    requires x in ids
    ensures exists least :: least in ids && forall y | y in ids :: least <= y
    decreases x
  {
    if y :| y in ids && y < x {
      HasLeast(ids, y);
    }
  }

  ghost function Least(ids: set<nat>): (x: nat)
    requires ids != {}
    ensures x in ids && forall y | y in ids :: x <= y
  {
    var some :| some in ids;
    HasLeast(ids, some);
    var x :| x in ids && forall y | y in ids :: x <= y;
    x
  }

  /** sortedManifestIDs: the distinct ids in ascending order. */
  ghost function Sorted(ids: set<nat>): (r: seq<nat>)
    ensures Ascending(r)
    ensures forall x :: x in r <==> x in ids
    decreases |ids|
  {
    if ids == {} then []
    else
      var x := Least(ids);
      var rest := Sorted(ids - {x});
      assert forall i | 0 <= i < |rest| :: rest[i] in rest;
      [x] + rest
  }

  predicate Holds(l: Locker, key: Hashing, k: int) {
    exists i | 0 <= i < |l.held| :: key(l.held[i]) == k
  }

  /** A lock is granted when no other transaction has it; taking one's own again is no obstacle. */
  ghost predicate Enabled(key: Hashing, s: Lockers, a: Step) {
    match a
    case Start(t, _) => t !in s
    case Lock(t) => t in s && s[t].todo != [] && forall u | u in s && u != t :: !Holds(s[u], key, key(s[t].todo[0]))
    case End(t) => t in s
  }

  ghost function After(key: Hashing, s: Lockers, a: Step): Lockers
    requires Enabled(key, s, a)
  {
    match a
    case Start(t, ids) => s[t := Locker([], Sorted(ids))]
    case Lock(t) => s[t := Locker(s[t].held + [s[t].todo[0]], s[t].todo[1..])]
    case End(t) => s - {t}
  }

  ghost predicate Run(key: Hashing, s: Lockers, steps: seq<Step>, s': Lockers)
    decreases |steps|
  {
    if steps == [] then s' == s
    else Enabled(key, s, steps[0]) && Run(key, After(key, s, steps[0]), steps[1..], s')
  }

  // ---------------------------------------------------------------- what every run keeps

  /** Everybody goes up, and no key is held twice. */
  ghost predicate Inv(key: Hashing, s: Lockers) {
    && (forall t | t in s :: Ascending(s[t].held + s[t].todo))
    && (forall t, u, k | t in s && u in s && t != u && Holds(s[t], key, k) :: !Holds(s[u], key, k))
  }

  lemma StepKeepsInv(key: Hashing, s: Lockers, a: Step)
    requires Inv(key, s) && Enabled(key, s, a)
    ensures Inv(key, After(key, s, a))
  {
    if a.Lock? {
      var l, l' := s[a.t], After(key, s, a)[a.t];
      assert l'.held + l'.todo == l.held + l.todo;
      forall k ensures Holds(l', key, k) <==> Holds(l, key, k) || k == key(l.todo[0]) {
        assert l'.held[|l.held|] == l.todo[0];
        assert forall i | 0 <= i < |l.held| :: l'.held[i] == l.held[i];
      }
    } else if a.Start? {
      assert [] + Sorted(a.ids) == Sorted(a.ids);
    }
  }

  lemma {:induction false} RunKeepsInv(key: Hashing, s: Lockers, steps: seq<Step>, s': Lockers)
    requires Inv(key, s) && Run(key, s, steps, s')
    ensures Inv(key, s')
    decreases |steps|
  {
    if steps != [] {
      StepKeepsInv(key, s, steps[0]);
      RunKeepsInv(key, After(key, s, steps[0]), steps[1..], s');
    }
  }

  // ---------------------------------------------------------------- waiting in a circle

  ghost predicate WaitsFor(key: Hashing, s: Lockers, t: TxId, u: TxId) {
    t in s && u in s && t != u && s[t].todo != [] && Holds(s[u], key, key(s[t].todo[0]))
  }

  ghost predicate Chain(key: Hashing, s: Lockers, ts: seq<TxId>) {
    forall i | 0 <= i < |ts| - 1 :: WaitsFor(key, s, ts[i], ts[i + 1])
  }

  ghost predicate Circle(key: Hashing, s: Lockers, ts: seq<TxId>) {
    |ts| > 1 && ts[|ts| - 1] == ts[0] && Chain(key, s, ts)
  }

  /** Between two ids with one key lies an id with another. */
  ghost predicate Tangled(key: Hashing) {
    exists a: nat, b: nat, c: nat :: a < b < c && key(a) == key(c) && key(b) != key(a)
  }

  lemma WaitGoesUp(key: Hashing, s: Lockers, t: TxId, u: TxId, v: TxId)
    requires Inv(key, s) && !Tangled(key) && WaitsFor(key, s, t, u) && WaitsFor(key, s, u, v)
    ensures s[t].todo[0] < s[u].todo[0]
  {
    var x, y := s[t].todo[0], s[u].todo[0];
    var i :| 0 <= i < |s[u].held| && key(s[u].held[i]) == key(x);
    var all := s[u].held + s[u].todo;
    assert all[i] == s[u].held[i] && all[|s[u].held|] == y;
    assert !Holds(s[u], key, key(y));
    assert key(all[i]) != key(y);
  }

  lemma {:induction false} WantsGrow(key: Hashing, s: Lockers, ts: seq<TxId>, v: TxId)
    requires Inv(key, s) && !Tangled(key) && |ts| > 1 && Chain(key, s, ts)
    requires WaitsFor(key, s, ts[0], ts[1]) && WaitsFor(key, s, ts[|ts| - 1], v)
    ensures s[ts[0]].todo[0] < s[ts[|ts| - 1]].todo[0]
    decreases |ts|
  {
    var n := |ts| - 1;
    assert WaitsFor(key, s, ts[n - 1], ts[n]);
    WaitGoesUp(key, s, ts[n - 1], ts[n], v);
    if n > 1 {
      var front := ts[..n];
      forall i | 0 <= i < |front| - 1 ensures WaitsFor(key, s, front[i], front[i + 1]) {
        assert WaitsFor(key, s, ts[i], ts[i + 1]);
      }
      assert WaitsFor(key, s, ts[n - 1], ts[n]) && front[0] == ts[0] && front[1] == ts[1];
      WantsGrow(key, s, front, ts[n]);
    }
  }

  lemma CircleMeansTangled(key: Hashing, steps: seq<Step>, s: Lockers, ts: seq<TxId>)
    requires Run(key, map[], steps, s) && Circle(key, s, ts)
    ensures Tangled(key)
  {
    RunKeepsInv(key, map[], steps, s);
    if !Tangled(key) {
      assert WaitsFor(key, s, ts[0], ts[1]);
      WantsGrow(key, s, ts, ts[1]);
      assert false;
    }
  }

  lemma SortedPair(a: nat, b: nat)
    requires a < b
    ensures Sorted({a, b}) == [a, b]
  {
    assert {a, b} - {a} == {b};
    assert {b} - {b} == {};
    assert Sorted({b}) == [b];
  }

  lemma {:induction false} Snoc(key: Hashing, s: Lockers, steps: seq<Step>, s1: Lockers, a: Step)
    requires Run(key, s, steps, s1) && Enabled(key, s1, a)
    ensures Run(key, s, steps + [a], After(key, s1, a))
    decreases |steps|
  {
    if steps == [] {
      assert steps + [a] == [a];
    } else {
      Snoc(key, After(key, s, steps[0]), steps[1..], s1, a);
      assert (steps + [a])[1..] == steps[1..] + [a];
    }
  }

  lemma BothStart(key: Hashing, a: nat, b: nat, c: nat) returns (steps: seq<Step>)
    requires a < b < c
    ensures Run(key, map[], steps, map[0 := Locker([], [a, b]), 1 := Locker([], [b, c])])
  {
    SortedPair(a, b);
    SortedPair(b, c);
    var s1: Lockers := map[0 := Locker([], [a, b])];
    Snoc(key, map[], [], map[], Start(0, {a, b}));
    Snoc(key, map[], [] + [Start(0, {a, b})], s1, Start(1, {b, c}));
    steps := [] + [Start(0, {a, b})] + [Start(1, {b, c})];
  }

  lemma TangledMeansCircle(key: Hashing, a: nat, b: nat, c: nat) returns (steps: seq<Step>, s: Lockers, ts: seq<TxId>)
    requires a < b < c && key(a) == key(c) && key(b) != key(a)
    ensures Run(key, map[], steps, s) && Circle(key, s, ts)
  {
    steps := BothStart(key, a, b, c);
    var s2: Lockers := map[0 := Locker([], [a, b]), 1 := Locker([], [b, c])];
    var s3: Lockers := map[0 := Locker([a], [b]), 1 := Locker([], [b, c])];
    s := map[0 := Locker([a], [b]), 1 := Locker([b], [c])];
    TakesFirst(key, s2, 0, a, b);
    Snoc(key, map[], steps, s2, Lock(0));
    assert s2[0 := Locker([a], [b])] == s3;
    TakesFirst(key, s3, 1, b, c);
    Snoc(key, map[], steps + [Lock(0)], s3, Lock(1));
    assert s3[1 := Locker([b], [c])] == s;
    steps := steps + [Lock(0)] + [Lock(1)];
    ts := [0, 1, 0];
    OneWaits(key, s, 0, 1);
    OneWaits(key, s, 1, 0);
  }

  lemma TakesFirst(key: Hashing, s: Lockers, t: TxId, x: nat, y: nat)
    requires t in s && s[t] == Locker([], [x, y])
    requires forall u | u in s && u != t :: forall i | 0 <= i < |s[u].held| :: key(s[u].held[i]) != key(x)
    ensures Enabled(key, s, Lock(t)) && After(key, s, Lock(t)) == s[t := Locker([x], [y])]
  {
    var l := s[t];
    assert l.held + [l.todo[0]] == [x] && l.todo[1..] == [y];
  }

  lemma OneWaits(key: Hashing, s: Lockers, t: TxId, u: TxId)
    requires t in s && u in s && t != u && |s[t].todo| == |s[u].held| == 1 && key(s[u].held[0]) == key(s[t].todo[0])
    ensures WaitsFor(key, s, t, u)
  {
  }

  ghost predicate CanDeadlock(key: Hashing) {
    exists steps, s, ts :: Run(key, map[], steps, s) && Circle(key, s, ts)
  }

  /**
   * Sorted locking can end in a circle of waits exactly when some id lies between two
   * others that have one key in common and it has another.
   */
  lemma DeadlockExactlyWhenTangled(key: Hashing)
    ensures CanDeadlock(key) <==> Tangled(key)
  {
    if CanDeadlock(key) {
      var steps, s, ts :| Run(key, map[], steps, s) && Circle(key, s, ts);
      CircleMeansTangled(key, steps, s, ts);
    } else if Tangled(key) {
      var a: nat, b: nat, c: nat :| a < b < c && key(a) == key(c) && key(b) != key(a);
      var steps, s, ts := TangledMeansCircle(key, a, b, c);
      assert false;
    }
  }

  /** In particular never when the hash has no collisions. */
  lemma NoDeadlockWithoutCollisions(key: Hashing)
    requires forall x: nat, y: nat :: key(x) == key(y) ==> x == y
    ensures !CanDeadlock(key)
  {
    DeadlockExactlyWhenTangled(key);
  }
}
