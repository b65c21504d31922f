/** The retirement outbox as the database keeps it: what is asked, how often it was tried, when it is due. */
module Outbox {
  import opened Vault
  import opened Metadata

  /** How long a claim or a failure puts an item off, in seconds. */
  const RETRY: Time := 60

  datatype Entry = Entry(request: Request, attempts: nat, dueAt: Time)

  type Queue = map<Hash, Entry>

  function RequestsOf(q: Queue): map<Hash, Request> {
    map id | id in q :: q[id].request
  }

  predicate Due(q: Queue, id: Hash, now: Time) {
    id in q && q[id].request == Queued && q[id].dueAt <= now
  }

  function SetOf(ids: seq<Hash>): set<Hash> {
    set id | id in ids
  }

  function Claimable(q: Queue, locked: set<Hash>, now: Time): set<Hash> {
    set id | id in q && Due(q, id, now) && id !in locked
  }

  function Asked(q: Queue, id: Hash, now: Time): Queue {
    q[id := Entry(Queued, 0, now)]
  }

  function Requeued(q: Queue, id: Hash, now: Time): Queue {
    if id in q then q[id := q[id].(request := Queued, dueAt := now)] else q
  }

  function Postponed(q: Queue, id: Hash, now: Time): Queue {
    if id in q then q[id := q[id].(request := Queued, dueAt := now + RETRY)] else q
  }

  function Finished(q: Queue, id: Hash): Queue {
    if id in q then q[id := q[id].(request := Completed)] else q
  }

  function Claimed(q: Queue, ids: set<Hash>, now: Time): Queue {
    map id | id in q :: if id in ids then q[id].(attempts := q[id].attempts + 1, dueAt := now + RETRY) else q[id]
  }

  // ---------------------------------------------------------------- the order of a claim

  /** rank is the database's order of the manifest ids. */
  ghost predicate Ranks(rank: Hash -> int) {
    forall a, b | rank(a) == rank(b) :: a == b
  }

  predicate Precedes(q: Queue, rank: Hash -> int, a: Hash, b: Hash)
    requires a in q && b in q
  {
    q[a].dueAt < q[b].dueAt || (q[a].dueAt == q[b].dueAt && rank(a) < rank(b))
  }

  /** The first cap of the candidates, in order. */
  ghost predicate IsHead(q: Queue, rank: Hash -> int, candidates: set<Hash>, cap: nat, ids: seq<Hash>)
    requires candidates <= q.Keys
  {
    && |ids| <= cap
    && (forall i | 0 <= i < |ids| :: ids[i] in candidates)
    && (forall i, j | 0 <= i < j < |ids| :: Precedes(q, rank, ids[i], ids[j]))
    && (forall k | k in candidates && k !in ids ::
          |ids| == cap && forall i | 0 <= i < |ids| :: Precedes(q, rank, ids[i], k))
  }

  /** The ordered, limited query: the first cap of the candidates. */
  method FirstOf(q: Queue, rank: Hash -> int, candidates: set<Hash>, cap: nat) returns (ids: seq<Hash>)
    requires Ranks(rank) && candidates <= q.Keys
    ensures IsHead(q, rank, candidates, cap, ids)
  {
    hide Precedes;
    ids := [];
    var rest := candidates;
    while rest != {} && |ids| < cap
      invariant |ids| <= cap && rest <= candidates
      invariant forall i | 0 <= i < |ids| :: ids[i] in candidates
      invariant forall id | id in candidates :: id in ids || id in rest
      invariant forall i, j | 0 <= i < j < |ids| :: Precedes(q, rank, ids[i], ids[j])
      invariant forall i, id | 0 <= i < |ids| && id in rest :: Precedes(q, rank, ids[i], id)
      decreases |rest|
    {
      FirstExists(q, rank, rest);
      var first :| first in rest && forall id | id in rest && id != first :: Precedes(q, rank, first, id);
      ids, rest := ids + [first], rest - {first};
    }
  }

  lemma {:induction false} FirstExists(q: Queue, rank: Hash -> int, ids: set<Hash>)
    requires ids != {} && ids <= q.Keys && Ranks(rank)
    ensures exists a :: a in ids && forall b | b in ids && b != a :: Precedes(q, rank, a, b)
    decreases |ids|
  {
    var c :| c in ids;
    var rest := ids - {c};
    if rest == {} {
      assert forall b | b in ids && b != c :: b in rest;
      assert forall b | b in ids && b != c :: Precedes(q, rank, c, b);
    } else {
      FirstExists(q, rank, rest);
      var a :| a in rest && forall b | b in rest && b != a :: Precedes(q, rank, a, b);
      var first := if Precedes(q, rank, a, c) then a else c;
      assert rank(a) != rank(c);
      forall b | b in ids && b != first
        ensures Precedes(q, rank, first, b)
      {
        assert b == c || b in rest;
      }
    }
  }

  /** What precedes the n-th of the head is among the ones before it. */
  lemma NotLater(q: Queue, rank: Hash -> int, candidates: set<Hash>, cap: nat, ids: seq<Hash>, n: nat, x: Hash)
    requires candidates <= q.Keys && IsHead(q, rank, candidates, cap, ids)
    requires n < |ids| && x in candidates && Precedes(q, rank, x, ids[n])
    ensures exists i :: 0 <= i < n && ids[i] == x
  {
    assert !Precedes(q, rank, ids[n], x);
    assert x in ids;
  }

  lemma NoneEarlier(q: Queue, rank: Hash -> int, candidates: set<Hash>, cap: nat, a: seq<Hash>, b: seq<Hash>, n: nat)
    requires candidates <= q.Keys
    requires IsHead(q, rank, candidates, cap, a) && IsHead(q, rank, candidates, cap, b)
    requires n < |a| && n < |b| && a[..n] == b[..n]
    ensures !Precedes(q, rank, a[n], b[n])
  {
    assert forall i | 0 <= i < n :: a[i] == a[..n][i] == b[..n][i] == b[i];
    assert forall i | 0 <= i < n :: Precedes(q, rank, a[i], a[n]);
    if Precedes(q, rank, a[n], b[n]) {
      NotLater(q, rank, candidates, cap, b, n, a[n]);
    }
  }

  lemma {:induction false} HeadsAgree(q: Queue, rank: Hash -> int, candidates: set<Hash>, cap: nat,
                                      a: seq<Hash>, b: seq<Hash>, n: nat)
    requires Ranks(rank) && candidates <= q.Keys
    requires IsHead(q, rank, candidates, cap, a) && IsHead(q, rank, candidates, cap, b)
    requires n <= |a| && n <= |b|
    ensures a[..n] == b[..n]
  {
    if n > 0 {
      HeadsAgree(q, rank, candidates, cap, a, b, n - 1);
      NoneEarlier(q, rank, candidates, cap, a, b, n - 1);
      NoneEarlier(q, rank, candidates, cap, b, a, n - 1);
      assert a[n - 1] == b[n - 1];
      assert a[..n] == a[..n - 1] + [a[n - 1]] && b[..n] == b[..n - 1] + [b[n - 1]];
    }
  }

  lemma NoRepeats(q: Queue, rank: Hash -> int, candidates: set<Hash>, cap: nat, ids: seq<Hash>, n: nat)
    requires candidates <= q.Keys && IsHead(q, rank, candidates, cap, ids) && n < |ids|
    ensures ids[n] in candidates && ids[n] !in ids[..n]
  {
    assert forall i | 0 <= i < n :: Precedes(q, rank, ids[i], ids[n]);
  }

  /** The order leaves a claim no choice. */
  lemma ClaimIsDetermined(q: Queue, rank: Hash -> int, candidates: set<Hash>, cap: nat, a: seq<Hash>, b: seq<Hash>)
    requires Ranks(rank) && candidates <= q.Keys
    requires IsHead(q, rank, candidates, cap, a) && IsHead(q, rank, candidates, cap, b)
    ensures a == b
  {
    if |a| <= |b| {
      HeadIsNoProperPrefix(q, rank, candidates, cap, a, b);
    } else {
      HeadIsNoProperPrefix(q, rank, candidates, cap, b, a);
    }
  }

  lemma HeadIsNoProperPrefix(q: Queue, rank: Hash -> int, candidates: set<Hash>, cap: nat, a: seq<Hash>, b: seq<Hash>)
    requires Ranks(rank) && candidates <= q.Keys && |a| <= |b|
    requires IsHead(q, rank, candidates, cap, a) && IsHead(q, rank, candidates, cap, b)
    ensures a == b
  {
    HeadsAgree(q, rank, candidates, cap, a, b, |a|);
    assert a == a[..|a|] == b[..|a|];
    if |a| < |b| {
      NoRepeats(q, rank, candidates, cap, b, |a|);
    }
  }

  // ---------------------------------------------------------------- how long a claim holds

  datatype Event = Ask(id: Hash) | AskAgain(id: Hash) | Postpone(id: Hash) | Finish(id: Hash) | Claim(ids: set<Hash>)

  function After(q: Queue, e: Event, at: Time): Queue {
    match e
    case Ask(id) => Asked(q, id, at)
    case AskAgain(id) => Requeued(q, id, at)
    case Postpone(id) => Postponed(q, id, at)
    case Finish(id) => Finished(q, id)
    case Claim(ids) => Claimed(q, ids, at)
  }

  predicate Concerns(e: Event, id: Hash) {
    if e.Claim? then id in e.ids else e.id == id
  }

  /** What happens to the queue, one event after the other, each at its own time. */
  function Happen(q: Queue, events: seq<(Event, Time)>): Queue {
    if events == [] then q
    else var last := |events| - 1; After(Happen(q, events[..last]), events[last].0, events[last].1)
  }

  /** The last event about an item asks for it again. */
  predicate AskedAgain(events: seq<(Event, Time)>, id: Hash) {
    if events == [] then false
    else
      var last := |events| - 1;
      if Concerns(events[last].0, id) then events[last].0.Ask? || events[last].0.AskAgain?
      else AskedAgain(events[..last], id)
  }

  ghost predicate Within(events: seq<(Event, Time)>, lo: Time, hi: Time) {
    forall i | 0 <= i < |events| :: lo <= events[i].1 <= hi
  }

  /** Once claimed, an item stays queued for later or done, unless it was asked for again. */
  ghost predicate PutOff(q: Queue, id: Hash, now: Time) {
    id in q && (q[id].request == Queued ==> now < q[id].dueAt)
  }

  lemma {:induction false} ClaimHoldsUnlessAskedAgain(q: Queue, id: Hash, claimedAt: Time,
                                                      events: seq<(Event, Time)>, now: Time)
    requires PutOff(q, id, now) && Within(events, claimedAt, now) && now < claimedAt + RETRY
    ensures if AskedAgain(events, id) then Due(Happen(q, events), id, now) else PutOff(Happen(q, events), id, now)
  {
    if events != [] {
      var last := |events| - 1;
      assert Within(events[..last], claimedAt, now) by {
        assert forall i | 0 <= i < last :: events[..last][i] == events[i];
      }
      ClaimHoldsUnlessAskedAgain(q, id, claimedAt, events[..last], now);
      assert claimedAt <= events[last].1 <= now;
    }
  }

  /**
   * A claimed item can be claimed again within the minute if and only if the last thing that
   * happened to it is that somebody asked for it again.
   */
  lemma ClaimIsUndoneExactlyByAsking(q: Queue, ids: set<Hash>, id: Hash, claimedAt: Time,
                                     events: seq<(Event, Time)>, now: Time)
    requires id in ids && id in q
    requires Within(events, claimedAt, now) && now < claimedAt + RETRY
    ensures Due(Happen(Claimed(q, ids, claimedAt), events), id, now) <==> AskedAgain(events, id)
  {
    ClaimHoldsUnlessAskedAgain(Claimed(q, ids, claimedAt), id, claimedAt, events, now);
  }

  // ---------------------------------------------------------------- when an item is due again

  ghost predicate Elsewhere(events: seq<(Event, Time)>, id: Hash) {
    forall i | 0 <= i < |events| :: !Concerns(events[i].0, id)
  }

  lemma {:induction false} ElsewhereChangesNothing(q: Queue, events: seq<(Event, Time)>, id: Hash)
    requires Elsewhere(events, id)
    ensures (id in Happen(q, events) <==> id in q) && (id in q ==> Happen(q, events)[id] == q[id])
  {
    if events != [] {
      var last := |events| - 1;
      assert Elsewhere(events[..last], id) by {
        assert forall i | 0 <= i < last :: events[..last][i] == events[i];
      }
      ElsewhereChangesNothing(q, events[..last], id);
      assert !Concerns(events[last].0, id);
    }
  }

  /**
   * The last thing that happened to an item decides when it is due: at once when it was asked
   * for, sixty seconds later when it was claimed or its attempt failed, never when it is done.
   */
  lemma {:induction false} DueExactly(q: Queue, e: Event, at: Time, id: Hash, others: seq<(Event, Time)>, now: Time)
    requires Concerns(e, id) && id in q && Elsewhere(others, id)
    ensures Due(Happen(After(q, e, at), others), id, now) <==>
              match e
              case Ask(_) => now >= at
              case AskAgain(_) => now >= at
              case Postpone(_) => now >= at + 60
              case Claim(_) => q[id].request == Queued && now >= at + 60
              case Finish(_) => false
  {
    ElsewhereChangesNothing(After(q, e, at), others, id);
  }

  /** How often an item was claimed since it was last asked for anew. */
  function ClaimsSinceAsked(before: nat, events: seq<(Event, Time)>, id: Hash): nat {
    if events == [] then before
    else
      var last := |events| - 1;
      match events[last].0
      case Ask(k) => if k == id then 0 else ClaimsSinceAsked(before, events[..last], id)
      case Claim(ids) => ClaimsSinceAsked(before, events[..last], id) + if id in ids then 1 else 0
      case _ => ClaimsSinceAsked(before, events[..last], id)
  }

  lemma {:induction false} AttemptsCountClaims(q: Queue, events: seq<(Event, Time)>, id: Hash)
    requires id in q
    ensures id in Happen(q, events)
    ensures Happen(q, events)[id].attempts == ClaimsSinceAsked(q[id].attempts, events, id)
  {
    if events != [] {
      AttemptsCountClaims(q, events[..|events| - 1], id);
    }
  }
}
