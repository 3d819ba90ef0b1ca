/** The ledger balances. For every recipient and key, in every run and without assuming that ids are
    distinct, the accepted messages are exactly the queued, detached, removed, flushed and discarded ones.
  */
module Conservation {
  import opened Basics
  import opened Registry
  import opened Protocol
  import opened Ownership
  import opened Stranded
  import opened Ledger

  predicate Concerns(s: State, t: nat, r: Name, k: Key) {
    t < |s.accepted| && t < |s.place| && s.accepted[t].dest == r && KeyOf(s.accepted[t].msg) == k
  }

  function AcceptedFor(s: State, r: Name, k: Key): set<nat> {
    set t | 0 <= t < |s.accepted| && Concerns(s, t, r, k)
  }

  function TakenOutFor(s: State, r: Name, k: Key): set<nat> {
    set t | 0 <= t < |s.accepted| && Concerns(s, t, r, k) && s.place[t].RemovedBy?
  }

  function FlushedFor(s: State, r: Name, k: Key): set<nat> {
    set t | 0 <= t < |s.accepted| && Concerns(s, t, r, k) && s.place[t].FlushedAway?
  }

  function DiscardedFor(s: State, r: Name, k: Key): set<nat> {
    set t | 0 <= t < |s.accepted| && Concerns(s, t, r, k) && s.place[t].Discarded?
  }

  /** Messages their own send reported delivered. */
  function DirectFor(s: State, r: Name, k: Key): set<nat> {
    set t | 0 <= t < |s.accepted| && Concerns(s, t, r, k) && Report(t, false) in s.reports
  }

  function QueuedCount(s: State, r: Name, k: Key): nat {
    if r in s.users then Count(s.users[r].queue, k) else 0
  }

  ghost function Pick(s: set<nat>): (x: nat)
    requires s != {}
    ensures x in s
  {
    var x :| x in s; x
  }

  function ListCount(ws: map<nat, Worker>, w: nat, r: Name, k: Key): nat
    requires w in ws
  {
    if !ws[w].IsSend() && ws[w].dest == r then Count(ws[w].pending, k) else 0
  }

  /** Nodes of the key in the detached lists of the given CONNECT workers of the recipient. */
  ghost function DetachedCount(ws: map<nat, Worker>, tids: set<nat>, r: Name, k: Key): nat
    requires tids <= ws.Keys
  {
    if tids == {} then 0
    else ListCount(ws, Pick(tids), r, k) + DetachedCount(ws, tids - {Pick(tids)}, r, k)
  }

  // ---- Counting nodes is counting the tags the ledger has at their place.

  function TagsWithKey(q: seq<Node>, k: Key): set<nat> {
    set i | 0 <= i < |q| && KeyOf(q[i].msg) == k :: q[i].tag
  }

  lemma {:induction false} CountIsCard(q: seq<Node>, k: Key)
    requires Distinct(q)
    ensures |TagsWithKey(q, k)| == Count(q, k)
  {
    if q != [] {
      var rest := q[1..];
      CountIsCard(rest, k);
      var head := if KeyOf(q[0].msg) == k then {q[0].tag} else {};
      forall t ensures t in TagsWithKey(q, k) <==> t in head || t in TagsWithKey(rest, k) {
        if t in TagsWithKey(q, k) {
          var i :| 0 <= i < |q| && KeyOf(q[i].msg) == k && q[i].tag == t;
          if i > 0 {
            assert rest[i - 1] == q[i];
          }
        }
        if t in TagsWithKey(rest, k) {
          var i :| 0 <= i < |rest| && KeyOf(rest[i].msg) == k && rest[i].tag == t;
          assert q[i + 1] == rest[i];
        }
      }
      assert TagsWithKey(q, k) == head + TagsWithKey(rest, k);
      assert head !! TagsWithKey(rest, k);
    }
  }

  function QueuedFor(s: State, r: Name, k: Key): set<nat> {
    set t | 0 <= t < |s.accepted| && Concerns(s, t, r, k) && s.place[t].InQueue?
  }

  function DetachedFor(s: State, tids: set<nat>, r: Name, k: Key): set<nat> {
    set t | 0 <= t < |s.accepted| && Concerns(s, t, r, k) && s.place[t].Detached? && s.place[t].tid in tids
  }

  lemma QueuedCard(s: State, r: Name, k: Key)
    requires OwnInv(s)
    ensures |QueuedFor(s, r, k)| == QueuedCount(s, r, k)
  {
    if r in s.users {
      var q := s.users[r].queue;
      assert Holds(s.accepted, s.place, q, r, InQueue(r));
      CountIsCard(q, k);
      forall t ensures t in QueuedFor(s, r, k) <==> t in TagsWithKey(q, k) {
        if t in QueuedFor(s, r, k) {
          InQueueOfDest(s, t);
          var i :| 0 <= i < |q| && Tags(q)[i] == t;
          assert q[i].tag == t;
        }
      }
      assert QueuedFor(s, r, k) == TagsWithKey(q, k);
    } else {
      forall t ensures t !in QueuedFor(s, r, k) {
        if t in QueuedFor(s, r, k) {
          InQueueOfDest(s, t);
        }
      }
      assert QueuedFor(s, r, k) == {};
    }
  }

  lemma InQueueOfDest(s: State, t: nat)
    requires OwnInv(s) && t < |s.place| && s.place[t].InQueue?
    ensures s.place[t].name == s.accepted[t].dest
    ensures s.accepted[t].dest in s.users && t in Tags(s.users[s.accepted[t].dest].queue)
  {
    assert Backed(s, t);
    var n := s.place[t].name;
    assert Holds(s.accepted, s.place, s.users[n].queue, n, InQueue(n));
    var i :| 0 <= i < |s.users[n].queue| && Tags(s.users[n].queue)[i] == t;
    assert s.users[n].queue[i].tag == t;
  }

  lemma DetachedOfDest(s: State, t: nat)
    requires OwnInv(s) && t < |s.place| && s.place[t].Detached?
    ensures var w := s.place[t].tid;
      && w in s.workers && !s.workers[w].IsSend() && s.workers[w].dest == s.accepted[t].dest
      && t in Tags(s.workers[w].pending)
  {
    assert Backed(s, t);
    var w := s.place[t].tid;
    assert Holds(s.accepted, s.place, s.workers[w].pending, s.workers[w].dest, Detached(w));
    var i :| 0 <= i < |s.workers[w].pending| && Tags(s.workers[w].pending)[i] == t;
    assert s.workers[w].pending[i].tag == t;
  }

  lemma OneListCard(s: State, w: nat, r: Name, k: Key)
    requires OwnInv(s) && w in s.workers
    ensures |DetachedFor(s, {w}, r, k)| == ListCount(s.workers, w, r, k)
  {
    var held := DetachedFor(s, {w}, r, k);
    forall t | t in held
      ensures !s.workers[w].IsSend() && s.workers[w].dest == r && t in Tags(s.workers[w].pending)
    {
      DetachedOfDest(s, t);
    }
    if !s.workers[w].IsSend() && s.workers[w].dest == r {
      var q := s.workers[w].pending;
      assert Holds(s.accepted, s.place, q, r, Detached(w));
      CountIsCard(q, k);
      forall t | t in held ensures t in TagsWithKey(q, k) {
        var i :| 0 <= i < |q| && Tags(q)[i] == t;
        assert q[i].tag == t;
      }
      assert held == TagsWithKey(q, k);
    } else {
      assert held == {};
    }
  }

  lemma {:induction false} DetachedCard(s: State, tids: set<nat>, r: Name, k: Key)
    requires OwnInv(s) && tids <= s.workers.Keys
    ensures |DetachedFor(s, tids, r, k)| == DetachedCount(s.workers, tids, r, k)
  {
    if tids == {} {
      assert DetachedFor(s, tids, r, k) == {};
    } else {
      var w := Pick(tids);
      OneListCard(s, w, r, k);
      DetachedCard(s, tids - {w}, r, k);
      DetachedSplit(s, tids, w, r, k);
      UnionCard(DetachedFor(s, {w}, r, k), DetachedFor(s, tids - {w}, r, k));
    }
  }

  lemma DetachedSplit(s: State, tids: set<nat>, w: nat, r: Name, k: Key)
    requires w in tids
    ensures DetachedFor(s, tids, r, k) == DetachedFor(s, {w}, r, k) + DetachedFor(s, tids - {w}, r, k)
    ensures DetachedFor(s, {w}, r, k) !! DetachedFor(s, tids - {w}, r, k)
  {
  }

  lemma UnionCard(a: set<nat>, b: set<nat>)
    requires a !! b
    ensures |a + b| == |a| + |b|
  {
  }

  // ---- The balance.

  /** accepted = queued + detached + removed + flushed + discarded, per recipient and key. */
  lemma LedgerBalances(steps: seq<Action>, r: Name, k: Key)
    ensures
      var s := Run(steps);
      |AcceptedFor(s, r, k)|
        == QueuedCount(s, r, k) + DetachedCount(s.workers, s.workers.Keys, r, k)
         + |TakenOutFor(s, r, k)| + |FlushedFor(s, r, k)| + |DiscardedFor(s, r, k)|
  {
    var s := Run(steps);
    AlwaysOwned(steps);
    QueuedCard(s, r, k);
    DetachedCard(s, s.workers.Keys, r, k);
    forall t | 0 <= t < |s.place| && s.place[t].Detached? ensures s.place[t].tid in s.workers.Keys {
      DetachedOfDest(s, t);
    }
    PlacesPartition(s, r, k);
  }

  lemma PlacesPartition(s: State, r: Name, k: Key)
    requires |s.place| == |s.accepted|
    requires forall t | 0 <= t < |s.place| && s.place[t].Detached? :: s.place[t].tid in s.workers.Keys
    ensures |AcceptedFor(s, r, k)|
         == |QueuedFor(s, r, k)| + |DetachedFor(s, s.workers.Keys, r, k)|
          + |TakenOutFor(s, r, k)| + |FlushedFor(s, r, k)| + |DiscardedFor(s, r, k)|
  {
    var q, d := QueuedFor(s, r, k), DetachedFor(s, s.workers.Keys, r, k);
    var rm, f, x := TakenOutFor(s, r, k), FlushedFor(s, r, k), DiscardedFor(s, r, k);
    forall t ensures t in AcceptedFor(s, r, k) <==> t in q || t in d || t in rm || t in f || t in x {
      if t in AcceptedFor(s, r, k) {
        match s.place[t]
        case InQueue(_) =>
        case Detached(_) =>
        case RemovedBy(_) =>
        case FlushedAway =>
        case Discarded =>
      }
    }
    FiveParts(AcceptedFor(s, r, k), q, d, rm, f, x);
  }

  lemma FiveParts(all: set<nat>, a: set<nat>, b: set<nat>, c: set<nat>, d: set<nat>, e: set<nat>)
    requires forall t :: t in all <==> t in a || t in b || t in c || t in d || t in e
    requires a !! b && a !! c && a !! d && a !! e && b !! c && b !! d && b !! e && c !! d && c !! e && d !! e
    ensures |all| == |a| + |b| + |c| + |d| + |e|
  {
    assert all == a + b + c + d + e;
  }

  /** Sends never remove more nodes of a key than they reported deliveries of that key. */
  lemma RemovalsWithinDeliveries(steps: seq<Action>, r: Name, k: Key)
    ensures |TakenOutFor(Run(steps), r, k)| <= |DirectFor(Run(steps), r, k)|
  {
    var s := Run(steps);
    LedgerStaysSound(steps);
    var remover := map t | t in TakenOutFor(s, r, k) :: s.place[t].tag;
    forall t | t in TakenOutFor(s, r, k) ensures remover[t] in DirectFor(s, r, k) {
      assert Answers(s, t, s.place[t].tag);
    }
    InjectionCard(TakenOutFor(s, r, k), DirectFor(s, r, k), remover);
  }
}
