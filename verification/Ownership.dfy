/** Who owns a message node. In every reachable state each accepted message's node is in exactly one
    user's queue, or in exactly one CONNECT worker's detached list, or has been released exactly once.
  */
module Ownership {
  import opened Basics
  import opened MessageIds
  import opened Registry
  import opened Protocol

  predicate Released(p: Place) {
    p.RemovedBy? || p.FlushedAway? || p.Discarded?
  }

  /** Every node of the list is an accepted message for `dest` recorded at `at`, and occurs once. */
  predicate Holds(accepted: seq<Entry>, place: seq<Place>, q: seq<Node>, dest: Name, at: Place)
    requires |place| == |accepted|
  {
    && (forall i | 0 <= i < |q| ::
          q[i].tag < |place| && place[q[i].tag] == at && accepted[q[i].tag] == Entry(dest, q[i].msg))
    && Distinct(q)
  }

  predicate Distinct(q: seq<Node>) {
    forall i, j | 0 <= i < j < |q| :: q[i].tag != q[j].tag
  }

  ghost predicate QueuesOwn(s: State)
    requires |s.place| == |s.accepted|
  {
    forall n | n in s.users :: Holds(s.accepted, s.place, s.users[n].queue, n, InQueue(n))
  }

  ghost predicate ListsOwn(s: State)
    requires |s.place| == |s.accepted|
  {
    forall w | w in s.workers && !s.workers[w].IsSend() ::
      && s.workers[w].pending != []
      && Holds(s.accepted, s.place, s.workers[w].pending, s.workers[w].dest, Detached(w))
  }

  /** An owner the ledger names does have the node. */
  predicate Backed(s: State, t: nat)
    requires t < |s.place|
  {
    match s.place[t]
    case InQueue(n) => n in s.users && t in Tags(s.users[n].queue)
    case Detached(w) => w in s.workers && !s.workers[w].IsSend() && t in Tags(s.workers[w].pending)
    case _ => true
  }

  ghost predicate OwnersHave(s: State) {
    forall t {:trigger Backed(s, t)} {:trigger s.place[t]} | 0 <= t < |s.place| :: Backed(s, t)
  }

  ghost predicate FreedOnce(s: State) {
    forall t: nat :: s.freed[t] == if t < |s.place| && Released(s.place[t]) then 1 else 0
  }

  /** Sends in flight carry their own accepted message, each a different one. */
  ghost predicate SendsOwn(s: State) {
    && (forall w | w in s.workers && s.workers[w].IsSend() ::
          var node := s.workers[w].node;
          node.tag < |s.accepted| && s.accepted[node.tag] == Entry(s.workers[w].dest, node.msg))
    && (forall v, w | v in s.workers && w in s.workers && s.workers[v].IsSend() && s.workers[w].IsSend() && v != w ::
          s.workers[v].node.tag != s.workers[w].node.tag)
  }

  ghost predicate OwnInv(s: State) {
    && |s.place| == |s.accepted|
    && QueuesOwn(s)
    && ListsOwn(s)
    && OwnersHave(s)
    && FreedOnce(s)
    && SendsOwn(s)
  }

  // ---- Lists and the ledger.

  lemma {:induction false} DistinctMultiset(s: seq<nat>, x: nat)
    requires forall i, j | 0 <= i < j < |s| :: s[i] != s[j]
    ensures multiset(s)[x] == if x in s then 1 else 0
  {
    if s != [] {
      DistinctMultiset(s[1..], x);
      assert s == [s[0]] + s[1..];
    }
  }

  /** Moving some nodes leaves alone a list recorded at another place than theirs. */
  lemma HoldsElsewhere(accepted: seq<Entry>, place: seq<Place>, q: seq<Node>, dest: Name, at: Place,
                       moved: seq<Node>, movedDest: Name, from: Place, to: Place)
    requires |place| == |accepted|
    requires Holds(accepted, place, q, dest, at) && Holds(accepted, place, moved, movedDest, from) && at != from
    ensures Holds(accepted, Moved(place, Tags(moved), to), q, dest, at)
  {
  }

  lemma HoldsMoved(accepted: seq<Entry>, place: seq<Place>, q: seq<Node>, dest: Name, from: Place, to: Place)
    requires |place| == |accepted|
    requires Holds(accepted, place, q, dest, from)
    ensures Holds(accepted, Moved(place, Tags(q), to), q, dest, to)
  {
    assert forall i | 0 <= i < |q| :: Tags(q)[i] == q[i].tag;
  }

  lemma FreedMoved(s: State, q: seq<Node>, dest: Name, from: Place, to: Place)
    requires |s.place| == |s.accepted| && FreedOnce(s)
    requires Holds(s.accepted, s.place, q, dest, from) && !Released(from) && Released(to)
    ensures FreedOnce(s.(place := Moved(s.place, Tags(q), to), freed := s.freed + multiset(Tags(q))))
  {
    forall t: nat {
      DistinctMultiset(Tags(q), t);
    }
  }

  lemma FreedStill(s: State, q: seq<Node>, dest: Name, from: Place, to: Place)
    requires |s.place| == |s.accepted| && FreedOnce(s)
    requires Holds(s.accepted, s.place, q, dest, from) && !Released(from) && !Released(to)
    ensures FreedOnce(s.(place := Moved(s.place, Tags(q), to)))
  {
  }

  /** Adding an accepted message leaves the recorded lists as they were. */
  lemma HoldsGrown(accepted: seq<Entry>, place: seq<Place>, q: seq<Node>, dest: Name, at: Place, e: Entry, p: Place)
    requires |place| == |accepted| && Holds(accepted, place, q, dest, at)
    ensures Holds(accepted + [e], place + [p], q, dest, at)
  {
  }

  /** Moving the nodes of one list leaves every other queue and detached list as recorded. */
  lemma OthersKeep(s: State, q: seq<Node>, dest: Name, from: Place, to: Place)
    requires |s.place| == |s.accepted| && QueuesOwn(s) && ListsOwn(s)
    requires Holds(s.accepted, s.place, q, dest, from)
    ensures forall m | m in s.users && InQueue(m) != from ::
              Holds(s.accepted, Moved(s.place, Tags(q), to), s.users[m].queue, m, InQueue(m))
    ensures forall w | w in s.workers && !s.workers[w].IsSend() && Detached(w) != from ::
              Holds(s.accepted, Moved(s.place, Tags(q), to), s.workers[w].pending, s.workers[w].dest, Detached(w))
  {
    forall m | m in s.users && InQueue(m) != from
      ensures Holds(s.accepted, Moved(s.place, Tags(q), to), s.users[m].queue, m, InQueue(m))
    {
      HoldsElsewhere(s.accepted, s.place, s.users[m].queue, m, InQueue(m), q, dest, from, to);
    }
    forall w | w in s.workers && !s.workers[w].IsSend() && Detached(w) != from
      ensures Holds(s.accepted, Moved(s.place, Tags(q), to), s.workers[w].pending, s.workers[w].dest, Detached(w))
    {
      HoldsElsewhere(s.accepted, s.place, s.workers[w].pending, s.workers[w].dest, Detached(w), q, dest, from, to);
    }
  }

  // ---- Each kind of step keeps the invariant.

  lemma RegisterKeeps(s: State, n: Name)
    requires OwnInv(s)
    ensures OwnInv(RegisterStep(s, n))
  {
  }

  /** A change of the registry that leaves the names and the queues alone. */
  lemma SameQueuesKeep(s: State, us: Users)
    requires OwnInv(s) && us.Keys == s.users.Keys && forall n | n in us :: us[n].queue == s.users[n].queue
    ensures OwnInv(s.(users := us))
  {
    var s' := s.(users := us);
    forall n | n in us ensures Holds(s.accepted, s.place, us[n].queue, n, InQueue(n)) {
      assert n in s.users;
    }
    forall t | 0 <= t < |s.place| ensures Backed(s', t) {
      assert Backed(s, t);
    }
  }

  lemma DisconnectKeeps(s: State, n: Name, ip: Bytes)
    requires OwnInv(s)
    ensures OwnInv(s.(users := Disconnect(s.users, n, ip).users))
    ensures OwnInv(s.(users := MarkDown(s.users, n)))
  {
    SameQueuesKeep(s, MarkDown(s.users, n));
    SameQueuesKeep(s, Disconnect(s.users, n, ip).users);
  }

  lemma UnregisterKeeps(s: State, n: Name)
    requires OwnInv(s)
    ensures OwnInv(UnregisterStep(s, n))
  {
    if n in s.users {
      FreedMoved(s, s.users[n].queue, n, InQueue(n), Discarded);
      OthersKeep(s, s.users[n].queue, n, InQueue(n), Discarded);
    }
  }

  lemma ConnectKeeps(s: State, tid: nat, n: Name, ip: Bytes, port: Bytes)
    requires OwnInv(s)
    ensures OwnInv(ConnectStep(s, tid, n, ip, port))
  {
    ConnectKeepsHolds(s, tid, n, ip, port);
    ConnectKeepsOwners(s, tid, n, ip, port);
    if n in s.users {
      FreedStill(s, s.users[n].queue, n, InQueue(n), Detached(tid));
    }
  }

  lemma ConnectKeepsHolds(s: State, tid: nat, n: Name, ip: Bytes, port: Bytes)
    requires |s.place| == |s.accepted| && QueuesOwn(s) && ListsOwn(s)
    ensures |ConnectStep(s, tid, n, ip, port).place| == |s.accepted|
    ensures QueuesOwn(ConnectStep(s, tid, n, ip, port)) && ListsOwn(ConnectStep(s, tid, n, ip, port))
  {
    if n in s.users && tid !in s.workers {
      var q := s.users[n].queue;
      HoldsMoved(s.accepted, s.place, q, n, InQueue(n), Detached(tid));
      OthersKeep(s, q, n, InQueue(n), Detached(tid));
    }
  }

  lemma ConnectKeepsOwners(s: State, tid: nat, n: Name, ip: Bytes, port: Bytes)
    requires OwnersHave(s)
    ensures OwnersHave(ConnectStep(s, tid, n, ip, port))
  {
    var s' := ConnectStep(s, tid, n, ip, port);
    forall t | 0 <= t < |s'.place| ensures Backed(s', t) {
      assert Backed(s, t);
    }
  }

  lemma SendKeeps(s: State, tid: nat, sender: Name, dest: Name, text: Bytes, file: Bytes, attach: bool)
    requires OwnInv(s)
    ensures OwnInv(SendStep(s, tid, sender, dest, text, file, attach))
  {
    SendKeepsQueues(s, tid, sender, dest, text, file, attach);
    SendKeepsLists(s, tid, sender, dest, text, file, attach);
    SendKeepsSends(s, tid, sender, dest, text, file, attach);
    SendKeepsOwners(s, tid, sender, dest, text, file, attach);
  }

  lemma SendKeepsOwners(s: State, tid: nat, sender: Name, dest: Name, text: Bytes, file: Bytes, attach: bool)
    requires |s.place| == |s.accepted| && OwnersHave(s)
    ensures OwnersHave(SendStep(s, tid, sender, dest, text, file, attach))
  {
    var s' := SendStep(s, tid, sender, dest, text, file, attach);
    if tid !in s.workers && sender in s.users && dest in s.users {
      var node := Node(|s.accepted|, Compose(NextId(s.users[sender].lastId), sender, text, file, attach));
      assert s'.users[dest].queue == s.users[dest].queue + [node] && s'.place == s.place + [InQueue(dest)];
      assert forall n | n in s.users && n != dest :: s'.users[n].queue == s.users[n].queue;
      QueueGrows(s.users[dest].queue, node);
      forall t | 0 <= t < |s'.place| ensures Backed(s', t) {
        if t < |s.place| {
          StaysBacked(s, s', t);
        }
      }
    }
  }

  /** A node whose owner has kept it is still backed. */
  lemma StaysBacked(s: State, s': State, t: nat)
    requires t < |s.place| && t < |s'.place| && s'.place[t] == s.place[t] && Backed(s, t)
    requires forall n | n in s.users && t in Tags(s.users[n].queue) :: n in s'.users && t in Tags(s'.users[n].queue)
    requires forall w | w in s.workers && !s.workers[w].IsSend() :: w in s'.workers && s'.workers[w] == s.workers[w]
    ensures Backed(s', t)
  {
  }

  lemma SendKeepsQueues(s: State, tid: nat, sender: Name, dest: Name, text: Bytes, file: Bytes, attach: bool)
    requires |s.place| == |s.accepted| && QueuesOwn(s)
    ensures |SendStep(s, tid, sender, dest, text, file, attach).place| ==
            |SendStep(s, tid, sender, dest, text, file, attach).accepted|
    ensures QueuesOwn(SendStep(s, tid, sender, dest, text, file, attach))
  {
    var s' := SendStep(s, tid, sender, dest, text, file, attach);
    if tid !in s.workers && sender in s.users && dest in s.users {
      var msg := Compose(NextId(s.users[sender].lastId), sender, text, file, attach);
      var e := Entry(dest, msg);
      forall m | m in s'.users ensures Holds(s'.accepted, s'.place, s'.users[m].queue, m, InQueue(m)) {
        if m == dest {
          HoldsOneMore(s.accepted, s.place, s.users[m].queue, msg, dest);
          assert s'.users[m].queue == s.users[m].queue + [Node(|s.accepted|, msg)];
        } else {
          HoldsGrown(s.accepted, s.place, s.users[m].queue, m, InQueue(m), e, InQueue(dest));
          assert s'.users[m].queue == s.users[m].queue;
        }
      }
    }
  }

  lemma HoldsOneMore(accepted: seq<Entry>, place: seq<Place>, q: seq<Node>, msg: Msg, dest: Name)
    requires |place| == |accepted| && Holds(accepted, place, q, dest, InQueue(dest))
    ensures Holds(accepted + [Entry(dest, msg)], place + [InQueue(dest)], q + [Node(|accepted|, msg)],
                  dest, InQueue(dest))
  {
    HoldsGrown(accepted, place, q, dest, InQueue(dest), Entry(dest, msg), InQueue(dest));
  }

  lemma SendKeepsLists(s: State, tid: nat, sender: Name, dest: Name, text: Bytes, file: Bytes, attach: bool)
    requires |s.place| == |s.accepted| && ListsOwn(s)
    ensures |SendStep(s, tid, sender, dest, text, file, attach).place| ==
            |SendStep(s, tid, sender, dest, text, file, attach).accepted|
    ensures ListsOwn(SendStep(s, tid, sender, dest, text, file, attach))
  {
    var s' := SendStep(s, tid, sender, dest, text, file, attach);
    if tid !in s.workers && sender in s.users && dest in s.users {
      var msg := Compose(NextId(s.users[sender].lastId), sender, text, file, attach);
      var e := Entry(dest, msg);
      assert s'.accepted == s.accepted + [e] && s'.place == s.place + [InQueue(dest)];
      forall w | w in s.workers && !s.workers[w].IsSend()
        ensures Holds(s'.accepted, s'.place, s.workers[w].pending, s.workers[w].dest, Detached(w))
      {
        HoldsGrown(s.accepted, s.place, s.workers[w].pending, s.workers[w].dest, Detached(w), e, InQueue(dest));
      }
      assert forall w | w in s'.workers && !s'.workers[w].IsSend() :: w in s.workers && s'.workers[w] == s.workers[w];
    }
  }

  lemma SendKeepsSends(s: State, tid: nat, sender: Name, dest: Name, text: Bytes, file: Bytes, attach: bool)
    requires SendsOwn(s)
    ensures SendsOwn(SendStep(s, tid, sender, dest, text, file, attach))
  {
  }

  lemma QueueGrows(q: seq<Node>, node: Node)
    ensures forall t: nat | t in Tags(q) :: t in Tags(q + [node])
    ensures node.tag in Tags(q + [node])
  {
    assert Tags(q + [node]) == Tags(q) + [node.tag];
  }

  lemma SendOutcomeKeeps(s: State, tid: nat, ok: bool, ackOk: bool)
    requires OwnInv(s)
    ensures OwnInv(SendOutcomeStep(s, tid, ok, ackOk))
  {
  }

  lemma SendEnds(s: State, tid: nat)
    requires OwnInv(s) && tid in s.workers && s.workers[tid].IsSend()
    ensures OwnInv(s.(workers := s.workers - {tid}))
  {
  }

  lemma SettleKeeps(s: State, tid: nat)
    requires OwnInv(s)
    ensures OwnInv(SettleStep(s, tid))
  {
    if tid in s.workers && s.workers[tid].Settling? {
      var w := s.workers[tid];
      var s1 := s.(workers := s.workers - {tid});
      SendEnds(s, tid);
      if !w.ok {
        DisconnectKeeps(s1, w.dest, []);
      } else if w.dest in s.users {
        var i := FirstMatch(s.users[w.dest].queue, w.node.msg);
        if i < |s.users[w.dest].queue| {
          RemovalKeeps(s1, w.dest, i, RemovedBy(w.node.tag));
        }
      }
    }
  }

  /** Unlinking one queued node and releasing it. */
  lemma RemovalKeeps(s: State, n: Name, i: nat, to: Place)
    requires OwnInv(s) && n in s.users && i < |s.users[n].queue| && Released(to)
    ensures
      var q := s.users[n].queue;
      OwnInv(s.(users := s.users[n := s.users[n].(queue := Without(q, i))],
                place := Moved(s.place, [q[i].tag], to), freed := s.freed + multiset{q[i].tag}))
  {
    var q := s.users[n].queue;
    var one := [q[i]];
    assert Tags(one) == [q[i].tag] && multiset(Tags(one)) == multiset{q[i].tag};
    assert Holds(s.accepted, s.place, one, n, InQueue(n));
    FreedMoved(s, one, n, InQueue(n), to);
    OthersKeep(s, one, n, InQueue(n), to);
    HoldsWithout(s.accepted, s.place, q, n, InQueue(n), i, to);
    RemovalKeepsOwners(s, n, i, to);
  }

  lemma HoldsWithout(accepted: seq<Entry>, place: seq<Place>, q: seq<Node>, dest: Name, at: Place, i: nat, to: Place)
    requires |place| == |accepted| && Holds(accepted, place, q, dest, at) && i < |q|
    ensures Holds(accepted, Moved(place, [q[i].tag], to), Without(q, i), dest, at)
  {
  }

  lemma RemovalKeepsOwners(s: State, n: Name, i: nat, to: Place)
    requires OwnersHave(s) && n in s.users && i < |s.users[n].queue| && Released(to)
    ensures var q := s.users[n].queue;
      OwnersHave(s.(users := s.users[n := s.users[n].(queue := Without(q, i))],
                    place := Moved(s.place, [q[i].tag], to), freed := s.freed + multiset{q[i].tag}))
  {
    var q := s.users[n].queue;
    var s' := s.(users := s.users[n := s.users[n].(queue := Without(q, i))],
                 place := Moved(s.place, [q[i].tag], to), freed := s.freed + multiset{q[i].tag});
    WithoutTags(q, i);
    forall t | 0 <= t < |s'.place| ensures Backed(s', t) {
      assert Backed(s, t);
    }
  }

  lemma WithoutTags(q: seq<Node>, i: nat)
    requires i < |q|
    ensures forall t: nat | t in Tags(q) && t != q[i].tag :: t in Tags(Without(q, i))
  {
    forall t: nat | t in Tags(q) && t != q[i].tag ensures t in Tags(Without(q, i)) {
      var j :| 0 <= j < |q| && Tags(q)[j] == t;
      assert Tags(Without(q, i))[if j < i then j else j - 1] == t;
    }
  }

  lemma FlushOutcomeKeeps(s: State, tid: nat, ok: bool)
    requires OwnInv(s)
    ensures OwnInv(FlushOutcomeStep(s, tid, ok))
  {
    if tid in s.workers && s.workers[tid].Flushing? && s.workers[tid].pending != [] {
      var w := s.workers[tid];
      OneMovesOn(s, FlushOutcomeStep(s, tid, ok), tid,
                 if ok then Acking(w.dest, w.pending) else GivingUp(w.dest, w.pending));
    }
  }

  /** A CONNECT that keeps its list keeps the nodes. */
  lemma OneMovesOn(s: State, s': State, tid: nat, w: Worker)
    requires OwnInv(s) && tid in s.workers && !s.workers[tid].IsSend() && !w.IsSend()
    requires w.dest == s.workers[tid].dest && w.pending == s.workers[tid].pending
    requires s'.users == s.users && s'.workers == s.workers[tid := w] && s'.accepted == s.accepted
    requires s'.place == s.place && s'.freed == s.freed
    ensures OwnInv(s')
  {
    forall t | 0 <= t < |s.place| ensures Backed(s', t) {
      assert Backed(s, t);
    }
  }

  lemma AckFlushedKeeps(s: State, tid: nat, ackOk: bool)
    requires OwnInv(s)
    ensures OwnInv(AckFlushedStep(s, tid, ackOk))
  {
    if tid in s.workers && s.workers[tid].Acking? {
      var w := s.workers[tid];
      var one := [w.pending[0]];
      assert Tags(one) == [w.pending[0].tag];
      FreedMoved(s, one, w.dest, Detached(tid), FlushedAway);
      assert multiset(Tags(one)) == multiset{w.pending[0].tag};
      AckFlushedKeepsHolds(s, tid, ackOk);
      AckFlushedKeepsOwners(s, tid, ackOk);
    }
  }

  lemma AckFlushedKeepsHolds(s: State, tid: nat, ackOk: bool)
    requires |s.place| == |s.accepted| && QueuesOwn(s) && ListsOwn(s)
    ensures |AckFlushedStep(s, tid, ackOk).place| == |s.accepted|
    ensures QueuesOwn(AckFlushedStep(s, tid, ackOk)) && ListsOwn(AckFlushedStep(s, tid, ackOk))
  {
    if tid in s.workers && s.workers[tid].Acking? {
      var w := s.workers[tid];
      var one := [w.pending[0]];
      assert Tags(one) == [w.pending[0].tag];
      OthersKeep(s, one, w.dest, Detached(tid), FlushedAway);
      assert Holds(s.accepted, Moved(s.place, Tags(one), FlushedAway), w.pending[1..], w.dest, Detached(tid));
    }
  }

  lemma AckFlushedKeepsOwners(s: State, tid: nat, ackOk: bool)
    requires OwnersHave(s)
    ensures OwnersHave(AckFlushedStep(s, tid, ackOk))
  {
    var s' := AckFlushedStep(s, tid, ackOk);
    if tid in s.workers && s.workers[tid].Acking? && s.workers[tid].pending != [] {
      var q := s.workers[tid].pending;
      WithoutTags(q, 0);
      assert Without(q, 0) == q[1..];
      forall t | 0 <= t < |s'.place| ensures Backed(s', t) {
        assert Backed(s, t);
      }
    }
  }

  lemma GiveBackKeeps(s: State, tid: nat)
    requires OwnInv(s)
    ensures OwnInv(GiveBackStep(s, tid))
  {
    if tid in s.workers && s.workers[tid].GivingUp? {
      var w := s.workers[tid];
      if w.dest in s.users {
        SpliceKeeps(s, tid);
        FreedStill(s, w.pending, w.dest, Detached(tid), InQueue(w.dest));
      } else {
        DiscardKeeps(s, tid);
      }
    }
  }

  lemma DiscardKeeps(s: State, tid: nat)
    requires OwnInv(s) && tid in s.workers && s.workers[tid].GivingUp? && s.workers[tid].dest !in s.users
    ensures OwnInv(GiveBackStep(s, tid))
  {
    var w := s.workers[tid];
    OthersKeep(s, w.pending, w.dest, Detached(tid), Discarded);
    FreedMoved(s, w.pending, w.dest, Detached(tid), Discarded);
  }

  lemma SpliceKeeps(s: State, tid: nat)
    requires OwnInv(s) && tid in s.workers && s.workers[tid].GivingUp? && s.workers[tid].dest in s.users
    ensures |GiveBackStep(s, tid).place| == |s.accepted|
    ensures QueuesOwn(GiveBackStep(s, tid)) && ListsOwn(GiveBackStep(s, tid)) && OwnersHave(GiveBackStep(s, tid))
  {
    var w := s.workers[tid];
    var q := s.users[w.dest].queue;
    var after := Moved(s.place, Tags(w.pending), InQueue(w.dest));
    OthersKeep(s, w.pending, w.dest, Detached(tid), InQueue(w.dest));
    HoldsMoved(s.accepted, s.place, w.pending, w.dest, Detached(tid), InQueue(w.dest));
    HoldsAppend(s.accepted, s.place, after, q, w.pending, w.dest, tid);
    SpliceKeepsOwners(s, tid);
  }

  lemma SpliceKeepsOwners(s: State, tid: nat)
    requires OwnersHave(s) && tid in s.workers && s.workers[tid].GivingUp? && s.workers[tid].dest in s.users
    ensures OwnersHave(GiveBackStep(s, tid))
  {
    var s' := GiveBackStep(s, tid);
    var w := s.workers[tid];
    TagsAppend(s.users[w.dest].queue, w.pending);
    forall t | 0 <= t < |s'.place| ensures Backed(s', t) {
      assert Backed(s, t);
    }
  }

  lemma TagsAppend(a: seq<Node>, b: seq<Node>)
    ensures Tags(a + b) == Tags(a) + Tags(b)
  {
  }

  lemma HoldsAppend(accepted: seq<Entry>, before: seq<Place>, after: seq<Place>,
                    a: seq<Node>, b: seq<Node>, n: Name, tid: nat)
    requires |before| == |after| == |accepted|
    requires Holds(accepted, before, a, n, InQueue(n)) && Holds(accepted, before, b, n, Detached(tid))
    requires Holds(accepted, after, a, n, InQueue(n)) && Holds(accepted, after, b, n, InQueue(n))
    ensures Holds(accepted, after, a + b, n, InQueue(n))
  {
    forall i, j | 0 <= i < |a| && 0 <= j < |b| ensures a[i].tag != b[j].tag {
      assert before[a[i].tag] != before[b[j].tag];
    }
  }

  lemma StepKeeps(s: State, a: Action)
    requires OwnInv(s)
    ensures OwnInv(Apply(s, a))
  {
    match a
    case DoRegister(n) => RegisterKeeps(s, n);
    case DoUnregister(n) => UnregisterKeeps(s, n);
    case DoConnect(tid, n, ip, port) => ConnectKeeps(s, tid, n, ip, port);
    case DoDisconnect(n, ip) => DisconnectKeeps(s, n, ip);
    case DoSend(tid, sender, dest, text, file, attach) => SendKeeps(s, tid, sender, dest, text, file, attach);
    case SendOutcome(tid, ok, ackOk) => SendOutcomeKeeps(s, tid, ok, ackOk);
    case Settle(tid) => SettleKeeps(s, tid);
    case FlushOutcome(tid, ok) => FlushOutcomeKeeps(s, tid, ok);
    case AckFlushed(tid, ackOk) => AckFlushedKeeps(s, tid, ackOk);
    case GiveBack(tid) => GiveBackKeeps(s, tid);
  }

  lemma {:induction false} AlwaysOwned(steps: seq<Action>)
    ensures OwnInv(Run(steps))
  {
    if steps != [] {
      AlwaysOwned(steps[..|steps| - 1]);
      StepKeeps(Run(steps[..|steps| - 1]), steps[|steps| - 1]);
    }
  }

  // ---- What the invariant says about the server's own lists.

  predicate QueuedAt(s: State, t: nat, n: Name, i: nat) {
    n in s.users && i < |s.users[n].queue| && s.users[n].queue[i].tag == t
  }

  predicate DetachedAt(s: State, t: nat, w: nat, i: nat) {
    w in s.workers && !s.workers[w].IsSend() && i < |s.workers[w].pending| && s.workers[w].pending[i].tag == t
  }

  /** Two occurrences of a node, in queues or detached lists, are the same occurrence. */
  lemma OneOwner(steps: seq<Action>, t: nat)
    ensures
      var s := Run(steps);
      && (forall m, i, n, j | QueuedAt(s, t, m, i) && QueuedAt(s, t, n, j) :: m == n && i == j)
      && (forall v, i, w, j | DetachedAt(s, t, v, i) && DetachedAt(s, t, w, j) :: v == w && i == j)
      && (forall n, i, w, j | QueuedAt(s, t, n, i) :: !DetachedAt(s, t, w, j))
  {
    AlwaysOwned(steps);
  }

  /** An accepted node is owned exactly until its one release; nothing else is ever released or owned. */
  lemma ReleasedOnceOrOwned(steps: seq<Action>, t: nat)
    ensures
      var s := Run(steps);
      var owned := (exists n, i :: QueuedAt(s, t, n, i)) || (exists w, i :: DetachedAt(s, t, w, i));
      && (t < |s.accepted| ==> s.freed[t] == if owned then 0 else 1)
      && (t >= |s.accepted| ==> s.freed[t] == 0 && !owned)
  {
    var s := Run(steps);
    AlwaysOwned(steps);
    if t < |s.accepted| {
      match s.place[t] {
        case InQueue(n) =>
          var i :| 0 <= i < |s.users[n].queue| && Tags(s.users[n].queue)[i] == t;
          assert QueuedAt(s, t, n, i);
        case Detached(w) =>
          var i :| 0 <= i < |s.workers[w].pending| && Tags(s.workers[w].pending)[i] == t;
          assert DetachedAt(s, t, w, i);
        case _ =>
      }
    }
  }
}
