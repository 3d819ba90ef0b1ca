/** When queues keep each sender's messages in the order they were accepted: exactly in the runs where
    every failed flush hangs its messages behind older ones of the same senders.
  */
module SenderOrder {
  import opened Basics
  import opened MessageIds
  import opened Registry
  import opened Protocol
  import opened Ownership
  import opened Loss

  /** Messages of one sender stand in the order of their acceptance. */
  predicate InOrder(q: seq<Node>) {
    forall i, j | 0 <= i < j < |q| && q[i].msg.sender == q[j].msg.sender :: q[i].tag < q[j].tag
  }

  /** What is queued is, sender by sender, older than what a failed flush brings back. */
  predicate Older(q: seq<Node>, rest: seq<Node>) {
    forall i, j | 0 <= i < |q| && 0 <= j < |rest| && q[i].msg.sender == rest[j].msg.sender :: q[i].tag < rest[j].tag
  }

  ghost predicate OrderInv(s: State) {
    && (forall n | n in s.users :: InOrder(s.users[n].queue))
    && (forall w | w in s.workers && !s.workers[w].IsSend() :: InOrder(s.workers[w].pending))
  }

  /** The step is not a failed flush giving back messages that are older than queued ones. */
  ghost predicate Orderly(s: State, a: Action) {
    a.GiveBack? && a.tid in s.workers && s.workers[a.tid].GivingUp? && s.workers[a.tid].dest in s.users
    ==> Older(s.users[s.workers[a.tid].dest].queue, s.workers[a.tid].pending)
  }

  ghost predicate OrderlyRun(steps: seq<Action>) {
    steps == [] || (OrderlyRun(steps[..|steps| - 1]) && Orderly(Run(steps[..|steps| - 1]), steps[|steps| - 1]))
  }

  /** Every state on the way, the last included, is in order. */
  ghost predicate InOrderThroughout(steps: seq<Action>) {
    OrderInv(Run(steps)) && (steps == [] || InOrderThroughout(steps[..|steps| - 1]))
  }

  /** Hanging a list behind a queue keeps the order exactly when the queue is older. */
  lemma SpliceOrder(q: seq<Node>, rest: seq<Node>)
    requires InOrder(q) && InOrder(rest)
    ensures InOrder(q + rest) <==> Older(q, rest)
  {
    if InOrder(q + rest) {
      forall i, j | 0 <= i < |q| && 0 <= j < |rest| && q[i].msg.sender == rest[j].msg.sender
        ensures q[i].tag < rest[j].tag
      {
        assert (q + rest)[i] == q[i] && (q + rest)[|q| + j] == rest[j];
      }
    }
  }

  lemma RemovalKeepsOrder(q: seq<Node>, i: nat)
    requires InOrder(q)
    ensures InOrder(Without(q, i)) && (q != [] ==> InOrder(q[1..]))
  {
  }

  lemma NewestKeepsOrder(q: seq<Node>, node: Node)
    requires InOrder(q) && forall i | 0 <= i < |q| :: q[i].tag < node.tag
    ensures InOrder(q + [node])
  {
  }

  lemma SendKeepsOrder(s: State, tid: nat, sender: Name, dest: Name, text: Bytes, file: Bytes, attach: bool)
    requires |s.place| == |s.accepted| && QueuesOwn(s) && OrderInv(s)
    ensures OrderInv(SendStep(s, tid, sender, dest, text, file, attach))
  {
    if tid !in s.workers && sender in s.users && dest in s.users {
      var s' := SendStep(s, tid, sender, dest, text, file, attach);
      var node := Node(|s.accepted|, Compose(NextId(s.users[sender].lastId), sender, text, file, attach));
      var q := s.users[dest].queue;
      assert Holds(s.accepted, s.place, q, dest, InQueue(dest));
      NewestKeepsOrder(q, node);
      assert s'.users[dest].queue == q + [node];
      forall n | n in s'.users ensures InOrder(s'.users[n].queue) {
        if n != dest {
          assert s'.users[n].queue == s.users[n].queue;
        }
      }
    }
  }

  lemma SettleKeepsOrder(s: State, tid: nat)
    requires OrderInv(s)
    ensures OrderInv(SettleStep(s, tid))
  {
    if tid in s.workers && s.workers[tid].Settling? && s.workers[tid].dest in s.users {
      var w := s.workers[tid];
      RemovalKeepsOrder(s.users[w.dest].queue, FirstMatch(s.users[w.dest].queue, w.node.msg));
    }
  }

  lemma GiveBackOrder(s: State, tid: nat)
    requires OrderInv(s)
    ensures OrderInv(GiveBackStep(s, tid)) <==> Orderly(s, GiveBack(tid))
  {
    var s' := GiveBackStep(s, tid);
    if tid in s.workers && s.workers[tid].GivingUp? {
      var w := s.workers[tid];
      if w.dest in s.users {
        SpliceOrder(s.users[w.dest].queue, w.pending);
        assert s'.users[w.dest].queue == s.users[w.dest].queue + w.pending;
        assert forall n | n in s.users && n != w.dest :: s'.users[n].queue == s.users[n].queue;
      }
    }
  }

  lemma OthersKeepOrder(s: State, a: Action)
    requires OrderInv(s) && !a.DoSend? && !a.Settle? && !a.GiveBack?
    ensures OrderInv(Apply(s, a))
  {
  }

  lemma StepOrder(s: State, a: Action)
    requires OwnInv(s) && OrderInv(s)
    ensures OrderInv(Apply(s, a)) <==> Orderly(s, a)
  {
    match a
    case DoSend(tid, sender, dest, text, file, attach) => SendKeepsOrder(s, tid, sender, dest, text, file, attach);
    case Settle(tid) => SettleKeepsOrder(s, tid);
    case GiveBack(tid) => GiveBackOrder(s, tid);
    case _ => OthersKeepOrder(s, a);
  }

  /** Every state of a run is in order exactly when the run is orderly. */
  lemma {:induction false} InOrderIffOrderly(steps: seq<Action>)
    ensures InOrderThroughout(steps) <==> OrderlyRun(steps)
  {
    if steps != [] {
      var shorter, a := steps[..|steps| - 1], steps[|steps| - 1];
      InOrderIffOrderly(shorter);
      AlwaysOwned(shorter);
      if InOrderThroughout(shorter) {
        StepOrder(Run(shorter), a);
      }
    }
  }

  /** A clean sender's counter is at least every id it was given. */
  lemma {:induction false} CounterCoversIds(steps: seq<Action>, t: nat)
    requires t < |Run(steps).accepted| && CleanSender(Run(steps), Run(steps).accepted[t].msg.sender)
    ensures var s := Run(steps); var n := s.accepted[t].msg.sender;
            n in s.users && s.accepted[t].msg.id <= s.users[n].lastId
  {
    var s := Run(steps);
    var n := s.accepted[t].msg.sender;
    IdsFollowPositions(steps);
    AssignedGrows(s.accepted, t, n);
    IdIsPosition(Assigned(s.accepted[..t], n) + 1);
    IdIsPosition(Assigned(s.accepted, n));
  }

  /** Ids of sender `n` strictly increase along the list. */
  predicate IdsIncrease(q: seq<Node>, n: Name) {
    forall i, j | 0 <= i < j < |q| && q[i].msg.sender == n && q[j].msg.sender == n :: q[i].msg.id < q[j].msg.id
  }

  lemma OrderedIdsIncrease(steps: seq<Action>, q: seq<Node>, dest: Name, at: Place, n: Name)
    requires |Run(steps).place| == |Run(steps).accepted|
    requires Holds(Run(steps).accepted, Run(steps).place, q, dest, at) && InOrder(q) && CleanSender(Run(steps), n)
    ensures IdsIncrease(q, n)
  {
    forall i, j | 0 <= i < j < |q| && q[i].msg.sender == n && q[j].msg.sender == n
      ensures q[i].msg.id < q[j].msg.id
    {
      CleanIdsGrow(steps, q[i].tag, q[j].tag);
    }
  }

  /** In an orderly run every queue and every detached list holds a clean sender's ids in increasing order. */
  lemma {:induction false} SenderIdsIncrease(steps: seq<Action>, n: Name)
    requires OrderlyRun(steps) && CleanSender(Run(steps), n)
    ensures
      var s := Run(steps);
      && (forall r | r in s.users :: IdsIncrease(s.users[r].queue, n))
      && (forall w | w in s.workers && !s.workers[w].IsSend() :: IdsIncrease(s.workers[w].pending, n))
  {
    var s := Run(steps);
    InOrderIffOrderly(steps);
    AlwaysOwned(steps);
    forall r | r in s.users ensures IdsIncrease(s.users[r].queue, n) {
      OrderedIdsIncrease(steps, s.users[r].queue, r, InQueue(r), n);
    }
    forall w | w in s.workers && !s.workers[w].IsSend() ensures IdsIncrease(s.workers[w].pending, n) {
      OrderedIdsIncrease(steps, s.workers[w].pending, s.workers[w].dest, Detached(w), n);
    }
  }
}
