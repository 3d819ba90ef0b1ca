/** How often a message can be reported delivered and acknowledged, in every interleaving. */
module Delivery {
  import opened Basics
  import opened MessageIds
  import opened Registry
  import opened Protocol
  import opened Ownership

  /** No delivery is reported twice by the same worker kind, and acknowledgements never outrun reports. */
  ghost predicate Once(s: State) {
    && (forall r: Report :: multiset(s.reports)[r] <= 1)
    && (forall r: Report :: multiset(s.acks)[r] <= multiset(s.reports)[r])
    && (forall r | r in s.reports :: r.tag < |s.accepted|)
  }

  /** A send in flight has reported its message exactly if it is past a successful outcome. */
  ghost predicate SendsReport(s: State) {
    forall w | w in s.workers && s.workers[w].IsSend() ::
      Report(s.workers[w].node.tag, false) in s.reports <==> s.workers[w].Settling? && s.workers[w].ok
  }

  /** Of a detached list only a head about to be acknowledged has been reported. */
  ghost predicate FlushesReport(s: State) {
    forall w | w in s.workers && !s.workers[w].IsSend() :: FlushReports(s.workers[w], s.reports, s.acks)
  }

  predicate FlushReports(w: Worker, reports: seq<Report>, acks: seq<Report>)
    requires !w.IsSend()
  {
    && (forall i | 0 <= i < |w.pending| ::
          Report(w.pending[i].tag, true) in reports <==> w.Acking? && i == 0)
    && (w.Acking? && w.pending != [] ==> Report(w.pending[0].tag, true) !in acks)
  }

  ghost predicate QueuesUnreported(s: State) {
    forall n | n in s.users :: Unreported(s.users[n].queue, s.reports)
  }

  predicate Unreported(q: seq<Node>, reports: seq<Report>) {
    forall i | 0 <= i < |q| :: Report(q[i].tag, true) !in reports
  }

  ghost predicate FlushedReported(s: State) {
    forall t | 0 <= t < |s.place| && s.place[t].FlushedAway? :: Report(t, true) in s.reports
  }

  ghost predicate DeliveryInv(s: State) {
    Once(s) && SendsReport(s) && FlushesReport(s) && QueuesUnreported(s) && FlushedReported(s)
  }

  // ---- Each kind of step keeps the invariant.

  lemma UserStepsKeep(s: State, n: Name, ip: Bytes)
    requires DeliveryInv(s)
    ensures DeliveryInv(RegisterStep(s, n))
    ensures DeliveryInv(s.(users := Disconnect(s.users, n, ip).users))
  {
  }

  lemma UnregisterKeeps(s: State, n: Name)
    requires DeliveryInv(s)
    ensures DeliveryInv(UnregisterStep(s, n))
  {
  }

  lemma ConnectKeeps(s: State, tid: nat, n: Name, ip: Bytes, port: Bytes)
    requires DeliveryInv(s)
    ensures DeliveryInv(ConnectStep(s, tid, n, ip, port))
  {
    var s' := ConnectStep(s, tid, n, ip, port);
    if s' != s {
      var q := s.users[n].queue;
      assert Unreported(q, s.reports);
      if q != [] {
        NewListReports(s.workers, s'.workers, tid, Flushing(n, q), s.reports, s.acks);
      }
      assert forall t | 0 <= t < |s.place| && s'.place[t].FlushedAway? :: s.place[t].FlushedAway?;
    }
  }

  lemma NewListReports(ws: map<nat, Worker>, ws': map<nat, Worker>, tid: nat, w: Worker,
                       reports: seq<Report>, acks: seq<Report>)
    requires tid !in ws && w.Flushing? && Unreported(w.pending, reports) && ws' == ws[tid := w]
    requires forall v | v in ws && !ws[v].IsSend() :: FlushReports(ws[v], reports, acks)
    ensures forall v | v in ws' && !ws'[v].IsSend() :: FlushReports(ws'[v], reports, acks)
  {
  }

  lemma SendKeeps(s: State, tid: nat, sender: Name, dest: Name, text: Bytes, file: Bytes, attach: bool)
    requires |s.place| == |s.accepted| && DeliveryInv(s)
    ensures DeliveryInv(SendStep(s, tid, sender, dest, text, file, attach))
  {
    if tid !in s.workers && sender in s.users && dest in s.users {
      var s' := SendStep(s, tid, sender, dest, text, file, attach);
      var node := Node(|s.accepted|, Compose(NextId(s.users[sender].lastId), sender, text, file, attach));
      assert s'.users[dest].queue == s.users[dest].queue + [node];
      SendKeepsQueues(s.users, s'.users, s.reports, dest, node);
      SendKeepsWorkers(s, s', tid, node);
      assert forall t | 0 <= t < |s'.place| && s'.place[t].FlushedAway? :: t < |s.place| && s.place[t] == s'.place[t];
    }
  }

  lemma SendKeepsWorkers(s: State, s': State, tid: nat, node: Node)
    requires SendsReport(s) && FlushesReport(s) && Once(s) && tid !in s.workers
    requires s'.reports == s.reports && s'.acks == s.acks && node.tag == |s.accepted|
    requires s'.workers == s.workers || (exists dest, ack :: s'.workers == s.workers[tid := Sending(dest, node, ack)])
    ensures SendsReport(s') && FlushesReport(s')
  {
    assert Report(node.tag, false) !in s.reports;
  }

  lemma SendKeepsQueues(us: Users, us': Users, reports: seq<Report>, dest: Name, node: Node)
    requires forall n | n in us :: Unreported(us[n].queue, reports)
    requires us'.Keys == us.Keys && dest in us && us'[dest].queue == us[dest].queue + [node]
    requires forall n | n in us && n != dest :: us'[n].queue == us[n].queue
    requires Report(node.tag, true) !in reports
    ensures forall n | n in us' :: Unreported(us'[n].queue, reports)
  {
    forall n | n in us' ensures Unreported(us'[n].queue, reports) {
      assert Unreported(us[n].queue, reports);
    }
  }

  lemma SendOutcomeKeeps(s: State, tid: nat, ok: bool, ackOk: bool)
    requires SendsOwn(s) && DeliveryInv(s)
    ensures DeliveryInv(SendOutcomeStep(s, tid, ok, ackOk))
  {
    if tid in s.workers && s.workers[tid].Sending? {
      var s' := SendOutcomeStep(s, tid, ok, ackOk);
      var r := Report(s.workers[tid].node.tag, false);
      assert r !in s.reports && multiset(s.acks)[r] == 0;
      forall v | v in s'.workers && !s'.workers[v].IsSend() ensures FlushReports(s'.workers[v], s'.reports, s'.acks) {
        assert FlushReports(s.workers[v], s.reports, s.acks);
      }
      forall n | n in s'.users ensures Unreported(s'.users[n].queue, s'.reports) {
        assert Unreported(s.users[n].queue, s.reports);
      }
    }
  }

  /** What settling a send leaves alone. */
  ghost predicate OnlySettled(s: State, s': State, tid: nat) {
    && s'.workers == s.workers - {tid} && s'.reports == s.reports && s'.acks == s.acks && s'.accepted == s.accepted
    && |s'.place| == |s.place|
    && (forall t | 0 <= t < |s.place| && s'.place[t].FlushedAway? :: s.place[t] == s'.place[t])
  }

  lemma SettleKeeps(s: State, tid: nat)
    requires DeliveryInv(s)
    ensures DeliveryInv(SettleStep(s, tid))
  {
    if tid in s.workers && s.workers[tid].Settling? {
      var s' := SettleStep(s, tid);
      var w := s.workers[tid];
      assert OnlySettled(s, s', tid);
      if w.ok {
        RemoveKeepsQueues(s.users, s.reports, w.dest, w.node.msg);
      } else {
        assert forall n | n in s'.users :: s'.users[n].queue == s.users[n].queue;
      }
      SettledKeeps(s, s', tid);
    }
  }

  lemma SettledKeeps(s: State, s': State, tid: nat)
    requires DeliveryInv(s) && OnlySettled(s, s', tid)
    ensures Once(s') && SendsReport(s') && FlushesReport(s') && FlushedReported(s')
  {
  }

  lemma RemoveKeepsQueues(us: Users, reports: seq<Report>, dest: Name, m: Msg)
    requires forall n | n in us :: Unreported(us[n].queue, reports)
    ensures forall n | n in Remove(us, dest, m) :: Unreported(Remove(us, dest, m)[n].queue, reports)
  {
  }

  lemma FlushOutcomeKeeps(s: State, tid: nat, ok: bool)
    requires |s.place| == |s.accepted| && QueuesOwn(s) && ListsOwn(s) && DeliveryInv(s)
    ensures DeliveryInv(FlushOutcomeStep(s, tid, ok))
  {
    if tid in s.workers && s.workers[tid].Flushing? {
      var w := s.workers[tid];
      assert FlushReports(w, s.reports, s.acks);
      if ok {
        var r := Report(w.pending[0].tag, true);
        assert multiset(s.acks)[r] == 0;
        assert Holds(s.accepted, s.place, w.pending, w.dest, Detached(tid));
        FlushReported(s, FlushOutcomeStep(s, tid, true), tid);
      }
    }
  }

  /** Reporting the head of one detached list says nothing of any other list or queue. */
  lemma FlushReported(s: State, s': State, tid: nat)
    requires |s.place| == |s.accepted| && QueuesOwn(s) && ListsOwn(s) && FlushesReport(s) && QueuesUnreported(s)
    requires tid in s.workers && s.workers[tid].Flushing?
    requires var w := s.workers[tid];
      && s'.workers == s.workers[tid := Acking(w.dest, w.pending)] && s'.users == s.users && s'.acks == s.acks
      && s'.reports == s.reports + [Report(w.pending[0].tag, true)]
      && multiset(s.acks)[Report(w.pending[0].tag, true)] == 0
    ensures FlushesReport(s') && QueuesUnreported(s')
  {
    assert Holds(s.accepted, s.place, s.workers[tid].pending, s.workers[tid].dest, Detached(tid));
    forall v | v in s'.workers && !s'.workers[v].IsSend() ensures FlushReports(s'.workers[v], s'.reports, s'.acks) {
      assert FlushReports(s.workers[v], s.reports, s.acks);
      if v != tid {
        assert Holds(s.accepted, s.place, s.workers[v].pending, s.workers[v].dest, Detached(v));
      }
    }
    forall n | n in s'.users ensures Unreported(s'.users[n].queue, s'.reports) {
      assert Unreported(s.users[n].queue, s.reports);
      assert Holds(s.accepted, s.place, s.users[n].queue, n, InQueue(n));
    }
  }

  lemma AckFlushedKeeps(s: State, tid: nat, ackOk: bool)
    requires |s.place| == |s.accepted| && ListsOwn(s) && DeliveryInv(s)
    ensures DeliveryInv(AckFlushedStep(s, tid, ackOk))
  {
    if tid in s.workers && s.workers[tid].Acking? {
      var s' := AckFlushedStep(s, tid, ackOk);
      var w := s.workers[tid];
      assert FlushReports(w, s.reports, s.acks);
      assert Holds(s.accepted, s.place, w.pending, w.dest, Detached(tid));
      forall v | v in s'.workers && !s'.workers[v].IsSend() ensures FlushReports(s'.workers[v], s'.reports, s'.acks) {
        assert FlushReports(s.workers[v], s.reports, s.acks);
        if v != tid {
          assert Holds(s.accepted, s.place, s.workers[v].pending, s.workers[v].dest, Detached(v));
        }
      }
    }
  }

  lemma GiveBackKeeps(s: State, tid: nat)
    requires DeliveryInv(s)
    ensures DeliveryInv(GiveBackStep(s, tid))
  {
    if tid in s.workers && s.workers[tid].GivingUp? {
      var s' := GiveBackStep(s, tid);
      assert FlushReports(s.workers[tid], s.reports, s.acks);
      forall n | n in s'.users ensures Unreported(s'.users[n].queue, s'.reports) {
        assert Unreported(s.users[n].queue, s.reports);
      }
    }
  }

  lemma StepKeeps(s: State, a: Action)
    requires OwnInv(s) && DeliveryInv(s)
    ensures DeliveryInv(Apply(s, a))
  {
    match a
    case DoRegister(n) => UserStepsKeep(s, n, []);
    case DoUnregister(n) => UnregisterKeeps(s, n);
    case DoDisconnect(n, ip) => UserStepsKeep(s, n, ip);
    case _ => WorkerStepsKeep(s, a);
  }

  lemma WorkerStepsKeep(s: State, a: Action)
    requires OwnInv(s) && DeliveryInv(s) && !a.DoRegister? && !a.DoUnregister? && !a.DoDisconnect?
    ensures DeliveryInv(Apply(s, a))
  {
    match a
    case DoConnect(tid, n, ip, port) =>
      assert Apply(s, a) == ConnectStep(s, tid, n, ip, port);
      ConnectKeeps(s, tid, n, ip, port);
    case DoSend(tid, sender, dest, text, file, attach) =>
      assert Apply(s, a) == SendStep(s, tid, sender, dest, text, file, attach);
      SendKeeps(s, tid, sender, dest, text, file, attach);
    case SendOutcome(tid, ok, ackOk) =>
      assert Apply(s, a) == SendOutcomeStep(s, tid, ok, ackOk);
      SendOutcomeKeeps(s, tid, ok, ackOk);
    case Settle(tid) =>
      assert Apply(s, a) == SettleStep(s, tid);
      SettleKeeps(s, tid);
    case FlushOutcome(tid, ok) =>
      assert Apply(s, a) == FlushOutcomeStep(s, tid, ok);
      FlushOutcomeKeeps(s, tid, ok);
    case AckFlushed(tid, ackOk) =>
      assert Apply(s, a) == AckFlushedStep(s, tid, ackOk);
      AckFlushedKeeps(s, tid, ackOk);
    case GiveBack(tid) =>
      assert Apply(s, a) == GiveBackStep(s, tid);
      GiveBackKeeps(s, tid);
  }

  lemma {:induction false} ReportsStaySound(steps: seq<Action>)
    ensures DeliveryInv(Run(steps))
  {
    if steps != [] {
      ReportsStaySound(steps[..|steps| - 1]);
      AlwaysOwned(steps[..|steps| - 1]);
      StepKeeps(Run(steps[..|steps| - 1]), steps[|steps| - 1]);
    }
  }

  /** How many entries of a log speak of a message. */
  function Mentions(log: seq<Report>, t: nat): nat {
    multiset(log)[Report(t, false)] + multiset(log)[Report(t, true)]
  }

  /** Every message is reported at most twice, at most once by its own send and at most once by a
      flush, and is acknowledged at most as often as each of them reported it. */
  lemma {:induction false} AtMostTwoReports(steps: seq<Action>, t: nat)
    ensures
      var s := Run(steps);
      && multiset(s.reports)[Report(t, false)] <= 1
      && multiset(s.reports)[Report(t, true)] <= 1
      && Mentions(s.reports, t) <= 2
      && (forall byFlush :: multiset(s.acks)[Report(t, byFlush)] <= multiset(s.reports)[Report(t, byFlush)])
  {
    ReportsStaySound(steps);
  }

  /** Over a whole run acknowledgements never outnumber reported deliveries. */
  lemma AcksNeverOutnumber(steps: seq<Action>)
    ensures |Run(steps).acks| <= |Run(steps).reports|
  {
    ReportsStaySound(steps);
    SubmultisetCard(multiset(Run(steps).acks), multiset(Run(steps).reports));
  }

  lemma SubmultisetCard(a: multiset<Report>, b: multiset<Report>)
    requires forall r :: a[r] <= b[r]
    ensures |a| <= |b|
  {
    assert b == a + (b - a);
  }
}
