/** No stranded message: a connected user's queue never holds more nodes of a key than there are
    sends of that key still in flight towards the user, in every interleaving.
  */
module Stranded {
  import opened Basics
  import opened MessageIds
  import opened Registry
  import opened Protocol

  function Count(q: seq<Node>, k: Key): nat {
    if q == [] then 0 else (if KeyOf(q[0].msg) == k then 1 else 0) + Count(q[1..], k)
  }

  lemma {:induction false} CountAppend(a: seq<Node>, b: seq<Node>, k: Key)
    ensures Count(a + b, k) == Count(a, k) + Count(b, k)
  {
    if a == [] {
      assert a + b == b;
    } else {
      CountAppend(a[1..], b, k);
      assert (a + b)[1..] == a[1..] + b;
    }
  }

  /** The removal loop takes away one node of the message's key when there is one, and no node of any other key. */
  lemma {:induction false} RemovalCount(q: seq<Node>, m: Msg, k: Key)
    requires PlainHaveNoFile(q) && (!m.attach ==> m.file == [])
    ensures Count(Without(q, FirstMatch(q, m)), k) ==
            if k == KeyOf(m) && Count(q, k) > 0 then Count(q, k) - 1 else Count(q, k)
    ensures FirstMatch(q, m) == |q| <==> Count(q, KeyOf(m)) == 0
  {
    if q != [] {
      TakesIsKeyEquality(q[0], m);
      var i := FirstMatch(q, m);
      if i == 0 {
        assert Without(q, 0) == q[1..];
      } else {
        assert PlainHaveNoFile(q[1..]) by {
          assert forall j | 0 <= j < |q[1..]| :: q[1..][j] == q[j + 1];
        }
        RemovalCount(q[1..], m, k);
        if i < |q| {
          WithoutTail(q, i);
        }
      }
    }
  }

  /** The sends still in flight towards `dest` with key `k`. */
  function Flights(ws: map<nat, Worker>, dest: Name, k: Key): set<nat> {
    set w | w in ws && ws[w].IsSend() && ws[w].dest == dest && KeyOf(ws[w].node.msg) == k
  }

  ghost predicate NotStranded(us: Users, ws: map<nat, Worker>) {
    forall n, k | n in us && us[n].connected :: Count(us[n].queue, k) <= |Flights(ws, n, k)|
  }

  predicate WorkerTidy(w: Worker) {
    match w
    case Sending(_, node, _) => !node.msg.attach ==> node.msg.file == []
    case Settling(_, node, _) => !node.msg.attach ==> node.msg.file == []
    case Flushing(_, q) => PlainHaveNoFile(q)
    case Acking(_, q) => PlainHaveNoFile(q)
    case GivingUp(_, q) => PlainHaveNoFile(q)
  }

  predicate WorkersTidy(ws: map<nat, Worker>) {
    forall w | w in ws :: WorkerTidy(ws[w])
  }

  ghost predicate StrandInv(s: State) {
    WellKept(s.users) && WorkersTidy(s.workers) && NotStranded(s.users, s.workers)
  }

  // ---- What the steps do to the set of flights.

  lemma FlightsOfNonSend(ws: map<nat, Worker>, tid: nat, w: Worker, n: Name, k: Key)
    requires !w.IsSend() && (tid in ws ==> !ws[tid].IsSend())
    ensures Flights(ws[tid := w], n, k) == Flights(ws, n, k)
    ensures Flights(ws - {tid}, n, k) == Flights(ws, n, k)
  {
  }

  lemma FlightsOfNewSend(ws: map<nat, Worker>, tid: nat, w: Worker, n: Name, k: Key)
    requires tid !in ws && w.IsSend()
    ensures |Flights(ws[tid := w], n, k)|
         == |Flights(ws, n, k)| + if w.dest == n && KeyOf(w.node.msg) == k then 1 else 0
  {
    var f, f' := Flights(ws, n, k), Flights(ws[tid := w], n, k);
    if w.dest == n && KeyOf(w.node.msg) == k {
      assert f' == f + {tid};
    } else {
      assert f' == f;
    }
  }

  lemma FlightsOfSettled(ws: map<nat, Worker>, tid: nat, n: Name, k: Key)
    requires tid in ws && ws[tid].IsSend()
    ensures |Flights(ws - {tid}, n, k)|
         == |Flights(ws, n, k)| - if ws[tid].dest == n && KeyOf(ws[tid].node.msg) == k then 1 else 0
  {
    var f, f' := Flights(ws, n, k), Flights(ws - {tid}, n, k);
    if ws[tid].dest == n && KeyOf(ws[tid].node.msg) == k {
      assert f' == f - {tid};
    } else {
      assert f' == f;
    }
  }

  lemma FlightsOfOutcome(ws: map<nat, Worker>, tid: nat, ok: bool, n: Name, k: Key)
    requires tid in ws && ws[tid].Sending?
    ensures Flights(ws[tid := Settling(ws[tid].dest, ws[tid].node, ok)], n, k) == Flights(ws, n, k)
  {
  }

  // ---- Each kind of step keeps the invariant.

  lemma SendKeeps(s: State, tid: nat, sender: Name, dest: Name, text: Bytes, file: Bytes, attach: bool)
    requires StrandInv(s)
    ensures StrandInv(SendStep(s, tid, sender, dest, text, file, attach))
  {
    var s' := SendStep(s, tid, sender, dest, text, file, attach);
    if s' != s {
      EnqueueStaysWellKept(s.users, sender, dest, |s.accepted|, text, file, attach);
      var msg := Compose(NextId(s.users[sender].lastId), sender, text, file, attach);
      var node := Node(|s.accepted|, msg);
      forall n, k | n in s'.users && s'.users[n].connected
        ensures Count(s'.users[n].queue, k) <= |Flights(s'.workers, n, k)|
      {
        assert s.users[n].connected;
        assert Count(s.users[n].queue, k) <= |Flights(s.workers, n, k)|;
        if s.users[dest].connected {
          FlightsOfNewSend(s.workers, tid, s'.workers[tid], n, k);
        }
        if n == dest {
          assert s'.users[n].queue == s.users[n].queue + [node];
          CountAppend(s.users[n].queue, [node], k);
        } else {
          assert s'.users[n].queue == s.users[n].queue;
        }
      }
    }
  }

  lemma SettleKeeps(s: State, tid: nat)
    requires StrandInv(s)
    ensures StrandInv(SettleStep(s, tid))
  {
    var s' := SettleStep(s, tid);
    if tid in s.workers && s.workers[tid].Settling? {
      var w := s.workers[tid];
      assert WorkerTidy(w);
      ListSectionsStayWellKept(s.users, w.dest, [], []);
      QueueSectionsStayWellKept(s.users, w.dest, w.node.msg, []);
      assert s'.users == if w.ok then Remove(s.users, w.dest, w.node.msg) else MarkDown(s.users, w.dest);
      forall n, k | n in s'.users && s'.users[n].connected
        ensures Count(s'.users[n].queue, k) <= |Flights(s'.workers, n, k)|
      {
        SettledCount(s, tid, n, k);
      }
    }
  }

  /** A settled send leaves no more of a key queued for a connected user than it takes flights. */
  lemma SettledCount(s: State, tid: nat, n: Name, k: Key)
    requires StrandInv(s) && tid in s.workers && s.workers[tid].Settling? && n in s.users
    ensures var w := s.workers[tid];
            var us := if w.ok then Remove(s.users, w.dest, w.node.msg) else MarkDown(s.users, w.dest);
            n in us && (us[n].connected ==> Count(us[n].queue, k) <= |Flights(s.workers - {tid}, n, k)|)
  {
    var w := s.workers[tid];
    FlightsOfSettled(s.workers, tid, n, k);
    if s.users[n].connected {
      assert Count(s.users[n].queue, k) <= |Flights(s.workers, n, k)|;
      if n == w.dest {
        assert TidyRecord(s.users[n]) && WorkerTidy(w);
        RemovalCount(s.users[n].queue, w.node.msg, k);
      }
    }
  }

  lemma ConnectKeeps(s: State, tid: nat, name: Name, ip: Bytes, port: Bytes)
    requires StrandInv(s)
    ensures StrandInv(ConnectStep(s, tid, name, ip, port))
  {
    var s' := ConnectStep(s, tid, name, ip, port);
    if s' != s {
      ListSectionsStayWellKept(s.users, name, ip, port);
      assert TidyRecord(s.users[name]);
      forall n, k | n in s'.users && s'.users[n].connected
        ensures Count(s'.users[n].queue, k) <= |Flights(s'.workers, n, k)|
      {
        FlightsOfNonSend(s.workers, tid, Flushing(name, s.users[name].queue), n, k);
        if n != name {
          assert Count(s.users[n].queue, k) <= |Flights(s.workers, n, k)|;
        }
      }
    }
  }

  /** Steps that only move workers on, or only connect, disconnect, register and unregister. */
  lemma UserStepsKeep(s: State, n: Name, ip: Bytes)
    requires StrandInv(s)
    ensures StrandInv(RegisterStep(s, n))
    ensures StrandInv(UnregisterStep(s, n))
    ensures StrandInv(s.(users := Disconnect(s.users, n, ip).users))
  {
    ListSectionsStayWellKept(s.users, n, ip, []);
  }

  lemma SendOutcomeKeeps(s: State, tid: nat, ok: bool, ackOk: bool)
    requires StrandInv(s)
    ensures StrandInv(SendOutcomeStep(s, tid, ok, ackOk))
  {
    if tid in s.workers && s.workers[tid].Sending? {
      assert WorkerTidy(s.workers[tid]);
      var s' := SendOutcomeStep(s, tid, ok, ackOk);
      forall n, k | n in s'.users && s'.users[n].connected
        ensures Count(s'.users[n].queue, k) <= |Flights(s'.workers, n, k)|
      {
        FlightsOfOutcome(s.workers, tid, ok, n, k);
      }
    }
  }

  lemma FlushStepsKeep(s: State, tid: nat, ok: bool)
    requires StrandInv(s)
    ensures StrandInv(FlushOutcomeStep(s, tid, ok))
    ensures StrandInv(AckFlushedStep(s, tid, ok))
  {
    if tid in s.workers && !s.workers[tid].IsSend() {
      var q := s.workers[tid].pending;
      assert WorkerTidy(s.workers[tid]);
      assert q != [] ==> PlainHaveNoFile(q[1..]);
      OtherWorkersKeep(s, FlushOutcomeStep(s, tid, ok), tid);
      OtherWorkersKeep(s, AckFlushedStep(s, tid, ok), tid);
    }
  }

  lemma OtherWorkersKeep(s: State, s': State, tid: nat)
    requires NotStranded(s.users, s.workers) && s'.users == s.users
    requires tid in s.workers && !s.workers[tid].IsSend() && (tid in s'.workers ==> !s'.workers[tid].IsSend())
    requires s'.workers - {tid} == s.workers - {tid}
    ensures NotStranded(s'.users, s'.workers)
  {
    forall n, k | n in s'.users && s'.users[n].connected
      ensures Count(s'.users[n].queue, k) <= |Flights(s'.workers, n, k)|
    {
      assert Flights(s'.workers, n, k) == Flights(s.workers, n, k) by {
        forall w ensures w in Flights(s'.workers, n, k) <==> w in Flights(s.workers, n, k) {
          assert w in s'.workers - {tid} <==> w in s.workers - {tid};
        }
      }
    }
  }

  lemma GiveBackKeeps(s: State, tid: nat)
    requires StrandInv(s)
    ensures StrandInv(GiveBackStep(s, tid))
  {
    var s' := GiveBackStep(s, tid);
    if tid in s.workers && s.workers[tid].GivingUp? {
      var w := s.workers[tid];
      assert WorkerTidy(w);
      QueueSectionsStayWellKept(s.users, w.dest, Msg(0, [], [], [], false), w.pending);
      forall n, k | n in s'.users && s'.users[n].connected
        ensures Count(s'.users[n].queue, k) <= |Flights(s'.workers, n, k)|
      {
        assert n != w.dest;
        FlightsOfNonSend(s.workers, tid, w, n, k);
      }
    }
  }

  lemma StepKeeps(s: State, a: Action)
    requires StrandInv(s)
    ensures StrandInv(Apply(s, a))
  {
    match a
    case DoRegister(n) => UserStepsKeep(s, n, []);
    case DoUnregister(n) => UserStepsKeep(s, n, []);
    case DoConnect(tid, n, ip, port) => ConnectKeeps(s, tid, n, ip, port);
    case DoDisconnect(n, ip) => UserStepsKeep(s, n, ip);
    case DoSend(tid, sender, dest, text, file, attach) => SendKeeps(s, tid, sender, dest, text, file, attach);
    case SendOutcome(tid, ok, ackOk) => SendOutcomeKeeps(s, tid, ok, ackOk);
    case Settle(tid) => SettleKeeps(s, tid);
    case FlushOutcome(tid, ok) => FlushStepsKeep(s, tid, ok);
    case AckFlushed(tid, ackOk) => FlushStepsKeep(s, tid, ackOk);
    case GiveBack(tid) => GiveBackKeeps(s, tid);
  }

  /** In every reachable state of every interleaving. */
  lemma {:induction false} NeverStranded(steps: seq<Action>)
    ensures StrandInv(Run(steps))
  {
    if steps != [] {
      NeverStranded(steps[..|steps| - 1]);
      StepKeeps(Run(steps[..|steps| - 1]), steps[|steps| - 1]);
    }
  }

  /** With no send in flight towards a connected user, the user's queue is empty. */
  lemma QuietQueueIsEmpty(steps: seq<Action>, n: Name)
    requires n in Run(steps).users && Run(steps).users[n].connected
    requires forall w | w in Run(steps).workers :: Run(steps).workers[w].IsSend() ==> Run(steps).workers[w].dest != n
    ensures Run(steps).users[n].queue == []
  {
    var s := Run(steps);
    var q := s.users[n].queue;
    NeverStranded(steps);
    assert q != [] ==> Count(q, KeyOf(q[0].msg)) > 0;
    forall k ensures Count(q, k) == 0 {
      assert Count(q, k) <= |Flights(s.workers, n, k)|;
      assert Flights(s.workers, n, k) == {};
    }
  }

  /** In every run a disconnected user has no address. */
  lemma DisconnectedHaveNoAddress(steps: seq<Action>, n: Name)
    requires n in Run(steps).users && !Run(steps).users[n].connected
    ensures Run(steps).users[n].ip == [] && Run(steps).users[n].port == []
  {
    NeverStranded(steps);
    assert TidyRecord(Run(steps).users[n]);
  }
}
