/** What can still become of a message: when it is lost for good, and when it can still end up delivered twice. Both
    are decided by what can be seen of the present state, for every state and every continuation.
  */
module Finality {
  import opened Basics
  import opened Registry
  import opened Protocol
  import opened Ownership
  import opened Delivery
  import opened Acknowledgements
  import opened Ledger
  import opened Loss

  /** The message's own send has still to try the recipient. */
  ghost predicate StillTrying(s: State, t: nat) {
    exists w :: w in s.workers && s.workers[w].Sending? && s.workers[w].node.tag == t
  }

  /** The node is gone for another reason than a delivery of its own, and its send will not report it any more. */
  ghost predicate LostForGood(s: State, t: nat) {
    && t < |s.place| && (s.place[t].Discarded? || (s.place[t].RemovedBy? && s.place[t].tag != t))
    && Report(t, false) !in s.reports && Report(t, true) !in s.reports && !StillTrying(s, t)
  }

  // ---- What a single step can change.

  /** A new report comes from a send that was about to try, or from the head of a list being flushed. */
  lemma NewReportIsNew(s: State, a: Action, r: Report)
    requires r in Apply(s, a).reports && r !in s.reports
    ensures if r.byFlush then a.FlushOutcome? && a.tid in s.workers && s.workers[a.tid].Flushing?
                              && s.workers[a.tid].pending != [] && s.workers[a.tid].pending[0].tag == r.tag
            else StillTrying(s, r.tag)
  {
  }

  /** Only a message that is just being accepted starts to try. */
  lemma TryingIsOld(s: State, a: Action, t: nat)
    requires t < |s.accepted| && StillTrying(Apply(s, a), t)
    ensures StillTrying(s, t)
  {
    var w :| w in Apply(s, a).workers && Apply(s, a).workers[w].Sending? && Apply(s, a).workers[w].node.tag == t;
    NewSendingIsNew(s, a, w);
  }

  /** A flush reports only a node that was not released. */
  lemma FlushedIsHeld(s: State, a: Action, t: nat)
    requires OwnInv(s) && Report(t, true) in Apply(s, a).reports && Report(t, true) !in s.reports
    ensures t < |s.place| && s.place[t].Detached?
  {
    NewReportIsNew(s, a, Report(t, true));
    var w := s.workers[a.tid];
    assert Holds(s.accepted, s.place, w.pending, w.dest, Detached(a.tid));
  }

  lemma StepKeepsLost(s: State, a: Action, t: nat)
    requires OwnInv(s) && LostForGood(s, t)
    ensures LostForGood(Apply(s, a), t)
  {
    var s' := Apply(s, a);
    StepExtends(s, a);
    if StillTrying(s', t) {
      TryingIsOld(s, a, t);
    }
    if Report(t, true) in s'.reports {
      FlushedIsHeld(s, a, t);
    }
    if Report(t, false) in s'.reports {
      NewReportIsNew(s, a, Report(t, false));
    }
  }

  lemma RunMore(steps: seq<Action>, more: seq<Action>)
    requires more != []
    ensures var init := more[..|more| - 1]; Run(steps + more) == Apply(Run(steps + init), more[|more| - 1])
  {
    var init, a := more[..|more| - 1], more[|more| - 1];
    assert steps + more == steps + init + [a];
    RunSnoc(steps + init, a);
  }

  lemma {:induction false} StaysLost(steps: seq<Action>, more: seq<Action>, t: nat)
    requires LostForGood(Run(steps), t)
    ensures LostForGood(Run(steps + more), t)
  {
    if more == [] {
      assert steps + more == steps;
    } else {
      var init, a := more[..|more| - 1], more[|more| - 1];
      StaysLost(steps, init, t);
      AlwaysOwned(steps + init);
      StepKeepsLost(Run(steps + init), a, t);
      RunMore(steps, more);
    }
  }

  /** The message is in its recipient's queue, in a detached list for it, or was reported. */
  ghost predicate Present(s: State, t: nat) {
    t < |s.accepted| && Accounted(s, t)
  }

  /** A message is lost, in this state and in every continuation, exactly if it was never reported, its node was
      discarded with its recipient or removed by another message's send, and its own send has nothing left to try. */
  lemma LostForGoodIff(steps: seq<Action>, t: nat)
    requires t < |Run(steps).accepted|
    ensures (forall more: seq<Action> :: !Present(Run(steps + more), t)) <==> LostForGood(Run(steps), t)
  {
    if LostForGood(Run(steps), t) {
      forall more: seq<Action> ensures !Present(Run(steps + more), t) {
        StaysLost(steps, more, t);
        if t < |Run(steps + more).accepted| {
          MissingExactlyWhen(steps + more, t);
        }
      }
    } else {
      var more := StillReachable(steps, t);
    }
  }

  /** A message that is not lost for good is present now, or after its send has tried successfully. */
  lemma StillReachable(steps: seq<Action>, t: nat) returns (more: seq<Action>)
    requires t < |Run(steps).accepted| && !LostForGood(Run(steps), t)
    ensures Present(Run(steps + more), t)
  {
    more := [];
    assert steps + [] == steps;
    MissingExactlyWhen(steps, t);
    if !Present(Run(steps), t) {
      more := Tries(steps, t);
    }
  }

  /** The send tries, and is successful. */
  lemma Tries(steps: seq<Action>, t: nat) returns (more: seq<Action>)
    requires t < |Run(steps).accepted| && StillTrying(Run(steps), t)
    ensures Run(steps).reports <= Run(steps + more).reports && Report(t, false) in Run(steps + more).reports
    ensures t < |Run(steps + more).accepted|
  {
    var s := Run(steps);
    var w :| w in s.workers && s.workers[w].Sending? && s.workers[w].node.tag == t;
    more := [SendOutcome(w, true, true)];
    RunSnoc(steps, SendOutcome(w, true, true));
    var s' := Run(steps + more);
    assert s'.reports == s.reports + [Report(t, false)];
    assert s'.reports[|s.reports|] == Report(t, false);
  }

  // ---- The step that loses a message.

  /** The node was released for another reason than a delivery of its own. */
  predicate Strayed(s: State, t: nat)
    requires t < |s.place|
  {
    s.place[t].Discarded? || (s.place[t].RemovedBy? && s.place[t].tag != t)
  }

  /** The step takes the node away for another reason than a delivery of its own: its recipient is unregistered, or
      is gone when a failed flush gives it back, or a delivered send finds it first among the nodes of its key. */
  predicate Strays(s: State, a: Action, t: nat) {
    match a
    case DoUnregister(n) => n in s.users && t in Tags(s.users[n].queue)
    case GiveBack(tid) =>
      && tid in s.workers && s.workers[tid].GivingUp? && s.workers[tid].dest !in s.users
      && t in Tags(s.workers[tid].pending)
    case Settle(tid) =>
      && tid in s.workers && s.workers[tid].Settling? && s.workers[tid].ok && s.workers[tid].dest in s.users
      && s.workers[tid].node.tag != t
      && var q, i := s.users[s.workers[tid].dest].queue,
                     FirstMatch(s.users[s.workers[tid].dest].queue, s.workers[tid].node.msg);
         i < |q| && q[i].tag == t
    case _ => false
  }

  /** The step is the outcome of the message's own try. */
  predicate EndsTry(s: State, a: Action, t: nat) {
    a.SendOutcome? && a.tid in s.workers && s.workers[a.tid].Sending? && s.workers[a.tid].node.tag == t
  }

  /** The message was not reported, and either its send has nothing left to try and the step takes its node away, or
      the node has strayed and the step is its send's failure. */
  ghost predicate Loses(s: State, a: Action, t: nat)
    requires t < |s.place|
  {
    && Report(t, false) !in s.reports && Report(t, true) !in s.reports
    && if a.SendOutcome? then EndsTry(s, a, t) && !a.ok && Strayed(s, t)
       else Strays(s, a, t) && !StillTrying(s, t)
  }

  lemma StrayedIff(s: State, a: Action, t: nat)
    requires OwnInv(s) && t < |s.place|
    ensures t < |Apply(s, a).place| && (Strayed(Apply(s, a), t) <==> Strayed(s, t) || Strays(s, a, t))
  {
    match a
    case DoUnregister(n) => UnregisterStraysIff(s, n, t);
    case Settle(tid) => SettleStraysIff(s, tid, t);
    case GiveBack(tid) => GiveBackStraysIff(s, tid, t);
    case DoConnect(tid, n, ip, port) => ConnectStraysNone(s, tid, n, ip, port, t);
    case AckFlushed(tid, ackOk) => AckStraysNone(s, tid, ackOk, t);
    case _ =>
  }

  lemma UnregisterStraysIff(s: State, n: Name, t: nat)
    requires OwnInv(s) && t < |s.place|
    ensures var s' := UnregisterStep(s, n);
            t < |s'.place| && (Strayed(s', t) <==> Strayed(s, t) || Strays(s, DoUnregister(n), t))
  {
    if n in s.users {
      assert Holds(s.accepted, s.place, s.users[n].queue, n, InQueue(n));
    }
  }

  lemma GiveBackStraysIff(s: State, tid: nat, t: nat)
    requires OwnInv(s) && t < |s.place|
    ensures var s' := GiveBackStep(s, tid);
            t < |s'.place| && (Strayed(s', t) <==> Strayed(s, t) || Strays(s, GiveBack(tid), t))
  {
    if tid in s.workers && s.workers[tid].GivingUp? {
      assert Holds(s.accepted, s.place, s.workers[tid].pending, s.workers[tid].dest, Detached(tid));
    }
  }

  lemma ConnectStraysNone(s: State, tid: nat, n: Name, ip: Bytes, port: Bytes, t: nat)
    requires OwnInv(s) && t < |s.place|
    ensures var s' := ConnectStep(s, tid, n, ip, port); t < |s'.place| && (Strayed(s', t) <==> Strayed(s, t))
  {
    if n in s.users {
      assert Holds(s.accepted, s.place, s.users[n].queue, n, InQueue(n));
    }
  }

  lemma AckStraysNone(s: State, tid: nat, ackOk: bool, t: nat)
    requires OwnInv(s) && t < |s.place|
    ensures var s' := AckFlushedStep(s, tid, ackOk); t < |s'.place| && (Strayed(s', t) <==> Strayed(s, t))
  {
    if tid in s.workers && s.workers[tid].Acking? {
      assert Holds(s.accepted, s.place, s.workers[tid].pending, s.workers[tid].dest, Detached(tid));
    }
  }

  lemma SettleStraysIff(s: State, tid: nat, t: nat)
    requires OwnInv(s) && t < |s.place|
    ensures var s' := SettleStep(s, tid);
            t < |s'.place| && (Strayed(s', t) <==> Strayed(s, t) || Strays(s, Settle(tid), t))
  {
    if tid in s.workers && s.workers[tid].Settling? && s.workers[tid].dest in s.users {
      var n := s.workers[tid].dest;
      assert Holds(s.accepted, s.place, s.users[n].queue, n, InQueue(n));
    }
  }

  /** A send stops trying only with its outcome. */
  lemma StopsTrying(s: State, a: Action, t: nat)
    requires OwnInv(s) && StillTrying(s, t)
    ensures StillTrying(Apply(s, a), t) <==> !EndsTry(s, a, t)
  {
    if EndsTry(s, a, t) {
      OutcomeEndsTry(s, a.tid, a.ok, a.ackOk);
    } else {
      var w :| w in s.workers && s.workers[w].Sending? && s.workers[w].node.tag == t;
      SenderStays(s, a, w);
    }
  }

  lemma OutcomeEndsTry(s: State, tid: nat, ok: bool, ackOk: bool)
    requires OwnInv(s) && tid in s.workers && s.workers[tid].Sending?
    ensures !StillTrying(SendOutcomeStep(s, tid, ok, ackOk), s.workers[tid].node.tag)
  {
    var s' := SendOutcomeStep(s, tid, ok, ackOk);
    assert forall v | v in s'.workers && v != tid :: s'.workers[v] == s.workers[v];
  }

  lemma SenderStays(s: State, a: Action, w: nat)
    requires w in s.workers && s.workers[w].Sending? && !EndsTry(s, a, s.workers[w].node.tag)
    ensures w in Apply(s, a).workers && Apply(s, a).workers[w] == s.workers[w]
  {
  }

  /** For every reachable state and every step: the step makes the message lost for good if and only if it takes away
      the node of a message that was not reported and has nothing left to try, or is the failure of its last try. */
  lemma StepLosesIff(steps: seq<Action>, a: Action, t: nat)
    requires t < |Run(steps).accepted|
    ensures t < |Run(steps).place|
    ensures !LostForGood(Run(steps), t) && LostForGood(Run(steps + [a]), t) <==> Loses(Run(steps), a, t)
  {
    AlwaysOwned(steps);
    RunSnoc(steps, a);
    LosesIff(Run(steps), a, t);
  }

  lemma LosesIff(s: State, a: Action, t: nat)
    requires OwnInv(s) && t < |s.place|
    ensures !LostForGood(s, t) && LostForGood(Apply(s, a), t) <==> Loses(s, a, t)
  {
    StrayedIff(s, a, t);
    TryingAfter(s, a, t);
    if Loses(s, a, t) {
      LosingIsNew(s, a, t);
      NoNewReport(s, a, t);
    } else {
      StepExtends(s, a);
    }
  }

  lemma TryingAfter(s: State, a: Action, t: nat)
    requires OwnInv(s) && t < |s.accepted|
    ensures StillTrying(Apply(s, a), t) <==> StillTrying(s, t) && !EndsTry(s, a, t)
  {
    if StillTrying(s, t) {
      StopsTrying(s, a, t);
    } else if StillTrying(Apply(s, a), t) {
      TryingIsOld(s, a, t);
    }
  }

  lemma LosingIsNew(s: State, a: Action, t: nat)
    requires OwnInv(s) && t < |s.place| && Loses(s, a, t)
    ensures !LostForGood(s, t)
  {
    if !EndsTry(s, a, t) {
      StrayedOnce(s, a, t);
    }
  }

  /** A node that strayed is nowhere to be taken from. */
  lemma StrayedOnce(s: State, a: Action, t: nat)
    requires OwnInv(s) && t < |s.place| && Strays(s, a, t)
    ensures !Released(s.place[t])
  {
  }

  /** A losing step reports nothing of the message. */
  lemma NoNewReport(s: State, a: Action, t: nat)
    requires OwnInv(s) && t < |s.place| && Loses(s, a, t)
    ensures Report(t, false) !in Apply(s, a).reports && Report(t, true) !in Apply(s, a).reports
  {
  }

  // ---- Twice.

  predicate Twice(s: State, t: nat) {
    Report(t, false) in s.reports && Report(t, true) in s.reports
  }

  /** The send has reported the message or has still to try, and a flush has reported it or can still find its node. */
  ghost predicate CanBeTwice(s: State, t: nat) {
    && t < |s.place|
    && (Report(t, false) in s.reports || StillTrying(s, t))
    && (Report(t, true) in s.reports || !Released(s.place[t]))
  }

  lemma StepKeepsOnce(s: State, a: Action, t: nat)
    requires OwnInv(s) && t < |s.place| && !CanBeTwice(s, t)
    ensures t < |Apply(s, a).place| && !CanBeTwice(Apply(s, a), t)
  {
    var s' := Apply(s, a);
    StepExtends(s, a);
    if Report(t, false) in s'.reports && Report(t, false) !in s.reports {
      NewReportIsNew(s, a, Report(t, false));
    }
    if StillTrying(s', t) {
      TryingIsOld(s, a, t);
    }
    if Report(t, true) in s'.reports && Report(t, true) !in s.reports {
      FlushedIsHeld(s, a, t);
    }
  }

  lemma {:induction false} StaysOnce(steps: seq<Action>, more: seq<Action>, t: nat)
    requires t < |Run(steps).place| && !CanBeTwice(Run(steps), t)
    ensures t < |Run(steps + more).place| && !CanBeTwice(Run(steps + more), t)
  {
    if more == [] {
      assert steps + more == steps;
    } else {
      var init, a := more[..|more| - 1], more[|more| - 1];
      StaysOnce(steps, init, t);
      AlwaysOwned(steps + init);
      StepKeepsOnce(Run(steps + init), a, t);
      RunMore(steps, more);
    }
  }

  // ---- How to get there.

  /** Nothing that was reported is forgotten, and every send that had still to try still has. */
  ghost predicate SendsWait(s: State, s': State) {
    && s.reports <= s'.reports && |s.accepted| <= |s'.accepted|
    && (forall w | w in s.workers && s.workers[w].Sending? :: w in s'.workers && s'.workers[w] == s.workers[w])
  }

  lemma WaitOn(s1: State, s2: State, s3: State)
    requires SendsWait(s1, s2) && SendsWait(s2, s3)
    ensures SendsWait(s1, s3)
  {
  }

  lemma WaitingKeeps(s1: State, s2: State, t: nat)
    requires SendsWait(s1, s2)
    ensures StillTrying(s1, t) ==> StillTrying(s2, t)
    ensures forall r | r in s1.reports :: r in s2.reports
  {
  }

  /** One more step at the end of a continuation. */
  lemma OneStep(steps: seq<Action>, more: seq<Action>, a: Action)
    ensures Run(steps + (more + [a])) == Apply(Run(steps + more), a)
  {
    assert steps + (more + [a]) == steps + more + [a];
    RunSnoc(steps + more, a);
  }

  /** A continuation of a continuation. */
  lemma Chained(steps: seq<Action>, a: seq<Action>, b: seq<Action>)
    ensures steps + (a + b) == steps + a + b
  {
  }

  predicate FlushesNext(s: State, tid: nat, rest: seq<Node>) {
    tid in s.workers && s.workers[tid].Flushing? && s.workers[tid].pending == rest
  }

  /** A flush works its way up to any node of its list. */
  lemma {:induction false} FlushUpTo(steps: seq<Action>, tid: nat, k: nat) returns (more: seq<Action>)
    requires tid in Run(steps).workers && Run(steps).workers[tid].Flushing? && k < |Run(steps).workers[tid].pending|
    ensures FlushesNext(Run(steps + more), tid, Run(steps).workers[tid].pending[k..])
    ensures SendsWait(Run(steps), Run(steps + more))
  {
    var s := Run(steps);
    more := [];
    assert steps + [] == steps;
    if k > 0 {
      more := FlushUpTo(steps, tid, k - 1);
      var rest := s.workers[tid].pending[k - 1..];
      var before := more;
      more := FlushRound(steps, before, tid, rest);
      assert rest[1..] == s.workers[tid].pending[k..];
      WaitOn(s, Run(steps + before), Run(steps + more));
    }
  }

  /** One round of a flush. */
  lemma FlushRound(steps: seq<Action>, before: seq<Action>, tid: nat, rest: seq<Node>) returns (more: seq<Action>)
    requires FlushesNext(Run(steps + before), tid, rest) && |rest| > 1
    ensures FlushesNext(Run(steps + more), tid, rest[1..])
    ensures SendsWait(Run(steps + before), Run(steps + more))
  {
    var a, b := FlushOutcome(tid, true), AckFlushed(tid, false);
    OneStep(steps, before, a);
    OneStep(steps, before + [a], b);
    more := before + [a] + [b];
    RoundMovesOn(Run(steps + before), tid, rest);
  }

  lemma RoundMovesOn(s: State, tid: nat, rest: seq<Node>)
    requires FlushesNext(s, tid, rest) && |rest| > 1
    ensures var s' := AckFlushedStep(FlushOutcomeStep(s, tid, true), tid, false);
            FlushesNext(s', tid, rest[1..]) && SendsWait(s, s')
  {
  }

  /** A node in a list that is being flushed can be reported by the flush. */
  lemma ReportFromList(steps: seq<Action>, tid: nat, k: nat) returns (more: seq<Action>)
    requires tid in Run(steps).workers && Run(steps).workers[tid].Flushing? && k < |Run(steps).workers[tid].pending|
    ensures Report(Run(steps).workers[tid].pending[k].tag, true) in Run(steps + more).reports
    ensures SendsWait(Run(steps), Run(steps + more))
  {
    var t := Run(steps).workers[tid].pending[k].tag;
    more := FlushUpTo(steps, tid, k);
    var s1 := Run(steps + more);
    OneStep(steps, more, FlushOutcome(tid, true));
    more := more + [FlushOutcome(tid, true)];
    var s2 := Run(steps + more);
    assert s1.workers[tid].pending[0].tag == t;
    assert s2.reports == s1.reports + [Report(t, true)];
    assert s2.reports[|s1.reports|] == Report(t, true);
    WaitOn(Run(steps), s1, s2);
  }

  /** There is always a thread number that is not in use. */
  lemma {:induction false} FreeNumber(used: set<nat>) returns (tid: nat)
    ensures forall u | u in used :: u < tid
  {
    if used == {} {
      tid := 0;
    } else {
      var u :| u in used;
      var other := FreeNumber(used - {u});
      tid := if u < other then other else u + 1;
      assert forall v | v in used :: v == u || v in used - {u};
    }
  }

  /** Whoever is connected can disconnect. */
  lemma CanDisconnect(steps: seq<Action>, n: Name) returns (more: seq<Action>)
    requires n in Run(steps).users
    ensures var s, s' := Run(steps), Run(steps + more);
      && n in s'.users && !s'.users[n].connected && s'.users[n].queue == s.users[n].queue
      && s'.workers == s.workers && SendsWait(s, s')
  {
    var a := DoDisconnect(n, Run(steps).users[n].ip);
    more := [a];
    RunSnoc(steps, a);
  }

  /** A queued node can be reported by a flush: its recipient disconnects, if need be, and connects. */
  lemma ReportFromQueue(steps: seq<Action>, n: Name, k: nat) returns (more: seq<Action>)
    requires n in Run(steps).users && k < |Run(steps).users[n].queue|
    ensures Report(Run(steps).users[n].queue[k].tag, true) in Run(steps + more).reports
    ensures SendsWait(Run(steps), Run(steps + more))
  {
    var s := Run(steps);
    var down := CanDisconnect(steps, n);
    var s1 := Run(steps + down);
    var tid := FreeNumber(s1.workers.Keys);
    var a := DoConnect(tid, n, [], []);
    var path := down + [a];
    OneStep(steps, down, a);
    ConnectFlushes(s1, tid, n);
    var flush := ReportFromList(steps + path, tid, k);
    Chained(steps, path, flush);
    more := path + flush;
    WaitOn(s, s1, Run(steps + path));
    WaitOn(s, Run(steps + path), Run(steps + more));
  }

  lemma ConnectFlushes(s: State, tid: nat, n: Name)
    requires tid !in s.workers && n in s.users && !s.users[n].connected && s.users[n].queue != []
    ensures var s' := ConnectStep(s, tid, n, [], []);
            FlushesNext(s', tid, s.users[n].queue) && SendsWait(s, s')
  {
  }

  lemma RegisterFirst(s: State, n: Name)
    ensures var s' := RegisterStep(s, n); n in s'.users && s'.workers == s.workers && SendsWait(s, s')
  {
  }

  lemma GiveBackQueues(s: State, tid: nat)
    requires tid in s.workers && s.workers[tid].GivingUp? && s.workers[tid].dest in s.users
    ensures var w, s' := s.workers[tid], GiveBackStep(s, tid);
      w.dest in s'.users && s'.users[w.dest].queue == s.users[w.dest].queue + w.pending && SendsWait(s, s')
  {
  }

  /** A node whose flush has failed gets back into a queue, if need be after its recipient is registered anew. */
  lemma BackIntoQueue(steps: seq<Action>, tid: nat, k: nat) returns (more: seq<Action>, i: nat)
    requires tid in Run(steps).workers && Run(steps).workers[tid].GivingUp? && k < |Run(steps).workers[tid].pending|
    ensures var s, w, s' := Run(steps), Run(steps).workers[tid], Run(steps + more);
      && SendsWait(s, s') && w.dest in s'.users
      && i < |s'.users[w.dest].queue| && s'.users[w.dest].queue[i] == w.pending[k]
  {
    var s, w := Run(steps), Run(steps).workers[tid];
    var a, b := DoRegister(w.dest), GiveBack(tid);
    RunSnoc(steps, a);
    OneStep(steps, [a], b);
    more := [a] + [b];
    var s1 := Run(steps + [a]);
    RegisterFirst(s, w.dest);
    GiveBackQueues(s1, tid);
    WaitOn(s, s1, Run(steps + more));
    i := |s1.users[w.dest].queue| + k;
  }

  /** A node of a detached list can be reported by a flush, unless it has been. */
  lemma ReportFromDetached(steps: seq<Action>, tid: nat, k: nat) returns (more: seq<Action>)
    requires tid in Run(steps).workers && !Run(steps).workers[tid].IsSend() && k < |Run(steps).workers[tid].pending|
    ensures Report(Run(steps).workers[tid].pending[k].tag, true) in Run(steps + more).reports
    ensures SendsWait(Run(steps), Run(steps + more))
  {
    match Run(steps).workers[tid]
    case Flushing(_, _) => more := ReportFromList(steps, tid, k);
    case GivingUp(_, _) => more := ReportAfterGivingUp(steps, tid, k);
    case Acking(_, _) => more := ReportAfterAcking(steps, tid, k);
    case _ =>
  }

  lemma ReportAfterGivingUp(steps: seq<Action>, tid: nat, k: nat) returns (more: seq<Action>)
    requires tid in Run(steps).workers && Run(steps).workers[tid].GivingUp? && k < |Run(steps).workers[tid].pending|
    ensures Report(Run(steps).workers[tid].pending[k].tag, true) in Run(steps + more).reports
    ensures SendsWait(Run(steps), Run(steps + more))
  {
    var dest := Run(steps).workers[tid].dest;
    var back, i := BackIntoQueue(steps, tid, k);
    var flush := ReportFromQueue(steps + back, dest, i);
    Chained(steps, back, flush);
    more := back + flush;
    WaitOn(Run(steps), Run(steps + back), Run(steps + more));
  }

  lemma ReportAfterAcking(steps: seq<Action>, tid: nat, k: nat) returns (more: seq<Action>)
    requires tid in Run(steps).workers && Run(steps).workers[tid].Acking? && k < |Run(steps).workers[tid].pending|
    ensures Report(Run(steps).workers[tid].pending[k].tag, true) in Run(steps + more).reports
    ensures SendsWait(Run(steps), Run(steps + more))
  {
    var s, w := Run(steps), Run(steps).workers[tid];
    ReportsStaySound(steps);
    assert FlushReports(w, s.reports, s.acks);
    more := [];
    assert steps + [] == steps;
    if k > 0 {
      var a := AckFlushed(tid, false);
      RunSnoc(steps, a);
      AckMovesOn(s, tid);
      var flush := ReportFromList(steps + [a], tid, k - 1);
      Chained(steps, [a], flush);
      more := [a] + flush;
      WaitOn(s, Run(steps + [a]), Run(steps + more));
    }
  }

  lemma AckMovesOn(s: State, tid: nat)
    requires tid in s.workers && s.workers[tid].Acking? && |s.workers[tid].pending| > 1
    ensures var s' := AckFlushedStep(s, tid, false);
            FlushesNext(s', tid, s.workers[tid].pending[1..]) && SendsWait(s, s')
  {
  }

  /** A node that is not released can be reported by a flush. */
  lemma CanBeFlushed(steps: seq<Action>, t: nat) returns (more: seq<Action>)
    requires t < |Run(steps).place| && !Released(Run(steps).place[t])
    ensures Report(t, true) in Run(steps + more).reports
    ensures SendsWait(Run(steps), Run(steps + more))
  {
    var s := Run(steps);
    AlwaysOwned(steps);
    assert Backed(s, t);
    match s.place[t]
    case InQueue(n) =>
      var k: nat :| k < |Tags(s.users[n].queue)| && Tags(s.users[n].queue)[k] == t;
      more := ReportFromQueue(steps, n, k);
    case Detached(w) =>
      var k: nat :| k < |Tags(s.workers[w].pending)| && Tags(s.workers[w].pending)[k] == t;
      more := ReportFromDetached(steps, w, k);
    case _ =>
  }

  lemma GetTwice(steps: seq<Action>, t: nat) returns (more: seq<Action>)
    requires CanBeTwice(Run(steps), t)
    ensures Twice(Run(steps + more), t)
  {
    AlwaysOwned(steps);
    more := [];
    assert steps + [] == steps;
    if Report(t, true) !in Run(steps).reports {
      more := CanBeFlushed(steps, t);
      WaitingKeeps(Run(steps), Run(steps + more), t);
    }
    if Report(t, false) !in Run(steps + more).reports {
      var flushed := more;
      var last := Tries(steps + flushed, t);
      Chained(steps, flushed, last);
      more := flushed + last;
    }
  }

  /** Exactly when a message can still end up reported twice. */
  lemma CanBeTwiceIff(steps: seq<Action>, t: nat)
    requires t < |Run(steps).accepted|
    ensures (exists more: seq<Action> :: Twice(Run(steps + more), t)) <==> CanBeTwice(Run(steps), t)
  {
    AlwaysOwned(steps);
    if CanBeTwice(Run(steps), t) {
      var more := GetTwice(steps, t);
    } else {
      forall more: seq<Action> ensures !Twice(Run(steps + more), t) {
        StaysOnce(steps, more, t);
        ReportsStaySound(steps + more);
      }
    }
  }

  /** At-most-once delivery holds exactly for the messages whose recipient is not connected when they are accepted: then
      no continuation reports the message twice, and otherwise some continuation does. */
  lemma AtMostOnceIff(steps: seq<Action>, a: Action)
    requires a.DoSend? && a.tid !in Run(steps).workers && a.sender in Run(steps).users && a.dest in Run(steps).users
    ensures var t := |Run(steps).accepted|;
            (forall more: seq<Action> :: !Twice(Run(steps + [a] + more), t)) <==> !Run(steps).users[a.dest].connected
  {
    var s, t := Run(steps), |Run(steps).accepted|;
    RunSnoc(steps, a);
    AlwaysOwned(steps);
    ReportsStaySound(steps);
    CanBeTwiceIff(steps + [a], t);
    JustAccepted(s, a);
  }

  lemma JustAccepted(s: State, a: Action)
    requires OwnInv(s) && DeliveryInv(s)
    requires a.DoSend? && a.tid !in s.workers && a.sender in s.users && a.dest in s.users
    ensures var t := |s.accepted|;
      && t < |Apply(s, a).accepted| && (CanBeTwice(Apply(s, a), t) <==> s.users[a.dest].connected)
  {
    var s', t := Apply(s, a), |s.accepted|;
    assert s'.place[t] == InQueue(a.dest) && s'.reports == s.reports;
    if s.users[a.dest].connected {
      assert s'.workers[a.tid].Sending? && s'.workers[a.tid].node.tag == t;
    } else {
      assert s'.workers == s.workers;
    }
  }
}
