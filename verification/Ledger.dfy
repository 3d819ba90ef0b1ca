/** What the record of a run keeps from step to step: releases are final, removals answer to a send
    of the same key that reported its delivery, and only unregistered recipients lose messages.
  */
module Ledger {
  import opened Basics
  import opened Registry
  import opened Protocol
  import opened Ownership
  import opened Stranded
  import opened Delivery

  /** The record only grows, and a released node stays released the way it was. */
  ghost predicate Extends(s: State, s': State) {
    && |s.place| <= |s'.place|
    && (forall t | 0 <= t < |s.place| && Released(s.place[t]) :: s'.place[t] == s.place[t])
    && s.accepted <= s'.accepted
    && s.reports <= s'.reports
    && s.gone <= s'.gone
    && s.overtaken <= s'.overtaken
  }

  lemma MovedFinal(s: State, q: seq<Node>, dest: Name, from: Place, to: Place)
    requires |s.place| == |s.accepted| && Holds(s.accepted, s.place, q, dest, from) && !Released(from)
    ensures forall t | 0 <= t < |s.place| && Released(s.place[t]) :: Moved(s.place, Tags(q), to)[t] == s.place[t]
  {
  }

  lemma UserStepsExtend(s: State, a: Action)
    requires OwnInv(s) && (a.DoRegister? || a.DoUnregister? || a.DoConnect? || a.DoDisconnect? || a.DoSend?)
    ensures Extends(s, Apply(s, a))
  {
    if a.DoUnregister? && a.name in s.users {
      MovedFinal(s, s.users[a.name].queue, a.name, InQueue(a.name), Discarded);
    } else if a.DoConnect? && a.name in s.users {
      MovedFinal(s, s.users[a.name].queue, a.name, InQueue(a.name), Detached(a.tid));
    }
  }

  lemma WorkerStepsExtend(s: State, a: Action)
    requires OwnInv(s) && (a.SendOutcome? || a.Settle? || a.FlushOutcome? || a.AckFlushed? || a.GiveBack?)
    ensures Extends(s, Apply(s, a))
  {
    if a.Settle? {
      SettleExtends(s, a.tid);
    } else if a.GiveBack? {
      GiveBackExtends(s, a.tid);
    } else if a.AckFlushed? {
      AckExtends(s, a.tid, a.ackOk);
    }
  }

  lemma GiveBackExtends(s: State, tid: nat)
    requires OwnInv(s)
    ensures Extends(s, GiveBackStep(s, tid))
  {
    if tid in s.workers && s.workers[tid].GivingUp? {
      var w := s.workers[tid];
      assert Holds(s.accepted, s.place, w.pending, w.dest, Detached(tid));
      MovedFinal(s, w.pending, w.dest, Detached(tid), if w.dest in s.users then InQueue(w.dest) else Discarded);
    }
  }

  lemma AckExtends(s: State, tid: nat, ackOk: bool)
    requires OwnInv(s)
    ensures Extends(s, AckFlushedStep(s, tid, ackOk))
  {
    if tid in s.workers && s.workers[tid].Acking? {
      var w := s.workers[tid];
      assert Holds(s.accepted, s.place, w.pending, w.dest, Detached(tid));
    }
  }

  lemma SettleExtends(s: State, tid: nat)
    requires OwnInv(s)
    ensures Extends(s, SettleStep(s, tid))
  {
    if tid in s.workers && s.workers[tid].Settling? && s.workers[tid].dest in s.users {
      var w := s.workers[tid];
      assert Holds(s.accepted, s.place, s.users[w.dest].queue, w.dest, InQueue(w.dest));
    }
  }

  lemma StepExtends(s: State, a: Action)
    requires OwnInv(s)
    ensures Extends(s, Apply(s, a))
  {
    if a.SendOutcome? || a.Settle? || a.FlushOutcome? || a.AckFlushed? || a.GiveBack? {
      WorkerStepsExtend(s, a);
    } else {
      UserStepsExtend(s, a);
    }
  }

  // ---- Removals.

  /** A node removed by a send has that send's key and recipient, and the send had reported its message. */
  ghost predicate RemovalsAnswer(s: State) {
    forall t | 0 <= t < |s.place| && s.place[t].RemovedBy? :: Answers(s, t, s.place[t].tag)
  }

  predicate Answers(s: State, t: nat, own: nat) {
    && t < |s.accepted| && own < |s.accepted|
    && s.accepted[own].dest == s.accepted[t].dest
    && KeyOf(s.accepted[own].msg) == KeyOf(s.accepted[t].msg)
    && Report(own, false) in s.reports
  }

  /** Each send removes at most one node, and none before it settles. */
  ghost predicate OneRemovalEach(s: State) {
    && (forall t, u | 0 <= t < |s.place| && 0 <= u < |s.place| && s.place[t].RemovedBy? && s.place[t] == s.place[u] ::
          t == u)
    && (forall t, w | 0 <= t < |s.place| && s.place[t].RemovedBy? && w in s.workers && s.workers[w].IsSend() ::
          s.place[t].tag != s.workers[w].node.tag)
    && (forall t | 0 <= t < |s.place| && s.place[t].RemovedBy? :: s.place[t].tag < |s.accepted|)
  }

  /** The step removes nothing on behalf of a send. */
  ghost predicate NoNewRemoval(s: State, s': State) {
    && |s.place| <= |s'.place|
    && (forall t | 0 <= t < |s'.place| && s'.place[t].RemovedBy? :: t < |s.place| && s.place[t] == s'.place[t])
  }

  lemma StepRemovesNothing(s: State, a: Action)
    requires |s.place| == |s.accepted| && !a.Settle?
    ensures NoNewRemoval(s, Apply(s, a))
  {
  }

  lemma NoRemovalKeepsAnswers(s: State, s': State)
    requires NoNewRemoval(s, s') && Extends(s, s') && RemovalsAnswer(s)
    ensures RemovalsAnswer(s')
  {
    forall t | 0 <= t < |s'.place| && s'.place[t].RemovedBy? ensures Answers(s', t, s'.place[t].tag) {
      assert Answers(s, t, s.place[t].tag);
    }
  }

  /** Workers that appear carry new messages; the others keep theirs. */
  ghost predicate SendsCarryOn(s: State, s': State) {
    forall w | w in s'.workers && s'.workers[w].IsSend() ::
      || s'.workers[w].node.tag == |s.accepted|
      || (w in s.workers && s.workers[w].IsSend() && s.workers[w].node.tag == s'.workers[w].node.tag)
  }

  lemma StepCarriesOn(s: State, a: Action)
    ensures SendsCarryOn(s, Apply(s, a))
  {
  }

  lemma NoRemovalKeepsOne(s: State, s': State)
    requires NoNewRemoval(s, s') && SendsCarryOn(s, s') && OneRemovalEach(s) && |s.accepted| <= |s'.accepted|
    ensures OneRemovalEach(s')
  {
  }

  lemma SettleKeepsRemovals(s: State, tid: nat)
    requires OwnInv(s) && StrandInv(s) && SendsReport(s) && RemovalsAnswer(s)
    ensures RemovalsAnswer(SettleStep(s, tid))
  {
    var s' := SettleStep(s, tid);
    if tid in s.workers && s.workers[tid].Settling? && s.workers[tid].ok && s.workers[tid].dest in s.users {
      var w := s.workers[tid];
      var q := s.users[w.dest].queue;
      var i := FirstMatch(q, w.node.msg);
      if i < |q| {
        assert WorkerTidy(w) && TidyRecord(s.users[w.dest]);
        assert Holds(s.accepted, s.place, q, w.dest, InQueue(w.dest));
        TakesIsKeyEquality(q[i], w.node.msg);
        assert Answers(s', q[i].tag, w.node.tag);
      }
      forall t | 0 <= t < |s'.place| && s'.place[t].RemovedBy? ensures Answers(s', t, s'.place[t].tag) {
        if s'.place[t] == s.place[t] {
          assert Answers(s, t, s.place[t].tag);
        }
      }
    }
  }

  lemma SettleKeepsOne(s: State, tid: nat)
    requires |s.place| == |s.accepted| && SendsOwn(s) && OneRemovalEach(s)
    ensures OneRemovalEach(SettleStep(s, tid))
  {
    var s' := SettleStep(s, tid);
    if tid in s.workers && s.workers[tid].Settling? {
      var w := s.workers[tid];
      assert forall t | 0 <= t < |s.place| && s.place[t].RemovedBy? :: s.place[t].tag != w.node.tag;
      if s'.place != s.place {
        RemovesOneMore(s, s', tid, s.users[w.dest].queue[FirstMatch(s.users[w.dest].queue, w.node.msg)].tag);
      }
    }
  }

  /** A send that had removed nothing leaves flight with one removal. */
  lemma RemovesOneMore(s: State, s': State, tid: nat, one: nat)
    requires |s.place| == |s.accepted| && SendsOwn(s) && OneRemovalEach(s)
    requires tid in s.workers && s.workers[tid].IsSend()
    requires s'.place == Moved(s.place, [one], RemovedBy(s.workers[tid].node.tag))
    requires s'.workers == s.workers - {tid} && s'.accepted == s.accepted
    ensures OneRemovalEach(s')
  {
    var tag := s.workers[tid].node.tag;
    assert forall t | 0 <= t < |s.place| && t != one :: s'.place[t] == s.place[t];
    assert forall t | 0 <= t < |s'.place| && s'.place[t] == RemovedBy(tag) :: t == one;
  }

  // ---- Discards.

  /** Recipients are registered or were unregistered, and only the latter had nodes discarded. */
  ghost predicate DiscardsExplained(s: State) {
    && (forall t | 0 <= t < |s.accepted| :: s.accepted[t].dest in s.users || s.accepted[t].dest in s.gone)
    && (forall t | 0 <= t < |s.place| && s.place[t].Discarded? :: t < |s.accepted| && s.accepted[t].dest in s.gone)
  }

  lemma StepKeepsDiscards(s: State, a: Action)
    requires |s.place| == |s.accepted| && QueuesOwn(s) && ListsOwn(s) && DiscardsExplained(s)
    ensures DiscardsExplained(Apply(s, a))
  {
    match a
    case DoUnregister(n) => UnregisterKeepsDiscards(s, n);
    case GiveBack(tid) => GiveBackKeepsDiscards(s, tid);
    case Settle(tid) => SettleKeepsDiscards(s, tid);
    case DoSend(tid, sender, dest, text, file, attach) => SendKeepsDiscards(s, tid, sender, dest, text, file, attach);
    case _ => OthersKeepDiscards(s, a);
  }

  lemma UnregisterKeepsDiscards(s: State, n: Name)
    requires |s.place| == |s.accepted| && QueuesOwn(s) && DiscardsExplained(s)
    ensures DiscardsExplained(UnregisterStep(s, n))
  {
    if n in s.users {
      var q := s.users[n].queue;
      assert Holds(s.accepted, s.place, q, n, InQueue(n));
      assert forall t | t in Tags(q) :: s.accepted[t].dest == n;
    }
  }

  lemma GiveBackKeepsDiscards(s: State, tid: nat)
    requires |s.place| == |s.accepted| && ListsOwn(s) && DiscardsExplained(s)
    ensures DiscardsExplained(GiveBackStep(s, tid))
  {
    if tid in s.workers && s.workers[tid].GivingUp? {
      var w := s.workers[tid];
      assert Holds(s.accepted, s.place, w.pending, w.dest, Detached(tid));
      assert forall t | t in Tags(w.pending) :: s.accepted[t].dest == w.dest;
    }
  }

  lemma SettleKeepsDiscards(s: State, tid: nat)
    requires |s.place| == |s.accepted| && DiscardsExplained(s)
    ensures DiscardsExplained(SettleStep(s, tid))
  {
  }

  lemma SendKeepsDiscards(s: State, tid: nat, sender: Name, dest: Name, text: Bytes, file: Bytes, attach: bool)
    requires |s.place| == |s.accepted| && DiscardsExplained(s)
    ensures DiscardsExplained(SendStep(s, tid, sender, dest, text, file, attach))
  {
  }

  lemma OthersKeepDiscards(s: State, a: Action)
    requires |s.place| == |s.accepted| && DiscardsExplained(s)
    requires !a.DoUnregister? && !a.GiveBack? && !a.Settle? && !a.DoSend?
    ensures DiscardsExplained(Apply(s, a))
  {
  }

  // ---- Nodes overtaken by a CONNECT.

  /** A send in flight whose node left the queue for a CONNECT is on record as overtaken. */
  ghost predicate OvertakenInFlight(s: State) {
    forall w | w in s.workers && s.workers[w].IsSend() && s.workers[w].node.tag < |s.place| ::
      var t := s.workers[w].node.tag;
      s.place[t].Detached? || s.place[t].FlushedAway? ==> t in s.overtaken
  }

  lemma StepKeepsOvertaken(s: State, a: Action)
    requires OwnInv(s) && OvertakenInFlight(s)
    ensures OvertakenInFlight(Apply(s, a))
  {
    match a
    case DoConnect(tid, n, ip, port) => ConnectKeepsOvertaken(s, tid, n, ip, port);
    case AckFlushed(tid, ackOk) => AckFlushedKeepsOvertaken(s, tid, ackOk);
    case _ =>
      StepCarriesOn(s, a);
      OthersKeepOvertaken(s, a);
  }

  lemma ConnectKeepsOvertaken(s: State, tid: nat, n: Name, ip: Bytes, port: Bytes)
    requires |s.place| == |s.accepted| && SendsOwn(s) && OvertakenInFlight(s)
    ensures OvertakenInFlight(ConnectStep(s, tid, n, ip, port))
  {
    var s' := ConnectStep(s, tid, n, ip, port);
    forall w | w in s'.workers && s'.workers[w].IsSend() && s'.workers[w].node.tag < |s'.place|
      ensures var t := s'.workers[w].node.tag;
              s'.place[t].Detached? || s'.place[t].FlushedAway? ==> t in s'.overtaken
    {
      assert s.workers[w].node.tag in InFlight(s.workers);
    }
  }

  lemma AckFlushedKeepsOvertaken(s: State, tid: nat, ackOk: bool)
    requires |s.place| == |s.accepted| && ListsOwn(s) && OvertakenInFlight(s)
    ensures OvertakenInFlight(AckFlushedStep(s, tid, ackOk))
  {
    if tid in s.workers && s.workers[tid].Acking? {
      var w := s.workers[tid];
      assert Holds(s.accepted, s.place, w.pending, w.dest, Detached(tid));
      assert s.place[w.pending[0].tag].Detached?;
    }
  }

  lemma OthersKeepOvertaken(s: State, a: Action)
    requires |s.place| == |s.accepted| && OvertakenInFlight(s) && SendsCarryOn(s, Apply(s, a))
    requires !a.DoConnect? && !a.AckFlushed?
    ensures OvertakenInFlight(Apply(s, a))
  {
    StepDetachesNone(s, a);
    StillInFlight(s, Apply(s, a));
  }

  lemma StepDetachesNone(s: State, a: Action)
    requires |s.place| == |s.accepted| && !a.DoConnect? && !a.AckFlushed?
    ensures DetachesNone(s, Apply(s, a))
  {
    if a.GiveBack? {
      GiveBackDetachesNone(s, a.tid);
    } else if a.Settle? {
      SettleDetachesNone(s, a.tid);
    }
  }

  ghost predicate DetachesNone(s: State, s': State) {
    && s'.overtaken == s.overtaken && |s.place| <= |s'.place| && |s.place| == |s.accepted|
    && (forall t | 0 <= t < |s'.place| && (s'.place[t].Detached? || s'.place[t].FlushedAway?) ::
          t < |s.place| && s'.place[t] == s.place[t])
  }

  lemma GiveBackDetachesNone(s: State, tid: nat)
    requires |s.place| == |s.accepted|
    ensures DetachesNone(s, GiveBackStep(s, tid))
  {
  }

  lemma SettleDetachesNone(s: State, tid: nat)
    requires |s.place| == |s.accepted|
    ensures DetachesNone(s, SettleStep(s, tid))
  {
  }

  lemma StillInFlight(s: State, s': State)
    requires OvertakenInFlight(s) && SendsCarryOn(s, s') && DetachesNone(s, s')
    ensures OvertakenInFlight(s')
  {
  }

  /** Someone else's node was removed by the send of message t. */
  predicate TookAnother(s: State, t: nat) {
    exists u :: 0 <= u < |s.place| && u != t && s.place[u] == RemovedBy(t)
  }

  predicate SettledWell(s: State, t: nat)
    requires t < |s.place|
  {
    t in s.overtaken || s.place[t].RemovedBy? || s.place[t].Discarded? || TookAnother(s, t)
  }

  /** A message its own send delivered has, once that send settled, lost its node, unless the node was
      overtaken or the send removed another node of the same key instead. */
  ghost predicate DeliveredSettleWell(s: State) {
    forall t | 0 <= t < |s.place| && Report(t, false) in s.reports && t !in InFlight(s.workers) :: SettledWell(s, t)
  }

  lemma SettledWellStays(s: State, s': State, t: nat)
    requires Extends(s, s') && t < |s.place| && SettledWell(s, t)
    ensures SettledWell(s', t)
  {
    if TookAnother(s, t) {
      var u :| 0 <= u < |s.place| && u != t && s.place[u] == RemovedBy(t);
      assert s'.place[u] == RemovedBy(t);
    }
  }

  /** A send leaves flight only by settling, and reports only in flight. */
  lemma FlightsStay(s: State, a: Action)
    requires !a.Settle?
    ensures InFlight(s.workers) <= InFlight(Apply(s, a).workers)
    ensures forall t | Report(t, false) in Apply(s, a).reports && t !in InFlight(Apply(s, a).workers) ::
              Report(t, false) in s.reports
  {
    var s' := Apply(s, a);
    SendsStay(s, a);
    forall t | t in InFlight(s.workers) ensures t in InFlight(s'.workers) {
      var w :| w in s.workers && s.workers[w].IsSend() && s.workers[w].node.tag == t;
      assert s'.workers[w].IsSend() && s'.workers[w].node.tag == t;
    }
    if a.SendOutcome? && s' != s {
      assert s.workers[a.tid].node.tag in InFlight(s'.workers);
    }
  }

  lemma SendsStay(s: State, a: Action)
    requires !a.Settle?
    ensures forall w | w in s.workers && s.workers[w].IsSend() ::
              w in Apply(s, a).workers && Apply(s, a).workers[w].IsSend() &&
              Apply(s, a).workers[w].node == s.workers[w].node
  {
  }

  lemma StepKeepsSettled(s: State, a: Action)
    requires OwnInv(s) && Once(s) && DeliveredSettleWell(s) && !a.Settle?
    ensures DeliveredSettleWell(Apply(s, a))
  {
    var s' := Apply(s, a);
    StepExtends(s, a);
    FlightsStay(s, a);
    forall t | 0 <= t < |s'.place| && Report(t, false) in s'.reports && t !in InFlight(s'.workers)
      ensures SettledWell(s', t)
    {
      assert Report(t, false) in s.reports;
      SettledWellStays(s, s', t);
    }
  }

  lemma SettleEndsFlight(s: State, tid: nat)
    requires SendsOwn(s) && tid in s.workers && s.workers[tid].Settling?
    ensures InFlight(SettleStep(s, tid).workers) == InFlight(s.workers) - {s.workers[tid].node.tag}
  {
    var ws, ws' := s.workers, SettleStep(s, tid).workers;
    forall t | t in InFlight(ws) && t != ws[tid].node.tag ensures t in InFlight(ws') {
      var w :| w in ws && ws[w].IsSend() && ws[w].node.tag == t;
      assert w in ws' && ws'[w].IsSend() && ws'[w].node.tag == t;
    }
  }

  /** Settling reports nothing, and what it does not settle was in flight before if it is now. */
  lemma OthersReportedBefore(s: State, tid: nat, t: nat)
    requires SendsOwn(s) && tid in s.workers && s.workers[tid].Settling?
    requires Report(t, false) in SettleStep(s, tid).reports && t !in InFlight(SettleStep(s, tid).workers)
    ensures Report(t, false) in s.reports && (t != s.workers[tid].node.tag ==> t !in InFlight(s.workers))
  {
    SettleEndsFlight(s, tid);
  }

  lemma SettledReportIsOk(s: State, tid: nat)
    requires SendsReport(s) && tid in s.workers && s.workers[tid].Settling?
    requires Report(s.workers[tid].node.tag, false) in s.reports
    ensures s.workers[tid].ok
  {
  }

  lemma OtherStaysSettled(s: State, tid: nat, t: nat)
    requires OwnInv(s) && DeliveredSettleWell(s) && t < |s.place|
    requires Report(t, false) in s.reports && t !in InFlight(s.workers)
    ensures t < |SettleStep(s, tid).place| && SettledWell(SettleStep(s, tid), t)
  {
    WasSettledWell(s, t);
    SettleExtends(s, tid);
    SettledWellStays(s, SettleStep(s, tid), t);
  }

  lemma SettleKeepsSettled(s: State, tid: nat)
    requires OwnInv(s) && SendsReport(s) && OvertakenInFlight(s) && DeliveredSettleWell(s)
    ensures DeliveredSettleWell(SettleStep(s, tid))
  {
    var s' := SettleStep(s, tid);
    if tid in s.workers && s.workers[tid].Settling? {
      var own := s.workers[tid].node.tag;
      if Report(own, false) in s.reports {
        SettledReportIsOk(s, tid);
        SettlingSettlesWell(s, tid);
      }
      forall t | 0 <= t < |s'.place| && Report(t, false) in s'.reports && t !in InFlight(s'.workers)
        ensures SettledWell(s', t)
      {
        OthersReportedBefore(s, tid, t);
        if t != own {
          OtherStaysSettled(s, tid, t);
        }
      }
    }
  }

  lemma WasSettledWell(s: State, t: nat)
    requires DeliveredSettleWell(s) && t < |s.place| && Report(t, false) in s.reports && t !in InFlight(s.workers)
    ensures SettledWell(s, t)
  {
  }

  lemma SettlingSettlesWell(s: State, tid: nat)
    requires OwnInv(s) && OvertakenInFlight(s)
    requires tid in s.workers && s.workers[tid].Settling? && s.workers[tid].ok
    ensures |SettleStep(s, tid).place| == |s.accepted|
    ensures SettledWell(SettleStep(s, tid), s.workers[tid].node.tag)
  {
    var s' := SettleStep(s, tid);
    var w := s.workers[tid];
    var t := w.node.tag;
    assert Backed(s, t);
    if s.place[t].InQueue? {
      var n := s.place[t].name;
      assert Holds(s.accepted, s.place, s.users[n].queue, n, InQueue(n));
      var j :| 0 <= j < |s.users[n].queue| && Tags(s.users[n].queue)[j] == t;
      assert s.users[n].queue[j] == w.node && n == w.dest;
      var q := s.users[n].queue;
      var i := FirstMatch(q, w.node.msg);
      assert Takes(q[j], w.node.msg);
      assert i <= j;
      assert s'.place[q[i].tag] == RemovedBy(t);
      if q[i].tag != t {
        assert TookAnother(s', t);
      }
    }
  }

  // ---- The whole record, over every run.

  ghost predicate LedgerInv(s: State) {
    && OwnInv(s) && StrandInv(s) && DeliveryInv(s)
    && RemovalsAnswer(s) && OneRemovalEach(s) && DiscardsExplained(s)
    && OvertakenInFlight(s) && DeliveredSettleWell(s)
  }

  lemma {:induction false} LedgerStaysSound(steps: seq<Action>)
    ensures LedgerInv(Run(steps))
  {
    AlwaysOwned(steps);
    NeverStranded(steps);
    ReportsStaySound(steps);
    if steps != [] {
      var s, a := Run(steps[..|steps| - 1]), steps[|steps| - 1];
      LedgerStaysSound(steps[..|steps| - 1]);
      StepExtends(s, a);
      StepCarriesOn(s, a);
      StepKeepsDiscards(s, a);
      StepKeepsOvertaken(s, a);
      if a.Settle? {
        SettleKeepsRemovals(s, a.tid);
        SettleKeepsOne(s, a.tid);
        SettleKeepsSettled(s, a.tid);
      } else {
        StepRemovesNothing(s, a);
        NoRemovalKeepsAnswers(s, Apply(s, a));
        NoRemovalKeepsOne(s, Apply(s, a));
        StepKeepsSettled(s, a);
      }
    }
  }
}
