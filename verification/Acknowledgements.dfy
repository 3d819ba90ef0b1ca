/** Who is acknowledged. A send decides under its first lock whether its sender will be; a flush looks the sender up
    after each delivery. Over every run the acknowledgements sent are exactly the ones due: none is missing, none is
    sent twice, none goes to a sender that was not registered and connected at that moment.
  */
module Acknowledgements {
  import opened Registry
  import opened Protocol
  import opened Ownership
  import opened Delivery
  import opened History

  /** A direct delivery is acknowledged if the sender was connected when the message was accepted and its own send
      delivered it and reached the sender's listener; a flush, if the sender is connected when it looks it up. */
  ghost predicate Due(steps: seq<Action>, r: Report) {
    if r.byFlush then Ever(steps, FlushAcknowledges(r.tag))
    else Ever(steps, AcceptedFromUp(r.tag)) && Ever(steps, SendAcknowledges(r.tag))
  }

  /** Sends will acknowledge exactly if their sender was connected, and the acknowledgements sent are those due. */
  ghost predicate AcksTraced(steps: seq<Action>) {
    && (forall w | w in Run(steps).workers && Run(steps).workers[w].Sending? ::
          Run(steps).workers[w].ack <==> Ever(steps, AcceptedFromUp(Run(steps).workers[w].node.tag)))
    && (forall r :: r in Run(steps).acks <==> Due(steps, r))
  }

  /** A worker about to acknowledge was there before, or was put there by this step. */
  lemma NewSendingIsNew(s: State, a: Action, w: nat)
    ensures w in Apply(s, a).workers && Apply(s, a).workers[w].Sending? ==>
              || (w in s.workers && s.workers[w] == Apply(s, a).workers[w])
              || (a.DoSend? && SendsNow(s, a, Apply(s, a).workers[w]))
  {
    if !a.DoSend? {
      OthersStartNoSend(s, a, w);
    }
  }

  lemma OthersStartNoSend(s: State, a: Action, w: nat)
    requires !a.DoSend?
    ensures w in Apply(s, a).workers && Apply(s, a).workers[w].Sending? ==>
              w in s.workers && s.workers[w] == Apply(s, a).workers[w]
  {
  }

  predicate SendsNow(s: State, a: Action, w: Worker)
    requires a.DoSend?
  {
    && Accepts(s, a) && w.Sending? && w.ack == s.users[a.sender].connected
    && w.node.tag == |s.accepted| && w.node.msg.sender == a.sender
    && SendStep(s, a.tid, a.sender, a.dest, a.text, a.file, a.attach).accepted
       == s.accepted + [Entry(a.dest, w.node.msg)]
  }

  /** What a step adds to the acknowledgements sent. */
  predicate AcksNow(s: State, a: Action, r: Report) {
    if r.byFlush then Occurs(FlushAcknowledges(r.tag), s, a)
    else Occurs(SendAcknowledges(r.tag), s, a) && s.workers[a.tid].ack
  }

  lemma AckStep(s: State, a: Action, r: Report)
    requires ListsOwnEntries(s)
    ensures r in Apply(s, a).acks <==> r in s.acks || AcksNow(s, a, r)
  {
  }

  /** The messages of a detached list are those accepted under their tags. */
  ghost predicate ListsOwnEntries(s: State) {
    forall w | w in s.workers && !s.workers[w].IsSend() :: forall i | 0 <= i < |s.workers[w].pending| ::
      var n := s.workers[w].pending[i]; n.tag < |s.accepted| && s.accepted[n.tag].msg == n.msg
  }

  lemma OwnedListsOwnEntries(s: State)
    requires OwnInv(s)
    ensures ListsOwnEntries(s)
  {
    forall w | w in s.workers && !s.workers[w].IsSend()
      ensures forall i | 0 <= i < |s.workers[w].pending| ::
                var n := s.workers[w].pending[i]; n.tag < |s.accepted| && s.accepted[n.tag].msg == n.msg
    {
      assert Holds(s.accepted, s.place, s.workers[w].pending, s.workers[w].dest, Detached(w));
    }
  }

  /** What is accepted only now was not accepted before. */
  lemma {:induction false} NotAcceptedTwice(steps: seq<Action>, t: nat)
    requires Ever(steps, AcceptedFromUp(t))
    ensures t < |Run(steps).accepted|
  {
    var i: nat :| OccursAt(steps, i, AcceptedFromUp(t));
    assert OccursAt(steps, i, MessageAccepted(t));
    AcceptedIff(steps, t);
  }

  /** Only what was accepted is sent. */
  lemma NotSentBefore(steps: seq<Action>, t: nat)
    requires Ever(steps, SendAcknowledges(t))
    ensures t < |Run(steps).accepted|
  {
    var i: nat :| OccursAt(steps, i, SendAcknowledges(t));
    assert OccursAt(steps, i, SendDelivers(t));
    ReportedMember(steps, Report(t, false));
    ReportsStaySound(steps);
    assert Report(t, false) in Run(steps).reports;
  }

  lemma FlagsStayTraced(init: seq<Action>, a: Action, w: nat)
    requires AcksTraced(init) && w in Run(init + [a]).workers && Run(init + [a]).workers[w].Sending?
    ensures Run(init + [a]).workers[w].ack <==> Ever(init + [a], AcceptedFromUp(Run(init + [a]).workers[w].node.tag))
  {
    var s := Run(init);
    RunSnoc(init, a);
    var v := Run(init + [a]).workers[w];
    NewSendingIsNew(s, a, w);
    EverSnoc(init, a, AcceptedFromUp(v.node.tag));
    if w in s.workers && s.workers[w] == v {
      AlwaysOwned(init);
    } else if Ever(init, AcceptedFromUp(v.node.tag)) {
      NotAcceptedTwice(init, v.node.tag);
    }
  }

  lemma AcksStayTraced(init: seq<Action>, a: Action, r: Report)
    requires AcksTraced(init)
    ensures r in Run(init + [a]).acks <==> Due(init + [a], r)
  {
    var s := Run(init);
    RunSnoc(init, a);
    AlwaysOwned(init);
    OwnedListsOwnEntries(s);
    AckStep(s, a, r);
    if r.byFlush {
      EverSnoc(init, a, FlushAcknowledges(r.tag));
    } else {
      EverSnoc(init, a, AcceptedFromUp(r.tag));
      EverSnoc(init, a, SendAcknowledges(r.tag));
      if Ever(init, SendAcknowledges(r.tag)) {
        NotSentBefore(init, r.tag);
      }
    }
  }

  lemma {:induction false} AlwaysTraced(steps: seq<Action>)
    ensures AcksTraced(steps)
  {
    if steps == [] {
      forall m ensures !Ever(steps, m) {
        NeverYet(m);
      }
    } else {
      var init, a := steps[..|steps| - 1], steps[|steps| - 1];
      assert steps == init + [a];
      AlwaysTraced(init);
      forall w | w in Run(steps).workers && Run(steps).workers[w].Sending?
        ensures Run(steps).workers[w].ack <==> Ever(steps, AcceptedFromUp(Run(steps).workers[w].node.tag))
      {
        FlagsStayTraced(init, a, w);
      }
      forall r ensures r in Run(steps).acks <==> Due(steps, r) {
        AcksStayTraced(init, a, r);
      }
    }
  }

  /** Exactly the acknowledgements due are sent, each once, over every run: for a direct delivery if and only if the
      sender was connected when the message was accepted and its own send delivered it and reached the sender; for a
      flush if and only if it delivered the message, found the sender connected then, and reached it. */
  lemma AckedIff(steps: seq<Action>, r: Report)
    ensures multiset(Run(steps).acks)[r] == if Due(steps, r) then 1 else 0
  {
    AlwaysTraced(steps);
    ReportsStaySound(steps);
    assert r in Run(steps).acks <==> multiset(Run(steps).acks)[r] > 0;
  }

  /** Only senders that were registered and connected when their message was accepted, or when its flush ended, are
      ever acknowledged, and only for messages reported delivered. */
  lemma OnlyConnectedSendersAcked(steps: seq<Action>, r: Report)
    requires r in Run(steps).acks
    ensures r in Run(steps).reports
    ensures Ever(steps, if r.byFlush then FlushAcknowledges(r.tag) else AcceptedFromUp(r.tag))
  {
    AlwaysTraced(steps);
    ReportsStaySound(steps);
    var s := Run(steps);
    assert multiset(s.acks)[r] <= multiset(s.reports)[r];
  }
}
