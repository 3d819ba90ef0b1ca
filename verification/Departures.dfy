/** Concrete runs in which the obvious claims fail: delivery is not exactly-once, a re-registered
    sender can lose a message, and a failed flush can put a sender's messages out of order.
  */
module Departures {
  import opened Basics
  import opened MessageIds
  import opened Registry
  import opened Protocol
  import opened Loss
  import opened Finality

  const ANA: Name := [97]
  const BEA: Name := [98]
  const HOST: Bytes := [49]

  lemma Then(steps: seq<Action>, a: Action) returns (more: seq<Action>)
    ensures more == steps + [a] && Run(more) == Apply(Run(steps), a)
  {
    RunSnoc(steps, a);
    more := steps + [a];
  }

  function Hello(id: nat): Msg {
    Msg(id, ANA, HOST, [], false)
  }

  const BOTH: State := INIT.(users := map[ANA := BLANK, BEA := BLANK], birth := map[ANA := 0, BEA := 0])

  lemma BothRegistered() returns (steps: seq<Action>)
    ensures Run(steps) == BOTH
  {
    steps := Then([], DoRegister(ANA));
    assert Run(steps) == INIT.(users := map[ANA := BLANK], birth := map[ANA := 0]);
    steps := Then(steps, DoRegister(BEA));
  }

  /** Both users known, and Bea connected. */
  lemma BeaConnected() returns (steps: seq<Action>)
    ensures Run(steps) == BOTH.(users := map[ANA := BLANK, BEA := Record(true, HOST, HOST, 0, [])])
  {
    steps := BothRegistered();
    steps := Then(steps, DoConnect(0, BEA, HOST, HOST));
    assert Cut(HOST, MAX_ADDRESS) == HOST;
  }

  /** Both users known, Bea connected, and Ana's first message to Bea queued with its send in flight. */
  lemma FirstMessageInFlight() returns (steps: seq<Action>)
    ensures
      var s := Run(steps);
      && s.users == map[ANA := Record(false, [], [], 1, []), BEA := Record(true, HOST, HOST, 0, [Node(0, Hello(1))])]
      && s.workers == map[1 := Sending(BEA, Node(0, Hello(1)), false)]
      && s.accepted == [Entry(BEA, Hello(1))] && s.place == [InQueue(BEA)]
      && s.reports == [] && s.gone == {} && s.overtaken == {}
  {
    steps := BeaConnected();
    steps := Then(steps, DoSend(1, ANA, BEA, HOST, [], false));
    assert Compose(1, ANA, HOST, [], false) == Hello(1);
    assert Run(steps).users[ANA] == Record(false, [], [], 1, []);
    assert Run(steps).users[BEA].queue == [Node(0, Hello(1))];
  }

  lemma ReconnectedInFlight() returns (steps: seq<Action>)
    ensures
      var s := Run(steps);
      && s.workers == map[1 := Sending(BEA, Node(0, Hello(1)), false), 2 := Flushing(BEA, [Node(0, Hello(1))])]
      && s.accepted == [Entry(BEA, Hello(1))] && s.reports == [] && s.gone == {}
  {
    steps := FirstMessageInFlight();
    steps := Then(steps, DoDisconnect(BEA, HOST));
    assert Run(steps).users[BEA] == Record(false, [], [], 0, [Node(0, Hello(1))]);
    steps := Then(steps, DoConnect(2, BEA, HOST, HOST));
  }

  /** A clean sender's message can be reported twice: Bea reconnects while its send is in flight. */
  lemma DeliveredTwice() returns (steps: seq<Action>)
    ensures
      var s := Run(steps);
      && Report(0, false) in s.reports && Report(0, true) in s.reports
      && |s.accepted| == 1 && CleanSender(s, ANA)
  {
    steps := ReconnectedInFlight();
    steps := Then(steps, FlushOutcome(2, true));
    assert Run(steps).reports == [Report(0, true)];
    steps := Then(steps, SendOutcome(1, true, true));
    assert Run(steps).reports == [Report(0, true), Report(0, false)];
    assert Run(steps).accepted[..0] == [];
  }

  /** Ana is unregistered and registered anew, with a new counter. */
  lemma Reregistered() returns (steps: seq<Action>)
    ensures
      var s := Run(steps);
      && s.users == map[ANA := BLANK, BEA := Record(true, HOST, HOST, 0, [Node(0, Hello(1))])]
      && s.workers == map[1 := Sending(BEA, Node(0, Hello(1)), false)]
      && s.accepted == [Entry(BEA, Hello(1))] && s.place == [InQueue(BEA)]
      && s.reports == [] && s.gone == {ANA}
  {
    steps := FirstMessageInFlight();
    steps := Then(steps, DoUnregister(ANA));
    assert Run(steps).place == [InQueue(BEA)];
    steps := Then(steps, DoRegister(ANA));
  }

  /** She sends again: two queued messages with one id, both sends in flight. */
  lemma SameIdInFlight() returns (steps: seq<Action>)
    ensures
      var s := Run(steps);
      && BEA in s.users && s.users[BEA].queue == [Node(0, Hello(1)), Node(1, Hello(1))]
      && s.workers == map[1 := Sending(BEA, Node(0, Hello(1)), false), 2 := Sending(BEA, Node(1, Hello(1)), false)]
      && s.accepted == [Entry(BEA, Hello(1)), Entry(BEA, Hello(1))]
      && s.place == [InQueue(BEA), InQueue(BEA)] && s.reports == [] && s.gone == {ANA}
  {
    steps := Reregistered();
    steps := Then(steps, DoSend(2, ANA, BEA, HOST, [], false));
    assert Compose(1, ANA, HOST, [], false) == Hello(1);
  }

  /** The second send is delivered and removes the first message's node, as that has its key. */
  lemma WrongNodeRemoved() returns (steps: seq<Action>)
    ensures
      var s := Run(steps);
      && BEA in s.users && s.users[BEA].queue == [Node(1, Hello(1))]
      && s.workers == map[1 := Sending(BEA, Node(0, Hello(1)), false)]
      && s.accepted == [Entry(BEA, Hello(1)), Entry(BEA, Hello(1))]
      && s.place == [RemovedBy(1), InQueue(BEA)] && s.reports == [Report(1, false)] && s.gone == {ANA}
  {
    steps := SameIdInFlight();
    steps := Then(steps, SendOutcome(2, true, true));
    assert Run(steps).reports == [Report(1, false)];
    assert FirstMatch([Node(0, Hello(1)), Node(1, Hello(1))], Hello(1)) == 0;
    steps := Then(steps, Settle(2));
    assert Run(steps).place == [RemovedBy(1), InQueue(BEA)];
    assert Run(steps).workers == map[1 := Sending(BEA, Node(0, Hello(1)), false)];
  }

  /** Then the first message's own delivery fails. */
  lemma OwnDeliveryFails() returns (steps: seq<Action>)
    ensures
      var s := Run(steps);
      && s.accepted == [Entry(BEA, Hello(1)), Entry(BEA, Hello(1))] && s.place == [RemovedBy(1), InQueue(BEA)]
      && s.reports == [Report(1, false)] && s.gone == {ANA} && s.workers == map[]
  {
    steps := WrongNodeRemoved();
    steps := Then(steps, SendOutcome(1, false, false));
    assert Run(steps).workers == map[1 := Settling(BEA, Node(0, Hello(1)), false)];
    steps := Then(steps, Settle(1));
    assert Run(steps).workers == map[];
  }

  /** A message of a re-registered sender can be lost for good though its recipient was never unregistered: its node was
      removed by the send of a later message that was given the same id. */
  lemma ReusedIdLosesMessage() returns (steps: seq<Action>)
    ensures
      var s := Run(steps);
      && |s.accepted| == 2 && KeyOf(s.accepted[0].msg) == KeyOf(s.accepted[1].msg)
      && BEA !in s.gone && s.workers == map[]
    ensures forall more: seq<Action> :: !Present(Run(steps + more), 0)
  {
    steps := OwnDeliveryFails();
    assert LostForGood(Run(steps), 0);
    LostForGoodIff(steps, 0);
  }

  /** Ana's first message to Bea, who is not connected, is queued. */
  lemma OneQueued() returns (steps: seq<Action>)
    ensures
      var s := Run(steps);
      && s.users == map[ANA := Record(false, [], [], 1, []), BEA := Record(false, [], [], 0, [Node(0, Hello(1))])]
      && s.workers == map[] && s.accepted == [Entry(BEA, Hello(1))] && s.gone == {}
  {
    steps := BothRegistered();
    steps := Then(steps, DoSend(0, ANA, BEA, HOST, [], false));
    assert NextId(0) == 1 && Compose(1, ANA, HOST, [], false) == Hello(1);
    assert [] + [Node(0, Hello(1))] == [Node(0, Hello(1))] && [] + [Entry(BEA, Hello(1))] == [Entry(BEA, Hello(1))];
  }

  /** Ana's first message to Bea, who was not connected, is being flushed. */
  lemma FlushUnderWay() returns (steps: seq<Action>)
    ensures
      var s := Run(steps);
      && s.users == map[ANA := Record(false, [], [], 1, []), BEA := Record(true, HOST, HOST, 0, [])]
      && s.workers == map[1 := Flushing(BEA, [Node(0, Hello(1))])]
      && s.accepted == [Entry(BEA, Hello(1))] && s.gone == {}
  {
    steps := OneQueued();
    steps := Then(steps, DoConnect(1, BEA, HOST, HOST));
  }

  /** Her second message is queued while the first is still detached. */
  lemma SecondOvertakes() returns (steps: seq<Action>)
    ensures
      var s := Run(steps);
      && BEA in s.users && s.users[BEA].queue == [Node(1, Hello(2))]
      && 1 in s.workers && s.workers[1] == Flushing(BEA, [Node(0, Hello(1))])
      && s.accepted == [Entry(BEA, Hello(1)), Entry(BEA, Hello(2))] && s.gone == {}
  {
    steps := FlushUnderWay();
    assert NextId(1) == 2 && Compose(2, ANA, HOST, [], false) == Hello(2);
    var s := Run(steps);
    steps := Then(steps, DoSend(2, ANA, BEA, HOST, [], false));
    assert Run(steps).users ==
      s.users[ANA := s.users[ANA].(lastId := 2)][BEA := s.users[BEA].(queue := [] + [Node(1, Hello(2))])];
    assert Run(steps).workers == s.workers[2 := Sending(BEA, Node(1, Hello(2)), false)];
  }

  lemma TwoOfAna(log: seq<Entry>)
    requires log == [Entry(BEA, Hello(1)), Entry(BEA, Hello(2))]
    ensures Assigned(log, ANA) == 2
  {
    var one := log[..1];
    assert one == [Entry(BEA, Hello(1))] && one[..0] == [];
    assert Assigned(one, ANA) == 1;
  }

  /** After a failed flush an older message can stand behind a newer one of the same sender. */
  lemma {:induction false} FailedFlushReorders() returns (steps: seq<Action>)
    ensures
      var s := Run(steps);
      && BEA in s.users && CleanSender(s, ANA)
      && Tags(s.users[BEA].queue) == [1, 0]
      && s.users[BEA].queue[0].msg.id == 2 && s.users[BEA].queue[1].msg.id == 1
  {
    steps := SecondOvertakes();
    TwoOfAna(Run(steps).accepted);
    steps := Then(steps, FlushOutcome(1, false));
    steps := Then(steps, GiveBack(1));
    assert Run(steps).users[BEA].queue == [Node(1, Hello(2)), Node(0, Hello(1))];
  }
}
