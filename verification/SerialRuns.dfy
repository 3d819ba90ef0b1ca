/** Serialised runs: when every handler finishes before the next one starts, delivery is exactly-once
    and first-in first-out, and a connected user's queue is empty between operations.

    An operation is a block of the protocol's own steps, so a serialised run is one of its runs.
  */
module SerialRuns {
  import opened Basics
  import opened MessageIds
  import opened Registry
  import opened Protocol

  /** Whether a delivery succeeds, and whether its acknowledgement does. */
  datatype Net = Net(ok: bool, ack: bool)

  /** A request together with what the network answers while it is served. */
  datatype Operation =
    | RegisterOp(name: Name)
    | UnregisterOp(name: Name)
    | ConnectOp(name: Name, ip: Bytes, port: Bytes, nets: seq<Net>)
    | DisconnectOp(name: Name, ip: Bytes)
    | SendOp(sender: Name, dest: Name, text: Bytes, file: Bytes, attach: bool, net: Net)

  /** One turn of the flush loop. */
  function Round(net: Net): seq<Action> {
    [FlushOutcome(0, net.ok), if net.ok then AckFlushed(0, net.ack) else GiveBack(0)]
  }

  function Rounds(nets: seq<Net>): seq<Action> {
    if nets == [] then [] else Rounds(nets[..|nets| - 1]) + Round(nets[|nets| - 1])
  }

  function Steps(op: Operation): seq<Action> {
    match op
    case RegisterOp(n) => [DoRegister(n)]
    case UnregisterOp(n) => [DoUnregister(n)]
    case ConnectOp(n, ip, port, nets) => [DoConnect(0, n, ip, port)] + Rounds(nets)
    case DisconnectOp(n, ip) => [DoDisconnect(n, ip)]
    case SendOp(sender, dest, text, file, attach, net) =>
      [DoSend(0, sender, dest, text, file, attach), SendOutcome(0, net.ok, net.ack), Settle(0)]
  }

  function AllSteps(ops: seq<Operation>): seq<Action> {
    if ops == [] then [] else AllSteps(ops[..|ops| - 1]) + Steps(ops[|ops| - 1])
  }

  /** Every operation had its handler finish. */
  ghost predicate Serialised(ops: seq<Operation>) {
    Run(AllSteps(ops)).workers == map[] && (ops == [] || Serialised(ops[..|ops| - 1]))
  }

  // ---- Per-recipient logs since the recipient was last registered.

  /** Tags of the messages accepted for `n` from tag `from` on, in order. */
  function AcceptedSince(log: seq<Entry>, from: nat, n: Name): seq<nat> {
    if |log| <= from then []
    else AcceptedSince(log[..|log| - 1], from, n) + if log[|log| - 1].dest == n then [|log| - 1] else []
  }

  /** Tags of the reported deliveries to `n` of those messages, in the order they were reported. */
  function DeliveredSince(reports: seq<Report>, log: seq<Entry>, from: nat, n: Name): seq<nat> {
    if reports == [] then []
    else
      var t := reports[|reports| - 1].tag;
      DeliveredSince(reports[..|reports| - 1], log, from, n)
        + if from <= t < |log| && log[t].dest == n then [t] else []
  }

  lemma AcceptedSnoc(log: seq<Entry>, e: Entry, from: nat, n: Name)
    ensures AcceptedSince(log + [e], from, n)
         == AcceptedSince(log, from, n) + if from <= |log| && e.dest == n then [|log|] else []
  {
    SnocParts(log, e);
    if |log| < from {
      assert AcceptedSince(log, from, n) == [];
    }
  }

  lemma DeliveredSnoc(reports: seq<Report>, r: Report, log: seq<Entry>, from: nat, n: Name)
    ensures DeliveredSince(reports + [r], log, from, n)
         == DeliveredSince(reports, log, from, n) +
            if from <= r.tag < |log| && log[r.tag].dest == n then [r.tag] else []
  {
    SnocParts(reports, r);
  }

  predicate Known(reports: seq<Report>, log: seq<Entry>) {
    forall i | 0 <= i < |reports| :: reports[i].tag < |log|
  }

  lemma {:induction false} DeliveredGrownLog(reports: seq<Report>, log: seq<Entry>, e: Entry, from: nat, n: Name)
    requires Known(reports, log)
    ensures DeliveredSince(reports, log + [e], from, n) == DeliveredSince(reports, log, from, n)
  {
    if reports != [] {
      DeliveredGrownLog(reports[..|reports| - 1], log, e, from, n);
    }
  }

  lemma {:induction false} NothingDeliveredYet(reports: seq<Report>, log: seq<Entry>, n: Name)
    requires Known(reports, log)
    ensures DeliveredSince(reports, log, |log|, n) == []
  {
    if reports != [] {
      NothingDeliveredYet(reports[..|reports| - 1], log, n);
    }
  }

  /** reported deliveries ++ what is still held == accepted messages. */
  predicate Fifo(s: State, n: Name, held: seq<Node>)
    requires n in s.birth
  {
    DeliveredSince(s.reports, s.accepted, s.birth[n], n) + Tags(held) == AcceptedSince(s.accepted, s.birth[n], n)
  }

  /** The state between operations, but for the user `except`. */
  ghost predicate Between(s: State, except: set<Name>) {
    && Known(s.reports, s.accepted)
    && (forall n | n in s.users :: n in s.birth && s.birth[n] <= |s.accepted|)
    && (forall n | n in s.users && n !in except ::
          Fifo(s, n, s.users[n].queue) && (s.users[n].connected ==> s.users[n].queue == []))
  }

  ghost predicate Idle(s: State) {
    s.workers == map[] && Between(s, {})
  }

  /** The flush of user n holds the rest of the messages. */
  ghost predicate MidFlush(s: State, n: Name) {
    && Between(s, {n})
    && n in s.users && s.users[n].connected && s.users[n].queue == []
    && 0 in s.workers && s.workers[0].Flushing? && s.workers[0].dest == n && s.workers[0].pending != []
    && s.workers == map[0 := s.workers[0]]
    && Fifo(s, n, s.workers[0].pending)
  }

  lemma {:induction false} AcceptedRange(log: seq<Entry>, from: nat, n: Name, t: nat)
    requires t in AcceptedSince(log, from, n)
    ensures from <= t < |log| && log[t].dest == n
  {
    if t in AcceptedSince(log[..|log| - 1], from, n) {
      AcceptedRange(log[..|log| - 1], from, n, t);
    }
  }

  lemma HeldRange(s: State, n: Name, held: seq<Node>, i: nat)
    requires n in s.birth && Fifo(s, n, held) && i < |held|
    ensures s.birth[n] <= held[i].tag < |s.accepted| && s.accepted[held[i].tag].dest == n
  {
    assert Tags(held)[i] in AcceptedSince(s.accepted, s.birth[n], n) by {
      var d := DeliveredSince(s.reports, s.accepted, s.birth[n], n);
      assert (d + Tags(held))[|d| + i] == held[i].tag;
    }
    AcceptedRange(s.accepted, s.birth[n], n, held[i].tag);
  }

  // ---- Each operation, step by step.

  lemma PlainOps(s: State, n: Name, ip: Bytes)
    requires Idle(s)
    ensures Idle(UnregisterStep(s, n))
    ensures Idle(s.(users := Disconnect(s.users, n, ip).users))
  {
  }

  lemma RegisterIdle(s: State, n: Name)
    requires Idle(s)
    ensures Idle(RegisterStep(s, n))
  {
    if n !in s.users {
      var s' := RegisterStep(s, n);
      NothingDeliveredYet(s.reports, s.accepted, n);
      assert AcceptedSince(s.accepted, |s.accepted|, n) == [];
      assert Fifo(s', n, []);
      forall m | m in s'.users ensures Fifo(s', m, s'.users[m].queue) {
        if m != n {
          assert Fifo(s, m, s.users[m].queue);
        }
      }
    }
  }

  lemma ConnectMid(s: State, n: Name, ip: Bytes, port: Bytes)
    requires Idle(s)
    ensures var s' := ConnectStep(s, 0, n, ip, port); Idle(s') || MidFlush(s', n)
  {
    if n in s.users && !s.users[n].connected {
      var s' := ConnectStep(s, 0, n, ip, port);
      assert Fifo(s, n, s.users[n].queue);
      assert s'.users[n].queue == [];
      assert forall m | m in s'.users && m != n :: s'.users[m] == s.users[m];
      if s.users[n].queue == [] {
        assert Fifo(s', n, s'.users[n].queue);
      } else {
        assert Fifo(s', n, s'.workers[0].pending);
      }
    }
  }

  /** A report of the first held message leaves the rest held. */
  lemma HeadReported(s: State, s': State, n: Name, held: seq<Node>, byFlush: bool)
    requires n in s.birth && s'.birth == s.birth && s'.accepted == s.accepted
    requires held != [] && Fifo(s, n, held) && s'.reports == s.reports + [Report(held[0].tag, byFlush)]
    ensures Fifo(s', n, held[1..])
  {
    var r := Report(held[0].tag, byFlush);
    HeldRange(s, n, held, 0);
    DeliveredSnoc(s.reports, r, s.accepted, s.birth[n], n);
    HeadMoves(DeliveredSince(s.reports, s.accepted, s.birth[n], n), held);
  }

  lemma HeadMoves(d: seq<nat>, held: seq<Node>)
    requires held != []
    ensures d + Tags(held) == (d + [held[0].tag]) + Tags(held[1..])
  {
    assert Tags(held) == [held[0].tag] + Tags(held[1..]);
  }

  /** A report to one user is none to another. */
  lemma OthersUnreported(s: State, s': State, n: Name, held: seq<Node>, byFlush: bool, m: Name, mine: seq<Node>)
    requires n in s.birth && m in s.birth && m != n && s'.birth == s.birth && s'.accepted == s.accepted
    requires held != [] && Fifo(s, n, held) && s'.reports == s.reports + [Report(held[0].tag, byFlush)]
    requires Fifo(s, m, mine)
    ensures Fifo(s', m, mine)
  {
    HeldRange(s, n, held, 0);
    DeliveredSnoc(s.reports, Report(held[0].tag, byFlush), s.accepted, s.birth[m], m);
  }

  lemma RoundDelivered(s: State, n: Name, ack: bool)
    requires MidFlush(s, n)
    ensures var s' := AckFlushedStep(FlushOutcomeStep(s, 0, true), 0, ack);
      Idle(s') || (MidFlush(s', n) && |s'.workers[0].pending| + 1 == |s.workers[0].pending|)
  {
    var p := s.workers[0].pending;
    var s1 := FlushOutcomeStep(s, 0, true);
    var s' := AckFlushedStep(s1, 0, ack);
    assert s'.users == s.users && s'.reports == s.reports + [Report(p[0].tag, true)];
    HeldRange(s, n, p, 0);
    HeadReported(s, s', n, p, true);
    forall m | m in s'.users && m != n ensures Fifo(s', m, s'.users[m].queue) {
      OthersUnreported(s, s', n, p, true, m, s.users[m].queue);
    }
    if |p| == 1 {
      assert p[1..] == [] == s'.users[n].queue;
      assert s'.workers == map[];
    } else {
      assert s'.workers == map[0 := Flushing(n, p[1..])];
    }
  }

  lemma RoundFailed(s: State, n: Name)
    requires MidFlush(s, n)
    ensures Idle(GiveBackStep(FlushOutcomeStep(s, 0, false), 0))
  {
    var p := s.workers[0].pending;
    var s1 := FlushOutcomeStep(s, 0, false);
    var s' := GiveBackStep(s1, 0);
    assert s1.workers == map[0 := GivingUp(n, p)];
    assert [] + p == p;
    assert s'.users == s.users[n := s.users[n].(connected := false, ip := [], port := [], queue := p)];
    assert Fifo(s', n, s'.users[n].queue);
  }

  /** An accepted message goes to the end of what is held for its recipient, and changes nothing for the others. */
  lemma OneMoreAccepted(s: State, s': State, e: Entry, m: Name, held: seq<Node>, held': seq<Node>)
    requires m in s.birth && s.birth[m] <= |s.accepted| && Known(s.reports, s.accepted) && Fifo(s, m, held)
    requires s'.accepted == s.accepted + [e] && s'.reports == s.reports && s'.birth == s.birth
    requires held' == if m == e.dest then held + [Node(|s.accepted|, e.msg)] else held
    ensures Fifo(s', m, held')
  {
    AcceptedSnoc(s.accepted, e, s.birth[m], m);
    DeliveredGrownLog(s.reports, s.accepted, e, s.birth[m], m);
    if m == e.dest {
      var d, tag := DeliveredSince(s.reports, s.accepted, s.birth[m], m), |s.accepted|;
      assert Tags(held') == Tags(held) + [tag];
      assert d + (Tags(held) + [tag]) == (d + Tags(held)) + [tag];
    }
  }

  /** Everything the rest of a send to a connected user needs to know of the state after its first section. */
  ghost predicate MidSend(s: State, dest: Name, node: Node) {
    && Between(s, {dest})
    && dest in s.users && s.users[dest].queue == [node] && s.users[dest].connected && Fifo(s, dest, [node])
    && 0 in s.workers && s.workers[0].Sending? && s.workers[0].dest == dest && s.workers[0].node == node
    && s.workers == map[0 := s.workers[0]]
  }

  /** The first section of a send to a known user, seen from the state before it. */
  ghost predicate StoresOne(s: State, s': State, dest: Name, node: Node, ack: bool) {
    && dest in s.users && node.tag == |s.accepted|
    && s'.accepted == s.accepted + [Entry(dest, node.msg)] && s'.reports == s.reports && s'.birth == s.birth
    && s'.users.Keys == s.users.Keys
    && (forall m | m in s.users :: s'.users[m].connected == s.users[m].connected)
    && (forall m | m in s.users ::
          s'.users[m].queue == if m == dest then s.users[m].queue + [node] else s.users[m].queue)
    && s'.workers == if s.users[dest].connected then s.workers[0 := Sending(dest, node, ack)] else s.workers
  }

  lemma SendStoresOne(s: State, sender: Name, dest: Name, text: Bytes, file: Bytes, attach: bool)
    requires sender in s.users && dest in s.users && 0 !in s.workers
    ensures var node := Node(|s.accepted|, Compose(NextId(s.users[sender].lastId), sender, text, file, attach));
            StoresOne(s, SendStep(s, 0, sender, dest, text, file, attach), dest, node, s.users[sender].connected)
  {
  }

  lemma StoredKeepsFifo(s: State, s': State, dest: Name, node: Node, ack: bool, m: Name)
    requires Idle(s) && StoresOne(s, s', dest, node, ack) && m in s.users
    ensures m in s'.birth && s'.birth[m] <= |s'.accepted| && Fifo(s', m, s'.users[m].queue)
    ensures s'.users[m].connected && m != dest ==> s'.users[m].queue == []
  {
    OneMoreAccepted(s, s', Entry(dest, node.msg), m, s.users[m].queue, s'.users[m].queue);
  }

  lemma StoredBetween(s: State, s': State, dest: Name, node: Node, ack: bool)
    requires Idle(s) && StoresOne(s, s', dest, node, ack)
    ensures Between(s', {dest}) && Fifo(s', dest, s'.users[dest].queue)
    ensures !s.users[dest].connected ==> Between(s', {})
  {
    forall m | m in s'.users
      ensures m in s'.birth && s'.birth[m] <= |s'.accepted| && Fifo(s', m, s'.users[m].queue)
      ensures s'.users[m].connected && m != dest ==> s'.users[m].queue == []
    {
      StoredKeepsFifo(s, s', dest, node, ack, m);
    }
  }

  lemma StoredIdleOrMid(s: State, s': State, dest: Name, node: Node, ack: bool)
    requires Idle(s) && StoresOne(s, s', dest, node, ack)
    ensures if s.users[dest].connected then MidSend(s', dest, node) else Idle(s')
  {
    StoredBetween(s, s', dest, node, ack);
    if s.users[dest].connected {
      assert s'.users[dest].queue == [] + [node] == [node];
    }
  }

  lemma MidSendSettles(s: State, dest: Name, node: Node, ok: bool, ack: bool)
    requires MidSend(s, dest, node)
    ensures Idle(SettleStep(SendOutcomeStep(s, 0, ok, ack), 0))
  {
    if ok {
      SendDelivered(s, dest, node, ack);
    } else {
      SendFailed(s, dest, node, ack);
    }
  }

  lemma SendDelivered(s: State, dest: Name, node: Node, ack: bool)
    requires MidSend(s, dest, node)
    ensures Idle(SettleStep(SendOutcomeStep(s, 0, true, ack), 0))
  {
    var s1 := SendOutcomeStep(s, 0, true, ack);
    var s' := SettleStep(s1, 0);
    assert s1.workers == map[0 := Settling(dest, node, true)] && s1.users == s.users;
    RemovesOnlyNode(s.users, dest, node);
    HeldRange(s, dest, [node], 0);
    HeadReported(s, s', dest, [node], false);
    forall m | m in s.users && m != dest ensures Fifo(s', m, s.users[m].queue) {
      OthersUnreported(s, s', dest, [node], false, m, s.users[m].queue);
    }
  }

  lemma RemovesOnlyNode(us: Users, dest: Name, node: Node)
    requires dest in us && us[dest].queue == [node]
    ensures Remove(us, dest, node.msg) == us[dest := us[dest].(queue := [])]
    ensures FirstMatch([node], node.msg) == 0 && [node][1..] == []
  {
    assert FirstMatch([node], node.msg) == 0;
    assert Without([node], 0) == [];
  }

  lemma SendFailed(s: State, dest: Name, node: Node, ack: bool)
    requires MidSend(s, dest, node)
    ensures Idle(SettleStep(SendOutcomeStep(s, 0, false, ack), 0))
  {
    var s1 := SendOutcomeStep(s, 0, false, ack);
    var s' := SettleStep(s1, 0);
    assert s1.workers == map[0 := Settling(dest, node, false)];
    assert s'.users == s.users[dest := s.users[dest].(connected := false, ip := [], port := [])];
    assert Fifo(s', dest, [node]);
  }

  // ---- Blocks of steps.

  lemma {:induction false} ApplyBlock(s: State, a: seq<Action>, b: seq<Action>)
    ensures RunOn(s, a + b) == RunOn(RunOn(s, a), b)
  {
    if b == [] {
      assert a + b == a;
    } else {
      var init := b[..|b| - 1];
      ApplyBlock(s, a, init);
      assert (a + b)[..|a + b| - 1] == a + init;
      assert RunOn(s, a + b) == Apply(RunOn(s, a + init), b[|b| - 1]);
    }
  }

  lemma ApplyOne(s: State, a: Action)
    ensures RunOn(s, [a]) == Apply(s, a)
  {
    assert [a][..0] == [];
  }

  lemma ApplyTwo(s: State, a: Action, b: Action)
    ensures RunOn(s, [a, b]) == Apply(Apply(s, a), b)
  {
    assert [a, b] == [a] + [b];
    ApplyBlock(s, [a], [b]);
    ApplyOne(s, a);
    ApplyOne(Apply(s, a), b);
  }

  lemma ApplyThree(s: State, a: Action, b: Action, c: Action)
    ensures RunOn(s, [a, b, c]) == Apply(Apply(Apply(s, a), b), c)
  {
    assert [a, b, c] == [a] + [b, c];
    ApplyBlock(s, [a], [b, c]);
    ApplyOne(s, a);
    ApplyTwo(Apply(s, a), b, c);
  }

  /** How many deliveries a flush still has before it. */
  function Left(s: State): nat {
    if 0 in s.workers && !s.workers[0].IsSend() then |s.workers[0].pending| else 0
  }

  lemma RoundIs(s: State, net: Net)
    ensures RunOn(s, Round(net)) == if net.ok then AckFlushedStep(FlushOutcomeStep(s, 0, true), 0, net.ack)
                                       else GiveBackStep(FlushOutcomeStep(s, 0, false), 0)
  {
    ApplyTwo(s, Round(net)[0], Round(net)[1]);
    assert Round(net) == [Round(net)[0], Round(net)[1]];
  }

  lemma RoundKeeps(s: State, n: Name, net: Net)
    requires Idle(s) || MidFlush(s, n)
    ensures var s' := RunOn(s, Round(net));
            Idle(s') || (MidFlush(s, n) && MidFlush(s', n) && Left(s') + 1 == Left(s))
  {
    RoundIs(s, net);
    if MidFlush(s, n) {
      if net.ok {
        RoundDelivered(s, n, net.ack);
      } else {
        RoundFailed(s, n);
      }
    }
  }

  /** A flush stays in order, and is over after at most as many rounds as it has messages. */
  lemma {:induction false} RoundsKeep(s: State, n: Name, nets: seq<Net>)
    requires Idle(s) || MidFlush(s, n)
    ensures var s' := RunOn(s, Rounds(nets)); Idle(s') || (MidFlush(s', n) && Left(s') + |nets| == Left(s))
  {
    if nets != [] {
      var init, net := nets[..|nets| - 1], nets[|nets| - 1];
      RoundsKeep(s, n, init);
      ApplyBlock(s, Rounds(init), Round(net));
      var mid := RunOn(s, Rounds(init));
      RoundKeeps(mid, n, net);
    }
  }

  lemma ConnectKeeps(s: State, n: Name, ip: Bytes, port: Bytes, nets: seq<Net>)
    requires Idle(s)
    ensures var s' := RunOn(s, Steps(ConnectOp(n, ip, port, nets)));
      && (s'.workers == map[] ==> Idle(s'))
      && (Answered(s, ConnectOp(n, ip, port, nets)) ==> s'.workers == map[])
  {
    ApplyBlock(s, [DoConnect(0, n, ip, port)], Rounds(nets));
    ApplyOne(s, DoConnect(0, n, ip, port));
    ConnectMid(s, n, ip, port);
    RoundsKeep(ConnectStep(s, 0, n, ip, port), n, nets);
  }

  lemma SendKeeps(s: State, sender: Name, dest: Name, text: Bytes, file: Bytes, attach: bool, net: Net)
    requires Idle(s)
    ensures Idle(RunOn(s, Steps(SendOp(sender, dest, text, file, attach, net))))
  {
    var send, outcome, settle :=
      DoSend(0, sender, dest, text, file, attach), SendOutcome(0, net.ok, net.ack), Settle(0);
    ApplyThree(s, send, outcome, settle);
    SendSettles(s, sender, dest, text, file, attach, net.ok, net.ack);
  }

  lemma SendSettles(s: State, sender: Name, dest: Name, text: Bytes, file: Bytes, attach: bool, ok: bool, ack: bool)
    requires Idle(s)
    ensures var s1 := SendStep(s, 0, sender, dest, text, file, attach);
            Idle(SettleStep(SendOutcomeStep(s1, 0, ok, ack), 0))
  {
    var s1 := SendStep(s, 0, sender, dest, text, file, attach);
    if sender in s.users && dest in s.users {
      var node := Node(|s.accepted|, Compose(NextId(s.users[sender].lastId), sender, text, file, attach));
      SendStoresOne(s, sender, dest, text, file, attach);
      StoredIdleOrMid(s, s1, dest, node, s.users[sender].connected);
      if s.users[dest].connected {
        MidSendSettles(s1, dest, node, ok, ack);
      }
    }
  }

  /** The network's answers do not run out before the operation is over. */
  predicate Answered(s: State, op: Operation) {
    op.ConnectOp? && op.name in s.users ==> |op.nets| >= |s.users[op.name].queue|
  }

  lemma OperationKeeps(s: State, op: Operation)
    requires Idle(s)
    ensures var s' := RunOn(s, Steps(op));
            (s'.workers == map[] ==> Idle(s')) && (Answered(s, op) ==> s'.workers == map[])
  {
    match op
    case RegisterOp(n) =>
      ApplyOne(s, DoRegister(n));
      RegisterIdle(s, n);
    case UnregisterOp(n) =>
      ApplyOne(s, DoUnregister(n));
      PlainOps(s, n, []);
    case DisconnectOp(n, ip) =>
      ApplyOne(s, DoDisconnect(n, ip));
      PlainOps(s, n, ip);
    case ConnectOp(n, ip, port, nets) => ConnectKeeps(s, n, ip, port, nets);
    case SendOp(sender, dest, text, file, attach, net) => SendKeeps(s, sender, dest, text, file, attach, net);
  }

  /** Exactly-once, first-in first-out: for every recipient, what was reported delivered since it was
      last registered, followed by its queue, is what was accepted for it, in order; and a connected
      recipient has nothing queued. */
  lemma {:induction false} ExactlyOnceInOrder(ops: seq<Operation>)
    requires Serialised(ops)
    ensures
      var s := Run(AllSteps(ops));
      forall n | n in s.users ::
        && n in s.birth
        && DeliveredSince(s.reports, s.accepted, s.birth[n], n) + Tags(s.users[n].queue)
           == AcceptedSince(s.accepted, s.birth[n], n)
        && (s.users[n].connected ==> s.users[n].queue == [])
    ensures Idle(Run(AllSteps(ops)))
  {
    if ops != [] {
      var init, op := ops[..|ops| - 1], ops[|ops| - 1];
      ExactlyOnceInOrder(init);
      RunBlock(AllSteps(init), Steps(op));
      OperationKeeps(Run(AllSteps(init)), op);
    }
  }

  /** Any operation can come next, and its handler finishes: a flush needs no more answers of the network than the
      queue it found has messages. */
  lemma EveryHandlerFinishes(ops: seq<Operation>, op: Operation)
    requires Serialised(ops) && Answered(Run(AllSteps(ops)), op)
    ensures Serialised(ops + [op])
  {
    ExactlyOnceInOrder(ops);
    SnocParts(ops, op);
    RunBlock(AllSteps(ops), Steps(op));
    OperationKeeps(Run(AllSteps(ops)), op);
    assert (ops + [op])[..|ops + [op]| - 1] == ops;
  }
}
