/** What each whole operation of a serialised run does: what is accepted, reported and acknowledged, and who holds what
    afterwards. A send to a connected user is delivered or disconnects the user; a CONNECT delivers its queue up to the
    first failure.
  */
module SerialEffects {
  import opened Basics
  import opened MessageIds
  import opened Registry
  import opened Protocol
  import opened History
  import opened SerialRuns

  // ---- A send.

  /** The whole effect of a send between known users, as message number |s.accepted|. */
  ghost predicate Sent(s: State, s': State, sender: Name, dest: Name, msg: Msg, net: Net)
    requires sender in s.users && dest in s.users
  {
    var t, up := |s.accepted|, s.users[dest].connected;
    && s'.accepted == s.accepted + [Entry(dest, msg)]
    && s'.reports == s.reports + (if up && net.ok then [Report(t, false)] else [])
    && s'.acks == s.acks + (if up && net.ok && net.ack && s.users[sender].connected then [Report(t, false)] else [])
    && s'.users.Keys == s.users.Keys
    && s'.users[dest].queue == s.users[dest].queue + (if up && net.ok then [] else [Node(t, msg)])
    && (s'.users[dest].connected <==> up && net.ok)
    && (forall m | m in s.users && m != dest ::
          s'.users[m].queue == s.users[m].queue && s'.users[m].connected == s.users[m].connected)
  }

  lemma SendIsSent(s: State, sender: Name, dest: Name, text: Bytes, file: Bytes, attach: bool, net: Net)
    requires Idle(s) && sender in s.users && dest in s.users
    ensures var s1 := SendStep(s, 0, sender, dest, text, file, attach);
            var s' := SettleStep(SendOutcomeStep(s1, 0, net.ok, net.ack), 0);
            Sent(s, s', sender, dest, Compose(NextId(s.users[sender].lastId), sender, text, file, attach), net)
  {
    var s1 := SendStep(s, 0, sender, dest, text, file, attach);
    var node := Node(|s.accepted|, Compose(NextId(s.users[sender].lastId), sender, text, file, attach));
    SendStoresOne(s, sender, dest, text, file, attach);
    SendLogsNothing(s, sender, dest, text, file, attach);
    StoredIsSent(s, s1, sender, dest, node, net);
  }

  lemma SendLogsNothing(s: State, sender: Name, dest: Name, text: Bytes, file: Bytes, attach: bool)
    ensures SendStep(s, 0, sender, dest, text, file, attach).acks == s.acks
  {
  }

  lemma StoredIsSent(s: State, s1: State, sender: Name, dest: Name, node: Node, net: Net)
    requires Idle(s) && sender in s.users && dest in s.users && s1.acks == s.acks
    requires StoresOne(s, s1, dest, node, s.users[sender].connected)
    ensures Sent(s, SettleStep(SendOutcomeStep(s1, 0, net.ok, net.ack), 0), sender, dest, node.msg, net)
  {
    if s.users[dest].connected {
      assert s1.users[dest].queue == [] + [node] == [node];
      TriedIsSent(s1, dest, node, s.users[sender].connected, net);
    } else {
      assert SendOutcomeStep(s1, 0, net.ok, net.ack) == s1;
    }
  }

  /** The rest of a send to a connected user. */
  lemma TriedIsSent(s: State, dest: Name, node: Node, ack: bool, net: Net)
    requires s.workers == map[0 := Sending(dest, node, ack)]
    requires dest in s.users && s.users[dest].queue == [node] && s.users[dest].connected
    ensures var s' := SettleStep(SendOutcomeStep(s, 0, net.ok, net.ack), 0);
      && s'.accepted == s.accepted && s'.users.Keys == s.users.Keys
      && s'.reports == s.reports + (if net.ok then [Report(node.tag, false)] else [])
      && s'.acks == s.acks + (if net.ok && net.ack && ack then [Report(node.tag, false)] else [])
      && s'.users[dest].queue == (if net.ok then [] else [node])
      && (s'.users[dest].connected <==> net.ok)
      && (forall m | m in s.users && m != dest :: s'.users[m] == s.users[m])
  {
    var s1 := SendOutcomeStep(s, 0, net.ok, net.ack);
    assert s1.workers == map[0 := Settling(dest, node, net.ok)] && s1.users == s.users;
    RemovesOnlyNode(s.users, dest, node);
  }

  lemma SendInTurn(s: State, sender: Name, dest: Name, text: Bytes, file: Bytes, attach: bool, net: Net)
    ensures var s1 := SendStep(s, 0, sender, dest, text, file, attach);
            RunOn(s, Steps(SendOp(sender, dest, text, file, attach, net))) ==
            SettleStep(SendOutcomeStep(s1, 0, net.ok, net.ack), 0)
  {
    ApplyThree(s, DoSend(0, sender, dest, text, file, attach), SendOutcome(0, net.ok, net.ack), Settle(0));
  }

  /** One serialised send: unknown users change nothing; a connected recipient is sent the message at once, and if it
      takes it there is exactly one report, and exactly one acknowledgement if the sender is connected and takes it;
      otherwise the message is queued behind what is there, and the recipient is disconnected. */
  lemma SendEffect(ops: seq<Operation>, sender: Name, dest: Name, text: Bytes, file: Bytes, attach: bool, net: Net)
    requires Serialised(ops)
    ensures var s := Run(AllSteps(ops));
            var s' := Run(AllSteps(ops + [SendOp(sender, dest, text, file, attach, net)]));
            if sender !in s.users || dest !in s.users then s' == s
            else Sent(s, s', sender, dest, Compose(NextId(s.users[sender].lastId), sender, text, file, attach), net)
  {
    var s := Run(AllSteps(ops));
    OneMoreOperation(ops, SendOp(sender, dest, text, file, attach, net));
    ExactlyOnceInOrder(ops);
    SendInTurn(s, sender, dest, text, file, attach, net);
    if sender in s.users && dest in s.users {
      SendIsSent(s, sender, dest, text, file, attach, net);
    } else {
      assert SendStep(s, 0, sender, dest, text, file, attach) == s;
    }
  }

  lemma OneMoreOperation(ops: seq<Operation>, op: Operation)
    ensures Run(AllSteps(ops + [op])) == RunOn(Run(AllSteps(ops)), Steps(op))
  {
    SnocParts(ops, op);
    assert AllSteps(ops + [op]) == AllSteps(ops) + Steps(op);
    RunBlock(AllSteps(ops), Steps(op));
  }

  // ---- A CONNECT.

  /** How many messages of a queue of `n` are delivered. */
  function Took(nets: seq<Net>, n: nat): (k: nat)
    ensures k <= n && k <= |nets|
    ensures forall i | 0 <= i < k :: nets[i].ok
    ensures k < n && k < |nets| ==> !nets[k].ok
  {
    if n == 0 || nets == [] || !nets[0].ok then 0 else 1 + Took(nets[1..], n - 1)
  }

  function ReportsOf(q: seq<Node>): (r: seq<Report>)
    ensures |r| == |q| && forall i | 0 <= i < |q| :: r[i] == Report(q[i].tag, true)
  {
    seq(|q|, i requires 0 <= i < |q| => Report(q[i].tag, true))
  }

  /** The acknowledgements of the delivered messages: those whose sender is connected and takes it. */
  function FlushAcks(q: seq<Node>, nets: seq<Net>, us: Users): seq<Report>
    requires |q| <= |nets|
  {
    if q == [] then []
    else HeadAck(q[0], nets[0], us) + FlushAcks(q[1..], nets[1..], us)
  }

  function HeadAck(m: Node, net: Net, us: Users): seq<Report> {
    if net.ack && Up(us, m.msg.sender) then [Report(m.tag, true)] else []
  }

  /** The state of a flush of user n with `q` still to deliver. */
  ghost predicate InFlush(s: State, n: Name, q: seq<Node>) {
    && n in s.users && s.users[n].connected && s.users[n].queue == []
    && s.workers == if q == [] then map[] else map[0 := Flushing(n, q)]
  }

  ghost predicate FlushDone(s: State, s': State, n: Name, q: seq<Node>, nets: seq<Net>)
    requires n in s.users
  {
    var k := Took(nets, |q|);
    && s'.workers == map[] && s'.accepted == s.accepted
    && s'.reports == s.reports + ReportsOf(q[..k])
    && s'.acks == s.acks + FlushAcks(q[..k], nets, s.users)
    && s'.users == if k == |q| then s.users else s.users[n := Down(s.users[n]).(queue := q[k..])]
  }

  lemma RoundTakes(s: State, n: Name, q: seq<Node>, ack: bool)
    requires InFlush(s, n, q) && q != []
    ensures var s' := RunOn(s, Round(Net(true, ack)));
      && InFlush(s', n, q[1..]) && s'.accepted == s.accepted && s'.users == s.users
      && s'.reports == s.reports + [Report(q[0].tag, true)]
      && s'.acks == s.acks + HeadAck(q[0], Net(true, ack), s.users)
  {
    RoundIs(s, Net(true, ack));
    var s1 := FlushOutcomeStep(s, 0, true);
    assert s1.workers == map[0 := Acking(n, q)];
  }

  lemma RoundFails(s: State, n: Name, q: seq<Node>, net: Net)
    requires InFlush(s, n, q) && q != [] && !net.ok
    ensures var s' := RunOn(s, Round(net));
      && s'.workers == map[] && s'.accepted == s.accepted && s'.reports == s.reports && s'.acks == s.acks
      && s'.users == s.users[n := Down(s.users[n]).(queue := q)]
  {
    RoundIs(s, net);
    var s1 := FlushOutcomeStep(s, 0, false);
    assert s1.workers == map[0 := GivingUp(n, q)];
    assert [] + q == q;
  }

  lemma {:induction false} RoundsHead(nets: seq<Net>)
    requires nets != []
    ensures Rounds(nets) == Round(nets[0]) + Rounds(nets[1..])
  {
    if |nets| == 1 {
      assert nets[..0] == [] && nets[1..] == [];
    } else {
      var init, last := nets[..|nets| - 1], nets[|nets| - 1];
      RoundsHead(init);
      assert init[1..] + [last] == nets[1..];
      SnocParts(init[1..], last);
      Appended(Round(nets[0]), Rounds(init[1..]), Round(last));
    }
  }

  lemma {:induction false} IdleRounds(s: State, nets: seq<Net>)
    requires s.workers == map[]
    ensures RunOn(s, Rounds(nets)) == s
  {
    if nets != [] {
      var init, last := nets[..|nets| - 1], nets[|nets| - 1];
      IdleRounds(s, init);
      ApplyBlock(s, Rounds(init), Round(last));
      RoundIs(s, last);
    }
  }

  lemma {:induction false} FlushIsDone(s: State, n: Name, q: seq<Node>, nets: seq<Net>)
    requires InFlush(s, n, q) && |nets| >= |q|
    ensures FlushDone(s, RunOn(s, Rounds(nets)), n, q, nets)
    decreases |q|
  {
    if q == [] {
      IdleRounds(s, nets);
    } else {
      RoundsHead(nets);
      var s1 := RunOn(s, Round(nets[0]));
      ApplyBlock(s, Round(nets[0]), Rounds(nets[1..]));
      if nets[0].ok {
        assert nets[0] == Net(true, nets[0].ack);
        RoundTakes(s, n, q, nets[0].ack);
        FlushIsDone(s1, n, q[1..], nets[1..]);
        OneMoreDone(s, s1, RunOn(s1, Rounds(nets[1..])), n, q, nets);
      } else {
        RoundFails(s, n, q, nets[0]);
        IdleRounds(s1, nets[1..]);
        assert q[..0] == [] && q[0..] == q;
      }
    }
  }

  lemma OneMoreTaken(q: seq<Node>, nets: seq<Net>, us: Users)
    requires q != [] && nets != [] && nets[0].ok
    ensures var k, k' := Took(nets, |q|), Took(nets[1..], |q| - 1);
      && k == k' + 1 && q[k..] == q[1..][k'..]
      && ReportsOf(q[..k]) == [Report(q[0].tag, true)] + ReportsOf(q[1..][..k'])
      && FlushAcks(q[..k], nets, us) == HeadAck(q[0], nets[0], us) + FlushAcks(q[1..][..k'], nets[1..], us)
  {
    var k := Took(nets, |q|);
    assert q[..k][1..] == q[1..][..k - 1];
  }

  lemma OneMoreDone(s: State, s1: State, s': State, n: Name, q: seq<Node>, nets: seq<Net>)
    requires q != [] && nets != [] && nets[0].ok && n in s.users && s1.users == s.users && s1.accepted == s.accepted
    requires s1.reports == s.reports + [Report(q[0].tag, true)]
    requires s1.acks == s.acks + HeadAck(q[0], nets[0], s.users)
    requires FlushDone(s1, s', n, q[1..], nets[1..])
    ensures FlushDone(s, s', n, q, nets)
  {
    var k' := Took(nets[1..], |q| - 1);
    OneMoreTaken(q, nets, s.users);
    Appended(s.acks, HeadAck(q[0], nets[0], s.users), FlushAcks(q[1..][..k'], nets[1..], s.users));
    Appended(s.reports, [Report(q[0].tag, true)], ReportsOf(q[1..][..k']));
  }

  lemma Appended<T>(a: seq<T>, b: seq<T>, c: seq<T>)
    ensures (a + b) + c == a + (b + c)
  {
  }

  /** One serialised CONNECT of a known, disconnected user: its queue is delivered in order up to the first failure,
      each delivery reported once and acknowledged once if its sender is connected by then and takes it; a failure
      leaves the rest queued and the user disconnected. Any other CONNECT changes nothing. */
  lemma ConnectEffect(ops: seq<Operation>, n: Name, ip: Bytes, port: Bytes, nets: seq<Net>)
    requires Serialised(ops) && Answered(Run(AllSteps(ops)), ConnectOp(n, ip, port, nets))
    ensures var s, s' := Run(AllSteps(ops)), Run(AllSteps(ops + [ConnectOp(n, ip, port, nets)]));
            if n !in s.users || s.users[n].connected then s' == s
            else
              var up := s.users[n := Record(true, Cut(ip, 15), Cut(port, 15), s.users[n].lastId, [])];
              FlushDone(s.(users := up), s', n, s.users[n].queue, nets)
  {
    var op := ConnectOp(n, ip, port, nets);
    var s := Run(AllSteps(ops));
    OneMoreOperation(ops, op);
    ExactlyOnceInOrder(ops);
    ApplyBlock(s, [DoConnect(0, n, ip, port)], Rounds(nets));
    ApplyOne(s, DoConnect(0, n, ip, port));
    var s1 := ConnectStep(s, 0, n, ip, port);
    if n !in s.users || s.users[n].connected {
      IdleRounds(s, nets);
    } else {
      FlushIsDone(s1, n, s.users[n].queue, nets);
    }
  }
}
