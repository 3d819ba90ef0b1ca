/** The server as a transition system: every step is one mutex-protected section or one unlocked
    network outcome, and steps of different workers interleave without restriction.

    `Apply` is total: a step that the state does not offer (an unknown worker, a worker at another
    point of its code, a thread number already in use) changes nothing, so the theorems may speak of
    all sequences of steps.
  */
module Protocol {
  import opened Basics
  import opened MessageIds
  import opened Registry

  /** Where a worker stands between two of its sections. */
  datatype Worker =
    /** A send whose node is queued, about to try the recipient; `ack` says the sender was connected. */
    | Sending(dest: Name, node: Node, ack: bool)
    /** A send that knows whether the recipient took the message, about to relock. */
    | Settling(dest: Name, node: Node, ok: bool)
    /** A CONNECT about to try the first node of its detached list. */
    | Flushing(dest: Name, pending: seq<Node>)
    /** A CONNECT that delivered its first node and is about to look its sender up. */
    | Acking(dest: Name, pending: seq<Node>)
    /** A CONNECT whose first node failed, about to relock and give the list back. */
    | GivingUp(dest: Name, pending: seq<Node>)
  {
    predicate IsSend() { Sending? || Settling? }
  }

  datatype Entry = Entry(dest: Name, msg: Msg)

  /** A delivery the server reported, by the message's own send or by a CONNECT flush. */
  datatype Report = Report(tag: nat, byFlush: bool)

  /** Where the node of an accepted message is, or how it was released. */
  datatype Place =
    | InQueue(name: Name)
    | Detached(tid: nat)
    | RemovedBy(tag: nat)
    | FlushedAway
    | Discarded

  /** `users` and `workers` are the server's; the rest is the record of the run. */
  datatype State = State(
    users: Users,
    workers: map<nat, Worker>,
    accepted: seq<Entry>,    // the message with tag t is accepted[t]
    place: seq<Place>,       // what became of each accepted node
    freed: multiset<nat>,    // every release of a node
    reports: seq<Report>,    // reported deliveries, in order
    acks: seq<Report>,       // acknowledgements sent for them
    overtaken: set<nat>,     // nodes a CONNECT detached while their own send was in flight
    gone: set<Name>,         // names that were ever unregistered
    birth: map<Name, nat>)   // how many messages were accepted before the name was last registered

  const INIT: State := State(map[], map[], [], [], multiset{}, [], [], {}, {}, map[])

  datatype Action =
    | DoRegister(name: Name)
    | DoUnregister(name: Name)
    | DoConnect(tid: nat, name: Name, ip: Bytes, port: Bytes)
    | DoDisconnect(name: Name, ip: Bytes)
    | DoSend(tid: nat, sender: Name, dest: Name, text: Bytes, file: Bytes, attach: bool)
    | SendOutcome(tid: nat, ok: bool, ackOk: bool)
    | Settle(tid: nat)
    | FlushOutcome(tid: nat, ok: bool)
    | AckFlushed(tid: nat, ackOk: bool)
    | GiveBack(tid: nat)

  function Tags(q: seq<Node>): (r: seq<nat>)
    ensures |r| == |q| && forall i | 0 <= i < |q| :: r[i] == q[i].tag
  {
    seq(|q|, i requires 0 <= i < |q| => q[i].tag)
  }

  /** The ledger with the given nodes moved to a new place. */
  function Moved(place: seq<Place>, tags: seq<nat>, to: Place): (r: seq<Place>)
    ensures |r| == |place|
    ensures forall t | 0 <= t < |place| :: r[t] == if t in tags then to else place[t]
  {
    seq(|place|, t requires 0 <= t < |place| => if t in tags then to else place[t])
  }

  function InFlight(ws: map<nat, Worker>): set<nat> {
    set w | w in ws && ws[w].IsSend() :: ws[w].node.tag
  }

  function RegisterStep(s: State, n: Name): State {
    if n in s.users then s
    else s.(users := Register(s.users, n).users, birth := s.birth[n := |s.accepted|])
  }

  function UnregisterStep(s: State, n: Name): State {
    if n !in s.users then s
    else
      var tags := Tags(s.users[n].queue);
      s.(users := Unregister(s.users, n).users, place := Moved(s.place, tags, Discarded),
         freed := s.freed + multiset(tags), gone := s.gone + {n})
  }

  function ConnectStep(s: State, tid: nat, n: Name, ip: Bytes, port: Bytes): State {
    if tid in s.workers || n !in s.users || s.users[n].connected then s
    else
      var q := s.users[n].queue;
      var s1 := s.(users := Connect(s.users, n, ip, port).users);
      if q == [] then s1
      else s1.(workers := s.workers[tid := Flushing(n, q)],
               place := Moved(s.place, Tags(q), Detached(tid)),
               overtaken := s.overtaken + set t | t in InFlight(s.workers) && t in Tags(q))
  }

  function SendStep(s: State, tid: nat, sender: Name, dest: Name, text: Bytes, file: Bytes, attach: bool): State {
    if tid in s.workers || sender !in s.users || dest !in s.users then s
    else
      var tag := |s.accepted|;
      var msg := Compose(NextId(s.users[sender].lastId), sender, text, file, attach);
      var s1 := s.(users := Enqueue(s.users, sender, dest, tag, text, file, attach).users,
                   accepted := s.accepted + [Entry(dest, msg)],
                   place := s.place + [InQueue(dest)]);
      if s.users[dest].connected
      then s1.(workers := s.workers[tid := Sending(dest, Node(tag, msg), s.users[sender].connected)])
      else s1
  }

  function SendOutcomeStep(s: State, tid: nat, ok: bool, ackOk: bool): State {
    if tid !in s.workers || !s.workers[tid].Sending? then s
    else
      var w := s.workers[tid];
      var r := [Report(w.node.tag, false)];
      s.(workers := s.workers[tid := Settling(w.dest, w.node, ok)],
         reports := if ok then s.reports + r else s.reports,
         acks := if ok && w.ack && ackOk then s.acks + r else s.acks)
  }

  function SettleStep(s: State, tid: nat): State {
    if tid !in s.workers || !s.workers[tid].Settling? then s
    else
      var w := s.workers[tid];
      var s1 := s.(workers := s.workers - {tid});
      if !w.ok then s1.(users := MarkDown(s.users, w.dest))
      else if w.dest !in s.users then s1
      else
        var q := s.users[w.dest].queue;
        var i := FirstMatch(q, w.node.msg);
        var s2 := s1.(users := Remove(s.users, w.dest, w.node.msg));
        if i == |q| then s2
        else s2.(place := Moved(s.place, [q[i].tag], RemovedBy(w.node.tag)),
                 freed := s.freed + multiset{q[i].tag})
  }

  function FlushOutcomeStep(s: State, tid: nat, ok: bool): State {
    if tid !in s.workers || !s.workers[tid].Flushing? || s.workers[tid].pending == [] then s
    else
      var w := s.workers[tid];
      if ok
      then s.(workers := s.workers[tid := Acking(w.dest, w.pending)],
              reports := s.reports + [Report(w.pending[0].tag, true)])
      else s.(workers := s.workers[tid := GivingUp(w.dest, w.pending)])
  }

  function AckFlushedStep(s: State, tid: nat, ackOk: bool): State {
    if tid !in s.workers || !s.workers[tid].Acking? || s.workers[tid].pending == [] then s
    else
      var w := s.workers[tid];
      var head := w.pending[0];
      var up := head.msg.sender in s.users && s.users[head.msg.sender].connected;
      s.(workers := if |w.pending| == 1 then s.workers - {tid}
                    else s.workers[tid := Flushing(w.dest, w.pending[1..])],
         place := Moved(s.place, [head.tag], FlushedAway),
         freed := s.freed + multiset{head.tag},
         acks := if up && ackOk then s.acks + [Report(head.tag, true)] else s.acks)
  }

  function GiveBackStep(s: State, tid: nat): State {
    if tid !in s.workers || !s.workers[tid].GivingUp? then s
    else
      var w := s.workers[tid];
      var tags := Tags(w.pending);
      var s1 := s.(workers := s.workers - {tid});
      if w.dest in s.users
      then s1.(users := SpliceBack(s.users, w.dest, w.pending), place := Moved(s.place, tags, InQueue(w.dest)))
      else s1.(place := Moved(s.place, tags, Discarded), freed := s.freed + multiset(tags))
  }

  function Apply(s: State, a: Action): State {
    match a
    case DoRegister(n) => RegisterStep(s, n)
    case DoUnregister(n) => UnregisterStep(s, n)
    case DoConnect(tid, n, ip, port) => ConnectStep(s, tid, n, ip, port)
    case DoDisconnect(n, ip) => s.(users := Disconnect(s.users, n, ip).users)
    case DoSend(tid, sender, dest, text, file, attach) => SendStep(s, tid, sender, dest, text, file, attach)
    case SendOutcome(tid, ok, ackOk) => SendOutcomeStep(s, tid, ok, ackOk)
    case Settle(tid) => SettleStep(s, tid)
    case FlushOutcome(tid, ok) => FlushOutcomeStep(s, tid, ok)
    case AckFlushed(tid, ackOk) => AckFlushedStep(s, tid, ackOk)
    case GiveBack(tid) => GiveBackStep(s, tid)
  }

  /** The state a sequence of steps leads to. */
  function Run(steps: seq<Action>): State {
    if steps == [] then INIT else Apply(Run(steps[..|steps| - 1]), steps[|steps| - 1])
  }

  lemma RunSnoc(steps: seq<Action>, a: Action)
    ensures Run(steps + [a]) == Apply(Run(steps), a)
  {
    assert (steps + [a])[..|steps|] == steps;
  }

  /** The state a sequence of steps leads to from a given one. */
  function RunOn(s: State, steps: seq<Action>): State {
    if steps == [] then s else Apply(RunOn(s, steps[..|steps| - 1]), steps[|steps| - 1])
  }

  lemma {:induction false} RunBlock(a: seq<Action>, b: seq<Action>)
    ensures Run(a + b) == RunOn(Run(a), b)
  {
    if b == [] {
      assert a + b == a;
    } else {
      var init, last := b[..|b| - 1], b[|b| - 1];
      RunBlock(a, init);
      assert (a + b)[..|a + b| - 1] == a + init && (a + b)[|a + b| - 1] == last;
    }
  }
}
