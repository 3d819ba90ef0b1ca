/** The sections run over the linked lists under any schedule. Between two of its sections a worker holds what
    its `Task` says: a copied message, or the head of a detached list. Whatever the schedule, the linked server and
    the workers are what the protocol's transition system says of the same steps, no two workers hold the same
    node, and nodes that somebody outside the schedule owns are left alone: which is what `Server.Lock` promises.
  */
module Execution {
  import opened Basics
  import opened MessageIds
  import opened Registry
  import opened Protocol
  import opened MessageList
  import opened LinkedServer
  import opened Sections
  import Loss
  import Ownership
  import Stranded

  /** What a worker holds between two of its sections. */
  datatype Task =
    | SendTask(dest: Name, msg: Msg, ack: bool)
    | SettleTask(dest: Name, msg: Msg, ok: bool)
    | FlushTask(dest: Name, list: MessageNode)
    | AckTask(dest: Name, list: MessageNode)
    | GiveBackTask(dest: Name, list: MessageNode)

  /** A delivery that counted as done, or its acknowledgement: of what message, and whether by a flush. */
  datatype Said = Said(msg: Msg, byFlush: bool)

  /** All workers, and the deliveries and acknowledgements that counted as done, in order. */
  datatype Pool = Pool(tasks: map<nat, Task>, reported: seq<Said>, acked: seq<Said>)

  /** The worker is where the protocol says, and holds the list of nodes `mine` by its head. */
  ghost predicate Stands(task: Task, w: Worker, mine: seq<MessageNode>) {
    match task
    case SendTask(dest, msg, ack) => w.Sending? && w.dest == dest && w.node.msg == msg && w.ack == ack && mine == []
    case SettleTask(dest, msg, ok) => w.Settling? && w.dest == dest && w.node.msg == msg && w.ok == ok && mine == []
    case FlushTask(dest, list) => w == Flushing(dest, NodesOf(mine)) && list == At(mine, 0)
    case AckTask(dest, list) => w == Acking(dest, NodesOf(mine)) && list == At(mine, 0)
    case GiveBackTask(dest, list) => w == GivingUp(dest, NodesOf(mine)) && list == At(mine, 0)
  }

  /** Who holds which nodes. */
  type Lists = map<nat, seq<MessageNode>>

  /** The nodes of all lists. */
  ghost function HeldIn(lists: Lists): set<MessageNode> {
    set tid, j | tid in lists && 0 <= j < |lists[tid]| :: lists[tid][j]
  }

  /** No node is in two lists. */
  ghost predicate Apart(lists: Lists) {
    forall a, b, i, j | a in lists && b in lists && 0 <= i < |lists[a]| && 0 <= j < |lists[b]| && a != b ::
      lists[a][i] != lists[b][j]
  }

  /** Every worker is where the protocol says. */
  ghost predicate AllStand(tasks: map<nat, Task>, workers: map<nat, Worker>, lists: Lists) {
    && tasks.Keys == workers.Keys == lists.Keys
    && forall tid | tid in tasks :: Stands(tasks[tid], workers[tid], lists[tid])
  }

  ghost predicate Follows(p: Pool, lists: Lists, s: State) {
    AllStand(p.tasks, s.workers, lists)
  }

  lemma OneMoved(tasks: map<nat, Task>, workers: map<nat, Worker>, lists: Lists,
                 tid: nat, task: Task, w: Worker, mine: seq<MessageNode>)
    requires AllStand(tasks, workers, lists) && Stands(task, w, mine)
    ensures AllStand(tasks[tid := task], workers[tid := w], lists[tid := mine])
  {
  }

  lemma OneEnded(tasks: map<nat, Task>, workers: map<nat, Worker>, lists: Lists, tid: nat)
    requires AllStand(tasks, workers, lists)
    ensures AllStand(tasks - {tid}, workers - {tid}, lists - {tid})
  {
  }

  /** The `next` fields lead through each of the lists. */
  ghost predicate Chained(lists: Lists)
    reads HeldIn(lists)
  {
    Apart(lists) && forall tid | tid in lists :: ChainedAt(lists, tid)
  }

  ghost predicate ChainedAt(lists: Lists, tid: nat)
    requires tid in lists
    reads HeldIn(lists)
  {
    assert forall m | m in lists[tid] :: m in HeldIn(lists);
    Linked(At(lists[tid], 0), lists[tid])
  }

  // ---- One worker's list changes.

  /** What one worker holds, and what the others hold, apart from it. */
  lemma OneHolds(lists: Lists, tid: nat)
    requires Apart(lists) && tid in lists
    ensures HeldIn(lists - {tid}) !! set m | m in lists[tid]
    ensures HeldIn(lists) == HeldIn(lists - {tid}) + set m | m in lists[tid]
  {
    var rest := lists - {tid};
    forall m | m in lists[tid] ensures m in HeldIn(lists) && m !in HeldIn(rest) {
      var j :| 0 <= j < |lists[tid]| && lists[tid][j] == m;
    }
    forall m | m in HeldIn(rest) ensures m in HeldIn(lists) {
      var t, j :| t in rest && 0 <= j < |rest[t]| && m == rest[t][j];
      assert lists[t][j] == m;
    }
    forall m | m in HeldIn(lists) ensures m in HeldIn(rest) || m in lists[tid] {
      var t, j :| t in lists && 0 <= j < |lists[t]| && m == lists[t][j];
      assert t != tid ==> rest[t][j] == m;
    }
  }

  /** One worker's list is replaced by nodes that no other worker has. */
  lemma ListReplaced(lists: Lists, tid: nat, mine: seq<MessageNode>)
    requires Apart(lists) && HeldIn(lists - {tid}) !! set m | m in mine
    ensures Apart(lists[tid := mine])
    ensures HeldIn(lists[tid := mine]) == HeldIn(lists - {tid}) + set m | m in mine
  {
    var rest, lists' := lists - {tid}, lists[tid := mine];
    forall a, b, i, j | a in lists' && b in lists' && 0 <= i < |lists'[a]| && 0 <= j < |lists'[b]| && a != b
      ensures lists'[a][i] != lists'[b][j]
    {
      if a == tid {
        assert rest[b][j] in HeldIn(rest);
      } else if b == tid {
        assert rest[a][i] in HeldIn(rest);
      }
    }
    assert lists' - {tid} == rest;
    OneHolds(lists', tid);
  }

  /** The chains after that. */
  lemma ChainReplaced(lists: Lists, tid: nat, mine: seq<MessageNode>)
    requires Chained(lists) && HeldIn(lists - {tid}) !! (set m | m in mine) && Linked(At(mine, 0), mine)
    ensures Chained(lists[tid := mine])
    ensures HeldIn(lists[tid := mine]) == HeldIn(lists - {tid}) + set m | m in mine
  {
    ListReplaced(lists, tid, mine);
    var lists' := lists[tid := mine];
    forall t | t in lists' ensures ChainedAt(lists', t) {
      assert t != tid ==> ChainedAt(lists, t);
    }
  }

  /** One worker's list is gone. */
  lemma ChainDropped(lists: Lists, tid: nat)
    requires Chained(lists)
    ensures Chained(lists - {tid})
  {
    var lists' := lists - {tid};
    forall t | t in lists' ensures ChainedAt(lists', t) {
      assert ChainedAt(lists, t);
    }
  }

  // ---- The outcomes of the network, which no section is needed for.

  function FlushTried(p: Pool, tid: nat, ok: bool): Pool {
    if tid in p.tasks && p.tasks[tid].FlushTask? then
      var t := p.tasks[tid];
      if ok then Pool(p.tasks[tid := AckTask(t.dest, t.list)], p.reported + [Said(t.list.msg, true)], p.acked)
      else p.(tasks := p.tasks[tid := GiveBackTask(t.dest, t.list)])
    else p
  }

  function SendTried(p: Pool, tid: nat, ok: bool, ackOk: bool): Pool {
    if tid in p.tasks && p.tasks[tid].SendTask? then
      var t := p.tasks[tid];
      var said := [Said(t.msg, false)];
      Pool(p.tasks[tid := SettleTask(t.dest, t.msg, ok)], if ok then p.reported + said else p.reported,
           if ok && t.ack && ackOk then p.acked + said else p.acked)
    else p
  }

  lemma FlushTriedFollows(p: Pool, lists: Lists, s: State, tid: nat, ok: bool)
    requires Follows(p, lists, s)
    ensures var s' := FlushOutcomeStep(s, tid, ok);
            Follows(FlushTried(p, tid, ok), lists, s') && s'.users == s.users
  {
    if tid in p.tasks {
      var t, w, mine := p.tasks[tid], s.workers[tid], lists[tid];
      assert Stands(t, w, mine);
      if t.FlushTask? {
        var t', w' := if ok then AckTask(t.dest, t.list) else GiveBackTask(t.dest, t.list),
                      if ok then Acking(w.dest, w.pending) else GivingUp(w.dest, w.pending);
        OneMoved(p.tasks, s.workers, lists, tid, t', w', mine);
        assert lists[tid := mine] == lists;
      }
    }
  }

  lemma SendTriedFollows(p: Pool, lists: Lists, s: State, tid: nat, ok: bool, ackOk: bool)
    requires Follows(p, lists, s)
    ensures var s' := SendOutcomeStep(s, tid, ok, ackOk);
            Follows(SendTried(p, tid, ok, ackOk), lists, s') && s'.users == s.users
  {
    if tid in p.tasks {
      var t, w, mine := p.tasks[tid], s.workers[tid], lists[tid];
      assert Stands(t, w, mine);
      if t.SendTask? {
        OneMoved(p.tasks, s.workers, lists, tid, SettleTask(t.dest, t.msg, ok), Settling(w.dest, w.node, ok), mine);
        assert lists[tid := mine] == lists;
      }
    }
  }

  /** A CONNECT that got a list of nodes becomes a worker. */
  function TookList(p: Pool, tid: nat, name: Name, list: MessageNode?): Pool {
    if list == null then p else p.(tasks := p.tasks[tid := FlushTask(name, list)])
  }

  lemma ConnectedFollows(p: Pool, lists: Lists, s: State, tid: nat, name: Name, ip: Bytes, port: Bytes,
                         list: MessageNode?, mine: seq<MessageNode>)
    requires Follows(p, lists, s) && tid !in p.tasks && list == At(mine, 0)
    requires NodesOf(mine) == if Connect(s.users, name, ip, port).code == 0 then s.users[name].queue else []
    ensures var s' := ConnectStep(s, tid, name, ip, port);
      && Follows(TookList(p, tid, name, list), if list == null then lists else lists[tid := mine], s')
      && s'.users == Connect(s.users, name, ip, port).users
  {
    if list != null {
      OneMoved(p.tasks, s.workers, lists, tid, FlushTask(name, list), Flushing(name, NodesOf(mine)), mine);
    }
  }

  /** A send to a connected user becomes a worker. */
  function Started(p: Pool, tid: nat, dest: Name, msg: Msg, deliver: bool, ack: bool): Pool {
    if deliver then p.(tasks := p.tasks[tid := SendTask(dest, msg, ack)]) else p
  }

  lemma StartedFollows(p: Pool, lists: Lists, s: State, tid: nat, sender: Name, dest: Name, text: Bytes, file: Bytes,
                       attach: bool, msg: Msg, deliver: bool, ack: bool)
    requires Follows(p, lists, s) && tid !in p.tasks
    requires if sender in s.users && dest in s.users
             then && msg == Compose(NextId(s.users[sender].lastId), sender, text, file, attach)
                  && deliver == s.users[dest].connected && ack == s.users[sender].connected
             else !deliver
    ensures var s' := SendStep(s, tid, sender, dest, text, file, attach);
      && Follows(Started(p, tid, dest, msg, deliver, ack), if deliver then lists[tid := []] else lists, s')
      && s'.users == Enqueue(s.users, sender, dest, |s.accepted|, text, file, attach).users
  {
    if deliver {
      OneMoved(p.tasks, s.workers, lists, tid,
               SendTask(dest, msg, ack), Sending(dest, Node(|s.accepted|, msg), ack), []);
    }
  }

  function Ended(p: Pool, tid: nat): Pool {
    p.(tasks := p.tasks - {tid})
  }

  lemma SettledFollows(p: Pool, lists: Lists, s: State, tid: nat)
    requires Follows(p, lists, s) && tid in p.tasks && p.tasks[tid].SettleTask?
    ensures var s', t := SettleStep(s, tid), p.tasks[tid];
      && Follows(Ended(p, tid), lists - {tid}, s')
      && s'.users == if t.ok then Remove(s.users, t.dest, t.msg) else Registry.MarkDown(s.users, t.dest)
  {
    assert Stands(p.tasks[tid], s.workers[tid], lists[tid]);
    OneEnded(p.tasks, s.workers, lists, tid);
  }

  lemma GivenBackFollows(p: Pool, lists: Lists, s: State, tid: nat)
    requires Follows(p, lists, s) && tid in p.tasks && p.tasks[tid].GiveBackTask?
    ensures var s' := GiveBackStep(s, tid);
      && Follows(Ended(p, tid), lists - {tid}, s')
      && s'.users == SpliceBack(s.users, p.tasks[tid].dest, NodesOf(lists[tid]))
  {
    assert Stands(p.tasks[tid], s.workers[tid], lists[tid]);
    OneEnded(p.tasks, s.workers, lists, tid);
  }

  /** The lists when one worker lets its first node go. */
  ghost function WithoutHead(lists: Lists, tid: nat): Lists
    requires tid in lists && lists[tid] != []
  {
    if |lists[tid]| == 1 then lists - {tid} else lists[tid := lists[tid][1..]]
  }

  /** A CONNECT whose sender was looked up goes on with the rest of its list, or ends. */
  function Advanced(p: Pool, tid: nat, rest: MessageNode?, acked: bool): Pool
    requires tid in p.tasks && p.tasks[tid].AckTask?
  {
    var t := p.tasks[tid];
    Pool(if rest == null then p.tasks - {tid} else p.tasks[tid := FlushTask(t.dest, rest)],
         p.reported, if acked then p.acked + [Said(t.list.msg, true)] else p.acked)
  }

  lemma AdvancedFollows(p: Pool, lists: Lists, s: State, tid: nat, rest: MessageNode?, up: bool, ackOk: bool)
    requires Follows(p, lists, s) && tid in p.tasks && p.tasks[tid].AckTask? && lists[tid] != []
    requires rest == At(lists[tid], 1)
    requires var n := p.tasks[tid].list.msg.sender; up == (n in s.users && s.users[n].connected)
    ensures var s' := AckFlushedStep(s, tid, ackOk);
      && Follows(Advanced(p, tid, rest, up && ackOk),
                 WithoutHead(lists, tid), s')
      && s'.users == s.users
  {
    var t, w, mine := p.tasks[tid], s.workers[tid], lists[tid];
    assert Stands(t, w, mine);
    if rest == null {
      OneEnded(p.tasks, s.workers, lists, tid);
    } else {
      assert NodesOf(mine[1..]) == NodesOf(mine)[1..];
      OneMoved(p.tasks, s.workers, lists, tid, FlushTask(t.dest, rest), Flushing(w.dest, w.pending[1..]), mine[1..]);
    }
  }

  // ---- What was reported and acknowledged.

  ghost predicate NodeLabelled(n: Node, accepted: seq<Entry>) {
    n.tag < |accepted| && accepted[n.tag].msg == n.msg
  }

  ghost predicate AllLabelled(q: seq<Node>, accepted: seq<Entry>) {
    forall i | 0 <= i < |q| :: NodeLabelled(q[i], accepted)
  }

  ghost predicate WorkerLabelled(w: Worker, accepted: seq<Entry>) {
    if w.IsSend() then NodeLabelled(w.node, accepted) else AllLabelled(w.pending, accepted)
  }

  /** Every node carries the accepted message its tag says. */
  ghost predicate Labelled(s: State) {
    && (forall n | n in s.users :: AllLabelled(s.users[n].queue, s.accepted))
    && (forall w | w in s.workers :: WorkerLabelled(s.workers[w], s.accepted))
  }

  lemma StaysLabelled(q: seq<Node>, accepted: seq<Entry>, accepted': seq<Entry>)
    requires AllLabelled(q, accepted) && accepted <= accepted'
    ensures AllLabelled(q, accepted')
  {
    assert forall i | 0 <= i < |q| :: NodeLabelled(q[i], accepted);
  }

  lemma LabelledStays(s: State, a: Action)
    requires Labelled(s)
    ensures Labelled(Apply(s, a))
  {
    match a
    case DoConnect(tid, n, ip, port) => ConnectLabels(s, tid, n, ip, port);
    case DoSend(tid, sender, dest, text, file, attach) => SendLabels(s, tid, sender, dest, text, file, attach);
    case Settle(tid) => SettleLabels(s, tid);
    case AckFlushed(tid, ackOk) => AckLabels(s, tid, ackOk);
    case GiveBack(tid) => GiveBackLabels(s, tid);
    case _ =>
  }

  lemma ConnectLabels(s: State, tid: nat, n: Name, ip: Bytes, port: Bytes)
    requires Labelled(s)
    ensures Labelled(ConnectStep(s, tid, n, ip, port))
  {
  }

  lemma SendLabels(s: State, tid: nat, sender: Name, dest: Name, text: Bytes, file: Bytes, attach: bool)
    requires Labelled(s)
    ensures Labelled(SendStep(s, tid, sender, dest, text, file, attach))
  {
    if tid !in s.workers && sender in s.users && dest in s.users {
      var msg := Compose(NextId(s.users[sender].lastId), sender, text, file, attach);
      LabelledGrows(s, Entry(dest, msg));
      OneMoreLabelled(s.users[dest].queue, s.accepted, Entry(dest, msg));
    }
  }

  lemma LabelledGrows(s: State, e: Entry)
    requires Labelled(s)
    ensures Labelled(s.(accepted := s.accepted + [e]))
  {
    forall n | n in s.users ensures AllLabelled(s.users[n].queue, s.accepted + [e]) {
      StaysLabelled(s.users[n].queue, s.accepted, s.accepted + [e]);
    }
    forall w | w in s.workers ensures WorkerLabelled(s.workers[w], s.accepted + [e]) {
      if !s.workers[w].IsSend() {
        StaysLabelled(s.workers[w].pending, s.accepted, s.accepted + [e]);
      }
    }
  }

  lemma OneMoreLabelled(q: seq<Node>, accepted: seq<Entry>, e: Entry)
    requires AllLabelled(q, accepted)
    ensures AllLabelled(q + [Node(|accepted|, e.msg)], accepted + [e])
  {
    StaysLabelled(q, accepted, accepted + [e]);
  }

  lemma SettleLabels(s: State, tid: nat)
    requires Labelled(s)
    ensures Labelled(SettleStep(s, tid))
  {
    if tid in s.workers && s.workers[tid].Settling? && s.workers[tid].dest in s.users {
      var q := s.users[s.workers[tid].dest].queue;
      assert AllLabelled(q, s.accepted);
      assert AllLabelled(Without(q, FirstMatch(q, s.workers[tid].node.msg)), s.accepted);
    }
  }

  lemma OutcomeLabels(s: State, tid: nat, ok: bool, ackOk: bool)
    requires Labelled(s)
    ensures Labelled(SendOutcomeStep(s, tid, ok, ackOk)) && Labelled(FlushOutcomeStep(s, tid, ok))
  {
    assert tid in s.workers ==> WorkerLabelled(s.workers[tid], s.accepted);
  }

  lemma AckLabels(s: State, tid: nat, ackOk: bool)
    requires Labelled(s)
    ensures Labelled(AckFlushedStep(s, tid, ackOk))
  {
    if tid in s.workers && s.workers[tid].Acking? && s.workers[tid].pending != [] {
      assert WorkerLabelled(s.workers[tid], s.accepted);
      assert AllLabelled(s.workers[tid].pending[1..], s.accepted);
    }
  }

  lemma GiveBackLabels(s: State, tid: nat)
    requires Labelled(s)
    ensures Labelled(GiveBackStep(s, tid))
  {
    if tid in s.workers && s.workers[tid].GivingUp? && s.workers[tid].dest in s.users {
      assert WorkerLabelled(s.workers[tid], s.accepted);
      assert AllLabelled(s.users[s.workers[tid].dest].queue + s.workers[tid].pending, s.accepted);
    }
  }

  /** The log is the record's, with each tag replaced by its message. */
  ghost predicate LogIs(log: seq<Said>, reports: seq<Report>, accepted: seq<Entry>) {
    && |log| == |reports|
    && forall i | 0 <= i < |log| ::
         reports[i].tag < |accepted| && log[i] == Said(accepted[reports[i].tag].msg, reports[i].byFlush)
  }

  /** What counted as reported and acknowledged is what the protocol recorded. */
  ghost predicate Recorded(p: Pool, s: State) {
    Labelled(s) && LogIs(p.reported, s.reports, s.accepted) && LogIs(p.acked, s.acks, s.accepted)
  }

  lemma OneMoreSaid(log: seq<Said>, reports: seq<Report>, accepted: seq<Entry>, n: Node, byFlush: bool)
    requires LogIs(log, reports, accepted) && NodeLabelled(n, accepted)
    ensures LogIs(log + [Said(n.msg, byFlush)], reports + [Report(n.tag, byFlush)], accepted)
  {
  }

  /** A step that reports nothing. */
  lemma NothingSaid(p: Pool, p': Pool, s: State, a: Action)
    requires Recorded(p, s) && p'.reported == p.reported && p'.acked == p.acked
    requires var s' := Apply(s, a); s'.reports == s.reports && s'.acks == s.acks && s.accepted <= s'.accepted
    ensures Recorded(p', Apply(s, a))
  {
    LabelledStays(s, a);
  }

  lemma SendSaid(p: Pool, p': Pool, s: State, tid: nat, sender: Name, dest: Name,
                 text: Bytes, file: Bytes, attach: bool)
    requires Recorded(p, s) && p'.reported == p.reported && p'.acked == p.acked
    ensures Recorded(p', SendStep(s, tid, sender, dest, text, file, attach))
  {
    NothingSaid(p, p', s, DoSend(tid, sender, dest, text, file, attach));
  }

  lemma SettleSaid(p: Pool, p': Pool, s: State, tid: nat)
    requires Recorded(p, s) && p'.reported == p.reported && p'.acked == p.acked
    ensures Recorded(p', SettleStep(s, tid))
  {
    NothingSaid(p, p', s, Settle(tid));
  }

  lemma ConnectSaid(p: Pool, p': Pool, s: State, tid: nat, name: Name, ip: Bytes, port: Bytes)
    requires Recorded(p, s) && p'.reported == p.reported && p'.acked == p.acked
    ensures Recorded(p', ConnectStep(s, tid, name, ip, port))
  {
    NothingSaid(p, p', s, DoConnect(tid, name, ip, port));
  }

  lemma GiveBackSaid(p: Pool, p': Pool, s: State, tid: nat)
    requires Recorded(p, s) && p'.reported == p.reported && p'.acked == p.acked
    ensures Recorded(p', GiveBackStep(s, tid))
  {
    NothingSaid(p, p', s, GiveBack(tid));
  }

  lemma SendTriedSaid(p: Pool, lists: Lists, s: State, tid: nat, ok: bool, ackOk: bool)
    requires Follows(p, lists, s) && Recorded(p, s)
    ensures Recorded(SendTried(p, tid, ok, ackOk), SendOutcomeStep(s, tid, ok, ackOk))
  {
    OutcomeLabels(s, tid, ok, ackOk);
    if tid in p.tasks {
      var w := s.workers[tid];
      assert Stands(p.tasks[tid], w, lists[tid]) && WorkerLabelled(w, s.accepted);
      if w.Sending? {
        OneMoreSaid(p.reported, s.reports, s.accepted, w.node, false);
        OneMoreSaid(p.acked, s.acks, s.accepted, w.node, false);
      }
    }
  }

  lemma FlushTriedSaid(p: Pool, lists: Lists, s: State, tid: nat, ok: bool)
    requires Follows(p, lists, s) && Recorded(p, s)
    ensures Recorded(FlushTried(p, tid, ok), FlushOutcomeStep(s, tid, ok))
  {
    OutcomeLabels(s, tid, ok, false);
    if tid in p.tasks {
      var w := s.workers[tid];
      assert Stands(p.tasks[tid], w, lists[tid]) && WorkerLabelled(w, s.accepted);
      if w.Flushing? && w.pending != [] {
        OneMoreSaid(p.reported, s.reports, s.accepted, w.pending[0], true);
      }
    }
  }

  lemma AdvancedSaid(p: Pool, lists: Lists, s: State, tid: nat, rest: MessageNode?, up: bool, ackOk: bool)
    requires Follows(p, lists, s) && Recorded(p, s) && tid in p.tasks && p.tasks[tid].AckTask? && lists[tid] != []
    requires var n := p.tasks[tid].list.msg.sender; up == (n in s.users && s.users[n].connected)
    ensures Recorded(Advanced(p, tid, rest, up && ackOk), AckFlushedStep(s, tid, ackOk))
  {
    var w := s.workers[tid];
    AckLabels(s, tid, ackOk);
    assert Stands(p.tasks[tid], w, lists[tid]) && WorkerLabelled(w, s.accepted);
    OneMoreSaid(p.acked, s.acks, s.accepted, w.pending[0], true);
  }

  // ---- The sections on the linked lists.

  /** Whose nodes are whose: what all workers hold and what is owned outside. */
  ghost predicate AllOwned(server: Server, lists: Lists, outer: set<MessageNode>)
    reads server, server.world, HeldIn(lists)
  {
    && server.Valid() && Chained(lists)
    && server.Owned(HeldIn(lists)) && server.Owned(outer) && outer !! HeldIn(lists)
  }

  /** The linked server and the workers are what the protocol's state says, and the mutex is free; `outer` is
      owned outside the schedule. */
  ghost predicate Runs(server: Server, p: Pool, lists: Lists, s: State, outer: set<MessageNode>)
    reads server, server.world, HeldIn(lists)
  {
    && AllOwned(server, lists, outer) && !server.locked
    && AsMap(server.Contents()) == s.users && Follows(p, lists, s)
  }

  /** The heap's releases are the protocol's: every message node has a tag of its own and carries the accepted message
      of that tag, and it is released if and only if the protocol says that the tag is. */
  ghost predicate Marked(server: Server, s: State)
    reads server
  {
    && (forall m: MessageNode | m in server.world ::
          && m.tag < |s.accepted| && m.msg == s.accepted[m.tag].msg
          && (m in server.freed <==> m.tag in s.freed))
    && (forall m: MessageNode, n: MessageNode | m in server.world && n in server.world && m.tag == n.tag :: m == n)
    && (forall t | t in s.freed :: t < |s.accepted|)
  }

  /** The linked server, the workers, what they reported and acknowledged, and every allocation and release are what
      the protocol's state says. */
  ghost predicate Tracks(server: Server, p: Pool, lists: Lists, s: State, outer: set<MessageNode>)
    reads server, server.world, HeldIn(lists)
  {
    Runs(server, p, lists, s, outer) && Marked(server, s) && Recorded(p, s)
  }

  /** What happened to the heap: the nodes of `gone` were released and no others, and only one for `node`, if any, was
      allocated. */
  ghost predicate Changed(world: set<object>, freed: set<object>, world': set<object>, freed': set<object>,
                          gone: seq<MessageNode>, node: Option<Node>)
  {
    && world <= world' && freed <= freed' && OnlyNew(world, world', node)
    && (forall g | g in gone :: g in world)
    && (forall m: MessageNode | m in world' :: m in freed' <==> m in freed || m in gone)
  }

  twostate predicate Changes(server: Server, new gone: seq<MessageNode>, new node: Option<Node>)
    reads server
  {
    server.Grew() && Changed(old(server.world), old(server.freed), server.world, server.freed, gone, node)
  }

  /** The same of the protocol's state. */
  ghost predicate Moves(s: State, s': State, gone: seq<Node>, node: Option<Node>) {
    && s'.freed == s.freed + multiset(Tags(gone))
    && s.accepted <= s'.accepted
    && match node
       case None => |s'.accepted| == |s.accepted|
       case Some(n) =>
         && |s'.accepted| == |s.accepted| + 1
         && n.tag == |s.accepted| && n.msg == s'.accepted[|s.accepted|].msg
  }

  /** The node a delivered send takes out of the queue, if there is one. */
  function TakenBy(us: Users, dest: Name, msg: Msg): seq<Node> {
    if dest in us && FirstMatch(us[dest].queue, msg) < |us[dest].queue|
    then [us[dest].queue[FirstMatch(us[dest].queue, msg)]] else []
  }

  lemma SettleMoves(s: State, tid: nat)
    requires tid in s.workers && s.workers[tid].Settling?
    ensures var w := s.workers[tid];
            Moves(s, SettleStep(s, tid), if w.ok then TakenBy(s.users, w.dest, w.node.msg) else [], None)
  {
    var w := s.workers[tid];
    if w.ok && w.dest in s.users {
      var q := s.users[w.dest].queue;
      var i := FirstMatch(q, w.node.msg);
      if i < |q| {
        assert Tags([q[i]]) == [q[i].tag];
      }
    }
  }

  lemma AckMoves(s: State, tid: nat, ackOk: bool)
    requires tid in s.workers && s.workers[tid].Acking? && s.workers[tid].pending != []
    ensures Moves(s, AckFlushedStep(s, tid, ackOk), [s.workers[tid].pending[0]], None)
  {
    assert Tags([s.workers[tid].pending[0]]) == [s.workers[tid].pending[0].tag];
  }

  lemma GiveBackMoves(s: State, tid: nat)
    requires tid in s.workers && s.workers[tid].GivingUp?
    ensures var w := s.workers[tid];
            Moves(s, GiveBackStep(s, tid), if w.dest in s.users then [] else w.pending, None)
  {
  }

  lemma UnregisterMoves(s: State, n: Name)
    ensures Moves(s, UnregisterStep(s, n), if n in s.users then s.users[n].queue else [], None)
  {
  }

  lemma ConnectMoves(s: State, tid: nat, name: Name, ip: Bytes, port: Bytes)
    ensures Moves(s, ConnectStep(s, tid, name, ip, port), [], None)
  {
  }

  lemma SendMoves(s: State, tid: nat, sender: Name, dest: Name, text: Bytes, file: Bytes, attach: bool)
    ensures Moves(s, SendStep(s, tid, sender, dest, text, file, attach), [],
                  if tid in s.workers || sender !in s.users || dest !in s.users then None
                  else Some(Node(|s.accepted|, Compose(NextId(s.users[sender].lastId), sender, text, file, attach))))
  {
  }

  twostate lemma StaysMarked(server: Server, new s: State, new s': State, new gone: seq<MessageNode>,
                             new node: Option<Node>)
    requires old(Marked(server, s)) && Changes(server, gone, node) && Moves(s, s', NodesOf(gone), node)
    ensures Marked(server, s')
  {
    forall m: MessageNode | m in server.world && m in old(server.world)
      ensures m in server.freed <==> m.tag in s'.freed
    {
      if m.tag in Tags(NodesOf(gone)) {
        var i :| 0 <= i < |gone| && Tags(NodesOf(gone))[i] == m.tag;
        assert gone[i] == m;
      }
      if m in gone {
        var i :| 0 <= i < |gone| && gone[i] == m;
        assert Tags(NodesOf(gone))[i] == m.tag;
      }
    }
    forall t | t in Tags(NodesOf(gone)) ensures t < |s.accepted| {
      var i :| 0 <= i < |gone| && Tags(NodesOf(gone))[i] == t;
      assert gone[i] in old(server.world);
    }
    forall m: MessageNode | m in server.world && m !in old(server.world)
      ensures m.tag == |s.accepted| && m !in server.freed && m.tag !in s'.freed
    {
    }
  }

  /** The lists are chained as they were if nothing was done to their nodes. */
  twostate lemma StillChained(lists: Lists)
    requires old(Chained(lists)) && forall m | m in HeldIn(lists) :: unchanged(m)
    ensures Chained(lists)
  {
    forall tid | tid in lists ensures ChainedAt(lists, tid) {
      assert old(ChainedAt(lists, tid));
      var mine := lists[tid];
      forall k | 0 <= k < |mine| ensures mine[k].next == old(mine[k].next) {
        assert mine[k] in HeldIn(lists) && unchanged(mine[k]);
      }
    }
  }

  /** The section of REGISTER, from the free mutex to the free mutex, nobody running in between. */
  method RegisterFree(s: Server, name: Name, ghost others: set<MessageNode>)
    requires s.Valid() && !s.locked && s.Owned(others) && |name| <= MAX_TEXT
    modifies s, s.world - others
    ensures s.Valid() && !s.locked && s.Owned(others)
    ensures s.Grew() && s.freed == old(s.freed) && OnlyNew(old(s.world), s.world, None)
    ensures AsMap(s.Contents()) == Register(old(AsMap(s.Contents())), name).users
  {
    s.Take(others);
    var code := RegisterSection(s, name, others);
    s.Unlock(others);
  }

  /** The same for UNREGISTER; `gone` was the user's queue. */
  method UnregisterFree(s: Server, name: Name, ghost others: set<MessageNode>)
    returns (ghost gone: seq<MessageNode>, ghost user: UserNode?)
    requires s.Valid() && !s.locked && s.Owned(others)
    modifies s, s.world - others
    ensures s.Valid() && !s.locked && s.Owned(others) && s.world == old(s.world)
    ensures s.freed == old(s.freed) + (set m | m in gone) + (if user == null then {} else {user})
    ensures forall m | m in gone :: m in s.world
    ensures AsMap(s.Contents()) == Unregister(old(AsMap(s.Contents())), name).users
    ensures var us := old(AsMap(s.Contents())); NodesOf(gone) == if name in us then us[name].queue else []
  {
    s.Take(others);
    var code;
    code, gone, user := UnregisterSection(s, name, others);
    s.Unlock(others);
  }

  /** The second section of a send that was delivered, and of one that was not. */
  method RemoveFree(s: Server, dest: Name, msg: Msg, ghost others: set<MessageNode>)
    returns (ghost gone: seq<MessageNode>)
    requires s.Valid() && !s.locked && s.Owned(others)
    modifies s, s.world - others
    ensures s.Valid() && !s.locked && s.Owned(others) && s.world == old(s.world)
    ensures s.freed == old(s.freed) + (set m | m in gone) && forall m | m in gone :: m in s.world
    ensures AsMap(s.Contents()) == Remove(old(AsMap(s.Contents())), dest, msg)
    ensures NodesOf(gone) == TakenBy(old(AsMap(s.Contents())), dest, msg)
  {
    s.Take(others);
    ghost var removed := RemoveSection(s, dest, msg, others);
    s.Unlock(others);
    gone := if removed == null then [] else [removed];
  }

  method MarkDownFree(s: Server, dest: Name, ghost others: set<MessageNode>)
    requires s.Valid() && !s.locked && s.Owned(others)
    modifies s, s.world - others
    ensures s.Valid() && !s.locked && s.Owned(others) && s.world == old(s.world) && s.freed == old(s.freed)
    ensures AsMap(s.Contents()) == Registry.MarkDown(old(AsMap(s.Contents())), dest)
  {
    s.Take(others);
    MarkDownSection(s, dest, others);
    s.Unlock(others);
  }

  /** The last section of a failed flush. */
  method SpliceFree(s: Server, dest: Name, list: MessageNode?, ghost mine: seq<MessageNode>,
                    ghost others: set<MessageNode>)
    requires s.Valid() && !s.locked && Linked(list, mine) && s.Owned(set m | m in mine)
    requires s.Owned(others) && others !! set m | m in mine
    modifies s, s.world - others
    ensures s.Valid() && !s.locked && s.Owned(others) && s.world == old(s.world)
    ensures s.freed == old(s.freed) + if dest in old(AsMap(s.Contents())) then {} else set m | m in mine
    ensures AsMap(s.Contents()) == SpliceBack(old(AsMap(s.Contents())), dest, NodesOf(mine))
  {
    s.Take((set m | m in mine) + others);
    SpliceSection(s, dest, list, mine, others);
    s.Unlock(others);
  }

  method RunRegister(server: Server, name: Name, ghost lists: Lists, ghost outer: set<MessageNode>)
    requires AllOwned(server, lists, outer) && !server.locked && |name| <= MAX_TEXT
    modifies server, server.world - outer
    ensures AllOwned(server, lists, outer) && !server.locked && Changes(server, [], None)
    ensures AsMap(server.Contents()) == Register(old(AsMap(server.Contents())), name).users
  {
    ghost var others := HeldIn(lists) + outer;
    RegisterFree(server, name, others);
    StillChained(lists);
  }

  method RegisterTurn(server: Server, p: Pool, name: Name, ghost lists: Lists, ghost s: State,
                        ghost outer: set<MessageNode>)
    requires Tracks(server, p, lists, s, outer) && |name| <= MAX_TEXT
    modifies server, server.world - outer
    ensures Tracks(server, p, lists, RegisterStep(s, name), outer)
    ensures server.Grew() && old(server.freed) <= server.freed
  {
    RunRegister(server, name, lists, outer);
    NothingSaid(p, p, s, DoRegister(name));
    StaysMarked(server, s, RegisterStep(s, name), [], None);
  }

  method RunUnregister(server: Server, name: Name, ghost lists: Lists, ghost outer: set<MessageNode>)
    returns (ghost gone: seq<MessageNode>)
    requires AllOwned(server, lists, outer) && !server.locked
    modifies server, server.world - outer
    ensures AllOwned(server, lists, outer) && !server.locked && Changes(server, gone, None)
    ensures AsMap(server.Contents()) == Unregister(old(AsMap(server.Contents())), name).users
    ensures var us := old(AsMap(server.Contents())); NodesOf(gone) == if name in us then us[name].queue else []
  {
    ghost var others := HeldIn(lists) + outer;
    ghost var user;
    gone, user := UnregisterFree(server, name, others);
    StillChained(lists);
  }

  method UnregisterTurn(server: Server, p: Pool, name: Name, ghost lists: Lists, ghost s: State,
                        ghost outer: set<MessageNode>)
    requires Tracks(server, p, lists, s, outer)
    modifies server, server.world - outer
    ensures Tracks(server, p, lists, UnregisterStep(s, name), outer)
    ensures server.Grew() && old(server.freed) <= server.freed
  {
    ghost var gone := RunUnregister(server, name, lists, outer);
    UnregisterMoves(s, name);
    NothingSaid(p, p, s, DoUnregister(name));
    StaysMarked(server, s, UnregisterStep(s, name), gone, None);
  }

  method RunDisconnect(server: Server, name: Name, ip: Bytes, ghost lists: Lists, ghost outer: set<MessageNode>)
    requires AllOwned(server, lists, outer) && !server.locked
    modifies server, server.world - outer
    ensures AllOwned(server, lists, outer) && !server.locked && Changes(server, [], None)
    ensures AsMap(server.Contents()) == Disconnect(old(AsMap(server.Contents())), name, ip).users
  {
    ghost var others := HeldIn(lists) + outer;
    server.Take(others);
    var code := DisconnectSection(server, name, ip, others);
    server.Unlock(others);
    StillChained(lists);
  }

  method DisconnectTurn(server: Server, p: Pool, name: Name, ip: Bytes, ghost lists: Lists, ghost s: State,
                          ghost outer: set<MessageNode>)
    requires Tracks(server, p, lists, s, outer)
    modifies server, server.world - outer
    ensures Tracks(server, p, lists, s.(users := Disconnect(s.users, name, ip).users), outer)
    ensures server.Grew() && old(server.freed) <= server.freed
  {
    RunDisconnect(server, name, ip, lists, outer);
    NothingSaid(p, p, s, DoDisconnect(name, ip));
    StaysMarked(server, s, s.(users := Disconnect(s.users, name, ip).users), [], None);
  }

  /** A worker's list is replaced by owned nodes that nobody else has. */
  lemma OwnedReplaced(server: Server, lists: Lists, tid: nat, mine: seq<MessageNode>, outer: set<MessageNode>)
    requires AllOwned(server, lists, outer) && Linked(At(mine, 0), mine) && server.Owned(set m | m in mine)
    requires HeldIn(lists - {tid}) !! (set m | m in mine) && outer !! set m | m in mine
    ensures AllOwned(server, lists[tid := mine], outer)
  {
    ChainReplaced(lists, tid, mine);
    HeldLess(lists, tid);
  }

  /** A new worker gets owned nodes that nobody else has. */
  lemma OwnedMore(server: Server, lists: Lists, tid: nat, mine: seq<MessageNode>, outer: set<MessageNode>)
    requires AllOwned(server, lists, outer) && Linked(At(mine, 0), mine) && server.Owned(set m | m in mine)
    requires tid !in lists && HeldIn(lists) + outer !! set m | m in mine
    ensures AllOwned(server, lists[tid := mine], outer)
  {
    assert lists - {tid} == lists;
    OwnedReplaced(server, lists, tid, mine, outer);
  }

  lemma HeldLess(lists: Lists, tid: nat)
    ensures HeldIn(lists - {tid}) <= HeldIn(lists)
  {
    var rest := lists - {tid};
    forall m | m in HeldIn(rest) ensures m in HeldIn(lists) {
      var t, j :| t in rest && 0 <= j < |rest[t]| && m == rest[t][j];
      assert lists[t][j] == m;
    }
  }

  lemma OwnedDropped(server: Server, lists: Lists, tid: nat, outer: set<MessageNode>)
    requires AllOwned(server, lists, outer)
    ensures AllOwned(server, lists - {tid}, outer)
  {
    ChainDropped(lists, tid);
    HeldLess(lists, tid);
  }

  method RunConnect(server: Server, name: Name, ip: Bytes, port: Bytes,
                    ghost lists: Lists, ghost outer: set<MessageNode>)
    returns (list: MessageNode?, ghost mine: seq<MessageNode>)
    requires AllOwned(server, lists, outer) && !server.locked
    modifies server, server.world - outer
    ensures AllOwned(server, lists, outer) && !server.locked && Changes(server, [], None)
    ensures server.Owned(set m | m in mine) && HeldIn(lists) + outer !! set m | m in mine
    ensures Linked(list, mine)
    ensures var us := old(AsMap(server.Contents()));
      && AsMap(server.Contents()) == Connect(us, name, ip, port).users
      && NodesOf(mine) == if Connect(us, name, ip, port).code == 0 then us[name].queue else []
  {
    ghost var others := HeldIn(lists) + outer;
    server.Take(others);
    var code;
    code, list, mine := ConnectSection(server, name, ip, port, others);
    server.Unlock(others + set m | m in mine);
    StillChained(lists);
  }

  method ConnectTurn(server: Server, p: Pool, tid: nat, name: Name, ip: Bytes, port: Bytes,
                     ghost lists: Lists, ghost s: State, ghost outer: set<MessageNode>)
    returns (p': Pool, ghost lists': Lists)
    requires Tracks(server, p, lists, s, outer)
    modifies server, server.world - outer
    ensures Tracks(server, p', lists', ConnectStep(s, tid, name, ip, port), outer)
    ensures server.Grew() && old(server.freed) <= server.freed
  {
    p', lists' := p, lists;
    if tid !in p.tasks {
      var list;
      ghost var mine;
      list, mine := RunConnect(server, name, ip, port, lists, outer);
      ConnectedFollows(p, lists, s, tid, name, ip, port, list, mine);
      p' := TookList(p, tid, name, list);
      if list != null {
        OwnedMore(server, lists, tid, mine, outer);
        lists' := lists[tid := mine];
      }
    }
    ConnectMoves(s, tid, name, ip, port);
    ConnectSaid(p, p', s, tid, name, ip, port);
    StaysMarked(server, s, ConnectStep(s, tid, name, ip, port), [], None);
  }

  method RunEnqueue(server: Server, sender: Name, dest: Name, text: Bytes, file: Bytes, attach: bool,
                    ghost tag: nat, ghost lists: Lists, ghost outer: set<MessageNode>)
    returns (code: Byte, msg: Msg, deliver: bool, ack: bool)
    requires AllOwned(server, lists, outer) && !server.locked
    modifies server, server.world - outer
    ensures AllOwned(server, lists, outer) && !server.locked
    ensures Changes(server, [], if code == 0 then Some(Node(tag, msg)) else None)
    ensures var us := old(AsMap(server.Contents())); code == 0 <==> sender in us && dest in us
    ensures var us := old(AsMap(server.Contents()));
      && AsMap(server.Contents()) == Enqueue(us, sender, dest, tag, text, file, attach).users
      && if sender in us && dest in us
         then && msg == Compose(NextId(us[sender].lastId), sender, text, file, attach)
              && deliver == us[dest].connected && ack == us[sender].connected
         else !deliver
  {
    ghost var others := HeldIn(lists) + outer;
    server.Take(others);
    var to, ackTo;
    code, msg, to, ackTo := EnqueueSection(server, sender, dest, text, file, attach, tag, others);
    deliver, ack := code == 0 && to.Some?, ackTo.Some?;
    server.Unlock(others);
    StillChained(lists);
  }

  method SendTurn(server: Server, p: Pool, tid: nat, sender: Name, dest: Name, text: Bytes, file: Bytes, attach: bool,
                  ghost lists: Lists, ghost s: State, ghost outer: set<MessageNode>)
    returns (p': Pool, ghost lists': Lists)
    requires Tracks(server, p, lists, s, outer)
    modifies server, server.world - outer
    ensures Tracks(server, p', lists', SendStep(s, tid, sender, dest, text, file, attach), outer)
    ensures server.Grew() && old(server.freed) <= server.freed
  {
    ghost var node := None;
    p', lists' := p, lists;
    if tid !in p.tasks {
      var code, msg, deliver, ack :=
        RunEnqueue(server, sender, dest, text, file, attach, |s.accepted|, lists, outer);
      StartedFollows(p, lists, s, tid, sender, dest, text, file, attach, msg, deliver, ack);
      node := if code == 0 then Some(Node(|s.accepted|, msg)) else None;
      p' := Started(p, tid, dest, msg, deliver, ack);
      if deliver {
        OwnedReplaced(server, lists, tid, [], outer);
        lists' := lists[tid := []];
      }
    }
    SendMoves(s, tid, sender, dest, text, file, attach);
    SendSaid(p, p', s, tid, sender, dest, text, file, attach);
    StaysMarked(server, s, SendStep(s, tid, sender, dest, text, file, attach), [], node);
  }

  method RunSettle(server: Server, dest: Name, msg: Msg, ok: bool, ghost lists: Lists, ghost outer: set<MessageNode>)
    returns (ghost gone: seq<MessageNode>)
    requires AllOwned(server, lists, outer) && !server.locked
    modifies server, server.world - outer
    ensures AllOwned(server, lists, outer) && !server.locked && Changes(server, gone, None)
    ensures var us := old(AsMap(server.Contents()));
            && AsMap(server.Contents()) == (if ok then Remove(us, dest, msg) else Registry.MarkDown(us, dest))
            && NodesOf(gone) == if ok then TakenBy(us, dest, msg) else []
  {
    ghost var others := HeldIn(lists) + outer;
    gone := [];
    if ok {
      gone := RemoveFree(server, dest, msg, others);
    } else {
      MarkDownFree(server, dest, others);
    }
    StillChained(lists);
  }

  method SettleTurn(server: Server, p: Pool, tid: nat,
                    ghost lists: Lists, ghost s: State, ghost outer: set<MessageNode>)
    returns (p': Pool, ghost lists': Lists)
    requires Tracks(server, p, lists, s, outer)
    modifies server, server.world - outer
    ensures Tracks(server, p', lists', SettleStep(s, tid), outer)
    ensures server.Grew() && old(server.freed) <= server.freed
  {
    ghost var gone := [];
    p', lists' := p, lists;
    if tid in p.tasks {
      var t := p.tasks[tid];
      assert Stands(t, s.workers[tid], lists[tid]);
      if t.SettleTask? {
        gone := RunSettle(server, t.dest, t.msg, t.ok, lists, outer);
        SettledFollows(p, lists, s, tid);
        SettleMoves(s, tid);
        OwnedDropped(server, lists, tid, outer);
        p', lists' := Ended(p, tid), lists - {tid};
      }
    }
    SettleSaid(p, p', s, tid);
    StaysMarked(server, s, SettleStep(s, tid), gone, None);
  }

  /** The first node a worker lets go is nobody else's, and the rest stays whose it was. */
  lemma HeadGoes(server: Server, lists: Lists, tid: nat, outer: set<MessageNode>)
    requires AllOwned(server, lists, outer) && tid in lists && lists[tid] != []
    ensures var head, rest := lists[tid][0], WithoutHead(lists, tid);
      && AllOwned(server, rest, outer) && server.OwnsNode(head)
      && head !in HeldIn(rest) && head !in outer && head.next == At(lists[tid], 1)
  {
    var mine := lists[tid];
    assert ChainedAt(lists, tid);
    OneHolds(lists, tid);
    assert mine[0] in HeldIn(lists);
    if |mine| == 1 {
      OwnedDropped(server, lists, tid, outer);
    } else {
      TailLinked(mine);
      assert forall m | m in mine[1..] :: m in mine;
      OwnedReplaced(server, lists, tid, mine[1..], outer);
      ChainReplaced(lists, tid, mine[1..]);
    }
  }

  lemma TailLinked(mine: seq<MessageNode>)
    requires mine != [] && Linked(mine[0], mine)
    ensures Linked(At(mine[1..], 0), mine[1..]) && mine[0] !in mine[1..]
  {
    var rest := mine[1..];
    forall j | 0 <= j < |rest| ensures rest[j].next == At(rest, j + 1) {
      assert rest[j] == mine[j + 1];
    }
  }

  /** Looks the sender of the delivered node up, and releases the node. */
  method RunAck(server: Server, head: MessageNode, tid: nat, ghost lists: Lists, ghost outer: set<MessageNode>)
    returns (up: bool, rest: MessageNode?)
    requires AllOwned(server, lists, outer) && !server.locked
    requires tid in lists && lists[tid] != [] && head == lists[tid][0]
    modifies server
    ensures AllOwned(server, WithoutHead(lists, tid), outer) && !server.locked
    ensures Changes(server, [head], None) && server.Contents() == old(server.Contents())
    ensures rest == At(lists[tid], 1)
    ensures var us := AsMap(server.Contents()); up == (head.msg.sender in us && us[head.msg.sender].connected)
  {
    ghost var lists' := WithoutHead(lists, tid);
    HeadGoes(server, lists, tid, outer);
    server.Take(HeldIn(lists') + outer);
    var u := server.FindUser(head.msg.sender);
    FoundRecord(server, head.msg.sender);
    up := u != null && u.connected;
    server.Unlock(HeldIn(lists') + outer);
    rest := head.next;
    server.Free(head, HeldIn(lists') + outer);
    StillChained(lists');
  }

  method AckTurn(server: Server, p: Pool, tid: nat, ackOk: bool,
                 ghost lists: Lists, ghost s: State, ghost outer: set<MessageNode>)
    returns (p': Pool, ghost lists': Lists)
    requires Tracks(server, p, lists, s, outer)
    modifies server, server.world - outer
    ensures Tracks(server, p', lists', AckFlushedStep(s, tid, ackOk), outer)
    ensures server.Grew() && old(server.freed) <= server.freed
  {
    ghost var gone := [];
    p', lists' := p, lists;
    if tid in p.tasks {
      var t := p.tasks[tid];
      assert Stands(t, s.workers[tid], lists[tid]);
      if t.AckTask? {
        var up, rest := RunAck(server, t.list, tid, lists, outer);
        AdvancedFollows(p, lists, s, tid, rest, up, ackOk);
        AdvancedSaid(p, lists, s, tid, rest, up, ackOk);
        AckMoves(s, tid, ackOk);
        assert NodesOf([t.list]) == [s.workers[tid].pending[0]];
        p', lists', gone := Advanced(p, tid, rest, up && ackOk), WithoutHead(lists, tid), [t.list];
      }
    }
    StaysMarked(server, s, AckFlushedStep(s, tid, ackOk), gone, None);
  }

  method RunGiveBack(server: Server, dest: Name, list: MessageNode?, tid: nat,
                     ghost lists: Lists, ghost outer: set<MessageNode>)
    requires AllOwned(server, lists, outer) && !server.locked && tid in lists && list == At(lists[tid], 0)
    modifies server, server.world - outer
    ensures AllOwned(server, lists - {tid}, outer) && !server.locked
    ensures Changes(server, if dest in old(AsMap(server.Contents())) then [] else lists[tid], None)
    ensures AsMap(server.Contents()) == SpliceBack(old(AsMap(server.Contents())), dest, NodesOf(lists[tid]))
  {
    ghost var others := HeldIn(lists - {tid}) + outer;
    OneHolds(lists, tid);
    assert forall m | m in lists[tid] :: m in HeldIn(lists) && server.OwnsNode(m);
    assert ChainedAt(lists, tid);
    OwnedDropped(server, lists, tid, outer);
    SpliceFree(server, dest, list, lists[tid], others);
    StillChained(lists - {tid});
  }

  method GiveBackTurn(server: Server, p: Pool, tid: nat,
                      ghost lists: Lists, ghost s: State, ghost outer: set<MessageNode>)
    returns (p': Pool, ghost lists': Lists)
    requires Tracks(server, p, lists, s, outer)
    modifies server, server.world - outer
    ensures Tracks(server, p', lists', GiveBackStep(s, tid), outer)
    ensures server.Grew() && old(server.freed) <= server.freed
  {
    ghost var gone := [];
    p', lists' := p, lists;
    if tid in p.tasks {
      var t := p.tasks[tid];
      assert Stands(t, s.workers[tid], lists[tid]);
      if t.GiveBackTask? {
        RunGiveBack(server, t.dest, t.list, tid, lists, outer);
        gone := if t.dest in s.users then [] else lists[tid];
        GivenBackFollows(p, lists, s, tid);
        GiveBackMoves(s, tid);
        p', lists' := Ended(p, tid), lists - {tid};
      }
    }
    GiveBackSaid(p, p', s, tid);
    StaysMarked(server, s, GiveBackStep(s, tid), gone, None);
  }

  // ---- Whole schedules.

  /** A name read into the server's buffer. */
  predicate Bounded(a: Action) {
    a.DoRegister? ==> |a.name| <= MAX_TEXT
  }

  lemma SendTriedTracks(server: Server, p: Pool, tid: nat, ok: bool, ackOk: bool,
                        lists: Lists, s: State, outer: set<MessageNode>)
    requires Tracks(server, p, lists, s, outer)
    ensures Tracks(server, SendTried(p, tid, ok, ackOk), lists, SendOutcomeStep(s, tid, ok, ackOk), outer)
  {
    SendTriedFollows(p, lists, s, tid, ok, ackOk);
    SendTriedSaid(p, lists, s, tid, ok, ackOk);
  }

  lemma FlushTriedTracks(server: Server, p: Pool, tid: nat, ok: bool,
                         lists: Lists, s: State, outer: set<MessageNode>)
    requires Tracks(server, p, lists, s, outer)
    ensures Tracks(server, FlushTried(p, tid, ok), lists, FlushOutcomeStep(s, tid, ok), outer)
  {
    FlushTriedFollows(p, lists, s, tid, ok);
    FlushTriedSaid(p, lists, s, tid, ok);
  }

  /** One step of the schedule. */
  method Turn(server: Server, p: Pool, a: Action, ghost lists: Lists, ghost s: State, ghost outer: set<MessageNode>)
    returns (p': Pool, ghost lists': Lists)
    requires Tracks(server, p, lists, s, outer) && Bounded(a)
    modifies server, server.world - outer
    ensures Tracks(server, p', lists', Apply(s, a), outer)
    ensures server.Grew() && old(server.freed) <= server.freed
  {
    p', lists' := p, lists;
    match a {
      case DoRegister(n) =>
        assert Apply(s, a) == RegisterStep(s, n);
        RegisterTurn(server, p, n, lists, s, outer);
      case DoUnregister(n) =>
        assert Apply(s, a) == UnregisterStep(s, n);
        UnregisterTurn(server, p, n, lists, s, outer);
      case DoConnect(tid, n, ip, port) =>
        assert Apply(s, a) == ConnectStep(s, tid, n, ip, port);
        p', lists' := ConnectTurn(server, p, tid, n, ip, port, lists, s, outer);
      case DoDisconnect(n, ip) =>
        assert Apply(s, a) == s.(users := Disconnect(s.users, n, ip).users);
        DisconnectTurn(server, p, n, ip, lists, s, outer);
      case DoSend(tid, sender, dest, text, file, attach) =>
        assert Apply(s, a) == SendStep(s, tid, sender, dest, text, file, attach);
        p', lists' := SendTurn(server, p, tid, sender, dest, text, file, attach, lists, s, outer);
      case SendOutcome(tid, ok, ackOk) =>
        assert Apply(s, a) == SendOutcomeStep(s, tid, ok, ackOk);
        SendTriedTracks(server, p, tid, ok, ackOk, lists, s, outer);
        p' := SendTried(p, tid, ok, ackOk);
      case Settle(tid) =>
        assert Apply(s, a) == SettleStep(s, tid);
        p', lists' := SettleTurn(server, p, tid, lists, s, outer);
      case FlushOutcome(tid, ok) =>
        assert Apply(s, a) == FlushOutcomeStep(s, tid, ok);
        FlushTriedTracks(server, p, tid, ok, lists, s, outer);
        p' := FlushTried(p, tid, ok);
      case AckFlushed(tid, ackOk) =>
        assert Apply(s, a) == AckFlushedStep(s, tid, ackOk);
        p', lists' := AckTurn(server, p, tid, ackOk, lists, s, outer);
      case GiveBack(tid) =>
        assert Apply(s, a) == GiveBackStep(s, tid);
        p', lists' := GiveBackTurn(server, p, tid, lists, s, outer);
    }
  }

  lemma RunOnSnoc(s: State, steps: seq<Action>, k: nat)
    requires k < |steps|
    ensures RunOn(s, steps[..k + 1]) == Apply(RunOn(s, steps[..k]), steps[k])
  {
    assert steps[..k + 1][..k] == steps[..k];
  }

  /** Any schedule does to the linked lists what the protocol does, and leaves alone the nodes owned outside. */
  method Schedule(server: Server, p: Pool, steps: seq<Action>,
                  ghost lists: Lists, ghost s: State, ghost outer: set<MessageNode>)
    returns (p': Pool, ghost lists': Lists)
    requires Tracks(server, p, lists, s, outer) && forall i | 0 <= i < |steps| :: Bounded(steps[i])
    modifies server, server.world - outer
    ensures Tracks(server, p', lists', RunOn(s, steps), outer)
    ensures server.Grew() && old(server.freed) <= server.freed
  {
    p', lists' := p, lists;
    ghost var s' := s;
    for k := 0 to |steps|
      invariant s' == RunOn(s, steps[..k]) && Tracks(server, p', lists', s', outer)
      invariant server.Grew() && old(server.freed) <= server.freed
    {
      RunOnSnoc(s, steps, k);
      p', lists' := Turn(server, p', steps[k], lists', s', outer);
      s' := RunOn(s, steps[..k + 1]);
    }
    assert steps[..|steps|] == steps;
  }

  /** Waiting for the mutex while the other workers run any schedule keeps every promise of `Server.Lock` to a worker
      that owns `mine`. */
  method LockAmid(server: Server, p: Pool, steps: seq<Action>,
                  ghost lists: Lists, ghost s: State, ghost mine: set<MessageNode>)
    returns (p': Pool, ghost lists': Lists)
    requires server.Valid() && !server.locked && server.Owned(mine)
    requires Tracks(server, p, lists, s, mine) && forall i | 0 <= i < |steps| :: Bounded(steps[i])
    modifies server, server.world - mine
    ensures server.Valid() && server.locked && server.Owned(mine)
    ensures server.Grew()
    ensures old(server.freed) <= server.freed
    ensures AllOwned(server, lists', mine)
    ensures AsMap(server.Contents()) == RunOn(s, steps).users && Follows(p', lists', RunOn(s, steps))
  {
    p', lists' := Schedule(server, p, steps, lists, s, mine);
    label Granted:
    server.Take(HeldIn(lists') + mine);
    StillChained@Granted(lists');
  }

  /** A schedule run from the start over an empty server is the protocol's run of the same steps. */
  method Execute(steps: seq<Action>) returns (server: Server, p: Pool, ghost lists: Lists)
    requires forall i | 0 <= i < |steps| :: Bounded(steps[i])
    ensures fresh(server) && Tracks(server, p, lists, Run(steps), {})
  {
    server := new Server();
    p, lists := Pool(map[], [], []), map[];
    RunBlock([], steps);
    assert [] + steps == steps;
    p, lists := Schedule(server, p, steps, lists, INIT, {});
  }

  // ---- What the protocol's theorems say about the linked lists.

  lemma UserInState(server: Server, i: nat)
    requires server.Valid() && i < |server.users|
    ensures var u, us := server.users[i], AsMap(server.Contents()); u.name in us && us[u.name] == RecordOf(u)
  {
    AtIndex(server.Contents(), i);
    FoundRecord(server, server.users[i].name);
  }

  /** A connected user towards whom no send is in flight has a null queue pointer. */
  lemma QuietPointerIsNull(server: Server, p: Pool, lists: Lists, steps: seq<Action>, outer: set<MessageNode>, i: nat)
    requires Tracks(server, p, lists, Run(steps), outer)
    requires i < |server.users| && server.users[i].connected
    requires forall tid | tid in p.tasks && (p.tasks[tid].SendTask? || p.tasks[tid].SettleTask?) ::
               p.tasks[tid].dest != server.users[i].name
    ensures server.users[i].messages == null
  {
    var u, s := server.users[i], Run(steps);
    UserInState(server, i);
    forall w | w in s.workers && s.workers[w].IsSend() ensures s.workers[w].dest != u.name {
      assert Stands(p.tasks[w], s.workers[w], lists[w]);
    }
    Stranded.QuietQueueIsEmpty(steps, u.name);
    assert QueueSound(u);
  }

  /** The node of the t-th accepted message is linked into its recipient's queue, or held by a CONNECT for it. */
  ghost predicate OnTheHeap(server: Server, p: Pool, lists: Lists, t: nat, dest: Name)
    reads server, server.users
  {
    || (exists i, j :: 0 <= i < |server.users| && server.users[i].name == dest
                       && 0 <= j < |server.users[i].queue| && server.users[i].queue[j].tag == t)
    || (exists tid, j :: tid in p.tasks && tid in lists && p.tasks[tid].dest == dest
                         && 0 <= j < |lists[tid]| && lists[tid][j].tag == t)
  }

  /** A clean sender's message to a recipient never unregistered is on the heap until its delivery is reported. */
  lemma UnreportedIsOnTheHeap(server: Server, p: Pool, lists: Lists, steps: seq<Action>, outer: set<MessageNode>,
                              t: nat)
    requires Tracks(server, p, lists, Run(steps), outer) && t < |Run(steps).accepted|
    requires var s := Run(steps); Loss.CleanSender(s, s.accepted[t].msg.sender) && s.accepted[t].dest !in s.gone
    requires Report(t, false) !in Run(steps).reports && Report(t, true) !in Run(steps).reports
    ensures OnTheHeap(server, p, lists, t, Run(steps).accepted[t].dest)
  {
    var s := Run(steps);
    var dest := s.accepted[t].dest;
    Loss.NoLoss(steps, t);
    if exists i: nat :: Ownership.QueuedAt(s, t, dest, i) {
      var i: nat :| Ownership.QueuedAt(s, t, dest, i);
      LookupAgrees(server.Contents(), dest);
      var u := server.users[IndexOf(server.Contents(), dest)];
      assert RecordOf(u) == s.users[dest];
      assert u.queue[i].tag == t;
    } else {
      var w: nat, i: nat :| Ownership.DetachedAt(s, t, w, i) && s.workers[w].dest == dest;
      assert Stands(p.tasks[w], s.workers[w], lists[w]);
      assert lists[w][i].tag == t;
    }
  }

  /** A queued node of the protocol's state is a linked node of that user. */
  lemma QueuedIsLinked(server: Server, us: Users, n: Name, k: nat)
    requires server.Valid() && AsMap(server.Contents()) == us && n in us && k < |us[n].queue|
    ensures exists i :: 0 <= i < |server.users| && server.users[i].name == n && k < |server.users[i].queue|
                        && server.users[i].queue[k].tag == us[n].queue[k].tag
                        && server.users[i].queue[k] in server.world
  {
    LookupAgrees(server.Contents(), n);
    var i := IndexOf(server.Contents(), n);
    assert RecordOf(server.users[i]) == us[n];
    assert QueueLives(server.users[i], server.world, server.freed);
  }

  /** Nothing leaks, and nothing is released twice or too early: after any schedule every message node that was ever
      allocated carries the accepted message of its tag, and either it is released and the protocol has released its
      tag exactly once, or it is linked into a user's queue or held by a CONNECT. */
  lemma ReleasedOrLinked(server: Server, p: Pool, lists: Lists, steps: seq<Action>, outer: set<MessageNode>,
                         m: MessageNode)
    requires Tracks(server, p, lists, Run(steps), outer) && m in server.world
    ensures var s := Run(steps);
      && m.tag < |s.accepted| && m.msg == s.accepted[m.tag].msg && s.freed[m.tag] <= 1
      && (m in server.freed <==> s.freed[m.tag] == 1)
      && (m !in server.freed <==>
            (exists i :: 0 <= i < |server.users| && m in server.users[i].queue) || m in HeldIn(lists))
  {
    var s, t := Run(steps), m.tag;
    Ownership.ReleasedOnceOrOwned(steps, t);
    if n: Name, k: nat :| Ownership.QueuedAt(s, t, n, k) {
      QueuedIsLinked(server, s.users, n, k);
    } else if w: nat, k: nat :| Ownership.DetachedAt(s, t, w, k) {
      assert Stands(p.tasks[w], s.workers[w], lists[w]);
      assert lists[w][k].tag == t && lists[w][k] in HeldIn(lists);
      assert server.OwnsNode(lists[w][k]);
    }
    if i :| 0 <= i < |server.users| && m in server.users[i].queue {
      assert QueueLives(server.users[i], server.world, server.freed);
    }
  }
}
