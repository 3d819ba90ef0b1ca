/** The request handlers: sections joined by unlocked network work. A ghost `before` is the list of users
    the handler found when the mutex was granted; between two sections other workers may do anything. `others` is
    any set of nodes that other workers own all along: a handler leaves them alone just as `Lock` promises that other
    workers leave alone what the handler owns. `reply` is the connection the request came over.
  */
module Requests {
  import opened Basics
  import opened MessageIds
  import opened Registry
  import opened MessageList
  import opened LinkedServer
  import opened Sections
  import opened Framing
  import opened Decimal
  import opened Frames
  import opened Utf8

  /** Sends the result code over the connection of the request, with the mutex free. */
  method Answer(s: Server, reply: Sink, code: Byte, ghost others: set<MessageNode>)
    requires s.Valid() && s.Owned(others) && reply !in s.world
    modifies reply
    ensures s.Valid() && s.Owned(others) && s.Contents() == old(s.Contents())
    ensures reply.sent == old(reply.sent) + Outgoing(old(reply.plan), [[code]])
  {
    SendCode(reply, code);
  }

  method RegisterAlone(s: Server, name: Name, ghost others: set<MessageNode>)
    returns (code: Byte, ghost before: seq<User>)
    requires s.Valid() && !s.locked && |name| <= MAX_TEXT && s.Owned(others)
    modifies s, s.world - others
    ensures s.Valid() && !s.locked && s.Grew() && s.Owned(others) && old(s.freed) <= s.freed
    ensures Outcome(AsMap(s.Contents()), code) == Register(AsMap(before), name)
    ensures s.Contents() == (if code == 0 then [User(name, BLANK)] else []) + before
  {
    s.Lock(others);
    before := s.Contents();
    code := RegisterSection(s, name, others);
    s.Unlock(others);
  }

  method ProcessRegister(s: Server, reply: Sink, name: Name, ghost others: set<MessageNode>)
    returns (code: Byte, ghost before: seq<User>)
    requires s.Valid() && !s.locked && |name| <= MAX_TEXT && s.Owned(others) && reply !in s.world
    modifies s, s.world - others, reply
    ensures s.Valid() && !s.locked && s.Grew() && s.Owned(others) && old(s.freed) <= s.freed
    ensures Outcome(AsMap(s.Contents()), code) == Register(AsMap(before), name)
    ensures s.Contents() == (if code == 0 then [User(name, BLANK)] else []) + before
    ensures reply.sent == old(reply.sent) + Outgoing(old(reply.plan), [[code]])
  {
    code, before := RegisterAlone(s, name, others);
    Answer(s, reply, code, others);
  }

  /** `found` is what was released when the mutex was granted; a known user's node and its queue, `gone`, are
      released. */
  method ProcessUnregister(s: Server, reply: Sink, name: Name, ghost others: set<MessageNode>)
    returns (code: Byte, ghost before: seq<User>, ghost found: set<object>,
             ghost gone: seq<MessageNode>, ghost user: UserNode?)
    requires s.Valid() && !s.locked && s.Owned(others) && reply !in s.world
    modifies s, s.world - others, reply
    ensures s.Valid() && !s.locked && s.Grew() && s.Owned(others) && old(s.freed) <= found
    ensures Outcome(AsMap(s.Contents()), code) == Unregister(AsMap(before), name)
    ensures s.Contents() == Without(before, IndexOf(before, name))
    ensures if code == 0 then user != null && user.name == name && s.freed == found + (set m | m in gone) + {user}
            else user == null && gone == [] && s.freed == found
    ensures code == 0 ==> NodesOf(gone) == AsMap(before)[name].queue
    ensures reply.sent == old(reply.sent) + Outgoing(old(reply.plan), [[code]])
  {
    s.Lock(others);
    before, found := s.Contents(), s.freed;
    code, gone, user := UnregisterSection(s, name, others);
    s.Unlock(others);
    Answer(s, reply, code, others);
  }

  method ProcessDisconnect(s: Server, reply: Sink, name: Name, ip: Bytes, ghost others: set<MessageNode>)
    returns (code: Byte, ghost before: seq<User>)
    requires s.Valid() && !s.locked && s.Owned(others) && reply !in s.world
    modifies s, s.world - others, reply
    ensures s.Valid() && !s.locked && s.Grew() && s.Owned(others) && old(s.freed) <= s.freed
    ensures Outcome(AsMap(s.Contents()), code) == Disconnect(AsMap(before), name, ip)
    ensures Up(AsMap(before), name) ==> code == if AsMap(before)[name].ip == ip then 0 else 3
    ensures reply.sent == old(reply.sent) + Outgoing(old(reply.plan), [[code]])
  {
    s.Lock(others);
    before := s.Contents();
    code := DisconnectSection(s, name, ip, others);
    s.Unlock(others);
    Answer(s, reply, code, others);
  }

  /** What the network does when the server dials: whether the connection opens, and what it then takes. */
  datatype Dialled = Dialled(up: bool, plan: seq<WriteEvent>)

  /** A connection that was tried, and what it took. */
  datatype Call = Call(to: Address, sent: Bytes)

  /** What a dialled connection takes of strings sent until the first is refused. */
  function TookOf(net: Dialled, fields: seq<Bytes>): Bytes {
    if net.up then SentUntil(net.plan, fields) else []
  }

  /** The connection opens and refuses none of them. */
  predicate TookAll(net: Dialled, fields: seq<Bytes>) {
    net.up && !RefusedIn(net.plan, fields)
  }

  /** A beginning of the frame goes out: all of it exactly if the delivery counts as done, which it does over a
      connection that opens and refuses no write. */
  lemma TookAllIff(net: Dialled, fields: seq<Bytes>)
    requires fields != []
    ensures TookOf(net, fields) <= Wire(fields)
    ensures TookAll(net, fields) <==> TookOf(net, fields) == Wire(fields)
    ensures net.up && AllTook(net.plan) ==> TookAll(net, fields)
  {
    SentUntilIs(net.plan, fields);
    assert |Wire(fields)| > 0;
  }

  /** The call a delivery makes, if there is an address to deliver to. */
  function CallFor(to: Option<Address>, net: Dialled, fields: seq<Bytes>): Option<Call> {
    match to
    case None => None
    case Some(a) => Some(Call(a, TookOf(net, fields)))
  }

  /** A send. `line` is the connection to the recipient's listener, if the recipient was connected: it goes to the
      address copied under the mutex and takes what it takes of the message's frame. The message leaves the queue only
      if that is all of it. `ackLine` is the same for the acknowledgement. `before2` and `found` are the users and the
      released nodes the second section finds. */
  method ProcessSend(s: Server, reply: Sink, net: Dialled, ackNet: Dialled,
                     sender: Name, dest: Name, text: Bytes, file: Bytes, attach: bool,
                     ghost tag: nat, ghost others: set<MessageNode>)
    returns (code: Byte, msg: Msg, line: Option<Call>, delivered: bool, ackLine: Option<Call>,
             ghost before: seq<User>, ghost after: seq<User>, ghost before2: seq<User>,
             ghost found: set<object>, ghost removed: MessageNode?)
    requires s.Valid() && !s.locked && s.Owned(others) && reply !in s.world
    modifies s, s.world - others, reply
    ensures s.Valid() && !s.locked && s.Grew() && s.Owned(others) && old(s.freed) <= s.freed
    ensures Outcome(AsMap(after), code) == Enqueue(AsMap(before), sender, dest, tag, text, file, attach)
    ensures code == 0 ==> msg == Compose(NextId(AsMap(before)[sender].lastId), sender, text, file, attach)
    ensures reply.sent == old(reply.sent) + Outgoing(old(reply.plan), SendAnswer(code, msg.id))
    ensures var fields := DirectFields(msg.id, sender, text, file, attach);
      && line == CallFor(if code == 0 then Reach(AsMap(before), dest) else None, net, fields)
      && (delivered <==> line.Some? && TookAll(net, fields))
    ensures ackLine == if code == 0 && delivered
                       then AckCall(Reach(AsMap(before), sender), ackNet, msg.id, file, attach) else None
    ensures line.None? ==> s.Contents() == after
    ensures delivered ==> AsMap(s.Contents()) == Remove(AsMap(before2), dest, msg)
    ensures delivered ==> RemovedFor(AsMap(before2), dest, msg, removed)
    ensures line.Some? && !delivered ==>
              AsMap(s.Contents()) == Registry.MarkDown(AsMap(before2), dest) && removed == null
    ensures line.Some? ==> s.freed == found + if removed == null then {} else {removed}
  {
    var to, ackTo;
    code, msg, to, ackTo, before, after := StoreMessage(s, reply, sender, dest, text, file, attach, tag, others);
    before2, found, removed := after, s.freed, null;
    line, delivered, ackLine := None, false, None;
    if to.Some? {
      var call;
      call, delivered, ackLine := TryRecipient(to.value, net, ackTo, ackNet, msg.id, sender, text, file, attach);
      line := Some(call);
      before2, found, removed := SettleSend(s, dest, msg, delivered, others);
    }
  }

  /** The call that acknowledges a message, if there is an address to acknowledge it to. */
  function AckCall(to: Option<Address>, net: Dialled, id: nat, file: Bytes, attach: bool): Option<Call> {
    match to
    case None => None
    case Some(a) => Some(Call(a, if net.up then Outgoing(net.plan, AckPieces(id, file, attach)) else []))
  }

  /** The network part of a send, between its two sections: the frame, and if the recipient took it the
      acknowledgement, if the sender had an address. */
  method TryRecipient(to: Address, net: Dialled, ackTo: Option<Address>, ackNet: Dialled,
                      id: nat, sender: Name, text: Bytes, file: Bytes, attach: bool)
    returns (line: Call, delivered: bool, ackLine: Option<Call>)
    ensures var fields := DirectFields(id, sender, text, file, attach);
            line == Call(to, TookOf(net, fields)) && (delivered <==> TookAll(net, fields))
    ensures ackLine == if delivered then AckCall(ackTo, ackNet, id, file, attach) else None
  {
    delivered, line := Dial(to, net, id, sender, text, file, attach);
    ackLine := None;
    if delivered {
      ackLine := Acknowledge(ackTo, ackNet, id, file, attach);
    }
  }

  /** Opens a connection and delivers a message over it. */
  method Dial(to: Address, net: Dialled, id: nat, sender: Name, text: Bytes, file: Bytes, attach: bool)
    returns (ok: bool, call: Call)
    ensures var fields := DirectFields(id, sender, text, file, attach);
            call == Call(to, TookOf(net, fields)) && (ok <==> TookAll(net, fields))
  {
    var sink := new Sink(net.plan);
    ghost var fields := DirectFields(id, sender, text, file, attach);
    ok := Deliver(sink, net.up, id, sender, text, file, attach);
    assert [] + TookOf(net, fields) == TookOf(net, fields);
    call := Call(to, sink.sent);
  }

  /** Sends an acknowledgement over a connection of its own. */
  method Acknowledge(to: Option<Address>, net: Dialled, id: nat, file: Bytes, attach: bool) returns (call: Option<Call>)
    ensures call == AckCall(to, net, id, file, attach)
  {
    call := None;
    if to.Some? {
      var sink := new Sink(net.plan);
      NothingWent(sink);
      SendAck(sink, net.up, id, file, attach, net.plan, [], []);
      OnlyWent(sink, net.plan, if net.up then AckPieces(id, file, attach) else []);
      call := Some(Call(to.value, sink.sent));
    }
  }

  lemma OnlyWent(sink: Sink, plan: seq<WriteEvent>, pieces: seq<Bytes>)
    requires Went(sink, plan, [], [] + pieces)
    ensures sink.sent == Outgoing(plan, pieces)
  {
    assert [] + pieces == pieces;
    assert [] + Outgoing(plan, pieces) == Outgoing(plan, pieces);
  }

  /** With the mutex held: answers a send. The code and the id are sent before the mutex is released, a refusal
      after. */
  method AnswerSend(s: Server, reply: Sink, code: Byte, id: nat, ghost others: set<MessageNode>)
    requires s.Valid() && s.locked && s.Owned(others) && reply !in s.world
    modifies s`locked, reply
    ensures s.Valid() && !s.locked && s.Owned(others) && s.Contents() == old(s.Contents())
    ensures reply.sent == old(reply.sent) + Outgoing(old(reply.plan), SendAnswer(code, id))
  {
    if code == 0 {
      SendCodeAndId(reply, id);
      s.Unlock(others);
    } else {
      s.Unlock(others);
      SendCode(reply, code);
    }
  }

  method SendCodeAndId(reply: Sink, id: nat)
    modifies reply
    ensures reply.sent == old(reply.sent) + Outgoing(old(reply.plan), SendAnswer(0, id))
  {
    ghost var plan0, sent0 := reply.plan, reply.sent;
    NothingWent(reply);
    SendOn(reply, [0], plan0, sent0, []);
    SendOn(reply, Print(id) + [NUL], plan0, sent0, [] + [[0]]);
    assert [] + [[0]] + [Print(id) + [NUL]] == SendAnswer(0, id);
  }

  /** The first section of a send. */
  method StoreMessage(s: Server, reply: Sink, sender: Name, dest: Name, text: Bytes, file: Bytes, attach: bool,
                      ghost tag: nat, ghost others: set<MessageNode>)
    returns (code: Byte, msg: Msg, deliver: Option<Address>, ack: Option<Address>,
             ghost before: seq<User>, ghost after: seq<User>)
    requires s.Valid() && !s.locked && s.Owned(others) && reply !in s.world
    modifies s, s.world - others, reply
    ensures s.Valid() && !s.locked && s.Grew() && s.Owned(others) && old(s.freed) <= s.freed && s.Contents() == after
    ensures Outcome(AsMap(after), code) == Enqueue(AsMap(before), sender, dest, tag, text, file, attach)
    ensures code == 0 ==> && msg == Compose(NextId(AsMap(before)[sender].lastId), sender, text, file, attach)
                          && deliver == Reach(AsMap(before), dest) && ack == Reach(AsMap(before), sender)
    ensures code != 0 ==> deliver.None?
    ensures reply.sent == old(reply.sent) + Outgoing(old(reply.plan), SendAnswer(code, msg.id))
  {
    s.Lock(others);
    before := s.Contents();
    code, msg, deliver, ack := EnqueueSection(s, sender, dest, text, file, attach, tag, others);
    if code != 0 {
      deliver := None;
    }
    after := s.Contents();
    AnswerSend(s, reply, code, msg.id, others);
  }

  /** The second section of a send that tried its recipient. */
  method SettleSend(s: Server, dest: Name, msg: Msg, delivered: bool, ghost others: set<MessageNode>)
    returns (ghost before: seq<User>, ghost found: set<object>, ghost removed: MessageNode?)
    requires s.Valid() && !s.locked && s.Owned(others)
    modifies s, s.world - others
    ensures s.Valid() && !s.locked && s.Grew() && s.Owned(others) && old(s.freed) <= found
    ensures AsMap(s.Contents()) ==
            if delivered then Remove(AsMap(before), dest, msg) else Registry.MarkDown(AsMap(before), dest)
    ensures if delivered then RemovedFor(AsMap(before), dest, msg, removed) else removed == null
    ensures s.freed == found + if removed == null then {} else {removed}
  {
    s.Lock(others);
    before, found, removed := s.Contents(), s.freed, null;
    if delivered {
      removed := RemoveSection(s, dest, msg, others);
    } else {
      MarkDownSection(s, dest, others);
    }
    s.Unlock(others);
  }

  /** The part of an owned list from its k-th node on. */
  ghost function From(mine: seq<MessageNode>, k: nat): set<MessageNode>
    requires k <= |mine|
  {
    set j | k <= j < |mine| :: mine[j]
  }

  /** What a worker may rely on for the part of its list it has not delivered, and for what others own. */
  ghost predicate Holding(s: Server, mine: seq<MessageNode>, k: nat, others: set<MessageNode>)
    reads s, s.world, mine
  {
    && s.Valid() && k <= |mine| && NoRepeats(mine) && s.Owned(From(mine, k))
    && (forall j {:trigger mine[j].next} | k <= j < |mine| :: mine[j].next == At(mine, j + 1))
    && s.Owned(others) && others !! From(mine, k)
  }

  lemma SuffixLinked(s: Server, mine: seq<MessageNode>, k: nat, others: set<MessageNode>)
    requires Holding(s, mine, k, others)
    ensures Linked(At(mine, k), mine[k..]) && From(mine, k) == set m | m in mine[k..]
    ensures forall j | k <= j < |mine| :: s.OwnsNode(mine[j])
  {
    var rest := mine[k..];
    forall j | 0 <= j < |rest| ensures rest[j].next == At(rest, j + 1) {
      assert rest[j] == mine[k + j];
    }
    forall j | k <= j < |mine| ensures mine[j] in From(mine, k) && mine[j] in rest {
      assert rest[j - k] == mine[j];
    }
  }

  /** Looks the sender up: an acknowledgement is due, and where to, exactly if it is registered and connected now. */
  method LookUpSender(s: Server, sender: Name, ghost mine: seq<MessageNode>, ghost k: nat,
                      ghost others: set<MessageNode>)
    returns (to: Option<Address>, ghost seen: seq<User>)
    requires Holding(s, mine, k, others) && !s.locked
    modifies s, s.world - (From(mine, k) + others)
    ensures Holding(s, mine, k, others) && !s.locked && s.Grew() && old(s.freed) <= s.freed
    ensures to == Reach(AsMap(seen), sender)
  {
    SuffixLinked(s, mine, k, others);
    s.Lock(From(mine, k) + others);
    seen := s.Contents();
    var u;
    u, to := FindAddress(s, sender);
    s.Unlock(From(mine, k) + others);
  }

  /** Relocks after a failed delivery and gives the rest of the list back. */
  method GiveUp(s: Server, dest: Name, act: MessageNode?, ghost mine: seq<MessageNode>, ghost k: nat,
                ghost others: set<MessageNode>)
    returns (ghost before: seq<User>)
    requires Holding(s, mine, k, others) && !s.locked && act == At(mine, k)
    modifies s, s.world - others
    ensures s.Valid() && !s.locked && s.Grew() && s.Owned(others) && old(s.freed) <= s.freed
    ensures AsMap(s.Contents()) == SpliceBack(AsMap(before), dest, NodesOf(mine[k..]))
    ensures dest !in AsMap(before) ==> From(mine, k) <= s.freed
  {
    SuffixLinked(s, mine, k, others);
    s.Lock(From(mine, k) + others);
    before := s.Contents();
    SuffixLinked(s, mine, k, others);
    SpliceSection(s, dest, act, mine[k..], others);
    s.Unlock(others);
  }

  /** The delivered messages are the first of the list, in order, and their nodes are released. */
  ghost predicate Flushed(mine: seq<MessageNode>, delivered: seq<Msg>, freed: set<object>) {
    |delivered| <= |mine| && forall i | 0 <= i < |delivered| :: delivered[i] == mine[i].msg && mine[i] in freed
  }

  /** Each delivered message went out in full over a call of its own to the address. */
  ghost predicate AllTo(lines: seq<Call>, to: Address, nets: nat -> Dialled, delivered: seq<Msg>) {
    && |lines| == |delivered|
    && forall i | 0 <= i < |delivered| :: WentOut(lines[i], to, nets(i), delivered[i])
  }

  predicate WentOut(call: Call, to: Address, net: Dialled, m: Msg) {
    call == Call(to, Wire(StoredFields(m))) && TookAll(net, StoredFields(m))
  }

  /** Each delivered message is acknowledged, over a call of its own, exactly if its sender was connected when looked
      up, to the address it had then. */
  ghost predicate AcksDue(delivered: seq<Msg>, acks: seq<Option<Call>>, seen: seq<seq<User>>, ackNets: nat -> Dialled) {
    && |acks| == |seen| == |delivered|
    && forall i | 0 <= i < |delivered| :: AckedFor(acks[i], seen[i], delivered[i], ackNets(i))
  }

  predicate AckedFor(ack: Option<Call>, view: seq<User>, m: Msg, net: Dialled) {
    ack == AckOf(view, m, net)
  }

  function AckOf(view: seq<User>, m: Msg, net: Dialled): Option<Call> {
    AckCall(Reach(AsMap(view), m.sender), net, m.id, m.file, m.attach)
  }

  /** What the recipient's listener makes of such a call. */
  lemma CallIsHeard(call: Call, to: Address, net: Dialled, m: Msg)
    requires WentOut(call, to, net, m) && NoNul(m.sender) && NoNul(m.text) && NoNul(m.file)
    ensures HeardIn(call.sent) == if Readable(m) then Shown(Content(m)) else Raised
  {
    ListenerRecovers(m, []);
    assert call.sent + [] == call.sent;
  }

  /** What the sender's listener makes of an acknowledgement, if it can be reached and takes it: the id, and the file of
      an attachment, of the message that was delivered. */
  lemma AckIsHeard(view: seq<User>, m: Msg, net: Dialled)
    requires Up(AsMap(view), m.sender) && NoNul(m.file)
    ensures var call := AckOf(view, m, net);
      && call.Some? && Some(call.value.to) == Reach(AsMap(view), m.sender)
      && (!net.up ==> call.value.sent == [])
      && (net.up && AllTook(net.plan) ==>
            HeardIn(call.value.sent) ==
            if !m.attach then Shown(Ack(Print(m.id)))
            else if Decode(m.file).Some? then Shown(AckWithFile(Print(m.id), Decode(m.file).value)) else Raised)
  {
    if net.up && AllTook(net.plan) {
      AckArrives(net.plan, m.id, m.file, m.attach);
      AckRecovers(m.id, m.file, m.attach);
    }
  }

  /** The call that failed took a proper beginning of the frame. */
  predicate FellShort(call: Call, to: Address, net: Dialled, m: Msg) {
    && call == Call(to, TookOf(net, StoredFields(m))) && !TookAll(net, StoredFields(m))
    && call.sent < Wire(StoredFields(m))
  }

  /** What was delivered and acknowledged so far. */
  ghost predicate Logged(mine: seq<MessageNode>, to: Address, nets: nat -> Dialled, ackNets: nat -> Dialled,
                         delivered: seq<Msg>, lines: seq<Call>, acks: seq<Option<Call>>, seen: seq<seq<User>>,
                         freed: set<object>)
  {
    Flushed(mine, delivered, freed) && AllTo(lines, to, nets, delivered) && AcksDue(delivered, acks, seen, ackNets)
  }

  lemma OneMoreLogged(mine: seq<MessageNode>, to: Address, nets: nat -> Dialled, ackNets: nat -> Dialled,
                      delivered: seq<Msg>, lines: seq<Call>, acks: seq<Option<Call>>, seen: seq<seq<User>>,
                      freed: set<object>, m: Msg, line: Call, ack: Option<Call>, view: seq<User>, freed': set<object>)
    requires Logged(mine, to, nets, ackNets, delivered, lines, acks, seen, freed)
    requires |delivered| < |mine| && m == mine[|delivered|].msg && mine[|delivered|] in freed' && freed <= freed'
    requires WentOut(line, to, nets(|delivered|), m) && AckedFor(ack, view, m, ackNets(|delivered|))
    ensures Logged(mine, to, nets, ackNets, delivered + [m], lines + [line], acks + [ack], seen + [view], freed')
  {
    OneMoreFlushed(mine, delivered, freed, freed');
    OneMoreLine(lines, to, nets, delivered, m, line);
    OneMoreAck(delivered, acks, seen, ackNets, m, ack, view);
  }

  lemma OneMoreFlushed(mine: seq<MessageNode>, delivered: seq<Msg>, freed: set<object>, freed': set<object>)
    requires Flushed(mine, delivered, freed) && freed <= freed' && |delivered| < |mine| && mine[|delivered|] in freed'
    ensures Flushed(mine, delivered + [mine[|delivered|].msg], freed')
  {
  }

  lemma OneMoreLine(lines: seq<Call>, to: Address, nets: nat -> Dialled, delivered: seq<Msg>, m: Msg, line: Call)
    requires AllTo(lines, to, nets, delivered) && WentOut(line, to, nets(|delivered|), m)
    ensures AllTo(lines + [line], to, nets, delivered + [m])
  {
    forall i | 0 <= i < |delivered + [m]| ensures WentOut((lines + [line])[i], to, nets(i), (delivered + [m])[i]) {
      assert i < |delivered| ==> WentOut(lines[i], to, nets(i), delivered[i]);
    }
  }

  lemma OneMoreAck(delivered: seq<Msg>, acks: seq<Option<Call>>, seen: seq<seq<User>>, ackNets: nat -> Dialled,
                   m: Msg, ack: Option<Call>, view: seq<User>)
    requires AcksDue(delivered, acks, seen, ackNets) && AckedFor(ack, view, m, ackNets(|delivered|))
    ensures AcksDue(delivered + [m], acks + [ack], seen + [view], ackNets)
  {
    var all, views, ms := acks + [ack], seen + [view], delivered + [m];
    var n := |delivered|;
    assert all[n] == ack && views[n] == view && ms[n] == m;
    forall i | 0 <= i < |ms| ensures AckedFor(all[i], views[i], ms[i], ackNets(i)) {
      if i < n {
        assert AckedFor(acks[i], seen[i], delivered[i], ackNets(i));
        assert all[i] == acks[i] && views[i] == seen[i] && ms[i] == delivered[i];
      }
    }
  }

  /** The flush loop of CONNECT over its detached list. Each delivery, and each acknowledgement, has a connection of its
      own; `nets(k)` and `ackNets(k)` are what the network does with the k-th. It delivers exactly the nodes before the
      first failure, in order, to the one address, releasing each; the rest goes, in order, behind whatever the user's
      queue holds when the failure is dealt with. Of the message that failed a proper part of the frame may be out. The
      k-th sender is looked up in `seen[k]`. */
  method FlushPending(s: Server, list: MessageNode?, ghost mine: seq<MessageNode>, dest: Name, to: Address,
                      nets: nat -> Dialled, ackNets: nat -> Dialled, ghost others: set<MessageNode>)
    returns (delivered: seq<Msg>, lines: seq<Call>, acks: seq<Option<Call>>, failed: Option<Call>,
             ghost before: seq<User>, ghost seen: seq<seq<User>>)
    requires Holding(s, mine, 0, others) && !s.locked && list == At(mine, 0)
    modifies s, s.world - others
    ensures s.Valid() && !s.locked && s.Grew() && s.Owned(others) && old(s.freed) <= s.freed
    ensures Logged(mine, to, nets, ackNets, delivered, lines, acks, seen, s.freed)
    ensures failed.Some? <==> |delivered| < |mine|
    ensures failed.Some? ==> var k := |delivered|;
      && FellShort(failed.value, to, nets(k), mine[k].msg)
      && AsMap(s.Contents()) == SpliceBack(AsMap(before), dest, NodesOf(mine[k..]))
      && (dest !in AsMap(before) ==> From(mine, k) <= s.freed)
  {
    var act;
    before := s.Contents();
    delivered, lines, acks, act, failed, seen := FlushPrefix(s, list, mine, to, nets, ackNets, others);
    if act != null {
      ghost var freed0 := s.freed;
      before := GiveUp(s, dest, act, mine, |delivered|, others);
      StaysFlushed(mine, delivered, freed0, s.freed);
    }
  }

  lemma StaysFlushed(mine: seq<MessageNode>, delivered: seq<Msg>, freed: set<object>, freed': set<object>)
    requires Flushed(mine, delivered, freed) && freed <= freed'
    ensures Flushed(mine, delivered, freed')
  {
  }

  /** The loop up to the first failure: `act` is the node that could not be delivered, or null at the end. */
  method FlushPrefix(s: Server, list: MessageNode?, ghost mine: seq<MessageNode>, to: Address,
                     nets: nat -> Dialled, ackNets: nat -> Dialled, ghost others: set<MessageNode>)
    returns (delivered: seq<Msg>, lines: seq<Call>, acks: seq<Option<Call>>, act: MessageNode?, failed: Option<Call>,
             ghost seen: seq<seq<User>>)
    requires Holding(s, mine, 0, others) && !s.locked && list == At(mine, 0)
    modifies s, s.world - others
    ensures !s.locked && s.Grew() && old(s.freed) <= s.freed
    ensures Logged(mine, to, nets, ackNets, delivered, lines, acks, seen, s.freed)
    ensures Holding(s, mine, |delivered|, others) && act == At(mine, |delivered|)
    ensures if act == null then failed.None?
            else failed.Some? && FellShort(failed.value, to, nets(|delivered|), act.msg)
  {
    delivered, lines, acks, failed, seen := [], [], [], None, [];
    act := list;
    while act != null
      invariant Holding(s, mine, |delivered|, others) && act == At(mine, |delivered|)
      invariant !s.locked && s.Grew() && old(s.freed) <= s.freed
      invariant Logged(mine, to, nets, ackNets, delivered, lines, acks, seen, s.freed) && failed.None?
      decreases |mine| - |delivered|
    {
      var next, m := act.next, act.msg;
      ghost var freed0 := s.freed;
      var ok, line, ack;
      ghost var view;
      ok, line, ack, view := FlushOne(s, act, mine, |delivered|, to, nets(|delivered|), ackNets(|delivered|), others);
      if !ok {
        failed := Some(line);
        return;
      }
      OneMoreLogged(mine, to, nets, ackNets, delivered, lines, acks, seen, freed0, m, line, ack, view, s.freed);
      delivered, lines, acks, seen := delivered + [m], lines + [line], acks + [ack], seen + [view];
      act := next;
    }
  }

  /** Tries the head of the list; if it is delivered its sender is looked up and acknowledged, and the node released. */
  method FlushOne(s: Server, act: MessageNode, ghost mine: seq<MessageNode>, ghost k: nat, to: Address,
                  net: Dialled, ackNet: Dialled, ghost others: set<MessageNode>)
    returns (ok: bool, line: Call, ack: Option<Call>, ghost seen: seq<User>)
    requires Holding(s, mine, k, others) && !s.locked && k < |mine| && act == mine[k]
    modifies s, s.world - (From(mine, k) + others)
    ensures !s.locked && s.Grew() && old(s.freed) <= s.freed
    ensures if ok then Holding(s, mine, k + 1, others) && act in s.freed else Holding(s, mine, k, others)
    ensures if ok then WentOut(line, to, net, act.msg) else FellShort(line, to, net, act.msg)
    ensures ok ==> AckedFor(ack, seen, act.msg, ackNet)
  {
    ack, seen := None, [];
    ok, line := DeliverStored(to, net, act.msg);
    if ok {
      var ackTo;
      ackTo, seen := LookUpSender(s, act.msg.sender, mine, k, others);
      ack := Acknowledge(ackTo, ackNet, act.msg.id, act.msg.file, act.msg.attach);
      ReleaseHead(s, act, mine, k, others);
    }
  }

  /** Sends a stored message. */
  method DeliverStored(to: Address, net: Dialled, m: Msg) returns (ok: bool, call: Call)
    ensures if ok then WentOut(call, to, net, m) else FellShort(call, to, net, m)
  {
    ok, call := Dial(to, net, m.id, m.sender, m.text, m.file, m.attach);
    TookAllIff(net, StoredFields(m));
  }

  /** Releases the delivered head of the list; the rest is still held. */
  method ReleaseHead(s: Server, act: MessageNode, ghost mine: seq<MessageNode>, ghost k: nat,
                     ghost others: set<MessageNode>)
    requires Holding(s, mine, k, others) && !s.locked && k < |mine| && act == mine[k]
    modifies s`freed
    ensures Holding(s, mine, k + 1, others) && s.freed == old(s.freed) + {act}
  {
    SuffixLinked(s, mine, k, others);
    s.Free(act, others);
  }

  lemma HoldsAll(s: Server, list: MessageNode?, mine: seq<MessageNode>, others: set<MessageNode>)
    requires s.Valid() && Linked(list, mine) && s.Owned(From(mine, 0)) && s.Owned(others) && others !! From(mine, 0)
    ensures Holding(s, mine, 0, others) && list == At(mine, 0)
  {
  }

  /** Marks the user connected and takes its queue. */
  method TakeQueue(s: Server, name: Name, ip: Bytes, port: Bytes, ghost others: set<MessageNode>)
    returns (code: Byte, list: MessageNode?, ghost mine: seq<MessageNode>, ghost before: seq<User>)
    requires s.Valid() && !s.locked && s.Owned(others)
    modifies s, s.world - others
    ensures Holding(s, mine, 0, others) && !s.locked && s.Grew() && old(s.freed) <= s.freed && list == At(mine, 0)
    ensures Outcome(AsMap(s.Contents()), code) == Connect(AsMap(before), name, ip, port)
    ensures NodesOf(mine) == if code == 0 then AsMap(before)[name].queue else []
  {
    s.Lock(others);
    before := s.Contents();
    code, list, mine := ConnectSection(s, name, ip, port, others);
    assert From(mine, 0) == set m | m in mine;
    s.Unlock(From(mine, 0) + others);
    HoldsAll(s, list, mine, others);
  }

  /** Answers while the detached list is held. */
  method AnswerHolding(s: Server, reply: Sink, code: Byte, ghost mine: seq<MessageNode>, ghost others: set<MessageNode>)
    requires Holding(s, mine, 0, others) && reply !in s.world
    modifies reply
    ensures Holding(s, mine, 0, others) && s.Contents() == old(s.Contents())
    ensures reply.sent == old(reply.sent) + Outgoing(old(reply.plan), [[code]])
  {
    assert forall j | 0 <= j < |mine| :: mine[j] in From(mine, 0);
    SendCode(reply, code);
  }

  /** The first section of CONNECT and the answer, before anything of the queue is sent. */
  method ConnectAndAnswer(s: Server, reply: Sink, name: Name, ip: Bytes, port: Bytes, ghost others: set<MessageNode>)
    returns (code: Byte, list: MessageNode?, ghost mine: seq<MessageNode>, ghost before: seq<User>)
    requires s.Valid() && !s.locked && s.Owned(others) && reply !in s.world
    modifies s, s.world - others, reply
    ensures Holding(s, mine, 0, others) && !s.locked && s.Grew() && old(s.freed) <= s.freed && list == At(mine, 0)
    ensures Outcome(AsMap(s.Contents()), code) == Connect(AsMap(before), name, ip, port)
    ensures NodesOf(mine) == if code == 0 then AsMap(before)[name].queue else []
    ensures reply.sent == old(reply.sent) + Outgoing(old(reply.plan), [[code]])
  {
    code, list, mine, before := TakeQueue(s, name, ip, port, others);
    AnswerHolding(s, reply, code, mine, others);
  }

  /** The messages of the queue before the first failure, and the call that failed. */
  ghost predicate SentOf(queue: seq<Node>, to: Address, nets: nat -> Dialled, delivered: seq<Msg>,
                         failed: Option<Call>)
  {
    && |delivered| <= |queue| && (failed.Some? <==> |delivered| < |queue|)
    && (forall i | 0 <= i < |delivered| :: delivered[i] == queue[i].msg)
    && (failed.Some? ==> FellShort(failed.value, to, nets(|delivered|), queue[|delivered|].msg))
  }

  /** The flush, seen from what the nodes carry. */
  method FlushQueue(s: Server, list: MessageNode?, ghost mine: seq<MessageNode>, dest: Name, to: Address,
                    nets: nat -> Dialled, ackNets: nat -> Dialled, ghost others: set<MessageNode>)
    returns (delivered: seq<Msg>, lines: seq<Call>, acks: seq<Option<Call>>, failed: Option<Call>,
             ghost before: seq<User>, ghost seen: seq<seq<User>>)
    requires Holding(s, mine, 0, others) && !s.locked && list == At(mine, 0)
    modifies s, s.world - others
    ensures s.Valid() && !s.locked && s.Grew() && s.Owned(others) && old(s.freed) <= s.freed
    ensures var queue := NodesOf(mine);
      && SentOf(queue, to, nets, delivered, failed)
      && (failed.Some? ==> AsMap(s.Contents()) == SpliceBack(AsMap(before), dest, queue[|delivered|..]))
    ensures AllTo(lines, to, nets, delivered) && AcksDue(delivered, acks, seen, ackNets)
  {
    delivered, lines, acks, failed, before, seen := FlushPending(s, list, mine, dest, to, nets, ackNets, others);
    FlushedIsSent(mine, to, nets, delivered, failed, s.freed);
  }

  lemma FlushedIsSent(mine: seq<MessageNode>, to: Address, nets: nat -> Dialled, delivered: seq<Msg>,
                      failed: Option<Call>, freed: set<object>)
    requires Flushed(mine, delivered, freed) && (failed.Some? <==> |delivered| < |mine|)
    requires failed.Some? ==> FellShort(failed.value, to, nets(|delivered|), mine[|delivered|].msg)
    ensures SentOf(NodesOf(mine), to, nets, delivered, failed)
    ensures NodesOf(mine[|delivered|..]) == NodesOf(mine)[|delivered|..]
  {
  }

  /** CONNECT: mark the user connected, detach the queue, and flush it, to the address the user connects from. `after`
      is the list of users when the mutex was first released, `before2` the one found when a failure is dealt with. */
  method ProcessConnect(s: Server, reply: Sink, nets: nat -> Dialled, ackNets: nat -> Dialled,
                        name: Name, ip: Bytes, port: Bytes, ghost others: set<MessageNode>)
    returns (code: Byte, delivered: seq<Msg>, lines: seq<Call>, acks: seq<Option<Call>>, failed: Option<Call>,
             ghost before: seq<User>, ghost after: seq<User>, ghost before2: seq<User>, ghost queue: seq<Node>,
             ghost seen: seq<seq<User>>)
    requires s.Valid() && !s.locked && s.Owned(others) && reply !in s.world
    modifies s, s.world - others, reply
    ensures s.Valid() && !s.locked && s.Grew() && s.Owned(others) && old(s.freed) <= s.freed
    ensures Outcome(AsMap(after), code) == Connect(AsMap(before), name, ip, port)
    ensures code == 0 ==> ConnectedFrom(AsMap(after), name, ip, port)
    ensures queue == if code == 0 then AsMap(before)[name].queue else []
    ensures var to := Address(Cut(ip, 15), Cut(port, 15));
            SentOf(queue, to, nets, delivered, failed) && AllTo(lines, to, nets, delivered)
    ensures AcksDue(delivered, acks, seen, ackNets)
    ensures failed.Some? ==> AsMap(s.Contents()) == SpliceBack(AsMap(before2), name, queue[|delivered|..])
    ensures code != 0 ==> s.Contents() == after
    ensures reply.sent == old(reply.sent) + Outgoing(old(reply.plan), [[code]])
  {
    var list;
    ghost var mine;
    code, list, mine, before := ConnectAndAnswer(s, reply, name, ip, port, others);
    after, before2, queue := s.Contents(), s.Contents(), NodesOf(mine);
    delivered, lines, acks, failed, seen := [], [], [], None, [];
    if code == 0 {
      var to := Address(Cut(ip, MAX_ADDRESS), Cut(port, MAX_ADDRESS));
      delivered, lines, acks, failed, before2, seen := FlushQueue(s, list, mine, name, to, nets, ackNets, others);
    }
  }
}
