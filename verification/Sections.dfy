/** The mutex-protected sections of the request handlers. Each contract says that the section did to the
    linked registry exactly what the protocol's transition does to the map of users, and answered what
    that map dictates. `others` is any set of nodes that other workers own: a section leaves those nodes untouched
    and their owners owning them, and hands out or gives back only nodes that are not among them.
  */
module Sections {
  import opened Basics
  import opened MessageIds
  import opened Registry
  import opened MessageList
  import opened LinkedServer

  /** The user node a lookup found holds the record the map has for the name. */
  lemma FoundRecord(s: Server, name: Name)
    requires s.Valid()
    ensures UniqueNames(s.Contents())
    ensures var i := IndexOf(s.Contents(), name);
      && (name in AsMap(s.Contents()) <==> i < |s.users|)
      && (i < |s.users| ==> AsMap(s.Contents())[name] == RecordOf(s.users[i]) && s.users[i].name == name)
  {
    LookupAgrees(s.Contents(), name);
  }

  // ---- Sections, with the mutex held.

  method RegisterSection(s: Server, name: Name, ghost others: set<MessageNode>) returns (code: Byte)
    requires s.Valid() && s.locked && |name| <= MAX_TEXT && s.Owned(others)
    modifies s
    ensures s.Valid() && s.locked && s.Grew() && s.Owned(others) && s.freed == old(s.freed)
    ensures OnlyNew(old(s.world), s.world, None)
    ensures Outcome(AsMap(s.Contents()), code) == Register(old(AsMap(s.Contents())), name)
    ensures s.Contents() == (if code == 0 then [User(name, BLANK)] else []) + old(s.Contents())
  {
    var found := s.FindUser(name);
    FoundRecord(s, name);
    if found != null {
      code := 1;
    } else {
      InsertAgrees(s.Contents(), name);
      s.AddUser(name, others);
      code := 0;
    }
  }

  /** A known user's node is released, and with it the nodes of its queue: those are `gone`. */
  method UnregisterSection(s: Server, name: Name, ghost others: set<MessageNode>)
    returns (code: Byte, ghost gone: seq<MessageNode>, ghost user: UserNode?)
    requires s.Valid() && s.locked && s.Owned(others)
    modifies s, s.users
    ensures s.Valid() && s.locked && s.world == old(s.world) && s.Owned(others)
    ensures Outcome(AsMap(s.Contents()), code) == Unregister(old(AsMap(s.Contents())), name)
    ensures s.Contents() == old(Without(s.Contents(), IndexOf(s.Contents(), name)))
    ensures if code == 0 then user != null && user.name == name &&
                              s.freed == old(s.freed) + (set m | m in gone) + {user}
            else user == null && gone == [] && s.freed == old(s.freed)
    ensures code == 0 ==> NodesOf(gone) == old(AsMap(s.Contents()))[name].queue
    ensures forall m | m in gone :: m in s.world
  {
    var found := s.FindUser(name);
    FoundRecord(s, name);
    gone, user := [], null;
    if found != null {
      gone, user := found.queue, found;
      assert QueueLives(found, s.world, s.freed);
      RemovalAgrees(s.Contents(), IndexOf(s.Contents(), name));
      var rc := s.RemoveUser(name, others);
      code := 0;
    } else {
      code := 1;
    }
  }

  method DisconnectSection(s: Server, name: Name, ip: Bytes, ghost others: set<MessageNode>) returns (code: Byte)
    requires s.Valid() && s.locked && s.Owned(others)
    modifies s.users
    ensures s.Valid() && s.Owned(others)
    ensures Outcome(AsMap(s.Contents()), code) == Disconnect(old(AsMap(s.Contents())), name, ip)
    ensures var us := old(AsMap(s.Contents())); Up(us, name) ==> code == if us[name].ip == ip then 0 else 3
  {
    var u := s.FindUser(name);
    FoundRecord(s, name);
    ghost var i := IndexOf(s.Contents(), name);
    if u == null {
      code := 1;
    } else if !u.connected {
      code := 2;
    } else if u.ip != ip {
      code := 3;
    } else {
      UpdateAgrees(s.Contents(), i, Down(RecordOf(u)));
      s.MarkDown(u, i, others);
      code := 0;
    }
  }

  /** Marks a user connected and takes its queue. */
  method MarkUpAndDetach(s: Server, u: UserNode, ghost i: nat, ip: Bytes, port: Bytes, ghost others: set<MessageNode>)
    returns (list: MessageNode?, ghost mine: seq<MessageNode>)
    requires s.Valid() && i < |s.users| && u == s.users[i] && s.Owned(others)
    modifies u
    ensures s.Valid() && Linked(list, mine) && s.Owned(set m | m in mine)
    ensures s.Owned(others) && others !! set m | m in mine
    ensures NodesOf(mine) == old(RecordOf(u)).queue
    ensures var r := old(RecordOf(u)).(connected := true, ip := ip, port := port, queue := []);
            s.Contents() == old(s.Contents())[i := User(u.name, r)]
  {
    s.MarkUp(u, i, ip, port, others);
    list, mine := s.Detach(u, i, others);
  }

  /** The same on the map, for a known user. */
  method ConnectUser(s: Server, u: UserNode, ghost i: nat, ip: Bytes, port: Bytes, ghost others: set<MessageNode>)
    returns (list: MessageNode?, ghost mine: seq<MessageNode>)
    requires s.Valid() && i < |s.users| && u == s.users[i] && s.Owned(others)
    modifies u
    ensures s.Valid() && Linked(list, mine) && s.Owned(set m | m in mine)
    ensures s.Owned(others) && others !! set m | m in mine
    ensures u.name in old(AsMap(s.Contents())) && NodesOf(mine) == old(AsMap(s.Contents()))[u.name].queue
    ensures AsMap(s.Contents()) == var us := old(AsMap(s.Contents()));
              us[u.name := us[u.name].(connected := true, ip := ip, port := port, queue := [])]
  {
    AtIndex(s.Contents(), i);
    FoundRecord(s, u.name);
    UpdateAgrees(s.Contents(), i, RecordOf(u).(connected := true, ip := ip, port := port, queue := []));
    list, mine := MarkUpAndDetach(s, u, i, ip, port, others);
  }

  /** First section of CONNECT: on success the whole queue is detached for the worker. */
  method ConnectSection(s: Server, name: Name, ip: Bytes, port: Bytes, ghost others: set<MessageNode>)
    returns (code: Byte, list: MessageNode?, ghost mine: seq<MessageNode>)
    requires s.Valid() && s.locked && s.Owned(others)
    modifies s.users
    ensures s.Valid() && Linked(list, mine) && s.Owned(set m | m in mine)
    ensures s.Owned(others) && others !! set m | m in mine
    ensures Outcome(AsMap(s.Contents()), code) == Connect(old(AsMap(s.Contents())), name, ip, port)
    ensures code == 0 ==> ConnectedFrom(AsMap(s.Contents()), name, ip, port)
    ensures NodesOf(mine) == if code == 0 then old(AsMap(s.Contents()))[name].queue else []
  {
    list, mine := null, [];
    var u := s.FindUser(name);
    FoundRecord(s, name);
    ghost var i := IndexOf(s.Contents(), name);
    if u == null {
      code := 1;
    } else if u.connected {
      code := 2;
    } else {
      list, mine := ConnectUser(s, u, i, Cut(ip, MAX_ADDRESS), Cut(port, MAX_ADDRESS), others);
      code := 0;
    }
  }

  /** Takes the sender's next id. */
  method TakeId(s: Server, u: UserNode, ghost i: nat, ghost others: set<MessageNode>) returns (id: nat)
    requires s.Valid() && i < |s.users| && u == s.users[i] && u.name in AsMap(s.Contents()) && s.Owned(others)
    modifies u`lastId
    ensures s.Valid() && s.Owned(others) && id == NextId(old(u.lastId))
    ensures AsMap(s.Contents()) == var us := old(AsMap(s.Contents())); us[u.name := old(RecordOf(u)).(lastId := id)]
  {
    FoundRecord(s, u.name);
    UpdateAgrees(s.Contents(), i, RecordOf(u).(lastId := NextId(u.lastId)));
    id := s.BumpId(u, i, others);
  }

  /** Stores a message at the end of the recipient's queue. */
  method Store(s: Server, u: UserNode, ghost i: nat, msg: Msg, ghost tag: nat, ghost others: set<MessageNode>)
    requires s.Valid() && i < |s.users| && u == s.users[i] && u.name in AsMap(s.Contents()) && s.Owned(others)
    modifies s`world, u`messages, u`queue, (set m | m in u.queue)`next
    ensures s.Valid() && s.Grew() && s.Owned(others) && OnlyNew(old(s.world), s.world, Some(Node(tag, msg)))
    ensures AsMap(s.Contents()) == var us := old(AsMap(s.Contents()));
              us[u.name := old(RecordOf(u)).(queue := old(RecordOf(u)).queue + [Node(tag, msg)])]
  {
    FoundRecord(s, u.name);
    UpdateAgrees(s.Contents(), i, RecordOf(u).(queue := RecordOf(u).queue + [Node(tag, msg)]));
    s.AppendNew(u, i, msg, tag, others);
  }

  /** Takes an id for the sender and stores the message for the recipient, both of them known users. */
  method StoreFor(s: Server, from: UserNode, to: UserNode, ghost i: nat, ghost j: nat,
                  text: Bytes, file: Bytes, attach: bool, ghost tag: nat, ghost others: set<MessageNode>)
    returns (msg: Msg)
    requires s.Valid() && i < |s.users| && from == s.users[i] && j < |s.users| && to == s.users[j] && s.Owned(others)
    modifies s`world, s.world - others
    ensures s.Valid() && s.Grew() && s.Owned(others) && OnlyNew(old(s.world), s.world, Some(Node(tag, msg)))
    ensures from.name in old(AsMap(s.Contents())) && to.name in old(AsMap(s.Contents()))
    ensures msg == Compose(NextId(old(from.lastId)), from.name, text, file, attach)
    ensures AsMap(s.Contents()) == WithMessage(old(AsMap(s.Contents())), from.name, to.name, Node(tag, msg))
  {
    AtIndex(s.Contents(), i);
    AtIndex(s.Contents(), j);
    FoundRecord(s, from.name);
    FoundRecord(s, to.name);
    var id := TakeId(s, from, i, others);
    AtIndex(s.Contents(), j);
    FoundRecord(s, to.name);
    msg := Compose(id, from.name, text, file, attach);
    assert QueueLives(to, s.world, s.freed);
    Store(s, to, j, msg, tag, others);
  }

  /** The registry after the message took its sender's id and its place in the recipient's queue. */
  ghost function WithMessage(us: Users, sender: Name, dest: Name, node: Node): Users
    requires sender in us && dest in us
  {
    var us1 := us[sender := us[sender].(lastId := node.msg.id)];
    us1[dest := us1[dest].(queue := us1[dest].queue + [node])]
  }

  /** Finds a user and copies its address, if it is connected. */
  method FindAddress(s: Server, name: Name) returns (u: UserNode?, to: Option<Address>)
    requires s.Valid()
    ensures UniqueNames(s.Contents()) && u == UserAt(s.users, IndexOf(s.Contents(), name))
    ensures var us := AsMap(s.Contents());
      && (if name in us then u != null && u.name == name && us[name] == RecordOf(u) else u == null)
      && to == Reach(us, name)
  {
    u := s.FindUser(name);
    FoundRecord(s, name);
    to := None;
    if u != null && u.connected {
      to := Some(Address(Cut(u.ip, MAX_ADDRESS), Cut(u.port, MAX_ADDRESS)));
    }
  }

  /** First section of a send: id, node, append; tells where delivery and acknowledgement are to be tried, if at all. */
  method EnqueueSection(s: Server, sender: Name, dest: Name, text: Bytes, file: Bytes, attach: bool, ghost tag: nat,
                        ghost others: set<MessageNode>)
    returns (code: Byte, msg: Msg, deliver: Option<Address>, ack: Option<Address>)
    requires s.Valid() && s.locked && s.Owned(others)
    modifies s`world, s.world - others
    ensures s.Valid() && s.Grew() && s.Owned(others)
    ensures OnlyNew(old(s.world), s.world, if code == 0 then Some(Node(tag, msg)) else None)
    ensures Outcome(AsMap(s.Contents()), code) ==
            Enqueue(old(AsMap(s.Contents())), sender, dest, tag, text, file, attach)
    ensures var us := old(AsMap(s.Contents()));
      code == 0 ==> && msg == Compose(NextId(us[sender].lastId), sender, text, file, attach)
                    && deliver == Reach(us, dest) && ack == Reach(us, sender)
  {
    var from, to;
    from, ack := FindAddress(s, sender);
    to, deliver := FindAddress(s, dest);
    msg := Msg(0, [], [], [], false);
    if from == null || to == null {
      code := 1;
    } else {
      msg := StoreFor(s, from, to, IndexOf(s.Contents(), sender), IndexOf(s.Contents(), dest),
                      text, file, attach, tag, others);
      code := 0;
    }
  }

  /** Second section of a delivered send: unlink and release the first node with the message's key. */
  method RemoveSection(s: Server, dest: Name, msg: Msg, ghost others: set<MessageNode>)
    returns (ghost removed: MessageNode?)
    requires s.Valid() && s.locked && s.Owned(others)
    modifies s`freed, s.world - others
    ensures s.Valid() && s.Owned(others)
    ensures AsMap(s.Contents()) == Remove(old(AsMap(s.Contents())), dest, msg)
    ensures s.freed == old(s.freed) + if removed == null then {} else {removed}
    ensures removed != null ==> removed in s.world
    ensures RemovedFor(old(AsMap(s.Contents())), dest, msg, removed)
  {
    removed := null;
    var u := s.FindUser(dest);
    FoundRecord(s, dest);
    if u != null {
      ghost var i, q := IndexOf(s.Contents(), dest), RecordOf(u).queue;
      UpdateAgrees(s.Contents(), i, RecordOf(u).(queue := Without(q, FirstMatch(q, msg))));
      assert QueueLives(u, s.world, s.freed);
      var node := s.Unlink(u, i, msg, others);
      if node != null {
        s.Free(node, others);
      }
      removed := node;
    }
  }

  /** The node released is the first with the message's key in the recipient's queue; null if there is none. */
  ghost predicate RemovedFor(us: Users, dest: Name, msg: Msg, removed: MessageNode?) {
    if dest in us && FirstMatch(us[dest].queue, msg) < |us[dest].queue|
    then removed != null && Node(removed.tag, removed.msg) == us[dest].queue[FirstMatch(us[dest].queue, msg)]
    else removed == null
  }

  /** Marks a known user disconnected; nodes the caller owns stay its own. */
  method MarkUserDown(s: Server, u: UserNode, ghost i: nat, ghost others: set<MessageNode>)
    requires s.Valid() && i < |s.users| && u == s.users[i] && s.Owned(others)
    modifies u`connected, u`ip, u`port
    ensures s.Valid() && s.Owned(others)
    ensures u.name in old(AsMap(s.Contents()))
    ensures AsMap(s.Contents()) == Registry.MarkDown(old(AsMap(s.Contents())), u.name)
  {
    AtIndex(s.Contents(), i);
    FoundRecord(s, u.name);
    UpdateAgrees(s.Contents(), i, Down(RecordOf(u)));
    s.MarkDown(u, i, others);
  }

  /** Hangs the caller's nodes behind a known user's queue. */
  method HangBack(s: Server, u: UserNode, ghost i: nat, list: MessageNode?, ghost mine: seq<MessageNode>,
                  ghost others: set<MessageNode>)
    requires s.Valid() && i < |s.users| && u == s.users[i] && Linked(list, mine) && s.Owned(set m | m in mine)
    requires s.Owned(others) && others !! set m | m in mine
    modifies u`messages, u`queue, (set m | m in u.queue)`next, (set m | m in mine)`home
    ensures s.Valid() && s.Owned(others)
    ensures u.name in old(AsMap(s.Contents()))
    ensures AsMap(s.Contents()) == var us := old(AsMap(s.Contents()));
              us[u.name := us[u.name].(queue := us[u.name].queue + NodesOf(mine))]
  {
    AtIndex(s.Contents(), i);
    FoundRecord(s, u.name);
    UpdateAgrees(s.Contents(), i, RecordOf(u).(queue := RecordOf(u).queue + NodesOf(mine)));
    s.AppendOwned(u, i, list, mine, others);
  }

  /** Second section of a failed send: the recipient, if still there, is marked disconnected. */
  method MarkDownSection(s: Server, dest: Name, ghost others: set<MessageNode>)
    requires s.Valid() && s.locked && s.Owned(others)
    modifies s.users
    ensures s.Valid() && s.Owned(others)
    ensures AsMap(s.Contents()) == Registry.MarkDown(old(AsMap(s.Contents())), dest)
  {
    var u := s.FindUser(dest);
    FoundRecord(s, dest);
    if u != null {
      MarkUserDown(s, u, IndexOf(s.Contents(), dest), others);
    }
  }

  lemma SpliceIsTwoUpdates(us: Users, n: Name, rest: seq<Node>)
    requires n in us
    ensures var down := Registry.MarkDown(us, n);
            SpliceBack(us, n, rest) == down[n := down[n].(queue := down[n].queue + rest)]
  {
  }

  /** Last section of a failed flush: the rest goes behind the user's queue, or is released if the user is gone. */
  method SpliceSection(s: Server, dest: Name, list: MessageNode?, ghost mine: seq<MessageNode>,
                       ghost others: set<MessageNode>)
    requires s.Valid() && s.locked && Linked(list, mine) && s.Owned(set m | m in mine)
    requires s.Owned(others) && others !! set m | m in mine
    modifies s`freed, s.world - others
    ensures s.Valid() && s.Owned(others)
    ensures AsMap(s.Contents()) == SpliceBack(old(AsMap(s.Contents())), dest, NodesOf(mine))
    ensures s.freed == old(s.freed) + if dest in old(AsMap(s.Contents())) then {} else set m | m in mine
  {
    var u := s.FindUser(dest);
    FoundRecord(s, dest);
    if u != null {
      assert QueueLives(u, s.world, s.freed);
      assert forall m | m in mine :: m in (set x | x in mine) && s.OwnsNode(m);
      SpliceKnown(s, u, IndexOf(s.Contents(), dest), list, mine, others);
    } else {
      s.FreeList(list, mine, others);
    }
  }

  /** Marks a known user disconnected and hangs the caller's nodes behind its queue. */
  method SpliceKnown(s: Server, u: UserNode, ghost i: nat, list: MessageNode?, ghost mine: seq<MessageNode>,
                     ghost others: set<MessageNode>)
    requires s.Valid() && i < |s.users| && u == s.users[i] && Linked(list, mine) && s.Owned(set m | m in mine)
    requires u.name in AsMap(s.Contents()) && s.Owned(others) && others !! set m | m in mine
    modifies u`connected, u`ip, u`port
    modifies u`messages, u`queue, (set m | m in u.queue)`next, (set m | m in mine)`home
    ensures s.Valid() && s.Owned(others)
    ensures AsMap(s.Contents()) == SpliceBack(old(AsMap(s.Contents())), u.name, NodesOf(mine))
  {
    SpliceIsTwoUpdates(AsMap(s.Contents()), u.name, NodesOf(mine));
    MarkUserDown(s, u, i, (set m | m in mine) + others);
    HangBack(s, u, i, list, mine, others);
  }
}
