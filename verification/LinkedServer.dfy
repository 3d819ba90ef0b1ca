/** The server over linked user and message nodes, with its mutex.

    `Lock` stands for waiting for the mutex: until it is granted other workers may do anything that
    keeps the registry valid, except touch nodes the caller owns. Its contract says just that, so every
    contract below holds whatever the others do between two locked sections. `Execution.LockAmid` shows that the
    others, running any schedule of their sections, keep that promise.
  */
module LinkedServer {
  import opened Basics
  import opened MessageIds
  import opened Registry
  import opened MessageList

  class UserNode {
    const name: Name
    var connected: bool
    var ip: Bytes
    var port: Bytes
    var lastId: nat
    var messages: MessageNode?
    var next: UserNode?
    ghost var queue: seq<MessageNode>

    constructor (name: Name, next: UserNode?)
      ensures this.name == name && this.next == next && queue == [] && messages == null
      ensures RecordOf(this) == BLANK
    {
      this.name, this.next := name, next;
      connected, ip, port, lastId := false, [], [], 0;
      messages, queue := null, [];
    }
  }

  ghost function RecordOf(u: UserNode): Record
    reads u
  {
    Record(u.connected, u.ip, u.port, u.lastId, NodesOf(u.queue))
  }

  ghost function UserAt(users: seq<UserNode>, i: nat): UserNode? {
    if i < |users| then users[i] else null
  }

  ghost predicate LinkedUsers(head: UserNode?, users: seq<UserNode>)
    reads users
  {
    && head == UserAt(users, 0)
    && (forall i {:trigger users[i].next} | 0 <= i < |users| :: users[i].next == UserAt(users, i + 1))
  }

  ghost predicate NamesDiffer(users: seq<UserNode>) {
    forall i, j | 0 <= i < j < |users| :: users[i].name != users[j].name
  }

  ghost function ContentsOf(users: seq<UserNode>): (r: seq<User>)
    reads users
    ensures |r| == |users| && forall i | 0 <= i < |users| :: r[i] == User(users[i].name, RecordOf(users[i]))
  {
    seq(|users|, i requires 0 <= i < |users| reads users => User(users[i].name, RecordOf(users[i])))
  }

  /** The nodes of the user's queue are allocated and not released. */
  ghost predicate QueueLives(u: UserNode, world: set<object>, freed: set<object>)
    reads u
  {
    forall m | m in u.queue :: m in world && m !in freed
  }

  /** The queue field leads through the queue, whose nodes belong to this user alone. */
  ghost predicate QueueSound(u: UserNode)
    reads u, u.queue
  {
    && Linked(u.messages, u.queue)
    && (forall m | m in u.queue :: m.home == u)
  }

  /** Hangs a list behind the user's queue. */
  method HangOn(u: UserNode, list: MessageNode?, ghost mine: seq<MessageNode>)
    requires QueueSound(u) && Linked(list, mine) && forall m | m in mine :: m !in u.queue
    modifies u`messages, u`queue, (set m | m in u.queue)`next, (set m | m in mine)`home
    ensures QueueSound(u) && u.queue == old(u.queue) + mine
    ensures RecordOf(u) == var r := old(RecordOf(u)); r.(queue := r.queue + NodesOf(mine))
  {
    ghost var q := u.queue;
    var joined := Append(u.messages, q, list, mine);
    u.messages := joined;
    u.queue := q + mine;
    ghost var all := q + mine;
    assert Linked(u.messages, all);
    label J:
    Rehome(mine, u);
    NodesOfParts(q, mine, 0);
    SameLinks@J(all);
  }

  /** A list is linked as it was if its `next` fields are what they were. */
  twostate lemma SameLinks(s: seq<MessageNode>)
    requires old(Linked(At(s, 0), s)) && forall m | m in s :: m.next == old(m.next)
    ensures Linked(At(s, 0), s)
  {
    forall k {:trigger s[k].next} | 0 <= k < |s| ensures s[k].next == At(s, k + 1) {
      assert s[k] in s && old(s[k].next) == At(s, k + 1);
    }
  }

  /** Makes the user the home of every node of the list. */
  ghost method Rehome(mine: seq<MessageNode>, u: UserNode)
    modifies (set m | m in mine)`home
    ensures forall m | m in mine :: m.home == u
  {
    forall m | m in mine {
      m.home := u;
    }
  }

  /** Takes the first node with the message's key off the user's queue, if there is one. */
  method TakeOff(u: UserNode, msg: Msg) returns (removed: MessageNode?)
    requires QueueSound(u)
    modifies u`messages, u`queue, (set m | m in u.queue)`next
    ensures QueueSound(u) && (forall m | m in u.queue :: m in old(u.queue) && m != removed)
    ensures removed != null ==> removed in old(u.queue)
    ensures var r := old(RecordOf(u));
      && RecordOf(u) == r.(queue := Without(r.queue, FirstMatch(r.queue, msg)))
      && (removed == null <==> FirstMatch(r.queue, msg) == |r.queue|)
      && (removed != null ==> Node(removed.tag, removed.msg) == r.queue[FirstMatch(r.queue, msg)])
  {
    ghost var q := u.queue;
    var rest, node, at := UnlinkMessage(u.messages, q, msg);
    removed := node;
    u.messages := rest;
    u.queue := Without(q, at);
  }

  /** A change of its link to the next user does not touch a user's queue. */
  twostate lemma StillSound(u: UserNode)
    requires old(QueueSound(u)) && u.queue == old(u.queue) && u.messages == old(u.messages)
    requires forall m | m in u.queue :: old(allocated(m)) && unchanged(m)
    ensures QueueSound(u)
  {
    assert old(Linked(u.messages, u.queue));
    forall k | 0 <= k < |u.queue| ensures u.queue[k].next == At(u.queue, k + 1) && u.queue[k].home == u {
      assert u.queue[k] in u.queue;
      assert old(u.queue[k].next) == At(u.queue, k + 1);
    }
  }

  /** The one message node that is new in the world, if any, carries this. */
  ghost predicate OnlyNew(before: set<object>, after: set<object>, node: Option<Node>) {
    && (forall m: MessageNode | m in after && m !in before :: node == Some(Node(m.tag, m.msg)))
    && (forall m: MessageNode, n: MessageNode | m in after && n in after && m !in before && n !in before :: m == n)
  }

  class Server {
    var head: UserNode?
    ghost var users: seq<UserNode>
    ghost var world: set<object>   // every node allocated so far
    ghost var freed: set<object>   // nodes released so far
    ghost var locked: bool

    ghost predicate Valid()
      reads this, world
    {
      && this !in world
      && (forall i | 0 <= i < |users| :: users[i] in world && users[i] !in freed)
      && NamesDiffer(users)
      && LinkedUsers(head, users)
      && (forall i {:trigger QueueSound(users[i])} {:trigger QueueLives(users[i], world, freed)} | 0 <= i < |users| ::
            QueueLives(users[i], world, freed) && QueueSound(users[i]))
    }

    /** A node only the caller can reach: allocated, live, and in no queue. */
    ghost predicate OwnsNode(m: MessageNode)
      reads this, world
      requires Valid()
    {
      m in world && m !in freed && forall i | 0 <= i < |users| :: m !in users[i].queue
    }

    ghost predicate Owned(mine: set<MessageNode>)
      reads this, world
      requires Valid()
    {
      forall m | m in mine :: OwnsNode(m)
    }

    /** Nodes come into the world only by allocation. */
    twostate predicate Grew()
      reads this
    {
      old(world) <= world && forall o | o in world && o !in old(world) :: fresh(o)
    }

    ghost function Contents(): seq<User>
      reads this, users
    {
      ContentsOf(users)
    }

    constructor ()
      ensures Valid() && !locked && Contents() == [] && world == {} && freed == {}
    {
      head, users, world, freed, locked := null, [], {}, {}, false;
    }

    /** Waits for the mutex; other workers run meanwhile. */
    method Lock(ghost mine: set<MessageNode>)
      requires Valid() && !locked && Owned(mine)
      modifies this, world - mine
      ensures Valid() && locked && Owned(mine)
      ensures Grew()
      ensures old(freed) <= freed
    {
      locked := true;
    }

    /** Takes the mutex while it is free; nobody runs in between. */
    method Take(ghost mine: set<MessageNode>)
      requires Valid() && !locked && Owned(mine)
      modifies this`locked
      ensures Valid() && locked && Owned(mine) && Contents() == old(Contents())
    {
      locked := true;
      Released();
    }

    method Unlock(ghost mine: set<MessageNode>)
      requires Valid() && locked && Owned(mine)
      modifies this`locked
      ensures Valid() && !locked && Owned(mine) && Contents() == old(Contents())
    {
      locked := false;
      Released();
    }

    /** `free`: the node must be allocated and not yet released. */
    ghost method Release(n: object)
      requires n in world && n !in freed
      modifies this`freed
      ensures freed == old(freed) + {n}
    {
      freed := freed + {n};
    }

    /** Releases a node only the caller can reach. */
    ghost method Free(n: MessageNode, others: set<MessageNode>)
      requires Valid() && OwnsNode(n) && Owned(others) && n !in others
      modifies this`freed
      ensures Valid() && freed == old(freed) + {n} && Contents() == old(Contents()) && Owned(others)
    {
      Release(n);
      Released();
    }

    ghost method FreeUser(u: UserNode, others: set<MessageNode>)
      requires Valid() && u in world && u !in freed && u !in users && Owned(others)
      modifies this`freed
      ensures Valid() && freed == old(freed) + {u} && Contents() == old(Contents()) && Owned(others)
    {
      Release(u);
      Released();
    }

    /** Walks a list and releases every node, each once. */
    method FreeNodes(list: MessageNode?, ghost mine: seq<MessageNode>)
      requires Linked(list, mine) && forall j | 0 <= j < |mine| :: mine[j] in world && mine[j] !in freed
      modifies this`freed
      ensures freed == old(freed) + set m | m in mine
    {
      var current := list;
      ghost var k := 0;
      while current != null
        invariant k <= |mine| && current == At(mine, k)
        invariant freed == old(freed) + set m | m in mine[..k]
        decreases |mine| - k
      {
        var temp := current;
        current := current.next;
        assert mine[..k + 1] == mine[..k] + [temp];
        assert temp !in mine[..k];
        Release(temp);
        k := k + 1;
      }
      assert mine[..k] == mine;
    }

    /** Releases a whole list the caller owns. */
    method FreeList(list: MessageNode?, ghost mine: seq<MessageNode>, ghost others: set<MessageNode>)
      requires Valid() && Linked(list, mine) && Owned(set m | m in mine) && Owned(others) && others !! set m | m in mine
      modifies this`freed
      ensures Valid() && freed == old(freed) + (set m | m in mine) && Contents() == old(Contents()) && Owned(others)
    {
      assert forall j | 0 <= j < |mine| :: mine[j] in (set m | m in mine) && OwnsNode(mine[j]);
      FreeNodes(list, mine);
      Released();
    }

    method FindUser(name: Name) returns (u: UserNode?)
      requires Valid()
      ensures var i := IndexOf(Contents(), name); u == UserAt(users, i)
    {
      var current := head;
      ghost var i := 0;
      while current != null
        invariant i <= |users| && current == UserAt(users, i)
        invariant forall j | 0 <= j < i :: users[j].name != name
        decreases |users| - i
      {
        if current.name == name {
          FoundAt(Contents(), name, i);
          return current;
        }
        current := current.next;
        i := i + 1;
      }
      FoundAt(Contents(), name, i);
      u := null;
    }

    lemma FoundAt(list: seq<User>, name: Name, i: nat)
      requires i <= |list| && forall j | 0 <= j < i :: list[j].name != name
      requires i < |list| ==> list[i].name == name
      ensures IndexOf(list, name) == i
    {
    }

    // ---- Why the registry stays valid.

    /** A new user node put at the head. */
    twostate lemma Added(new u: UserNode)
      requires old(Valid()) && (forall o | o in old(world) :: unchanged(o))
      requires u !in old(world) && u.next == old(head) && u.queue == [] && u.messages == null
      requires forall j | 0 <= j < |old(users)| :: old(users)[j].name != u.name
      requires head == u && users == [u] + old(users) && world == old(world) + {u} && u !in freed && freed == old(freed)
      requires this !in world
      ensures Valid()
    {
      assert QueueSound(u);
      forall i | 0 < i < |users| ensures QueueSound(users[i]) && QueueLives(users[i], world, freed) {
        assert old(users[i - 1]) == users[i];
        assert old(QueueSound(users[i - 1]) && QueueLives(users[i - 1], world, freed));
        StillSound(users[i]);
      }
    }

    /** One user node, with its queue and some owned message nodes, changed; no name or link between users did. */
    twostate lemma Changed(new i: nat, extra: set<MessageNode>)
      requires old(Valid()) && old(Owned(extra)) && i < |old(users)|
      requires users == old(users) && head == old(head) && freed == old(freed) && old(world) <= world && this !in world
      requires forall o | o in old(world) :: o == users[i] || o in old(users[i].queue) || o in extra || unchanged(o)
      requires users[i].next == old(users[i].next)
      requires QueueSound(users[i]) && QueueLives(users[i], world, freed)
      ensures Valid()
      ensures Contents() == old(Contents())[i := User(users[i].name, RecordOf(users[i]))]
    {
      forall j | 0 <= j < |users| && j != i
        ensures unchanged(users[j]) && QueueSound(users[j]) && QueueLives(users[j], world, freed)
      {
        assert users[j].name != users[i].name;
        assert old(QueueSound(users[j]) && QueueLives(users[j], world, freed));
        assert old(QueueSound(users[i]));
        forall m | m in old(users[j].queue) ensures old(allocated(m)) && unchanged(m) {
          assert m in old(world) && old(m.home) == users[j];
        }
        StillSound(users[j]);
      }
    }

    /** Puts a new user at the head of the list. */
    method AddUser(name: Name, ghost others: set<MessageNode>)
      requires Valid() && locked && |name| <= MAX_TEXT && (forall j | 0 <= j < |users| :: users[j].name != name)
      requires Owned(others)
      modifies this
      ensures Valid() && locked && freed == old(freed) && Owned(others)
      ensures Grew() && OnlyNew(old(world), world, None)
      ensures Contents() == [User(name, BLANK)] + old(Contents())
    {
      var u := new UserNode(Cut(name, MAX_TEXT), head);
      head := u;
      users := [u] + users;
      world := world + {u};
      Added(u);
    }

    /** Some nodes outside the registry were released. */
    twostate lemma Released()
      requires old(Valid()) && (forall o | o in old(world) :: unchanged(o))
      requires users == old(users) && head == old(head) && world == old(world)
      requires forall o | o in freed && o !in old(freed) ::
                 o !in users && forall i | 0 <= i < |users| :: o !in old(users[i].queue)
      ensures Valid() && Contents() == old(Contents())
    {
      forall j | 0 <= j < |users| ensures QueueSound(users[j]) && QueueLives(users[j], world, freed) {
        assert old(QueueSound(users[j]) && QueueLives(users[j], world, freed));
        StillSound(users[j]);
      }
    }

    twostate lemma Relinked(i: nat)
      requires old(LinkedUsers(head, users)) && i < |old(users)| && (forall u | u in old(users) :: old(allocated(u)))
      requires users == Without(old(users), i)
      requires head == if i == 0 then old(users[0].next) else old(head)
      requires forall j | 0 <= j < |old(users)| :: old(users)[j].next ==
                 if j == i - 1 then old(users[i].next) else old(users[j].next)
      ensures LinkedUsers(head, users)
    {
      var was := old(users);
      forall j | 0 <= j < |users| ensures users[j].next == UserAt(users, j + 1) {
        if j < i {
          assert users[j] == was[j];
          assert old(users[j].next) == UserAt(was, j + 1);
        } else {
          assert users[j] == was[j + 1];
          assert old(users[j + 1].next) == UserAt(was, j + 2);
        }
        assert old(users[i].next) == UserAt(was, i + 1);
      }
    }

    /** The i-th user was unlinked from the list. */
    twostate lemma Removed(i: nat)
      requires old(Valid()) && i < |old(users)|
      requires users == Without(old(users), i) && world == old(world) && freed == old(freed)
      requires head == if i == 0 then old(users[0].next) else old(head)
      requires forall o | o in old(world) :: unchanged(o) || (i > 0 && o == old(users)[i - 1])
      requires i > 0 ==> var p := old(users)[i - 1];
               p.next == old(users[i].next) && RecordOf(p) == old(RecordOf(p)) &&
               p.queue == old(p.queue) && p.messages == old(p.messages)
      ensures Valid() && Contents() == Without(old(Contents()), i)
      ensures old(users)[i] !in users && Owned(set m | m in old(users[i].queue))
      ensures forall j | 0 <= j < |old(users)| :: old(users)[j].queue == old(users[j].queue)
    {
      var was := old(users);
      forall j | 0 <= j < |was|
        ensures QueueSound(was[j]) && QueueLives(was[j], world, freed) && RecordOf(was[j]) == old(RecordOf(was[j]))
        ensures was[j].queue == old(was[j].queue)
        ensures was[j].next == if j == i - 1 then old(users[i].next) else old(was[j].next)
      {
        assert old(QueueSound(was[j]) && QueueLives(was[j], world, freed));
        assert was[j] in old(world);
        assert i > 0 && j != i - 1 ==> was[j].name != was[i - 1].name;
        StillSound(was[j]);
      }
      Relinked(i);
      StillValid(i);
    }

    /** The nodes other workers own are not among the queues. */
    twostate lemma OthersLeft(new i: nat, others: set<MessageNode>)
      requires old(Valid()) && old(Owned(others)) && Valid() && i < |old(users)|
      requires users == Without(old(users), i) && world == old(world) && freed == old(freed)
      requires forall j | 0 <= j < |old(users)| :: old(users)[j].queue == old(users[j].queue)
      ensures Owned(others) && forall m | m in others :: m !in old(users[i].queue)
    {
      forall m | m in others ensures OwnsNode(m) && m !in old(users[i].queue) {
        assert old(OwnsNode(m));
        forall j | 0 <= j < |users| ensures m !in users[j].queue {
          assert users[j] == old(users)[if j < i then j else j + 1];
        }
      }
    }

    lemma WithoutOne(was: seq<UserNode>, i: nat)
      requires NamesDiffer(was) && i < |was|
      ensures NamesDiffer(Without(was, i)) && was[i] !in Without(was, i)
    {
      var rest := Without(was, i);
      forall j | 0 <= j < |rest| ensures rest[j] == was[if j < i then j else j + 1] && rest[j] != was[i] {
        assert was[if j < i then j else j + 1].name != was[i].name;
      }
    }

    lemma ContentsWithout(was: seq<UserNode>, i: nat)
      requires i < |was|
      ensures ContentsOf(Without(was, i)) == Without(ContentsOf(was), i)
    {
    }

    twostate lemma StillValid(i: nat)
      requires old(Valid()) && i < |old(users)|
      requires users == Without(old(users), i) && world == old(world) && freed == old(freed) && LinkedUsers(head, users)
      requires forall j | 0 <= j < |old(users)| :: var u := old(users)[j];
                 QueueSound(u) && QueueLives(u, world, freed) &&
                 RecordOf(u) == old(RecordOf(u)) && u.queue == old(u.queue)
      ensures Valid() && Contents() == Without(old(Contents()), i)
      ensures old(users)[i] !in users && Owned(set m | m in old(users[i].queue))
    {
      var was := old(users);
      WithoutOne(was, i);
      ContentsWithout(was, i);
      assert ContentsOf(was) == old(ContentsOf(users));
      forall j | 0 <= j < |users| ensures users[j] == was[if j < i then j else j + 1] {
      }
      QueueLeft(was, i);
    }

    /** The queue of a user taken out of the list is in no other user's queue. */
    lemma QueueLeft(was: seq<UserNode>, i: nat)
      requires i < |was| && NamesDiffer(was) && users == Without(was, i) && Valid()
      requires QueueSound(was[i]) && QueueLives(was[i], world, freed)
      ensures Owned(set m | m in was[i].queue)
    {
      forall j | 0 <= j < |users| ensures forall m | m in was[i].queue :: m !in users[j].queue {
        assert users[j] == was[if j < i then j else j + 1];
        QueuesApart(was[i], users[j]);
      }
    }

    /** Two users share no queued node. */
    lemma QueuesApart(u: UserNode, v: UserNode)
      requires QueueSound(u) && QueueSound(v) && u.name != v.name
      ensures forall m | m in u.queue :: m !in v.queue
    {
    }

    /** Nodes allocated and not yet linked anywhere are owned. */
    twostate lemma Grown(new more: set<MessageNode>)
      requires old(Valid()) && (forall o | o in old(world) :: unchanged(o)) && more !! old(world)
      requires users == old(users) && head == old(head) && freed == old(freed)
      requires world == old(world) + more && this !in world
      requires more !! freed
      ensures Valid() && Owned(more) && Contents() == old(Contents())
    {
      forall j | 0 <= j < |users| ensures QueueSound(users[j]) && QueueLives(users[j], world, freed) {
        assert old(QueueSound(users[j]) && QueueLives(users[j], world, freed));
        StillSound(users[j]);
      }
      forall m | m in more ensures OwnsNode(m) {
        forall j | 0 <= j < |users| ensures m !in users[j].queue {
          assert old(QueueLives(users[j], world, freed));
        }
      }
    }

    /** A node taken off the queue it belongs to is in no queue. */
    lemma OffItsQueue(i: nat, m: MessageNode)
      requires Valid() && i < |users|
      requires m in world && m !in freed && m.home == users[i] && m !in users[i].queue
      ensures OwnsNode(m)
    {
      forall j | 0 <= j < |users| ensures m !in users[j].queue {
        assert QueueSound(users[j]);
        assert j != i ==> users[j].name != users[i].name;
      }
    }

    // ---- What a section does to one user.

    method MarkDown(u: UserNode, ghost i: nat, ghost others: set<MessageNode>)
      requires Valid() && i < |users| && u == users[i] && Owned(others)
      modifies u`connected, u`ip, u`port
      ensures Valid() && Owned(others)
      ensures Contents() == old(Contents())[i := User(u.name, Down(old(RecordOf(u))))]
    {
      u.connected := false;
      u.ip := [];
      u.port := [];
      assert old(QueueSound(u) && QueueLives(u, world, freed));
      Changed(i, {});
    }

    method MarkUp(u: UserNode, ghost i: nat, ip: Bytes, port: Bytes, ghost others: set<MessageNode>)
      requires Valid() && i < |users| && u == users[i] && Owned(others)
      modifies u`connected, u`ip, u`port
      ensures Valid() && Owned(others)
      ensures var r := old(RecordOf(u)).(connected := true, ip := ip, port := port);
              Contents() == old(Contents())[i := User(u.name, r)]
    {
      u.ip := ip;
      u.port := port;
      u.connected := true;
      assert old(QueueSound(u) && QueueLives(u, world, freed));
      Changed(i, {});
    }

    method BumpId(u: UserNode, ghost i: nat, ghost others: set<MessageNode>) returns (id: nat)
      requires Valid() && i < |users| && u == users[i] && Owned(others)
      modifies u`lastId
      ensures Valid() && id == NextId(old(u.lastId)) && Owned(others)
      ensures Contents() == old(Contents())[i := User(u.name, old(RecordOf(u)).(lastId := id))]
    {
      u.lastId := (u.lastId + 1) % WORD;
      if u.lastId == 0 {
        u.lastId := 1;
      }
      id := u.lastId;
      assert old(QueueSound(u) && QueueLives(u, world, freed));
      Changed(i, {});
    }

    /** Hangs owned nodes behind the user's queue. */
    method AppendOwned(u: UserNode, ghost i: nat, list: MessageNode?, ghost mine: seq<MessageNode>,
                       ghost others: set<MessageNode>)
      requires Valid() && i < |users| && u == users[i] && Linked(list, mine) && Owned(set m | m in mine)
      requires Owned(others) && others !! set m | m in mine
      modifies u`messages, u`queue, (set m | m in u.queue)`next, (set m | m in mine)`home
      ensures Valid() && Owned(others)
      ensures var r := old(RecordOf(u));
              Contents() == old(Contents())[i := User(u.name, r.(queue := r.queue + NodesOf(mine)))]
    {
      assert QueueSound(u) && QueueLives(u, world, freed);
      forall m | m in mine ensures OwnsNode(m) && m !in u.queue {
        assert m in set x | x in mine;
      }
      HangOn(u, list, mine);
      assert QueueLives(u, world, freed);
      Changed(i, set m | m in mine);
    }

    /** Allocates a node and appends it to the user's queue. */
    method AppendNew(u: UserNode, ghost i: nat, msg: Msg, ghost tag: nat, ghost others: set<MessageNode>)
      requires Valid() && i < |users| && u == users[i] && Owned(others)
      modifies this`world, u`messages, u`queue, (set m | m in u.queue)`next
      ensures Valid() && Grew() && Owned(others) && OnlyNew(old(world), world, Some(Node(tag, msg)))
      ensures var r := old(RecordOf(u));
              Contents() == old(Contents())[i := User(u.name, r.(queue := r.queue + [Node(tag, msg)]))]
    {
      assert QueueSound(u) && QueueLives(u, world, freed);
      var m := new MessageNode(msg, tag);
      world := world + {m};
      Grown({m});
      label L:
      AppendOwned(u, i, m, [m], others);
      assert NodesOf([m]) == [Node(tag, msg)];
    }

    /** Takes the whole queue off the user. */
    method Detach(u: UserNode, ghost i: nat, ghost others: set<MessageNode>)
      returns (list: MessageNode?, ghost mine: seq<MessageNode>)
      requires Valid() && i < |users| && u == users[i] && Owned(others)
      modifies u`messages, u`queue
      ensures Valid() && Linked(list, mine) && Owned(set m | m in mine)
      ensures Owned(others) && others !! set m | m in mine
      ensures NodesOf(mine) == old(RecordOf(u)).queue
      ensures Contents() == old(Contents())[i := User(u.name, old(RecordOf(u)).(queue := []))]
    {
      assert QueueSound(u) && QueueLives(u, world, freed);
      list, mine := u.messages, u.queue;
      u.messages := null;
      u.queue := [];
      Changed(i, {});
      forall m | m in mine ensures OwnsNode(m) {
        OffItsQueue(i, m);
      }
    }

    /** Unlinks the first queued node with the message's key, if there is one; the node is then owned. */
    method Unlink(u: UserNode, ghost i: nat, msg: Msg, ghost others: set<MessageNode>) returns (removed: MessageNode?)
      requires Valid() && i < |users| && u == users[i] && Owned(others)
      modifies u`messages, u`queue, (set m | m in u.queue)`next
      ensures Valid() && Owned(others) && (removed != null ==> OwnsNode(removed) && removed !in others)
      ensures removed != null ==> var q := old(RecordOf(u)).queue;
                FirstMatch(q, msg) < |q| && Node(removed.tag, removed.msg) == q[FirstMatch(q, msg)]
      ensures var q := old(RecordOf(u)).queue;
        && Contents() == old(Contents())[i := User(u.name, old(RecordOf(u)).(queue := Without(q, FirstMatch(q, msg))))]
        && (removed == null <==> FirstMatch(q, msg) == |q|)
    {
      assert QueueSound(u) && QueueLives(u, world, freed);
      removed := TakeOff(u, msg);
      assert QueueLives(u, world, freed);
      Changed(i, {});
      if removed != null {
        OffItsQueue(i, removed);
      }
    }

    /** Nodes of the users from the i-th on are still live. */
    ghost predicate LiveFrom(i: nat)
      reads this, users
    {
      forall j | i <= j < |users| :: users[j] in world && users[j] !in freed && QueueLives(users[j], world, freed)
    }

    /** Releases every user node and every queued message node, each once. The list must not be used afterwards. */
    method FreeUserList()
      requires Valid()
      modifies this`freed
      ensures forall j | 0 <= j < |users| :: users[j] in freed && forall m | m in users[j].queue :: m in freed
      ensures forall o | o in freed && o !in old(freed) ::
                o in users || exists j :: 0 <= j < |users| && o in users[j].queue
    {
      var current := head;
      ghost var i := 0;
      assert LiveFrom(0);
      while current != null
        invariant i <= |users| && current == UserAt(users, i) && LiveFrom(i)
        invariant old(freed) <= freed
        invariant forall j | 0 <= j < i :: users[j] in freed && forall m | m in users[j].queue :: m in freed
        invariant forall o | o in freed && o !in old(freed) ::
                    o in users || exists j :: 0 <= j < |users| && o in users[j].queue
        decreases |users| - i
      {
        var next := current.next;
        assert old(QueueSound(current)) && QueueLives(current, world, freed);
        FreeNodes(current.messages, current.queue);
        Release(current);
        forall j | i < j < |users| ensures users[j] !in freed && QueueLives(users[j], world, freed) {
          assert users[j].name != users[i].name;
          assert old(QueueSound(users[j]));
        }
        current := next;
        i := i + 1;
      }
    }

    /** Finds the named user and the one before it. */
    method FindWithPrevious(name: Name) returns (previous: UserNode?, current: UserNode?, ghost i: nat)
      requires Valid()
      ensures i == IndexOf(Contents(), name) && current == UserAt(users, i)
      ensures previous == if i == 0 then null else users[i - 1]
    {
      current := head;
      previous := null;
      i := 0;
      while current != null && current.name != name
        invariant i <= |users| && current == UserAt(users, i) && previous == (if i == 0 then null else users[i - 1])
        invariant forall j | 0 <= j < i :: users[j].name != name
        decreases |users| - i
      {
        previous := current;
        current := current.next;
        i := i + 1;
      }
      FoundAt(Contents(), name, i);
    }

    /** Makes the list skip a user, who is then reachable only by the caller, queue and all. */
    method UnlinkUser(previous: UserNode?, current: UserNode, ghost i: nat, ghost others: set<MessageNode>)
      requires Valid() && i < |users| && current == users[i] && Owned(others)
      requires previous == if i == 0 then null else users[i - 1]
      modifies this`head, this`users, (set u | u in users)`next
      ensures Valid() && Contents() == Without(old(Contents()), i)
      ensures current in world && current !in freed && current !in users
      ensures current.queue == old(current.queue) && current.messages == old(current.messages)
      ensures Linked(current.messages, current.queue) && Owned(set m | m in current.queue)
      ensures Owned(others) && others !! set m | m in current.queue
    {
      assert QueueSound(current) && QueueLives(current, world, freed);
      if previous == null {
        head := current.next;
      } else {
        previous.next := current.next;
      }
      users := Without(users, i);
      Removed(i);
      OthersLeft(i, others);
    }

    /** Removes the named user and releases the node with its queue; -1 if there is no such user. */
    method RemoveUser(name: Name, ghost others: set<MessageNode>) returns (rc: int)
      requires Valid() && locked && Owned(others)
      modifies this`head, this`users, this`freed, (set u | u in users)`next
      ensures Valid() && Owned(others)
      ensures var i := old(IndexOf(Contents(), name));
        && rc == (if i < |old(users)| then 0 else -1)
        && Contents() == Without(old(Contents()), i)
        && (i < |old(users)| ==> freed == old(freed) + (set m | m in old(users[i].queue)) + {old(users)[i]})
        && (i == |old(users)| ==> freed == old(freed))
    {
      if head == null {
        return -1;
      }
      var previous, current, i := FindWithPrevious(name);
      if current == null {
        return -1;
      }
      UnlinkUser(previous, current, i, others);
      FreeList(current.messages, current.queue, others);
      FreeUser(current, others);
      rc := 0;
    }
  }
}
