/** The linked list of pending messages, as the server walks and relinks it. */
module MessageList {
  import opened Basics
  import opened Registry

  class MessageNode {
    const msg: Msg
    ghost const tag: nat     // the identity of this allocation
    var next: MessageNode?
    ghost var home: object?  // the user node whose queue holds it

    constructor (msg: Msg, ghost tag: nat)
      ensures this.msg == msg && this.tag == tag && next == null
    {
      this.msg, this.tag := msg, tag;
      next := null;
      home := null;
    }
  }

  /** `head` leads through exactly the nodes of `s`, in order, each once, to the end of the list. */
  ghost predicate Linked(head: MessageNode?, s: seq<MessageNode>)
    reads s
  {
    && head == At(s, 0)
    && (forall i {:trigger s[i].next} | 0 <= i < |s| :: s[i].next == At(s, i + 1))
    && NoRepeats(s)
  }

  ghost predicate NoRepeats(s: seq<MessageNode>) {
    forall i, j | 0 <= i < j < |s| :: s[i] != s[j]
  }

  /** The i-th node of the list, or null past its end. */
  ghost function At(s: seq<MessageNode>, i: nat): MessageNode? {
    if i < |s| then s[i] else null
  }

  /** What the nodes carry. */
  ghost function NodesOf(s: seq<MessageNode>): (r: seq<Node>)
    ensures |r| == |s| && forall i | 0 <= i < |s| :: r[i] == Node(s[i].tag, s[i].msg)
  {
    seq(|s|, i requires 0 <= i < |s| => Node(s[i].tag, s[i].msg))
  }

  lemma NodesOfParts(a: seq<MessageNode>, b: seq<MessageNode>, i: nat)
    ensures NodesOf(a + b) == NodesOf(a) + NodesOf(b)
    ensures NodesOf(Without(a, i)) == Without(NodesOf(a), i)
  {
  }

  /** Hangs the list `tail` behind the last node of the list `head`. */
  method Append(head: MessageNode?, ghost s: seq<MessageNode>, tail: MessageNode?, ghost t: seq<MessageNode>)
    returns (joined: MessageNode?)
    requires Linked(head, s) && Linked(tail, t)
    requires forall i, j | 0 <= i < |s| && 0 <= j < |t| :: s[i] != t[j]
    modifies (set n | n in s)`next
    ensures Linked(joined, s + t)
  {
    if head == null {
      assert s + t == t;
      joined := tail;
    } else {
      var aux := head;
      ghost var i := 0;
      while aux.next != null
        invariant 0 <= i < |s| && aux == s[i]
        decreases |s| - i
      {
        aux := aux.next;
        i := i + 1;
      }
      assert i == |s| - 1;
      aux.next := tail;
      joined := head;
      assert At(s + t, |s|) == At(t, 0);
    }
  }

  /** What follows each node once the one at index `i` is out. */
  lemma NextWithout(s: seq<MessageNode>, i: nat, j: nat)
    requires i < |s| && j < |Without(s, i)|
    ensures Without(s, i)[j] == s[if j < i then j else j + 1]
    ensures At(Without(s, i), j + 1) == At(s, if j + 1 < i then j + 1 else j + 2)
  {
  }

  lemma NoRepeatsWithout(s: seq<MessageNode>, i: nat)
    requires NoRepeats(s) && i < |s|
    ensures NoRepeats(Without(s, i))
  {
    var rest := Without(s, i);
    forall j, k | 0 <= j < k < |rest| ensures rest[j] != rest[k] {
      NextWithout(s, i, j);
      NextWithout(s, i, k);
    }
  }

  /** The list without its node at index `i` is linked, if the node before it skips it and the others are as they
      were. */
  lemma SkippedIsLinked(head: MessageNode?, s: seq<MessageNode>, i: nat)
    requires NoRepeats(s) && i < |s| && head == At(s, if i == 0 then 1 else 0)
    requires forall j {:trigger s[j].next} | 0 <= j < |s| && j != i ::
               s[j].next == At(s, if j + 1 == i then j + 2 else j + 1)
    ensures Linked(head, Without(s, i))
  {
    var rest := Without(s, i);
    NoRepeatsWithout(s, i);
    forall j {:trigger rest[j].next} | 0 <= j < |rest| ensures rest[j].next == At(rest, j + 1) {
      NextWithout(s, i, j);
      if j < i {
        assert s[j].next == At(s, if j + 1 == i then j + 2 else j + 1);
      } else {
        assert s[j + 1].next == At(s, j + 2);
      }
    }
    assert head == At(rest, 0) by {
      if rest != [] {
        NextWithout(s, i, 0);
      }
    }
  }

  /** Unlinks the first node that coincides with the arguments, if there is one. */
  method UnlinkFirst(head: MessageNode?, ghost s: seq<MessageNode>,
                     id: nat, sender: Option<Name>, file: Option<Bytes>, attach: Option<bool>)
    returns (rest: MessageNode?, removed: MessageNode?, ghost at: nat)
    requires Linked(head, s)
    modifies (set n | n in s)`next
    ensures at <= |s| && removed == At(s, at)
    ensures forall j | 0 <= j < at :: !Coincides(s[j].msg, id, sender, file, attach)
    ensures at < |s| ==> Coincides(s[at].msg, id, sender, file, attach)
    ensures Linked(rest, Without(s, at))
  {
    var before: MessageNode? := null;
    var act := head;
    at := 0;
    while act != null
      invariant at <= |s| && act == At(s, at) && before == (if at == 0 then null else s[at - 1])
      invariant forall j | 0 <= j < at :: !Coincides(s[j].msg, id, sender, file, attach)
      invariant Linked(head, s)
      decreases |s| - at
    {
      var m := act.msg;
      var same := m.id == id;
      if same && attach.Some? {
        same := m.attach == attach.value;
      }
      if same && sender.Some? {
        same := m.sender == sender.value;
      }
      if same && file.Some? {
        same := m.file == file.value;
      }
      if same {
        assert Coincides(m, id, sender, file, attach);
        if before == null {
          rest := act.next;
        } else {
          before.next := act.next;
          rest := head;
        }
        removed := act;
        SkippedIsLinked(rest, s, at);
        return;
      }
      before := act;
      act := act.next;
      at := at + 1;
    }
    rest, removed := head, null;
  }

  /** For the arguments a send passes, the node unlinked is the first one that matches the message. */
  lemma FirstMatchIs(q: seq<Node>, m: Msg, at: nat)
    requires at <= |q| && (forall j | 0 <= j < at :: !Takes(q[j], m)) && (at < |q| ==> Takes(q[at], m))
    ensures at == FirstMatch(q, m)
  {
  }

  /** The removal as a delivered send asks for it. */
  method UnlinkMessage(head: MessageNode?, ghost s: seq<MessageNode>, m: Msg)
    returns (rest: MessageNode?, removed: MessageNode?, ghost at: nat)
    requires Linked(head, s)
    modifies (set n | n in s)`next
    ensures at == FirstMatch(NodesOf(s), m) && removed == At(s, at)
    ensures Linked(rest, Without(s, at)) && NodesOf(Without(s, at)) == Without(NodesOf(s), at)
    ensures forall x | x in Without(s, at) :: x in s && x != removed
  {
    rest, removed, at :=
      UnlinkFirst(head, s, m.id, Some(m.sender), if m.attach then Some(m.file) else None, Some(m.attach));
    assert forall j | 0 <= j < |s| ::
        Takes(NodesOf(s)[j], m) <==>
        Coincides(s[j].msg, m.id, Some(m.sender), if m.attach then Some(m.file) else None, Some(m.attach));
    FirstMatchIs(NodesOf(s), m, at);
    NodesOfParts(s, [], at);
  }
}
