/** Users, pending messages, and what each mutex-protected section does to the registry of users.

    The registry is seen twice: as the list the server keeps, newest user first, and as a map from
    names to records. The protocol is stated on the map; the linked implementation is proved on the
    list; the lemmas here connect the two.
  */
module Registry {
  import opened Basics
  import opened MessageIds

  const MAX_TEXT: nat := 255
  const MAX_ADDRESS: nat := 15

  type Name = Bytes

  /** What a message carries. A plain message has no attachment and an empty file name. */
  datatype Msg = Msg(id: nat, sender: Name, text: Bytes, file: Bytes, attach: bool)

  /** The fields a removal compares. */
  datatype Key = Key(id: nat, sender: Name, attach: bool, file: Bytes)

  function KeyOf(m: Msg): Key {
    Key(m.id, m.sender, m.attach, m.file)
  }

  /** An allocated message node; `tag` is the identity of the allocation. */
  datatype Node = Node(tag: nat, msg: Msg)

  datatype Record = Record(connected: bool, ip: Bytes, port: Bytes, lastId: nat, queue: seq<Node>)

  type Users = map<Name, Record>

  predicate Up(us: Users, n: Name) {
    n in us && us[n].connected
  }

  const BLANK: Record := Record(false, [], [], 0, [])

  /** The state of the registry after a section, and the result byte sent to the client. */
  datatype Outcome = Outcome(users: Users, code: Byte)

  // ---- The message a SEND or SENDATTACH stores.

  function Compose(id: nat, sender: Name, text: Bytes, file: Bytes, attach: bool): Msg {
    Msg(id, sender, Cut(text, MAX_TEXT), if attach then Cut(file, MAX_TEXT) else [], attach)
  }

  // ---- Removal of the first matching node.

  /** The comparison of the removal loop, with the checks its caller can switch off. */
  predicate Coincides(m: Msg, id: nat, sender: Option<Name>, file: Option<Bytes>, attach: Option<bool>) {
    && m.id == id
    && (attach.Some? ==> m.attach == attach.value)
    && (sender.Some? ==> m.sender == sender.value)
    && (file.Some? ==> m.file == file.value)
  }

  /** The comparison as a delivered send asks for it: the file is compared only for attachments. */
  predicate Takes(n: Node, m: Msg) {
    Coincides(n.msg, m.id, Some(m.sender), if m.attach then Some(m.file) else None, Some(m.attach))
  }

  /** Index of the first node that the send of message `m` takes for its own, or the length of the queue. */
  function FirstMatch(q: seq<Node>, m: Msg): (i: nat)
    ensures i <= |q|
    ensures forall j | 0 <= j < i :: !Takes(q[j], m)
    ensures i < |q| ==> Takes(q[i], m)
  {
    if q == [] || Takes(q[0], m) then 0 else 1 + FirstMatch(q[1..], m)
  }

  function Without<T>(s: seq<T>, i: nat): seq<T> {
    if i < |s| then s[..i] + s[i + 1..] else s
  }

  // ---- The locked sections, on the map view.

  function Register(us: Users, n: Name): Outcome {
    if n in us then Outcome(us, 1) else Outcome(us[n := BLANK], 0)
  }

  function Unregister(us: Users, n: Name): Outcome {
    if n in us then Outcome(us - {n}, 0) else Outcome(us, 1)
  }

  function Connect(us: Users, n: Name, ip: Bytes, port: Bytes): Outcome {
    if n !in us then Outcome(us, 1)
    else if us[n].connected then Outcome(us, 2)
    else Outcome(us[n := us[n].(connected := true, ip := Cut(ip, MAX_ADDRESS),
                                port := Cut(port, MAX_ADDRESS), queue := [])], 0)
  }

  function Disconnect(us: Users, n: Name, ip: Bytes): Outcome {
    if n !in us then Outcome(us, 1)
    else if !us[n].connected then Outcome(us, 2)
    else if us[n].ip != ip then Outcome(us, 3)
    else Outcome(MarkDown(us, n), 0)
  }

  /** First section of a send: take the next id, append the node to the recipient's queue. */
  function Enqueue(us: Users, sender: Name, dest: Name, tag: nat, text: Bytes, file: Bytes, attach: bool): Outcome {
    if sender !in us || dest !in us then Outcome(us, 1)
    else
      var id := NextId(us[sender].lastId);
      var us1 := us[sender := us[sender].(lastId := id)];
      var node := Node(tag, Compose(id, sender, text, file, attach));
      Outcome(us1[dest := us1[dest].(queue := us1[dest].queue + [node])], 0)
  }

  /** Second section of a delivered send: drop the first node with the message's key. */
  function Remove(us: Users, dest: Name, m: Msg): Users {
    if dest in us then us[dest := us[dest].(queue := Without(us[dest].queue, FirstMatch(us[dest].queue, m)))] else us
  }

  /** The record with the user disconnected and the address blanked. */
  function Down(r: Record): Record {
    r.(connected := false, ip := [], port := [])
  }

  /** Second section of a failed send: the recipient is marked disconnected. */
  function MarkDown(us: Users, n: Name): Users {
    if n in us then us[n := Down(us[n])] else us
  }

  /** Last section of a failed flush: the unsent suffix goes behind whatever is queued by now. */
  function SpliceBack(us: Users, n: Name, rest: seq<Node>): Users {
    if n in us then us[n := Down(us[n]).(queue := us[n].queue + rest)] else us
  }

  /** Where a listener can be reached. */
  datatype Address = Address(ip: Bytes, port: Bytes)

  /** The copy a handler takes, under the mutex, of the address of a user that is connected. */
  function Reach(us: Users, n: Name): Option<Address> {
    if Up(us, n) then Some(Address(Cut(us[n].ip, MAX_ADDRESS), Cut(us[n].port, MAX_ADDRESS))) else None
  }

  /** The user is connected under an address, of which the registry keeps 15 bytes each. */
  predicate ConnectedFrom(us: Users, n: Name, ip: Bytes, port: Bytes) {
    Up(us, n) && us[n].ip == Cut(ip, 15) && us[n].port == Cut(port, 15)
  }

  // ---- The list view.

  datatype User = User(name: Name, record: Record)

  predicate UniqueNames(list: seq<User>) {
    forall i, j | 0 <= i < j < |list| :: list[i].name != list[j].name
  }

  /** The first user with that name, as an index, or the length of the list. */
  function IndexOf(list: seq<User>, n: Name): (i: nat)
    ensures i <= |list|
    ensures forall j | 0 <= j < i :: list[j].name != n
    ensures i < |list| ==> list[i].name == n
  {
    if list == [] || list[0].name == n then 0 else 1 + IndexOf(list[1..], n)
  }

  function AsMap(list: seq<User>): Users {
    if list == [] then map[] else AsMap(list[1..])[list[0].name := list[0].record]
  }

  /** Looking a name up in the list finds the record the map holds for it, and misses exactly the names outside the
      map. */
  lemma {:induction false} LookupAgrees(list: seq<User>, n: Name)
    ensures n in AsMap(list) <==> IndexOf(list, n) < |list|
    ensures n in AsMap(list) ==> AsMap(list)[n] == list[IndexOf(list, n)].record
  {
    if list != [] && list[0].name != n {
      LookupAgrees(list[1..], n);
    }
  }

  lemma AtIndex(list: seq<User>, i: nat)
    requires UniqueNames(list) && i < |list|
    ensures IndexOf(list, list[i].name) == i
  {
  }

  /** Inserting an unknown name at the head adds exactly that name to the map. */
  lemma InsertAgrees(list: seq<User>, n: Name)
    requires UniqueNames(list) && IndexOf(list, n) == |list|
    ensures UniqueNames([User(n, BLANK)] + list)
    ensures AsMap([User(n, BLANK)] + list) == Register(AsMap(list), n).users
  {
    LookupAgrees(list, n);
    assert ([User(n, BLANK)] + list)[1..] == list;
  }

  /** Taking one user out of the list removes exactly that name from the map. */
  lemma {:induction false} RemovalAgrees(list: seq<User>, i: nat)
    requires UniqueNames(list) && i < |list|
    ensures AsMap(Without(list, i)) == AsMap(list) - {list[i].name}
  {
    var tail := list[1..];
    if i == 0 {
      assert Without(list, 0) == tail;
      LookupAgrees(tail, list[0].name);
    } else {
      RemovalAgrees(tail, i - 1);
      WithoutTail(list, i);
      InsertRemoveCommute(AsMap(tail), list[0].name, list[0].record, list[i].name);
    }
  }

  lemma WithoutTail<T>(s: seq<T>, i: nat)
    requires 0 < i < |s|
    ensures s[1..][i - 1] == s[i]
    ensures Without(s, i) == [s[0]] + Without(s[1..], i - 1)
    ensures Without(s, i)[1..] == Without(s[1..], i - 1)
  {
    assert Without(s, i) == [s[0]] + Without(s[1..], i - 1);
  }

  lemma InsertRemoveCommute(m: Users, a: Name, r: Record, b: Name)
    requires a != b
    ensures (m - {b})[a := r] == m[a := r] - {b}
  {
  }

  /** Changing one user's record in place changes exactly that entry of the map. */
  lemma {:induction false} UpdateAgrees(list: seq<User>, i: nat, r: Record)
    requires UniqueNames(list) && i < |list|
    ensures UniqueNames(list[i := User(list[i].name, r)])
    ensures AsMap(list[i := User(list[i].name, r)]) == AsMap(list)[list[i].name := r]
  {
    var list' := list[i := User(list[i].name, r)];
    var tail := list[1..];
    if i == 0 {
      assert list'[1..] == tail;
    } else {
      UpdateAgrees(tail, i - 1, r);
      assert list[i] == tail[i - 1];
      assert list'[1..] == tail[i - 1 := User(tail[i - 1].name, r)];
      UpdatesCommute(AsMap(tail), list[0].name, list[0].record, list[i].name, r);
    }
  }

  lemma UpdatesCommute(m: Users, a: Name, ra: Record, b: Name, rb: Record)
    requires a != b
    ensures m[a := ra][b := rb] == m[b := rb][a := ra]
  {
  }

  // ---- What the sections keep.

  /** A disconnected user has no address, and plain messages carry no file name. */
  predicate TidyRecord(r: Record) {
    && (!r.connected ==> r.ip == [] && r.port == [])
    && PlainHaveNoFile(r.queue)
  }

  predicate WellKept(us: Users) {
    forall n | n in us :: TidyRecord(us[n])
  }

  predicate PlainHaveNoFile(q: seq<Node>) {
    forall i | 0 <= i < |q| :: !q[i].msg.attach ==> q[i].msg.file == []
  }

  lemma ListSectionsStayWellKept(us: Users, n: Name, ip: Bytes, port: Bytes)
    requires WellKept(us)
    ensures WellKept(Register(us, n).users)
    ensures WellKept(Unregister(us, n).users)
    ensures WellKept(Connect(us, n, ip, port).users)
    ensures WellKept(Disconnect(us, n, ip).users)
    ensures WellKept(MarkDown(us, n))
  {
  }

  lemma EnqueueStaysWellKept(us: Users, n: Name, d: Name, tag: nat, text: Bytes, file: Bytes, attach: bool)
    requires WellKept(us)
    ensures WellKept(Enqueue(us, n, d, tag, text, file, attach).users)
  {
  }

  lemma QueueSectionsStayWellKept(us: Users, d: Name, m: Msg, rest: seq<Node>)
    requires WellKept(us) && PlainHaveNoFile(rest)
    ensures WellKept(Remove(us, d, m))
    ensures WellKept(SpliceBack(us, d, rest))
  {
    if d in us {
      assert TidyRecord(us[d]);
      assert PlainHaveNoFile(Without(us[d].queue, FirstMatch(us[d].queue, m)));
      assert PlainHaveNoFile(us[d].queue + rest);
    }
  }

  /** Between well-kept queues the removal loop's comparison is equality of keys. */
  lemma TakesIsKeyEquality(n: Node, m: Msg)
    requires !n.msg.attach ==> n.msg.file == []
    requires !m.attach ==> m.file == []
    ensures Takes(n, m) <==> KeyOf(n.msg) == KeyOf(m)
  {
  }
}
