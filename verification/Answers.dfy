/** What a user is told. The server answers a request with a code; the client turns it into a result and keeps track of
    whom it acts for. The lemmas put both ends together: over any run, the result says whether the name was registered,
    connected, or connected from here, in terms of the steps that were taken.
  */
module Answers {
  import opened Basics
  import opened MessageIds
  import opened Registry
  import opened Protocol
  import opened Utf8
  import opened Framing
  import opened Decimal
  import opened PythonText
  import opened Frames
  import opened UsersReply
  import opened History
  import opened Membership

  /** The requests that are answered with a code alone. */
  datatype Request = RegisterRequest | UnregisterRequest | ConnectRequest | DisconnectRequest

  /** What the client makes of the bytes that arrive; none is a closed, reset or refused connection. */
  function ResultOf(request: Request, b: Bytes): RC {
    if b == [] then ERROR
    else if b[0] == 0 then OK
    else if b[0] == 1 || (b[0] == 2 && (request.ConnectRequest? || request.DisconnectRequest?)) then USER_ERROR
    else ERROR
  }

  /** What the client keeps: the user it acts for, and whether its listener is meant to run. */
  datatype View = View(user: Option<Str>, listening: bool)

  const STOPPED: View := View(None, false)

  function AfterUnregister(v: View, name: Str, b: Bytes): (RC, View) {
    var rc := ResultOf(UnregisterRequest, b);
    (rc, if rc == OK && v.user == Some(name) then STOPPED else v)
  }

  /** Already listening, the client does not ask. */
  function AfterConnect(v: View, name: Str, b: Bytes): (RC, View) {
    if v.listening then (USER_ERROR, v)
    else
      var rc := ResultOf(ConnectRequest, b);
      (rc, if rc == OK then View(Some(name), true) else STOPPED)
  }

  /** For another user than its own the client does not ask; having asked it stops listening, whatever the answer. */
  function AfterDisconnect(v: View, name: Str, b: Bytes): (RC, View) {
    if ActsForAnother(v.user, name) then (ERROR, v) else (ResultOf(DisconnectRequest, b), STOPPED)
  }

  /** The empty name counts as none. */
  predicate ActsForAnother(user: Option<Str>, name: Str) {
    user.Some? && user.value != [] && user.value != name
  }

  class Session {
    var user: Option<Str>
    var listening: bool

    constructor ()
      ensures Now() == STOPPED
    {
      user, listening := None, false;
    }

    function Now(): View
      reads this
    {
      View(user, listening)
    }

    method StopListener()
      modifies this
      ensures Now() == STOPPED
    {
      listening := false;
      user := None;
    }

    method Register(c: Connection) returns (rc: RC)
      modifies c
      ensures rc == ResultOf(RegisterRequest, old(c.Payload()))
    {
      var res := ReadCode(c);
      if res == [] {
        return ERROR;
      }
      rc := if res[0] == 0 then OK else if res[0] == 1 then USER_ERROR else ERROR;
    }

    method Unregister(c: Connection, name: Str) returns (rc: RC)
      modifies this, c
      ensures (rc, Now()) == AfterUnregister(old(Now()), name, old(c.Payload()))
    {
      var res := ReadCode(c);
      if res == [] {
        return ERROR;
      }
      if res[0] == 0 {
        if user == Some(name) {
          StopListener();
        }
        return OK;
      }
      rc := if res[0] == 1 then USER_ERROR else ERROR;
    }

    method Connect(c: Connection, name: Str) returns (rc: RC)
      modifies this, c
      ensures (rc, Now()) == AfterConnect(old(Now()), name, old(c.Payload()))
    {
      if listening {
        return USER_ERROR;
      }
      listening := true;
      var res := ReadCode(c);
      if res == [] {
        StopListener();
        return ERROR;
      }
      if res[0] == 0 {
        user := Some(name);
        return OK;
      }
      StopListener();
      rc := if res[0] == 1 || res[0] == 2 then USER_ERROR else ERROR;
    }

    method Disconnect(c: Connection, name: Str) returns (rc: RC)
      modifies this, c
      ensures (rc, Now()) == AfterDisconnect(old(Now()), name, old(c.Payload()))
    {
      if ActsForAnother(user, name) {
        return ERROR;
      }
      var res := ReadCode(c);
      StopListener();
      if res == [] {
        return ERROR;
      }
      rc := if res[0] == 0 then OK else if res[0] == 1 || res[0] == 2 then USER_ERROR else ERROR;
    }
  }

  /** The first byte of the answer, if one arrives. */
  method ReadCode(c: Connection) returns (res: Bytes)
    modifies c
    ensures res == Cut(old(c.Payload()), 1)
  {
    ghost var b := c.Payload();
    var raised;
    res, raised := c.Receive(1);
    assert b != [] ==> res == [b[0]] && b[..1] == [b[0]];
  }

  // ---- For whom the client acts, over all it has asked.

  /** What the client was asked for, and the bytes that answered it. */
  datatype Asked =
    | AskUnregister(name: Str, answer: Bytes)
    | AskConnect(name: Str, answer: Bytes)
    | AskDisconnect(name: Str, answer: Bytes)

  function Next(v: View, a: Asked): (RC, View) {
    match a
    case AskUnregister(name, b) => AfterUnregister(v, name, b)
    case AskConnect(name, b) => AfterConnect(v, name, b)
    case AskDisconnect(name, b) => AfterDisconnect(v, name, b)
  }

  function ViewAfter(asked: seq<Asked>): View {
    if asked == [] then STOPPED else Next(ViewAfter(asked[..|asked| - 1]), asked[|asked| - 1]).1
  }

  /** The client was told that it is connected as the user. */
  predicate Begins(v: View, a: Asked, n: Str) {
    a.AskConnect? && a.name == n && !v.listening && a.answer != [] && a.answer[0] == 0
  }

  /** It was told that its own user is gone, or it asked to be disconnected, whatever the answer. */
  predicate Ends(v: View, a: Asked) {
    || (a.AskUnregister? && v.user == Some(a.name) && a.answer != [] && a.answer[0] == 0)
    || (a.AskDisconnect? && (v.user.None? || v.user.value in {[], a.name}))
  }

  ghost predicate BeginsAt(asked: seq<Asked>, i: nat, n: Str) {
    i < |asked| && Begins(ViewAfter(asked[..i]), asked[i], n)
  }

  ghost predicate EndsAt(asked: seq<Asked>, j: nat) {
    j < |asked| && Ends(ViewAfter(asked[..j]), asked[j])
  }

  ghost predicate ActsSince(asked: seq<Asked>, n: Str, i: nat) {
    BeginsAt(asked, i, n) && forall j: nat | i < j < |asked| :: !EndsAt(asked, j)
  }

  lemma OneMoreAsked(init: seq<Asked>, a: Asked, n: Str, i: nat)
    ensures ActsSince(init + [a], n, i) <==>
            if i < |init| then ActsSince(init, n, i) && !Ends(ViewAfter(init), a)
            else i == |init| && Begins(ViewAfter(init), a, n)
  {
    var all := init + [a];
    forall j: nat | j <= |init| ensures all[..j] == init[..j] {
    }
    assert init[..|init|] == init;
    assert forall j: nat | j < |init| :: EndsAt(all, j) <==> EndsAt(init, j);
    assert EndsAt(all, |init|) <==> Ends(ViewAfter(init), a);
    assert BeginsAt(all, i, n) <==>
           if i < |init| then BeginsAt(init, i, n) else i == |init| && Begins(ViewAfter(init), a, n);
  }

  /** The client acts for a user exactly if it was told OK when it connected as that user, and since then neither was
      told that the user is unregistered nor asked to be disconnected; meanwhile its listener is meant to run. A request
      it does not send changes nothing. */
  lemma {:induction false} ActsForIff(asked: seq<Asked>, n: Str)
    ensures ViewAfter(asked).user == Some(n) <==> exists i: nat :: ActsSince(asked, n, i)
    ensures ViewAfter(asked).listening <==> ViewAfter(asked).user.Some?
  {
    if asked != [] {
      var init, a := asked[..|asked| - 1], asked[|asked| - 1];
      assert asked == init + [a];
      ActsForIff(init, n);
      forall i: nat
        ensures ActsSince(asked, n, i) <==>
                if i < |init| then ActsSince(init, n, i) && !Ends(ViewAfter(init), a)
                else i == |init| && Begins(ViewAfter(init), a, n)
      {
        OneMoreAsked(init, a, n, i);
      }
      assert ActsSince(asked, n, |init|) <==> Begins(ViewAfter(init), a, n);
    }
  }

  /** What the client says of its own accord, without asking the server. */
  lemma Unasked(v: View, name: Str, b: Bytes)
    ensures v.listening ==> AfterConnect(v, name, b) == (USER_ERROR, v)
    ensures v.user.Some? && v.user.value !in {[], name} ==> AfterDisconnect(v, name, b) == (ERROR, v)
  {
  }

  // ---- What arrives.

  /** A code arrives exactly if its write is not refused. */
  lemma CodeArrives(plan: seq<WriteEvent>, code: Byte)
    ensures Outgoing(plan, [[code]]) == if CutShort(plan, 1) then [] else [code]
  {
    OutgoingOne(plan, [code]);
    AllTakenIff(plan, 1);
  }

  /** Whatever else the first byte is, beyond the codes the handlers answer with, it is a failure. */
  lemma OtherCodesFail(code: Byte, more: Bytes, reset: bool, digits: Digits, d: Directory)
    ensures code > 1 ==> ResultOf(RegisterRequest, [code] + more) == ResultOf(UnregisterRequest, [code] + more) == ERROR
    ensures code > 2 ==> ResultOf(ConnectRequest, [code] + more) == ResultOf(DisconnectRequest, [code] + more) == ERROR
    ensures code > 1 ==> AnswerIn([code] + more, reset) == SendFailed
    ensures code > 1 ==> Refreshed(digits, [code] + more, d, reset) == (ERROR, d)
  {
  }

  /** The id that is shown is the text behind the code 0, decoded; text that cannot be decoded raises. */
  lemma IdIsShown(id: Bytes, tail: Bytes, reset: bool)
    requires NoNul(id)
    ensures AnswerIn([0] + (id + [NUL] + tail), reset) ==
            if Decode(id).Some? then Told(Decode(id).value) else Undecodable
  {
    var b := [0] + (id + [NUL] + tail);
    assert b[1..] == id + [NUL] + tail && b[1..][|id|] == NUL;
    TextOfField(id, tail);
  }

  // ---- What the user is told, from the steps so far.

  /** The user is told OK exactly if the name was free, and that it is in use exactly if it was registered; an error
      means the answer was lost. */
  lemma RegisterTold(steps: seq<Action>, n: Name, plan: seq<WriteEvent>)
    ensures ResultOf(RegisterRequest, Outgoing(plan, [[Register(Run(steps).users, n).code]])) ==
            if CutShort(plan, 1) then ERROR else if RegisteredBy(steps, n) then USER_ERROR else OK
    ensures RegisteredBy(steps + [DoRegister(n)], n)
  {
    CodeArrives(plan, Register(Run(steps).users, n).code);
    RegisterCode(steps, n);
    RegisteredSnoc(steps, DoRegister(n), n);
  }

  /** The user is told OK exactly if the name was registered, and is then no longer the one the client acts for. */
  lemma UnregisterTold(steps: seq<Action>, v: View, name: Str, plan: seq<WriteEvent>)
    ensures var n := Encode(name);
            var (rc, v') := AfterUnregister(v, name, Outgoing(plan, [[Unregister(Run(steps).users, n).code]]));
      && rc == (if CutShort(plan, 1) then ERROR else if RegisteredBy(steps, n) then OK else USER_ERROR)
      && (if rc == OK then v'.user != Some(name) && (v.user != Some(name) ==> v' == v) else v' == v)
    ensures !RegisteredBy(steps + [DoUnregister(Encode(name))], Encode(name))
  {
    var n := Encode(name);
    CodeArrives(plan, Unregister(Run(steps).users, n).code);
    UnregisterCode(steps, n);
    RegisteredSnoc(steps, DoUnregister(n), n);
  }

  /** A client that does not listen yet is told OK exactly if the user is registered and not connected, and then acts
      for it; otherwise it is told of the user error. If the answer is lost the server has connected the user all the
      same, while the client stops listening. */
  lemma ConnectTold(steps: seq<Action>, v: View, name: Str, ip: Bytes, port: Bytes, plan: seq<WriteEvent>)
    requires !v.listening
    ensures var n := Encode(name);
            var (rc, v') := AfterConnect(v, name, Outgoing(plan, [[Connect(Run(steps).users, n, ip, port).code]]));
      && rc == (if CutShort(plan, 1) then ERROR
                else if RegisteredBy(steps, n) && !ConnectedBy(steps, n) then OK else USER_ERROR)
      && v' == (if rc == OK then View(Some(name), true) else STOPPED)
      && (RegisteredBy(steps, n) && !ConnectedBy(steps, n) ==>
            ConnectedFrom(Registry.Connect(Run(steps).users, n, ip, port).users, n, ip, port))
  {
    var n := Encode(name);
    CodeArrives(plan, Connect(Run(steps).users, n, ip, port).code);
    ConnectCode(steps, n, ip, port);
  }

  /** The user is told OK exactly if it was connected from the address the request comes from, of an error if from
      another, and of a user error if it was not connected or is unknown; the client stops listening all the same. */
  lemma DisconnectTold(steps: seq<Action>, v: View, name: Str, ip: Bytes, plan: seq<WriteEvent>)
    requires v.user.Some? ==> v.user.value == [] || v.user.value == name
    ensures var n := Encode(name);
            var (rc, v') := AfterDisconnect(v, name, Outgoing(plan, [[Disconnect(Run(steps).users, n, ip).code]]));
      && (if CutShort(plan, 1) then rc == ERROR
          else if !RegisteredBy(steps, n) || !ConnectedBy(steps, n) then rc == USER_ERROR
          else forall i: nat | ConnectedSince(steps, n, i) :: rc == if ip == Cut(steps[i].ip, 15) then OK else ERROR)
      && v' == STOPPED
  {
    var n := Encode(name);
    CodeArrives(plan, Disconnect(Run(steps).users, n, ip).code);
    DisconnectCode(steps, n, ip);
  }

  /** The sender's client is told that a user is unknown exactly if the sender or the recipient is, and otherwise the id
      of the message that was accepted, if no write of the answer is refused. */
  lemma SendTold(steps: seq<Action>, tid: nat, sender: Name, dest: Name, text: Bytes, file: Bytes, attach: bool,
                 plan: seq<WriteEvent>, reset: bool)
    requires AllTook(plan) && tid !in Run(steps).workers
    ensures var s, s' := Run(steps), Run(steps + [DoSend(tid, sender, dest, text, file, attach)]);
            var code := Enqueue(s.users, sender, dest, |s.accepted|, text, file, attach).code;
            var id := if sender in s.users then NextId(s.users[sender].lastId) else 0;
            var told := AnswerIn(Outgoing(plan, SendAnswer(code, id)), reset);
            if RegisteredBy(steps, sender) && RegisteredBy(steps, dest)
            then |s'.accepted| == |s.accepted| + 1 && told == Told(Print(s'.accepted[|s.accepted|].msg.id))
            else s' == s && told == UserUnknown
  {
    var s, a := Run(steps), DoSend(tid, sender, dest, text, file, attach);
    RunSnoc(steps, a);
    RegisteredIff(steps, sender);
    RegisteredIff(steps, dest);
    if sender in s.users && dest in s.users {
      AcceptedNow(s, a);
      IdArrives(NextId(s.users[sender].lastId), plan, reset);
    } else {
      RefusalArrives(if sender in s.users then NextId(s.users[sender].lastId) else 0, plan, reset);
    }
  }

  lemma IdArrives(id: nat, plan: seq<WriteEvent>, reset: bool)
    requires AllTook(plan)
    ensures AnswerIn(Outgoing(plan, SendAnswer(0, id)), reset) == Told(Print(id))
  {
    var all := Joined(SendAnswer(0, id));
    OutgoingAll(plan, SendAnswer(0, id));
    CutAnswerIff(id, |all|, reset);
    assert all[..|all|] == all;
  }

  lemma RefusalArrives(id: nat, plan: seq<WriteEvent>, reset: bool)
    requires AllTook(plan)
    ensures AnswerIn(Outgoing(plan, SendAnswer(1, id)), reset) == UserUnknown
  {
    OutgoingAll(plan, [[1]]);
    assert [[1]][1..] == [] && Joined([[1]]) == [1];
  }
}
