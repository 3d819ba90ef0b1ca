/** Who is registered, who is connected and from where, told from the steps of a run alone; and the codes the handlers
    answer with, told the same way.
  */
module Membership {
  import opened Basics
  import opened MessageIds
  import opened Registry
  import opened Protocol
  import opened History

  // ---- Registration.

  /** Some step registered the name and no later one unregistered it. */
  ghost predicate RegisteredBy(steps: seq<Action>, n: Name) {
    exists i: nat :: i < |steps| && steps[i] == DoRegister(n) && StaysFrom(steps, i + 1, n)
  }

  /** From the k-th step on the name is not unregistered. */
  ghost predicate StaysFrom(steps: seq<Action>, k: nat, n: Name) {
    forall j | k <= j < |steps| :: steps[j] != DoUnregister(n)
  }

  lemma ConnectKeepsNames(s: State, tid: nat, n: Name, ip: Bytes, port: Bytes)
    ensures var s' := ConnectStep(s, tid, n, ip, port); s'.users.Keys == s.users.Keys && s'.birth == s.birth
  {
  }

  lemma SendKeepsNames(s: State, tid: nat, n: Name, dest: Name, text: Bytes, file: Bytes, attach: bool)
    ensures var s' := SendStep(s, tid, n, dest, text, file, attach);
            s'.users.Keys == s.users.Keys && s'.birth == s.birth
  {
  }

  lemma SettleKeepsNames(s: State, tid: nat)
    ensures var s' := SettleStep(s, tid); s'.users.Keys == s.users.Keys && s'.birth == s.birth
  {
  }

  lemma GiveBackKeepsNames(s: State, tid: nat)
    ensures var s' := GiveBackStep(s, tid); s'.users.Keys == s.users.Keys && s'.birth == s.birth
  {
  }

  /** Only registering and unregistering change who is registered. */
  lemma NamesStay(s: State, a: Action)
    requires !a.DoRegister? && !a.DoUnregister?
    ensures Apply(s, a).users.Keys == s.users.Keys && Apply(s, a).birth == s.birth
  {
    match a
    case DoConnect(tid, n, ip, port) => ConnectKeepsNames(s, tid, n, ip, port);
    case DoSend(tid, n, dest, text, file, attach) => SendKeepsNames(s, tid, n, dest, text, file, attach);
    case Settle(tid) => SettleKeepsNames(s, tid);
    case GiveBack(tid) => GiveBackKeepsNames(s, tid);
    case _ =>
  }

  lemma RegisteredStep(s: State, a: Action, n: Name)
    ensures n in Apply(s, a).users <==> a == DoRegister(n) || (n in s.users && a != DoUnregister(n))
  {
    if !a.DoRegister? && !a.DoUnregister? {
      NamesStay(s, a);
    }
  }

  lemma RegisteredSnoc(steps: seq<Action>, a: Action, n: Name)
    ensures RegisteredBy(steps + [a], n) <==> a == DoRegister(n) || (RegisteredBy(steps, n) && a != DoUnregister(n))
  {
    var more := steps + [a];
    assert more[|steps|] == a && forall j | 0 <= j < |steps| :: more[j] == steps[j];
    if a == DoRegister(n) {
      assert StaysFrom(more, |steps| + 1, n);
    } else if RegisteredBy(steps, n) && a != DoUnregister(n) {
      var i: nat :| i < |steps| && steps[i] == DoRegister(n) && StaysFrom(steps, i + 1, n);
      assert StaysFrom(more, i + 1, n);
    }
    if RegisteredBy(more, n) && a != DoRegister(n) {
      var i: nat :| i < |more| && more[i] == DoRegister(n) && StaysFrom(more, i + 1, n);
      assert steps[i] == DoRegister(n) && StaysFrom(steps, i + 1, n);
    }
  }

  /** A name is registered exactly if it was registered at some time and not unregistered since. */
  lemma {:induction false} RegisteredIff(steps: seq<Action>, n: Name)
    ensures n in Run(steps).users <==> RegisteredBy(steps, n)
  {
    if steps != [] {
      var init, a := steps[..|steps| - 1], steps[|steps| - 1];
      assert steps == init + [a];
      RegisteredIff(init, n);
      RegisteredSnoc(init, a, n);
      RegisteredStep(Run(init), a, n);
    }
  }

  /** Step i registered the name, which was free, and it stayed. */
  ghost predicate RegisteredAt(steps: seq<Action>, i: nat, n: Name) {
    i < |steps| && steps[i] == DoRegister(n) && n !in Run(steps[..i]).users && StaysFrom(steps, i + 1, n)
  }

  lemma BirthStep(s: State, a: Action, n: Name)
    requires n in Apply(s, a).users
    ensures if n in s.users then (n in s.birth ==> n in Apply(s, a).birth && Apply(s, a).birth[n] == s.birth[n])
            else a == DoRegister(n) && n in Apply(s, a).birth && Apply(s, a).birth[n] == |s.accepted|
  {
    if !a.DoRegister? && !a.DoUnregister? {
      NamesStay(s, a);
    }
  }

  /** For every registered name the record holds how many messages had been accepted when it was last registered. */
  lemma {:induction false} BirthIs(steps: seq<Action>, n: Name) returns (i: nat)
    requires n in Run(steps).users
    ensures RegisteredAt(steps, i, n)
    ensures n in Run(steps).birth && Run(steps).birth[n] == |Run(steps[..i]).accepted|
  {
    var init, a := steps[..|steps| - 1], steps[|steps| - 1];
    assert steps == init + [a];
    BirthStep(Run(init), a, n);
    if n in Run(init).users {
      i := BirthIs(init, n);
      assert steps[..i] == init[..i];
      RegisteredStep(Run(init), a, n);
      assert a != DoUnregister(n);
    } else {
      i := |init|;
    }
  }

  // ---- Connection.

  /** The steps that connect a user. */
  predicate Connects(s: State, a: Action, n: Name) {
    a.DoConnect? && a.name == n && a.tid !in s.workers && n in s.users && !s.users[n].connected
  }

  /** The steps that disconnect a connected user: it is unregistered, it asks from its own address, a send to it has
      failed, or a flush to it has. */
  predicate Disconnects(s: State, a: Action, n: Name) {
    || a == DoUnregister(n)
    || (a.DoDisconnect? && a.name == n && n in s.users && a.ip == s.users[n].ip)
    || (a.Settle? && a.tid in s.workers && s.workers[a.tid].Settling? && !s.workers[a.tid].ok
        && s.workers[a.tid].dest == n)
    || (a.GiveBack? && a.tid in s.workers && s.workers[a.tid].GivingUp? && s.workers[a.tid].dest == n)
  }

  lemma SettleMoves(s: State, tid: nat, n: Name)
    ensures var us, us' := s.users, SettleStep(s, tid).users;
            Up(us', n) <==> Up(us, n) && !Disconnects(s, Settle(tid), n)
    ensures SameAddress(s.users, SettleStep(s, tid).users, n)
  {
  }

  lemma GiveBackMoves(s: State, tid: nat, n: Name)
    ensures var us, us' := s.users, GiveBackStep(s, tid).users;
            Up(us', n) <==> Up(us, n) && !Disconnects(s, GiveBack(tid), n)
    ensures SameAddress(s.users, GiveBackStep(s, tid).users, n)
  {
  }

  /** A user that is still connected has the address it had. */
  predicate SameAddress(us: Users, us': Users, n: Name) {
    Up(us, n) && Up(us', n) ==> us'[n].ip == us[n].ip && us'[n].port == us[n].port
  }

  lemma ConnectMoves(s: State, tid: nat, n: Name, ip: Bytes, port: Bytes, m: Name)
    ensures var us, us' := s.users, ConnectStep(s, tid, n, ip, port).users;
      && (Up(us', m) <==> Up(us, m) || Connects(s, DoConnect(tid, n, ip, port), m))
      && SameAddress(us, us', m)
      && (!Up(us, m) && Up(us', m) ==> ConnectedFrom(us', m, ip, port))
  {
  }

  lemma SendMoves(s: State, tid: nat, sender: Name, dest: Name, text: Bytes, file: Bytes, attach: bool, n: Name)
    ensures var us, us' := s.users, SendStep(s, tid, sender, dest, text, file, attach).users;
            (Up(us', n) <==> Up(us, n)) && SameAddress(us, us', n)
  {
  }

  /** Of the other steps only unregistering and disconnecting disconnect. */
  lemma OtherMoves(s: State, a: Action, n: Name)
    requires !a.Settle? && !a.GiveBack? && !a.DoConnect? && !a.DoSend?
    ensures Up(Apply(s, a).users, n) <==> Up(s.users, n) && !Disconnects(s, a, n)
    ensures SameAddress(s.users, Apply(s, a).users, n)
  {
  }

  /** Exactly these steps disconnect a user; all others leave its address alone. */
  lemma StepDisconnectsIff(s: State, a: Action, n: Name)
    requires Up(s.users, n)
    ensures !Up(Apply(s, a).users, n) <==> Disconnects(s, a, n)
    ensures var us := Apply(s, a).users;
            Up(us, n) ==> us[n].ip == s.users[n].ip && us[n].port == s.users[n].port
  {
    StepMoves(s, a, n);
  }

  lemma StepMoves(s: State, a: Action, n: Name)
    ensures Up(Apply(s, a).users, n) <==> if Up(s.users, n) then !Disconnects(s, a, n) else Connects(s, a, n)
    ensures SameAddress(s.users, Apply(s, a).users, n)
    ensures var us := Apply(s, a).users;
            !Up(s.users, n) && Up(us, n) ==> a.DoConnect? && ConnectedFrom(us, n, a.ip, a.port)
  {
    match a
    case Settle(tid) => SettleMoves(s, tid, n);
    case GiveBack(tid) => GiveBackMoves(s, tid, n);
    case DoConnect(tid, m, ip, port) => ConnectMoves(s, tid, m, ip, port, n);
    case DoSend(tid, sender, dest, text, file, attach) => SendMoves(s, tid, sender, dest, text, file, attach, n);
    case _ => OtherMoves(s, a, n);
  }

  /** Only a CONNECT connects a user, under the address it came from, of which 15 bytes are kept. */
  lemma StepConnectsIff(s: State, a: Action, n: Name)
    requires !Up(s.users, n)
    ensures Up(Apply(s, a).users, n) <==> Connects(s, a, n)
    ensures var us := Apply(s, a).users; Up(us, n) ==> ConnectedFrom(us, n, a.ip, a.port)
  {
    StepMoves(s, a, n);
  }

  /** Step i connected the user and no later step disconnected it. */
  ghost predicate ConnectedSince(steps: seq<Action>, n: Name, i: nat) {
    && i < |steps| && Connects(Run(steps[..i]), steps[i], n)
    && forall j: nat | i < j < |steps| :: !DisconnectsAt(steps, j, n)
  }

  ghost predicate DisconnectsAt(steps: seq<Action>, j: nat, n: Name) {
    j < |steps| && Disconnects(Run(steps[..j]), steps[j], n)
  }

  ghost predicate ConnectedBy(steps: seq<Action>, n: Name) {
    exists i: nat :: ConnectedSince(steps, n, i)
  }

  lemma SinceSnoc(steps: seq<Action>, a: Action, n: Name, i: nat)
    ensures ConnectedSince(steps + [a], n, i) <==>
            if i < |steps| then ConnectedSince(steps, n, i) && !Disconnects(Run(steps), a, n)
            else i == |steps| && Connects(Run(steps), a, n)
  {
    var more := steps + [a];
    forall j: nat | j <= |steps| ensures more[..j] == steps[..j] {
    }
    assert steps[..|steps|] == steps;
    assert forall j: nat | j < |steps| :: DisconnectsAt(more, j, n) <==> DisconnectsAt(steps, j, n);
    assert DisconnectsAt(more, |steps|, n) <==> Disconnects(Run(steps), a, n);
  }

  /** While connected, a user has the address of its CONNECT: ip and port, each of at most 15 bytes. */
  lemma {:induction false} AddressIsLastConnect(steps: seq<Action>, n: Name, i: nat)
    requires ConnectedSince(steps, n, i)
    ensures ConnectedFrom(Run(steps).users, n, steps[i].ip, steps[i].port)
  {
    var init, a := steps[..|steps| - 1], steps[|steps| - 1];
    assert steps == init + [a];
    SinceSnoc(init, a, n, i);
    if i < |init| {
      AddressIsLastConnect(init, n, i);
      StepDisconnectsIff(Run(init), a, n);
    } else {
      StepConnectsIff(Run(init), a, n);
    }
  }

  /** Deliveries and acknowledgements to a user go where its last CONNECT came from, and nowhere if it was disconnected
      since. */
  lemma ReachIs(steps: seq<Action>, n: Name)
    ensures Reach(Run(steps).users, n).Some? <==> ConnectedBy(steps, n)
    ensures forall i: nat | ConnectedSince(steps, n, i) ::
              Reach(Run(steps).users, n) == Some(Address(Cut(steps[i].ip, 15), Cut(steps[i].port, 15)))
  {
    ConnectedIff(steps, n);
    forall i: nat | ConnectedSince(steps, n, i)
      ensures ConnectedFrom(Run(steps).users, n, steps[i].ip, steps[i].port)
    {
      AddressIsLastConnect(steps, n, i);
    }
  }

  /** A user is connected exactly if some step connected it and none has disconnected it since. */
  lemma {:induction false} ConnectedIff(steps: seq<Action>, n: Name)
    ensures Up(Run(steps).users, n) <==> ConnectedBy(steps, n)
  {
    if steps != [] {
      var init, a := steps[..|steps| - 1], steps[|steps| - 1];
      assert steps == init + [a];
      ConnectedIff(init, n);
      if ConnectedBy(steps, n) {
        var i: nat :| ConnectedSince(steps, n, i);
        AddressIsLastConnect(steps, n, i);
      }
      if Up(Run(steps).users, n) {
        LastConnect(init, a, n);
      }
    }
  }

  lemma LastConnect(init: seq<Action>, a: Action, n: Name)
    requires Up(Run(init).users, n) <==> ConnectedBy(init, n)
    requires Up(Run(init + [a]).users, n)
    ensures ConnectedBy(init + [a], n)
  {
    RunSnoc(init, a);
    if Up(Run(init).users, n) {
      var i: nat :| ConnectedSince(init, n, i);
      StepDisconnectsIff(Run(init), a, n);
      SinceSnoc(init, a, n, i);
      assert ConnectedSince(init + [a], n, i);
    } else {
      StepConnectsIff(Run(init), a, n);
      SinceSnoc(init, a, n, |init|);
      assert ConnectedSince(init + [a], n, |init|);
    }
  }

  /** No number of DISCONNECTs of a user from other addresses than the one it connected from changes anything. */
  lemma OthersCannotDisconnect(steps: seq<Action>, n: Name, i: nat, attempts: seq<Bytes>)
    requires ConnectedSince(steps, n, i)
    requires forall k | 0 <= k < |attempts| :: attempts[k] != Cut(steps[i].ip, 15)
    ensures Run(steps + Attempts(n, attempts)) == Run(steps)
  {
    AddressIsLastConnect(steps, n, i);
    AttemptsFail(Run(steps), n, attempts);
    RunBlock(steps, Attempts(n, attempts));
  }

  lemma {:induction false} AttemptsFail(s: State, n: Name, attempts: seq<Bytes>)
    requires Up(s.users, n) && s.users[n].ip !in attempts
    ensures RunOn(s, Attempts(n, attempts)) == s
  {
    if attempts != [] {
      var k := |attempts| - 1;
      AttemptsFail(s, n, attempts[..k]);
      assert Attempts(n, attempts)[..k] == Attempts(n, attempts[..k]);
      RefusedChangesNothing(s, n, attempts[k]);
    }
  }

  function Attempts(n: Name, attempts: seq<Bytes>): (r: seq<Action>)
    ensures |r| == |attempts| && forall k | 0 <= k < |r| :: r[k] == DoDisconnect(n, attempts[k])
  {
    seq(|attempts|, k requires 0 <= k < |attempts| => DoDisconnect(n, attempts[k]))
  }

  lemma RefusedChangesNothing(s: State, n: Name, other: Bytes)
    requires Up(s.users, n) && s.users[n].ip != other
    ensures Apply(s, DoDisconnect(n, other)) == s
  {
  }

  // ---- The codes, from the steps so far.

  /** REGISTER answers 1 exactly for a registered name; otherwise the name is added with a blank record. */
  lemma RegisterCode(steps: seq<Action>, n: Name)
    ensures var us := Run(steps).users; var Outcome(users, code) := Register(us, n);
            if RegisteredBy(steps, n) then code == 1 && users == us
            else code == 0 && users.Keys == us.Keys + {n} && (forall m | m in us :: users[m] == us[m])
                 && !users[n].connected && users[n].queue == [] && users[n].lastId == 0
  {
    RegisteredIff(steps, n);
  }

  /** UNREGISTER answers 1 exactly for an unknown name; otherwise it removes that name alone. */
  lemma UnregisterCode(steps: seq<Action>, n: Name)
    ensures var us := Run(steps).users; var Outcome(users, code) := Unregister(us, n);
            if RegisteredBy(steps, n)
            then code == 0 && users.Keys == us.Keys - {n} && (forall m | m in users :: users[m] == us[m])
            else code == 1 && users == us
  {
    RegisteredIff(steps, n);
  }

  /** CONNECT answers 1 for an unknown name and 2 for one that is connected already, and then changes nothing. */
  lemma ConnectCode(steps: seq<Action>, n: Name, ip: Bytes, port: Bytes)
    ensures var us := Run(steps).users; var Outcome(users, code) := Connect(us, n, ip, port);
            if !RegisteredBy(steps, n) then code == 1 && users == us
            else if ConnectedBy(steps, n) then code == 2 && users == us
            else code == 0 && users.Keys == us.Keys && (forall m | m in us && m != n :: users[m] == us[m])
                 && users[n] == Record(true, Cut(ip, 15), Cut(port, 15), us[n].lastId, [])
  {
    RegisteredIff(steps, n);
    ConnectedIff(steps, n);
  }

  /** DISCONNECT answers 1 for an unknown name, 2 for one that is not connected, 0 for a user that asks from the address
      it connected from, and 3 from any other; only in the third case it changes anything. */
  lemma DisconnectCode(steps: seq<Action>, n: Name, ip: Bytes)
    ensures var us := Run(steps).users; var Outcome(users, code) := Disconnect(us, n, ip);
      && (if !RegisteredBy(steps, n) then code == 1 else if !ConnectedBy(steps, n) then code == 2
          else code == 0 || code == 3)
      && (forall i: nat | ConnectedSince(steps, n, i) :: code == 0 <==> ip == Cut(steps[i].ip, 15))
      && (if code == 0
          then users.Keys == us.Keys && (forall m | m in us && m != n :: users[m] == us[m])
               && users[n] == Record(false, [], [], us[n].lastId, us[n].queue)
          else users == us)
  {
    RegisteredIff(steps, n);
    ConnectedIff(steps, n);
    forall i: nat | ConnectedSince(steps, n, i)
      ensures ConnectedFrom(Run(steps).users, n, steps[i].ip, steps[i].port)
    {
      AddressIsLastConnect(steps, n, i);
    }
  }

  /** A send answers 1 exactly if its sender or its recipient is unknown, and then changes nothing. */
  lemma SendCode(steps: seq<Action>, sender: Name, dest: Name, tag: nat, text: Bytes, file: Bytes, attach: bool)
    ensures var us := Run(steps).users; var Outcome(users, code) := Enqueue(us, sender, dest, tag, text, file, attach);
            if RegisteredBy(steps, sender) && RegisteredBy(steps, dest) then code == 0 else code == 1 && users == us
  {
    RegisteredIff(steps, sender);
    RegisteredIff(steps, dest);
  }
}
