/** From CONNECT to the client's directory. A CONNECT records where the user can be reached, USERS prints it, the client
    takes it apart: after any run the directory holds exactly the users that connected and were not disconnected since,
    each under the address it connected from. A requester that is not connected itself is told so.
  */
module Addresses {
  import opened Basics
  import opened MessageIds
  import opened Registry
  import opened Protocol
  import opened Utf8
  import opened PythonText
  import opened Decimal
  import opened Framing
  import opened Frames
  import opened UsersReply
  import opened RecordSizes
  import opened History
  import opened Membership

  // ---- One CONNECT.

  /** A successful CONNECT is printed as the name, the ip and the port it came with, with " :: " between them; ip and
      port are whole if they have at most 15 bytes. */
  lemma ConnectIsPrinted(us: Users, n: Name, ip: Bytes, port: Bytes)
    requires Fits(us) && |ip| <= 15 && |port| <= 15 && Connect(us, n, ip, port).code == 0
    ensures var us' := Connect(us, n, ip, port).users;
            n in us' && us'[n].connected && Printed(User(n, us'[n])) == n + Ascii(" :: ") + ip + Ascii(" :: ") + port
  {
    ListSectionsStayFitting(us, n, ip, port);
    RecordsFitTheBuffer(Connect(us, n, ip, port).users, n);
    assert Ascii(" :: ") == GAP;
  }

  /** An address the registry holds is the one the directory has, decoded. */
  lemma ListedAddress(digits: Digits, list: seq<User>, asker: Name, d: Directory, n: Name)
    requires Sane(digits) && UniqueNames(list) && Fits(AsMap(list)) && CStrings(list) && AllReadable(list)
    requires |Connected(list)| < WORD && Up(AsMap(list), asker) && Up(AsMap(list), n)
    ensures var (rc, d') := AfterReply(digits, list, asker, d); var r := AsMap(list)[n];
      && rc == OK && Decode(n).Some? && Decode(r.ip).Some? && Decode(r.port).Some? && Decode(n).value in d'
      && d'[Decode(n).value] == (Decode(r.ip).value, Decode(r.port).value)
  {
    var (rc, d') := AfterReply(digits, list, asker, d);
    DirectoryIsTheRegistryIff(digits, list, asker, d);
    BackAndForth(n);
    var name := Decode(n).value;
    DecodeEncode(d'[name].0);
    DecodeEncode(d'[name].1);
  }

  /** The server calls a user at the address the directory shows for it. */
  lemma ReachIsListed(digits: Digits, list: seq<User>, asker: Name, d: Directory, n: Name)
    requires Sane(digits) && UniqueNames(list) && Fits(AsMap(list)) && CStrings(list) && AllReadable(list)
    requires |Connected(list)| < WORD && Up(AsMap(list), asker) && Up(AsMap(list), n)
    ensures var d', to := AfterReply(digits, list, asker, d).1, Reach(AsMap(list), n);
      && to.Some? && Decode(n).Some? && Decode(to.value.ip).Some? && Decode(to.value.port).Some?
      && Decode(n).value in d' && d'[Decode(n).value] == (Decode(to.value.ip).value, Decode(to.value.port).value)
  {
    ListedAddress(digits, list, asker, d, n);
  }

  /** After a successful CONNECT from `ip` with `port`, each of at most 15 bytes, USERS puts exactly (ip, port) under
      the user's name, whoever asks and whatever the directory held. */
  lemma ConnectIsListed(digits: Digits, us: Users, n: Name, ip: Bytes, port: Bytes,
                        list: seq<User>, asker: Name, d: Directory)
    requires Connect(us, n, ip, port).code == 0 && AsMap(list) == Connect(us, n, ip, port).users
    requires |ip| <= 15 && |port| <= 15
    requires Sane(digits) && UniqueNames(list) && Fits(AsMap(list)) && CStrings(list) && AllReadable(list)
    requires |Connected(list)| < WORD && Up(AsMap(list), asker)
    ensures var (rc, d') := AfterReply(digits, list, asker, d);
      && rc == OK && Decode(n).Some? && Decode(ip).Some? && Decode(port).Some? && Decode(n).value in d'
      && d'[Decode(n).value] == (Decode(ip).value, Decode(port).value)
  {
    assert AsMap(list)[n].ip == ip && AsMap(list)[n].port == port;
    ListedAddress(digits, list, asker, d, n);
  }

  // ---- Whole runs.

  predicate ShortNames(steps: seq<Action>) {
    forall i | 0 <= i < |steps| && steps[i].DoRegister? :: |steps[i].name| <= MAX_TEXT
  }

  /** After any run USERS leaves, with a connected requester, exactly the users that some step connected and none has
      disconnected since, each under the ip and the port of that step. */
  lemma DirectoryIsTheRun(steps: seq<Action>, digits: Digits, list: seq<User>, asker: Name, d: Directory)
    requires ShortNames(steps) && UniqueNames(list) && AsMap(list) == Run(steps).users
    requires Sane(digits) && CStrings(list) && AllReadable(list) && |Connected(list)| < WORD
    requires ConnectedBy(steps, asker)
    ensures var (rc, d') := AfterReply(digits, list, asker, d);
      && rc == OK && (forall n: Str :: n in d' <==> ConnectedBy(steps, Encode(n)))
      && (forall n: Str, i: nat | ConnectedSince(steps, Encode(n), i) ::
            n in d' && Encode(d'[n].0) == Cut(steps[i].ip, 15) && Encode(d'[n].1) == Cut(steps[i].port, 15))
  {
    AlwaysFits(steps);
    ConnectedIff(steps, asker);
    DirectoryIsTheRegistryIff(digits, list, asker, d);
    var (rc, d') := AfterReply(digits, list, asker, d);
    forall n: Str ensures n in d' <==> ConnectedBy(steps, Encode(n)) {
      ConnectedIff(steps, Encode(n));
    }
    forall n: Str, i: nat | ConnectedSince(steps, Encode(n), i)
      ensures n in d' && Encode(d'[n].0) == Cut(steps[i].ip, 15) && Encode(d'[n].1) == Cut(steps[i].port, 15)
    {
      AddressIsLastConnect(steps, Encode(n), i);
    }
  }

  // ---- Refused requesters.

  /** A requester that is registered and not connected is told so, an unknown one gets an error, and both keep their
      directory; no other requester is told either. */
  lemma RefusedIff(digits: Digits, list: seq<User>, asker: Name, d: Directory)
    ensures var (rc, d') := AfterReply(digits, list, asker, d); var us := AsMap(list);
      && (rc == USER_ERROR <==> asker in us && !us[asker].connected)
      && (rc == ERROR <==> asker !in us)
      && (rc == USER_ERROR || rc == ERROR ==> d' == d)
  {
    var us, b := AsMap(list), Reply(list, asker);
    if asker in us && us[asker].connected {
      CodeThenCount(digits, b, d);
    } else {
      assert b == [if asker in us then 1 else 2];
    }
  }

  lemma CodeThenCount(digits: Digits, b: Bytes, d: Directory)
    requires b != [] && b[0] == 0
    ensures Refreshed(digits, b, d, false).0 == OK || Refreshed(digits, b, d, false).0 == RAISED
  {
    var num := Decode(Text(b[1..]));
    if num.Some? && !IntOf(digits, num.value).Unparsable? {
      var n := if IntOf(digits, num.value).Number? then IntOf(digits, num.value).n else 0;
      CollectedOrRaised(After(b[1..]), n, map[]);
    }
  }

  /** Over a connection that is closed the records end with all of them read, or with one that cannot be decoded. */
  lemma {:induction false} CollectedOrRaised(b: Bytes, n: nat, d: Directory)
    ensures Collected(b, n, d, false).1 == OK || Collected(b, n, d, false).1 == RAISED
    decreases n
  {
    if n > 0 && Decode(Text(b)).Some? {
      CollectedOrRaised(After(b), n - 1, Noted(d, Decode(Text(b)).value));
    }
  }

  /** A refusal reads the same over a connection that is reset. */
  lemma RefusedOver(digits: Digits, list: seq<User>, asker: Name, d: Directory, reset: bool)
    requires !Up(AsMap(list), asker)
    ensures Refreshed(digits, Reply(list, asker), d, reset)
         == (if asker in AsMap(list) then USER_ERROR else ERROR, d)
  {
    assert Reply(list, asker) == [if asker in AsMap(list) then 1 else 2];
  }

  /** The same told from the steps of a run. */
  lemma RefusedInRun(steps: seq<Action>, digits: Digits, list: seq<User>, asker: Name, d: Directory)
    requires AsMap(list) == Run(steps).users
    ensures var rc := AfterReply(digits, list, asker, d).0;
      && (rc == USER_ERROR <==> RegisteredBy(steps, asker) && !ConnectedBy(steps, asker))
      && (rc == ERROR <==> !RegisteredBy(steps, asker))
  {
    RefusedIff(digits, list, asker, d);
    RegisteredIff(steps, asker);
    ConnectedIff(steps, asker);
  }
}
