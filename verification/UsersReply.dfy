/** The USERS reply: the server prints one record per connected user, the client takes the records apart and
    rebuilds its directory of who can be reached where.
  */
module UsersReply {
  import opened Basics
  import opened MessageIds
  import opened Registry
  import opened Framing
  import opened Decimal
  import opened Frames
  import opened PythonText
  import opened Utf8

  // ---- A record.

  const COLON: Byte := 58
  const BLANK_SPACE: Byte := 32

  /** " :: ", as the record prints it between two fields. */
  const GAP: Bytes := [BLANK_SPACE, COLON, COLON, BLANK_SPACE]

  const RECORD_BUFFER: nat := 512

  function RecordText(name: Bytes, ip: Bytes, port: Bytes): Bytes {
    name + GAP + ip + GAP + port
  }

  /** What snprintf leaves in the record buffer. */
  function Printed(u: User): Bytes {
    Cut(RecordText(u.name, u.record.ip, u.record.port), RECORD_BUFFER - 1)
  }

  /** The bounds the server's own copies respect. */
  predicate Fits(us: Users) {
    forall n | n in us :: |n| <= MAX_TEXT && |us[n].ip| <= MAX_ADDRESS && |us[n].port| <= MAX_ADDRESS
  }

  lemma ListSectionsStayFitting(us: Users, n: Name, ip: Bytes, port: Bytes)
    requires Fits(us)
    ensures |n| <= MAX_TEXT ==> Fits(Register(us, n).users)
    ensures Fits(Unregister(us, n).users) && Fits(Connect(us, n, ip, port).users)
    ensures Fits(Disconnect(us, n, ip).users) && Fits(MarkDown(us, n))
  {
  }

  lemma QueueSectionsStayFitting(us: Users, n: Name, d: Name, tag: nat, text: Bytes, file: Bytes,
                                 attach: bool, m: Msg, rest: seq<Node>)
    requires Fits(us)
    ensures Fits(Enqueue(us, n, d, tag, text, file, attach).users)
    ensures Fits(Remove(us, d, m)) && Fits(SpliceBack(us, d, rest))
  {
  }

  /** No record is ever truncated. */
  lemma RecordsFitTheBuffer(us: Users, n: Name)
    requires Fits(us) && n in us
    ensures Printed(User(n, us[n])) == RecordText(n, us[n].ip, us[n].port)
    ensures |Printed(User(n, us[n]))| <= MAX_TEXT + 2 * MAX_ADDRESS + 2 * |GAP| < RECORD_BUFFER
  {
  }

  // ---- Taking a record apart: decode, split at "::", strip the parts.

  predicate DoubleAt(s: Str, i: nat) {
    i + 1 < |s| && s[i] == COLON && s[i + 1] == COLON
  }

  predicate NoDouble(s: Str) {
    forall i | 0 <= i < |s| :: !DoubleAt(s, i)
  }

  function Split(s: Str): (parts: seq<Str>)
    ensures parts != []
  {
    if s == [] then [[]]
    else if DoubleAt(s, 0) then [[]] + Split(s[2..])
    else
      var parts := Split(s[1..]);
      [[s[0]] + parts[0]] + parts[1..]
  }

  function StripLeft(s: Str): Str {
    if s != [] && IsSpace(s[0]) then StripLeft(s[1..]) else s
  }

  function StripRight(s: Str): Str {
    if s != [] && IsSpace(s[|s| - 1]) then StripRight(s[..|s| - 1]) else s
  }

  function Strip(s: Str): Str {
    StripLeft(StripRight(s))
  }

  function Parts(info: Str): (parts: seq<Str>)
    ensures |parts| == |Split(info)| && forall i | 0 <= i < |parts| :: parts[i] == Strip(Split(info)[i])
  {
    var raw := Split(info);
    seq(|raw|, i requires 0 <= i < |raw| => Strip(raw[i]))
  }

  /** A text that splitting and stripping leave alone. */
  predicate Neat(f: Str) {
    NoDouble(f) && (f != [] ==> !IsSpace(f[0]) && !IsSpace(f[|f| - 1]))
  }

  /** A field that the client can decode and that splitting and stripping leave alone. */
  predicate Presentable(f: Bytes) {
    Decode(f).Some? && Neat(Decode(f).value)
  }

  lemma {:induction false} SplitAt(s: Str, t: Str)
    requires NoDouble(s) && (s != [] ==> s[|s| - 1] != COLON)
    ensures Split(s + [COLON, COLON] + t) == [s] + Split(t)
  {
    var all := s + [COLON, COLON] + t;
    if s == [] {
      assert all[2..] == t;
    } else {
      assert !DoubleAt(all, 0) by {
        assert !DoubleAt(s, 0);
      }
      assert forall i | 0 <= i < |s[1..]| :: DoubleAt(s[1..], i) ==> DoubleAt(s, i + 1);
      SplitAt(s[1..], t);
      assert all[1..] == s[1..] + [COLON, COLON] + t;
      assert [s[0]] + s[1..] == s;
    }
  }

  lemma {:induction false} SplitWhole(s: Str)
    requires NoDouble(s)
    ensures Split(s) == [s]
  {
    if s != [] {
      assert !DoubleAt(s, 0);
      assert forall i | 0 <= i < |s[1..]| :: DoubleAt(s[1..], i) ==> DoubleAt(s, i + 1);
      SplitWhole(s[1..]);
      assert [s[0]] + s[1..] == s;
    }
  }

  /** A "::" inside the field ends the first part inside the field. */
  lemma {:induction false} SplitInside(s: Str, t: Str)
    requires !NoDouble(s)
    ensures |Split(s + t)[0]| + 2 <= |s|
  {
    var i :| 0 <= i < |s| && DoubleAt(s, i);
    if !DoubleAt(s, 0) {
      assert DoubleAt(s[1..], i - 1);
      SplitInside(s[1..], t);
      assert (s + t)[1..] == s[1..] + t;
    }
  }

  lemma {:induction false} StripLeftShrinks(s: Str)
    ensures if s == [] || !IsSpace(s[0]) then StripLeft(s) == s else |StripLeft(s)| < |s|
  {
    if s != [] && IsSpace(s[0]) {
      StripLeftShrinks(s[1..]);
    }
  }

  lemma {:induction false} StripRightShrinks(s: Str)
    ensures if s == [] || !IsSpace(s[|s| - 1]) then StripRight(s) == s else |StripRight(s)| < |s|
  {
    if s != [] && IsSpace(s[|s| - 1]) {
      StripRightShrinks(s[..|s| - 1]);
    }
  }

  lemma {:induction false} StripSpacedLeft(s: Str)
    ensures StripLeft(StripRight([BLANK_SPACE] + s)) == Strip(s)
  {
    var t := [BLANK_SPACE] + s;
    if s == [] {
      assert t[..0] == [];
    } else if IsSpace(s[|s| - 1]) {
      assert t[..|t| - 1] == [BLANK_SPACE] + s[..|s| - 1];
      StripSpacedLeft(s[..|s| - 1]);
    } else {
      assert t[1..] == s;
    }
  }

  /** Stripping undoes the padding exactly of fields without outer whitespace. */
  lemma StripPadded(f: Str)
    ensures var right, left := f + [BLANK_SPACE], [BLANK_SPACE] + f;
            Strip(right) == Strip(f) == Strip(left) == Strip(left + [BLANK_SPACE])
    ensures Strip(f) == f || |Strip(f)| < |f|
    ensures Strip(f) == f <==> f == [] || (!IsSpace(f[0]) && !IsSpace(f[|f| - 1]))
  {
    assert (f + [BLANK_SPACE])[..|f|] == f;
    var left := [BLANK_SPACE] + f;
    assert (left + [BLANK_SPACE])[..|left|] == left;
    StripSpacedLeft(f);
    StripRightShrinks(f);
    StripLeftShrinks(StripRight(f));
  }

  /** Splitting and stripping give back the three texts that were printed if and only if each of them is neat. */
  lemma TextComesBackIff(name: Str, ip: Str, port: Str)
    ensures var p := Parts(name + GAP + ip + GAP + port);
            |p| >= 3 && p[0] == name && p[1] == ip && p[2] == port
            <==> Neat(name) && Neat(ip) && Neat(port)
  {
    var rest := [BLANK_SPACE] + ip + GAP + port;
    HeadComesBackIff(name, rest);
    assert name + GAP + ip + GAP + port == name + GAP[..1] + [COLON, COLON] + rest;
    StripPadded(name);
    if NoDouble(name) {
      SecondHalfComesBackIff(ip, port);
    }
  }

  lemma SecondHalfComesBackIff(ip: Str, port: Str)
    ensures var raw := Split([BLANK_SPACE] + ip + GAP + port);
            |raw| >= 2 && Strip(raw[0]) == ip && Strip(raw[1]) == port <==> Neat(ip) && Neat(port)
  {
    var spaced, rest := [BLANK_SPACE] + ip, [BLANK_SPACE] + port;
    HeadComesBackIff(spaced, rest);
    assert spaced + GAP + port == spaced + GAP[..1] + [COLON, COLON] + rest;
    SpacedNoDouble(ip);
    StripPadded(ip);
    LastComesBackIff(port);
  }

  lemma LastComesBackIff(port: Str)
    ensures Strip(Split([BLANK_SPACE] + port)[0]) == port <==> Neat(port)
  {
    var spaced := [BLANK_SPACE] + port;
    SpacedNoDouble(port);
    StripPadded(port);
    if NoDouble(port) {
      SplitWhole(spaced);
    } else {
      assert spaced + [] == spaced;
      SplitInside(spaced, []);
      StripShrinks(Split(spaced)[0]);
    }
  }

  lemma StripShrinks(s: Str)
    ensures |Strip(s)| <= |s|
  {
    StripRightShrinks(s);
    StripLeftShrinks(StripRight(s));
  }

  lemma SpacedNoDouble(f: Str)
    ensures NoDouble([BLANK_SPACE] + f) <==> NoDouble(f)
  {
    var s := [BLANK_SPACE] + f;
    assert forall i | 0 <= i < |f| :: DoubleAt(f, i) <==> DoubleAt(s, i + 1);
    assert forall i | 0 <= i < |s| :: DoubleAt(s, i) ==> i > 0 && DoubleAt(f, i - 1);
  }

  /** The first part of a text that starts with the field, a space and "::". */
  lemma HeadComesBackIff(f: Str, rest: Str)
    ensures var raw := Split(f + GAP[..1] + [COLON, COLON] + rest);
            if NoDouble(f) then raw == [f + [BLANK_SPACE]] + Split(rest)
            else |Strip(raw[0])| + 2 <= |f|
  {
    var spaced := f + [BLANK_SPACE];
    assert GAP[..1] == [BLANK_SPACE];
    if NoDouble(f) {
      assert forall i | 0 <= i < |spaced| :: DoubleAt(spaced, i) ==> DoubleAt(f, i);
      SplitAt(spaced, rest);
    } else {
      var more := GAP[..1] + [COLON, COLON] + rest;
      assert f + more == f + GAP[..1] + [COLON, COLON] + rest;
      SplitInside(f, more);
      StripShrinks(Split(f + more)[0]);
    }
  }

  /** The first of the three texts comes back whole, or something shorter comes back for it. */
  lemma FirstPartShrinks(name: Str, rest: Str)
    ensures var first := Parts(name + GAP + rest)[0]; first == name || |first| < |name|
  {
    var tail := [BLANK_SPACE] + rest;
    HeadComesBackIff(name, tail);
    assert name + GAP + rest == name + GAP[..1] + [COLON, COLON] + tail;
    StripPadded(name);
  }

  lemma DecodeGap(a: Bytes, tail: Bytes)
    ensures Decode(a + GAP + tail) ==
            if Decode(a).Some? && Decode(tail).Some? then Some(Decode(a).value + GAP + Decode(tail).value) else None
  {
    var t1 := [BLANK_SPACE] + tail;
    var t2 := [COLON] + t1;
    var t3 := [COLON] + t2;
    assert a + GAP + tail == a + [BLANK_SPACE] + t3;
    DecodeJoin(a, BLANK_SPACE, t3);
    DecodeAfter(COLON, t2);
    DecodeAfter(COLON, t1);
    DecodeAfter(BLANK_SPACE, tail);
    if Decode(a).Some? && Decode(tail).Some? {
      var x, y := Decode(a).value, Decode(tail).value;
      assert x + [BLANK_SPACE] + ([COLON] + ([COLON] + ([BLANK_SPACE] + y))) == x + GAP + y;
    }
  }

  lemma DecodeAfter(x: Byte, tail: Bytes)
    requires x < 0x80
    ensures Decode([x] + tail) == if Decode(tail).Some? then Some([x] + Decode(tail).value) else None
  {
    DecodeJoin([], x, tail);
    assert [] + [x] + tail == [x] + tail;
    if Decode(tail).Some? {
      assert [] + [x] + Decode(tail).value == [x] + Decode(tail).value;
    }
  }

  predicate AllDecode(name: Bytes, ip: Bytes, port: Bytes) {
    Decode(name).Some? && Decode(ip).Some? && Decode(port).Some?
  }

  /** A record is decoded exactly if its three fields are. */
  lemma RecordDecodes(name: Bytes, ip: Bytes, port: Bytes)
    ensures Decode(RecordText(name, ip, port)) ==
            if AllDecode(name, ip, port)
            then Some(Decode(name).value + GAP + Decode(ip).value + GAP + Decode(port).value)
            else None
  {
    DecodeGap(name, ip);
    DecodeGap(name + GAP + ip, port);
  }

  /** The client reads back exactly the three fields that were printed if and only if each of them can be decoded, has
      no "::" and no outer white space. */
  lemma RecordComesBackIff(name: Bytes, ip: Bytes, port: Bytes)
    ensures var info := Decode(RecordText(name, ip, port));
      && (info.Some? <==> AllDecode(name, ip, port))
      && (info.Some? && (var p := Parts(info.value);
            |p| >= 3 && Some(p[0]) == Decode(name) && Some(p[1]) == Decode(ip) && Some(p[2]) == Decode(port))
          <==> Presentable(name) && Presentable(ip) && Presentable(port))
  {
    RecordDecodes(name, ip, port);
    if AllDecode(name, ip, port) {
      TextComesBackIff(Decode(name).value, Decode(ip).value, Decode(port).value);
    }
  }

  // ---- The whole reply.

  function Connected(list: seq<User>): seq<User> {
    if list == [] then []
    else
      var last := list[|list| - 1];
      var front := Connected(list[..|list| - 1]);
      if last.record.connected then front + [last] else front
  }

  lemma ConnectedSnoc(list: seq<User>, i: nat)
    requires i < |list|
    ensures var front := Connected(list[..i]);
            Connected(list[..i + 1]) == if list[i].record.connected then front + [list[i]] else front
  {
    assert list[..i + 1][..i] == list[..i];
  }

  /** The connected users keep their order. */
  lemma {:induction false} ConnectedParts(a: seq<User>, b: seq<User>)
    ensures Connected(a + b) == Connected(a) + Connected(b)
  {
    if b == [] {
      assert a + b == a;
    } else {
      var init := b[..|b| - 1];
      ConnectedParts(a, init);
      assert (a + b)[..|a + b| - 1] == a + init && (a + b)[|a + b| - 1] == b[|b| - 1];
    }
  }

  function Records(us: seq<User>): (r: seq<Bytes>)
    ensures |r| == |us| && forall i | 0 <= i < |us| :: r[i] == Printed(us[i])
  {
    seq(|us|, i requires 0 <= i < |us| => Printed(us[i]))
  }

  /** The counter of connected users is a 32-bit number. */
  function Announced(list: seq<User>): Bytes {
    Print(|Connected(list)| % WORD)
  }

  /** What a requester gets: a code, and for a connected requester the count and one record per connected user. */
  function Reply(list: seq<User>, asker: Name): Bytes {
    var us := AsMap(list);
    if asker !in us then [2]
    else if !us[asker].connected then [1]
    else [0] + Wire([Announced(list)] + Records(Connected(list)))
  }

  /** The strings with their NULs, one write loop each. */
  function Closed(fields: seq<Bytes>): (r: seq<Bytes>)
    ensures |r| == |fields| && forall i | 0 <= i < |r| :: r[i] == fields[i] + [NUL]
  {
    seq(|fields|, i requires 0 <= i < |fields| => fields[i] + [NUL])
  }

  /** The reply as the server writes it, piece by piece. */
  function ReplyPieces(list: seq<User>, asker: Name): seq<Bytes> {
    var us := AsMap(list);
    if asker !in us then [[2]]
    else if !us[asker].connected then [[1]]
    else [[0], Announced(list) + [NUL]] + Closed(Records(Connected(list)))
  }

  /** The pieces make the reply. */
  lemma PiecesMakeReply(list: seq<User>, asker: Name)
    ensures Joined(ReplyPieces(list, asker)) == Reply(list, asker)
  {
    var pieces := ReplyPieces(list, asker);
    if |pieces| == 1 {
      assert pieces[1..] == [];
    } else {
      JoinedIsWire([Announced(list)] + Records(Connected(list)), pieces[1..]);
    }
  }

  /** Over a connection without refused writes the reply arrives whole. */
  lemma ReplyArrives(plan: seq<WriteEvent>, list: seq<User>, asker: Name)
    requires AllTook(plan)
    ensures Outgoing(plan, ReplyPieces(list, asker)) == Reply(list, asker)
  {
    OutgoingAll(plan, ReplyPieces(list, asker));
    PiecesMakeReply(list, asker);
  }

  // ---- The client's side.

  type Directory = map<Str, (Str, Str)>

  /** RAISED is an exception that leaves the call. */
  datatype RC = OK | USER_ERROR | ERROR | RAISED

  /** The entry a record makes; None if it has too few parts. */
  function EntryOf(info: Str): Option<(Str, (Str, Str))> {
    var p := Parts(info);
    if |p| >= 3 then Some((p[0], (p[1], p[2]))) else None
  }

  function Noted(d: Directory, info: Str): Directory {
    match EntryOf(info)
    case None => d
    case Some((name, address)) => d[name := address]
  }

  /** The directory after the next `n` strings of the stream, or after those before the first that cannot be decoded,
      which raises, or that a reset cuts off, which is caught as an error. */
  function Collected(b: Bytes, n: nat, d: Directory, reset: bool): (Directory, RC)
    decreases n
  {
    if n == 0 then (d, OK)
    else if reset && NUL !in b then (d, ERROR)
    else if Decode(Text(b)).None? then (d, RAISED)
    else Collected(After(b), n - 1, Noted(d, Decode(Text(b)).value), reset)
  }

  /** What a reply does to the directory, if the connection brings `b` and is then closed, or reset. An announced number
      that cannot be read or parsed leaves it alone; a record that cannot be read leaves it cleared and filled half
      way. */
  function Refreshed(digits: Digits, b: Bytes, d: Directory, reset: bool): (RC, Directory) {
    if b == [] then (ERROR, d)
    else if b[0] == 1 then (USER_ERROR, d)
    else if b[0] != 0 then (ERROR, d)
    else if reset && NUL !in b[1..] then (ERROR, d)
    else
      var num := Decode(Text(b[1..]));
      if num.None? || IntOf(digits, num.value).Unparsable? then (RAISED, d)
      else
        var n := if IntOf(digits, num.value).Number? then IntOf(digits, num.value).n else 0;
        var (d', rc) := Collected(After(b[1..]), n, map[], reset);
        (rc, d')
  }

  class Client {
    var directory: Directory

    constructor ()
      ensures directory == map[]
    {
      directory := map[];
    }

    /** Reads a USERS reply; on success the directory is cleared and refilled. */
    method Refresh(c: Connection, digits: Digits) returns (rc: RC)
      modifies this, c
      ensures (rc, directory) == Refreshed(digits, old(c.Payload()), old(directory), c.reset)
    {
      ghost var b := c.Payload();
      var res, raised := c.Receive(1);
      if raised || res == [] {
        return ERROR;
      }
      assert res == [b[0]] && c.Payload() == b[1..];
      if res[0] == 0 {
        var numStr;
        numStr, raised := ReadString(c);
        if raised {
          return ERROR;
        }
        if numStr.None? {
          return RAISED;
        }
        var parsed := IntOf(digits, numStr.value);
        if parsed.Unparsable? {
          return RAISED;
        }
        var num := if parsed.Number? then parsed.n else 0;
        directory := map[];
        rc := RefreshRecords(c, num);
      } else if res[0] == 1 {
        return USER_ERROR;
      } else {
        return ERROR;
      }
    }

    method RefreshRecords(c: Connection, num: nat) returns (rc: RC)
      modifies this, c
      ensures (directory, rc) == Collected(old(c.Payload()), num, old(directory), c.reset)
    {
      var i := 0;
      while i < num
        invariant 0 <= i <= num
        invariant Collected(c.Payload(), num - i, directory, c.reset)
               == Collected(old(c.Payload()), num, old(directory), c.reset)
      {
        var info, raised := ReadString(c);
        if raised {
          return ERROR;
        }
        if info.None? {
          return RAISED;
        }
        var parts := Parts(info.value);
        if |parts| >= 3 {
          directory := directory[parts[0] := (parts[1], parts[2])];
        }
        i := i + 1;
      }
      rc := OK;
    }
  }

  // ---- The round trip.

  /** The directory after noting the users' records one by one, up to the first that cannot be decoded. */
  function NotedAll(us: seq<User>, d: Directory): (Directory, bool) {
    if us == [] then (d, true)
    else if Decode(Printed(us[0])).None? then (d, false)
    else NotedAll(us[1..], Noted(d, Decode(Printed(us[0])).value))
  }

  /** The client notes exactly what was printed. */
  lemma {:induction false} RecordsComeBack(us: seq<User>, tail: Bytes, d: Directory, reset: bool)
    requires forall i | 0 <= i < |us| :: NoNul(Printed(us[i]))
    ensures var (all, whole) := NotedAll(us, d);
            Collected(Wire(Records(us)) + tail, |us|, d, reset) == (all, if whole then OK else RAISED)
    decreases |us|
  {
    if us != [] {
      var more := Wire(Records(us[1..])) + tail;
      assert Records(us)[1..] == Records(us[1..]);
      assert Wire(Records(us)) + tail == Printed(us[0]) + [NUL] + more;
      TextOfField(Printed(us[0]), more);
      if Decode(Printed(us[0])).Some? {
        RecordsComeBack(us[1..], tail, Noted(d, Decode(Printed(us[0])).value), reset);
      }
    }
  }

  /** The user's record can be decoded and makes the entry. */
  predicate Makes(u: User, name: Str, address: (Str, Str)) {
    Decode(Printed(u)).Some? && EntryOf(Decode(Printed(u)).value) == Some((name, address))
  }

  lemma {:induction false} AllNotedIff(us: seq<User>, d: Directory)
    ensures NotedAll(us, d).1 <==> forall i | 0 <= i < |us| :: Decode(Printed(us[i])).Some?
    decreases |us|
  {
    if us != [] {
      if Decode(Printed(us[0])).Some? {
        AllNotedIff(us[1..], Noted(d, Decode(Printed(us[0])).value));
      }
      assert forall i | 0 < i < |us| :: us[i] == us[1..][i - 1];
    }
  }

  /** Every entry was there before or is made by a record. */
  lemma {:induction false} EntriesAreMade(us: seq<User>, d: Directory, name: Str)
    requires name in NotedAll(us, d).0
    ensures (name in d && NotedAll(us, d).0[name] == d[name])
         || exists i :: 0 <= i < |us| && Makes(us[i], name, NotedAll(us, d).0[name])
    decreases |us|
  {
    if us != [] && Decode(Printed(us[0])).Some? {
      var d' := Noted(d, Decode(Printed(us[0])).value);
      EntriesAreMade(us[1..], d', name);
      if exists i :: 0 <= i < |us[1..]| && Makes(us[1..][i], name, NotedAll(us, d).0[name]) {
        var i :| 0 <= i < |us[1..]| && Makes(us[1..][i], name, NotedAll(us, d).0[name]);
        assert us[i + 1] == us[1..][i];
      } else if name !in d || d'[name] != d[name] {
        assert Makes(us[0], name, NotedAll(us, d).0[name]);
      }
    }
  }

  /** An entry that was made stays, if only with another address. */
  lemma {:induction false} EntriesStay(us: seq<User>, d: Directory, name: Str)
    requires name in d
    ensures name in NotedAll(us, d).0
    decreases |us|
  {
    if us != [] && Decode(Printed(us[0])).Some? {
      EntriesStay(us[1..], Noted(d, Decode(Printed(us[0])).value), name);
    }
  }

  lemma {:induction false} MadeIsEntered(us: seq<User>, d: Directory, i: nat, name: Str, address: (Str, Str))
    requires NotedAll(us, d).1 && i < |us| && Makes(us[i], name, address)
    ensures name in NotedAll(us, d).0
    decreases |us|
  {
    var d' := Noted(d, Decode(Printed(us[0])).value);
    if i == 0 {
      EntriesStay(us[1..], d', name);
    } else {
      MadeIsEntered(us[1..], d', i - 1, name, address);
    }
  }

  predicate Listed(us: seq<User>, n: Name) {
    exists i :: 0 <= i < |us| && us[i].name == n
  }

  lemma {:induction false} ConnectedAre(list: seq<User>)
    ensures forall u :: u in Connected(list) <==> u in list && u.record.connected
    ensures UniqueNames(list) ==> UniqueNames(Connected(list))
  {
    if list != [] {
      var front, last := list[..|list| - 1], list[|list| - 1];
      ConnectedAre(front);
      assert list == front + [last];
      assert forall i | 0 <= i < |Connected(front)| :: Connected(front)[i] in front;
    }
  }

  lemma MemberIsInMap(list: seq<User>, u: User)
    requires UniqueNames(list) && u in list
    ensures u.name in AsMap(list) && AsMap(list)[u.name] == u.record
  {
    var i :| 0 <= i < |list| && list[i] == u;
    AtIndex(list, i);
    LookupAgrees(list, u.name);
  }

  /** The connected users of the list are the connected entries of the map, each once. */
  lemma ConnectedAreMapped(list: seq<User>)
    requires UniqueNames(list)
    ensures var us, up := AsMap(list), Connected(list);
      && UniqueNames(up)
      && (forall i | 0 <= i < |up| :: up[i] in list && up[i].record.connected)
      && (forall i | 0 <= i < |up| :: up[i].name in us && us[up[i].name] == up[i].record)
      && (forall n | n in us && us[n].connected :: Listed(up, n))
  {
    var us, up := AsMap(list), Connected(list);
    ConnectedAre(list);
    forall i | 0 <= i < |up| ensures up[i] in list && up[i].name in us && us[up[i].name] == up[i].record {
      assert up[i] in up;
      MemberIsInMap(list, up[i]);
    }
    forall n | n in us && us[n].connected ensures Listed(up, n) {
      LookupAgrees(list, n);
      var u := list[IndexOf(list, n)];
      assert u in up;
    }
  }

  /** No field of a connected user holds a NUL, as for every string the server keeps. */
  predicate CStrings(list: seq<User>) {
    forall u | u in list && u.record.connected :: NoNul(u.name) && NoNul(u.record.ip) && NoNul(u.record.port)
  }

  predicate ReadableRecord(u: User) {
    Presentable(u.name) && Presentable(u.record.ip) && Presentable(u.record.port)
  }

  /** Every connected user's record can be read back. */
  predicate AllReadable(list: seq<User>) {
    forall u | u in list && u.record.connected :: ReadableRecord(u)
  }

  predicate AllDecodable(list: seq<User>) {
    forall u | u in list && u.record.connected :: AllDecode(u.name, u.record.ip, u.record.port)
  }

  /** The directory is the map from the connected names to their addresses, all of them decoded. */
  ghost predicate Mirrors(d: Directory, us: Users) {
    && (forall n: Str :: n in d <==> Encode(n) in us && us[Encode(n)].connected)
    && (forall n | n in us && us[n].connected :: Decode(n).Some?)
    && (forall n: Str | n in d :: Encode(d[n].0) == us[Encode(n)].ip && Encode(d[n].1) == us[Encode(n)].port)
  }

  /** What the client makes of the reply to a connected requester. */
  function AfterReply(digits: Digits, list: seq<User>, asker: Name, d: Directory): (RC, Directory) {
    Refreshed(digits, Reply(list, asker), d, false)
  }

  /** The reply is noted record by record. */
  lemma ReplyIsNoted(digits: Digits, list: seq<User>, asker: Name, d: Directory)
    requires Sane(digits) && UniqueNames(list) && Fits(AsMap(list)) && CStrings(list) && |Connected(list)| < WORD
    requires asker in AsMap(list) && AsMap(list)[asker].connected
    ensures var (all, whole) := NotedAll(Connected(list), map[]);
            AfterReply(digits, list, asker, d) == (if whole then OK else RAISED, all)
  {
    ReplyParts(list, asker);
    AllComeBack(list);
    CountThenRecords(digits, Reply(list, asker), |Connected(list)|, Wire(Records(Connected(list))), d, false);
  }

  lemma ReplyParts(list: seq<User>, asker: Name)
    requires asker in AsMap(list) && AsMap(list)[asker].connected && |Connected(list)| < WORD
    ensures Reply(list, asker) == [0] + (Print(|Connected(list)|) + [NUL] + Wire(Records(Connected(list))))
  {
    assert |Connected(list)| % WORD == |Connected(list)|;
    ReplyToConnected(list, asker);
    WireHead(Announced(list), Records(Connected(list)));
  }

  lemma AllComeBack(list: seq<User>)
    requires UniqueNames(list) && CStrings(list)
    ensures var (all, whole) := NotedAll(Connected(list), map[]);
            Collected(Wire(Records(Connected(list))), |Connected(list)|, map[], false) ==
            (all, if whole then OK else RAISED)
  {
    PrintedClean(list);
    RecordsComeBack(Connected(list), [], map[], false);
    assert Wire(Records(Connected(list))) + [] == Wire(Records(Connected(list)));
  }

  lemma WireHead(first: Bytes, others: seq<Bytes>)
    ensures Wire([first] + others) == first + [NUL] + Wire(others)
  {
    assert ([first] + others)[1..] == others;
  }

  lemma CountThenRecords(digits: Digits, b: Bytes, n: nat, recs: Bytes, d: Directory, reset: bool)
    requires Sane(digits) && b == [0] + (Print(n) + [NUL] + recs)
    ensures var (all, rc) := Collected(recs, n, map[], reset); Refreshed(digits, b, d, reset) == (rc, all)
  {
    var rest := Print(n) + [NUL] + recs;
    PrintReads(n);
    TextOfField(Print(n), recs);
    DecodePlain(Print(n));
    PlainInt(digits, Print(n));
    assert b[1..] == rest;
  }

  /** Any count: text that cannot be read, or that int() refuses, raises and leaves the directory alone; text that is no
      number counts as none, and clears it. */
  lemma OddCount(digits: Digits, num: Bytes, tail: Bytes, d: Directory, reset: bool)
    requires NoNul(num)
    ensures var after := Refreshed(digits, [0] + (num + [NUL] + tail), d, reset);
      && (Decode(num).None? ==> after == (RAISED, d))
      && (Decode(num).Some? ==>
            && (IntOf(digits, Decode(num).value).Unparsable? ==> after == (RAISED, d))
            && (IntOf(digits, Decode(num).value).NotDigits? ==> after == (OK, map[])))
  {
    var b := [0] + (num + [NUL] + tail);
    assert b[1..] == num + [NUL] + tail && b[1..][|num|] == NUL;
    TextOfField(num, tail);
  }

  /** The count that is announced is that of the connected users, modulo 2^32. */
  lemma AnnouncedReads(list: seq<User>)
    ensures IsNumber(Announced(list)) && Read(Announced(list)) == |Connected(list)| % 0x1_0000_0000
  {
    PrintReads(|Connected(list)| % WORD);
  }

  lemma ReplyToConnected(list: seq<User>, asker: Name)
    requires asker in AsMap(list) && AsMap(list)[asker].connected
    ensures Reply(list, asker) == [0] + Wire([Announced(list)] + Records(Connected(list)))
  {
  }

  lemma PrintedClean(list: seq<User>)
    requires UniqueNames(list) && CStrings(list)
    ensures forall i | 0 <= i < |Connected(list)| :: NoNul(Printed(Connected(list)[i]))
  {
    ConnectedAreMapped(list);
    forall i | 0 <= i < |Connected(list)| ensures NoNul(Printed(Connected(list)[i])) {
      assert Connected(list)[i] in list;
    }
  }

  /** The printed record of a connected user decodes exactly if its fields do. */
  lemma PrintedDecodes(list: seq<User>, i: nat)
    requires UniqueNames(list) && Fits(AsMap(list)) && i < |Connected(list)|
    ensures var u := Connected(list)[i];
      && u in list && u.record.connected && Printed(u) == RecordText(u.name, u.record.ip, u.record.port)
      && (Decode(Printed(u)).Some? <==> AllDecode(u.name, u.record.ip, u.record.port))
  {
    ConnectedAreMapped(list);
    var u := Connected(list)[i];
    RecordsFitTheBuffer(AsMap(list), u.name);
    RecordDecodes(u.name, u.record.ip, u.record.port);
  }

  /** The request raises in the client exactly if some connected user's name or address cannot be decoded. */
  lemma RaisesIff(digits: Digits, list: seq<User>, asker: Name, d: Directory)
    requires Sane(digits) && UniqueNames(list) && Fits(AsMap(list)) && CStrings(list) && |Connected(list)| < WORD
    requires asker in AsMap(list) && AsMap(list)[asker].connected
    ensures AfterReply(digits, list, asker, d).0 == if AllDecodable(list) then OK else RAISED
  {
    ReplyIsNoted(digits, list, asker, d);
    var up := Connected(list);
    AllNotedIff(up, map[]);
    forall i | 0 <= i < |up|
      ensures up[i] in list && up[i].record.connected
      ensures Decode(Printed(up[i])).Some? <==> AllDecode(up[i].name, up[i].record.ip, up[i].record.port)
    {
      PrintedDecodes(list, i);
    }
    ConnectedAre(list);
    if !AllDecodable(list) {
      var u :| u in list && u.record.connected && !AllDecode(u.name, u.record.ip, u.record.port);
      assert u in up;
    }
  }

  // ---- When the client's directory is the registry.

  /** The users' records all decode, and each is what RecordText prints. */
  predicate AllPrinted(up: seq<User>) {
    forall i | 0 <= i < |up| ::
      && AllDecode(up[i].name, up[i].record.ip, up[i].record.port)
      && Printed(up[i]) == RecordText(up[i].name, up[i].record.ip, up[i].record.port)
  }

  function NameOf(u: User): Str
    requires Decode(u.name).Some?
  {
    Decode(u.name).value
  }

  /** A record is entered under its user's name, or under something shorter. */
  lemma EntryShrinks(up: seq<User>, i: nat, name: Str, address: (Str, Str))
    requires AllPrinted(up) && i < |up| && Makes(up[i], name, address)
    ensures name == NameOf(up[i]) || |name| < |NameOf(up[i])|
  {
    var u := up[i];
    RecordDecodes(u.name, u.record.ip, u.record.port);
    TextShrinks(NameOf(u), Decode(u.record.ip).value, Decode(u.record.port).value);
  }

  lemma TextShrinks(name: Str, ip: Str, port: Str)
    ensures var first := Parts(name + GAP + ip + GAP + port)[0]; first == name || |first| < |name|
  {
    var rest := ip + GAP + port;
    FirstPartShrinks(name, rest);
    assert name + GAP + rest == name + GAP + ip + GAP + port;
  }

  /** The record makes exactly its user's entry. */
  predicate MakesItsOwn(u: User) {
    && AllDecode(u.name, u.record.ip, u.record.port)
    && Makes(u, NameOf(u), (Decode(u.record.ip).value, Decode(u.record.port).value))
  }

  lemma OwnEntryIff(up: seq<User>, i: nat)
    requires AllPrinted(up) && i < |up|
    ensures MakesItsOwn(up[i]) <==> ReadableRecord(up[i])
  {
    RecordComesBackIff(up[i].name, up[i].record.ip, up[i].record.port);
  }

  /** If every user's name is entered, every name is entered by its own user's record: a longest name entered by
      another's would be the shortened name of an even longer one. */
  lemma {:induction false} OwnNames(up: seq<User>, d: Directory, i: nat, longest: nat)
    requires AllPrinted(up) && UniqueNames(up) && NotedAll(up, map[]) == (d, true) && i < |up|
    requires forall j | 0 <= j < |up| :: NameOf(up[j]) in d && |NameOf(up[j])| <= longest
    ensures forall j, a: (Str, Str) | 0 <= j < |up| && Makes(up[j], NameOf(up[i]), a) :: j == i
    decreases longest - |NameOf(up[i])|
  {
    forall j, a: (Str, Str) | 0 <= j < |up| && Makes(up[j], NameOf(up[i]), a) ensures j == i {
      if j != i {
        EntryShrinks(up, j, NameOf(up[i]), a);
        SameText(up[i].name, up[j].name);
        OwnNames(up, d, j, longest);
        EntriesAreMade(up, map[], NameOf(up[j]));
      }
    }
  }

  lemma {:induction false} LongestName(up: seq<User>) returns (longest: nat)
    requires AllPrinted(up)
    ensures forall j | 0 <= j < |up| :: |NameOf(up[j])| <= longest
  {
    longest := 0;
    for i := 0 to |up|
      invariant forall j | 0 <= j < i :: |NameOf(up[j])| <= longest
    {
      if |NameOf(up[i])| > longest {
        longest := |NameOf(up[i])|;
      }
    }
  }

  /** Encoding and decoding a field that can be decoded. */
  lemma BackAndForth(f: Bytes)
    requires Decode(f).Some?
    ensures Encode(Decode(f).value) == f && forall s | Encode(s) == f :: s == Decode(f).value
  {
    DecodeIff(f, Decode(f).value);
    forall s | Encode(s) == f ensures s == Decode(f).value {
      DecodeEncode(s);
    }
  }

  lemma OwnEntryMirrors(u: User, n: Str, a: (Str, Str))
    requires MakesItsOwn(u) && Makes(u, n, a)
    ensures Encode(n) == u.name && Encode(a.0) == u.record.ip && Encode(a.1) == u.record.port
  {
    BackAndForth(u.name);
    BackAndForth(u.record.ip);
    BackAndForth(u.record.port);
  }

  lemma OwnEntriesMirror(list: seq<User>, d: Directory)
    requires UniqueNames(list) && AllPrinted(Connected(list)) && NotedAll(Connected(list), map[]) == (d, true)
    requires forall i | 0 <= i < |Connected(list)| :: MakesItsOwn(Connected(list)[i])
    ensures Mirrors(d, AsMap(list))
  {
    var us := AsMap(list);
    forall n: Str | n in d
      ensures Encode(n) in us && us[Encode(n)].connected
      ensures Encode(d[n].0) == us[Encode(n)].ip && Encode(d[n].1) == us[Encode(n)].port
    {
      EntryMirrors(list, d, n);
    }
    forall n | n in us && us[n].connected ensures Decode(n).Some? && Decode(n).value in d {
      ConnectedIsEntered(list, d, n);
    }
    forall n: Str | Encode(n) in us && us[Encode(n)].connected ensures n in d {
      DecodeEncode(n);
    }
  }

  lemma EntryMirrors(list: seq<User>, d: Directory, n: Str)
    requires UniqueNames(list) && NotedAll(Connected(list), map[]) == (d, true) && n in d
    requires forall i | 0 <= i < |Connected(list)| :: MakesItsOwn(Connected(list)[i])
    ensures var us := AsMap(list);
            Encode(n) in us && us[Encode(n)].connected &&
            Encode(d[n].0) == us[Encode(n)].ip && Encode(d[n].1) == us[Encode(n)].port
  {
    var up := Connected(list);
    EntriesAreMade(up, map[], n);
    var i :| 0 <= i < |up| && Makes(up[i], n, d[n]);
    OwnEntryMirrors(up[i], n, d[n]);
    ConnectedAreMapped(list);
  }

  lemma ConnectedIsEntered(list: seq<User>, d: Directory, n: Name)
    requires UniqueNames(list) && NotedAll(Connected(list), map[]) == (d, true)
    requires forall i | 0 <= i < |Connected(list)| :: MakesItsOwn(Connected(list)[i])
    requires n in AsMap(list) && AsMap(list)[n].connected
    ensures Decode(n).Some? && Decode(n).value in d
  {
    var up := Connected(list);
    ConnectedAreMapped(list);
    var i :| 0 <= i < |up| && up[i].name == n;
    MadeIsEntered(up, map[], i, NameOf(up[i]), (Decode(up[i].record.ip).value, Decode(up[i].record.port).value));
  }

  lemma MirrorMakesOwn(list: seq<User>, d: Directory, i: nat)
    requires UniqueNames(list) && AllPrinted(Connected(list)) && NotedAll(Connected(list), map[]) == (d, true)
    requires Mirrors(d, AsMap(list)) && i < |Connected(list)|
    ensures MakesItsOwn(Connected(list)[i])
  {
    var up := Connected(list);
    ConnectedAreMapped(list);
    var longest := LongestName(up);
    forall j | 0 <= j < |up| ensures NameOf(up[j]) in d {
      BackAndForth(up[j].name);
    }
    OwnNames(up, d, i, longest);
    var n := NameOf(up[i]);
    EntriesAreMade(up, map[], n);
    var k :| 0 <= k < |up| && Makes(up[k], n, d[n]);
    BackAndForth(up[i].name);
    MirroredAddress(up[i], d[n]);
  }

  lemma MirroredAddress(u: User, a: (Str, Str))
    requires AllDecode(u.name, u.record.ip, u.record.port) && Encode(a.0) == u.record.ip && Encode(a.1) == u.record.port
    ensures a == (Decode(u.record.ip).value, Decode(u.record.port).value)
  {
    BackAndForth(u.record.ip);
    BackAndForth(u.record.port);
  }

  lemma DecodableArePrinted(list: seq<User>)
    requires UniqueNames(list) && Fits(AsMap(list)) && AllDecodable(list)
    ensures AllPrinted(Connected(list))
  {
    forall i | 0 <= i < |Connected(list)|
      ensures var u := Connected(list)[i];
        AllDecode(u.name, u.record.ip, u.record.port) && Printed(u) == RecordText(u.name, u.record.ip, u.record.port)
    {
      PrintedDecodes(list, i);
    }
  }

  /** After the reply to a connected requester the client's directory is exactly the map from the connected names to
      their addresses, whatever it held before, if and only if every connected user's record is readable. */
  lemma DirectoryIsTheRegistryIff(digits: Digits, list: seq<User>, asker: Name, d: Directory)
    requires Sane(digits) && UniqueNames(list) && Fits(AsMap(list)) && CStrings(list) && |Connected(list)| < WORD
    requires asker in AsMap(list) && AsMap(list)[asker].connected
    ensures var (rc, d') := AfterReply(digits, list, asker, d);
            rc == OK && Mirrors(d', AsMap(list)) <==> AllReadable(list)
  {
    var up := Connected(list);
    var (rc, d') := AfterReply(digits, list, asker, d);
    RaisesIff(digits, list, asker, d);
    ReplyIsNoted(digits, list, asker, d);
    ConnectedAre(list);
    if AllDecodable(list) {
      DecodableArePrinted(list);
      ReadableIffOwn(list);
      if AllReadable(list) {
        OwnEntriesMirror(list, d');
      }
      if Mirrors(d', AsMap(list)) {
        forall i | 0 <= i < |up| ensures MakesItsOwn(up[i]) {
          MirrorMakesOwn(list, d', i);
        }
      }
    }
  }

  lemma ReadableIffOwn(list: seq<User>)
    requires UniqueNames(list) && AllPrinted(Connected(list))
    ensures AllReadable(list) <==> forall i | 0 <= i < |Connected(list)| :: MakesItsOwn(Connected(list)[i])
  {
    var up := Connected(list);
    forall i | 0 <= i < |up| ensures MakesItsOwn(up[i]) <==> ReadableRecord(up[i]) {
      OwnEntryIff(up, i);
    }
    ReadableEach(list);
  }

  lemma ReadableEach(list: seq<User>)
    ensures AllReadable(list) <==> forall i | 0 <= i < |Connected(list)| :: ReadableRecord(Connected(list)[i])
  {
    var up := Connected(list);
    ConnectedAre(list);
    if AllReadable(list) {
      forall i | 0 <= i < |up| ensures ReadableRecord(up[i]) {
        assert up[i] in up;
      }
    } else {
      var u :| u in list && u.record.connected && !ReadableRecord(u);
      var i: nat :| i < |up| && up[i] == u;
      assert !ReadableRecord(Connected(list)[i]);
    }
  }
}
