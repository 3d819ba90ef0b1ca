/** The messages the server sends to a client's listener, and how the listener takes them apart.

    A message is written either straight from the locals of the SEND handler or, later, from its stored
    node by a CONNECT flush. The recipient cannot tell which.
  */
module Frames {
  import opened Basics
  import opened Registry
  import opened Framing
  import opened Decimal
  import opened Utf8

  /** The bytes of an ASCII literal. */
  function Ascii(s: string): (b: Bytes)
    ensures |b| == |s| && Plain(b)
    ensures forall i | 0 <= i < |s| :: b[i] == (s[i] as int) % 128
  {
    seq(|s|, i requires 0 <= i < |s| => (s[i] as int) % 128)
  }

  predicate NoNul(f: Bytes) {
    NUL !in f
  }

  /** Numbers are printed in decimal, most significant digit first. */
  lemma KnownNumbers()
    ensures Print(0) == Ascii("0") && Print(10) == Ascii("10") && Print(4294967295) == Ascii("4294967295")
  {
    assert Print(42949) == Ascii("42949");
    assert Print(42949672) == Ascii("42949672");
  }

  // ---- Taking a stream of strings apart.

  /** The first string of the stream: up to the first NUL, or all there is. */
  function Text(b: Bytes): Bytes {
    if b == [] || b[0] == NUL then [] else [b[0]] + Text(b[1..])
  }

  function After(b: Bytes): Bytes {
    if b == [] then [] else if b[0] == NUL then b[1..] else After(b[1..])
  }

  /** The first `n` strings. Past the end of the stream they are empty. */
  function Strings(b: Bytes, n: nat): (r: seq<Bytes>)
    ensures |r| == n
    decreases n
  {
    if n == 0 then [] else [Text(b)] + Strings(After(b), n - 1)
  }

  lemma {:induction false} TextOfField(f: Bytes, tail: Bytes)
    requires NoNul(f)
    ensures Text(f + [NUL] + tail) == f && After(f + [NUL] + tail) == tail
    ensures Text(f) == f && After(f) == []
  {
    if f == [] {
      assert f + [NUL] + tail == [NUL] + tail;
    } else {
      TextOfField(f[1..], tail);
      assert (f + [NUL] + tail)[1..] == f[1..] + [NUL] + tail;
    }
  }

  /** A number sent as text, whatever follows it. */
  lemma NumberComesBack(n: nat, tail: Bytes)
    ensures var b := Print(n) + [NUL] + tail;
            IsNumber(Text(b)) && Read(Text(b)) == n && After(b) == tail && NUL in b
  {
    PrintReads(n);
    TextOfField(Print(n), tail);
    assert (Print(n) + [NUL] + tail)[|Print(n)|] == NUL;
  }

  /** Strings written one after the other are read back as they were. */
  lemma {:induction false} StringsComeBack(fields: seq<Bytes>, tail: Bytes)
    requires forall i | 0 <= i < |fields| :: NoNul(fields[i])
    ensures Strings(Wire(fields) + tail, |fields|) == fields
    decreases |fields|
  {
    if fields != [] {
      var more := Wire(fields[1..]) + tail;
      assert Wire(fields) + tail == fields[0] + [NUL] + more;
      TextOfField(fields[0], more);
      StringsComeBack(fields[1..], tail);
    }
  }

  predicate AllNul(b: Bytes) {
    forall i | 0 <= i < |b| :: b[i] == NUL
  }

  predicate AllEmpty(fields: seq<Bytes>) {
    forall i | 0 <= i < |fields| :: fields[i] == []
  }

  lemma {:induction false} StringsOfNothing(n: nat)
    ensures AllEmpty(Strings([], n))
  {
    if n > 0 {
      StringsOfNothing(n - 1);
    }
  }

  lemma {:induction false} NothingButNuls(fields: seq<Bytes>)
    requires forall i | 0 <= i < |fields| :: NoNul(fields[i])
    ensures AllNul(Wire(fields)) <==> AllEmpty(fields)
  {
    if fields != [] {
      var first, more := fields[0] + [NUL], Wire(fields[1..]);
      NothingButNuls(fields[1..]);
      NulsOfParts(first, more);
      if fields[0] != [] {
        assert first[0] != NUL;
      }
    }
  }

  lemma NulsOfParts(a: Bytes, b: Bytes)
    ensures AllNul(a + b) <==> AllNul(a) && AllNul(b)
  {
    assert forall i | 0 <= i < |a| :: (a + b)[i] == a[i];
    assert forall i | 0 <= i < |b| :: (a + b)[|a| + i] == b[i];
  }

  /** The stream ends inside the first string, or right behind it. */
  lemma CutOffFirst(fields: seq<Bytes>, k: nat)
    requires fields != [] && k <= |fields[0]|
    requires forall i | 0 <= i < |fields| :: NoNul(fields[i])
    ensures Strings(Wire(fields)[..k], |fields|) == fields <==> AllNul(Wire(fields)[k..])
  {
    var first, others := fields[0], fields[1..];
    assert Wire(fields)[..k] == first[..k] && Wire(fields)[k..] == first[k..] + [NUL] + Wire(others);
    CutOffHead(first, k, |others|);
    CutOffMissing(first, others, k);
    SameHeadAndTail(fields, first[..k], Strings([], |others|));
    EmptyAre(others, Strings([], |others|));
  }

  lemma SameHeadAndTail(fields: seq<Bytes>, head: Bytes, tail: seq<Bytes>)
    requires fields != []
    ensures [head] + tail == fields <==> head == fields[0] && tail == fields[1..]
  {
    assert fields == [fields[0]] + fields[1..];
  }

  lemma CutOffHead(first: Bytes, k: nat, n: nat)
    requires NoNul(first) && k <= |first|
    ensures Strings(first[..k], n + 1) == [first[..k]] + Strings([], n) && AllEmpty(Strings([], n))
  {
    TextOfField(first[..k], []);
    StringsOfNothing(n);
  }

  lemma CutOffMissing(first: Bytes, others: seq<Bytes>, k: nat)
    requires NoNul(first) && k <= |first| && forall i | 0 <= i < |others| :: NoNul(others[i])
    ensures AllNul(first[k..] + [NUL] + Wire(others)) <==> first[..k] == first && AllEmpty(others)
  {
    NothingButNuls(others);
    NulsOfParts(first[k..] + [NUL], Wire(others));
    if k < |first| {
      assert (first[k..] + [NUL])[0] == first[k] != NUL;
    }
  }

  lemma EmptyAre(a: seq<Bytes>, b: seq<Bytes>)
    requires |a| == |b| && AllEmpty(b)
    ensures a == b <==> AllEmpty(a)
  {
  }

  /** Strings cut off in transit are read as the full ones exactly when nothing but NULs is missing. */
  lemma {:induction false} CutOffStrings(fields: seq<Bytes>, k: nat)
    requires k <= |Wire(fields)|
    requires forall i | 0 <= i < |fields| :: NoNul(fields[i])
    ensures Strings(Wire(fields)[..k], |fields|) == fields <==> AllNul(Wire(fields)[k..])
    decreases |fields|
  {
    if fields != [] {
      var first, others := fields[0], fields[1..];
      if k <= |first| {
        CutOffFirst(fields, k);
      } else {
        var j := k - |first| - 1;
        var rest := Wire(others)[..j];
        assert Wire(fields)[..k] == first + [NUL] + rest && Wire(fields)[k..] == Wire(others)[j..];
        TextOfField(first, rest);
        CutOffStrings(others, j);
        assert fields == [first] + others;
      }
    }
  }

  // ---- What is sent.

  function PlainFields(sender: Bytes, id: Bytes, text: Bytes): seq<Bytes> {
    [Ascii("SEND_MESSAGE"), sender, id, text]
  }

  function AttachFields(sender: Bytes, id: Bytes, text: Bytes, file: Bytes): seq<Bytes> {
    [Ascii("SEND_MESSAGE_ATTACH"), sender, id, text, file]
  }

  /** The strings the SEND handler writes from its own buffers. */
  function DirectFields(id: nat, sender: Bytes, text: Bytes, file: Bytes, attach: bool): seq<Bytes> {
    if attach then AttachFields(sender, Print(id), text, file) else PlainFields(sender, Print(id), text)
  }

  /** The strings a flush writes from the stored message. */
  function StoredFields(m: Msg): seq<Bytes> {
    if m.attach then AttachFields(m.sender, Print(m.id), m.text, m.file) else PlainFields(m.sender, Print(m.id), m.text)
  }

  function AckFields(id: nat, file: Bytes, attach: bool): seq<Bytes> {
    if attach then [Ascii("SEND_MESS_ATTACH_ACK"), Print(id), file] else [Ascii("SEND_MESS_ACK"), Print(id)]
  }

  /** Direct delivery and delivery after storage put the same bytes on the wire exactly when nothing had to be
      cut for storage. */
  lemma SameFrameIff(id: nat, sender: Bytes, text: Bytes, file: Bytes, attach: bool)
    ensures Wire(DirectFields(id, sender, text, file, attach)) ==
            Wire(StoredFields(Compose(id, sender, text, file, attach)))
            <==> |text| <= MAX_TEXT && (attach ==> |file| <= MAX_TEXT)
  {
    var m := Compose(id, sender, text, file, attach);
    if attach {
      WireLength5(AttachFields(sender, Print(id), text, file));
      WireLength5(AttachFields(sender, Print(id), m.text, m.file));
    } else {
      WireLength4(PlainFields(sender, Print(id), text));
      WireLength4(PlainFields(sender, Print(id), m.text));
    }
  }

  lemma WireLength4(f: seq<Bytes>)
    requires |f| == 4
    ensures |Wire(f)| == |f[0]| + |f[1]| + |f[2]| + |f[3]| + 4
  {
    var g := f[1..][1..];
    assert |Wire(g)| == |g[0]| + |g[1]| + 2 by {
      var h := g[1..];
      assert h[1..] == [];
      assert |Wire(g[1..])| == |g[1]| + 1;
    }
  }

  lemma WireLength5(f: seq<Bytes>)
    requires |f| == 5
    ensures |Wire(f)| == |f[0]| + |f[1]| + |f[2]| + |f[3]| + |f[4]| + 5
  {
    WireLength4(f[1..]);
  }

  // ---- What the listener makes of it.

  datatype Event =
    | Message(sender: Str, id: Str, text: Str)
    | MessageWithFile(sender: Str, id: Str, text: Str, file: Str)
    | Ack(id: Str)
    | AckWithFile(id: Str, file: Str)
    | FileRequest(asker: Str, file: Str)

  /** One turn of the listener: it shows or serves something, ignores an unknown operation, or a string that cannot be
      decoded raises, which ends the listener's loop. */
  datatype Heard = Shown(event: Event) | Ignored | Raised

  datatype Opcode = SendMessageOp | AckOp | SendWithFileOp | AckWithFileOp | GetFileOp | OtherOp

  function OperationNamed(op: Str): Opcode {
    if op == Ascii("SEND_MESSAGE") then SendMessageOp
    else if op == Ascii("SEND_MESS_ACK") then AckOp
    else if op == Ascii("SEND_MESSAGE_ATTACH") then SendWithFileOp
    else if op == Ascii("SEND_MESS_ATTACH_ACK") then AckWithFileOp
    else if op == Ascii("GET_FILE") then GetFileOp
    else OtherOp
  }

  /** What an operation makes of the strings behind it. */
  function HeardAs(op: Opcode, a: Option<Str>, b: Option<Str>, c: Option<Str>, d: Option<Str>): Heard {
    match op
    case SendMessageOp => if a.Some? && b.Some? && c.Some? then Shown(Message(a.value, b.value, c.value)) else Raised
    case AckOp => if a.Some? then Shown(Ack(a.value)) else Raised
    case SendWithFileOp =>
      if a.Some? && b.Some? && c.Some? && d.Some? then Shown(MessageWithFile(a.value, b.value, c.value, d.value))
      else Raised
    case AckWithFileOp => if a.Some? && b.Some? then Shown(AckWithFile(a.value, b.value)) else Raised
    case GetFileOp => if a.Some? && b.Some? then Shown(FileRequest(a.value, b.value)) else Raised
    case OtherOp => Ignored
  }

  /** Each string is decoded when it is read, before anything is shown. */
  function HeardFrom(f: seq<Bytes>): Heard
    requires |f| == 5
  {
    if Decode(f[0]).None? then Raised
    else HeardAs(OperationNamed(Decode(f[0]).value), Decode(f[1]), Decode(f[2]), Decode(f[3]), Decode(f[4]))
  }

  function HeardIn(b: Bytes): Heard {
    HeardFrom(Strings(b, 5))
  }

  /** A string as it is read: None if a reset comes before its NUL, or if it cannot be decoded. */
  function StringIn(b: Bytes, reset: bool): Option<Str> {
    if reset && NUL !in b then None else Decode(Text(b))
  }

  /** The first `n` strings as they are read. */
  function Arrived(b: Bytes, reset: bool, n: nat): (r: seq<Option<Str>>)
    ensures |r| == n
    decreases n
  {
    if n == 0 then [] else [StringIn(b, reset)] + Arrived(After(b), reset, n - 1)
  }

  function HeardWith(f: seq<Option<Str>>): Heard
    requires |f| == 5
  {
    if f[0].None? then Raised else HeardAs(OperationNamed(f[0].value), f[1], f[2], f[3], f[4])
  }

  /** What is heard over a connection that brings `b` and is then closed, or reset. */
  function HeardOver(b: Bytes, reset: bool): Heard {
    HeardWith(Arrived(b, reset, 5))
  }

  /** A connection as TCP delivers it: any pieces, then the sender's close or a reset. */
  class Connection {
    var pieces: seq<Bytes>
    const reset: bool

    constructor (pieces: seq<Bytes>, reset: bool)
      ensures this.pieces == pieces && this.reset == reset
    {
      this.pieces, this.reset := pieces, reset;
    }

    ghost function Payload(): Bytes
      reads this
    {
      Joined(pieces)
    }

    /** At least one byte and at most `n` while there are any; then nothing, or the reset raises. */
    method Receive(n: nat) returns (chunk: Bytes, raised: bool)
      requires n > 0
      modifies this
      ensures old(Payload()) == chunk + Payload() && |chunk| <= n
      ensures chunk == [] <==> old(Payload()) == []
      ensures raised == (old(Payload()) == [] && reset)
    {
      while pieces != [] && pieces[0] == []
        invariant Payload() == old(Payload())
        decreases |pieces|
      {
        assert [] + Joined(pieces[1..]) == Joined(pieces[1..]);
        pieces := pieces[1..];
      }
      chunk, raised := [], false;
      if pieces == [] {
        raised := reset;
      } else {
        chunk := Cut(pieces[0], n);
        var left := pieces[0][|chunk|..];
        assert chunk + left == pieces[0] && ([left] + pieces[1..])[1..] == pieces[1..];
        assert chunk + (left + Joined(pieces[1..])) == pieces[0] + Joined(pieces[1..]);
        pieces := [left] + pieces[1..];
      }
    }
  }

  /** Reads a string. None is an exception: the reset, or a string that cannot be decoded. */
  method ReadString(c: Connection) returns (res: Option<Str>, raised: bool)
    modifies c
    ensures var b := old(c.Payload());
      && res == StringIn(b, c.reset) && raised == (c.reset && NUL !in b)
      && (!raised ==> c.Payload() == After(b))
  {
    res := None;
    var got: Bytes := [];
    ghost var b := c.Payload();
    assert got + Text(b) == Text(b);
    while true
      invariant got + Text(c.Payload()) == Text(b) && After(c.Payload()) == After(b)
      invariant NUL in c.Payload() <==> NUL in b
      decreases |c.Payload()|
    {
      ghost var was := c.Payload();
      var one;
      one, raised := c.Receive(1);
      if raised {
        return;
      }
      assert one != [] ==> one == [was[0]] && c.Payload() == was[1..] && was == one + was[1..];
      if one == [] || one == [NUL] {
        assert got + [] == got;
        break;
      }
      assert (got + one) + Text(c.Payload()) == got + Text(was);
      got := got + one;
    }
    res := Decode(got);
  }

  /** One turn of the listener's loop, up to what it shows. */
  method Listen(c: Connection) returns (heard: Heard)
    modifies c
    ensures heard == HeardOver(old(c.Payload()), c.reset)
  {
    ghost var b := c.Payload();
    ArriveInTurn(b, c.reset);
    heard := Ignored;
    var op, raised := ReadString(c);
    if op.None? {
      return Raised;
    }
    match OperationNamed(op.value) {
      case SendMessageOp =>
        heard := HearMessage(c, false);
      case AckOp =>
        var id;
        id, raised := ReadString(c);
        heard := if id.None? then Raised else Shown(Ack(id.value));
      case SendWithFileOp =>
        heard := HearMessage(c, true);
      case AckWithFileOp =>
        var id, file := HearTwo(c);
        heard := if id.None? || file.None? then Raised else Shown(AckWithFile(id.value, file.value));
      case GetFileOp =>
        var asker, file := HearTwo(c);
        heard := if asker.None? || file.None? then Raised else Shown(FileRequest(asker.value, file.value));
      case OtherOp =>
    }
  }

  /** Reads two strings; the second only if the first could be read. */
  method HearTwo(c: Connection) returns (first: Option<Str>, second: Option<Str>)
    modifies c
    ensures var b := old(c.Payload());
      && first == StringIn(b, c.reset)
      && (first.Some? ==> second == StringIn(After(b), c.reset))
      && (first.Some? && second.Some? ==> c.Payload() == After(After(b)))
  {
    var raised;
    second := None;
    first, raised := ReadString(c);
    if first.Some? {
      second, raised := ReadString(c);
    }
  }

  method HearMessage(c: Connection, attach: bool) returns (heard: Heard)
    modifies c
    ensures var b, r := old(c.Payload()), c.reset;
      var sender, id := StringIn(b, r), StringIn(After(b), r);
      var text, file := StringIn(After(After(b)), r), StringIn(After(After(After(b))), r);
      heard == if sender.None? || id.None? || text.None? || (attach && file.None?) then Raised
               else if attach then Shown(MessageWithFile(sender.value, id.value, text.value, file.value))
               else Shown(Message(sender.value, id.value, text.value))
  {
    var sender, id := HearTwo(c);
    if sender.None? || id.None? {
      return Raised;
    }
    var text, raised := ReadString(c);
    if text.None? {
      return Raised;
    }
    if !attach {
      return Shown(Message(sender.value, id.value, text.value));
    }
    var file;
    file, raised := ReadString(c);
    heard := if file.None? then Raised else Shown(MessageWithFile(sender.value, id.value, text.value, file.value));
  }

  lemma OneMoreArrives(b: Bytes, reset: bool, n: nat)
    ensures Arrived(b, reset, n + 1) == [StringIn(b, reset)] + Arrived(After(b), reset, n)
  {
  }

  lemma LastThreeArrive(b: Bytes, reset: bool)
    ensures Arrived(b, reset, 3) == [StringIn(b, reset), StringIn(After(b), reset), StringIn(After(After(b)), reset)]
  {
    OneMoreArrives(After(After(b)), reset, 0);
    OneMoreArrives(After(b), reset, 1);
    OneMoreArrives(b, reset, 2);
  }

  lemma ArriveInTurn(b: Bytes, reset: bool)
    ensures var c, d := After(b), After(After(b));
            Arrived(b, reset, 5) == [StringIn(b, reset), StringIn(c, reset), StringIn(d, reset),
                                     StringIn(After(d), reset), StringIn(After(After(d)), reset)]
  {
    var c, d := After(b), After(After(b));
    var rest := Arrived(d, reset, 3);
    LastThreeArrive(d, reset);
    OneMoreArrives(c, reset, 3);
    OneMoreArrives(b, reset, 4);
    assert [StringIn(b, reset)] + ([StringIn(c, reset)] + rest) == [StringIn(b, reset), StringIn(c, reset)] + rest;
  }

  /** Over a connection that is closed each string is simply decoded. */
  lemma ClosedIsHeardIn(b: Bytes)
    ensures HeardOver(b, false) == HeardIn(b)
  {
    ArriveInTurn(b, false);
    StringsInTurn(b);
  }

  /** What the listener shows over several turns, and whether it still listens afterwards. */
  function HeardAll(turns: seq<Heard>): (seq<Event>, bool) {
    if turns == [] then ([], true)
    else
      match turns[0]
      case Raised => ([], false)
      case Ignored => HeardAll(turns[1..])
      case Shown(e) => Before([e], HeardAll(turns[1..]))
  }

  /** What was shown before put in front. */
  function Before(events: seq<Event>, more: (seq<Event>, bool)): (seq<Event>, bool) {
    (events + more.0, more.1)
  }

  /** The loop takes the connections one after the other: what comes later is shown behind what came before, unless that
      ended the loop. */
  lemma {:induction false} HeardInOrder(a: seq<Heard>, b: seq<Heard>)
    ensures HeardAll(a + b) == if HeardAll(a).1 then Before(HeardAll(a).0, HeardAll(b)) else HeardAll(a)
  {
    if a == [] {
      assert a + b == b && [] + HeardAll(b).0 == HeardAll(b).0;
    } else {
      HeardInOrder(a[1..], b);
      assert (a + b)[1..] == a[1..] + b;
      if a[0].Shown? && HeardAll(a[1..]).1 {
        var first, more, rest := [a[0].event], HeardAll(a[1..]).0, HeardAll(b).0;
        assert first + (more + rest) == (first + more) + rest;
      }
    }
  }

  /** What a single turn shows, and whether the loop goes on. */
  lemma HeardOnce(heard: Heard)
    ensures HeardAll([heard]) == (if heard.Shown? then [heard.event] else [], !heard.Raised?)
  {
    assert HeardAll([heard][1..]) == ([], true);
    if heard.Shown? {
      assert [heard.event] + [] == [heard.event];
    }
  }

  /** What a connection brings, in any pieces, and whether it is reset in the end. */
  datatype Arrival = Arrival(pieces: seq<Bytes>, reset: bool)

  function Turns(arrivals: seq<Arrival>): (r: seq<Heard>)
    ensures |r| == |arrivals|
    ensures forall i | 0 <= i < |r| :: r[i] == HeardOver(Joined(arrivals[i].pieces), arrivals[i].reset)
  {
    seq(|arrivals|, i requires 0 <= i < |arrivals| => HeardOver(Joined(arrivals[i].pieces), arrivals[i].reset))
  }

  lemma OneMoreTurn(events: seq<Event>, turns: seq<Heard>)
    ensures turns == [] ==> Before(events, HeardAll(turns)) == (events, true)
    ensures turns != [] ==>
              match turns[0]
              case Raised => Before(events, HeardAll(turns)) == (events, false)
              case Ignored => HeardAll(turns) == HeardAll(turns[1..])
              case Shown(e) => Before(events, HeardAll(turns)) == Before(events + [e], HeardAll(turns[1..]))
  {
    assert events + [] == events;
    if turns != [] && turns[0].Shown? {
      var more := HeardAll(turns[1..]);
      assert events + ([turns[0].event] + more.0) == (events + [turns[0].event]) + more.0;
    }
  }

  /** The listener's loop over the connections it accepts. */
  method ListenerThread(arrivals: seq<Arrival>) returns (events: seq<Event>, alive: bool)
    ensures (events, alive) == HeardAll(Turns(arrivals))
  {
    events, alive := [], true;
    ghost var turns := Turns(arrivals);
    ghost var all := HeardAll(turns);
    assert [] + all.0 == all.0;
    var i := 0;
    while i < |arrivals| && alive
      invariant i <= |arrivals|
      invariant if alive then Before(events, HeardAll(turns[i..])) == all else (events, false) == all
    {
      OneMoreTurn(events, turns[i..]);
      assert turns[i..][0] == turns[i] && turns[i..][1..] == turns[i + 1..];
      var c := new Connection(arrivals[i].pieces, arrivals[i].reset);
      var heard := Listen(c);
      match heard {
        case Raised => alive := false;
        case Ignored =>
        case Shown(e) => events := events + [e];
      }
      i := i + 1;
    }
    OneMoreTurn(events, []);
  }

  /** After a turn that raises nothing is shown any more, whatever arrives. */
  lemma {:induction false} SilentAfterRaise(before: seq<Heard>, later: seq<Heard>)
    ensures HeardAll(before + [Raised] + later) == (HeardAll(before).0, false)
  {
    var all := before + [Raised] + later;
    if before == [] {
      assert all[0] == Raised;
    } else {
      assert all[0] == before[0] && all[1..] == before[1..] + [Raised] + later;
      SilentAfterRaise(before[1..], later);
    }
  }

  lemma LastTwo(b: Bytes)
    ensures Strings(b, 2) == [Text(b), Text(After(b))]
  {
    assert Strings(After(b), 1) == [Text(After(b))] + Strings(After(After(b)), 0);
  }

  lemma LastThree(b: Bytes)
    ensures Strings(b, 3) == [Text(b), Text(After(b)), Text(After(After(b)))]
  {
    LastTwo(After(b));
    assert Strings(b, 3) == [Text(b)] + Strings(After(b), 2);
  }

  lemma StringsInTurn(b: Bytes)
    ensures var c, d := After(b), After(After(b));
            Strings(b, 5) == [Text(b), Text(c), Text(d), Text(After(d)), Text(After(After(d)))]
  {
    LastThree(After(After(b)));
    FirstTwo(b);
  }

  lemma OneMoreString(b: Bytes, n: nat)
    ensures Strings(b, n + 1) == [Text(b)] + Strings(After(b), n)
  {
  }

  lemma FirstTwo(b: Bytes)
    ensures Strings(b, 5) == [Text(b), Text(After(b))] + Strings(After(After(b)), 3)
  {
    var rest := Strings(After(After(b)), 3);
    OneMoreString(After(b), 3);
    OneMoreString(b, 4);
    assert [Text(b)] + ([Text(After(b))] + rest) == [Text(b), Text(After(b))] + rest;
  }

  // ---- End to end.

  lemma OperationsNoNul()
    ensures NoNul(Ascii("SEND_MESSAGE")) && NoNul(Ascii("SEND_MESSAGE_ATTACH"))
    ensures NoNul(Ascii("SEND_MESS_ACK")) && NoNul(Ascii("SEND_MESS_ATTACH_ACK"))
  {
  }

  lemma Prefix4(b: Bytes)
    ensures Strings(b, 4) == Strings(b, 5)[..4]
  {
    StringsInTurn(b);
    LastThree(After(b));
    assert Strings(b, 4) == [Text(b)] + Strings(After(b), 3);
  }

  /** Every string of the message that is sent can be decoded. */
  predicate Readable(m: Msg) {
    Decode(m.sender).Some? && Decode(m.text).Some? && (m.attach ==> Decode(m.file).Some?)
  }

  /** What the recipient should be shown of a message. */
  function Content(m: Msg): Event
    requires Readable(m)
  {
    var sender, text := Decode(m.sender).value, Decode(m.text).value;
    if m.attach then MessageWithFile(sender, Print(m.id), text, Decode(m.file).value)
    else Message(sender, Print(m.id), text)
  }

  lemma PrintDecodes(n: nat)
    ensures Decode(Print(n)) == Some(Print(n)) && NoNul(Print(n))
  {
    PrintReads(n);
    DecodePlain(Print(n));
  }

  lemma Names()
    ensures OperationNamed(Ascii("SEND_MESSAGE")) == SendMessageOp
    ensures OperationNamed(Ascii("SEND_MESS_ACK")) == AckOp
    ensures OperationNamed(Ascii("SEND_MESSAGE_ATTACH")) == SendWithFileOp
    ensures OperationNamed(Ascii("SEND_MESS_ATTACH_ACK")) == AckWithFileOp
    ensures OperationNamed(Ascii("GET_FILE")) == GetFileOp
  {
  }

  /** No operation has another name. */
  lemma NamedBack(op: Str)
    ensures OperationNamed(op) == SendMessageOp <==> op == Ascii("SEND_MESSAGE")
    ensures OperationNamed(op) == SendWithFileOp <==> op == Ascii("SEND_MESSAGE_ATTACH")
    ensures OperationNamed(op) == AckOp <==> op == Ascii("SEND_MESS_ACK")
    ensures OperationNamed(op) == AckWithFileOp <==> op == Ascii("SEND_MESS_ATTACH_ACK")
    ensures OperationNamed(op) == GetFileOp <==> op == Ascii("GET_FILE")
  {
    Names();
  }

  /** Any other operation is ignored, whatever comes behind its name, and the loop goes on. */
  lemma OthersAreIgnored(op: Bytes, tail: Bytes, reset: bool)
    requires NoNul(op) && Decode(op).Some?
    requires Decode(op).value !in {Ascii("SEND_MESSAGE"), Ascii("SEND_MESSAGE_ATTACH"), Ascii("SEND_MESS_ACK"),
                                   Ascii("SEND_MESS_ATTACH_ACK"), Ascii("GET_FILE")}
    ensures HeardOver(op + [NUL] + tail, reset) == Ignored
  {
    var b := op + [NUL] + tail;
    TextOfField(op, tail);
    assert b[|op|] == NUL;
    OneMoreArrives(b, reset, 4);
    NamedBack(Decode(op).value);
  }

  /** Strings that start with the message's are heard as the message, or raise. */
  lemma HeardAsContent(m: Msg, f: seq<Bytes>)
    requires |f| == 5 && f[..|StoredFields(m)|] == StoredFields(m)
    ensures HeardFrom(f) == if Readable(m) then Shown(Content(m)) else Raised
  {
    PrintDecodes(m.id);
    var g := StoredFields(m);
    assert f[0] == g[0] && f[1] == g[1] && f[2] == g[2] && f[3] == g[3];
    DecodePlain(f[0]);
    Names();
    assert m.attach ==> f[4] == g[4];
  }

  /** The listener shows exactly the sender, the id, the text and the file of the stored message if each of them can
      be decoded, and raises otherwise. */
  lemma ListenerRecovers(m: Msg, tail: Bytes)
    requires NoNul(m.sender) && NoNul(m.text) && NoNul(m.file)
    ensures HeardIn(Wire(StoredFields(m)) + tail) == if Readable(m) then Shown(Content(m)) else Raised
    ensures IsNumber(Print(m.id)) && Read(Print(m.id)) == m.id
  {
    PrintReads(m.id);
    OperationsNoNul();
    var fields := StoredFields(m);
    var b := Wire(fields) + tail;
    StringsComeBack(fields, tail);
    Prefix4(b);
    HeardAsContent(m, Strings(b, 5));
  }

  /** Store-and-forward is transparent from the request on: whatever script of reads brought the request in, the
      direct frame and the flushed frame are the same bytes, and the recipient's listener shows exactly the fields
      the handler read if they can all be decoded, and raises otherwise. */
  lemma Transparent(ev: seq<ReadEvent>, id: nat, attach: bool)
    requires var r := ReadFields(ev, if attach then 4 else 3, MAX_TEXT);
             r.Gathered? && forall i | 0 <= i < |r.cells| :: r.cells[i].Some?
    ensures var f := ReadFields(ev, if attach then 4 else 3, MAX_TEXT).cells;
            var file := if attach then f[3].value else [];
            var frame := Wire(DirectFields(id, f[0].value, f[2].value, file, attach));
            var m := Msg(id, f[0].value, f[2].value, file, attach);
            && frame == Wire(StoredFields(Compose(id, f[0].value, f[2].value, file, attach)))
            && HeardIn(frame) == if Readable(m) then Shown(Content(m)) else Raised
  {
    var n := if attach then 4 else 3;
    var f := ReadFields(ev, n, MAX_TEXT).cells;
    var file := if attach then f[3].value else [];
    ReadFieldsAreClean(ev, n, MAX_TEXT);
    var m := Compose(id, f[0].value, f[2].value, file, attach);
    SameFrameIff(id, f[0].value, f[2].value, file, attach);
    ListenerRecovers(m, []);
    assert Wire(StoredFields(m)) + [] == Wire(StoredFields(m));
  }

  lemma {:induction false} ReadFieldsAreClean(ev: seq<ReadEvent>, count: nat, max: nat)
    requires ReadFields(ev, count, max).Gathered?
    ensures forall c | c in ReadFields(ev, count, max).cells && c.Some? ::
              |c.value| <= max && Clean(c.value) && NoNul(c.value)
    decreases count
  {
    if count > 0 {
      var s := ScanField(ev);
      ScannedIsClean(ev);
      ReadFieldsAreClean(if s.AtEnd? then [] else s.rest, count - 1, max);
    }
  }

  /** A delivery that the server counts as failed, since only `k` bytes of its frame went out, is nevertheless shown in
      full exactly when the message can be decoded and nothing but NULs of the frame is missing, which for a message
      with text, or with a file, is the last byte alone. Such a message is stored, delivered again, and shown twice. */
  lemma FailedYetShownIff(m: Msg, k: nat)
    requires NoNul(m.sender) && NoNul(m.text) && NoNul(m.file) && k < |Wire(StoredFields(m))|
    ensures var frame := Wire(StoredFields(m));
      && (Readable(m) && HeardIn(frame[..k]) == Shown(Content(m)) <==> Readable(m) && AllNul(frame[k..]))
      && ((if m.attach then m.file else m.text) != [] ==> (AllNul(frame[k..]) <==> k + 1 == |frame|))
  {
    CutStringsIff(m, k);
    if Readable(m) {
      ShownIffItsStrings(m, Strings(Wire(StoredFields(m))[..k], 5));
    }
    if (if m.attach then m.file else m.text) != [] {
      EndsInText(m, k);
    }
  }

  lemma CutStringsIff(m: Msg, k: nat)
    requires NoNul(m.sender) && NoNul(m.text) && NoNul(m.file) && k < |Wire(StoredFields(m))|
    ensures var g, frame := StoredFields(m), Wire(StoredFields(m));
            Strings(frame[..k], 5)[..|g|] == g <==> AllNul(frame[k..])
  {
    PrintReads(m.id);
    OperationsNoNul();
    CutOffStrings(StoredFields(m), k);
    Prefix4(Wire(StoredFields(m))[..k]);
  }

  lemma ShownIffItsStrings(m: Msg, f: seq<Bytes>)
    requires |f| == 5 && Readable(m)
    ensures HeardFrom(f) == Shown(Content(m)) <==> f[..|StoredFields(m)|] == StoredFields(m)
  {
    if f[..|StoredFields(m)|] == StoredFields(m) {
      HeardAsContent(m, f);
    } else if HeardFrom(f) == Shown(Content(m)) {
      OnlyItsStrings(m, f);
    }
  }

  /** Strings that arrive with their NULs are read whatever comes behind them. */
  lemma WholeArrive(fields: seq<Bytes>, tail: Bytes, reset: bool, n: nat)
    requires |fields| <= n && forall i | 0 <= i < |fields| :: NoNul(fields[i])
    ensures forall i | 0 <= i < |fields| :: Arrived(Wire(fields) + tail, reset, n)[i] == Decode(fields[i])
  {
    forall i | 0 <= i < |fields| ensures Arrived(Wire(fields) + tail, reset, n)[i] == Decode(fields[i]) {
      OneArrives(fields, tail, reset, n, i);
    }
  }

  lemma {:induction false} OneArrives(fields: seq<Bytes>, tail: Bytes, reset: bool, n: nat, i: nat)
    requires i < |fields| <= n && forall j | 0 <= j < |fields| :: NoNul(fields[j])
    ensures Arrived(Wire(fields) + tail, reset, n)[i] == Decode(fields[i])
    decreases i
  {
    var rest := Wire(fields[1..]) + tail;
    assert Wire(fields) + tail == fields[0] + [NUL] + rest;
    TextOfField(fields[0], rest);
    OneMoreArrives(fields[0] + [NUL] + rest, reset, n - 1);
    if i > 0 {
      OneArrives(fields[1..], tail, reset, n - 1, i - 1);
    }
  }

  /** Of strings cut off by a reset the first that is not whole raises. */
  lemma {:induction false} CutArrives(fields: seq<Bytes>, k: nat, n: nat) returns (i: nat)
    requires k < |Wire(fields)| && |fields| <= n && forall i | 0 <= i < |fields| :: NoNul(fields[i])
    ensures var r := Arrived(Wire(fields)[..k], true, n);
            i < |fields| && r[i].None? && forall j | 0 <= j < i :: r[j] == Decode(fields[j])
    decreases |fields|
  {
    var first, others := fields[0], fields[1..];
    if k <= |first| {
      i := 0;
      assert Wire(fields)[..k] == first[..k];
    } else {
      var j := k - |first| - 1;
      var rest := Wire(others)[..j];
      assert Wire(fields)[..k] == first + [NUL] + rest;
      TextOfField(first, rest);
      i := CutArrives(others, j, n - 1);
      i := i + 1;
      assert forall j | 0 < j < |fields| :: fields[j] == others[j - 1];
    }
  }

  /** After a reset a message is shown exactly if its whole frame came before it, last NUL and all, and can be decoded;
      otherwise the reset, or the decoding, raises. */
  lemma ResetShownIff(m: Msg, k: nat)
    requires NoNul(m.sender) && NoNul(m.text) && NoNul(m.file) && k <= |Wire(StoredFields(m))|
    ensures var frame := Wire(StoredFields(m));
            HeardOver(frame[..k], true) == if Readable(m) && k == |frame| then Shown(Content(m)) else Raised
  {
    var fields, frame := StoredFields(m), Wire(StoredFields(m));
    OperationsNoNul();
    PrintDecodes(m.id);
    if k == |frame| {
      WholeArrive(fields, [], true, 5);
      HeardWithFields(m, Arrived(frame + [], true, 5));
      assert frame[..k] == frame + [];
    } else {
      var i := CutArrives(fields, k, 5);
      RaisesAt(m, Arrived(frame[..k], true, 5), i);
    }
  }

  lemma HeardWithFields(m: Msg, f: seq<Option<Str>>)
    requires |f| == 5 && forall i | 0 <= i < |StoredFields(m)| :: f[i] == Decode(StoredFields(m)[i])
    ensures HeardWith(f) == if Readable(m) then Shown(Content(m)) else Raised
  {
    var g := StoredFields(m);
    PrintDecodes(m.id);
    DecodePlain(g[0]);
    Names();
    assert f[0] == Decode(g[0]) && f[1] == Decode(g[1]) && f[2] == Decode(g[2]) && f[3] == Decode(g[3]);
    assert m.attach ==> f[4] == Decode(g[4]);
  }

  /** How a message's operation is read. */
  lemma OperationOf(m: Msg)
    ensures var op := StoredFields(m)[0];
            Decode(op) == Some(op) && OperationNamed(op) == if m.attach then SendWithFileOp else SendMessageOp
  {
    DecodePlain(StoredFields(m)[0]);
    Names();
  }

  lemma RaisesAt(m: Msg, f: seq<Option<Str>>, i: nat)
    requires |f| == 5 && i < |StoredFields(m)| && f[i].None?
    requires forall j | 0 <= j < i :: f[j] == Decode(StoredFields(m)[j])
    ensures HeardWith(f) == Raised
  {
    if i > 0 {
      OperationOf(m);
      assert f[0] == Decode(StoredFields(m)[0]);
      MissingRaises(m.attach, f, i);
    }
  }

  lemma MissingRaises(attach: bool, f: seq<Option<Str>>, i: nat)
    requires |f| == 5 && 1 <= i < (if attach then 5 else 4) && f[i].None?
    ensures HeardAs(if attach then SendWithFileOp else SendMessageOp, f[1], f[2], f[3], f[4]) == Raised
  {
    assert i == 1 || i == 2 || i == 3 || i == 4;
  }

  /** Only the message's own strings are heard as the message. */
  lemma OnlyItsStrings(m: Msg, f: seq<Bytes>)
    requires |f| == 5 && Readable(m) && HeardFrom(f) == Shown(Content(m))
    ensures f[..|StoredFields(m)|] == StoredFields(m)
  {
    var g := StoredFields(m);
    PrintDecodes(m.id);
    DecodePlain(g[0]);
    Inverted(m, OperationNamed(Decode(f[0]).value), Decode(f[1]), Decode(f[2]), Decode(f[3]), Decode(f[4]));
    NamedBack(Decode(f[0]).value);
    forall i | 0 <= i < |g| ensures Decode(f[i]).Some? && Decode(f[i]) == Decode(g[i]) {
      if i == 0 {
        assert Decode(f[0]) == Some(g[0]);
      } else {
        assert i == 1 || i == 2 || i == 3 || i == 4;
      }
    }
    SameStrings(f, g);
  }

  lemma Inverted(m: Msg, op: Opcode, a: Option<Str>, b: Option<Str>, c: Option<Str>, d: Option<Str>)
    requires Readable(m) && HeardAs(op, a, b, c, d) == Shown(Content(m))
    ensures op == if m.attach then SendWithFileOp else SendMessageOp
    ensures a == Decode(m.sender) && b == Some(Print(m.id)) && c == Decode(m.text) && (m.attach ==> d == Decode(m.file))
  {
  }

  lemma SameStrings(f: seq<Bytes>, g: seq<Bytes>)
    requires |g| <= |f| && forall i | 0 <= i < |g| :: Decode(f[i]).Some? && Decode(f[i]) == Decode(g[i])
    ensures f[..|g|] == g
  {
    forall i | 0 <= i < |g| ensures f[i] == g[i] {
      SameText(f[i], g[i]);
    }
  }

  lemma SameText(a: Bytes, b: Bytes)
    ensures Decode(a).Some? && Decode(a) == Decode(b) ==> a == b
  {
    if Decode(a).Some? {
      DecodeIff(a, Decode(a).value);
      DecodeIff(b, Decode(a).value);
    }
  }

  lemma EndsInText(m: Msg, k: nat)
    requires NoNul(m.text) && NoNul(m.file) && k < |Wire(StoredFields(m))|
    requires (if m.attach then m.file else m.text) != []
    ensures AllNul(Wire(StoredFields(m))[k..]) <==> k + 1 == |Wire(StoredFields(m))|
  {
    LastButOne(StoredFields(m));
    var frame := Wire(StoredFields(m));
    if k + 1 < |frame| {
      assert frame[k..][|frame| - 2 - k] == frame[|frame| - 2];
    }
    assert frame[k..][|frame| - 1 - k] == frame[|frame| - 1];
  }

  /** A frame ends with the last byte of its last string and a NUL. */
  lemma {:induction false} LastButOne(fields: seq<Bytes>)
    requires fields != [] && fields[|fields| - 1] != [] && NoNul(fields[|fields| - 1])
    ensures var w := Wire(fields); |w| >= 2 && w[|w| - 2] != NUL && w[|w| - 1] == NUL
    decreases |fields|
  {
    if |fields| == 1 {
      assert fields[1..] == [] && Wire(fields) == fields[0] + [NUL];
    } else {
      LastButOne(fields[1..]);
    }
  }

  /** The sender's listener recognises an acknowledgement as one for the id, and for the file if there is one, unless
      the file name cannot be decoded. */
  lemma AckRecovers(id: nat, file: Bytes, attach: bool)
    requires NoNul(file)
    ensures HeardIn(Wire(AckFields(id, file, attach))) ==
            if !attach then Shown(Ack(Print(id)))
            else if Decode(file).Some? then Shown(AckWithFile(Print(id), Decode(file).value)) else Raised
  {
    PrintDecodes(id);
    OperationsNoNul();
    DecodePlain(AckFields(id, file, attach)[0]);
    Names();
    var fields := AckFields(id, file, attach);
    var b := Wire(fields) + [];
    assert b == Wire(fields);
    StringsComeBack(fields, []);
    StringsInTurn(b);
    LastTwo(b);
    LastThree(b);
  }

  // ---- Sending.

  /** Delivers a message to a listener, giving up at the first string that is refused. What went to the peer is a
      beginning of the frame: all of it exactly when the delivery counts as done, and exactly when no write of it was
      refused. */
  method Deliver(sink: Sink, up: bool, id: nat, sender: Bytes, text: Bytes, file: Bytes, attach: bool)
    returns (ok: bool)
    modifies sink
    ensures var fields := DirectFields(id, sender, text, file, attach);
            var out := if up then SentUntil(old(sink.plan), fields) else [];
      && sink.sent == old(sink.sent) + out && out <= Wire(fields)
      && (ok <==> out == Wire(fields)) && (ok <==> up && !RefusedIn(old(sink.plan), fields))
  {
    ok := false;
    ghost var fields := DirectFields(id, sender, text, file, attach);
    ghost var all, refused := sink.sent + SentUntil(sink.plan, fields), RefusedIn(sink.plan, fields);
    SentUntilIs(sink.plan, fields);
    assert sink.sent + [] == sink.sent && |Wire(fields)| > 0;
    if up {
      FieldParts(id, sender, text, file, attach);
      ghost var fileEnd := if attach then [file] else [];
      ok := SendString(sink, Ascii(if attach then "SEND_MESSAGE_ATTACH" else "SEND_MESSAGE"), all, refused,
                       [sender] + ([Print(id)] + ([text] + fileEnd)));
      if ok {
        ok := SendString(sink, sender, all, refused, [Print(id)] + ([text] + fileEnd));
      }
      if ok {
        ok := SendString(sink, Print(id), all, refused, [text] + fileEnd);
      }
      if ok {
        ok := SendString(sink, text, all, refused, fileEnd);
      }
      if ok && attach {
        assert fileEnd == [file] + [];
        ok := SendString(sink, file, all, refused, []);
      }
    }
  }

  lemma FieldParts(id: nat, sender: Bytes, text: Bytes, file: Bytes, attach: bool)
    ensures DirectFields(id, sender, text, file, attach) ==
            [Ascii(if attach then "SEND_MESSAGE_ATTACH" else "SEND_MESSAGE")] +
            ([sender] + ([Print(id)] + ([text] + if attach then [file] else [])))
  {
  }

  /** The messages of an acknowledgement, one write loop each. */
  function AckPieces(id: nat, file: Bytes, attach: bool): seq<Bytes> {
    var pieces := [Ascii(if attach then "SEND_MESS_ATTACH_ACK" else "SEND_MESS_ACK") + [NUL], Print(id) + [NUL]];
    if attach then pieces + [file + [NUL]] else pieces
  }

  lemma AckParts(id: nat, file: Bytes, attach: bool)
    ensures Joined(AckPieces(id, file, attach)) == Wire(AckFields(id, file, attach))
  {
    JoinedIsWire(AckFields(id, file, attach), AckPieces(id, file, attach));
  }

  /** Pieces that are strings with their NULs make the wire form of the strings. */
  lemma {:induction false} JoinedIsWire(fields: seq<Bytes>, pieces: seq<Bytes>)
    requires |pieces| == |fields| && forall i | 0 <= i < |fields| :: pieces[i] == fields[i] + [NUL]
    ensures Joined(pieces) == Wire(fields)
    decreases |fields|
  {
    if fields != [] {
      JoinedIsWire(fields[1..], pieces[1..]);
    }
  }

  /** Acknowledges a message to its sender. No failure is noticed: after a refused write the next string is tried. */
  method SendAck(sink: Sink, up: bool, id: nat, file: Bytes, attach: bool,
                 ghost plan0: seq<WriteEvent>, ghost sent0: Bytes, ghost before: seq<Bytes>)
    requires Went(sink, plan0, sent0, before)
    modifies sink
    ensures Went(sink, plan0, sent0, before + if up then AckPieces(id, file, attach) else [])
  {
    assert before + [] == before;
    if up {
      var op := Ascii(if attach then "SEND_MESS_ATTACH_ACK" else "SEND_MESS_ACK");
      SendOn(sink, op + [NUL], plan0, sent0, before);
      SendOn(sink, Print(id) + [NUL], plan0, sent0, before + [op + [NUL]]);
      assert before + [op + [NUL]] + [Print(id) + [NUL]] == before + [op + [NUL], Print(id) + [NUL]];
      if attach {
        SendOn(sink, file + [NUL], plan0, sent0, before + [op + [NUL], Print(id) + [NUL]]);
        assert before + [op + [NUL], Print(id) + [NUL]] + [file + [NUL]] == before + AckPieces(id, file, attach);
      }
    }
  }

  /** Over a connection without refused writes the acknowledgement arrives whole. */
  lemma AckArrives(plan: seq<WriteEvent>, id: nat, file: Bytes, attach: bool)
    requires AllTook(plan)
    ensures Outgoing(plan, AckPieces(id, file, attach)) == Wire(AckFields(id, file, attach))
  {
    OutgoingAll(plan, AckPieces(id, file, attach));
    AckParts(id, file, attach);
  }

  // ---- The answer to a send.

  /** A refusal is its code; otherwise the code 0 and the id. */
  function SendAnswer(code: Byte, id: nat): seq<Bytes> {
    if code == 0 then [[0], Print(id) + [NUL]] else [[code]]
  }

  /** What the sender's client makes of it: the id it shows, a refusal, a failure, or an exception. */
  datatype Told = Told(id: Str) | UserUnknown | SendFailed | Undecodable

  function AnswerIn(b: Bytes, reset: bool): Told {
    if b == [] then SendFailed
    else if b[0] == 1 then UserUnknown
    else if b[0] != 0 then SendFailed
    else if reset && NUL !in b[1..] then SendFailed
    else match Decode(Text(b[1..])) case None => Undecodable case Some(id) => Told(id)
  }

  method ReadAnswer(c: Connection) returns (told: Told)
    modifies c
    ensures told == AnswerIn(old(c.Payload()), c.reset)
  {
    ghost var b := c.Payload();
    var res, raised := c.Receive(1);
    if raised || res == [] {
      return SendFailed;
    }
    assert res == [b[0]] && c.Payload() == b[1..];
    if res[0] == 0 {
      var id;
      id, raised := ReadString(c);
      told := if raised then SendFailed else if id.None? then Undecodable else Told(id.value);
    } else {
      told := if res[0] == 1 then UserUnknown else SendFailed;
    }
  }

  lemma JoinedTwo(a: Bytes, b: Bytes)
    ensures Joined([a, b]) == a + b
  {
    var last: seq<Bytes> := [b];
    assert [a, b][1..] == last && last[1..] == [];
    assert Joined(last) == b + [];
  }

  /** The sender is told the id if the whole answer arrives, or all but the last NUL before a close. A close before that
      makes it take a shorter number for the id, and a reset makes it report a failure. */
  lemma CutAnswerIff(id: nat, k: nat, reset: bool)
    requires k <= |Joined(SendAnswer(0, id))|
    ensures var all := Joined(SendAnswer(0, id));
      && |all| == |Print(id)| + 2
      && AnswerIn(all[..k], reset) ==
         if k == |all| then Told(Print(id))
         else if k == 0 || reset then SendFailed
         else Told(Print(id)[..k - 1])
  {
    var text := Print(id);
    var all := [0] + (text + [NUL]);
    PrintDecodes(id);
    JoinedTwo([0], text + [NUL]);
    if k == |all| {
      assert all[..k] == all && all[1..] == text + [NUL] + [];
      TextOfField(text, []);
    } else if k > 0 {
      var part := text[..k - 1];
      assert all[..k] == [0] + part && all[..k][1..] == part;
      TextOfField(part, []);
      PrintReads(id);
      DecodePlain(part);
    }
  }
}
