/** The byte path under every message: bounded field reads, full writes over partial ones, and the
    framing by NUL that keeps an over-long field from shifting the next.
  */
module Framing {
  import opened Basics

  // ---- Reading.

  /** What one call of read for a single byte can do; the end of the script is the end of the stream. */
  datatype ReadEvent = Got(b: Byte) | Interrupted | Failed

  class Source {
    var events: seq<ReadEvent>

    constructor (events: seq<ReadEvent>)
      ensures this.events == events
    {
      this.events := events;
    }

    /** One byte, or 0 at the end of the stream, or -1 with errno EINTR or not. */
    method Read() returns (r: int, b: Byte, interrupted: bool)
      modifies this
      ensures events == if old(events) == [] then [] else old(events)[1..]
      ensures old(events) == [] ==> r == 0
      ensures old(events) != [] ==>
                match old(events)[0]
                case Got(x) => r == 1 && b == x
                case Interrupted => r == -1 && interrupted
                case Failed => r == -1 && !interrupted
    {
      r, b, interrupted := 0, 0, false;
      if events != [] {
        match events[0] {
          case Got(x) => r, b := 1, x;
          case Interrupted => r, interrupted := -1, true;
          case Failed => r := -1;
        }
        events := events[1..];
      }
    }
  }

  predicate Terminator(b: Byte) {
    b == LF || b == NUL
  }

  /** A field as the stream has it: up to its terminator, up to the end, or cut off by an error. */
  datatype Scan = Terminated(field: Bytes, rest: seq<ReadEvent>) | AtEnd(field: Bytes) | Broken(rest: seq<ReadEvent>)

  function ScanField(ev: seq<ReadEvent>): Scan {
    if ev == [] then AtEnd([])
    else
      match ev[0]
      case Interrupted => ScanField(ev[1..])
      case Failed => Broken(ev[1..])
      case Got(b) => if Terminator(b) then Terminated([], ev[1..]) else Behind([b], ScanField(ev[1..]))
  }

  /** The scan with bytes already read put in front. */
  function Behind(got: Bytes, s: Scan): Scan {
    match s
    case Terminated(f, rest) => Terminated(got + f, rest)
    case AtEnd(f) => AtEnd(got + f)
    case Broken(rest) => Broken(rest)
  }

  lemma BehindTwice(a: Bytes, b: Bytes, s: Scan)
    ensures Behind(a, Behind(b, s)) == Behind(a + b, s)
  {
    if !s.Broken? {
      assert a + (b + s.field) == (a + b) + s.field;
    }
  }

  lemma BehindNothing(s: Scan)
    ensures Behind([], s) == s
  {
    if !s.Broken? {
      assert [] + s.field == s.field;
    }
  }

  /** Reads one field into a buffer of n bytes. The field is cut to n - 1 bytes and closed with a NUL,
      but the stream is always consumed through the field's terminator. At the end of the stream with
      nothing stored the result is 0 and the buffer is not written. */
  method ReadLine(src: Source, buffer: array<Byte>, n: nat) returns (r: int)
    requires n <= buffer.Length
    modifies src, buffer
    ensures buffer[n..] == old(buffer[n..])
    ensures n == 0 ==> r == -1 && src.events == old(src.events) && buffer[..] == old(buffer[..])
    ensures n > 0 ==>
              match ScanField(old(src.events))
              case Terminated(field, rest) => src.events == rest && Stored(buffer, Cut(field, n - 1), r)
              case AtEnd(field) => src.events == []
                && if Cut(field, n - 1) == [] then r == 0 && buffer[..] == old(buffer[..])
                   else Stored(buffer, Cut(field, n - 1), r)
              case Broken(rest) => src.events == rest && r == -1
  {
    if n == 0 {
      return -1;
    }
    var total := 0;
    ghost var got: Bytes := [];
    BehindNothing(ScanField(src.events));
    while true
      invariant got + [] == got
      invariant total == Min(|got|, n - 1) && buffer[..total] == got[..total]
      invariant buffer[n..] == old(buffer[n..]) && (total == 0 ==> buffer[..] == old(buffer[..]))
      invariant ScanField(old(src.events)) == Behind(got, ScanField(src.events))
      decreases |src.events|
    {
      var k, ch, interrupted := src.Read();
      if k == -1 {
        if !interrupted {
          return -1;
        }
      } else if k == 0 {
        if total == 0 {
          return 0;
        }
        break;
      } else {
        if ch == LF || ch == NUL {
          break;
        }
        ghost var more := got + [ch];
        BehindTwice(got, [ch], ScanField(src.events));
        if total < n - 1 {
          buffer[total] := ch;
          total := total + 1;
        }
        got := more;
      }
    }
    buffer[total] := NUL;
    r := total;
  }

  /** The buffer holds the string and its NUL, and r is the string's length. */
  ghost predicate Stored(buffer: array<Byte>, s: Bytes, r: int)
    reads buffer
  {
    r == |s| < buffer.Length && buffer[..|s|] == s && buffer[|s|] == NUL
  }

  // ---- What a field may hold, and what is always read back.

  /** No byte of the field ends a field. */
  predicate Clean(f: Bytes) {
    forall i | 0 <= i < |f| :: !Terminator(f[i])
  }

  /** Whatever the reader takes for a field has no LF and no NUL inside. */
  lemma {:induction false} ScannedIsClean(ev: seq<ReadEvent>)
    ensures var s := ScanField(ev); s.Broken? || Clean(s.field)
  {
    if ev != [] && !ev[0].Failed? && !(ev[0].Got? && Terminator(ev[0].b)) {
      ScannedIsClean(ev[1..]);
    }
  }

  /** The bytes a script delivers. */
  function Carried(ev: seq<ReadEvent>): Bytes {
    if ev == [] then []
    else (if ev[0].Got? then [ev[0].b] else []) + Carried(ev[1..])
  }

  /** Reads may be interrupted but never fail. */
  predicate Calm(ev: seq<ReadEvent>) {
    forall i | 0 <= i < |ev| :: !ev[i].Failed?
  }

  /** Fields as every side of the protocol writes them. */
  function Wire(fields: seq<Bytes>): Bytes {
    if fields == [] then [] else fields[0] + [NUL] + Wire(fields[1..])
  }

  /** One field is scanned in full, and the stream is left right behind its NUL. */
  lemma {:induction false} ScanOne(ev: seq<ReadEvent>, f: Bytes, tail: Bytes)
    requires Calm(ev) && Clean(f) && Carried(ev) == f + [NUL] + tail
    ensures ScanField(ev).Terminated? && ScanField(ev).field == f
    ensures Calm(ScanField(ev).rest) && Carried(ScanField(ev).rest) == tail
    decreases |ev|
  {
    assert (f + [NUL] + tail)[|f|] == NUL;
    var rest := ev[1..];
    if ev[0].Got? {
      assert ev[0].b == Carried(ev)[0] && Carried(rest) == Carried(ev)[1..];
      if f == [] {
        assert Carried(rest) == tail;
      } else {
        assert Carried(rest) == f[1..] + [NUL] + tail;
        ScanOne(rest, f[1..], tail);
        assert [f[0]] + f[1..] == f;
      }
    } else {
      assert Carried(rest) == Carried(ev);
      ScanOne(rest, f, tail);
    }
  }

  lemma CleanRest(a: Bytes, b: Bytes)
    ensures Clean(a + b) ==> Clean(b)
  {
    assert forall i | 0 <= i < |b| :: (a + b)[|a| + i] == b[i];
  }

  /** A stream that ends without a terminator is one last field, and one that breaks has none. */
  lemma {:induction false} ScanLast(ev: seq<ReadEvent>, more: seq<ReadEvent>)
    requires Calm(ev) && Clean(Carried(ev))
    ensures ScanField(ev) == AtEnd(Carried(ev))
    ensures ScanField(ev + [Failed] + more) == Broken(more)
  {
    var all := ev + [Failed] + more;
    if ev == [] {
      assert all[0] == Failed && all[1..] == more;
    } else {
      assert all[0] == ev[0] && all[1..] == ev[1..] + [Failed] + more;
      if ev[0].Got? {
        assert Carried(ev)[0] == ev[0].b;
        CleanRest([ev[0].b], Carried(ev[1..]));
      } else {
        assert Carried(ev) == Carried(ev[1..]);
      }
      ScanLast(ev[1..], more);
    }
  }

  /** What several reads leave in their buffers; None is a buffer that was not written, as at the end of the stream. */
  datatype Fields = Gathered(cells: seq<Option<Bytes>>, rest: seq<ReadEvent>) | Unreadable

  function ReadFields(ev: seq<ReadEvent>, count: nat, max: nat): (r: Fields)
    ensures r.Gathered? ==> |r.cells| == count
    decreases count
  {
    if count == 0 then Gathered([], ev)
    else
      match ScanField(ev)
      case Terminated(f, rest) => Ahead(Some(Cut(f, max)), ReadFields(rest, count - 1, max))
      case AtEnd(f) => Ahead(if Cut(f, max) == [] then None else Some(Cut(f, max)), ReadFields([], count - 1, max))
      case Broken(_) => Unreadable
  }

  /** A buffer filled before the others. */
  function Ahead(cell: Option<Bytes>, others: Fields): Fields {
    if others.Gathered? then Gathered([cell] + others.cells, others.rest) else Unreadable
  }

  /** The cells of buffers that were all written. */
  function AllSome(fields: seq<Bytes>): (r: seq<Option<Bytes>>)
    ensures |r| == |fields| && forall i | 0 <= i < |fields| :: r[i] == Some(fields[i])
  {
    seq(|fields|, i requires 0 <= i < |fields| => Some(fields[i]))
  }

  function CutAll(fields: seq<Bytes>, max: nat): seq<Bytes> {
    if fields == [] then [] else [Cut(fields[0], max)] + CutAll(fields[1..], max)
  }

  lemma AllSomeCut(fields: seq<Bytes>, max: nat)
    requires fields != []
    ensures AllSome(CutAll(fields, max)) == [Some(Cut(fields[0], max))] + AllSome(CutAll(fields[1..], max))
  {
  }

  function Unwritten(count: nat): (r: seq<Option<Bytes>>)
    ensures |r| == count && forall i | 0 <= i < count :: r[i] == None
  {
    seq(count, _ => None)
  }

  /** At the end of the stream no buffer is written but for the bytes that are left, and those count as a field. */
  lemma {:induction false} LastFields(ev: seq<ReadEvent>, count: nat, max: nat)
    requires Calm(ev) && Clean(Carried(ev)) && count > 0
    ensures var last := Cut(Carried(ev), max);
            ReadFields(ev, count, max) ==
            Gathered([if last == [] then None else Some(last)] + Unwritten(count - 1), [])
    decreases count
  {
    ScanLast(ev, []);
    if count == 1 {
      assert Unwritten(0) == [];
    } else {
      LastFields([], count - 1, max);
      assert [None] + Unwritten(count - 2) == Unwritten(count - 1);
    }
  }

  /** Framing keeps its place: however long the fields and however the reads are interrupted, each field comes
      back cut to `max` bytes, none shifts into the next, and what follows the last one is untouched. */
  lemma {:induction false} FieldsComeBack(ev: seq<ReadEvent>, fields: seq<Bytes>, tail: Bytes, max: nat)
    requires Calm(ev) && Carried(ev) == Wire(fields) + tail
    requires forall i | 0 <= i < |fields| :: Clean(fields[i])
    ensures var r := ReadFields(ev, |fields|, max);
            r.Gathered? && r.cells == AllSome(CutAll(fields, max)) && Calm(r.rest) && Carried(r.rest) == tail
    decreases |fields|
  {
    if fields == [] {
      assert Wire(fields) + tail == tail;
    } else {
      var more := Wire(fields[1..]) + tail;
      assert Wire(fields) + tail == fields[0] + [NUL] + more;
      ScanOne(ev, fields[0], more);
      FieldsComeBack(ScanField(ev).rest, fields[1..], tail, max);
      AllSomeCut(fields, max);
    }
  }

  /** A field that is not clean does shift the rest: an LF inside ends it early and its remainder is taken for the
      next. */
  lemma {:induction false} LineFeedSplits(ev: seq<ReadEvent>, a: Bytes, b: Bytes, tail: Bytes)
    requires Calm(ev) && Clean(a) && Clean(b) && Carried(ev) == a + [LF] + b + [NUL] + tail
    ensures ScanField(ev).Terminated? && ScanField(ev).field == a
    ensures Carried(ScanField(ev).rest) == b + [NUL] + tail
    decreases |ev|
  {
    assert (a + [LF] + b + [NUL] + tail)[|a|] == LF;
    var rest := ev[1..];
    if ev[0].Got? {
      assert ev[0].b == Carried(ev)[0] && Carried(rest) == Carried(ev)[1..];
      if a == [] {
        assert Carried(rest) == b + [NUL] + tail;
      } else {
        assert Carried(rest) == a[1..] + [LF] + b + [NUL] + tail;
        LineFeedSplits(rest, a[1..], b, tail);
        assert [a[0]] + a[1..] == a;
      }
    } else {
      assert Carried(rest) == Carried(ev);
      LineFeedSplits(rest, a, b, tail);
    }
  }

  /** The buffer holds the field that was read into it, or what it held before if none was. */
  ghost predicate CellHolds(buffer: array<Byte>, before: seq<Byte>, cell: Option<Bytes>)
    reads buffer
  {
    if cell.Some? then Stored(buffer, cell.value, |cell.value|) else buffer[..] == before
  }

  /** The fields of a SEND or SENDATTACH request, read into the handler's buffers. A stream that ends early is not an
      error to the reader: the buffers it did not get to keep what they held. */
  method ReadSendRequest(src: Source, sender: array<Byte>, dest: array<Byte>, text: array<Byte>, file: array<Byte>,
                         attach: bool)
    returns (ok: bool)
    requires sender.Length == dest.Length == text.Length == file.Length == 256
    requires sender != dest && sender != text && sender != file && dest != text && dest != file && text != file
    modifies src, sender, dest, text, file
    ensures var all := ReadFields(old(src.events), if attach then 4 else 3, 255);
      && (ok <==> all.Gathered?)
      && (ok ==> && src.events == all.rest && CellHolds(sender, old(sender[..]), all.cells[0])
                 && CellHolds(dest, old(dest[..]), all.cells[1]) && CellHolds(text, old(text[..]), all.cells[2])
                 && CellHolds(file, old(file[..]), if attach then all.cells[3] else None))
  {
    ghost var n := if attach then 4 else 3;
    ok := ReadCell(src, sender, n);
    if ok {
      ok := ReadCell(src, dest, n - 1);
    }
    if ok {
      ok := ReadCell(src, text, n - 2);
    }
    if ok && attach {
      ok := ReadCell(src, file, 1);
    }
  }

  /** Reads one of `n` fields still to come. */
  method ReadCell(src: Source, buffer: array<Byte>, ghost n: nat) returns (ok: bool)
    requires n > 0 && buffer.Length == 256
    modifies src, buffer
    ensures var all := ReadFields(old(src.events), n, 255);
      if ok then exists cell :: CellHolds(buffer, old(buffer[..]), cell) &&
                        all == Ahead(cell, ReadFields(src.events, n - 1, 255))
      else all.Unreadable?
  {
    var r := ReadLine(src, buffer, 256);
    ok := r >= 0;
    if ok {
      ghost var s := ScanField(old(src.events));
      ghost var cell := if s.AtEnd? && Cut(s.field, 255) == [] then None else Some(Cut(s.field, 255));
      assert CellHolds(buffer, old(buffer[..]), cell);
    }
  }

  // ---- Writing.

  /** What one call of write can do: take some of the bytes offered, or fail. */
  datatype WriteEvent = Took(k: nat) | Refused

  class Sink {
    var sent: Bytes
    var plan: seq<WriteEvent>   // when it is used up, writes take everything

    constructor (plan: seq<WriteEvent>)
      ensures sent == [] && this.plan == plan
    {
      sent, this.plan := [], plan;
    }

    method Write(data: Bytes) returns (r: int)
      modifies this
      ensures old(plan) == [] ==> r == |data| && plan == []
      ensures old(plan) != [] ==> plan == old(plan)[1..]
      ensures old(plan) != [] ==>
                match old(plan)[0]
                case Took(k) => r == Min(k, |data|)
                case Refused => r == -1
      ensures sent == old(sent) + if r < 0 then [] else data[..r]
    {
      if plan == [] {
        r := |data|;
      } else {
        match plan[0] {
          case Took(k) => r := Min(k, |data|);
          case Refused => r := -1;
        }
        plan := plan[1..];
      }
      if r >= 0 {
        sent := sent + data[..r];
      }
    }
  }

  /** How many of `len` bytes a plan of writes takes before all are taken or one write is refused. */
  function Taken(plan: seq<WriteEvent>, len: nat): (t: nat)
    ensures t <= len
  {
    if plan == [] then len
    else
      match plan[0]
      case Refused => 0
      case Took(k) => if k >= len then len else k + Taken(plan[1..], len - k)
  }

  /** Some write of the plan is refused while bytes are still left. */
  predicate CutShort(plan: seq<WriteEvent>, len: nat) {
    plan != [] && (plan[0].Refused? || (plan[0].k < len && CutShort(plan[1..], len - plan[0].k)))
  }

  /** What is left of the plan then. */
  function Later(plan: seq<WriteEvent>, len: nat): seq<WriteEvent> {
    if plan == [] then []
    else if plan[0].Refused? || plan[0].k >= len then plan[1..]
    else Later(plan[1..], len - plan[0].k)
  }

  /** The bytes are all taken exactly when no write is refused first. */
  lemma {:induction false} AllTakenIff(plan: seq<WriteEvent>, len: nat)
    requires len > 0
    ensures Taken(plan, len) == len <==> !CutShort(plan, len)
  {
    if plan != [] && plan[0].Took? && plan[0].k < len {
      AllTakenIff(plan[1..], len - plan[0].k);
    }
  }

  ghost predicate AllTook(plan: seq<WriteEvent>) {
    forall e | e in plan :: e.Took?
  }

  /** Partial writes alone never stop a message from going out. */
  lemma {:induction false} PartialWritesFinish(plan: seq<WriteEvent>, len: nat)
    requires AllTook(plan)
    ensures !CutShort(plan, len) && Taken(plan, len) == len && AllTook(Later(plan, len))
  {
    if plan != [] && plan[0].k < len {
      PartialWritesFinish(plan[1..], len - plan[0].k);
    }
  }

  lemma PieceOnPiece(base: Bytes, data: Bytes, o: nat, k: nat)
    requires o + k <= |data|
    ensures base + data[..o] + data[o..][..k] == base + data[..o + k]
  {
  }

  /** The rest of a message is sent as a message of its own would be. */
  predicate SameFate(plan0: seq<WriteEvent>, len: nat, plan: seq<WriteEvent>, left: nat) {
    && left <= len && CutShort(plan0, len) == CutShort(plan, left)
    && Taken(plan0, len) == len - left + Taken(plan, left) && Later(plan0, len) == Later(plan, left)
  }

  /** Writes until everything is out or a write fails. Any split into partial writes sends the data in full and
      in order; a refused write leaves a proper prefix on the wire. */
  method SendMessage(sink: Sink, data: Bytes) returns (r: int)
    modifies sink
    ensures r == if CutShort(old(sink.plan), |data|) then -1 else 0
    ensures sink.sent == old(sink.sent) + data[..Taken(old(sink.plan), |data|)]
    ensures sink.plan == Later(old(sink.plan), |data|)
    ensures data != [] ==> (r == 0 <==> sink.sent == old(sink.sent) + data)
  {
    if data != [] {
      AllTakenIff(sink.plan, |data|);
    }
    ghost var plan0, sent0 := sink.plan, sink.sent;
    var l := |data|;
    var k := sink.Write(data);
    l := l - k;
    ghost var o := if k < 0 then 0 else k;
    while l > 0 && k >= 0
      invariant 0 <= o <= |data| && (k >= 0 ==> o + l == |data|) && (k < 0 ==> k == -1)
      invariant sink.sent == sent0 + data[..o]
      invariant k >= 0 && l > 0 ==> SameFate(plan0, |data|, sink.plan, l)
      invariant k >= 0 && l == 0 ==> !CutShort(plan0, |data|) && Taken(plan0, |data|) == |data|
      invariant k < 0 ==> CutShort(plan0, |data|) && Taken(plan0, |data|) == o
      invariant k < 0 || l == 0 ==> sink.plan == Later(plan0, |data|)
      decreases if k < 0 then 0 else 1, l, |sink.plan|
    {
      k := sink.Write(data[|data| - l..]);
      l := l - k;
      if k >= 0 {
        PieceOnPiece(sent0, data, o, k);
        o := o + k;
      }
    }
    r := if k < 0 then -1 else 0;
  }

  // ---- Several messages on one connection, whether or not one fails.

  /** What goes out of several messages sent one after the other. */
  function Outgoing(plan: seq<WriteEvent>, pieces: seq<Bytes>): Bytes
    decreases |pieces|
  {
    if pieces == [] then []
    else pieces[0][..Taken(plan, |pieces[0]|)] + Outgoing(Later(plan, |pieces[0]|), pieces[1..])
  }

  /** What is left of the plan then. */
  function LaterAll(plan: seq<WriteEvent>, pieces: seq<Bytes>): seq<WriteEvent>
    decreases |pieces|
  {
    if pieces == [] then plan else LaterAll(Later(plan, |pieces[0]|), pieces[1..])
  }

  function Joined(pieces: seq<Bytes>): Bytes {
    if pieces == [] then [] else pieces[0] + Joined(pieces[1..])
  }

  lemma {:induction false} OutgoingParts(plan: seq<WriteEvent>, a: seq<Bytes>, b: seq<Bytes>)
    ensures Outgoing(plan, a + b) == Outgoing(plan, a) + Outgoing(LaterAll(plan, a), b)
    ensures LaterAll(plan, a + b) == LaterAll(LaterAll(plan, a), b)
    decreases |a|
  {
    if a == [] {
      assert a + b == b;
    } else {
      var plan' := Later(plan, |a[0]|);
      OutgoingParts(plan', a[1..], b);
      assert (a + b)[1..] == a[1..] + b;
      var out := a[0][..Taken(plan, |a[0]|)];
      assert out + (Outgoing(plan', a[1..]) + Outgoing(LaterAll(plan, a), b))
          == (out + Outgoing(plan', a[1..])) + Outgoing(LaterAll(plan, a), b);
    }
  }

  /** Without a refused write everything goes out. */
  lemma {:induction false} OutgoingAll(plan: seq<WriteEvent>, pieces: seq<Bytes>)
    requires AllTook(plan)
    ensures Outgoing(plan, pieces) == Joined(pieces)
    decreases |pieces|
  {
    if pieces != [] {
      PartialWritesFinish(plan, |pieces[0]|);
      OutgoingAll(Later(plan, |pieces[0]|), pieces[1..]);
    }
  }

  /** A refused write costs its own message alone: the ones after it are tried. */
  lemma RefusedAlone(plan: seq<WriteEvent>, data: Bytes, pieces: seq<Bytes>)
    ensures Outgoing([Refused] + plan, [data] + pieces) == Outgoing(plan, pieces)
  {
    assert ([Refused] + plan)[1..] == plan && ([data] + pieces)[1..] == pieces;
    assert data[..0] + Outgoing(plan, pieces) == Outgoing(plan, pieces);
  }

  // ---- Several strings on one connection, up to the first that is refused.

  /** What goes out of strings sent one after the other, each with its NUL, if the first that is refused ends it. */
  function SentUntil(plan: seq<WriteEvent>, fields: seq<Bytes>): Bytes
    decreases |fields|
  {
    if fields == [] then []
    else
      var s := fields[0] + [NUL];
      s[..Taken(plan, |s|)] + if CutShort(plan, |s|) then [] else SentUntil(Later(plan, |s|), fields[1..])
  }

  /** Whether one of them is refused. */
  predicate RefusedIn(plan: seq<WriteEvent>, fields: seq<Bytes>)
    decreases |fields|
  {
    fields != [] &&
    var n := |fields[0]| + 1; CutShort(plan, n) || RefusedIn(Later(plan, n), fields[1..])
  }

  /** A beginning of the strings goes out: all of it exactly if none is refused. */
  lemma {:induction false} SentUntilIs(plan: seq<WriteEvent>, fields: seq<Bytes>)
    ensures SentUntil(plan, fields) <= Wire(fields)
    ensures RefusedIn(plan, fields) <==> |SentUntil(plan, fields)| < |Wire(fields)|
    ensures AllTook(plan) ==> !RefusedIn(plan, fields)
    decreases |fields|
  {
    if fields != [] {
      var s := fields[0] + [NUL];
      AllTakenIff(plan, |s|);
      if AllTook(plan) {
        PartialWritesFinish(plan, |s|);
      }
      if !CutShort(plan, |s|) {
        SentUntilIs(Later(plan, |s|), fields[1..]);
        assert s[..|s|] == s;
      }
    }
  }

  /** What is still to come when some of the strings are out. */
  ghost predicate OnTrack(sink: Sink, all: Bytes, refused: bool, fields: seq<Bytes>)
    reads sink
  {
    sink.sent + SentUntil(sink.plan, fields) == all && refused == RefusedIn(sink.plan, fields)
  }

  /** Sends one string with its NUL. */
  method SendString(sink: Sink, s: Bytes, ghost all: Bytes, ghost refused: bool, ghost rest: seq<Bytes>)
    returns (ok: bool)
    requires OnTrack(sink, all, refused, [s] + rest)
    modifies sink
    ensures if ok then OnTrack(sink, all, refused, rest) else sink.sent == all && refused
  {
    ghost var plan, sent, data := sink.plan, sink.sent, s + [NUL];
    assert ([s] + rest)[1..] == rest;
    AllTakenIff(plan, |data|);
    var r := SendMessage(sink, s + [NUL]);
    ok := r == 0;
    if ok {
      assert data[..|data|] == data;
      assert (sent + data) + SentUntil(sink.plan, rest) == sent + (data + SentUntil(sink.plan, rest));
    } else {
      assert data[..Taken(plan, |data|)] + [] == data[..Taken(plan, |data|)];
    }
  }

  /** What has gone out over a sink since it stood at `plan0` and `sent0`. */
  ghost predicate Went(sink: Sink, plan0: seq<WriteEvent>, sent0: Bytes, pieces: seq<Bytes>)
    reads sink
  {
    sink.sent == sent0 + Outgoing(plan0, pieces) && sink.plan == LaterAll(plan0, pieces)
  }

  lemma NothingWent(sink: Sink)
    ensures Went(sink, sink.plan, sink.sent, [])
  {
    assert sink.sent + [] == sink.sent;
  }

  /** Sends a message without looking at the result. */
  method SendOn(sink: Sink, data: Bytes, ghost plan0: seq<WriteEvent>, ghost sent0: Bytes, ghost pieces: seq<Bytes>)
    requires Went(sink, plan0, sent0, pieces)
    modifies sink
    ensures Went(sink, plan0, sent0, pieces + [data])
  {
    OutgoingParts(plan0, pieces, [data]);
    OutgoingOne(sink.plan, data);
    var r := SendMessage(sink, data);
    assert sent0 + Outgoing(plan0, pieces) + data[..Taken(LaterAll(plan0, pieces), |data|)]
        == sent0 + Outgoing(plan0, pieces + [data]);
  }

  lemma OutgoingOne(plan: seq<WriteEvent>, data: Bytes)
    ensures Outgoing(plan, [data]) == data[..Taken(plan, |data|)] && LaterAll(plan, [data]) == Later(plan, |data|)
  {
    assert [data][1..] == [];
  }

  /** Sends a result code. */
  method SendCode(sink: Sink, code: Byte)
    modifies sink
    ensures sink.sent == old(sink.sent) + Outgoing(old(sink.plan), [[code]])
  {
    NothingWent(sink);
    SendOn(sink, [code], sink.plan, sink.sent, []);
    assert [] + [[code]] == [[code]];
  }
}
