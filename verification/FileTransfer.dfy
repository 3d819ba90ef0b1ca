/** Peer-to-peer file transfer: the size as text, then the bytes. The receiver trusts the announced size and
    sees an error of the sender only as missing bytes, which decides what it can and cannot detect.
  */
module FileTransfer {
  import opened Basics
  import opened Framing
  import opened Decimal
  import opened Frames
  import opened PythonText
  import opened Utf8

  const CHUNK: nat := 4096

  /** "-1" and its NUL, the sender's word for an error. */
  const MINUS_ONE: Bytes := [45, 49, NUL]

  // ---- The sender.

  /** An open file. `good` says how many reads succeed before one fails; None if none fails. */
  class FileHandle {
    const content: Bytes
    var pos: nat
    var good: Option<nat>

    constructor (content: Bytes, good: Option<nat>)
      ensures this.content == content && pos == 0 && this.good == good
    {
      this.content, pos, this.good := content, 0, good;
    }

    /** Up to `n` bytes; nothing at the end of the file. */
    method Read(n: nat) returns (chunk: Bytes, raised: bool)
      requires pos <= |content|
      modifies this
      ensures raised == (old(good) == Some(0)) && (raised ==> pos == old(pos))
      ensures !raised ==> && chunk == Cut(content[old(pos)..], n) && pos == old(pos) + |chunk| <= |content|
                          && good == OneLess(old(good))
    {
      chunk, raised := [], good == Some(0);
      if !raised {
        chunk := Cut(content[pos..], n);
        pos, good := pos + |chunk|, OneLess(good);
      }
    }
  }

  function OneLess(good: Option<nat>): Option<nat> {
    if good.Some? && good.value > 0 then Some(good.value - 1) else good
  }

  /** The bytes of `rest` that are sent, and whether a read failed. */
  function Pumped(rest: Bytes, good: Option<nat>): (Bytes, bool) {
    if good == Some(0) then ([], true)
    else if rest == [] then ([], false)
    else
      var (more, broken) := Pumped(rest[|Cut(rest, CHUNK)|..], OneLess(good));
      (Cut(rest, CHUNK) + more, broken)
  }

  /** A failing read stops the stream at a multiple of the chunk size, unless the end of the file was seen first. */
  lemma {:induction false} PumpedIs(rest: Bytes, good: Option<nat>)
    ensures good.None? ==> Pumped(rest, good) == (rest, false)
    ensures good.Some? ==> var k := good.value;
              if k == 0 || CHUNK * (k - 1) < |rest| then Pumped(rest, good) == (Cut(rest, CHUNK * k), true)
              else Pumped(rest, good) == (rest, false)
  {
    if good != Some(0) && rest != [] {
      var head := Cut(rest, CHUNK);
      var tail := rest[|head|..];
      PumpedIs(tail, OneLess(good));
      assert head + tail == rest;
      if good.Some? {
        var k := good.value;
        assert CHUNK * k == CHUNK + CHUNK * (k - 1);
        if |rest| > CHUNK {
          assert head + Cut(tail, CHUNK * (k - 1)) == Cut(rest, CHUNK * k);
        }
      }
    }
  }

  /** Everything a request for a file is answered with: `size` is what the file system reported, if anything, and
      `file` what could be opened. */
  function Served(size: Option<nat>, content: Option<Bytes>, good: Option<nat>): Bytes {
    if size.None? then MINUS_ONE
    else if content.None? then Print(size.value) + [NUL] + MINUS_ONE
    else
      var (sent, broken) := Pumped(content.value, good);
      Print(size.value) + [NUL] + sent + if broken then MINUS_ONE else []
  }

  /** What goes out of a chunked file over a connection that may refuse writes, what is then left of the connection's
      plan, and whether reading or writing raised. */
  function PumpedOver(plan: seq<WriteEvent>, rest: Bytes, good: Option<nat>): (Bytes, seq<WriteEvent>, bool)
    decreases |rest|
  {
    if good == Some(0) then ([], plan, true)
    else if rest == [] then ([], plan, false)
    else
      var chunk := Cut(rest, CHUNK);
      if CutShort(plan, |chunk|) then (chunk[..Taken(plan, |chunk|)], Later(plan, |chunk|), true)
      else FollowingOn(chunk, PumpedOver(Later(plan, |chunk|), rest[|chunk|..], OneLess(good)))
  }

  /** What went out before put in front. */
  function FollowingOn(out: Bytes, p: (Bytes, seq<WriteEvent>, bool)): (Bytes, seq<WriteEvent>, bool) {
    (out + p.0, p.1, p.2)
  }

  /** The size and the file, up to the first failure of any kind. */
  function HeadAndBody(plan: seq<WriteEvent>, size: Option<nat>, content: Option<Bytes>, good: Option<nat>)
    : (Bytes, seq<WriteEvent>, bool)
  {
    if size.None? then ([], plan, true)
    else
      var header := Print(size.value) + [NUL];
      if CutShort(plan, |header|) then (header[..Taken(plan, |header|)], Later(plan, |header|), true)
      else if content.None? then (header, Later(plan, |header|), true)
      else FollowingOn(header, PumpedOver(Later(plan, |header|), content.value, good))
  }

  /** Everything a request is answered with over any connection: any failure is followed by an attempt to send the
      error mark. */
  function ServedOver(plan: seq<WriteEvent>, size: Option<nat>, content: Option<Bytes>, good: Option<nat>): Bytes {
    var (out, plan', raised) := HeadAndBody(plan, size, content, good);
    if raised then out + MINUS_ONE[..Taken(plan', |MINUS_ONE|)] else out
  }

  lemma {:induction false} PumpedCalmly(plan: seq<WriteEvent>, rest: Bytes, good: Option<nat>)
    requires AllTook(plan)
    ensures var (out, plan', raised) := PumpedOver(plan, rest, good);
            (out, raised) == Pumped(rest, good) && AllTook(plan')
    decreases |rest|
  {
    if good != Some(0) && rest != [] {
      var chunk := Cut(rest, CHUNK);
      PartialWritesFinish(plan, |chunk|);
      PumpedCalmly(Later(plan, |chunk|), rest[|chunk|..], OneLess(good));
    }
  }

  /** Without refused writes only the file itself can fail. */
  lemma ServedCalmly(plan: seq<WriteEvent>, size: Option<nat>, content: Option<Bytes>, good: Option<nat>)
    requires AllTook(plan)
    ensures ServedOver(plan, size, content, good) == Served(size, content, good)
  {
    if size.Some? {
      var header := Print(size.value) + [NUL];
      PartialWritesFinish(plan, |header|);
      if content.Some? {
        PumpedCalmly(Later(plan, |header|), content.value, good);
        assert header + Pumped(content.value, good).0 + [] == header + Pumped(content.value, good).0;
      }
    }
    PartialWritesFinish(HeadAndBody(plan, size, content, good).1, |MINUS_ONE|);
    assert [] + MINUS_ONE == MINUS_ONE;
  }

  /** Whatever the connection refuses: a beginning of the size and the file goes out, and after any that is not all of
      it the error mark is tried on what is left of the connection. */
  lemma ServedUpTo(plan: seq<WriteEvent>, content: Bytes) returns (k: nat, rest: seq<WriteEvent>)
    ensures var full := Print(|content|) + [NUL] + content;
      && k <= |full| && (AllTook(plan) ==> k == |full|)
      && ServedOver(plan, Some(|content|), Some(content), None) ==
         full[..k] + if k < |full| then MINUS_ONE[..Taken(rest, |MINUS_ONE|)] else []
  {
    var header := Print(|content|) + [NUL];
    var full := header + content;
    AllTakenIff(plan, |header|);
    if AllTook(plan) {
      PartialWritesFinish(plan, |header|);
    }
    if CutShort(plan, |header|) {
      k, rest := Taken(plan, |header|), Later(plan, |header|);
      assert full[..k] == header[..k];
    } else {
      k, rest := PumpedUpTo(Later(plan, |header|), content);
      k := k + |header|;
      assert full[..k] == header + content[..k - |header|];
      if k == |full| {
        assert full[..k] == full && content[..|content|] == content;
      }
    }
  }

  lemma {:induction false} PumpedUpTo(plan: seq<WriteEvent>, content: Bytes) returns (k: nat, rest: seq<WriteEvent>)
    ensures k <= |content| && PumpedOver(plan, content, None) == (content[..k], rest, k < |content|)
    ensures AllTook(plan) ==> k == |content|
    decreases |content|
  {
    if content == [] {
      k, rest := 0, plan;
    } else {
      var chunk := Cut(content, CHUNK);
      AllTakenIff(plan, |chunk|);
      if AllTook(plan) {
        PartialWritesFinish(plan, |chunk|);
      }
      if CutShort(plan, |chunk|) {
        k, rest := Taken(plan, |chunk|), Later(plan, |chunk|);
        assert content[..k] == chunk[..k];
      } else {
        k, rest := PumpedUpTo(Later(plan, |chunk|), content[|chunk|..]);
        k := k + |chunk|;
        assert content[..k] == chunk + content[|chunk|..][..k - |chunk|];
      }
    }
  }

  /** Python's sendall: everything goes out, or it raises. */
  method SendAll(sink: Sink, data: Bytes) returns (raised: bool)
    requires data != []
    modifies sink
    ensures raised == CutShort(old(sink.plan), |data|) && sink.plan == Later(old(sink.plan), |data|)
    ensures sink.sent == old(sink.sent) + if raised then data[..Taken(old(sink.plan), |data|)] else data
  {
    AllTakenIff(sink.plan, |data|);
    var r := SendMessage(sink, data);
    raised := r < 0;
  }

  /** Answers a request for a file, chunk by chunk. */
  method Serve(sink: Sink, size: Option<nat>, file: FileHandle?)
    requires file != null ==> file.pos == 0
    modifies sink, file
    ensures sink.sent == old(sink.sent) +
              ServedOver(old(sink.plan), size, if file == null then None else Some(file.content),
                         if file == null then None else old(file.good))
  {
    var raised := ServeFile(sink, size, file);
    if raised {
      var r := SendMessage(sink, MINUS_ONE);
    }
  }

  /** The size and the chunks; an exception ends it. */
  method ServeFile(sink: Sink, size: Option<nat>, file: FileHandle?) returns (raised: bool)
    requires file != null ==> file.pos == 0
    modifies sink, file
    ensures var all := HeadAndBody(old(sink.plan), size, if file == null then None else Some(file.content),
                                   if file == null then None else old(file.good));
            sink.sent == old(sink.sent) + all.0 && sink.plan == all.1 && raised == all.2
  {
    if size.None? {
      return true;
    }
    raised := SendAll(sink, Print(size.value) + [NUL]);
    if raised || file == null {
      return true;
    }
    ghost var base, header := old(sink.sent), Print(size.value) + [NUL];
    ghost var all := PumpedOver(sink.plan, file.content, file.good);
    raised := Pump(sink, file);
    assert base + header + all.0 == base + (header + all.0);
  }

  method Pump(sink: Sink, file: FileHandle) returns (raised: bool)
    requires file.pos == 0
    modifies sink, file
    ensures var all := PumpedOver(old(sink.plan), file.content, old(file.good));
            sink.sent == old(sink.sent) + all.0 && sink.plan == all.1 && raised == all.2
  {
    ghost var all := PumpedOver(sink.plan, file.content, file.good);
    ghost var out: Bytes := [];
    assert file.content[0..] == file.content && sink.sent + [] == sink.sent && out + all.0 == all.0;
    var done := false;
    raised := false;
    while !done
      invariant file.pos <= |file.content| && sink.sent == old(sink.sent) + out
      invariant if done then all == (out, sink.plan, raised)
                else FollowingOn(out, PumpedOver(sink.plan, file.content[file.pos..], file.good)) == all
      decreases !done, |file.content| - file.pos
    {
      done, raised, out := PumpChunk(sink, file, old(sink.sent), out);
    }
  }

  /** One turn of the loop: reads a chunk and sends it, or is done. */
  method PumpChunk(sink: Sink, file: FileHandle, ghost base: Bytes, ghost out: Bytes)
    returns (done: bool, raised: bool, ghost out': Bytes)
    requires file.pos <= |file.content| && sink.sent == base + out
    modifies sink, file
    ensures old(file.pos) <= file.pos <= |file.content| && sink.sent == base + out'
    ensures var all := FollowingOn(out, PumpedOver(old(sink.plan), file.content[old(file.pos)..], old(file.good)));
            if done then all == (out', sink.plan, raised)
            else old(file.pos) < file.pos &&
                 all == FollowingOn(out', PumpedOver(sink.plan, file.content[file.pos..], file.good))
  {
    ghost var rest, plan := file.content[file.pos..], sink.plan;
    PumpStep(out, plan, rest, file.good);
    out' := out;
    var chunk;
    chunk, raised := file.Read(CHUNK);
    done := raised || chunk == [];
    if !done {
      assert rest[|chunk|..] == file.content[file.pos..];
      raised := SendAll(sink, chunk);
      ghost var part := if raised then chunk[..Taken(plan, |chunk|)] else chunk;
      out' := out + part;
      assert base + out + part == base + (out + part);
      done := raised;
    }
  }

  lemma PumpStep(out: Bytes, plan: seq<WriteEvent>, rest: Bytes, good: Option<nat>)
    ensures good == Some(0) ==> FollowingOn(out, PumpedOver(plan, rest, good)) == (out, plan, true)
    ensures good != Some(0) && rest == [] ==> FollowingOn(out, PumpedOver(plan, rest, good)) == (out, plan, false)
    ensures good != Some(0) && rest != [] ==> var chunk := Cut(rest, CHUNK);
              FollowingOn(out, PumpedOver(plan, rest, good)) ==
              if CutShort(plan, |chunk|) then (out + chunk[..Taken(plan, |chunk|)], Later(plan, |chunk|), true)
              else FollowingOn(out + chunk, PumpedOver(Later(plan, |chunk|), rest[|chunk|..], OneLess(good)))
  {
    assert out + [] == out;
    if good != Some(0) && rest != [] {
      var chunk := Cut(rest, CHUNK);
      var more := PumpedOver(Later(plan, |chunk|), rest[|chunk|..], OneLess(good)).0;
      assert out + (chunk + more) == (out + chunk) + more;
    }
  }

  // ---- The receiver.

  /** Local files by name. */
  class Disk {
    var files: map<Bytes, Bytes>
    const writable: bool   // whether the local file can be opened for writing

    constructor (files: map<Bytes, Bytes>, writable: bool)
      ensures this.files == files && this.writable == writable
    {
      this.files, this.writable := files, writable;
    }
  }

  /** What becomes of the local file. */
  datatype Fate = Untouched | Removed | Partial(got: Bytes) | Whole(got: Bytes)

  /** The fate dictated by the bytes that arrive before the close or the reset. */
  function FateOf(digits: Digits, b: Bytes, reset: bool, writable: bool): Fate {
    var text, body := Decode(Text(b)), After(b);
    if (reset && NUL !in b) || text.None? || !IntOf(digits, text.value).Number? || !writable then Untouched
    else
      var size := IntOf(digits, text.value).n;
      if |body| >= size then Whole(body[..size])
      else if reset then Partial(body)
      else Removed
  }

  function Applied(files: map<Bytes, Bytes>, name: Bytes, fate: Fate): map<Bytes, Bytes> {
    match fate
    case Untouched => files
    case Removed => files - {name}
    case Partial(got) => files[name := got]
    case Whole(got) => files[name := got]
  }

  /** Receives a file. It succeeds exactly if the announced number of bytes arrives, and never reads past them; a
      close before that removes the local file, a reset leaves the part that arrived. */
  method GetFile(c: Connection, disk: Disk, name: Bytes, digits: Digits) returns (ok: bool)
    modifies c, disk
    ensures var fate := FateOf(digits, old(c.Payload()), c.reset, disk.writable);
      && disk.files == Applied(old(disk.files), name, fate)
      && ok == fate.Whole?
      && (fate.Whole? ==> After(old(c.Payload())) == fate.got + c.Payload())
  {
    ok := false;
    var text, raised := ReadString(c);
    if text.None? || !IntOf(digits, text.value).Number? || !disk.writable {
      return;
    }
    var pending;
    ghost var got;
    pending, raised, got := ReceiveBody(c, disk, name, IntOf(digits, text.value).n);
    assert got + [] == got;
    if raised {
      return;
    }
    if pending != 0 {
      disk.files := disk.files - {name};
      return;
    }
    ok := true;
  }

  /** Moves up to `size` bytes from the connection to the file. */
  method ReceiveBody(c: Connection, disk: Disk, name: Bytes, size: nat)
    returns (pending: nat, raised: bool, ghost got: Bytes)
    modifies c, disk
    ensures disk.files == old(disk.files)[name := got]
    ensures pending + |got| == size && old(c.Payload()) == got + c.Payload()
    ensures pending > 0 ==> c.Payload() == [] && raised == c.reset
    ensures pending == 0 ==> !raised
  {
    ghost var body := c.Payload();
    var file: Bytes := [];
    pending, raised, got := size, false, [];
    disk.files := disk.files[name := file];
    while pending > 0
      invariant !raised && file == got && disk.files == old(disk.files)[name := got]
      invariant pending + |got| == size && body == got + c.Payload()
      decreases pending
    {
      var chunk;
      chunk, raised := c.Receive(Min(CHUNK, pending));
      if raised || chunk == [] {
        break;
      }
      file := file + chunk;
      got := file;
      disk.files := disk.files[name := file];
      pending := pending - |chunk|;
    }
  }

  // ---- Both ends together.

  /** A size sent as text, whatever follows it. */
  lemma SizeComesBack(digits: Digits, n: nat, tail: Bytes)
    requires Sane(digits)
    ensures var b := Print(n) + [NUL] + tail;
      && Decode(Text(b)) == Some(Print(n)) && IntOf(digits, Print(n)) == Number(n) && After(b) == tail && NUL in b
  {
    NumberComesBack(n, tail);
    PrintReads(n);
    TextOfField(Print(n), tail);
    DecodePlain(Print(n));
    PlainInt(digits, Print(n));
  }

  /** A readable file of the announced size arrives whole, whatever pieces it comes in and whatever follows it. */
  lemma FaithfulTransfer(digits: Digits, content: Bytes, tail: Bytes, reset: bool)
    requires Sane(digits)
    ensures FateOf(digits, Served(Some(|content|), Some(content), None) + tail, reset, true) == Whole(content)
  {
    PumpedIs(content, None);
    SizeComesBack(digits, |content|, content + tail);
    assert Served(Some(|content|), Some(content), None) + tail == Print(|content|) + [NUL] + (content + tail);
  }

  /** A file that is not there or cannot be opened is never taken for one: the refusal of the size leaves the local
      file alone, the refusal after the size passes only for a file of at most three bytes. */
  lemma RefusalIsNoFileIff(digits: Digits, size: Option<nat>)
    requires Sane(digits)
    ensures var fate := FateOf(digits, Served(size, None, None), false, true);
            && (size.None? ==> fate == Untouched)
            && (size.Some? ==> (fate == Removed <==> size.value > |MINUS_ONE|))
            && (fate.Whole? <==> size.Some? && size.value <= |MINUS_ONE|)
  {
    if size.None? {
      TextOfField([45, 49], []);
      assert MINUS_ONE == [45, 49] + [NUL] + [];
      assert !IsDigit(Text(MINUS_ONE)[0]);
    } else {
      SizeComesBack(digits, size.value, MINUS_ONE);
    }
  }

  /** A read error of the sender after `k` good reads goes unnoticed exactly when at most three bytes were missing:
      the error mark is then taken for the end of the file. */
  lemma BrokenReadUnnoticedIff(digits: Digits, content: Bytes, k: nat)
    requires Sane(digits)
    ensures var fate := FateOf(digits, Served(Some(|content|), Some(content), Some(k)), false, true);
            && (fate.Whole? <==> |content| <= CHUNK * k + |MINUS_ONE|)
            && (fate == Whole(content) <==> ReadAllFirst(content, k) || EndsLikeMark(content, k))
            && (!fate.Whole? ==> fate == Removed)
  {
    PumpedIs(content, Some(k));
    var (sent, broken) := Pumped(content, Some(k));
    var body := sent + if broken then MINUS_ONE else [];
    SizeComesBack(digits, |content|, body);
    assert Print(|content|) + [NUL] + body == Served(Some(|content|), Some(content), Some(k));
    if broken && |content| <= |body| {
      SameEnd(content, |sent|);
    }
  }

  lemma SameEnd(content: Bytes, n: nat)
    requires n <= |content| <= n + |MINUS_ONE|
    ensures (content[..n] + MINUS_ONE)[..|content|] == content <==> content[n..] == MINUS_ONE[..|content| - n]
  {
    var m := |content| - n;
    assert (content[..n] + MINUS_ONE)[..|content|] == content[..n] + MINUS_ONE[..m];
    assert content == content[..n] + content[n..];
    if content[..n] + MINUS_ONE[..m] == content {
      assert content[n..] == (content[..n] + MINUS_ONE[..m])[n..];
    }
  }

  /** All the content was read before the failing read. */
  predicate ReadAllFirst(content: Bytes, k: nat) {
    |content| <= CHUNK * k
  }

  /** What was not read is, by chance, what the error mark starts with. */
  predicate EndsLikeMark(content: Bytes, k: nat) {
    CHUNK * k < |content| <= CHUNK * k + |MINUS_ONE| && content[CHUNK * k..] == MINUS_ONE[..|content| - CHUNK * k]
  }

  /** If the file's content changed after its size was taken, the transfer is faithful exactly if the length did not
      change; a longer file arrives cut, a shorter one not at all. */
  lemma ChangedFileIff(digits: Digits, size: nat, content: Bytes)
    requires Sane(digits)
    ensures var fate := FateOf(digits, Served(Some(size), Some(content), None), false, true);
            && (fate == Whole(content) <==> |content| == size)
            && (|content| > size ==> fate == Whole(content[..size]))
            && (|content| < size ==> fate == Removed)
  {
    PumpedIs(content, None);
    SizedFate(digits, size, content, false);
    assert Print(size) + [NUL] + content == Served(Some(size), Some(content), None);
    assert |content| == size ==> content[..size] == content;
  }

  /** The receiver's files after the size and the first `k` bytes of the file: all of it is the file's content, under
      the local name; fewer before a reset are left there; fewer before a close leave no file there. No other file
      changes. */
  lemma TransferredUpTo(digits: Digits, content: Bytes, k: nat, reset: bool, files: map<Bytes, Bytes>, name: Bytes)
    requires Sane(digits) && k <= |content|
    ensures var files' := Applied(files, name, FateOf(digits, Print(|content|) + [NUL] + content[..k], reset, true));
      && (forall n | n != name :: n in files' <==> n in files)
      && (forall n | n in files' && n != name :: files'[n] == files[n])
      && (name in files' <==> k == |content| || reset)
      && (k == |content| || reset ==> files'[name] == content[..k])
  {
    SizedFate(digits, |content|, content[..k], reset);
    assert content[..k][..k] == content[..k];
  }

  /** What becomes of a file of an announced size. */
  lemma SizedFate(digits: Digits, size: nat, body: Bytes, reset: bool)
    requires Sane(digits)
    ensures FateOf(digits, Print(size) + [NUL] + body, reset, true) ==
            if |body| >= size then Whole(body[..size]) else if reset then Partial(body) else Removed
  {
    SizeComesBack(digits, size, body);
  }

  /** A close before the end is never taken for a whole file, and leaves no partial one; the one exception is an
      empty file whose size lost only its NUL, and that file is right. */
  lemma EarlyClose(digits: Digits, content: Bytes, k: nat, writable: bool)
    requires Sane(digits)
    requires k < |Print(|content|) + [NUL] + content|
    ensures var fate := FateOf(digits, (Print(|content|) + [NUL] + content)[..k], false, writable);
            fate == Untouched || fate == Removed || (content == [] && fate == Whole(content))
  {
    var b := (Print(|content|) + [NUL] + content)[..k];
    var header := Print(|content|);
    PrintReads(|content|);
    if k <= |header| {
      assert b == header[..k];
      TextOfField(header[..k], []);
      if k > 0 {
        LeadingDigit(|content|, k);
        PlainInt(digits, header[..k]);
        DecodePlain(header[..k]);
      }
    } else {
      var body := content[..k - |header| - 1];
      assert b == header + [NUL] + body;
      SizeComesBack(digits, |content|, body);
    }
  }

  /** A non-empty beginning of a printed number reads as zero only if the number is zero. */
  lemma {:induction false} LeadingDigit(n: nat, k: nat)
    requires 0 < k <= |Print(n)|
    ensures AllDigits(Print(n)[..k]) && (Read(Print(n)[..k]) == 0 ==> n == 0)
  {
    PrintReads(n);
    if n < 10 {
      assert Print(n)[..k] == Print(n);
    } else if k == |Print(n)| {
      assert Print(n)[..k] == Print(n);
    } else {
      LeadingDigit(n / 10, k);
      assert Print(n)[..k] == Print(n / 10)[..k];
    }
  }

  /** A reset, unlike a close, can leave a partial file behind: exactly when the size arrived and not all bytes did. */
  lemma {:induction false} ResetLeavesPartIff(digits: Digits, content: Bytes, k: nat)
    requires Sane(digits)
    requires k <= |Print(|content|) + [NUL] + content|
    ensures var fate := FateOf(digits, (Print(|content|) + [NUL] + content)[..k], true, true);
            fate.Partial? <==> |Print(|content|)| < k < |Print(|content|) + [NUL] + content|
  {
    var b := (Print(|content|) + [NUL] + content)[..k];
    var header := Print(|content|);
    PrintReads(|content|);
    if k <= |header| {
      assert b == header[..k];
    } else {
      var body := content[..k - |header| - 1];
      assert b == header + [NUL] + body;
      SizeComesBack(digits, |content|, body);
    }
  }
}
