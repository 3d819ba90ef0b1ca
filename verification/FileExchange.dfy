/** A whole file request between two clients: the requester's three strings, the listener that takes them apart, the
    file it serves, and the local file the requester ends up with.
  */
module FileExchange {
  import opened Basics
  import opened Decimal
  import opened PythonText
  import opened Utf8
  import opened Framing
  import opened Frames
  import opened FileTransfer

  function RequestFields(asker: Bytes, file: Bytes): seq<Bytes> {
    [Ascii("GET_FILE"), asker, file]
  }

  lemma RequestName()
    ensures NoNul(Ascii("GET_FILE")) && OperationNamed(Ascii("GET_FILE")) == GetFileOp
  {
    Names();
  }

  /** A request is heard as exactly its asker and its file if both can be decoded, and raises otherwise; whatever comes
      behind it, closed or reset. */
  lemma RequestIsHeard(asker: Bytes, file: Bytes, tail: Bytes, reset: bool)
    requires NoNul(asker) && NoNul(file)
    ensures HeardOver(Wire(RequestFields(asker, file)) + tail, reset) ==
            if Decode(asker).Some? && Decode(file).Some?
            then Shown(FileRequest(Decode(asker).value, Decode(file).value)) else Raised
  {
    var fields := RequestFields(asker, file);
    var f := Arrived(Wire(fields) + tail, reset, 5);
    RequestName();
    WholeArrive(fields, tail, reset, 5);
    DecodePlain(Ascii("GET_FILE"));
    assert f[0] == Decode(fields[0]) && f[1] == Decode(fields[1]) && f[2] == Decode(fields[2]);
    HeardAsRequest(f);
  }

  lemma HeardAsRequest(f: seq<Option<Str>>)
    requires |f| == 5 && f[0] == Some(Ascii("GET_FILE"))
    ensures HeardWith(f) ==
            if f[1].Some? && f[2].Some? then Shown(FileRequest(f[1].value, f[2].value)) else Raised
  {
    RequestName();
  }

  /** Cut off by a reset a request is never heard. */
  lemma CutRequestRaises(asker: Bytes, file: Bytes, k: nat)
    requires NoNul(asker) && NoNul(file) && k < |Wire(RequestFields(asker, file))|
    ensures HeardOver(Wire(RequestFields(asker, file))[..k], true) == Raised
  {
    var fields := RequestFields(asker, file);
    RequestName();
    DecodePlain(fields[0]);
    var i := CutArrives(fields, k, 5);
    var f := Arrived(Wire(fields)[..k], true, 5);
    assert i > 0 ==> f[0] == Decode(fields[0]);
    RequestRaisesAt(f, i);
  }

  lemma RequestRaisesAt(f: seq<Option<Str>>, i: nat)
    requires |f| == 5 && i < 3 && f[i].None? && (i > 0 ==> f[0] == Some(Ascii("GET_FILE")))
    ensures HeardWith(f) == Raised
  {
    RequestName();
  }

  // ---- The requester.

  /** The three strings, each sent in full before the next; a refused write raises. */
  method SendRequest(sink: Sink, asker: Str, file: Str) returns (raised: bool)
    modifies sink
    ensures var fields := RequestFields(Encode(asker), Encode(file));
      && sink.sent == old(sink.sent) + SentUntil(old(sink.plan), fields)
      && raised == RefusedIn(old(sink.plan), fields)
  {
    var op, a, f := Ascii("GET_FILE"), Encode(asker), Encode(file);
    ghost var fields := RequestFields(a, f);
    ghost var all, refused := sink.sent + SentUntil(sink.plan, fields), RefusedIn(sink.plan, fields);
    assert fields == [op] + ([a] + [f]);
    var ok := SendString(sink, op, all, refused, [a] + [f]);
    if ok {
      ok := SendString(sink, a, all, refused, [f]);
    }
    if ok {
      assert [f] + [] == [f];
      ok := SendString(sink, f, all, refused, []);
    }
    raised := !ok;
  }

  /** Asks a peer for `remote` and stores what comes back as `local`. */
  method Fetch(sink: Sink, c: Connection, disk: Disk, asker: Str, remote: Str, local: Bytes, digits: Digits)
    returns (ok: bool)
    modifies sink, c, disk
    ensures var fields := RequestFields(Encode(asker), Encode(remote));
      && sink.sent == old(sink.sent) + SentUntil(old(sink.plan), fields)
      && var fate := if RefusedIn(old(sink.plan), fields) then Untouched
                     else FateOf(digits, old(c.Payload()), c.reset, disk.writable);
         disk.files == Applied(old(disk.files), local, fate) && ok == fate.Whole?
  {
    var raised := SendRequest(sink, asker, remote);
    ok := false;
    if !raised {
      ok := GetFile(c, disk, local, digits);
    }
  }

  // ---- The listener.

  type Folder = map<Str, Bytes>

  /** What one turn of the listener sends back: the answer to a request for a file, or nothing. */
  function AnsweredWith(heard: Heard, plan: seq<WriteEvent>, folder: Folder): Bytes {
    match heard
    case Shown(FileRequest(_, file)) =>
      if file in folder then ServedOver(plan, Some(|folder[file]|), Some(folder[file]), None)
      else ServedOver(plan, None, None, None)
    case _ => []
  }

  /** A turn of the listener with its own files at hand. */
  method ServeTurn(c: Connection, back: Sink, folder: Folder) returns (heard: Heard)
    modifies c, back
    ensures heard == HeardOver(old(c.Payload()), c.reset)
    ensures back.sent == old(back.sent) + AnsweredWith(heard, old(back.plan), folder)
  {
    heard := Listen(c);
    match heard {
      case Shown(FileRequest(_, file)) =>
        if file in folder {
          var handle := new FileHandle(folder[file], None);
          Serve(back, Some(|folder[file]|), handle);
        } else {
          Serve(back, None, null);
        }
      case _ => assert back.sent + [] == back.sent;
    }
  }

  // ---- Both together.

  /** What the listener sends back over a connection without refused writes when asked for a file. */
  function Fetched(folder: Folder, asker: Str, file: Str, plan: seq<WriteEvent>): Bytes {
    AnsweredWith(HeardOver(Wire(RequestFields(Encode(asker), Encode(file))), false), plan, folder)
  }

  /** The requester gets exactly the content of the file it named, out of all the files its peer has, if the peer has
      it and the local file can be opened, and otherwise its local file is left alone; whoever asks. */
  lemma FetchedIsNamed(digits: Digits, folder: Folder, asker: Str, file: Str, plan: seq<WriteEvent>, tail: Bytes,
                       writable: bool)
    requires Sane(digits) && AllTook(plan) && NUL !in asker && NUL !in file
    ensures FateOf(digits, Fetched(folder, asker, file, plan) + tail, false, writable) ==
            if file in folder && writable then Whole(folder[file]) else Untouched
  {
    EncodedNoNul(asker);
    EncodedNoNul(file);
    RequestReaches(asker, file);
    if file in folder {
      var content := folder[file];
      ServedCalmly(plan, Some(|content|), Some(content), None);
      FaithfulTransfer(digits, content, tail, false);
    } else {
      ServedCalmly(plan, None, None, None);
      RefusalUntouched(digits, tail);
    }
  }

  /** The requester's files then: the peer's content under the local name, or all of them as they were. */
  lemma FetchedInto(digits: Digits, folder: Folder, asker: Str, file: Str, plan: seq<WriteEvent>,
                    files: map<Bytes, Bytes>, local: Bytes)
    requires Sane(digits) && AllTook(plan) && NUL !in asker && NUL !in file
    ensures Applied(files, local, FateOf(digits, Fetched(folder, asker, file, plan), false, true)) ==
            if file in folder then files[local := folder[file]] else files
  {
    FetchedIsNamed(digits, folder, asker, file, plan, [], true);
    assert Fetched(folder, asker, file, plan) + [] == Fetched(folder, asker, file, plan);
  }

  lemma RequestReaches(asker: Str, file: Str)
    requires NoNul(Encode(asker)) && NoNul(Encode(file))
    ensures HeardOver(Wire(RequestFields(Encode(asker), Encode(file))), false) == Shown(FileRequest(asker, file))
  {
    var request := Wire(RequestFields(Encode(asker), Encode(file)));
    DecodeEncode(asker);
    DecodeEncode(file);
    RequestIsHeard(Encode(asker), Encode(file), [], false);
    assert request + [] == request;
  }

  lemma {:induction false} EncodedNoNul(s: Str)
    ensures NUL in Encode(s) <==> NUL in s
  {
    if s != [] {
      EncodedNoNul(s[1..]);
      assert s == [s[0]] + s[1..];
      assert NUL in EncodeOne(s[0]) <==> s[0] == NUL;
    }
  }

  lemma RefusalUntouched(digits: Digits, tail: Bytes)
    requires Sane(digits)
    ensures FateOf(digits, MINUS_ONE + tail, false, true) == Untouched
  {
    TextOfField([45, 49], tail);
    assert MINUS_ONE + tail == [45, 49] + [NUL] + tail;
    DecodePlain([45, 49]);
    PlainInt(digits, [45, 49]);
    assert !IsDigit([45, 49][0]);
  }
}
