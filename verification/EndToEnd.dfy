/** From the sender's command line to the recipient's screen. */
module EndToEnd {
  import opened Basics
  import opened Registry
  import opened Framing
  import opened Decimal
  import opened Frames
  import opened Utf8
  import opened Normalizer

  /** The message as the server keeps it. */
  function KeptMessage(id: nat, sender: Str, c: Command, attach: bool): Msg {
    Msg(id, Cut(Encode(sender), MAX_TEXT), Cut(Encode(c.message), MAX_TEXT),
        if attach then Cut(Encode(c.file), MAX_TEXT) else [], attach)
  }

  /** The sender, the message and the file, if there is one, each fit the server's buffers or are cut between two
      characters. */
  ghost predicate AllKept(sender: Str, c: Command, attach: bool) {
    Kept(sender, MAX_TEXT) && Kept(c.message, MAX_TEXT) && (attach ==> Kept(c.file, MAX_TEXT))
  }

  /** A beginning of the text as long as the buffer could hold. */
  predicate Shows(shown: Str, typed: Str) {
    shown <= typed && Encode(shown) == Cut(Encode(typed), MAX_TEXT)
  }

  /** The event tells what was typed. */
  predicate Tells(e: Event, id: nat, sender: Str, c: Command, attach: bool) {
    if attach then
      && e.MessageWithFile? && e.id == Print(id)
      && Shows(e.sender, sender) && Shows(e.text, c.message) && Shows(e.file, c.file)
    else
      e.Message? && e.id == Print(id) && Shows(e.sender, sender) && Shows(e.text, c.message)
  }

  /** The handler that reads the request gets the message's parts in its buffers. */
  predicate InBuffers(ev: seq<ReadEvent>, m: Msg) {
    var r := ReadFields(ev, if m.attach then 4 else 3, MAX_TEXT);
    && r.Gathered? && r.cells[0] == Some(m.sender) && r.cells[2] == Some(m.text)
    && (m.attach ==> r.cells[3] == Some(m.file))
  }

  /** Delivered at once or stored and flushed, the message is told to the recipient if it was all kept, and raises
      in the recipient's listener otherwise. */
  ghost predicate ToldIfKept(m: Msg, sender: Str, c: Command) {
    var heard := HeardIn(Wire(StoredFields(Compose(m.id, m.sender, m.text, m.file, m.attach))));
    && heard == HeardIn(Wire(DirectFields(m.id, m.sender, m.text, m.file, m.attach)))
    && (if AllKept(sender, c, m.attach) then heard.Shown? && Tells(heard.event, m.id, sender, c, m.attach)
        else heard == Raised)
  }

  /** Whatever is typed, however the request is split into reads, and whether the message is delivered at once or
      stored and flushed later, the recipient's listener shows the sender, the id, the message and the file that were
      typed, each cut to 255 bytes, if and only if none of them is cut inside a character. Otherwise it shows nothing,
      and its loop ends. */
  lemma CommandReachesReader(input: Str, sender: Str, attach: bool, ev: seq<ReadEvent>, tail: Bytes, id: nat)
    requires SendCommand(Words(input), attach).Some? && NUL !in input && IsWord(sender) && NUL !in sender
    requires var fields := EncodeAll(RequestTexts(sender, SendCommand(Words(input), attach).value, attach));
             Calm(ev) && Carried(ev) == Wire(fields) + tail
    ensures var c := SendCommand(Words(input), attach).value;
            InBuffers(ev, KeptMessage(id, sender, c, attach))
            && ToldIfKept(KeptMessage(id, sender, c, attach), sender, c)
  {
    RequestIsKept(input, sender, attach, ev, tail, id);
    CellsAreTold(ev, id, sender, SendCommand(Words(input), attach).value, attach);
  }

  /** What the handler's buffers hold is what the listener is told. */
  lemma CellsAreTold(ev: seq<ReadEvent>, id: nat, sender: Str, c: Command, attach: bool)
    requires InBuffers(ev, KeptMessage(id, sender, c, attach))
    ensures ToldIfKept(KeptMessage(id, sender, c, attach), sender, c)
  {
    var m := KeptMessage(id, sender, c, attach);
    ReadFieldsAreClean(ev, if attach then 4 else 3, MAX_TEXT);
    CleanIsTold(m);
    KeptIsTold(id, sender, c, attach);
  }

  lemma CleanIsTold(m: Msg)
    requires NoNul(m.sender) && NoNul(m.text) && NoNul(m.file) && |m.text| <= MAX_TEXT && |m.file| <= MAX_TEXT
    requires !m.attach ==> m.file == []
    ensures Compose(m.id, m.sender, m.text, m.file, m.attach) == m
    ensures HeardIn(Wire(StoredFields(m))) == if Readable(m) then Shown(Content(m)) else Raised
  {
    ListenerRecovers(m, []);
    assert Wire(StoredFields(m)) + [] == Wire(StoredFields(m));
  }

  /** The handler's buffers hold what was typed, each part cut to its buffer. */
  lemma RequestIsKept(input: Str, sender: Str, attach: bool, ev: seq<ReadEvent>, tail: Bytes, id: nat)
    requires SendCommand(Words(input), attach).Some? && NUL !in input && IsWord(sender) && NUL !in sender
    requires var fields := EncodeAll(RequestTexts(sender, SendCommand(Words(input), attach).value, attach));
             Calm(ev) && Carried(ev) == Wire(fields) + tail
    ensures InBuffers(ev, KeptMessage(id, sender, SendCommand(Words(input), attach).value, attach))
  {
    var c := SendCommand(Words(input), attach).value;
    CommandReachesHandler(input, sender, attach, ev, tail, MAX_TEXT);
    CutFields([Encode(sender), Encode(c.user), Encode(c.message)] + if attach then [Encode(c.file)] else []);
  }

  /** The message that was kept can be decoded exactly if nothing was cut inside a character. */
  lemma KeptIsTold(id: nat, sender: Str, c: Command, attach: bool)
    ensures var m := KeptMessage(id, sender, c, attach);
            if AllKept(sender, c, attach) then Readable(m) && Tells(Content(m), id, sender, c, attach) else !Readable(m)
  {
    KeptTextIff(sender, MAX_TEXT);
    KeptTextIff(c.message, MAX_TEXT);
    KeptTextIff(c.file, MAX_TEXT);
  }

  lemma CutFields(fields: seq<Bytes>)
    ensures |CutAll(fields, MAX_TEXT)| == |fields|
    ensures forall i | 0 <= i < |fields| :: CutAll(fields, MAX_TEXT)[i] == Cut(fields[i], MAX_TEXT)
  {
  }
}
