/** The USERS handler over the linked registry. It writes to the requester while it holds the mutex. */
module UsersRequest {
  import opened Basics
  import opened MessageIds
  import opened Registry
  import opened MessageList
  import opened LinkedServer
  import opened Sections
  import opened Framing
  import opened Decimal
  import opened UsersReply

  /** Sends what the registry found under the mutex dictates. No failure is noticed: after a refused write the next
      piece is tried. */
  method ProcessUsers(s: Server, sink: Sink, asker: Name, ghost others: set<MessageNode>)
    returns (ghost before: seq<User>)
    requires s.Valid() && !s.locked && sink !in s.world && s.Owned(others)
    modifies s, s.world - others, sink
    ensures s.Valid() && !s.locked && s.Contents() == before
    ensures s.Grew() && s.Owned(others) && old(s.freed) <= s.freed
    ensures sink.sent == old(sink.sent) + Outgoing(old(sink.plan), ReplyPieces(before, asker))
  {
    s.Lock(others);
    before := s.Contents();
    AnswerUsers(s, sink, asker, others);
  }

  /** With the mutex held: find the requester and answer. A refusal is sent with the mutex already released. */
  method AnswerUsers(s: Server, sink: Sink, asker: Name, ghost others: set<MessageNode>)
    requires s.Valid() && s.locked && sink !in s.world && s.Owned(others)
    modifies s`locked, sink
    ensures s.Valid() && !s.locked && s.Contents() == old(s.Contents()) && s.Owned(others)
    ensures sink.sent == old(sink.sent) + Outgoing(old(sink.plan), ReplyPieces(s.Contents(), asker))
  {
    var code := Standing(s, asker);
    if code != 0 {
      Refuse(s, sink, code, others);
    } else {
      AnswerConnected(s, sink, others);
    }
  }

  method Refuse(s: Server, sink: Sink, code: Byte, ghost others: set<MessageNode>)
    requires s.Valid() && s.locked && sink !in s.world && s.Owned(others)
    modifies s`locked, sink
    ensures s.Valid() && !s.locked && s.Contents() == old(s.Contents()) && s.Owned(others)
    ensures sink.sent == old(sink.sent) + Outgoing(old(sink.plan), [[code]])
  {
    s.Unlock(others);
    SendCode(sink, code);
  }

  method AnswerConnected(s: Server, sink: Sink, ghost others: set<MessageNode>)
    requires s.Valid() && s.locked && sink !in s.world && s.Owned(others)
    modifies s`locked, sink
    ensures s.Valid() && !s.locked && s.Contents() == old(s.Contents()) && s.Owned(others)
    ensures var list := s.Contents();
            sink.sent == old(sink.sent) +
            Outgoing(old(sink.plan), [[0], Announced(list) + [NUL]] + Closed(Records(Connected(list))))
  {
    SendList(s, sink);
    s.Unlock(others);
  }

  /** The result code: 2 for an unknown requester, 1 for a disconnected one. */
  method Standing(s: Server, asker: Name) returns (code: Byte)
    requires s.Valid()
    ensures var list := s.Contents();
            ReplyPieces(list, asker) ==
            if code != 0 then [[code]] else [[0], Announced(list) + [NUL]] + Closed(Records(Connected(list)))
    ensures var us := AsMap(s.Contents()); code == if asker !in us then 2 else if us[asker].connected then 0 else 1
  {
    var u := s.FindUser(asker);
    FoundRecord(s, asker);
    if u == null {
      code := 2;
    } else if !u.connected {
      code := 1;
    } else {
      code := 0;
    }
  }

  /** The answer to a connected requester: code, count, records. */
  method SendList(s: Server, sink: Sink)
    requires s.Valid() && sink !in s.world
    modifies sink
    ensures s.Valid() && s.Contents() == old(s.Contents())
    ensures var list := s.Contents();
            sink.sent == old(sink.sent) +
            Outgoing(old(sink.plan), [[0], Announced(list) + [NUL]] + Closed(Records(Connected(list))))
  {
    ghost var plan0, sent0 := sink.plan, sink.sent;
    var num := CountConnected(s);
    SendHead(sink, num);
    SendRecords(s, sink, plan0, sent0, [[0], Print(num) + [NUL]]);
  }

  method SendHead(sink: Sink, num: nat)
    modifies sink
    ensures Went(sink, old(sink.plan), old(sink.sent), [[0], Print(num) + [NUL]])
  {
    ghost var plan0, sent0 := sink.plan, sink.sent;
    NothingWent(sink);
    SendOn(sink, [0], plan0, sent0, []);
    SendOn(sink, Print(num) + [NUL], plan0, sent0, [] + [[0]]);
    assert [] + [[0]] + [Print(num) + [NUL]] == [[0], Print(num) + [NUL]];
  }

  /** First pass: how many users are connected, as a 32-bit number. */
  method CountConnected(s: Server) returns (num: nat)
    requires s.Valid()
    ensures num == |Connected(s.Contents())| % WORD
  {
    ghost var list := s.Contents();
    num := 0;
    var curr := s.head;
    ghost var i := 0;
    while curr != null
      invariant i <= |list| && curr == UserAt(s.users, i)
      invariant num == CountTo(list, i)
      decreases |list| - i
    {
      CountOneMore(list, i);
      if curr.connected {
        num := (num + 1) % WORD;
      }
      curr := curr.next;
      i := i + 1;
    }
    assert list[..i] == list;
  }

  /** How many of the first `i` users are connected, as a 32-bit number. */
  ghost function CountTo(list: seq<User>, i: nat): nat
    requires i <= |list|
  {
    |Connected(list[..i])| % WORD
  }

  lemma CountOneMore(list: seq<User>, i: nat)
    requires i < |list|
    ensures var k := CountTo(list, i);
            CountTo(list, i + 1) == if list[i].record.connected then (k + 1) % WORD else k
  {
    ConnectedSnoc(list, i);
  }

  /** The pieces with the records of the first `i` users. */
  ghost function RecordsOut(before: seq<Bytes>, list: seq<User>, i: nat): seq<Bytes>
    requires i <= |list|
  {
    before + Closed(Records(Connected(list[..i])))
  }

  lemma NextRecord(before: seq<Bytes>, list: seq<User>, i: nat)
    requires i < |list|
    ensures var out := RecordsOut(before, list, i);
            RecordsOut(before, list, i + 1) ==
            if list[i].record.connected then out + [Printed(list[i]) + [NUL]] else out
  {
    ConnectedSnoc(list, i);
    var done := Closed(Records(Connected(list[..i])));
    if list[i].record.connected {
      assert Closed(Records(Connected(list[..i + 1]))) == done + [Printed(list[i]) + [NUL]];
      assert before + (done + [Printed(list[i]) + [NUL]]) == before + done + [Printed(list[i]) + [NUL]];
    }
  }

  method SendRecord(s: Server, sink: Sink, curr: UserNode, ghost i: nat,
                    ghost plan0: seq<WriteEvent>, ghost sent0: Bytes, ghost out: seq<Bytes>)
    requires s.Valid() && sink !in s.world && i < |s.users| && curr == s.users[i] && Went(sink, plan0, sent0, out)
    modifies sink
    ensures s.Valid() && s.Contents() == old(s.Contents())
    ensures Went(sink, plan0, sent0, out + [Printed(s.Contents()[i]) + [NUL]])
  {
    SendOn(sink, Cut(RecordText(curr.name, curr.ip, curr.port), RECORD_BUFFER - 1) + [NUL], plan0, sent0, out);
  }

  /** One turn of the second pass. */
  method SendTurn(s: Server, sink: Sink, curr: UserNode, ghost i: nat,
                  ghost plan0: seq<WriteEvent>, ghost sent0: Bytes, ghost before: seq<Bytes>)
    requires s.Valid() && sink !in s.world && i < |s.users| && curr == s.users[i]
    requires Went(sink, plan0, sent0, RecordsOut(before, s.Contents(), i))
    modifies sink
    ensures s.Valid() && s.Contents() == old(s.Contents())
    ensures Went(sink, plan0, sent0, RecordsOut(before, s.Contents(), i + 1))
  {
    NextRecord(before, s.Contents(), i);
    if curr.connected {
      SendRecord(s, sink, curr, i, plan0, sent0, RecordsOut(before, s.Contents(), i));
    }
  }

  /** Second pass: one record per connected user, in list order, behind what went out `before`. */
  method SendRecords(s: Server, sink: Sink, ghost plan0: seq<WriteEvent>, ghost sent0: Bytes, ghost before: seq<Bytes>)
    requires s.Valid() && sink !in s.world && Went(sink, plan0, sent0, before)
    modifies sink
    ensures s.Valid() && s.Contents() == old(s.Contents())
    ensures Went(sink, plan0, sent0, before + Closed(Records(Connected(s.Contents()))))
  {
    ghost var list := s.Contents();
    var curr := s.head;
    ghost var i := 0;
    assert RecordsOut(before, list, 0) == before;
    while curr != null
      invariant i <= |list| && s.Valid() && s.Contents() == list && curr == UserAt(s.users, i)
      invariant Went(sink, plan0, sent0, RecordsOut(before, list, i))
      decreases |list| - i
    {
      SendTurn(s, sink, curr, i, plan0, sent0, before);
      curr := curr.next;
      i := i + 1;
    }
    assert list[..i] == list;
  }
}
