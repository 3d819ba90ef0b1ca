/** What the client makes of a USERS reply that ends early: when the result is nevertheless OK, and when nothing is
    missing from the directory.
  */
module CutReply {
  import opened Basics
  import opened MessageIds
  import opened Registry
  import opened Framing
  import opened Decimal
  import opened Utf8
  import opened PythonText
  import opened Frames
  import opened UsersReply

  // ---- One record, cut off.

  /** A part of the name and what stands behind it has no "::" before its second colon. */
  lemma NoDoubleYet(f: Str, q: Str)
    requires NoDouble(f) && q <= f + [BLANK_SPACE, COLON]
    ensures NoDouble(q)
  {
    forall i | 0 <= i < |q| ensures !DoubleAt(q, i) {
      assert DoubleAt(q, i) ==> i + 1 < |f| && DoubleAt(f, i);
    }
  }

  /** A text that goes on behind the first "::". */
  lemma BehindGap(f: Str, rest: Str, i: nat)
    requires |f| + 3 <= i <= |f| + 3 + |rest|
    ensures (f + GAP[..1] + [COLON, COLON] + rest)[..i] == f + GAP[..1] + [COLON, COLON] + rest[..i - |f| - 3]
  {
  }

  lemma RecordIs(name: Str, ip: Str, port: Str)
    ensures name + GAP + ip + GAP + port == name + GAP[..1] + [COLON, COLON] + ([BLANK_SPACE] + ip + GAP + port)
  {
  }

  /** How a record splits that is cut off after `i` characters. */
  lemma CutSplits(name: Str, ip: Str, port: Str, i: nat)
    requires Neat(name) && Neat(ip) && Neat(port) && i <= |name + GAP + ip + GAP + port|
    ensures var q, k := (name + GAP + ip + GAP + port)[..i], |name| + |ip| + 7;
            if i < k then |Split(q)| < 3
            else Split(q) ==
                 [name + [BLANK_SPACE], [BLANK_SPACE] + ip + [BLANK_SPACE], ([BLANK_SPACE] + port)[..i - k]]
  {
    RecordIs(name, ip, port);
    var rest := [BLANK_SPACE] + ip + GAP + port;
    if i < |name| + 3 {
      NotSplitYet(name, rest, i);
    } else {
      FirstPartSplits(name, rest, i);
      SecondHalfSplits(ip, port, i - |name| - 3);
    }
  }

  lemma NotSplitYet(f: Str, rest: Str, i: nat)
    requires NoDouble(f) && i < |f| + 3
    ensures var q := (f + GAP[..1] + [COLON, COLON] + rest)[..i]; Split(q) == [q]
  {
    var q := (f + GAP[..1] + [COLON, COLON] + rest)[..i];
    assert q <= f + [BLANK_SPACE, COLON];
    NoDoubleYet(f, q);
    SplitWhole(q);
  }

  /** The first part is whole once its "::" is there. */
  lemma FirstPartSplits(f: Str, rest: Str, i: nat)
    requires NoDouble(f) && |f| + 3 <= i <= |f| + 3 + |rest|
    ensures Split((f + GAP[..1] + [COLON, COLON] + rest)[..i]) == [f + [BLANK_SPACE]] + Split(rest[..i - |f| - 3])
  {
    BehindGap(f, rest, i);
    HeadComesBackIff(f, rest[..i - |f| - 3]);
  }

  lemma SecondHalfSplits(ip: Str, port: Str, i: nat)
    requires Neat(ip) && Neat(port) && i <= |[BLANK_SPACE] + ip + GAP + port|
    ensures var q, k := ([BLANK_SPACE] + ip + GAP + port)[..i], |ip| + 4;
            if i < k then Split(q) == [q]
            else Split(q) == [[BLANK_SPACE] + ip + [BLANK_SPACE], ([BLANK_SPACE] + port)[..i - k]]
  {
    var spaced, last := [BLANK_SPACE] + ip, [BLANK_SPACE] + port;
    var all := spaced + GAP[..1] + [COLON, COLON] + last;
    assert spaced + GAP + port == all;
    SpacedNoDouble(ip);
    SpacedNoDouble(port);
    if i < |ip| + 4 {
      NotSplitYet(spaced, last, i);
    } else {
      var u := last[..i - |ip| - 4];
      FirstPartSplits(spaced, last, i);
      assert NoDouble(u) by {
        assert forall j | 0 <= j < |u| :: DoubleAt(u, j) ==> DoubleAt(last, j);
      }
      SplitWhole(u);
    }
  }

  /** A padded port that is cut off comes back whole exactly if nothing but the padding is missing. */
  lemma CutPort(port: Str, n: nat)
    requires Neat(port) && n <= |port| + 1
    ensures Strip(([BLANK_SPACE] + port)[..n]) == port <==> n == |port| + 1 || (port == [] && n == 0)
  {
    var padded := [BLANK_SPACE] + port;
    StripPadded(port);
    if n == |port| + 1 {
      assert padded[..n] == padded;
    } else if n > 0 {
      assert padded[..n] == [BLANK_SPACE] + port[..n - 1];
      StripPadded(port[..n - 1]);
      StripShrinks(port[..n - 1]);
    }
  }

  /** The entry a record makes that is cut off after `i` characters. */
  lemma CutEntry(name: Str, ip: Str, port: Str, i: nat)
    requires Neat(name) && Neat(ip) && Neat(port) && i <= |name + GAP + ip + GAP + port|
    ensures var q, k := (name + GAP + ip + GAP + port)[..i], |name| + |ip| + 7;
            if i < k then EntryOf(q).None? else EntryOf(q) == Some((name, (ip, Strip(([BLANK_SPACE] + port)[..i - k]))))
  {
    var q, k := (name + GAP + ip + GAP + port)[..i], |name| + |ip| + 7;
    CutSplits(name, ip, port, i);
    if i < k {
      FewParts(q);
    } else {
      ThreeParts(q, name + [BLANK_SPACE], [BLANK_SPACE] + ip + [BLANK_SPACE], ([BLANK_SPACE] + port)[..i - k]);
      StripPadded(name);
      StripPadded(ip);
    }
  }

  /** A record cut off after `i` characters makes its user's entry exactly if nothing is missing, or the port is empty
      and only the space before it is missing. */
  lemma CutTextIff(name: Str, ip: Str, port: Str, i: nat)
    requires Neat(name) && Neat(ip) && Neat(port) && i <= |name + GAP + ip + GAP + port|
    ensures var all := name + GAP + ip + GAP + port;
            EntryOf(all[..i]) == Some((name, (ip, port))) <==> i == |all| || (port == [] && i + 1 == |all|)
  {
    var k := |name| + |ip| + 7;
    CutEntry(name, ip, port, i);
    if i >= k {
      CutPort(port, i - k);
    }
  }

  lemma FewParts(q: Str)
    requires |Split(q)| < 3
    ensures EntryOf(q).None?
  {
  }

  lemma ThreeParts(q: Str, a: Str, b: Str, c: Str)
    requires Split(q) == [a, b, c]
    ensures EntryOf(q) == Some((Strip(a), (Strip(b), Strip(c))))
  {
  }

  /** Nothing that stripping and reading to the end do not make up for. */
  predicate Dispensable(missing: Bytes) {
    forall i | 0 <= i < |missing| :: missing[i] == NUL || missing[i] == BLANK_SPACE
  }

  predicate ReadableFields(name: Bytes, ip: Bytes, port: Bytes) {
    && Presentable(name) && Presentable(ip) && Presentable(port)
    && NoNul(name) && NoNul(ip) && NoNul(port)
  }

  /** Of a record only the space before an empty port is dispensable. */
  lemma LastIsNeeded(name: Bytes, ip: Bytes, port: Bytes, j: nat)
    requires ReadableFields(name, ip, port) && j <= |RecordText(name, ip, port)|
    ensures var r := RecordText(name, ip, port);
            Dispensable(r[j..]) <==> j == |r| || (port == [] && j + 1 == |r|)
  {
    var r := RecordText(name, ip, port);
    if port == [] {
      assert r[|r| - 1] == BLANK_SPACE && r[|r| - 2] == COLON;
      if j + 2 <= |r| {
        assert r[j..][|r| - 2 - j] == COLON;
      }
    } else if j < |r| {
      EndsNeatly(port);
      assert r[j..][|r| - 1 - j] == port[|port| - 1];
    }
  }

  /** A field the client reads back does not end with a space. */
  lemma EndsNeatly(f: Bytes)
    requires Presentable(f) && f != []
    ensures f[|f| - 1] != BLANK_SPACE
  {
    var a, x := f[..|f| - 1], f[|f| - 1];
    assert f == a + [x] + [];
    if x < 0x80 {
      DecodeJoin(a, x, []);
    }
  }

  /** The bytes of a cut text are those of so many characters. */
  lemma CutText(t: Str, j: nat, q: Str)
    requires j <= |Encode(t)| && Decode(Encode(t)[..j]) == Some(q)
    ensures q <= t && Encode(q) == Encode(t)[..j]
  {
    CutDecodesIff(t, j);
    var i: nat :| Boundary(t, j, i);
    assert q == t[..i];
    DecodeIff(Encode(t)[..j], q);
  }

  lemma ShorterBytes(t: Str, i: nat)
    requires i < |t|
    ensures |Encode(t[..i])| < |Encode(t)|
  {
    EncodePrefix(t, i);
    DecodeEncode(t);
    DecodeEncode(t[..i]);
    assert Encode(t)[..|Encode(t)|] == Encode(t);
  }

  /** The same for the bytes of a record: the entry is its user's exactly if only dispensable bytes are missing. */
  lemma CutRecordIff(name: Bytes, ip: Bytes, port: Bytes, j: nat)
    requires ReadableFields(name, ip, port) && j <= |RecordText(name, ip, port)|
    ensures var r := RecordText(name, ip, port);
            var own := Some((Decode(name).value, (Decode(ip).value, Decode(port).value)));
            Decode(r[..j]).Some? && EntryOf(Decode(r[..j]).value) == own <==> Dispensable(r[j..])
  {
    var r := RecordText(name, ip, port);
    LastIsNeeded(name, ip, port, j);
    RecordDecodes(name, ip, port);
    var n, i, p := Decode(name).value, Decode(ip).value, Decode(port).value;
    var t := n + GAP + i + GAP + p;
    DecodeIff(r, t);
    DecodeIff(port, p);
    if Dispensable(r[j..]) {
      DispensableDecodes(name, ip, port, j);
    }
    if Decode(r[..j]).Some? {
      var q := Decode(r[..j]).value;
      CutText(t, j, q);
      assert q == t[..|q|];
      CutTextIff(n, i, p, |q|);
      SameLength(t, q);
      if p == [] {
        assert t[|t| - 1] == BLANK_SPACE;
        OneShorter(t, q);
      }
    }
  }

  lemma DispensableDecodes(name: Bytes, ip: Bytes, port: Bytes, j: nat)
    requires ReadableFields(name, ip, port)
    requires var r := RecordText(name, ip, port); j == |r| || (port == [] && j + 1 == |r|)
    ensures Decode(RecordText(name, ip, port)[..j]).Some?
  {
    var r := RecordText(name, ip, port);
    RecordDecodes(name, ip, port);
    if j == |r| {
      assert r[..j] == r;
    } else {
      DecodeJoin(r[..j], BLANK_SPACE, []);
      assert r == r[..j] + [BLANK_SPACE] + [];
    }
  }

  /** No characters are missing exactly if no bytes are. */
  lemma SameLength(t: Str, q: Str)
    requires q <= t
    ensures |q| == |t| <==> |Encode(q)| == |Encode(t)|
  {
    if |q| < |t| {
      ShorterBytes(t, |q|);
      assert t[..|q|] == q;
    } else {
      assert q == t;
    }
  }

  /** Of a text that ends with a space, one character is missing exactly if one byte is. */
  lemma OneShorter(t: Str, q: Str)
    requires q <= t && t != [] && t[|t| - 1] == BLANK_SPACE
    ensures |q| + 1 == |t| <==> |Encode(q)| + 1 == |Encode(t)|
  {
    var init := t[..|t| - 1];
    assert t == init + [BLANK_SPACE];
    EncodeSnoc(init, BLANK_SPACE);
    if |q| < |t| {
      SameLength(init, q);
    } else {
      assert q == t;
    }
  }

  lemma {:induction false} EncodeSnoc(s: Str, x: Byte)
    requires x < 0x80
    ensures Encode(s + [x]) == Encode(s) + [x]
  {
    if s == [] {
      assert [x][1..] == [];
    } else {
      EncodeSnoc(s[1..], x);
      assert (s + [x])[1..] == s[1..] + [x];
    }
  }

  // ---- The records, cut off.

  /** After the end of the stream nothing more is noted. */
  lemma {:induction false} NothingCollected(n: nat, d: Directory)
    ensures Collected([], n, d, false) == (d, OK)
  {
    if n > 0 {
      assert Split([]) == [[]];
      NothingCollected(n - 1, d);
    }
  }

  /** One string of the stream is noted. */
  lemma CollectOne(p: Bytes, rest: Bytes, n: nat, d: Directory)
    requires NoNul(p) && n > 0
    ensures Collected(p + [NUL] + rest, n, d, false) ==
            if Decode(p).None? then (d, RAISED) else Collected(rest, n - 1, Noted(d, Decode(p).value), false)
  {
    TextOfField(p, rest);
  }

  /** So is the last string of a stream that ends inside it. */
  lemma CollectLast(p: Bytes, n: nat, d: Directory)
    requires NoNul(p) && n > 0
    ensures Collected(p, n, d, false) ==
            match Decode(p) case None => (d, RAISED) case Some(info) => (Noted(d, info), OK)
  {
    TextOfField(p, []);
    if Decode(p).Some? {
      NothingCollected(n - 1, Noted(d, Decode(p).value));
    }
  }

  lemma EarlierBytes(p: Bytes, rest: Bytes, j: nat)
    requires j <= |p|
    ensures (p + [NUL] + rest)[..j] == p[..j] && (p + [NUL] + rest)[j..] == p[j..] + ([NUL] + rest)
  {
  }

  lemma LaterBytes(p: Bytes, rest: Bytes, j: nat)
    requires |p| < j <= |p| + 1 + |rest|
    ensures (p + [NUL] + rest)[j..] == rest[j - |p| - 1..]
    ensures (p + [NUL] + rest)[..j] == p + [NUL] + rest[..j - |p| - 1]
  {
  }

  type DirectoryEntry = (Str, (Str, Str))

  /** The first `j` bytes of a record make the entry. */
  ghost predicate MakesAt(p: Bytes, j: nat, e: DirectoryEntry)
    requires j <= |p|
  {
    Decode(p[..j]).Some? && EntryOf(Decode(p[..j]).value) == Some(e)
  }

  /** A beginning of the record makes the entry exactly if only dispensable bytes are missing. */
  ghost predicate Needs(p: Bytes, e: DirectoryEntry) {
    && NoNul(p) && !Dispensable(p)
    && forall j: nat {:trigger MakesAt(p, j, e)} | j <= |p| :: MakesAt(p, j, e) <==> Dispensable(p[j..])
  }

  ghost predicate AllNeed(ps: seq<Bytes>, es: seq<DirectoryEntry>) {
    |ps| == |es| && forall i | 0 <= i < |ps| :: Needs(ps[i], es[i])
  }

  /** The entries have different names, none of them in the directory. */
  predicate NewNames(es: seq<DirectoryEntry>, d: Directory) {
    && (forall i | 0 <= i < |es| :: es[i].0 !in d)
    && (forall i, j | 0 <= i < j < |es| :: es[i].0 != es[j].0)
  }

  function WithEntry(d: Directory, e: DirectoryEntry): Directory {
    d[e.0 := e.1]
  }

  function WithAll(d: Directory, es: seq<DirectoryEntry>): Directory
    decreases |es|
  {
    if es == [] then d else WithAll(WithEntry(d, es[0]), es[1..])
  }

  lemma LaterNames(es: seq<DirectoryEntry>, d: Directory)
    requires es != [] && NewNames(es, d)
    ensures NewNames(es[1..], WithEntry(d, es[0])) && es[0].0 !in d
  {
    assert forall i | 0 <= i < |es[1..]| :: es[1..][i] == es[i + 1];
  }

  lemma {:induction false} OneEntryEach(es: seq<DirectoryEntry>, d: Directory)
    requires NewNames(es, d)
    ensures |WithAll(d, es)| == |d| + |es|
    decreases |es|
  {
    if es != [] {
      LaterNames(es, d);
      OneEntryEach(es[1..], WithEntry(d, es[0]));
    }
  }

  lemma DispensableParts(a: Bytes, b: Bytes)
    ensures Dispensable(a + b) <==> Dispensable(a) && Dispensable(b)
  {
    if Dispensable(a + b) {
      assert forall i | 0 <= i < |a| :: (a + b)[i] == a[i];
      assert forall i | 0 <= i < |b| :: (a + b)[|a| + i] == b[i];
    }
  }

  lemma FirstIsNeeded(p: Bytes, rest: Bytes)
    requires !Dispensable(p)
    ensures !Dispensable(p + [NUL] + rest)
  {
    assert p + [NUL] + rest == p + ([NUL] + rest);
    DispensableParts(p, [NUL] + rest);
  }

  /** What the client notes of `n` strings if the stream ends after `j` bytes. */
  function NotedCut(w: Bytes, n: nat, j: nat, d: Directory): (Directory, RC)
    requires j <= |w|
  {
    Collected(w[..j], n, d, false)
  }

  /** A record that is there makes its entry. */
  lemma WholeMakes(p: Bytes, e: DirectoryEntry, d: Directory)
    requires Needs(p, e)
    ensures Decode(p).Some? && Noted(d, Decode(p).value) == WithEntry(d, e)
  {
    assert p[..|p|] == p && p[|p|..] == [];
    assert MakesAt(p, |p|, e);
  }

  lemma CutBehind(p: Bytes, others: Bytes, e: DirectoryEntry, j: nat, n: nat, d: Directory)
    requires Needs(p, e) && n > 0 && |p| < j <= |p| + 1 + |others|
    ensures var all, k := p + [NUL] + others, j - |p| - 1;
            NotedCut(all, n, j, d) == NotedCut(others, n - 1, k, WithEntry(d, e)) && all[j..] == others[k..]
  {
    WholeMakes(p, e, d);
    LaterBytes(p, others, j);
    CollectOne(p, others[..j - |p| - 1], n, d);
  }

  /** Cut off inside a record nothing but its own entry can be noted. */
  lemma CutInside(p: Bytes, others: Bytes, e: DirectoryEntry, j: nat, n: nat, d: Directory)
    requires Needs(p, e) && n > 0 && j <= |p| && e.0 !in d
    ensures var all := p + [NUL] + others;
      && (NotedCut(all, n, j, d) == (WithEntry(d, e), OK) <==> Dispensable(p[j..]))
      && |NotedCut(all, n, j, d).0| <= |d| + 1
      && (Dispensable(all[j..]) <==> Dispensable(p[j..]) && Dispensable(others))
  {
    EarlierBytes(p, others, j);
    CollectLast(p[..j], n, d);
    NotedOwnIff(d, e, Decode(p[..j]));
    assert MakesAt(p, j, e) <==> Dispensable(p[j..]);
    DispensableParts(p[j..], [NUL] + others);
    DispensableParts([NUL], others);
  }

  /** A text is noted as the entry exactly if it makes that entry. */
  lemma NotedOwnIff(d: Directory, e: DirectoryEntry, info: Option<Str>)
    requires e.0 !in d
    ensures info.Some? && Noted(d, info.value) == WithEntry(d, e) <==> info.Some? && EntryOf(info.value) == Some(e)
    ensures info.Some? ==> |Noted(d, info.value)| <= |d| + 1
  {
    if info.Some? && Noted(d, info.value) == WithEntry(d, e) {
      assert e.0 in WithEntry(d, e) && WithEntry(d, e)[e.0] == e.1;
    }
  }

  /** Cut off after `j` bytes the records leave the full directory exactly if only dispensable bytes are missing. */
  lemma {:induction false} CutRecordsIff(ps: seq<Bytes>, es: seq<DirectoryEntry>, j: nat, d: Directory)
    requires AllNeed(ps, es) && NewNames(es, d) && j <= |Wire(ps)|
    ensures NotedCut(Wire(ps), |ps|, j, d) == (WithAll(d, es), OK) <==> Dispensable(Wire(ps)[j..])
    decreases |ps|
  {
    if ps != [] {
      var p, others := ps[0], Wire(ps[1..]);
      LaterNames(es, d);
      assert AllNeed(ps[1..], es[1..]);
      if j <= |p| {
        CutInside(p, others, es[0], j, |ps|, d);
        OneEntryEach(es, d);
        if |ps| == 1 {
          assert es[1..] == [] && ps[1..] == [];
        } else {
          FirstIsNeeded(ps[1], Wire(ps[1..][1..]));
        }
      } else {
        CutBehind(p, others, es[0], j, |ps|, d);
        CutRecordsIff(ps[1..], es[1..], j - |p| - 1, WithEntry(d, es[0]));
      }
    }
  }

  // ---- The reply, cut off.

  function OwnEntry(u: User): DirectoryEntry
    requires ReadableRecord(u)
  {
    (Decode(u.name).value, (Decode(u.record.ip).value, Decode(u.record.port).value))
  }

  function OwnEntries(us: seq<User>): (es: seq<DirectoryEntry>)
    requires forall i | 0 <= i < |us| :: ReadableRecord(us[i])
    ensures |es| == |us| && forall i | 0 <= i < |us| :: es[i] == OwnEntry(us[i])
  {
    seq(|us|, i requires 0 <= i < |us| => OwnEntry(us[i]))
  }

  /** The record of a user the client can read back needs all its bytes. */
  lemma RecordNeeds(u: User)
    requires ReadableFields(u.name, u.record.ip, u.record.port)
    requires Printed(u) == RecordText(u.name, u.record.ip, u.record.port)
    ensures Needs(Printed(u), OwnEntry(u))
  {
    var p := Printed(u);
    forall j: nat | j <= |p| ensures MakesAt(p, j, OwnEntry(u)) <==> Dispensable(p[j..]) {
      CutRecordIff(u.name, u.record.ip, u.record.port, j);
    }
    LastIsNeeded(u.name, u.record.ip, u.record.port, 0);
    assert p[0..] == p;
  }

  lemma ConnectedReadable(list: seq<User>, up: seq<User>)
    requires AllReadable(list) && up == Connected(list)
    ensures forall i | 0 <= i < |up| :: ReadableRecord(up[i])
  {
    ConnectedAre(list);
    forall i | 0 <= i < |up| ensures ReadableRecord(up[i]) {
      assert up[i] in list;
    }
  }

  /** The entries of the connected users, in list order. */
  function ConnectedEntries(list: seq<User>): (es: seq<DirectoryEntry>)
    requires AllReadable(list)
    ensures |es| == |Connected(list)|
  {
    var up := Connected(list);
    ConnectedReadable(list, up);
    OwnEntries(up)
  }

  lemma ConnectedNeed(list: seq<User>)
    requires UniqueNames(list) && Fits(AsMap(list)) && CStrings(list) && AllReadable(list)
    ensures AllNeed(Records(Connected(list)), ConnectedEntries(list))
    ensures NewNames(ConnectedEntries(list), map[])
  {
    var up := Connected(list);
    ConnectedAre(list);
    ConnectedReadable(list, up);
    forall i | 0 <= i < |up| ensures Needs(Printed(up[i]), OwnEntry(up[i])) {
      assert up[i] in list;
      PrintedDecodes(list, i);
      RecordNeeds(up[i]);
    }
    forall i, j | 0 <= i < j < |up| ensures OwnEntry(up[i]).0 != OwnEntry(up[j]).0 {
      SameText(up[i].name, up[j].name);
    }
  }

  /** The count, cut off: no record follows, and the directory stays empty. */
  lemma CutCount(digits: Digits, n: nat, k: nat, d: Directory)
    requires Sane(digits) && k <= |Print(n)|
    ensures Refreshed(digits, [0] + Print(n)[..k], d, false) == (OK, map[])
  {
    var part := Print(n)[..k];
    var b := [0] + part;
    PrintReads(n);
    assert b[1..] == part;
    TextOfField(part, []);
    DecodePlain(part);
    PlainInt(digits, part);
    NothingCollected(if IntOf(digits, part).Number? then IntOf(digits, part).n else 0, map[]);
  }

  /** A count and records, cut off anywhere. */
  lemma CutBytesIff(digits: Digits, ps: seq<Bytes>, es: seq<DirectoryEntry>, d: Directory, k: nat)
    requires Sane(digits) && AllNeed(ps, es) && NewNames(es, map[]) && ps != []
    requires k <= |[0] + (Print(|ps|) + [NUL] + Wire(ps))|
    ensures var b := [0] + (Print(|ps|) + [NUL] + Wire(ps));
            Refreshed(digits, b[..k], d, false) == (OK, WithAll(map[], es)) <==> Dispensable(b[k..])
  {
    var num, recs := Print(|ps|), Wire(ps);
    var b := [0] + (num + [NUL] + recs);
    if k <= |num| + 1 {
      CountIsCut(b, num, recs, k);
      FirstIsNeeded(ps[0], Wire(ps[1..]));
      DispensableParts(([0] + num + [NUL])[k..], recs);
      OneEntryEach(es, map[]);
      if k > 0 {
        CutCount(digits, |ps|, k - 1, d);
      }
    } else {
      var j := k - |num| - 2;
      CountIsWhole(b, num, recs, k);
      CountThenRecords(digits, b[..k], |ps|, recs[..j], d, false);
      CutRecordsIff(ps, es, j, map[]);
    }
  }

  lemma CountIsWhole(b: Bytes, num: Bytes, recs: Bytes, k: nat)
    requires b == [0] + (num + [NUL] + recs) && |num| + 2 <= k <= |b|
    ensures var j := k - |num| - 2; b[..k] == [0] + (num + [NUL] + recs[..j]) && b[k..] == recs[j..]
  {
  }

  lemma CountIsCut(b: Bytes, num: Bytes, recs: Bytes, k: nat)
    requires b == [0] + (num + [NUL] + recs) && k <= |num| + 1
    ensures b[k..] == ([0] + num + [NUL])[k..] + recs && (k > 0 ==> b[..k] == [0] + num[..k - 1])
  {
  }

  /** The requester is connected, and the client can read every record back. */
  predicate Answerable(list: seq<User>, asker: Name) {
    && UniqueNames(list) && Fits(AsMap(list)) && CStrings(list) && AllReadable(list)
    && |Connected(list)| < WORD && asker in AsMap(list) && AsMap(list)[asker].connected
  }

  lemma SomebodyConnected(list: seq<User>, asker: Name)
    requires UniqueNames(list) && asker in AsMap(list) && AsMap(list)[asker].connected
    ensures Connected(list) != []
  {
    ConnectedAre(list);
    LookupAgrees(list, asker);
    assert list[IndexOf(list, asker)] in Connected(list);
  }

  /** The reply is a count and so many records, each of which needs its bytes. */
  lemma ReplyNeeds(list: seq<User>, asker: Name) returns (ps: seq<Bytes>, es: seq<DirectoryEntry>)
    requires Answerable(list, asker)
    ensures Reply(list, asker) == [0] + (Print(|ps|) + [NUL] + Wire(ps))
    ensures ps != [] && AllNeed(ps, es) && NewNames(es, map[])
    ensures ps == Records(Connected(list)) && es == ConnectedEntries(list)
  {
    ConnectedNeed(list);
    SomebodyConnected(list, asker);
    ReplyParts(list, asker);
    ps, es := Records(Connected(list)), ConnectedEntries(list);
  }

  /** A reply that ends after `k` bytes leaves the client with the result and the directory of the whole reply if and
      only if nothing is missing but NULs and spaces, which are the last NUL and the space before an empty port. */
  lemma CutReplyIff(digits: Digits, list: seq<User>, asker: Name, d: Directory, k: nat)
    requires Sane(digits) && Answerable(list, asker) && k <= |Reply(list, asker)|
    ensures var b := Reply(list, asker);
            Refreshed(digits, b[..k], d, false) == Refreshed(digits, b, d, false) <==> Dispensable(b[k..])
  {
    var b := Reply(list, asker);
    var ps, es := ReplyNeeds(list, asker);
    CutBytesIff(digits, ps, es, d, k);
    CutBytesIff(digits, ps, es, d, |b|);
    assert b[..|b|] == b && b[|b|..] == [];
  }

  // ---- When a cut reply counts as OK.

  lemma DecodeBehind(p: Bytes, rest: Bytes)
    requires Decode(p).Some?
    ensures Decode(p + [NUL] + rest).Some? <==> Decode(rest).Some?
  {
    DecodeJoin(p, NUL, rest);
  }

  /** Text that can be decoded is accepted; other bytes raise. */
  function Accepting(b: Bytes): RC {
    if Decode(b).Some? then OK else RAISED
  }

  /** How many of the strings are whole, NUL and all, in the first `j` bytes. */
  function WholeIn(ps: seq<Bytes>, j: nat): (i: nat)
    ensures i <= |ps|
  {
    if ps == [] || j <= |ps[0]| then 0 else 1 + WholeIn(ps[1..], j - |ps[0]| - 1)
  }

  lemma OneMoreWhole(ps: seq<Bytes>, es: seq<DirectoryEntry>, j: nat, d: Directory)
    requires |es| == |ps| && ps != [] && j > |ps[0]|
    ensures var i := WholeIn(ps[1..], j - |ps[0]| - 1);
            WholeIn(ps, j) == i + 1 && WithAll(d, es[..i + 1]) == WithAll(WithEntry(d, es[0]), es[1..][..i])
  {
    var i := WholeIn(ps[1..], j - |ps[0]| - 1);
    assert es[..i + 1][1..] == es[1..][..i];
  }

  lemma InsideAccepted(p: Bytes, others: Bytes, j: nat, n: nat, d: Directory)
    requires NoNul(p) && n > 0 && j <= |p|
    ensures var all := p + [NUL] + others; NotedCut(all, n, j, d).1 == Accepting(all[..j])
  {
    EarlierBytes(p, others, j);
    CollectLast(p[..j], n, d);
  }

  lemma CutOffFirstRecord(p: Bytes, others: Bytes, j: nat, n: nat, d: Directory)
    requires NoNul(p) && n > 0 && j <= |p|
    ensures var all := p + [NUL] + others; Decode(all[..j]).None? ==> NotedCut(all, n, j, d).0 == d
  {
    EarlierBytes(p, others, j);
    CollectLast(p[..j], n, d);
  }

  lemma BehindDecodes(p: Bytes, others: Bytes, e: DirectoryEntry, j: nat)
    requires Needs(p, e) && |p| < j <= |p| + 1 + |others|
    ensures Decode((p + [NUL] + others)[..j]).Some? <==> Decode(others[..j - |p| - 1]).Some?
  {
    WholeMakes(p, e, map[]);
    LaterBytes(p, others, j);
    DecodeBehind(p, others[..j - |p| - 1]);
  }

  lemma {:induction false} CutAccepted(ps: seq<Bytes>, es: seq<DirectoryEntry>, j: nat, d: Directory)
    requires AllNeed(ps, es) && j <= |Wire(ps)|
    ensures NotedCut(Wire(ps), |ps|, j, d).1 == Accepting(Wire(ps)[..j])
    decreases |ps|
  {
    if ps != [] {
      var p, others := ps[0], Wire(ps[1..]);
      assert Needs(p, es[0]) && AllNeed(ps[1..], es[1..]);
      if j <= |p| {
        InsideAccepted(p, others, j, |ps|, d);
      } else {
        CutBehind(p, others, es[0], j, |ps|, d);
        BehindDecodes(p, others, es[0], j);
        CutAccepted(ps[1..], es[1..], j - |p| - 1, WithEntry(d, es[0]));
      }
    }
  }

  /** Cut off inside a character only the records before are noted. */
  lemma {:induction false} CutRaised(ps: seq<Bytes>, es: seq<DirectoryEntry>, j: nat, d: Directory)
    requires AllNeed(ps, es) && j <= |Wire(ps)| && Decode(Wire(ps)[..j]).None?
    ensures NotedCut(Wire(ps), |ps|, j, d).0 == WithAll(d, es[..WholeIn(ps, j)])
    decreases |ps|
  {
    if ps != [] {
      var p, others := ps[0], Wire(ps[1..]);
      assert Needs(p, es[0]) && AllNeed(ps[1..], es[1..]);
      if j <= |p| {
        CutOffFirstRecord(p, others, j, |ps|, d);
        assert es[..0] == [];
      } else {
        CutBehind(p, others, es[0], j, |ps|, d);
        BehindDecodes(p, others, es[0], j);
        CutRaised(ps[1..], es[1..], j - |p| - 1, WithEntry(d, es[0]));
        OneMoreWhole(ps, es, j, d);
      }
    }
  }

  /** Where the records of a reply of `n` records begin. */
  function HeadLength(n: nat): nat {
    |Print(n)| + 2
  }

  /** The entries whose records are whole in the first `k` bytes of the reply. */
  function EntriesIn(ps: seq<Bytes>, es: seq<DirectoryEntry>, k: nat): Directory
    requires |es| == |ps| && k >= HeadLength(|ps|)
  {
    WithAll(map[], es[..WholeIn(ps, k - HeadLength(|ps|))])
  }

  /** The reply up to the end of the count, cut off. */
  predicate PartOfHead(b: Bytes, num: Bytes, k: nat)
    requires k <= |num| + 1
  {
    b == if k == 0 then [] else [0] + num[..k - 1]
  }

  lemma HeadIsCut(b: Bytes, num: Bytes, recs: Bytes, k: nat)
    requires b == [0] + (num + [NUL] + recs) && k <= |num| + 1
    ensures PartOfHead(b[..k], num, k)
  {
    CountIsCut(b, num, recs, k);
  }

  lemma RecordsAreCut(b: Bytes, num: Bytes, recs: Bytes, k: nat)
    requires b == [0] + (num + [NUL] + recs) && |num| + 2 <= k <= |b|
    ensures var j := k - |num| - 2; j <= |recs| && b[..k] == [0] + (num + [NUL] + recs[..j])
  {
    CountIsWhole(b, num, recs, k);
  }

  lemma HeadAccepted(digits: Digits, b: Bytes, n: nat, k: nat, d: Directory)
    requires Sane(digits) && k <= |Print(n)| + 1 && PartOfHead(b, Print(n), k)
    ensures Refreshed(digits, b, d, false).0 == if k == 0 then ERROR else Accepting(b)
    ensures k > 0 ==> Decode(b).Some?
  {
    if k > 0 {
      CutCount(digits, n, k - 1, d);
      CountDecodes(n, k - 1);
    }
  }

  lemma HeadReset(digits: Digits, b: Bytes, n: nat, k: nat, d: Directory)
    requires k <= |Print(n)| + 1 && PartOfHead(b, Print(n), k)
    ensures Refreshed(digits, b, d, true) == (ERROR, d)
  {
    if k > 0 {
      PrintReads(n);
      ResetCount(digits, Print(n)[..k - 1], d);
    }
  }

  /** Cut off behind the count. */
  lemma RecordsAccepted(digits: Digits, b: Bytes, ps: seq<Bytes>, es: seq<DirectoryEntry>, d: Directory, j: nat)
    requires Sane(digits) && AllNeed(ps, es) && j <= |Wire(ps)|
    requires b == [0] + (Print(|ps|) + [NUL] + Wire(ps)[..j])
    ensures Refreshed(digits, b, d, false).0 == Accepting(b)
    ensures Decode(b).None? ==> j > 0 && Refreshed(digits, b, d, false).1 == EntriesIn(ps, es, HeadLength(|ps|) + j)
  {
    var recs := Wire(ps)[..j];
    CountThenRecords(digits, b, |ps|, recs, d, false);
    CutAccepted(ps, es, j, map[]);
    DecodeBehindCount(|ps|, recs);
    assert j == 0 ==> recs == [];
    if Decode(recs).None? {
      CutRaised(ps, es, j, map[]);
    }
  }

  /** The first `k` bytes of a reply. */
  predicate PartOfReply(c: Bytes, num: Bytes, recs: Bytes, k: nat) {
    if k <= |num| + 1 then PartOfHead(c, num, k)
    else k - |num| - 2 <= |recs| && c == [0] + (num + [NUL] + recs[..k - |num| - 2])
  }

  lemma ReplyIsCut(b: Bytes, num: Bytes, recs: Bytes, k: nat)
    requires b == [0] + (num + [NUL] + recs) && k <= |b|
    ensures PartOfReply(b[..k], num, recs, k)
  {
    if k <= |num| + 1 {
      HeadIsCut(b, num, recs, k);
    } else {
      RecordsAreCut(b, num, recs, k);
    }
  }

  lemma CutBytesAccepted(digits: Digits, c: Bytes, ps: seq<Bytes>, es: seq<DirectoryEntry>, d: Directory, k: nat)
    requires Sane(digits) && AllNeed(ps, es) && PartOfReply(c, Print(|ps|), Wire(ps), k)
    ensures Refreshed(digits, c, d, false).0 == if k == 0 then ERROR else Accepting(c)
    ensures k > 0 && Decode(c).None? ==>
              k > HeadLength(|ps|) && Refreshed(digits, c, d, false).1 == EntriesIn(ps, es, k)
  {
    if k <= |Print(|ps|)| + 1 {
      HeadAccepted(digits, c, |ps|, k, d);
    } else {
      RecordsAccepted(digits, c, ps, es, d, k - HeadLength(|ps|));
    }
  }

  lemma CountDecodes(n: nat, k: nat)
    requires k <= |Print(n)|
    ensures Decode([0] + Print(n)[..k]).Some?
  {
    PrintReads(n);
    DecodePlain([0] + Print(n)[..k]);
  }

  lemma DecodeBehindCount(n: nat, rest: Bytes)
    ensures Decode([0] + (Print(n) + [NUL] + rest)).Some? <==> Decode(rest).Some?
  {
    CountDecodes(n, |Print(n)|);
    assert Print(n)[..|Print(n)|] == Print(n);
    DecodeBehind([0] + Print(n), rest);
    assert [0] + (Print(n) + [NUL] + rest) == [0] + Print(n) + [NUL] + rest;
  }

  /** The entries of the users whose records are whole in the first `k` bytes of the reply. */
  function EntriesBefore(list: seq<User>, k: nat): Directory
    requires AllReadable(list) && k >= HeadLength(|Connected(list)|)
  {
    EntriesIn(Records(Connected(list)), ConnectedEntries(list), k)
  }

  /** A reply that ends after `k` bytes counts as OK if and only if there are any and the cut is not inside a
      character. Cut inside one it raises, with the directory holding the entries whose records are whole. */
  lemma CutReplyAcceptedIff(digits: Digits, list: seq<User>, asker: Name, d: Directory, k: nat)
    requires Sane(digits) && Answerable(list, asker) && k <= |Reply(list, asker)|
    ensures var b := Reply(list, asker);
      && Refreshed(digits, b[..k], d, false).0 == (if k == 0 then ERROR else Accepting(b[..k]))
      && (k > 0 && Decode(b[..k]).None? ==>
            && k > HeadLength(|Connected(list)|) && Refreshed(digits, b[..k], d, false).1 == EntriesBefore(list, k))
  {
    var ps, es := ReplyNeeds(list, asker);
    ReplyIsCut(Reply(list, asker), Print(|ps|), Wire(ps), k);
    CutBytesAccepted(digits, Reply(list, asker)[..k], ps, es, d, k);
  }

  // ---- The reply, reset.

  lemma ResetInside(p: Bytes, n: nat, d: Directory)
    requires NoNul(p) && n > 0
    ensures Collected(p, n, d, true) == (d, ERROR)
  {
  }

  lemma ResetBehind(p: Bytes, rest: Bytes, n: nat, d: Directory)
    requires NoNul(p) && n > 0
    ensures Collected(p + [NUL] + rest, n, d, true) ==
            if Decode(p).None? then (d, RAISED) else Collected(rest, n - 1, Noted(d, Decode(p).value), true)
  {
    assert (p + [NUL] + rest)[|p|] == NUL;
    TextOfField(p, rest);
  }

  /** What the client notes of `n` strings if a reset comes after `j` bytes. */
  function NotedReset(w: Bytes, n: nat, j: nat, d: Directory): (Directory, RC)
    requires j <= |w|
  {
    Collected(w[..j], n, d, true)
  }

  lemma ResetCutInside(p: Bytes, others: Bytes, j: nat, n: nat, d: Directory)
    requires NoNul(p) && n > 0 && j <= |p|
    ensures NotedReset(p + [NUL] + others, n, j, d) == (d, ERROR)
  {
    EarlierBytes(p, others, j);
    assert NoNul(p[..j]);
    ResetInside(p[..j], n, d);
  }

  lemma ResetCutBehind(p: Bytes, others: Bytes, e: DirectoryEntry, j: nat, n: nat, d: Directory)
    requires Needs(p, e) && n > 0 && |p| < j <= |p| + 1 + |others|
    ensures NotedReset(p + [NUL] + others, n, j, d) == NotedReset(others, n - 1, j - |p| - 1, WithEntry(d, e))
  {
    WholeMakes(p, e, d);
    LaterBytes(p, others, j);
    ResetBehind(p, others[..j - |p| - 1], n, d);
  }

  /** After a reset the records count as read exactly if all of them came before it. */
  lemma {:induction false} ResetRecordsIff(ps: seq<Bytes>, es: seq<DirectoryEntry>, j: nat, d: Directory)
    requires AllNeed(ps, es) && j <= |Wire(ps)|
    ensures NotedReset(Wire(ps), |ps|, j, d) ==
            if j == |Wire(ps)| then (WithAll(d, es), OK) else (WithAll(d, es[..WholeIn(ps, j)]), ERROR)
    decreases |ps|
  {
    if ps != [] {
      var p, others := ps[0], Wire(ps[1..]);
      assert Needs(p, es[0]) && AllNeed(ps[1..], es[1..]);
      if j <= |p| {
        ResetCutInside(p, others, j, |ps|, d);
        assert es[..0] == [];
      } else {
        ResetCutBehind(p, others, es[0], j, |ps|, d);
        ResetRecordsIff(ps[1..], es[1..], j - |p| - 1, WithEntry(d, es[0]));
        OneMoreWhole(ps, es, j, d);
      }
    }
  }

  /** A count cut off by a reset is an error. */
  lemma ResetCount(digits: Digits, num: Bytes, d: Directory)
    requires NoNul(num)
    ensures Refreshed(digits, [0] + num, d, true) == (ERROR, d)
  {
    assert ([0] + num)[1..] == num;
  }

  lemma ResetBytesIff(digits: Digits, c: Bytes, ps: seq<Bytes>, es: seq<DirectoryEntry>, d: Directory, k: nat)
    requires Sane(digits) && AllNeed(ps, es) && PartOfReply(c, Print(|ps|), Wire(ps), k)
    ensures Refreshed(digits, c, d, true) ==
            if k == HeadLength(|ps|) + |Wire(ps)| then (OK, WithAll(map[], es))
            else (ERROR, if k < HeadLength(|ps|) then d else EntriesIn(ps, es, k))
  {
    if k <= |Print(|ps|)| + 1 {
      HeadReset(digits, c, |ps|, k, d);
    } else {
      var j := k - HeadLength(|ps|);
      CountThenRecords(digits, c, |ps|, Wire(ps)[..j], d, true);
      ResetRecordsIff(ps, es, j, map[]);
    }
  }

  /** A reply over a connection that is reset counts as OK if and only if all of it came before the reset, and then it
      leaves the directory it leaves over a connection that is closed. Otherwise the result is an error: before the
      count the directory is as it was, after it it holds the entries whose records are whole. */
  lemma ResetReplyIff(digits: Digits, list: seq<User>, asker: Name, d: Directory, k: nat)
    requires Sane(digits) && Answerable(list, asker) && k <= |Reply(list, asker)|
    ensures var b := Reply(list, asker);
            Refreshed(digits, b[..k], d, true) ==
            if k == |b| then Refreshed(digits, b, d, false)
            else (ERROR, if k < HeadLength(|Connected(list)|) then d else EntriesBefore(list, k))
  {
    var b := Reply(list, asker);
    var ps, es := ReplyNeeds(list, asker);
    ReplyIsCut(b, Print(|ps|), Wire(ps), k);
    ResetBytesIff(digits, b[..k], ps, es, d, k);
    WholeReply(digits, b, ps, es, d);
  }

  lemma WholeReply(digits: Digits, b: Bytes, ps: seq<Bytes>, es: seq<DirectoryEntry>, d: Directory)
    requires Sane(digits) && AllNeed(ps, es) && NewNames(es, map[]) && ps != []
    requires b == [0] + (Print(|ps|) + [NUL] + Wire(ps))
    ensures Refreshed(digits, b, d, false) == (OK, WithAll(map[], es))
  {
    CutBytesIff(digits, ps, es, d, |b|);
    assert b[..|b|] == b && b[|b|..] == [];
  }
}
