/** The normaliser of message text and the command line in front of it. Both cut text into words; what they make
    of a command is safe to send as NUL-terminated fields.
  */
module Normalizer {
  import opened Basics
  import opened Framing
  import opened PythonText
  import opened Utf8

  /** The length of the run of non-space characters the text starts with. */
  function WordLength(s: Str): (k: nat)
    ensures k <= |s| && forall i | 0 <= i < k :: !IsSpace(s[i])
    ensures k < |s| ==> IsSpace(s[k])
  {
    if s == [] || IsSpace(s[0]) then 0 else 1 + WordLength(s[1..])
  }

  function Words(s: Str): seq<Str> {
    if s == [] then []
    else if IsSpace(s[0]) then Words(s[1..])
    else [s[..WordLength(s)]] + Words(s[WordLength(s)..])
  }

  function Join(words: seq<Str>): Str {
    if words == [] then []
    else if |words| == 1 then words[0]
    else words[0] + [32] + Join(words[1..])
  }

  function Normalize(s: Str): Str {
    Join(Words(s))
  }

  predicate IsWord(w: Str) {
    w != [] && forall i | 0 <= i < |w| :: !IsSpace(w[i])
  }

  predicate AllWords(words: seq<Str>) {
    forall i | 0 <= i < |words| :: IsWord(words[i])
  }

  lemma {:induction false} WordsAreWords(s: Str)
    ensures AllWords(Words(s))
  {
    if s != [] {
      WordsAreWords(if IsSpace(s[0]) then s[1..] else s[WordLength(s)..]);
    }
  }

  lemma WordLengthIs(s: Str, k: nat)
    requires k <= |s| && (forall i | 0 <= i < k :: !IsSpace(s[i])) && (k < |s| ==> IsSpace(s[k]))
    ensures WordLength(s) == k
  {
  }

  lemma WordFirst(w: Str, rest: Str)
    requires IsWord(w) && (rest != [] ==> IsSpace(rest[0]))
    ensures Words(w + rest) == [w] + Words(rest)
  {
    var s := w + rest;
    WordLengthIs(s, |w|);
    assert s[..|w|] == w && s[|w|..] == rest;
  }

  /** Splitting undoes joining. */
  lemma {:induction false} WordsOfJoin(words: seq<Str>)
    requires AllWords(words)
    ensures Words(Join(words)) == words
  {
    if words != [] {
      var rest: Str := if |words| == 1 then [] else [32] + Join(words[1..]);
      assert Join(words) == words[0] + rest;
      WordFirst(words[0], rest);
      if |words| > 1 {
        WordsOfJoin(words[1..]);
        assert rest[1..] == Join(words[1..]);
      }
    }
  }

  /** Normalising keeps the words and does nothing the second time. */
  lemma NormalizeIsIdempotent(s: Str)
    ensures Words(Normalize(s)) == Words(s)
    ensures Normalize(Normalize(s)) == Normalize(s)
  {
    WordsAreWords(s);
    WordsOfJoin(Words(s));
  }

  /** The normal form is canonical: two texts share it exactly when they have the same words. */
  lemma {:induction false} NormalFormIff(a: Str, b: Str)
    ensures Normalize(a) == Normalize(b) <==> Words(a) == Words(b)
  {
    NormalizeIsIdempotent(a);
    NormalizeIsIdempotent(b);
  }

  /** No space at either end, no two in a row, and none but the plain one. */
  predicate Tidy(s: Str) {
    && (s != [] ==> !IsSpace(s[0]) && !IsSpace(s[|s| - 1]))
    && (forall i | 0 <= i < |s| :: IsSpace(s[i]) ==> s[i] == 32)
    && (forall i | 0 <= i < |s| - 1 :: !(IsSpace(s[i]) && IsSpace(s[i + 1])))
  }

  lemma {:induction false} JoinIsTidy(words: seq<Str>)
    requires AllWords(words)
    ensures Tidy(Join(words)) && (words != [] ==> Join(words) != [])
  {
    if |words| > 1 {
      JoinIsTidy(words[1..]);
      assert AllWords(words[1..]);
    }
  }

  lemma TidyTail(s: Str, k: nat)
    requires Tidy(s) && k < |s| && IsSpace(s[k])
    ensures s[k..] == [32] + s[k + 1..] && s[k + 1..] != [] && Tidy(s[k + 1..])
  {
    var tail := s[k + 1..];
    assert k + 1 < |s|;
    forall i | 0 <= i < |tail| ensures IsSpace(tail[i]) ==> tail[i] == 32 && i < |tail| - 1 && !IsSpace(tail[i + 1]) {
      assert tail[i] == s[k + 1 + i];
      assert i < |tail| - 1 ==> tail[i + 1] == s[k + 2 + i];
    }
    assert !(IsSpace(s[k]) && IsSpace(s[k + 1]));
  }

  lemma {:induction false} TidyIsFixed(s: Str)
    requires Tidy(s)
    ensures Normalize(s) == s
    decreases |s|
  {
    var k := WordLength(s);
    if k == |s| {
      WholeWord(s);
    } else {
      TidyTail(s, k);
      TidyIsFixed(s[k + 1..]);
      WordThenSpace(s, k);
      JoinFirst(s, k, Words(s[k + 1..]));
    }
  }

  lemma WholeWord(s: Str)
    requires WordLength(s) == |s|
    ensures Normalize(s) == s
  {
    if s != [] {
      assert s[..|s|] == s && s[|s|..] == [];
      assert Words(s) == [s];
    }
  }

  lemma WordThenSpace(s: Str, k: nat)
    requires Tidy(s) && k == WordLength(s) < |s|
    ensures Words(s) == [s[..k]] + Words(s[k + 1..])
  {
    assert k > 0;
    var rest := s[k..];
    assert rest[0] == s[k] && rest[1..] == s[k + 1..];
    assert Words(rest) == Words(rest[1..]);
  }

  lemma JoinFirst(s: Str, k: nat, words: seq<Str>)
    requires k < |s| && s[k] == 32 && Join(words) == s[k + 1..] != []
    ensures Join([s[..k]] + words) == s
  {
    assert ([s[..k]] + words)[1..] == words;
    assert s == s[..k] + [32] + s[k + 1..];
  }

  /** A text is left alone exactly if it is tidy; what comes out always is. */
  lemma FixedIffTidy(s: Str)
    ensures Normalize(s) == s <==> Tidy(s)
    ensures Tidy(Normalize(s))
  {
    WordsAreWords(s);
    JoinIsTidy(Words(s));
    if Tidy(s) {
      TidyIsFixed(s);
    }
  }

  /** Normalising neither adds nor drops a character other than spaces. */
  lemma {:induction false} SameLetters(s: Str, c: CodePoint)
    requires !IsSpace(c)
    ensures c in Normalize(s) <==> c in s
  {
    InJoin(Words(s), c);
    InWords(s, c);
  }

  lemma {:induction false} InJoin(words: seq<Str>, c: CodePoint)
    requires c != 32
    ensures c in Join(words) <==> exists w :: w in words && c in w
  {
    if |words| > 1 {
      InJoin(words[1..], c);
      assert words == [words[0]] + words[1..];
    } else if words != [] {
      assert words[0] in words;
    }
  }

  lemma {:induction false} InWords(s: Str, c: CodePoint)
    requires !IsSpace(c)
    ensures c in s <==> exists w :: w in Words(s) && c in w
  {
    if s != [] {
      if IsSpace(s[0]) {
        InWords(s[1..], c);
        assert s == [s[0]] + s[1..];
      } else {
        var k := WordLength(s);
        InWords(s[k..], c);
        assert s == s[..k] + s[k..];
        assert Words(s) == [s[..k]] + Words(s[k..]);
      }
    }
  }

  // ---- The command line.

  /** What a SEND or SENDATTACH line asks for, once its words are known; None is a syntax error. */
  datatype Command = Command(user: Str, message: Str, file: Str)

  function SendCommand(line: seq<Str>, attach: bool): Option<Command> {
    if attach then
      if |line| >= 4 then Some(Command(line[1], Join(line[2..|line| - 1]), line[|line| - 1])) else None
    else
      if |line| >= 3 then Some(Command(line[1], Join(line[2..]), [])) else None
  }

  /** The strings the client sends behind the operation's name. */
  function RequestTexts(sender: Str, c: Command, attach: bool): seq<Str> {
    if attach then [sender, c.user, Normalize(c.message), c.file] else [sender, c.user, Normalize(c.message)]
  }

  /** A line has a command exactly if it has enough words, and the command keeps every word of the line, in order. */
  lemma CommandKeepsTheWords(input: Str, attach: bool)
    ensures var line, c := Words(input), SendCommand(Words(input), attach);
      && (c.Some? <==> |line| >= if attach then 4 else 3)
      && (c.Some? ==> line == [line[0], c.value.user] + Words(c.value.message) + if attach then [c.value.file] else [])
  {
    WordsAreWords(input);
    var line := Words(input);
    if SendCommand(line, attach).Some? {
      if attach {
        LineKeepsTheWords(line, |line| - 1);
        assert line[|line| - 1..] == [line[|line| - 1]];
      } else {
        LineKeepsTheWords(line, |line|);
        assert line[2..|line|] == line[2..] && line[|line|..] == [];
      }
    }
  }

  lemma LineKeepsTheWords(line: seq<Str>, end: nat)
    requires AllWords(line) && 2 <= end <= |line|
    ensures line == [line[0], line[1]] + Words(Join(line[2..end])) + line[end..]
  {
    var words := line[2..end];
    assert forall i | 0 <= i < |words| :: words[i] == line[i + 2];
    WordsOfJoin(words);
  }

  /** The message of a command line is in normal form already: the web service returns it unchanged. */
  lemma ServiceChangesNothing(input: Str, attach: bool)
    requires SendCommand(Words(input), attach).Some?
    ensures var m := SendCommand(Words(input), attach).value.message;
            Normalize(m) == m && m != []
  {
    WordsAreWords(input);
    var line := Words(input);
    var words := if attach then line[2..|line| - 1] else line[2..];
    assert AllWords(words);
    JoinIsNormal(words);
  }

  lemma JoinIsNormal(words: seq<Str>)
    requires AllWords(words) && words != []
    ensures Normalize(Join(words)) == Join(words) && Join(words) != []
  {
    WordsOfJoin(words);
    JoinIsTidy(words);
  }

  function EncodeAll(texts: seq<Str>): (r: seq<Bytes>)
    ensures |r| == |texts| && forall i | 0 <= i < |texts| :: r[i] == Encode(texts[i])
  {
    seq(|texts|, i requires 0 <= i < |texts| => Encode(texts[i]))
  }

  /** Every field of a request from the command line is clean, if the line and the sender's name have no NUL. */
  lemma ShellFieldsAreClean(input: Str, sender: Str, attach: bool)
    requires SendCommand(Words(input), attach).Some? && NUL !in input && IsWord(sender) && NUL !in sender
    ensures forall f | f in EncodeAll(RequestTexts(sender, SendCommand(Words(input), attach).value, attach)) :: Clean(f)
  {
    ServiceChangesNothing(input, attach);
    LineIsClean(input);
    var c := SendCommand(Words(input), attach).value;
    CommandIsClean(Words(input), attach);
    AllClean(RequestTexts(sender, c, attach));
  }

  lemma CommandIsClean(line: seq<Str>, attach: bool)
    requires SendCommand(line, attach).Some? && forall w | w in line :: NUL !in w && LF !in w
    ensures forall t | t in {SendCommand(line, attach).value.user, SendCommand(line, attach).value.message,
                             SendCommand(line, attach).value.file} :: NUL !in t && LF !in t
  {
    var words := if attach then line[2..|line| - 1] else line[2..];
    assert forall i | 0 <= i < |words| :: words[i] in line;
    JoinIsClean(words);
  }

  lemma LineIsClean(input: Str)
    requires NUL !in input
    ensures forall w | w in Words(input) :: NUL !in w && LF !in w
  {
    WordsAreWords(input);
    WordsHaveNo(input, NUL);
    assert IsSpace(LF);
  }

  lemma JoinIsClean(words: seq<Str>)
    requires forall w | w in words :: NUL !in w && LF !in w
    ensures NUL !in Join(words) && LF !in Join(words)
  {
    InJoin(words, NUL);
    InJoin(words, LF);
  }

  lemma WordsHaveNo(s: Str, c: CodePoint)
    requires !IsSpace(c) && c !in s
    ensures forall w | w in Words(s) :: c !in w
  {
    InWords(s, c);
  }

  lemma AllClean(texts: seq<Str>)
    requires forall t | t in texts :: NUL !in t && LF !in t
    ensures forall f | f in EncodeAll(texts) :: Clean(f)
  {
    forall i | 0 <= i < |texts| ensures Clean(Encode(texts[i])) {
      EncodedIsCleanIff(texts[i]);
    }
  }

  /** From the command line to the handler's buffers: whatever the split of the stream and whatever was typed, the
      handler reads the sender, the recipient, the message and the file, each cut to its buffer, and nothing else. */
  lemma CommandReachesHandler(input: Str, sender: Str, attach: bool, ev: seq<ReadEvent>, tail: Bytes, max: nat)
    requires SendCommand(Words(input), attach).Some? && NUL !in input && IsWord(sender) && NUL !in sender
    requires var fields := EncodeAll(RequestTexts(sender, SendCommand(Words(input), attach).value, attach));
             Calm(ev) && Carried(ev) == Wire(fields) + tail
    ensures var c := SendCommand(Words(input), attach).value;
      var fields := [Encode(sender), Encode(c.user), Encode(c.message)] + if attach then [Encode(c.file)] else [];
      var r := ReadFields(ev, |fields|, max);
      r.Gathered? && r.cells == AllSome(CutAll(fields, max)) && Carried(r.rest) == tail
  {
    var c := SendCommand(Words(input), attach).value;
    var fields := EncodeAll(RequestTexts(sender, c, attach));
    ShellFieldsAreClean(input, sender, attach);
    ServiceChangesNothing(input, attach);
    FieldsComeBack(ev, fields, tail, max);
    assert fields == [Encode(sender), Encode(c.user), Encode(c.message)] + if attach then [Encode(c.file)] else [];
  }
}
