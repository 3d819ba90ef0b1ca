/** Text as the client encodes and decodes it. The server cuts encoded text without looking at characters; the
    theorems here say exactly when what it cut can still be decoded.
  */
module Utf8 {
  import opened Basics
  import opened Framing

  type CodePoint = c: nat | c < 0x110000 && !(0xD800 <= c < 0xE000)

  type Str = seq<CodePoint>

  /** UTF-8, section 3 of RFC 3629. */
  function EncodeOne(c: CodePoint): (b: Bytes)
    ensures 1 <= |b| <= 4
  {
    if c < 0x80 then [c]
    else if c < 0x800 then [0xC0 + c / 64, 0x80 + c % 64]
    else if c < 0x10000 then [0xE0 + c / 4096, 0x80 + c / 64 % 64, 0x80 + c % 64]
    else [0xF0 + c / 0x40000, 0x80 + c / 4096 % 64, 0x80 + c / 64 % 64, 0x80 + c % 64]
  }

  function Encode(s: Str): Bytes {
    if s == [] then [] else EncodeOne(s[0]) + Encode(s[1..])
  }

  /** Whether `b` has `n` continuation bytes behind its first byte. */
  predicate Continued(b: Bytes, n: nat) {
    |b| > n && forall i | 0 < i <= n :: 0x80 <= b[i] < 0xC0
  }

  /** The first character and how many bytes it takes; None where Python's strict decoder raises. */
  function DecodeOne(b: Bytes): (r: Option<(CodePoint, nat)>)
    requires b != []
    ensures r.Some? ==> 1 <= r.value.1 <= |b|
  {
    if b[0] < 0x80 then Some((b[0], 1))
    else if 0xC0 <= b[0] < 0xE0 && Continued(b, 1) then
      Shortest(Value2(b[0], b[1]), 0x80, 2)
    else if 0xE0 <= b[0] < 0xF0 && Continued(b, 2) then
      Shortest(Value3(b[0], b[1], b[2]), 0x800, 3)
    else if 0xF0 <= b[0] < 0xF8 && Continued(b, 3) then
      Shortest(Value4(b[0], b[1], b[2], b[3]), 0x10000, 4)
    else None
  }

  function Value2(a: nat, b: nat): nat {
    a % 32 * 64 + b % 64
  }

  function Value3(a: nat, b: nat, c: nat): nat {
    a % 16 * 4096 + b % 64 * 64 + c % 64
  }

  function Value4(a: nat, b: nat, c: nat, d: nat): nat {
    a % 8 * 0x40000 + b % 64 * 4096 + c % 64 * 64 + d % 64
  }

  /** Refuses overlong forms, surrogates and numbers beyond the last code point. */
  function Shortest(c: nat, least: nat, length: nat): Option<(CodePoint, nat)> {
    if least <= c < 0x110000 && !(0xD800 <= c < 0xE000) then Some((c, length)) else None
  }

  function Decode(b: Bytes): Option<Str> {
    if b == [] then Some([])
    else
      match DecodeOne(b)
      case None => None
      case Some((c, n)) =>
        match Decode(b[n..])
        case None => None
        case Some(s) => Some([c] + s)
  }

  lemma SplitTwo(a: nat, d: nat)
    requires d < 64
    ensures (a * 64 + d) / 64 == a && (a * 64 + d) % 64 == d
  {
  }

  lemma SplitThree(a: nat, c: nat, d: nat)
    requires c < 64 && d < 64
    ensures var v := a * 4096 + c * 64 + d; v / 4096 == a && v / 64 % 64 == c && v % 64 == d
  {
    SplitTwo(a * 64 + c, d);
    SplitTwo(a, c);
  }

  lemma SplitFour(a: nat, b: nat, c: nat, d: nat)
    requires b < 64 && c < 64 && d < 64
    ensures var v := a * 0x40000 + b * 4096 + c * 64 + d;
            v / 0x40000 == a && v / 4096 % 64 == b && v / 64 % 64 == c && v % 64 == d
  {
    SplitThree(a * 64 + b, c, d);
    SplitTwo(a, b);
  }

  /** A code point is its groups of six bits. */
  lemma Groups(c: nat)
    ensures c == c / 64 * 64 + c % 64
    ensures c == c / 4096 * 4096 + c / 64 % 64 * 64 + c % 64
    ensures c == c / 0x40000 * 0x40000 + c / 4096 % 64 * 4096 + c / 64 % 64 * 64 + c % 64
  {
    assert c / 64 / 64 == c / 4096;
    assert c / 4096 / 64 == c / 0x40000;
  }

  lemma EncodedTwo(c: CodePoint)
    requires 0x80 <= c < 0x800
    ensures var e := EncodeOne(c); |e| == 2 && 0xC0 <= e[0] < 0xE0 && Continued(e, 1) && Value2(e[0], e[1]) == c
  {
    Groups(c);
    var e := EncodeOne(c);
    assert e[0] % 32 == c / 64 && e[1] % 64 == c % 64;
  }

  lemma EncodedThree(c: CodePoint)
    requires 0x800 <= c < 0x10000
    ensures var e := EncodeOne(c);
            |e| == 3 && 0xE0 <= e[0] < 0xF0 && Continued(e, 2) && Value3(e[0], e[1], e[2]) == c
  {
    Groups(c);
    var e := EncodeOne(c);
    assert e[0] % 16 == c / 4096 && e[1] % 64 == c / 64 % 64 && e[2] % 64 == c % 64;
  }

  lemma EncodedFour(c: CodePoint)
    requires 0x10000 <= c
    ensures var e := EncodeOne(c);
            |e| == 4 && 0xF0 <= e[0] < 0xF8 && Continued(e, 3) && Value4(e[0], e[1], e[2], e[3]) == c
  {
    Groups(c);
    var e := EncodeOne(c);
    assert e[0] % 8 == c / 0x40000 && e[1] % 64 == c / 4096 % 64 && e[2] % 64 == c / 64 % 64 && e[3] % 64 == c % 64;
  }

  lemma DecodeFirst(c: CodePoint, tail: Bytes)
    ensures DecodeOne(EncodeOne(c) + tail) == Some((c, |EncodeOne(c)|))
  {
    var e := EncodeOne(c);
    if c < 0x80 {
      assert (e + tail)[0] == c;
    } else if c < 0x800 {
      EncodedTwo(c);
      DecodeTwo(e, tail, c);
    } else if c < 0x10000 {
      EncodedThree(c);
      DecodeThree(e, tail, c);
    } else {
      EncodedFour(c);
      DecodeFour(e, tail, c);
    }
  }

  lemma DecodeTwo(e: Bytes, tail: Bytes, c: CodePoint)
    requires |e| == 2 && 0xC0 <= e[0] < 0xE0 && Continued(e, 1) && Value2(e[0], e[1]) == c >= 0x80
    ensures DecodeOne(e + tail) == Some((c, 2))
  {
    assert (e + tail)[0] == e[0] && (e + tail)[1] == e[1];
  }

  lemma DecodeThree(e: Bytes, tail: Bytes, c: CodePoint)
    requires |e| == 3 && 0xE0 <= e[0] < 0xF0 && Continued(e, 2) && Value3(e[0], e[1], e[2]) == c >= 0x800
    ensures DecodeOne(e + tail) == Some((c, 3))
  {
    assert (e + tail)[0] == e[0] && (e + tail)[1] == e[1] && (e + tail)[2] == e[2];
  }

  lemma DecodeFour(e: Bytes, tail: Bytes, c: CodePoint)
    requires |e| == 4 && 0xF0 <= e[0] < 0xF8 && Continued(e, 3) && Value4(e[0], e[1], e[2], e[3]) == c >= 0x10000
    ensures DecodeOne(e + tail) == Some((c, 4))
  {
    assert (e + tail)[0] == e[0] && (e + tail)[1] == e[1] && (e + tail)[2] == e[2] && (e + tail)[3] == e[3];
  }

  /** A character that is not whole is not decoded. */
  lemma DecodePart(c: CodePoint, k: nat)
    requires 0 < k < |EncodeOne(c)|
    ensures DecodeOne(EncodeOne(c)[..k]) == None
  {
    if c < 0x800 {
      EncodedTwo(c);
    } else if c < 0x10000 {
      EncodedThree(c);
    } else {
      EncodedFour(c);
    }
  }

  /** Decoding undoes encoding. */
  lemma {:induction false} DecodeEncode(s: Str)
    ensures Decode(Encode(s)) == Some(s)
  {
    if s != [] {
      var head, tail := EncodeOne(s[0]), Encode(s[1..]);
      DecodeFirst(s[0], tail);
      DecodeEncode(s[1..]);
      assert (head + tail)[|head|..] == tail;
      assert [s[0]] + s[1..] == s;
    }
  }

  lemma EncodeTwo(x: Byte, y: Byte)
    requires 0xC0 <= x < 0xE0 && 0x80 <= y < 0xC0 && Value2(x, y) >= 0x80
    ensures EncodeOne(Value2(x, y)) == [x, y]
  {
    var a, d := x - 0xC0, y - 0x80;
    assert x % 32 == a && y % 64 == d;
    SplitTwo(a, d);
  }

  lemma EncodeThree(x: Byte, y: Byte, z: Byte)
    requires 0xE0 <= x < 0xF0 && 0x80 <= y < 0xC0 && 0x80 <= z < 0xC0
    requires 0x800 <= Value3(x, y, z) && !(0xD800 <= Value3(x, y, z) < 0xE000)
    ensures EncodeOne(Value3(x, y, z)) == [x, y, z]
  {
    var a, c, d := x - 0xE0, y - 0x80, z - 0x80;
    assert x % 16 == a && y % 64 == c && z % 64 == d;
    ThreeBytes(a, c, d);
  }

  lemma ThreeBytes(a: nat, c: nat, d: nat)
    requires c < 64 && d < 64
    requires var v := a * 4096 + c * 64 + d; 0x800 <= v < 0x10000 && !(0xD800 <= v < 0xE000)
    ensures EncodeOne(a * 4096 + c * 64 + d) == [0xE0 + a, 0x80 + c, 0x80 + d]
  {
    SplitThree(a, c, d);
  }

  lemma EncodeFour(w: Byte, x: Byte, y: Byte, z: Byte)
    requires 0xF0 <= w < 0xF8 && 0x80 <= x < 0xC0 && 0x80 <= y < 0xC0 && 0x80 <= z < 0xC0
    requires 0x10000 <= Value4(w, x, y, z) < 0x110000
    ensures EncodeOne(Value4(w, x, y, z)) == [w, x, y, z]
  {
    var a, b, c, d := w - 0xF0, x - 0x80, y - 0x80, z - 0x80;
    assert w % 8 == a && x % 64 == b && y % 64 == c && z % 64 == d;
    FourBytes(a, b, c, d);
  }

  lemma FourBytes(a: nat, b: nat, c: nat, d: nat)
    requires b < 64 && c < 64 && d < 64 && 0x10000 <= a * 0x40000 + b * 4096 + c * 64 + d < 0x110000
    ensures EncodeOne(a * 0x40000 + b * 4096 + c * 64 + d) == [0xF0 + a, 0x80 + b, 0x80 + c, 0x80 + d]
  {
    SplitFour(a, b, c, d);
  }

  /** What is decoded is what its bytes encode: no character has two encodings. */
  lemma EncodeFirst(b: Bytes)
    requires b != [] && DecodeOne(b).Some?
    ensures EncodeOne(DecodeOne(b).value.0) == b[..DecodeOne(b).value.1]
  {
    var n := DecodeOne(b).value.1;
    if n == 2 {
      EncodeTwo(b[0], b[1]);
    } else if n == 3 {
      EncodeThree(b[0], b[1], b[2]);
    } else if n == 4 {
      EncodeFour(b[0], b[1], b[2], b[3]);
    }
  }

  /** Decoding succeeds exactly on encodings, and yields the text encoded. */
  lemma {:induction false} DecodeIff(b: Bytes, s: Str)
    ensures Decode(b) == Some(s) <==> b == Encode(s)
    decreases |b|
  {
    DecodeEncode(s);
    if Decode(b) == Some(s) && b != [] {
      var (c, n) := DecodeOne(b).value;
      EncodeFirst(b);
      DecodeIff(b[n..], s[1..]);
      assert b == b[..n] + b[n..];
    }
  }

  /** Decoding an ASCII byte never reaches over it. */
  lemma DecodeOneBefore(a: Bytes, x: Byte, tail: Bytes)
    requires a != [] && x < 0x80
    ensures DecodeOne(a + [x] + tail) == DecodeOne(a)
  {
    var b := a + [x] + tail;
    assert forall i | 0 <= i < |a| :: b[i] == a[i];
    assert b[|a|] == x;
    forall n | 1 <= n <= 3 ensures Continued(b, n) <==> Continued(a, n) {
      if |a| <= n {
        assert !Continued(b, n);
      }
    }
  }

  /** Text around an ASCII character is decoded exactly if the parts are. */
  lemma {:induction false} DecodeJoin(a: Bytes, x: Byte, tail: Bytes)
    requires x < 0x80
    ensures Decode(a + [x] + tail) ==
            if Decode(a).Some? && Decode(tail).Some? then Some(Decode(a).value + [x] + Decode(tail).value) else None
    decreases |a|
  {
    var b := a + [x] + tail;
    if a == [] {
      assert b[0] == x && b[1..] == tail;
      if Decode(tail).Some? {
        assert [] + [x] + Decode(tail).value == [x] + Decode(tail).value;
      }
    } else {
      DecodeOneBefore(a, x, tail);
      if DecodeOne(a).Some? {
        var (c, n) := DecodeOne(a).value;
        assert b[n..] == a[n..] + [x] + tail;
        DecodeJoin(a[n..], x, tail);
        if Decode(a[n..]).Some? && Decode(tail).Some? {
          assert [c] + (Decode(a[n..]).value + [x] + Decode(tail).value) ==
                 [c] + Decode(a[n..]).value + [x] + Decode(tail).value;
        }
      }
    }
  }

  /** ASCII text is its own encoding. */
  predicate Plain(b: Bytes) {
    forall i | 0 <= i < |b| :: b[i] < 0x80
  }

  lemma {:induction false} DecodePlain(b: Bytes)
    requires Plain(b)
    ensures Decode(b) == Some(b)
  {
    if b != [] {
      DecodePlain(b[1..]);
      assert [b[0]] + b[1..] == b;
    }
  }

  /** The first `n` bytes are the encoding of the first `i` characters. */
  predicate Boundary(s: Str, n: nat, i: nat) {
    i <= |s| && |Encode(s[..i])| == n
  }

  lemma {:induction false} EncodePrefix(s: Str, i: nat)
    requires i <= |s|
    ensures |Encode(s[..i])| <= |Encode(s)| && Encode(s)[..|Encode(s[..i])|] == Encode(s[..i])
  {
    if i > 0 {
      EncodePrefix(s[1..], i - 1);
      assert s[..i][1..] == s[1..][..i - 1];
    }
  }

  /** Text cut to its first `n` bytes is decoded exactly if the cut falls between two characters, and then it is the
      text up to there. */
  lemma {:induction false} CutDecodesIff(s: Str, n: nat)
    requires n <= |Encode(s)|
    ensures Decode(Encode(s)[..n]).Some? <==> exists i: nat :: Boundary(s, n, i)
    ensures forall i: nat | Boundary(s, n, i) :: Decode(Encode(s)[..n]) == Some(s[..i])
    decreases |s|
  {
    forall i: nat | Boundary(s, n, i) ensures Decode(Encode(s)[..n]) == Some(s[..i]) {
      EncodePrefix(s, i);
      DecodeEncode(s[..i]);
    }
    if Decode(Encode(s)[..n]).Some? {
      CutAtBoundary(s, n);
    }
  }

  lemma {:induction false} CutAtBoundary(s: Str, n: nat)
    requires n <= |Encode(s)| && Decode(Encode(s)[..n]).Some?
    ensures exists i: nat :: Boundary(s, n, i)
    decreases |s|
  {
    if n == 0 {
      assert s[..0] == [] && Boundary(s, 0, 0);
    } else {
      var head, tail := EncodeOne(s[0]), Encode(s[1..]);
      if n < |head| {
        assert Encode(s)[..n] == head[..n];
        DecodePart(s[0], n);
      } else {
        var rest := tail[..n - |head|];
        assert Encode(s)[..n] == head + rest;
        DecodeFirst(s[0], rest);
        assert (head + rest)[|head|..] == rest;
        CutAtBoundary(s[1..], n - |head|);
        var i: nat :| Boundary(s[1..], n - |head|, i);
        assert s[..i + 1][1..] == s[1..][..i];
        assert Boundary(s, n, i + 1);
      }
    }
  }

  /** The text fits `max` bytes, or the first `max` bytes of it end between two characters. */
  ghost predicate Kept(s: Str, max: nat) {
    |Encode(s)| <= max || exists i: nat :: Boundary(s, max, i)
  }

  /** What a buffer of `max` bytes keeps of a text can be decoded exactly if the text fits or the buffer ends
      between two characters; it then is the beginning of the text that fills the buffer. */
  lemma KeptTextIff(s: Str, max: nat)
    ensures var kept := Cut(Encode(s), max);
      && (Decode(kept).Some? <==> Kept(s, max))
      && (Decode(kept).Some? ==> Decode(kept).value <= s && Encode(Decode(kept).value) == kept)
  {
    var kept := Cut(Encode(s), max);
    DecodeEncode(s);
    if |Encode(s)| > max {
      CutDecodesIff(s, max);
    }
    if Decode(kept).Some? {
      DecodeIff(kept, Decode(kept).value);
    }
  }

  /** The ends of the four ranges of code points, as section 3 of RFC 3629 lays them out. */
  lemma KnownEncodings()
    ensures EncodeOne(0) == [0] && EncodeOne(0x7F) == [0x7F]
    ensures EncodeOne(0x80) == [0xC2, 0x80] && EncodeOne(0x7FF) == [0xDF, 0xBF]
    ensures EncodeOne(0x800) == [0xE0, 0xA0, 0x80] && EncodeOne(0xFFFF) == [0xEF, 0xBF, 0xBF]
    ensures EncodeOne(0x10000) == [0xF0, 0x90, 0x80, 0x80] && EncodeOne(0x10FFFF) == [0xF4, 0x8F, 0xBF, 0xBF]
  {
  }

  /** Only the two characters themselves encode to a byte that ends a field. */
  lemma {:induction false} EncodedIsCleanIff(s: Str)
    ensures Clean(Encode(s)) <==> NUL !in s && LF !in s
  {
    if s != [] {
      var head, tail := EncodeOne(s[0]), Encode(s[1..]);
      EncodedIsCleanIff(s[1..]);
      assert s == [s[0]] + s[1..];
      assert Clean(head) <==> s[0] != NUL && s[0] != LF;
      CleanParts(head, tail);
    }
  }

  lemma CleanParts(a: Bytes, b: Bytes)
    ensures Clean(a + b) <==> Clean(a) && Clean(b)
  {
    assert forall i | 0 <= i < |a| :: (a + b)[i] == a[i];
    assert forall i | 0 <= i < |b| :: (a + b)[|a| + i] == b[i];
  }
}
