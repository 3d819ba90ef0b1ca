/** Unsigned decimal numbers as the two sides print and read them. */
module Decimal {
  import opened Basics
  import opened MessageIds

  predicate IsDigit(b: nat) {
    48 <= b <= 57
  }

  /** Python's isdigit on ASCII text: something, and nothing but digits. */
  predicate IsNumber(s: Bytes) {
    s != [] && AllDigits(s)
  }

  predicate AllDigits(s: Bytes) {
    forall i | 0 <= i < |s| :: IsDigit(s[i])
  }

  /** What "%u" prints. */
  function Print(n: nat): Bytes {
    if n < 10 then [48 + n] else Print(n / 10) + [48 + n % 10]
  }

  /** What reading a number yields. */
  function Read(s: Bytes): nat
    requires AllDigits(s)
  {
    if s == [] then 0 else 10 * Read(s[..|s| - 1]) + (s[|s| - 1] - 48)
  }

  function Power10(k: nat): nat {
    if k == 0 then 1 else 10 * Power10(k - 1)
  }

  /** The printed form is a number without NUL or LF, and reads back to what was printed. */
  lemma {:induction false} PrintReads(n: nat)
    ensures IsNumber(Print(n)) && Read(Print(n)) == n
    ensures NUL !in Print(n) && LF !in Print(n)
  {
    if n < 10 {
      assert Print(n)[..0] == [];
    } else {
      PrintReads(n / 10);
      assert Print(n)[..|Print(n)| - 1] == Print(n / 10);
    }
  }

  /** The printed form is the only number without leading zeros that reads back to what was printed. */
  lemma {:induction false} PrintIff(n: nat, s: Bytes)
    requires IsNumber(s)
    ensures s == Print(n) <==> Read(s) == n && (s[0] == 48 ==> s == [48])
  {
    var init, last := s[..|s| - 1], s[|s| - 1];
    assert s == init + [last];
    if n < 10 {
      ShortNumber(s, n);
    } else if |s| > 1 {
      PrintIff(n / 10, init);
      PrintReads(n / 10);
      LastDigit(s, n);
    }
  }

  lemma ShortNumber(s: Bytes, n: nat)
    requires IsNumber(s) && n < 10
    ensures s == [48 + n] <==> Read(s) == n && (s[0] == 48 ==> s == [48])
  {
    if |s| > 1 && s[0] != 48 {
      FirstCounts(s);
    } else if |s| == 1 {
      assert s[..0] == [];
    }
  }

  /** A number of several digits that does not start with a zero is at least ten. */
  lemma {:induction false} FirstCounts(s: Bytes)
    requires IsNumber(s) && s[0] != 48
    ensures Read(s) >= 1 && (|s| > 1 ==> Read(s) >= 10)
  {
    if |s| > 1 {
      FirstCounts(s[..|s| - 1]);
    } else {
      assert s[..0] == [];
    }
  }

  lemma LastDigit(s: Bytes, n: nat)
    requires IsNumber(s) && |s| > 1 && n >= 10
    ensures s == Print(n) <==> s[..|s| - 1] == Print(n / 10) && s[|s| - 1] == 48 + n % 10
    ensures Read(s) == n <==> Read(s[..|s| - 1]) == n / 10 && s[|s| - 1] == 48 + n % 10
  {
    var init, last := s[..|s| - 1], s[|s| - 1];
    assert s == init + [last];
    SameEnds(init, last, Print(n / 10), 48 + n % 10);
    TensAndUnits(Read(init), last - 48, n);
  }

  lemma SameEnds(a: Bytes, x: Byte, b: Bytes, y: Byte)
    ensures a + [x] == b + [y] <==> a == b && x == y
  {
    assert (a + [x])[..|a|] == a && (b + [y])[..|b|] == b;
    assert (a + [x])[|a|] == x && (b + [y])[|b|] == y;
  }

  lemma TensAndUnits(r: nat, d: nat, n: nat)
    requires d < 10
    ensures 10 * r + d == n <==> r == n / 10 && d == n % 10
  {
  }

  lemma {:induction false} PrintLength(n: nat, k: nat)
    requires k > 0 && n < Power10(k)
    ensures 1 <= |Print(n)| <= k
  {
    if n >= 10 {
      PrintLength(n / 10, k - 1);
    }
  }

  /** Every 32-bit number, and so every message id, fits the 16-byte buffer with its NUL. */
  lemma WordFits(n: nat)
    requires n < WORD
    ensures |Print(n)| + 1 <= 11 < 16
  {
    assert Power10(5) == 100000;
    assert Power10(10) == 10000000000 by {
      assert Power10(9) == 10 * Power10(8);
      assert Power10(8) == 10 * Power10(7);
      assert Power10(7) == 10 * Power10(6);
      assert Power10(6) == 10 * Power10(5);
    }
    PrintLength(n, 10);
  }

  /** The text form of the n-th message id since registration identifies the id. */
  lemma {:induction false} IdTextReads(n: nat)
    requires n > 0
    ensures |Print(IdAfter(n))| + 1 < 16 && IsNumber(Print(IdAfter(n)))
    ensures Read(Print(IdAfter(n))) == (n - 1) % MAX_IDS + 1
  {
    NthId(n);
    IdInRange(n);
    WordFits(IdAfter(n));
    PrintReads(IdAfter(n));
  }
}
