/** What the Python side takes for white space and for a number. */
module PythonText {
  import opened Basics
  import opened Decimal
  import opened Utf8

  /** The code points str.split() splits at and str.strip() strips. */
  predicate IsSpace(c: CodePoint) {
    || 9 <= c <= 13 || 28 <= c <= 32 || c == 0x85 || c == 0xA0 || c == 0x1680 || 0x2000 <= c <= 0x200A
    || c == 0x2028 || c == 0x2029 || c == 0x202F || c == 0x205F || c == 0x3000
  }

  /** The white space of Python, one code point after the other. */
  lemma SpacesAre(c: CodePoint)
    ensures IsSpace(c) <==> c in {9, 10, 11, 12, 13, 28, 29, 30, 31, 32, 133, 160, 5760, 8192, 8193, 8194, 8195, 8196,
                                  8197, 8198, 8199, 8200, 8201, 8202, 8232, 8233, 8239, 8287, 12288}
  {
  }

  /** How Unicode classifies a character: a decimal digit, another digit such as a superscript, or none. */
  datatype Kind = DecimalDigit(value: nat) | OtherDigit | NoDigit

  /** The tables of the Unicode version at hand. */
  type Digits = CodePoint -> Kind

  /** On ASCII every version has the same ten digits. */
  ghost predicate Sane(digits: Digits) {
    forall c: CodePoint | c < 0x80 :: digits(c) == if IsDigit(c) then DecimalDigit(c - 48) else NoDigit
  }

  /** What isdigit() and then int() make of a string. */
  datatype Parsed = NotDigits | Unparsable | Number(n: nat)

  predicate AllDigitKinds(digits: Digits, s: Str) {
    forall i | 0 <= i < |s| :: !digits(s[i]).NoDigit?
  }

  predicate AllDecimal(digits: Digits, s: Str) {
    forall i | 0 <= i < |s| :: digits(s[i]).DecimalDigit?
  }

  function ValueOf(digits: Digits, s: Str): nat
    requires AllDecimal(digits, s)
  {
    if s == [] then 0 else 10 * ValueOf(digits, s[..|s| - 1]) + digits(s[|s| - 1]).value
  }

  function IntOf(digits: Digits, s: Str): Parsed {
    if s == [] || !AllDigitKinds(digits, s) then NotDigits
    else if !AllDecimal(digits, s) then Unparsable
    else Number(ValueOf(digits, s))
  }

  /** A digit that is no decimal digit, such as a superscript, passes isdigit() and then makes int() raise; any
      character that is no digit fails isdigit(). */
  lemma OneOddDigit(digits: Digits, a: Str, c: CodePoint, b: Str)
    requires AllDecimal(digits, a) && AllDecimal(digits, b)
    ensures IntOf(digits, a + [c] + b) ==
            match digits(c)
            case OtherDigit => Unparsable
            case NoDigit => NotDigits
            case DecimalDigit(_) => Number(ValueOf(digits, a + [c] + b))
  {
    var s := a + [c] + b;
    assert s[|a|] == c;
    assert forall i | 0 <= i < |s| && i != |a| :: digits(s[i]).DecimalDigit?;
  }

  /** ASCII text is a number exactly if it is ASCII digits, and then the one they spell. */
  lemma {:induction false} PlainInt(digits: Digits, b: Bytes)
    requires Sane(digits) && Plain(b)
    ensures IntOf(digits, b) == if IsNumber(b) then Number(Read(b)) else NotDigits
  {
    forall i | 0 <= i < |b|
      ensures digits(b[i]).NoDigit? <==> !IsDigit(b[i])
      ensures !digits(b[i]).OtherDigit?
    {
    }
    if AllDigits(b) {
      ValueIsRead(digits, b);
    }
  }

  lemma {:induction false} ValueIsRead(digits: Digits, b: Bytes)
    requires Sane(digits) && AllDigits(b)
    ensures AllDecimal(digits, b) && ValueOf(digits, b) == Read(b)
  {
    if b != [] {
      ValueIsRead(digits, b[..|b| - 1]);
      assert digits(b[|b| - 1]) == DecimalDigit(b[|b| - 1] - 48);
    }
  }
}
