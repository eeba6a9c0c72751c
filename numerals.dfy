/**
 * Mention ids as the bot stores and compares them: the decimal string written
 * to the cursor file, and the JavaScript `BigInt(string)` conversion used to
 * compare ids as unbounded integers.
 */
module Numerals {
  import opened Wrappers
  import opened Text

  /** The value of a hexadecimal digit (either case); 16 for any other character. */
  function DigitValue(c: char): (d: nat)
    ensures d <= 16
    ensures d < 10 <==> '0' <= c <= '9'
  {
    if '0' <= c <= '9' then c as int - '0' as int
    else if 'a' <= c <= 'f' then c as int - 'a' as int + 10
    else if 'A' <= c <= 'F' then c as int - 'A' as int + 10
    else 16
  }

  predicate AllDigits(s: string, base: nat) {
    forall i :: 0 <= i < |s| ==> DigitValue(s[i]) < base
  }

  /** The positional value of a digit string, most significant digit first. */
  function DigitsValue(s: string, base: nat): nat
    decreases |s|
  {
    if s == [] then 0 else DigitsValue(s[..|s| - 1], base) * base + DigitValue(s[|s| - 1])
  }

  /** The character of a decimal digit. */
  function DigitChar(d: nat): (c: char)
    requires d < 10
    ensures DigitValue(c) == d
  {
    ('0' as int + d) as char
  }

  /**
   * The canonical decimal form of an id, as the platform delivers it and as
   * the bot writes it back to the cursor file: digits only, no leading zero
   * except for zero itself.
   */
  function Decimal(n: nat): (r: string)
    ensures r != [] && AllDigits(r, 10)
    ensures r[0] == '0' <==> n == 0
    ensures n == 0 ==> r == "0"
  {
    if n < 10 then [DigitChar(n)] else Decimal(n / 10) + [DigitChar(n % 10)]
  }

  /** A non-empty run of digits of the given base, or nothing. */
  function Unsigned(digits: string, base: nat): Option<nat> {
    if digits != [] && AllDigits(digits, base) then Some(DigitsValue(digits, base)) else None
  }

  /**
   * `BigInt(s)` for a string `s` (ECMAScript StringToBigInt): surrounding
   * whitespace is ignored, a blank string is 0, a decimal literal may carry a
   * sign, `0x`/`0o`/`0b` literals may not; anything else is a SyntaxError,
   * modelled as `None`.
   */
  function ParseBigInt(s: string): Option<int> {
    ParseIntegerLiteral(Trim(s))
  }

  /** StringIntegerLiteral once the surrounding whitespace is gone. */
  function ParseIntegerLiteral(t: string): Option<int> {
    if t == [] then Some(0)
    else if |t| >= 2 && t[0] == '0' && (t[1] == 'x' || t[1] == 'X') then Unsigned(t[2..], 16)
    else if |t| >= 2 && t[0] == '0' && (t[1] == 'o' || t[1] == 'O') then Unsigned(t[2..], 8)
    else if |t| >= 2 && t[0] == '0' && (t[1] == 'b' || t[1] == 'B') then Unsigned(t[2..], 2)
    else if t[0] == '-' then
      match Unsigned(t[1..], 10)
      case None => None
      case Some(v) => Some(-(v as int))
    else if t[0] == '+' then
      match Unsigned(t[1..], 10)
      case None => None
      case Some(v) => Some(v)
    else
      match Unsigned(t, 10)
      case None => None
      case Some(v) => Some(v)
  }

  /** Reading the decimal digits of `n` back gives `n`. */
  lemma {:induction false} DecimalValue(n: nat)
    ensures DigitsValue(Decimal(n), 10) == n
  {
    if n >= 10 {
      DecimalValue(n / 10);
      var d := Decimal(n);
      assert d[..|d| - 1] == Decimal(n / 10);
    } else {
      assert Decimal(n)[..0] == [];
    }
  }

  /** A run of digits has no whitespace to trim. */
  lemma DigitsAreUnpadded(t: string)
    requires t != [] && AllDigits(t, 10)
    ensures Trim(t) == t
  {
    assert DigitValue(t[0]) < 10 && DigitValue(t[|t| - 1]) < 10;
    TrimKeepsUnpadded(t);
  }

  /** A literal made of decimal digits only is read as its value. */
  lemma LiteralOfDigits(t: string)
    requires t != [] && AllDigits(t, 10)
    ensures ParseIntegerLiteral(t) == Some(DigitsValue(t, 10))
  {
    assert DigitValue(t[0]) < 10;
    assert |t| >= 2 ==> DigitValue(t[1]) < 10;
  }

  /** A plain run of decimal digits cannot carry a sign or a `0x`/`0o`/`0b` prefix, so it is read as its value. */
  lemma ParseDigits(t: string)
    requires t != [] && AllDigits(t, 10)
    ensures ParseBigInt(t) == Some(DigitsValue(t, 10))
  {
    DigitsAreUnpadded(t);
    LiteralOfDigits(t);
  }

  /** `BigInt` of an id's decimal form is that id: the written cursor reads back exactly. */
  lemma ParseDecimal(n: nat)
    ensures ParseBigInt(Decimal(n)) == Some(n)
  {
    ParseDigits(Decimal(n));
    DecimalValue(n);
  }

  /** A minus sign before an id's decimal form leaves nothing to trim. */
  lemma SignedDecimalUnpadded(n: nat)
    ensures Trim("-" + Decimal(n)) == "-" + Decimal(n)
  {
    var d := Decimal(n);
    var t := "-" + d;
    assert !IsJsWhitespace(t[0]) && !IsJsWhitespace(t[|t| - 1]) by {
      assert t[|t| - 1] == d[|d| - 1];
      assert DigitValue(d[|d| - 1]) < 10;
    }
    TrimKeepsUnpadded(t);
  }

  /** A leading minus negates: `BigInt("-" + digits)` is the negated value. */
  lemma ParseNegativeDecimal(n: nat)
    ensures ParseBigInt("-" + Decimal(n)) == Some(-(n as int))
  {
    var d := Decimal(n);
    SignedDecimalUnpadded(n);
    DecimalValue(n);
    assert ("-" + d)[0] == '-' && ("-" + d)[1..] == d;
  }
}
