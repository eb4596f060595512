/**
  Numerals as they are written, and that the scanner reads them (pugixml.cpp:4552-4632): digits in their
  places, in either letter case and with any leading zeros, behind white space, a sign and 0x.
 */
module Numerals {
  import opened Integers

  /** A digit of the base, in either letter case. */
  predicate IsDigitOf(c: char, base: Base) {
    '0' <= c <= '9' || (base.Hex? && ('a' <= c <= 'f' || 'A' <= c <= 'F'))
  }

  /** What a digit stands for. */
  function DigitValue(c: char): nat {
    match c
    case '0' => 0 case '1' => 1 case '2' => 2 case '3' => 3 case '4' => 4
    case '5' => 5 case '6' => 6 case '7' => 7 case '8' => 8 case '9' => 9
    case 'a' => 10 case 'b' => 11 case 'c' => 12 case 'd' => 13 case 'e' => 14 case 'f' => 15
    case 'A' => 10 case 'B' => 11 case 'C' => 12 case 'D' => 13 case 'E' => 14 case 'F' => 15
    case _ => 0
  }

  /** Digits of the base, and at least one. */
  predicate IsNumeral(d: string, base: Base) {
    d != "" && forall k :: 0 <= k < |d| ==> IsDigitOf(d[k], base)
  }

  /** The number that the digits denote by their positions. */
  function NumberOf(d: string, base: Base): nat {
    if d == "" then 0 else (if base.Hex? then 16 else 10) * NumberOf(d[..|d| - 1], base) + DigitValue(d[|d| - 1])
  }

  /**
    The scanner takes exactly the digits of the base for digits, in either letter case, and reads what
    they stand for.
   */
  lemma DigitIs(c: char, base: Base)
    ensures IsDigit(c, base) <==> IsDigitOf(c, base)
    ensures IsDigit(c, base) ==> Digit(c, base) == DigitValue(c)
  {
    if 'a' <= c <= 'f' { LowerLetter(c); } else if 'A' <= c <= 'F' { UpperLetter(c); }
  }

  lemma LowerLetter(c: char)
    requires 'a' <= c <= 'f'
    ensures OrSpace(c) == c as nat && DigitValue(c) == c as nat - 'a' as nat + 10
  {
  }

  lemma UpperLetter(c: char)
    requires 'A' <= c <= 'F'
    ensures OrSpace(c) == c as nat + 32 && DigitValue(c) == c as nat - 'A' as nat + 10
  {
  }

  /** Reading digits in their places gives the number that they denote. */
  lemma {:induction false} ValueIsNumber(s: string, i: nat, j: nat, base: Base)
    requires DigitsAt(s, i, j, base)
    ensures Value(s, i, j, base) == NumberOf(s[i..j], base)
    decreases j
  {
    if i < j {
      ValueIsNumber(s, i, j - 1, base);
      DigitIs(s[j - 1], base);
      assert s[i..j][..j - i - 1] == s[i..j - 1] && s[i..j][j - i - 1] == s[j - 1];
    }
  }

  /** A numeral is read to its end, whatever comes behind it but a digit. */
  lemma NumeralAt(s: string, i: nat, d: string, base: Base)
    requires i + |d| <= |s| && s[i..i + |d|] == d && IsNumeral(d, base)
    requires !IsDigit(CharAt(s, i + |d|), base)
    ensures DigitsAt(s, i, i + |d|, base) && DigitsEnd(s, i, base) == i + |d|
    ensures Value(s, i, i + |d|, base) == NumberOf(d, base)
  {
    forall k | i <= k < i + |d| ensures IsDigit(s[k], base) {
      assert s[k] == d[k - i];
      DigitIs(s[k], base);
    }
    DigitsEndIs(s, i, i + |d|, base);
    ValueIsNumber(s, i, i + |d|, base);
  }

  lemma {:induction false} DigitsEndIs(s: string, i: nat, j: nat, base: Base)
    requires DigitsAt(s, i, j, base) && !IsDigit(CharAt(s, j), base)
    ensures DigitsEnd(s, i, base) == j
    decreases j - i
  {
    if i < j { DigitsEndIs(s, i + 1, j, base); }
  }

  // ---------------------------------------------------------------------
  // Whole texts
  // ---------------------------------------------------------------------

  datatype Sign = NoSign | Plus | Minus

  function SignText(sign: Sign): string { match sign case NoSign => "" case Plus => "+" case Minus => "-" }

  /** An integer as text: white space, a sign, 0x or 0X for a hexadecimal one, and its digits. */
  function IntegerText(spaces: string, sign: Sign, prefix: string, digits: string): string {
    spaces + (SignText(sign) + (prefix + digits))
  }

  predicate IsRadix(prefix: string, base: Base) {
    if base.Hex? then prefix == "0x" || prefix == "0X" else prefix == ""
  }

  predicate AllSpaces(s: string) { forall k :: 0 <= k < |s| ==> IsSpace(s[k]) }

  lemma {:induction false} SpacesEndIs(s: string, i: nat, j: nat)
    requires i <= j <= |s| && (forall k :: i <= k < j ==> IsSpace(s[k])) && !IsSpace(CharAt(s, j))
    ensures SpacesEnd(s, i) == j
    decreases j - i
  {
    if i < j { SpacesEndIs(s, i + 1, j); }
  }

  /** s begins with the text, and a character that is no digit comes behind it. */
  predicate Reads(s: string, i: nat, part: string) { i + |part| <= |s| && s[i..i + |part|] == part }

  lemma SignRead(s: string, i: nat, sign: Sign, c: char)
    requires Reads(s, i, SignText(sign)) && CharAt(s, i + |SignText(sign)|) == c && c != '+' && c != '-'
    ensures SignEnd(s, i) == i + |SignText(sign)| && (CharAt(s, i) == '-' <==> sign.Minus?)
  {
    if sign != NoSign { assert s[i] == s[i..i + 1][0]; }
  }

  lemma PrefixRead(s: string, i: nat, prefix: string, digits: string, base: Base)
    requires Reads(s, i, prefix) && Reads(s, i + |prefix|, digits) && IsRadix(prefix, base) && IsNumeral(digits, base)
    requires base.Dec? ==> !(digits == "0" && OrSpace(CharAt(s, i + 1)) == 'x' as nat)
    ensures HexPrefix(s, i) <==> base.Hex?
  {
    var n := i + |prefix|;
    if base.Hex? {
      assert s[i] == s[i..i + 2][0] && s[i + 1] == s[i..i + 2][1];
    } else {
      assert s[n] == s[n..n + |digits|][0];
      if |digits| > 1 {
        assert s[n + 1] == s[n..n + |digits|][1];
        assert IsDigitOf(digits[1], base);
      }
    }
  }

  lemma PartsRead(spaces: string, sign: Sign, prefix: string, digits: string, rest: string)
    ensures var s := IntegerText(spaces, sign, prefix, digits) + rest;
            var i := |spaces|;
            var j := i + |SignText(sign)|;
            var n := j + |prefix|;
            && Reads(s, 0, spaces) && Reads(s, i, SignText(sign)) && Reads(s, j, prefix) && Reads(s, n, digits)
            && CharAt(s, n + |digits|) == CharAt(rest, 0) && (n + |digits| < |s| <==> rest != "")
  {
  }

  /** The sign, the prefix and the first digit are no white space, and behind the sign there is no other. */
  lemma FirstBehind(s: string, i: nat, j: nat, n: nat, sign: Sign, prefix: string, digits: string, base: Base)
    requires j == i + |SignText(sign)| && n == j + |prefix| && IsRadix(prefix, base) && IsNumeral(digits, base)
    requires Reads(s, i, SignText(sign)) && Reads(s, j, prefix) && Reads(s, n, digits)
    ensures !IsSpace(CharAt(s, i)) && CharAt(s, j) != '+' && CharAt(s, j) != '-'
  {
    assert s[n] == s[n..n + |digits|][0] && IsDigitOf(digits[0], base);
    if base.Hex? { assert s[j] == s[j..n][0]; }
    if sign != NoSign { assert s[i] == s[i..j][0]; }
  }

  /** Such a text, with anything behind it but a digit, has the value of its digits with its sign. */
  lemma TextValue(spaces: string, sign: Sign, prefix: string, digits: string, base: Base, rest: string)
    requires AllSpaces(spaces) && IsRadix(prefix, base) && IsNumeral(digits, base)
    requires !IsDigit(CharAt(rest, 0), base)
    requires base.Dec? ==> !(digits == "0" && OrSpace(CharAt(rest, 0)) == 'x' as nat)
    ensures TrueValue(IntegerText(spaces, sign, prefix, digits) + rest) ==
            if sign.Minus? then 0 - NumberOf(digits, base) else NumberOf(digits, base)
  {
    PartsRead(spaces, sign, prefix, digits, rest);
    var i := |spaces|;
    var j := i + |SignText(sign)|;
    var n := j + |prefix|;
    TextValueAt(IntegerText(spaces, sign, prefix, digits) + rest, i, j, n, spaces, sign, prefix, digits, base);
  }

  lemma TextValueAt(
      s: string, i: nat, j: nat, n: nat, spaces: string, sign: Sign, prefix: string, digits: string, base: Base)
    requires i == |spaces| && j == i + |SignText(sign)| && n == j + |prefix|
    requires AllSpaces(spaces) && IsRadix(prefix, base) && IsNumeral(digits, base)
    requires Reads(s, 0, spaces) && Reads(s, i, SignText(sign)) && Reads(s, j, prefix) && Reads(s, n, digits)
    requires !IsDigit(CharAt(s, n + |digits|), base)
    requires base.Dec? ==> !(digits == "0" && OrSpace(CharAt(s, n + |digits|)) == 'x' as nat)
    ensures TrueValue(s) == if sign.Minus? then 0 - NumberOf(digits, base) else NumberOf(digits, base)
  {
    HeadRead(s, i, j, n, spaces, sign, prefix, digits, base);
    DigitsRead(s, j, n, prefix, digits, base);
    TrueValueIs(s, i, j, base, n, n + |digits|, NumberOf(digits, base));
  }

  lemma HeadRead(
      s: string, i: nat, j: nat, n: nat, spaces: string, sign: Sign, prefix: string, digits: string, base: Base)
    requires i == |spaces| && j == i + |SignText(sign)| && n == j + |prefix|
    requires AllSpaces(spaces) && IsRadix(prefix, base) && IsNumeral(digits, base)
    requires Reads(s, 0, spaces) && Reads(s, i, SignText(sign)) && Reads(s, j, prefix) && Reads(s, n, digits)
    ensures SpacesEnd(s, 0) == i && SignEnd(s, i) == j && (CharAt(s, i) == '-' <==> sign.Minus?)
  {
    FirstBehind(s, i, j, n, sign, prefix, digits, base);
    SpacesRead(s, spaces);
    SignRead(s, i, sign, CharAt(s, j));
  }

  lemma DigitsRead(s: string, j: nat, n: nat, prefix: string, digits: string, base: Base)
    requires n == j + |prefix| && IsRadix(prefix, base) && IsNumeral(digits, base)
    requires Reads(s, j, prefix) && Reads(s, n, digits) && !IsDigit(CharAt(s, n + |digits|), base)
    requires base.Dec? ==> !(digits == "0" && OrSpace(CharAt(s, n + |digits|)) == 'x' as nat)
    ensures n == (if base.Hex? then j + 2 else j) && (HexPrefix(s, j) <==> base.Hex?)
    ensures DigitsAt(s, n, n + |digits|, base) && DigitsEnd(s, n, base) == n + |digits|
    ensures Value(s, n, n + |digits|, base) == NumberOf(digits, base)
  {
    PrefixRead(s, j, prefix, digits, base);
    NumeralAt(s, n, digits, base);
  }

  lemma SpacesRead(s: string, spaces: string)
    requires Reads(s, 0, spaces) && AllSpaces(spaces)
    requires !IsSpace(CharAt(s, |spaces|))
    ensures SpacesEnd(s, 0) == |spaces|
  {
    assert forall k :: 0 <= k < |spaces| ==> s[k] == s[0..|spaces|][k];
    SpacesEndIs(s, 0, |spaces|);
  }

  lemma TrueValueIs(s: string, i: nat, j: nat, base: Base, n: nat, m: nat, v: nat)
    requires SpacesEnd(s, 0) == i && SignEnd(s, i) == j && (HexPrefix(s, j) <==> base.Hex?)
    requires n == (if base.Hex? then j + 2 else j) && DigitsEnd(s, n, base) == m && DigitsAt(s, n, m, base)
    requires Value(s, n, m, base) == v
    ensures TrueValue(s) == if CharAt(s, i) == '-' then 0 - v else v
  {
  }

  // ---------------------------------------------------------------------
  // Printed numbers
  // ---------------------------------------------------------------------

  /** The decimal form has the digits of its number and no leading zero. */
  lemma {:induction false} DecimalIs(n: nat)
    ensures IsNumeral(Decimal(n), Dec) && NumberOf(Decimal(n), Dec) == n
    ensures n > 0 ==> Decimal(n)[0] != '0'
    ensures n == 0 ==> Decimal(n) == "0"
    decreases n
  {
    var s := Decimal(n);
    assert IsDigit(s[|s| - 1], Dec) && Digit(s[|s| - 1], Dec) == n % 10;
    DigitIs(s[|s| - 1], Dec);
    if n < 10 {
      assert s[..0] == "";
    } else {
      DecimalIs(n / 10);
      assert s[..|s| - 1] == Decimal(n / 10);
    }
  }
}
