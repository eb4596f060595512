/** Saturating conversion of text to integers and back (pugixml.cpp:4552-4632, 4683-4701). */
module Integers {

  datatype Base = Dec | Hex

  /** The width in bits of the unsigned type: unsigned int or unsigned long long. */
  newtype Width = w: int | w == 16 || w == 32 || w == 64 witness 16

  function Range(w: Width): nat {
    if w == 16 then 0x1_0000 else if w == 32 then 0x1_0000_0000 else 0x1_0000_0000_0000_0000
  }

  /** Arithmetic in an unsigned type wraps around. */
  function Wrap(x: int, w: Width): (r: nat)
    ensures r < Range(w)
  {
    if w == 16 then x % 0x1_0000 else if w == 32 then x % 0x1_0000_0000 else x % 0x1_0000_0000_0000_0000
  }

  // ---------------------------------------------------------------------
  // What a text denotes
  // ---------------------------------------------------------------------

  function CharAt(s: string, i: nat): char { if i < |s| then s[i] else '\0' }

  /** c | ' ' */
  function OrSpace(c: char): nat { if (c as nat / 32) % 2 == 1 then c as nat else c as nat + 32 }

  predicate IsSpace(c: char) { c == ' ' || c == '\t' || c == '\n' || c == '\r' }

  predicate IsDigit(c: char, base: Base) {
    '0' <= c <= '9' || (base.Hex? && 'a' as nat <= OrSpace(c) < 'a' as nat + 6)
  }

  function Digit(c: char, base: Base): (d: nat)
    requires IsDigit(c, base)
    ensures d < (if base.Hex? then 16 else 10)
  {
    if '0' <= c <= '9' then c as nat - '0' as nat else OrSpace(c) - 'a' as nat + 10
  }

  function Times(x: nat, base: Base): nat { if base.Hex? then 16 * x else 10 * x }

  function SpacesEnd(s: string, i: nat): (j: nat)
    ensures i <= j && (i <= |s| ==> j <= |s|)
    decreases |s| - i
  {
    if i < |s| && IsSpace(s[i]) then SpacesEnd(s, i + 1) else i
  }

  function DigitsEnd(s: string, i: nat, base: Base): (j: nat)
    ensures i <= j && (i <= |s| ==> j <= |s|)
    ensures forall k :: i <= k < j ==> k < |s| && IsDigit(s[k], base)
    ensures j < |s| ==> !IsDigit(s[j], base)
    decreases |s| - i
  {
    if i < |s| && IsDigit(s[i], base) then DigitsEnd(s, i + 1, base) else i
  }

  predicate DigitsAt(s: string, i: nat, j: nat, base: Base) {
    i <= j <= |s| && forall k :: i <= k < j ==> IsDigit(s[k], base)
  }

  /** The value of the digits s[i..j]. */
  function Value(s: string, i: nat, j: nat, base: Base): nat
    requires DigitsAt(s, i, j, base)
    decreases j
  {
    if i == j then 0 else Times(Value(s, i, j - 1, base), base) + Digit(s[j - 1], base)
  }

  function SignEnd(s: string, i: nat): nat { if CharAt(s, i) == '+' || CharAt(s, i) == '-' then i + 1 else i }

  predicate HexPrefix(s: string, i: nat) { CharAt(s, i) == '0' && OrSpace(CharAt(s, i + 1)) == 'x' as nat }

  /** Spaces, a sign, 0x, and as many digits as there are. */
  function TrueValue(s: string): int {
    var i := SpacesEnd(s, 0);
    var j := SignEnd(s, i);
    var base := if HexPrefix(s, j) then Hex else Dec;
    var start := if base.Hex? then j + 2 else j;
    var v := Value(s, start, DigitsEnd(s, start, base), base);
    if CharAt(s, i) == '-' then 0 - v else v
  }

  // ---------------------------------------------------------------------
  // Leading zeros and overflow
  // ---------------------------------------------------------------------

  function ZerosEnd(s: string, i: nat): (j: nat)
    ensures i <= j && (i <= |s| ==> j <= |s|)
    decreases |s| - i
  {
    if i < |s| && s[i] == '0' then ZerosEnd(s, i + 1) else i
  }

  lemma {:induction false} ZerosAreDigits(s: string, i: nat, base: Base)
    ensures DigitsEnd(s, ZerosEnd(s, i), base) == DigitsEnd(s, i, base)
    ensures ZerosEnd(s, i) < DigitsEnd(s, i, base) ==> s[ZerosEnd(s, i)] != '0'
    decreases |s| - i
  {
    if i < |s| && s[i] == '0' { ZerosAreDigits(s, i + 1, base); }
  }

  lemma {:induction false} DropZero(s: string, i: nat, j: nat, base: Base)
    requires DigitsAt(s, i, j, base) && i < j && s[i] == '0'
    ensures Value(s, i, j, base) == Value(s, i + 1, j, base)
    decreases j
  {
    if i + 1 < j { DropZero(s, i, j - 1, base); }
  }

  lemma {:induction false} DropZeros(s: string, i: nat, j: nat, base: Base)
    requires DigitsAt(s, i, j, base) && j == DigitsEnd(s, i, base)
    ensures ZerosEnd(s, i) <= j && Value(s, ZerosEnd(s, i), j, base) == Value(s, i, j, base)
    decreases |s| - i
  {
    if i < |s| && s[i] == '0' {
      DropZero(s, i, j, base);
      DropZeros(s, i + 1, j, base);
    }
  }

  /** d followed by n zeros. */
  function Scaled(d: nat, n: nat, base: Base): nat { if n == 0 then d else Times(Scaled(d, n - 1, base), base) }

  /** A number lies between its lead digit with zeros and the next lead digit with zeros. */
  lemma {:induction false} LeadBounds(s: string, i: nat, j: nat, base: Base)
    requires DigitsAt(s, i, j, base) && i < j
    ensures Scaled(Digit(s[i], base), j - 1 - i, base) <=
            Value(s, i, j, base) < Scaled(Digit(s[i], base) + 1, j - 1 - i, base)
    decreases j
  {
    if i + 1 < j { LeadBounds(s, i, j - 1, base); }
  }

  lemma {:induction false} ScaledMono(d: nat, e: nat, m: nat, n: nat, base: Base)
    requires d <= e && m <= n
    ensures Scaled(d, m, base) <= Scaled(e, n, base)
    decreases n
  {
    if m > 0 { ScaledMono(d, e, m - 1, n - 1, base); } else if n > 0 { ScaledMono(d, e, 0, n - 1, base); }
  }

  lemma WrapShift(x: int, q: int, w: Width)
    ensures Wrap(x + q * Range(w), w) == Wrap(x, w)
  {
    if w == 16 {
      assert (x + q * 0x1_0000) % 0x1_0000 == x % 0x1_0000;
    } else if w == 32 {
      assert (x + q * 0x1_0000_0000) % 0x1_0000_0000 == x % 0x1_0000_0000;
    } else {
      assert (x + q * 0x1_0000_0000_0000_0000) % 0x1_0000_0000_0000_0000 == x % 0x1_0000_0000_0000_0000;
    }
  }

  function Wraps(x: int, w: Width): int {
    if w == 16 then x / 0x1_0000 else if w == 32 then x / 0x1_0000_0000 else x / 0x1_0000_0000_0000_0000
  }

  lemma WrapSplit(x: int, w: Width)
    ensures x == Wrap(x, w) + Wraps(x, w) * Range(w)
  {
  }

  /** Wrapping at every digit is wrapping once at the end. */
  lemma WrapStep(v: nat, d: nat, base: Base, w: Width)
    ensures Wrap(Times(Wrap(v, w), base) + d, w) == Wrap(Times(v, base) + d, w)
  {
    WrapSplit(v, w);
    var r, q, m := Wrap(v, w), Wraps(v, w), Range(w);
    if base.Hex? {
      assert 16 * v + d == (16 * r + d) + (16 * q) * m;
      WrapShift(16 * r + d, 16 * q, w);
    } else {
      assert 10 * v + d == (10 * r + d) + (10 * q) * m;
      WrapShift(10 * r + d, 10 * q, w);
    }
  }

  function MaxDigits(w: Width): nat { if w == 64 then 20 else if w == 32 then 10 else 5 }

  function MaxLead(w: Width): char { if w == 64 then '1' else if w == 32 then '4' else '6' }

  function HighBit(result: nat, w: Width): bool {
    if w == 16 then result >= 0x8000 else if w == 32 then result >= 0x8000_0000 else result >= 0x8000_0000_0000_0000
  }

  lemma ScaledFive(d: nat, n: nat)
    ensures Scaled(d, n + 5, Dec) == 100000 * Scaled(d, n, Dec)
  {
    assert Scaled(d, n + 2, Dec) == 100 * Scaled(d, n, Dec);
    assert Scaled(d, n + 4, Dec) == 100 * Scaled(d, n + 2, Dec);
  }

  lemma ScaledFour(d: nat, n: nat)
    ensures Scaled(d, n + 4, Hex) == 0x1_0000 * Scaled(d, n, Hex)
  {
    assert Scaled(d, n + 2, Hex) == 256 * Scaled(d, n, Hex);
    assert Scaled(d, n + 4, Hex) == 256 * Scaled(d, n + 2, Hex);
  }

  /** Ten to the power one less than the number of digits of the largest value. */
  function LeadUnit(w: Width): nat {
    if w == 64 then 10_000_000_000_000_000_000 else if w == 32 then 1_000_000_000 else 10_000
  }

  lemma ScaledLead(d: nat, w: Width)
    ensures Scaled(d, MaxDigits(w) - 1, Dec) == d * LeadUnit(w)
  {
    assert Scaled(d, 4, Dec) == 10_000 * d by {
      assert Scaled(d, 1, Dec) == 10 * d;
      assert Scaled(d, 2, Dec) == 100 * d;
      assert Scaled(d, 4, Dec) == 100 * Scaled(d, 2, Dec);
    }
    ScaledFive(d, 4);
    ScaledFive(d, 9);
    ScaledFive(d, 14);
  }

  lemma ScaledRange(w: Width)
    ensures Scaled(1, w as nat / 4, Hex) == Range(w)
  {
    ScaledFour(1, 0);
    ScaledFour(1, 4);
    ScaledFour(1, 8);
    ScaledFour(1, 12);
  }

  predicate Numeral(s: string, i: nat, j: nat, base: Base) {
    DigitsAt(s, i, j, base) && (i < j ==> s[i] != '0')
  }

  lemma {:induction false} ScaledNext(d: nat, n: nat, base: Base)
    ensures Scaled(d, n + 1, base) == Scaled(Times(d, base), n, base)
  {
    if n > 0 { ScaledNext(d, n - 1, base); }
  }

  /** A numeral of n digits is below base^n, and at least base^(n-1). */
  lemma LengthBounds(s: string, i: nat, j: nat, base: Base)
    requires Numeral(s, i, j, base)
    ensures Value(s, i, j, base) < Scaled(1, j - i, base)
    ensures i < j ==> Scaled(1, j - i - 1, base) <= Value(s, i, j, base)
  {
    if i < j {
      var d, n := Digit(s[i], base), j - 1 - i;
      LeadBounds(s, i, j, base);
      ScaledNext(1, n, base);
      ScaledMono(d + 1, Times(1, base), n, n, base);
      ScaledMono(1, d, n, n, base);
    }
  }

  /** The test on the number of hexadecimal digits is exact. */
  lemma HexOverflowExact(s: string, i: nat, j: nat, w: Width)
    requires Numeral(s, i, j, Hex)
    ensures j - i > w as nat / 4 <==> Value(s, i, j, Hex) >= Range(w)
  {
    LengthBounds(s, i, j, Hex);
    ScaledRange(w);
    if j - i > w as nat / 4 {
      ScaledMono(1, 1, w as nat / 4, j - i - 1, Hex);
    } else {
      ScaledMono(1, 1, j - i, w as nat / 4, Hex);
    }
  }

  /** The test on digit count, lead digit and high bit of the wrapped result. */
  predicate DecOverflow(digits: nat, lead: char, result: nat, w: Width) {
    digits >= MaxDigits(w) &&
        !(digits == MaxDigits(w) && (lead < MaxLead(w) || (lead == MaxLead(w) && HighBit(result, w))))
  }

  /** At full length the lead digit and the high bit decide. */
  lemma FullLength(v: nat, lead: char, w: Width)
    requires '1' <= lead <= '9'
    requires Digit(lead, Dec) * LeadUnit(w) <= v < (Digit(lead, Dec) + 1) * LeadUnit(w)
    ensures (lead < MaxLead(w) || (lead == MaxLead(w) && HighBit(Wrap(v, w), w))) <==> v < Range(w)
  {
  }

  lemma DecOverflowExact(s: string, i: nat, j: nat, w: Width)
    requires Numeral(s, i, j, Dec)
    ensures DecOverflow(j - i, CharAt(s, i), Wrap(Value(s, i, j, Dec), w), w) <==> Value(s, i, j, Dec) >= Range(w)
  {
    LengthBounds(s, i, j, Dec);
    ScaledLead(1, w);
    var n := MaxDigits(w);
    if j - i < n {
      ScaledMono(1, 1, j - i, n - 1, Dec);
    } else if j - i > n {
      ScaledMono(1, 1, n, j - i - 1, Dec);
      assert Scaled(1, n, Dec) == 10 * Scaled(1, n - 1, Dec);
    } else {
      var d := Digit(s[i], Dec);
      LeadBounds(s, i, j, Dec);
      ScaledLead(d, w);
      ScaledLead(d + 1, w);
      FullLength(Value(s, i, j, Dec), s[i], w);
    }
  }

  // ---------------------------------------------------------------------
  // Parsing
  // ---------------------------------------------------------------------

  method SkipZeros(s: string, i0: nat) returns (i: nat)
    ensures i == ZerosEnd(s, i0)
  {
    i := i0;
    while CharAt(s, i) == '0'
      invariant i0 <= i && ZerosEnd(s, i) == ZerosEnd(s, i0)
      decreases |s| - i
    {
      i := i + 1;
    }
  }

  method ReadDigits(s: string, start: nat, base: Base, w: Width) returns (i: nat, result: nat)
    requires start <= |s|
    ensures i == DigitsEnd(s, start, base) && result == Wrap(Value(s, start, i, base), w)
  {
    i, result := start, 0;
    while IsDigit(CharAt(s, i), base)
      invariant start <= i <= |s| && DigitsAt(s, start, i, base)
      invariant DigitsEnd(s, i, base) == DigitsEnd(s, start, base)
      invariant result == Wrap(Value(s, start, i, base), w)
      decreases |s| - i
    {
      WrapStep(Value(s, start, i, base), Digit(s[i], base), base, w);
      result := Wrap(Times(result, base) + Digit(s[i], base), w);
      i := i + 1;
    }
  }

  /** The magnitude of a numeral wrapped to w bits, and whether it did not fit. */
  method Magnitude(s: string, start: nat, base: Base, w: Width) returns (result: nat, overflow: bool)
    requires start <= |s|
    ensures var v := Value(s, start, DigitsEnd(s, start, base), base);
            result == Wrap(v, w) && (overflow <==> v >= Range(w))
  {
    var first := SkipZeros(s, start);
    var i;
    i, result := ReadDigits(s, first, base, w);
    ZerosAreDigits(s, start, base);
    DropZeros(s, start, DigitsEnd(s, start, base), base);
    if base.Hex? {
      overflow := i - first > w as nat / 4;
      HexOverflowExact(s, first, i, w);
    } else {
      overflow := DecOverflow(i - first, CharAt(s, first), result, w);
      DecOverflowExact(s, first, i, w);
    }
  }

  /** x, or the nearer of the bounds. */
  function Clamp(x: int, lo: int, hi: int): int { if x < lo then lo else if x > hi then hi else x }

  /** The lower bound that minv stands for in two's complement; 0 for unsigned types. */
  function Floor(minv: nat, w: Width): int { 0 - Wrap(0 - minv, w) }

  /** The last lines of string_to_integer. */
  function Saturated(result: nat, overflow: bool, negative: bool, minv: nat, maxv: nat, w: Width): nat {
    if negative then if overflow || result > Wrap(0 - minv, w) then minv else Wrap(0 - result, w)
    else if overflow || result > maxv then maxv else result
  }

  lemma SaturatedIsClamped(v: nat, negative: bool, minv: nat, maxv: nat, w: Width)
    requires minv < Range(w) && maxv < Range(w)
    ensures Saturated(Wrap(v, w), v >= Range(w), negative, minv, maxv, w)
            == Wrap(Clamp(if negative then 0 - v else v, Floor(minv, w), maxv), w)
  {
    assert v < Range(w) ==> Wrap(v, w) == v;
    assert Wrap(maxv, w) == maxv && Wrap(Floor(minv, w), w) == minv;
  }

  method StringToInteger(s: string, minv: nat, maxv: nat, w: Width) returns (r: nat)
    requires minv < Range(w) && maxv < Range(w)
    ensures r == Wrap(Clamp(TrueValue(s), Floor(minv, w), maxv), w)
  {
    var i := 0;
    while IsSpace(CharAt(s, i))
      invariant 0 <= i <= |s| && SpacesEnd(s, i) == SpacesEnd(s, 0)
      decreases |s| - i
    {
      i := i + 1;
    }
    var negative := CharAt(s, i) == '-';
    i := SignEnd(s, i);
    var base, start := Dec, i;
    if HexPrefix(s, i) { base, start := Hex, i + 2; }
    var result, overflow := Magnitude(s, start, base, w);
    r := Saturated(result, overflow, negative, minv, maxv, w);
    SaturatedIsClamped(Value(s, start, DigitsEnd(s, start, base), base), negative, minv, maxv, w);
  }

  // ---------------------------------------------------------------------
  // Printing
  // ---------------------------------------------------------------------

  function DigitChar(d: nat): (c: char)
    requires d < 10
    ensures '0' <= c <= '9' && c as nat - '0' as nat == d
  {
    ('0' as nat + d) as char
  }

  function Decimal(n: nat): (s: string)
    ensures s != [] && forall i :: 0 <= i < |s| ==> '0' <= s[i] <= '9'
  {
    if n < 10 then [DigitChar(n)] else Decimal(n / 10) + [DigitChar(n % 10)]
  }

  function Printed(x: int): string { if x < 0 then "-" + Decimal(-x) else Decimal(x) }

  /** The digits still to be written. */
  function Pending(rest: nat, more: bool): string { if more then Decimal(rest) else "" }

  /** The first i characters are still to be written, from what is left of the number. */
  predicate Unwritten(all: string, i: nat, rest: nat, more: bool) { i <= |all| && all[..i] == Pending(rest, more) }

  lemma UnwrittenStep(all: string, i: nat, rest: nat)
    requires Unwritten(all, i, rest, true)
    ensures i > 0 && all[i - 1] == DigitChar(rest % 10) && Unwritten(all, i - 1, rest / 10, rest / 10 != 0)
  {
    var p := Pending(rest / 10, rest / 10 != 0);
    assert all[..i] == p + [DigitChar(rest % 10)];
    assert all[i - 1] == all[..i][i - 1];
    assert all[..i - 1] == all[..i][..i - 1] == p;
  }

  /** The loop of integer_to_string writes the digits from the end of the buffer. */
  method WriteDigits(buf: array<char>, begin: nat, end: nat, value: nat) returns (result: nat)
    requires begin <= end <= buf.Length && |Decimal(value)| < end - begin
    modifies buf
    ensures begin <= result < end && buf[result + 1..end] == Decimal(value)
    ensures forall i :: 0 <= i < begin || end <= i < buf.Length ==> buf[i] == old(buf[i])
  {
    result := end - 1;
    var rest, more := value, true;
    ghost var all := Decimal(value);
    ghost var low, i := end - |all|, |all|;
    assert all[..i] == all;
    while more
      invariant begin <= result < end && result == low + i - 1 && 0 <= i <= |all|
      invariant Unwritten(all, i, rest, more)
      invariant forall k :: result < k < end ==> buf[k] == all[k - low]
      invariant forall k :: 0 <= k < begin || end <= k < buf.Length ==> buf[k] == old(buf[k])
      decreases more, rest
    {
      UnwrittenStep(all, i, rest);
      buf[result] := DigitChar(rest % 10);
      result, i := result - 1, i - 1;
      rest := rest / 10;
      more := rest != 0;
    }
    assert i == 0 by { assert |all[..i]| == i; }
    assert buf[result + 1..end] == all;
  }

  /** integer_to_string: the text is buf[start..end]. */
  method IntegerToString(
      buf: array<char>, begin: nat, end: nat, value: nat, negative: bool, w: Width)
      returns (start: nat)
    requires value < Range(w) && begin <= end <= buf.Length
    requires |Decimal(if negative then Wrap(0 - value, w) else value)| < end - begin
    modifies buf
    ensures begin <= start < end
    ensures buf[start..end] == (if negative then "-" else "") + Decimal(if negative then Wrap(0 - value, w) else value)
    ensures forall i :: 0 <= i < begin || end <= i < buf.Length ==> buf[i] == old(buf[i])
  {
    var rest := if negative then Wrap(0 - value, w) else value;
    var result := WriteDigits(buf, begin, end, rest);
    ghost var digits := buf[result + 1..end];
    buf[result] := '-';
    assert buf[result + 1..end] == digits && buf[result..end] == "-" + digits;
    start := if negative then result else result + 1;
  }

  // ---------------------------------------------------------------------
  // The round trip
  // ---------------------------------------------------------------------

  lemma {:induction false} DigitsEndAll(s: string, i: nat)
    requires i <= |s| && forall k :: i <= k < |s| ==> '0' <= s[k] <= '9'
    ensures DigitsEnd(s, i, Dec) == |s|
    decreases |s| - i
  {
    if i < |s| { DigitsEndAll(s, i + 1); }
  }

  lemma {:induction false} ValuePrefix(s: string, t: string, i: nat, j: nat)
    requires DigitsAt(s, i, j, Dec)
    ensures DigitsAt(s + t, i, j, Dec) && Value(s + t, i, j, Dec) == Value(s, i, j, Dec)
    decreases j
  {
    if i < j { ValuePrefix(s, t, i, j - 1); }
  }

  /** The digits of n, behind any prefix p, have the value n. */
  lemma {:induction false} DecimalValue(p: string, n: nat)
    ensures DigitsAt(p + Decimal(n), |p|, |p + Decimal(n)|, Dec)
    ensures Value(p + Decimal(n), |p|, |p + Decimal(n)|, Dec) == n
    decreases n
  {
    var s := p + Decimal(n);
    assert forall k :: |p| <= k < |s| ==> s[k] == Decimal(n)[k - |p|];
    var j := |s| - 1;
    assert Digit(s[j], Dec) == n % 10;
    if n < 10 {
      assert j == |p| && Value(s, j, j, Dec) == 0;
    } else {
      DecimalValue(p, n / 10);
      ValuePrefix(p + Decimal(n / 10), [DigitChar(n % 10)], |p|, j);
      assert s == p + Decimal(n / 10) + [DigitChar(n % 10)];
    }
  }

  predicate DigitsBehind(s: string, i: nat) { i < |s| && forall k :: i <= k < |s| ==> '0' <= s[k] <= '9' }

  /** Digits, perhaps behind a minus sign, are read to their end. */
  lemma SignedShape(s: string, negative: bool)
    requires DigitsBehind(s, if negative then 1 else 0) && (negative ==> s[0] == '-')
    ensures SpacesEnd(s, 0) == 0 && SignEnd(s, 0) == (if negative then 1 else 0) && (CharAt(s, 0) == '-' <==> negative)
  {
  }

  lemma DigitsShape(s: string, i: nat)
    requires DigitsBehind(s, i)
    ensures !HexPrefix(s, i) && DigitsEnd(s, i, Dec) == |s|
  {
    assert i + 1 < |s| ==> '0' <= s[i + 1] <= '9';
    DigitsEndAll(s, i);
  }

  lemma DecimalBehind(p: string, n: nat)
    ensures DigitsBehind(p + Decimal(n), |p|)
  {
    var s, d := p + Decimal(n), Decimal(n);
    forall k | |p| <= k < |s| ensures '0' <= s[k] <= '9' { assert s[k] == d[k - |p|]; }
  }

  /** Reading back what was printed gives the number, for every integer. */
  lemma PrintedValue(x: int)
    ensures TrueValue(Printed(x)) == x
  {
    var p := if x < 0 then "-" else "";
    var n := if x < 0 then -x else x;
    var s := p + Decimal(n);
    assert Printed(x) == s by { assert "" + Decimal(n) == Decimal(n); }
    DecimalBehind(p, n);
    SignedShape(s, x < 0);
    DigitsShape(s, |p|);
    DecimalValue(p, n);
  }

  lemma WrapSmall(x: int, w: Width)
    requires 0 <= x < Range(w)
    ensures Wrap(x, w) == x
  {
  }

  /** Negating the word for a negative number gives its magnitude; the word for the minimum is its own negation. */
  lemma Negation(x: int, w: Width)
    requires 0 - Range(w) < x < 0
    ensures Wrap(x, w) == x + Range(w) && Wrap(0 - Wrap(x, w), w) == -x
  {
    var m: int := Range(w);
    assert x + 1 * m == x + m && -x + -1 * m == 0 - (x + m);
    WrapShift(x, 1, w);
    WrapShift(-x, -1, w);
    WrapSmall(x + m, w);
    WrapSmall(-x, w);
  }

  /** What integer_to_string writes for the machine word of x is the decimal form of x. */
  lemma PrintedWord(x: int, w: Width)
    requires 0 - Range(w) < x < Range(w)
    ensures Printed(x) == (if x < 0 then "-" else "") + Decimal(if x < 0 then Wrap(0 - Wrap(x, w), w) else Wrap(x, w))
  {
    if x < 0 {
      Negation(x, w);
    } else {
      assert Wrap(x, w) == x;
      assert "" + Decimal(x) == Decimal(x);
    }
  }

  /** A bounded integer prints to text that parses to the same machine word, the minimum included. */
  lemma RoundTrip(x: int, minv: nat, maxv: nat, w: Width)
    requires minv < Range(w) && maxv < Range(w) && Floor(minv, w) <= x <= maxv
    ensures Wrap(Clamp(TrueValue(Printed(x)), Floor(minv, w), maxv), w) == Wrap(x, w)
  {
    assert TrueValue(Printed(x)) == x by { PrintedValue(x); }
  }
}
