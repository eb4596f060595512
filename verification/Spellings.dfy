/**
  Every way to spell a character in an attribute value (sections 2.11, 3.3.3, 4.1 and 4.6 of XML 1.0;
  pugixml.cpp:2483-2621, 2819-2853): itself, one of the five names, or its code in decimal or hexadecimal.
  Bytes of a code are those of UTF-8 (section 3 of RFC 3629), which a separate decoder reads back.
 */
module Spellings {
  import opened Collections
  import opened Integers
  import opened Numerals
  import opened AttributeText
  import GapParser

  // ---------------------------------------------------------------------
  // UTF-8
  // ---------------------------------------------------------------------

  predicate Continues(s: string, i: nat) { i < |s| && 0x80 <= s[i] as nat < 0xC0 }

  function Six(s: string, i: nat): nat
    requires Continues(s, i)
  {
    s[i] as nat - 0x80
  }

  /** The code that s begins with, and its number of bytes. */
  function Utf8Read(s: string): Option<(nat, nat)> {
    if s == "" then None
    else
      var b := s[0] as nat;
      if b < 0x80 then Some((b, 1))
      else if 0xC0 <= b < 0xE0 && Continues(s, 1) then Some(((b - 0xC0) * 64 + Six(s, 1), 2))
      else if 0xE0 <= b < 0xF0 && Continues(s, 1) && Continues(s, 2)
      then Some((((b - 0xE0) * 64 + Six(s, 1)) * 64 + Six(s, 2), 3))
      else if 0xF0 <= b < 0x100 && Continues(s, 1) && Continues(s, 2) && Continues(s, 3)
      then Some(((((b - 0xF0) * 64 + Six(s, 1)) * 64 + Six(s, 2)) * 64 + Six(s, 3), 4))
      else None
  }

  /** Every character of Unicode, and every code of up to 22 bits, is read back from its bytes. */
  lemma Utf8Inverts(n: nat, rest: string)
    requires n < 0x40_0000
    ensures Utf8Read(Utf8(n) + rest) == Some((n, |Utf8(n)|))
  {
    var u := Utf8(n);
    assert forall i :: 0 <= i < |u| ==> (u + rest)[i] == u[i];
    if n < 0x80 {
    } else if n < 0x800 {
      TwoBytes(n, u + rest);
    } else if n < 0x1_0000 {
      ThreeBytes(n, u + rest);
    } else {
      FourBytes(n, u + rest);
    }
  }

  lemma TwoBytes(n: nat, t: string)
    requires 0x80 <= n < 0x800 && |t| >= 2 && t[0] as nat == 0xC0 + n / 0x40 && t[1] as nat == 0x80 + n % 0x40
    ensures Utf8Read(t) == Some((n, 2))
  {
  }

  lemma ThreeBytes(n: nat, t: string)
    requires 0x800 <= n < 0x1_0000 && |t| >= 3 && t[0] as nat == 0xE0 + n / 0x1000
    requires t[1] as nat == 0x80 + n / 0x40 % 0x40 && t[2] as nat == 0x80 + n % 0x40
    ensures Utf8Read(t) == Some((n, 3))
  {
    var a := n / 0x40;
    assert n == 64 * a + n % 64 && a == 64 * (a / 64) + a % 64 && a / 64 == n / 0x1000;
  }

  lemma FourBytes(n: nat, t: string)
    requires 0x1_0000 <= n < 0x40_0000 && |t| >= 4 && t[0] as nat == 0xF0 + n / 0x4_0000 % 16
    requires t[1] as nat == 0x80 + n / 0x1000 % 0x40
    requires t[2] as nat == 0x80 + n / 0x40 % 0x40 && t[3] as nat == 0x80 + n % 0x40
    ensures Utf8Read(t) == Some((n, 4))
  {
    var a, b := n / 0x40, n / 0x1000;
    assert n == 64 * a + n % 64 && a == 64 * (a / 64) + a % 64 && a / 64 == b;
    assert b == 64 * (b / 64) + b % 64 && b / 64 == n / 0x4_0000 < 16;
  }

  // ---------------------------------------------------------------------
  // Spellings
  // ---------------------------------------------------------------------

  datatype Name = Amp | Apos | Gt | Lt | Quot

  datatype Spelling = Named(name: Name) | Numeric(base: Base, digits: string)

  predicate Legal(sp: Spelling) { sp.Numeric? ==> IsNumeral(sp.digits, sp.base) }

  function Spelled(sp: Spelling): string {
    match sp
    case Named(Amp) => "&amp;"
    case Named(Apos) => "&apos;"
    case Named(Gt) => "&gt;"
    case Named(Lt) => "&lt;"
    case Named(Quot) => "&quot;"
    case Numeric(Dec, digits) => "&#" + digits + ";"
    case Numeric(Hex, digits) => "&#x" + digits + ";"
  }

  /** The code it stands for; numbers wrap around at 32 bits. */
  function Code(sp: Spelling): nat {
    match sp
    case Named(Amp) => '&' as nat
    case Named(Apos) => '\'' as nat
    case Named(Gt) => '>' as nat
    case Named(Lt) => '<' as nat
    case Named(Quot) => '"' as nat
    case Numeric(base, digits) => NumberOf(digits, base) % 0x1_0000_0000
  }

  lemma NamedSpelling(name: Name, rest: string)
    ensures Next(Spelled(Named(name)) + rest) == Token(Utf8(Code(Named(name))), |Spelled(Named(name))|)
  {
    Literal(Spelled(Named(name)), rest);
  }

  lemma NumericSpelling(base: Base, digits: string, rest: string)
    requires IsNumeral(digits, base)
    ensures var sp := Numeric(base, digits); Next(Spelled(sp) + rest) == Token(Utf8(Code(sp)), |Spelled(sp)|)
  {
    var t, from := Spelled(Numeric(base, digits)) + rest, if base.Hex? then 3 else 2;
    var j := from + |digits|;
    assert t[0] == '&' && t[1] == '#' && (base.Hex? ==> t[2] == 'x') && t[j] == ';' && t[from..j] == digits;
    assert t[from] == t[from..j][0] && IsDigitOf(digits[0], base);
    NumeralAt(t, from, digits, base);
  }

  /** Whatever follows it, a spelling is one token that stands for its code in UTF-8. */
  lemma SpellingToken(sp: Spelling, rest: string)
    requires Legal(sp)
    ensures Next(Spelled(sp) + rest) == Token(Utf8(Code(sp)), |Spelled(sp)|)
    ensures Code(sp) < 0x40_0000 ==>
              Utf8Read(Next(Spelled(sp) + rest).out) == Some((Code(sp), |Next(Spelled(sp) + rest).out|))
  {
    match sp {
      case Named(name) => NamedSpelling(name, rest);
      case Numeric(base, digits) => NumericSpelling(base, digits, rest);
    }
    if Code(sp) < 0x40_0000 {
      Utf8Inverts(Code(sp), "");
      assert Utf8(Code(sp)) + "" == Utf8(Code(sp));
    }
  }

  /** t begins with the text. */
  predicate Begins(t: string, p: string) { |p| <= |t| && t[..|p|] == p }

  /** An & with which no spelling begins stands for itself. */
  lemma OnlySpellings(t: string)
    requires t != "" && t[0] == '&' && forall sp :: Legal(sp) ==> !Begins(t, Spelled(sp))
    ensures Next(t) == Token("&", 1)
  {
    forall name ensures !Begins(t, Spelled(Named(name))) { assert Legal(Named(name)); }
    NoName(t);
    if IsAt(t, 1, '#') {
      if IsAt(t, 2, 'x') { NoCode(t, 3, Hex); } else { NoCode(t, 2, Dec); }
    }
  }

  lemma NoName(t: string)
    requires t != "" && t[0] == '&' && forall name :: !Begins(t, Spelled(Named(name)))
    ensures Next(t) == if IsAt(t, 1, '#') && IsAt(t, 2, 'x') then CharReference(t, 3, Hex)
                       else if IsAt(t, 1, '#') then CharReference(t, 2, Dec) else Token("&", 1)
  {
    assert !Begins(t, Spelled(Named(Amp))) && !Begins(t, Spelled(Named(Apos))) && !Begins(t, Spelled(Named(Gt)));
    assert !Begins(t, Spelled(Named(Lt))) && !Begins(t, Spelled(Named(Quot)));
  }

  lemma NoCode(t: string, from: nat, base: Base)
    requires from == (if base.Hex? then 3 else 2) && from <= |t| && t[0] == '&' && t[1] == '#'
    requires (base.Hex? ==> t[2] == 'x')
    requires forall sp :: Legal(sp) ==> !Begins(t, Spelled(sp))
    ensures CharReference(t, from, base) == Token("&", 1)
  {
    var j := DigitsEnd(t, from, base);
    if j > from && CharAt(t, j) == ';' { CodeBegins(t, from, base, j); }
  }

  lemma CodeBegins(t: string, from: nat, base: Base, j: nat)
    requires from == (if base.Hex? then 3 else 2) && from < j < |t| && t[0] == '&' && t[1] == '#' && t[j] == ';'
    requires (base.Hex? ==> t[2] == 'x') && DigitsAt(t, from, j, base)
    ensures Legal(Numeric(base, t[from..j])) && Begins(t, Spelled(Numeric(base, t[from..j])))
  {
    var digits := t[from..j];
    forall k | 0 <= k < |digits| ensures IsDigitOf(digits[k], base) { DigitIs(t[from + k], base); }
    assert t[..j + 1] == Spelled(Numeric(base, digits));
  }

  // ---------------------------------------------------------------------
  // Whole values
  // ---------------------------------------------------------------------

  datatype LineBreak = Crlf | Cr | Lf | Tab

  /** A character as it is, a spelling, or white space other than a space. */
  datatype Part = Char(c: char) | Ref(sp: Spelling) | Break(br: LineBreak)

  predicate LegalPart(p: Part, quote: char) {
    match p
    case Char(c) => c != quote && c !in {'\0', '&', '\r', '\n', '\t'}
    case Ref(sp) => Legal(sp)
    case Break(_) => true
  }

  function PartText(p: Part): (s: string)
    ensures s != ""
  {
    match p
    case Char(c) => [c]
    case Ref(sp) => Spelled(sp)
    case Break(Crlf) => "\r\n"
    case Break(Cr) => "\r"
    case Break(Lf) => "\n"
    case Break(Tab) => "\t"
  }

  function PartMeaning(p: Part): string {
    match p
    case Char(c) => [c]
    case Ref(sp) => Utf8(Code(sp))
    case Break(_) => " "
  }

  /** A return and a feed in a row are one line break. */
  predicate LegalValue(ps: seq<Part>, quote: char) {
    && (forall i :: 0 <= i < |ps| ==> LegalPart(ps[i], quote))
    && (forall i :: 0 <= i < |ps| - 1 && ps[i] == Break(Cr) ==> ps[i + 1] != Break(Lf))
  }

  function ValueText(ps: seq<Part>): string { if ps == [] then "" else PartText(ps[0]) + ValueText(ps[1..]) }

  function ValueMeaning(ps: seq<Part>): string { if ps == [] then "" else PartMeaning(ps[0]) + ValueMeaning(ps[1..]) }

  lemma PartToken(p: Part, quote: char, rest: string)
    requires LegalPart(p, quote) && (quote == '"' || quote == '\'') && (p == Break(Cr) ==> CharAt(rest, 0) != '\n')
    ensures Next(PartText(p) + rest) == Token(PartMeaning(p), |PartText(p)|)
    ensures PartText(p)[0] != '\0' && PartText(p)[0] != quote
  {
    if p.Ref? { SpellingToken(p.sp, rest); }
  }

  /** Only a line feed begins like one. */
  lemma FirstOfPart(p: Part, quote: char)
    requires LegalPart(p, quote)
    ensures PartText(p)[0] == '\n' <==> p == Break(Lf)
  {
  }

  lemma PartRead(p: Part, quote: char, rest: string)
    requires LegalPart(p, quote) && (quote == '"' || quote == '\'') && (p == Break(Cr) ==> CharAt(rest, 0) != '\n')
    ensures Decode(PartText(p) + rest, quote) ==
            Prepend(PartMeaning(p), |PartText(p)|, Decode(rest, quote))
  {
    PartToken(p, quote, rest);
    assert (PartText(p) + rest)[0] == PartText(p)[0] && (PartText(p) + rest)[|PartText(p)|..] == rest;
  }

  /** A value in which spellings of all kinds are mixed reads as what they stand for. */
  lemma {:induction false} ValueRead(ps: seq<Part>, quote: char, rest: string)
    requires LegalValue(ps, quote) && (quote == '"' || quote == '\'')
    ensures Decode(ValueText(ps) + ([quote] + rest), quote) == Closed(ValueMeaning(ps), |ValueText(ps)| + 1)
  {
    var tail := [quote] + rest;
    if ps == [] {
      assert "" + tail == tail;
    } else {
      var t := ValueText(ps[1..]) + tail;
      assert ValueText(ps) + tail == PartText(ps[0]) + t;
      assert LegalValue(ps[1..], quote) by {
        assert forall i :: 0 <= i < |ps[1..]| ==> ps[1..][i] == ps[i + 1];
      }
      if |ps| > 1 {
        FirstOfPart(ps[1], quote);
        assert t[0] == PartText(ps[1..][0])[0];
      }
      PartRead(ps[0], quote, t);
      ValueRead(ps[1..], quote, rest);
    }
  }

  /** Outside [i, j) nothing has changed. */
  predicate Framed(b: string, b': string, i: nat, j: nat) {
    i <= j <= |b| == |b'| && b'[..i] == b[..i] && b'[j..] == b[j..]
  }

  /** parse_wconv on a text that stands for a value. */
  method ParseText(
      buf: array<char>, start: nat, quote: char, ghost text: string, ghost len: nat, ghost dec: GapParser.Decoder)
      returns (r: Option<nat>)
    requires start <= buf.Length && '\0' in buf[..][start..] && (quote == '"' || quote == '\'')
    requires GapParser.Decodes(dec, quote) && dec(buf[..][start..]) == Closed(text, len)
    modifies buf
    ensures r.Some? && r.value == start + len && GapParser.Holds(buf[..], start, text)
    ensures Framed(old(buf[..]), buf[..], start, start + len)
  {
    ghost var b := buf[..];
    r := GapParser.ParseWconv(buf, start, quote);
    SpelledOutcome(b, buf[..], start, text, len, r);
  }

  lemma ReadsAs(ps: seq<Part>, quote: char, rest: string, dec: GapParser.Decoder)
    requires LegalValue(ps, quote) && (quote == '"' || quote == '\'') && GapParser.Decodes(dec, quote)
    ensures dec(ValueText(ps) + ([quote] + rest)) == Closed(ValueMeaning(ps), |ValueText(ps)| + 1)
  {
    ValueRead(ps, quote, rest);
  }

  /** parse_wconv on such a value leaves what it stands for in the buffer and returns the position behind its quote. */
  method ParseSpelled(buf: array<char>, start: nat, quote: char, ghost ps: seq<Part>, ghost rest: string)
    returns (r: Option<nat>)
    requires LegalValue(ps, quote) && (quote == '"' || quote == '\'') && start <= buf.Length
    requires buf[..][start..] == ValueText(ps) + ([quote] + rest) && '\0' in buf[..][start..]
    modifies buf
    ensures var end := start + |ValueText(ps)| + 1;
            && r.Some? && r.value == end && GapParser.Holds(buf[..], start, ValueMeaning(ps))
            && Framed(old(buf[..]), buf[..], start, end)
  {
    ghost var dec: GapParser.Decoder := t => Decode(t, quote);
    ReadsAs(ps, quote, rest, dec);
    r := ParseText(buf, start, quote, ValueMeaning(ps), |ValueText(ps)| + 1, dec);
  }

  lemma SpelledOutcome(b: string, b': string, start: nat, text: string, len: nat, r: Option<nat>)
    requires GapParser.Outcome(b, b', start, Closed(text, len), r)
    ensures r == Some(start + len) && GapParser.Holds(b', start, text) && Framed(b, b', start, start + len)
  {
  }
}
