/**
  Attribute values as text: what the printer writes for a value (pugixml.cpp:3961-4011) and
  what a quoted value in a document stands for (section 3.3.3 of XML 1.0; pugixml.cpp:2441-2621,
  2819-2853).  Bytes are characters below 256.
 */
module AttributeText {
  import opened Integers

  // ---------------------------------------------------------------------
  // Reading
  // ---------------------------------------------------------------------

  /** The bytes of one piece of the source text, and how much of the text it takes up. */
  datatype Token = Token(out: string, len: nat)

  datatype Decoded = Open | Closed(text: string, len: nat)

  /** utf8_writer::any, for any 32-bit number. */
  function Utf8(ch: nat): (s: string)
    requires ch < 0x1_0000_0000
    ensures 1 <= |s| <= 4
  {
    if ch < 0x80 then [ch as char]
    else if ch < 0x800 then [(0xC0 + ch / 0x40) as char, (0x80 + ch % 0x40) as char]
    else if ch < 0x1_0000
        then [(0xE0 + ch / 0x1000) as char, (0x80 + ch / 0x40 % 0x40) as char, (0x80 + ch % 0x40) as char]
    else [(0xF0 + ch / 0x4_0000 % 16) as char, (0x80 + ch / 0x1000 % 0x40) as char,
          (0x80 + ch / 0x40 % 0x40) as char, (0x80 + ch % 0x40) as char]
  }

  /** &#ddd; or &#xhhh; where the digits start at `from`; the code wraps at 32 bits. */
  function CharReference(t: string, from: nat, base: Base): Token
    requires from <= |t|
  {
    var j := DigitsEnd(t, from, base);
    if j > from && CharAt(t, j) == ';' then Token(Utf8(Wrap(Value(t, from, j, base), 32)), j + 1) else Token("&", 1)
  }

  /** t[i] is c. */
  predicate IsAt(t: string, i: nat, c: char) { i < |t| && t[i] == c }

  /** &amp; &apos; &gt; &lt; &quot; or a character code, or else the & alone. */
  function Reference(t: string): Token {
    if IsAt(t, 1, 'a') && IsAt(t, 2, 'm') && IsAt(t, 3, 'p') && IsAt(t, 4, ';') then Token("&", 5)
    else if IsAt(t, 1, 'a') && IsAt(t, 2, 'p') && IsAt(t, 3, 'o') && IsAt(t, 4, 's') && IsAt(t, 5, ';')
        then Token("'", 6)
    else if IsAt(t, 1, 'g') && IsAt(t, 2, 't') && IsAt(t, 3, ';') then Token(">", 4)
    else if IsAt(t, 1, 'l') && IsAt(t, 2, 't') && IsAt(t, 3, ';') then Token("<", 4)
    else if IsAt(t, 1, 'q') && IsAt(t, 2, 'u') && IsAt(t, 3, 'o') && IsAt(t, 4, 't') && IsAt(t, 5, ';')
        then Token("\"", 6)
    else if IsAt(t, 1, '#') && IsAt(t, 2, 'x') then CharReference(t, 3, Hex)
    else if IsAt(t, 1, '#') then CharReference(t, 2, Dec)
    else Token("&", 1)
  }

  /** White space becomes a space, a line end of two characters one of them; references are expanded. */
  function Next(t: string): (k: Token)
    requires t != []
    ensures 1 <= k.len && |k.out| <= k.len <= |t|
    ensures '\0' !in t[1..k.len]
  {
    if t[0] == '\r' then Token(" ", if CharAt(t, 1) == '\n' then 2 else 1)
    else if t[0] == '\n' || t[0] == '\t' then Token(" ", 1)
    else if t[0] == '&' then Reference(t)
    else Token([t[0]], 1)
  }

  function Prepend(text: string, len: nat, r: Decoded): Decoded {
    if r.Open? then Open else Closed(text + r.text, len + r.len)
  }

  /** The value up to the closing quote, and the length of text read including it. */
  function Decode(t: string, quote: char): (r: Decoded)
    ensures r.Closed? ==> |r.text| < r.len <= |t|
    decreases |t|
  {
    if t == [] || t[0] == '\0' then Open
    else if t[0] == quote then Closed("", 1)
    else
      var k := Next(t);
      Prepend(k.out, k.len, Decode(t[k.len..], quote))
  }

  // ---------------------------------------------------------------------
  // Writing
  // ---------------------------------------------------------------------

  function Quote(single: bool): char { if single then '\'' else '"' }

  /** What is written for a character inside an attribute value; `single` is format_attribute_single_quote. */
  function EscapeChar(c: char, single: bool): string {
    if c == '&' then "&amp;"
    else if c == '<' then "&lt;"
    else if c == '"' then (if single then "\"" else "&quot;")
    else if c == '\'' then (if single then "&apos;" else "'")
    else if c as nat < 32 then ['&', '#', DigitChar(c as nat / 10), DigitChar(c as nat % 10), ';']
    else [c]
  }

  function Expand(s: string, f: char -> string): string {
    if s == "" then "" else f(s[0]) + Expand(s[1..], f)
  }

  function Escape(s: string, single: bool): string { Expand(s, c => EscapeChar(c, single)) }

  /** ctx_special_attr */
  predicate SpecialAttr(c: char) { c as nat < 32 || c == '&' || c == '<' || c == '"' || c == '\'' }

  lemma ExpandStep(s: string, i: nat, f: char -> string)
    requires i < |s|
    ensures Expand(s[i..], f) == f(s[i]) + Expand(s[i + 1..], f)
  {
    assert s[i..][0] == s[i] && s[i..][1..] == s[i + 1..];
  }

  lemma {:induction false} ExpandUsual(s: string, i: nat, j: nat, f: char -> string)
    requires i <= j <= |s| && forall k :: i <= k < j ==> f(s[k]) == [s[k]]
    ensures Expand(s[i..], f) == s[i..j] + Expand(s[j..], f)
    decreases j - i
  {
    if i < j {
      ExpandStep(s, i, f);
      ExpandUsual(s, i + 1, j, f);
      assert s[i..j] == [s[i]] + s[i + 1..j];
    }
  }

  method UsualRun(s: string, i: nat, special: char -> bool) returns (j: nat)
    requires i <= |s|
    ensures i <= j <= |s| && (forall k :: i <= k < j ==> !special(s[k])) && (j < |s| ==> special(s[j]))
  {
    j := i;
    while j < |s| && !special(s[j])
      invariant i <= j <= |s| && forall k :: i <= k < j ==> !special(s[k])
    {
      j := j + 1;
    }
  }

  /** text_output_escaped: runs of usual characters are copied, the special ones replaced. */
  method WriteEscaped(s: string, special: char -> bool, f: char -> string) returns (out: string)
    requires forall c :: !special(c) ==> f(c) == [c]
    ensures out == Expand(s, f)
  {
    out := "";
    var i := 0;
    while i < |s|
      invariant 0 <= i <= |s| && Written(out, s, i, f)
      decreases |s| - i
    {
      var prev := i;
      i := UsualRun(s, prev, special);
      WrittenUsual(out, s, prev, i, f);
      out := out + s[prev..i];
      if i < |s| {
        WrittenOne(out, s, i, f);
        out := out + f(s[i]);
        i := i + 1;
      }
    }
    assert s[|s|..] == "" && out + "" == out;
  }

  /** out is what has been written for the first i characters. */
  predicate Written(out: string, s: string, i: nat, f: char -> string) {
    i <= |s| && Expand(s, f) == out + Expand(s[i..], f)
  }

  lemma WrittenUsual(out: string, s: string, i: nat, j: nat, f: char -> string)
    requires i <= j <= |s| && Written(out, s, i, f) && forall k :: i <= k < j ==> f(s[k]) == [s[k]]
    ensures Written(out + s[i..j], s, j, f)
  {
    ExpandUsual(s, i, j, f);
    var run, rest := s[i..j], Expand(s[j..], f);
    assert out + (run + rest) == out + run + rest;
  }

  lemma WrittenOne(out: string, s: string, i: nat, f: char -> string)
    requires i < |s| && Written(out, s, i, f)
    ensures Written(out + f(s[i]), s, i + 1, f)
  {
    ExpandStep(s, i, f);
    var one, rest := f(s[i]), Expand(s[i + 1..], f);
    assert out + (one + rest) == out + one + rest;
  }

  method TextOutputEscaped(s: string, single: bool) returns (out: string)
    ensures out == Escape(s, single)
  {
    out := WriteEscaped(s, c => SpecialAttr(c), c => EscapeChar(c, single));
  }

  // ---------------------------------------------------------------------
  // The round trip
  // ---------------------------------------------------------------------

  predicate IsToken(e: string, c: char, rest: string) { e != "" && Next(e + rest) == Token([c], |e|) }

  lemma NamedTokens(rest: string)
    ensures IsToken("&amp;", '&', rest)
    ensures IsToken("&lt;", '<', rest)
    ensures IsToken("&quot;", '"', rest)
    ensures IsToken("&apos;", '\'', rest)
  {
    Literal("&amp;", rest);
    Literal("&lt;", rest);
    Literal("&quot;", rest);
    Literal("&apos;", rest);
  }

  lemma Literal(e: string, rest: string)
    requires |e| >= 4
    ensures var t := e + rest; t[0] == e[0] && t[1] == e[1] && t[2] == e[2] && t[3] == e[3]
    ensures var t := e + rest; (|e| > 4 ==> t[4] == e[4]) && (|e| > 5 ==> t[5] == e[5])
  {
  }

  /** Whatever follows it, an escaped character is one token that stands for the character. */
  lemma EscapedToken(c: char, single: bool, rest: string)
    requires c != '\0'
    ensures IsToken(EscapeChar(c, single), c, rest)
    ensures EscapeChar(c, single)[0] != '\0' && EscapeChar(c, single)[0] != Quote(single)
    ensures EscapeChar(c, single) == [c] <==> c as nat >= 32 && c !in {'&', '<', Quote(single)}
  {
    if c as nat < 32 { ControlToken(c, rest); } else { NamedTokens(rest); }
  }

  lemma ControlToken(c: char, rest: string)
    requires 0 < c as nat < 32
    ensures var e := ['&', '#', DigitChar(c as nat / 10), DigitChar(c as nat % 10), ';'];
            Next(e + rest) == Token([c], 5)
  {
    var a, b := DigitChar(c as nat / 10), DigitChar(c as nat % 10);
    var t := ['&', '#', a, b, ';'] + rest;
    assert t[0] == '&' && t[1] == '#' && t[2] == a && t[3] == b && t[4] == ';';
    assert DigitsEnd(t, 4, Dec) == 4 && DigitsEnd(t, 3, Dec) == 4 && DigitsEnd(t, 2, Dec) == 4;
    assert Value(t, 2, 2, Dec) == 0 && Value(t, 2, 3, Dec) == c as nat / 10 && Value(t, 2, 4, Dec) == c as nat;
  }

  lemma DecodeToken(e: string, c: char, rest: string, quote: char)
    requires IsToken(e, c, rest) && e[0] != '\0' && e[0] != quote
    ensures Decode(e + rest, quote) == Prepend([c], |e|, Decode(rest, quote))
  {
    assert (e + rest)[0] == e[0] && (e + rest)[|e|..] == rest;
  }

  /** Printing a value in quotes and reading it back gives the value. */
  lemma {:induction false} EscapeRoundTrip(s: string, single: bool, rest: string)
    requires '\0' !in s
    ensures Decode(Escape(s, single) + ([Quote(single)] + rest), Quote(single)) == Closed(s, |Escape(s, single)| + 1)
  {
    var tail := [Quote(single)] + rest;
    if s == "" {
      assert Escape(s, single) + tail == tail;
    } else {
      var e := EscapeChar(s[0], single);
      var t' := Escape(s[1..], single) + tail;
      assert Escape(s, single) + tail == e + t';
      EscapedToken(s[0], single, t');
      DecodeToken(e, s[0], t', Quote(single));
      EscapeRoundTrip(s[1..], single, rest);
      assert s == [s[0]] + s[1..];
    }
  }
}
