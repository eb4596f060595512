/** Attribute values are decoded in place: parse_wconv and the gap buffer (pugixml.cpp:2441-2621, 2819-2853). */
module GapParser {
  import opened Collections
  import opened Integers
  import opened AttributeText

  // ---------------------------------------------------------------------
  // The gap
  // ---------------------------------------------------------------------

  /** The gap, if open, is b[end - size..end], between the decoded text and the read position s. */
  predicate Fits(len: nat, open: bool, end: nat, size: nat, start: nat, s: nat) {
    && start <= s <= len
    && if open then size <= end && start <= end - size && end <= s else size == 0
  }

  /** The text decoded so far: what lies between start and s, without the gap. */
  function Visible(b: string, open: bool, end: nat, size: nat, start: nat, s: nat): (v: string)
    requires Fits(|b|, open, end, size, start, s)
    ensures |v| == s - start - size
  {
    if open then b[start..end - size] + b[end..s] else b[start..s]
  }

  /** memmove towards the front. */
  function Moved(b: string, to: nat, from: nat, count: nat): (r: string)
    requires to <= from && from + count <= |b|
    ensures |r| == |b|
  {
    b[..to] + b[from..from + count] + b[to + count..]
  }

  lemma PushShows(b: string, open: bool, end: nat, size: nat, start: nat, s: nat, count: nat)
    requires Fits(|b|, open, end, size, start, s) && s + count <= |b|
    ensures Fits(|b|, true, s + count, size + count, start, s + count)
    ensures Visible(Collapsed(b, open, end, size, start, s), true, s + count, size + count, start, s + count)
            == Visible(b, open, end, size, start, s)
  {
    CollapsedIs(b, open, end, size, start, s);
  }

  /** The buffer with the gap closed. */
  function Collapsed(b: string, open: bool, end: nat, size: nat, start: nat, s: nat): (r: string)
    requires Fits(|b|, open, end, size, start, s)
    ensures |r| == |b|
  {
    if open then Moved(b, end - size, end, s - end) else b
  }

  lemma CollapsedIs(b: string, open: bool, end: nat, size: nat, start: nat, s: nat)
    requires Fits(|b|, open, end, size, start, s)
    ensures var r := Collapsed(b, open, end, size, start, s);
            && r[start..s - size] == Visible(b, open, end, size, start, s)
            && r[s..] == b[s..] && r[..start] == b[..start]
  {
    if open {
      var r := Moved(b, end - size, end, s - end);
      assert r[start..s - size] == b[start..end - size] + b[end..s];
      assert r[s..] == b[s..] && r[..start] == b[..start];
    }
  }

  function Overwritten(b: string, s: nat, out: string): (r: string)
    requires s + |out| <= |b|
    ensures |r| == |b|
  {
    b[..s] + out + b[s + |out|..]
  }

  lemma WriteShows(b: string, open: bool, end: nat, size: nat, start: nat, s: nat, out: string)
    requires Fits(|b|, open, end, size, start, s) && s + |out| <= |b|
    ensures var b' := Overwritten(b, s, out);
            && Visible(b', open, end, size, start, s + |out|) == Visible(b, open, end, size, start, s) + out
            && b'[s + |out|..] == b[s + |out|..] && b'[..start] == b[..start]
  {
    var b' := Overwritten(b, s, out);
    assert b'[s + |out|..] == b[s + |out|..] && b'[..start] == b[..start];
    if open {
      assert b'[start..end - size] == b[start..end - size];
      assert b'[end..s + |out|] == b[end..s] + out;
    } else {
      assert b'[start..s + |out|] == b[start..s] + out;
    }
  }

  class Gap {
    var open: bool
    var end: nat
    var size: nat

    constructor ()
      ensures !open && size == 0
    {
      open, end, size := false, 0, 0;
    }

    ghost predicate Valid(len: nat, start: nat, s: nat)
      reads this
    {
      Fits(len, open, end, size, start, s)
    }

    ghost function Text(b: string, start: nat, s: nat): string
      reads this
      requires Valid(|b|, start, s)
    {
      Visible(b, open, end, size, start, s)
    }

    /** Writes out over the characters at s and moves past it. */
    method Put(buf: array<char>, ghost start: nat, s: nat, out: string) returns (s': nat)
      requires Valid(buf.Length, start, s) && s + |out| <= buf.Length
      modifies buf
      ensures s' == s + |out| && Valid(buf.Length, start, s')
      ensures Text(buf[..], start, s') == old(Text(buf[..], start, s)) + out
      ensures buf[..][s'..] == old(buf[..])[s'..] && buf[..][..start] == old(buf[..])[..start]
    {
      WriteShows(buf[..], open, end, size, start, s, out);
      forall i | 0 <= i < |out| { buf[s + i] := out[i]; }
      assert buf[..] == Overwritten(old(buf[..]), s, out);
      s' := s + |out|;
    }

    /** Moves the text behind the gap forward. */
    method Collapse(buf: array<char>, ghost start: nat, s: nat)
      requires Valid(buf.Length, start, s)
      modifies buf
      ensures buf[..] == Collapsed(old(buf[..]), open, end, size, start, s)
      ensures buf[..][s..] == old(buf[..])[s..] && buf[..][..start] == old(buf[..])[..start]
    {
      CollapsedIs(buf[..], open, end, size, start, s);
      if open { MemMove(buf, end - size, end, s - end); }
    }

    /** Closes the old gap by moving the text behind it forward, and opens one of count more characters at s. */
    method Push(buf: array<char>, ghost start: nat, s: nat, count: nat) returns (s': nat)
      requires Valid(buf.Length, start, s) && s + count <= buf.Length
      modifies this, buf
      ensures s' == s + count && Valid(buf.Length, start, s')
      ensures Text(buf[..], start, s') == old(Text(buf[..], start, s))
      ensures buf[..][s..] == old(buf[..])[s..] && buf[..][..start] == old(buf[..])[..start]
    {
      PushShows(buf[..], open, end, size, start, s, count);
      Collapse(buf, start, s);
      s' := s + count;
      open, end, size := true, s', size + count;
    }

    /** Replaces n characters at s by `out`. */
    method Replace(buf: array<char>, ghost start: nat, s: nat, out: string, n: nat) returns (s': nat)
      requires Valid(buf.Length, start, s) && |out| <= n && s + n <= buf.Length
      modifies this, buf
      ensures s' == s + n && Valid(buf.Length, start, s')
      ensures Text(buf[..], start, s') == old(Text(buf[..], start, s)) + out
      ensures buf[..][s'..] == old(buf[..])[s'..] && buf[..][..start] == old(buf[..])[..start]
    {
      ghost var b := buf[..];
      s' := Put(buf, start, s, out);
      ghost var m, s1 := buf[..], s';
      s' := Push(buf, start, s', n - |out|);
      KeepsUnread(b, m, buf[..], start, s1, s');
    }

    /** Closes the gap; the text ends at e. */
    method Flush(buf: array<char>, ghost start: nat, s: nat) returns (e: nat)
      requires Valid(buf.Length, start, s)
      modifies buf
      ensures start <= e <= s && buf[..][start..e] == old(Text(buf[..], start, s))
      ensures buf[..][s..] == old(buf[..])[s..] && buf[..][..start] == old(buf[..])[..start]
    {
      CollapsedIs(buf[..], open, end, size, start, s);
      Collapse(buf, start, s);
      e := if open then s - size else s;
    }
  }

  method MemMove(buf: array<char>, to: nat, from: nat, count: nat)
    requires to <= from && from + count <= buf.Length
    modifies buf
    ensures buf[..] == Moved(old(buf[..]), to, from, count)
  {
    forall i | 0 <= i < count { buf[to + i] := buf[from + i]; }
    forall k: nat | k < buf.Length ensures buf[k] == Moved(old(buf[..]), to, from, count)[k] {
      MovedAt(old(buf[..]), to, from, count, k);
    }
  }

  lemma MovedAt(b: string, to: nat, from: nat, count: nat, k: nat)
    requires to <= from && from + count <= |b| && k < |b|
    ensures Moved(b, to, from, count)[k] == if to <= k < to + count then b[from + (k - to)] else b[k]
  {
  }

  // ---------------------------------------------------------------------
  // The read position
  // ---------------------------------------------------------------------

  type Decoder = string -> Decoded

  /** dec is decoding up to the given quote. */
  ghost predicate Decodes(dec: Decoder, quote: char) {
    && (quote == '"' || quote == '\'')
    && forall t {:trigger Decode(t, quote)} :: dec(t) == Decode(t, quote)
  }

  /**
    With `text` decoded and s the read position: nothing at or after s has been overwritten,
    a terminating NUL is still ahead, and what remains decodes to the rest of the value.
   */
  ghost predicate Reading(b: string, q: string, text: string, start: nat, s: nat, dec: Decoder) {
    && start <= s <= |b| == |q|
    && b[s..] == q[s..] && b[..start] == q[..start]
    && '\0' in q[s..]
    && dec(q[start..]) == Prepend(text, s - start, dec(q[s..]))
  }

  lemma PrependTwice(a: string, m: nat, b: string, n: nat, r: Decoded)
    ensures Prepend(a, m, Prepend(b, n, r)) == Prepend(a + b, m + n, r)
  {
    if r.Closed? { assert a + (b + r.text) == (a + b) + r.text; }
  }

  /** The first n characters of t stand for `out`, and the terminator lies behind them. */
  ghost predicate Consumes(t: string, out: string, n: nat, dec: Decoder) {
    n <= |t| && '\0' in t[n..] && dec(t) == Prepend(out, n, dec(t[n..]))
  }

  lemma TokenConsumes(t: string, k: Token, quote: char, dec: Decoder)
    requires Decodes(dec, quote) && '\0' in t && t[0] != quote && t[0] != '\0' && k == Next(t)
    ensures Consumes(t, k.out, k.len, dec)
  {
    assert dec(t) == Decode(t, quote) && dec(t[k.len..]) == Decode(t[k.len..], quote);
    assert t == [t[0]] + t[1..k.len] + t[k.len..];
  }

  lemma ConsumesMore(t: string, a: string, m: nat, b: string, n: nat, dec: Decoder)
    requires Consumes(t, a, m, dec) && Consumes(t[m..], b, n, dec)
    ensures Consumes(t, a + b, m + n, dec)
  {
    assert t[m..][n..] == t[m + n..];
    PrependTwice(a, m, b, n, dec(t[m + n..]));
  }

  /** Between the read positions s and s' the text grew by `out`, and nothing outside was touched. */
  ghost predicate Piece(b: string, b': string, text: string, text': string, start: nat, s: nat, s': nat,
      out: string, dec: Decoder) {
    && s <= s' && start <= s' <= |b'| == |b| && s <= |b|
    && text' == text + out && Consumes(b[s..], out, s' - s, dec)
    && b'[s'..] == b[s'..] && b'[..start] == b[..start]
  }

  /** The read position moves on; the write position has not passed it. */
  lemma ReadOn(
      b: string, b': string, q: string, text: string, text': string, start: nat, s: nat, s': nat,
      out: string, dec: Decoder)
    requires Reading(b, q, text, start, s, dec) && Piece(b, b', text, text', start, s, s', out, dec)
    ensures Reading(b', q, text', start, s', dec)
  {
    var n := s' - s;
    assert b[s..][n..] == b[s'..] && q[s..][n..] == q[s'..];
    PrependTwice(text, s - start, out, n, dec(q[s'..]));
  }

  predicate Plain(c: char) { c !in {'\0', '\r', '\n', '\t', '&', '\'', '"'} }

  lemma PlainConsumes(t: string, quote: char, dec: Decoder)
    requires '\0' in t && Plain(t[0]) && Decodes(dec, quote)
    ensures Consumes(t, [t[0]], 1, dec)
  {
    TokenConsumes(t, Token([t[0]], 1), quote, dec);
  }

  lemma NothingConsumes(t: string, dec: Decoder)
    requires '\0' in t
    ensures Consumes(t, "", 0, dec)
  {
    var r := dec(t);
    assert t[0..] == t;
    assert Prepend("", 0, r) == r by { if r.Closed? { assert "" + r.text == r.text; } }
  }

  lemma PlainMore(t: string, n: nat, quote: char, dec: Decoder)
    requires n < |t| && Decodes(dec, quote) && Consumes(t, t[..n], n, dec) && Plain(t[n])
    ensures Consumes(t, t[..n + 1], n + 1, dec)
  {
    PlainConsumes(t[n..], quote, dec);
    ConsumesMore(t, t[..n], n, [t[n]], 1, dec);
    assert t[..n + 1] == t[..n] + [t[n]];
  }

  lemma {:induction false} PlainRun(t: string, n: nat, quote: char, dec: Decoder)
    requires '\0' in t && n <= |t| && Decodes(dec, quote)
    requires forall k :: 0 <= k < n ==> Plain(t[k])
    ensures Consumes(t, t[..n], n, dec)
    decreases n
  {
    if n == 0 {
      NothingConsumes(t, dec);
      assert t[..0] == "";
    } else {
      PlainRun(t, n - 1, quote, dec);
      PlainMore(t, n - 1, quote, dec);
    }
  }

  lemma LoneAmpersand(t: string, quote: char, dec: Decoder)
    requires '\0' in t && t[0] == '&' && Reference(t) == Token("&", 1) && Decodes(dec, quote)
    ensures Consumes(t, t[..1], 1, dec)
  {
    TokenConsumes(t, Token("&", 1), quote, dec);
    assert t[..1] == "&";
  }

  /** An & that starts no reference, and plain characters behind it, stand for themselves. */
  lemma {:induction false} LiteralRun(t: string, n: nat, quote: char, dec: Decoder)
    requires '\0' in t && 1 <= n <= |t| && Decodes(dec, quote)
    requires t[0] == '&' && Reference(t) == Token("&", 1) && forall k :: 1 <= k < n ==> Plain(t[k])
    ensures Consumes(t, t[..n], n, dec)
    decreases n
  {
    if n == 1 {
      LoneAmpersand(t, quote, dec);
    } else {
      LiteralRun(t, n - 1, quote, dec);
      PlainMore(t, n - 1, quote, dec);
    }
  }

  // ---------------------------------------------------------------------
  // References
  // ---------------------------------------------------------------------

  predicate Starts(t: string, p: string) { |p| <= |t| && forall i :: 0 <= i < |p| ==> t[i] == p[i] }

  /** Compares the text behind the & with a name, up to the first difference. */
  method MatchName(t: string, name: string) returns (n: nat, ok: bool)
    requires t != [] && name != "" && t[0] == name[0] && '\0' in t && '\0' !in name
    ensures ok <==> Starts(t, name)
    ensures if ok then n == |name| else 1 <= n < |t| && n < |name| && t[n] != name[n]
    ensures forall k :: 0 <= k < n ==> t[k] == name[k]
  {
    n := 1;
    assert t == [t[0]] + t[1..];
    while n < |name| && t[n] == name[n]
      invariant 1 <= n <= |name| && n < |t|
      invariant forall k :: 0 <= k < n ==> t[k] == name[k]
      invariant '\0' in t[n..]
    {
      assert t[n..] == [t[n]] + t[n + 1..];
      n := n + 1;
    }
    ok := n == |name|;
  }

  /** What strconv_escape finds at an &: a reference of n characters for `out`, or how far it looked. */
  predicate Found(t: string, out: string, n: nat, ok: bool) {
    && 1 <= n <= |t|
    && if ok then Reference(t) == Token(out, n) && |out| <= n
       else Reference(t) == Token("&", 1) && forall k :: 1 <= k < n ==> Plain(t[k])
  }

  method FindName(t: string, name: string, c: char) returns (out: string, n: nat, ok: bool)
    requires '\0' in t && t[0] == '&'
    requires (name, c) in {("&amp;", '&'), ("&apos;", '\''), ("&gt;", '>'), ("&lt;", '<'), ("&quot;", '"')}
    requires CharAt(t, 1) == name[1] && (name[1] == 'a' ==> CharAt(t, 2) == name[2])
    ensures Found(t, out, n, ok)
  {
    n, ok := MatchName(t, name);
    out := [c];
    assert forall k :: 1 <= k < |name| ==> Plain(name[k]);
  }

  lemma CodeReference(t: string, from: nat, base: Base)
    requires from == (if base.Hex? then 3 else 2) && IsAt(t, 1, '#') && (base.Hex? ==> IsAt(t, 2, 'x'))
    requires base.Dec? ==> !IsAt(t, 2, 'x')
    ensures from <= |t| && Reference(t) == CharReference(t, from, base)
  {
  }

  lemma DigitsPlain(t: string, from: nat, j: nat, base: Base)
    requires from == (if base.Hex? then 3 else 2) && IsAt(t, 1, '#')
    requires (base.Hex? ==> IsAt(t, 2, 'x')) && DigitsAt(t, from, j, base)
    ensures forall k :: 1 <= k < j ==> Plain(t[k])
  {
  }

  method FindCode(t: string, from: nat, base: Base) returns (out: string, n: nat, ok: bool)
    requires '\0' in t && from == (if base.Hex? then 3 else 2) && IsAt(t, 1, '#') && (base.Hex? ==> IsAt(t, 2, 'x'))
    requires base.Dec? ==> !IsAt(t, 2, 'x')
    ensures Found(t, out, n, ok)
  {
    var code;
    n, code := ReadDigits(t, from, base, 32);
    CodeReference(t, from, base);
    DigitsPlain(t, from, n, base);
    ok := n > from && CharAt(t, n) == ';';
    out := Utf8(code);
    if ok { n := n + 1; }
  }

  method FindReference(t: string) returns (out: string, n: nat, ok: bool)
    requires '\0' in t && t[0] == '&'
    ensures Found(t, out, n, ok)
  {
    match CharAt(t, 1) {
      case '#' =>
        if CharAt(t, 2) == 'x' { out, n, ok := FindCode(t, 3, Hex); } else { out, n, ok := FindCode(t, 2, Dec); }
      case 'a' =>
        if CharAt(t, 2) == 'm' {
          out, n, ok := FindName(t, "&amp;", '&');
        } else if CharAt(t, 2) == 'p' {
          out, n, ok := FindName(t, "&apos;", '\'');
        } else {
          out, n, ok := "", 2, false;
        }
      case 'g' => out, n, ok := FindName(t, "&gt;", '>');
      case 'l' => out, n, ok := FindName(t, "&lt;", '<');
      case 'q' => out, n, ok := FindName(t, "&quot;", '"');
      case _ => out, n, ok := "", 1, false;
    }
  }

  /** Moving the read position over characters that stand for themselves shows them. */
  lemma ScanShows(b: string, open: bool, end: nat, size: nat, start: nat, s: nat, s': nat, out: string)
    requires Fits(|b|, open, end, size, start, s) && s <= s' <= |b| && out == b[s..][..s' - s]
    ensures Visible(b, open, end, size, start, s') == Visible(b, open, end, size, start, s) + out
  {
    assert b[s..s'] == out;
    if open {
      assert b[end..s'] == b[end..s] + out;
    } else {
      assert b[start..s'] == b[start..s] + out;
    }
  }

  lemma PieceOf(b: string, text: string, text': string, start: nat, s: nat, s': nat, out: string, dec: Decoder)
    requires start <= s <= s' <= |b| && text' == text + out && Consumes(b[s..], out, s' - s, dec)
    ensures Piece(b, b, text, text', start, s, s', out, dec)
  {
  }

  /** Characters that stand for themselves need no writing. */
  lemma ScanPiece(b: string, open: bool, end: nat, size: nat, start: nat, s: nat, s': nat, out: string, dec: Decoder)
    requires Fits(|b|, open, end, size, start, s) && s <= s' <= |b| && out == b[s..][..s' - s]
    requires Consumes(b[s..], out, s' - s, dec)
    ensures Fits(|b|, open, end, size, start, s')
    ensures Piece(b, b, Visible(b, open, end, size, start, s), Visible(b, open, end, size, start, s'), start, s, s',
            out, dec)
  {
    ScanShows(b, open, end, size, start, s, s', out);
    PieceOf(b, Visible(b, open, end, size, start, s), Visible(b, open, end, size, start, s'), start, s, s', out, dec);
  }

  /** strconv_escape: the characters from s to s' stand for `out`. */
  method StrconvEscape(
      buf: array<char>, g: Gap, s: nat, ghost start: nat, ghost quote: char, ghost dec: Decoder)
      returns (s': nat, ghost out: string)
    requires g.Valid(buf.Length, start, s) && '\0' in buf[..][s..] && buf[..][s..][0] == '&' && Decodes(dec, quote)
    modifies buf, g
    ensures s < s' && g.Valid(buf.Length, start, s')
    ensures Piece(old(buf[..]), buf[..], old(g.Text(buf[..], start, s)), g.Text(buf[..], start, s'), start, s, s',
            out, dec)
  {
    var o, n, ok := ReadReference(buf[..][s..], quote, dec);
    s' := s + n;
    if ok {
      out := o;
      ghost var b, text := buf[..], g.Text(buf[..], start, s);
      var _ := g.Replace(buf, start, s, o, n);
      PieceWritten(b, buf[..], text, g.Text(buf[..], start, s'), start, s, s', out, dec);
    } else {
      out := buf[..][s..][..n];
      ScanPiece(buf[..], g.open, g.end, g.size, start, s, s', out, dec);
    }
  }

  lemma PieceWritten(
      b: string, b': string, text: string, text': string, start: nat, s: nat, s': nat, out: string,
      dec: Decoder)
    requires start <= s <= s' <= |b| == |b'| && text' == text + out && Consumes(b[s..], out, s' - s, dec)
    requires b'[s'..] == b[s'..] && b'[..start] == b[..start]
    ensures Piece(b, b', text, text', start, s, s', out, dec)
  {
  }

  /** The reference at an &, or the characters up to where it turned out to be none. */
  method ReadReference(t: string, ghost quote: char, ghost dec: Decoder) returns (out: string, n: nat, ok: bool)
    requires Decodes(dec, quote) && '\0' in t && t[0] == '&'
    ensures 1 <= n <= |t| && (ok ==> |out| <= n) && Consumes(t, if ok then out else t[..n], n, dec)
  {
    out, n, ok := FindReference(t);
    if ok { TokenConsumes(t, Token(out, n), quote, dec); } else { LiteralRun(t, n, quote, dec); }
  }

  predicate LineEnd(t: string) { |t| > 1 && t[0] == '\r' && t[1] == '\n' }

  lemma SpaceConsumes(t: string, quote: char, dec: Decoder)
    requires Decodes(dec, quote) && '\0' in t && (t[0] == '\r' || t[0] == '\n' || t[0] == '\t')
    ensures Consumes(t, " ", if LineEnd(t) then 2 else 1, dec)
  {
    TokenConsumes(t, Token(" ", if LineEnd(t) then 2 else 1), quote, dec);
  }

  /** A white space character, and a line feed behind a carriage return. */
  method ConvertSpace(
      buf: array<char>, g: Gap, s: nat, ghost start: nat, ghost quote: char, ghost dec: Decoder)
      returns (s': nat, ghost out: string)
    requires g.Valid(buf.Length, start, s) && '\0' in buf[..][s..] && Decodes(dec, quote)
    requires buf[..][s..][0] == '\r' || buf[..][s..][0] == '\n' || buf[..][s..][0] == '\t'
    modifies buf, g
    ensures s < s' && g.Valid(buf.Length, start, s')
    ensures Piece(old(buf[..]), buf[..], old(g.Text(buf[..], start, s)), g.Text(buf[..], start, s'), start, s, s',
            out, dec)
  {
    ghost var b, text := buf[..], g.Text(buf[..], start, s);
    SpaceConsumes(b[s..], quote, dec);
    out := " ";
    var pair := buf[s] == '\r' && s + 1 < buf.Length && buf[s + 1] == '\n';
    assert pair == LineEnd(b[s..]);
    if pair { s' := g.Replace(buf, start, s, " ", 2); } else { s' := g.Put(buf, start, s, " "); }
    PieceWritten(b, buf[..], text, g.Text(buf[..], start, s'), start, s, s', out, dec);
  }

  lemma KeepsUnread(b: string, m: string, b': string, start: nat, s: nat, s': nat)
    requires start <= s <= s' <= |b| == |m| == |b'|
    requires m[s..] == b[s..] && b'[s..] == m[s..] && m[..start] == b[..start] && b'[..start] == m[..start]
    ensures b'[s'..] == b[s'..] && b'[..start] == b[..start]
  {
    assert b'[s'..] == b'[s..][s' - s..] && b[s'..] == b[s..][s' - s..];
  }

  // ---------------------------------------------------------------------
  // parse_wconv
  // ---------------------------------------------------------------------

  /** The number of characters before the first one that ct_parse_attr_ws marks. */
  method ScanPlain(t: string) returns (n: nat)
    requires '\0' in t
    ensures n < |t| && !Plain(t[n]) && forall k :: 0 <= k < n ==> Plain(t[k])
  {
    n := 0;
    ghost var z :| 0 <= z < |t| && t[z] == '\0';
    while Plain(t[n])
      invariant n <= z && forall k :: 0 <= k < n ==> Plain(t[k])
      decreases z - n
    {
      n := n + 1;
    }
  }

  method SkipPlain(
      buf: array<char>, g: Gap, s: nat, ghost start: nat, ghost quote: char, ghost dec: Decoder)
      returns (s': nat, ghost out: string)
    requires g.Valid(buf.Length, start, s) && '\0' in buf[..][s..] && Decodes(dec, quote)
    ensures s <= s' < buf.Length && g.Valid(buf.Length, start, s') && !Plain(buf[s'])
    ensures Piece(buf[..], buf[..], g.Text(buf[..], start, s), g.Text(buf[..], start, s'), start, s, s', out, dec)
  {
    var t := buf[..][s..];
    var n := ScanPlain(t);
    s', out := s + n, t[..n];
    PlainRun(t, n, quote, dec);
    ScanPiece(buf[..], g.open, g.end, g.size, start, s, s', out, dec);
  }

  /** At start lies s, terminated. */
  predicate Holds(b: string, start: nat, s: string) {
    start + |s| < |b| && b[start..start + |s|] == s && b[start + |s|] == '\0'
  }

  /** What parse_wconv leaves behind of a text that stands for d. */
  ghost predicate Outcome(b: string, b': string, start: nat, d: Decoded, r: Option<nat>) {
    && |b'| == |b| && start <= |b| && b'[..start] == b[..start]
    && match d
       case Open => r == None
       case Closed(text, len) =>
         && r == Some(start + len) && start + len <= |b|
         && |text| < len && Holds(b', start, text)
         && b'[start + len..] == b[start + len..]
  }

  lemma Terminate(b: string, b': string, q: string, text: string, start: nat, s: nat, e: nat, quote: char, dec: Decoder)
    requires Reading(b, q, text, start, s, dec) && b[s..][0] == quote && Decodes(dec, quote)
    requires |b'| == |b| && start <= e <= s && b'[start..e] == text && b'[s..] == b[s..] && b'[..start] == b[..start]
    ensures Outcome(q, b'[e := '\0'], start, dec(q[start..]), Some(s + 1))
  {
    var f := b'[e := '\0'];
    assert dec(q[s..]) == Decode(q[s..], quote) == Closed("", 1);
    assert text + "" == text;
    assert f[start..e] == b'[start..e];
    assert f[..start] == b'[..start];
    assert f[s + 1..] == b'[s..][1..] && q[s + 1..] == q[s..][1..];
  }

  /** parse_wconv: decodes the value that begins at start, in place, up to the quote. */
  method ParseWconv(buf: array<char>, start: nat, quote: char) returns (r: Option<nat>)
    requires start <= buf.Length && '\0' in buf[..][start..] && (quote == '"' || quote == '\'')
    modifies buf
    ensures Outcome(old(buf[..]), buf[..], start, Decode(old(buf[..])[start..], quote), r)
  {
    var g := new Gap();
    var s := start;
    ghost var q, dec: Decoder := buf[..], t => Decode(t, quote);
    assert g.Text(q, start, s) == "" && Reading(q, q, "", start, s, dec) by { NothingConsumes(q[start..], dec); }
    s := Scan(buf, g, s, start, q, quote, dec);
    while buf[s] != quote && buf[s] != '\0'
      invariant s < buf.Length && !Plain(buf[s]) && g.Valid(buf.Length, start, s)
      invariant Reading(buf[..], q, g.Text(buf[..], start, s), start, s, dec)
      decreases buf.Length - s
    {
      s := Replace(buf, g, s, start, q, quote, dec);
      s := Scan(buf, g, s, start, q, quote, dec);
    }
    if buf[s] == quote {
      r := Close(buf, g, s, start, q, quote, dec);
    } else {
      Unclosed(buf[..], q, g.Text(buf[..], start, s), start, s, quote, dec);
      r := None;
    }
  }

  lemma Unclosed(b: string, q: string, text: string, start: nat, s: nat, quote: char, dec: Decoder)
    requires Reading(b, q, text, start, s, dec) && b[s..][0] == '\0' && Decodes(dec, quote)
    ensures Outcome(q, b, start, dec(q[start..]), None)
  {
    assert dec(q[s..]) == Decode(q[s..], quote) == Open;
  }

  method Scan(
      buf: array<char>, g: Gap, s: nat, ghost start: nat, ghost q: string, ghost quote: char,
      ghost dec: Decoder)
      returns (s': nat)
    requires g.Valid(buf.Length, start, s) && Reading(buf[..], q, g.Text(buf[..], start, s), start, s, dec)
    requires Decodes(dec, quote)
    ensures s <= s' < buf.Length && !Plain(buf[s']) && g.Valid(buf.Length, start, s')
    ensures Reading(buf[..], q, g.Text(buf[..], start, s'), start, s', dec)
  {
    ghost var out;
    s', out := SkipPlain(buf, g, s, start, quote, dec);
    ReadOn(buf[..], buf[..], q, g.Text(buf[..], start, s), g.Text(buf[..], start, s'), start, s, s', out, dec);
  }

  /** Handles the character that stopped the scan. */
  method ReplaceOne(
      buf: array<char>, g: Gap, s: nat, ghost start: nat, quote: char, ghost dec: Decoder)
      returns (s': nat, ghost out: string)
    requires g.Valid(buf.Length, start, s) && '\0' in buf[..][s..] && Decodes(dec, quote)
    requires !Plain(buf[..][s..][0]) && buf[..][s..][0] != quote && buf[..][s..][0] != '\0'
    modifies buf, g
    ensures s < s' && g.Valid(buf.Length, start, s')
    ensures Piece(old(buf[..]), buf[..], old(g.Text(buf[..], start, s)), g.Text(buf[..], start, s'), start, s, s',
            out, dec)
  {
    if IsSpace(buf[s]) {
      s', out := ConvertSpace(buf, g, s, start, quote, dec);
    } else if buf[s] == '&' {
      s', out := StrconvEscape(buf, g, s, start, quote, dec);
    } else {
      s', out := PassQuote(buf, g, s, start, quote, dec);
    }
  }

  method Replace(
      buf: array<char>, g: Gap, s: nat, ghost start: nat, ghost q: string, quote: char, ghost dec: Decoder)
      returns (s': nat)
    requires g.Valid(buf.Length, start, s) && Reading(buf[..], q, g.Text(buf[..], start, s), start, s, dec)
    requires s < buf.Length && !Plain(buf[s]) && buf[s] != quote && buf[s] != '\0' && Decodes(dec, quote)
    modifies buf, g
    ensures s < s' && g.Valid(buf.Length, start, s')
    ensures Reading(buf[..], q, g.Text(buf[..], start, s'), start, s', dec)
  {
    ghost var b, text, out := buf[..], g.Text(buf[..], start, s), "";
    s', out := ReplaceOne(buf, g, s, start, quote, dec);
    ReadOn(b, buf[..], q, text, g.Text(buf[..], start, s'), start, s, s', out, dec);
  }

  /** At the quote: closes the gap and terminates the value. */
  method Close(
      buf: array<char>, g: Gap, s: nat, ghost start: nat, ghost q: string, ghost quote: char,
      ghost dec: Decoder)
      returns (r: Option<nat>)
    requires g.Valid(buf.Length, start, s) && Reading(buf[..], q, g.Text(buf[..], start, s), start, s, dec)
    requires s < buf.Length && buf[s] == quote && Decodes(dec, quote)
    modifies buf
    ensures Outcome(q, buf[..], start, dec(q[start..]), r)
  {
    ghost var b, text := buf[..], g.Text(buf[..], start, s);
    var e := g.Flush(buf, start, s);
    ghost var f := buf[..];
    Terminate(b, f, q, text, start, s, e, quote, dec);
    buf[e] := '\0';
    assert buf[..] == f[e := '\0'];
    r := Some(s + 1);
  }

  lemma QuoteConsumes(t: string, quote: char, dec: Decoder)
    requires Decodes(dec, quote) && '\0' in t && t[0] != quote && (t[0] == '"' || t[0] == '\'')
    ensures Consumes(t, t[..1], 1, dec)
  {
    TokenConsumes(t, Token([t[0]], 1), quote, dec);
    assert t[..1] == [t[0]];
  }

  /** The other kind of quote stands for itself. */
  method PassQuote(
      buf: array<char>, g: Gap, s: nat, ghost start: nat, ghost quote: char, ghost dec: Decoder)
      returns (s': nat, ghost out: string)
    requires g.Valid(buf.Length, start, s) && '\0' in buf[..][s..] && buf[..][s..][0] != quote && Decodes(dec, quote)
    requires buf[..][s..][0] == '"' || buf[..][s..][0] == '\''
    ensures s < s' && g.Valid(buf.Length, start, s')
    ensures Piece(buf[..], buf[..], g.Text(buf[..], start, s), g.Text(buf[..], start, s'), start, s, s', out, dec)
  {
    s', out := s + 1, buf[..][s..][..1];
    QuoteConsumes(buf[..][s..], quote, dec);
    ScanPiece(buf[..], g.open, g.end, g.size, start, s, s', out, dec);
  }

  lemma EscapeDecodes(s: string, e: string, single: bool, rest: string, dec: Decoder)
    requires Decodes(dec, Quote(single)) && '\0' !in s && e == Escape(s, single)
    ensures dec(e + ([Quote(single)] + rest)) == Closed(s, |e| + 1)
  {
    EscapeRoundTrip(s, single, rest);
  }

  /** The printed form e of any NUL-free value, parsed in place, leaves the value in the buffer. */
  lemma PrintedValueParses(
      b: string, b': string, start: nat, s: string, e: string, single: bool, rest: string, dec: Decoder,
      r: Option<nat>)
    requires '\0' !in s && e == Escape(s, single) && Decodes(dec, Quote(single))
    requires start <= |b| && b[start..] == e + ([Quote(single)] + rest) && Outcome(b, b', start, dec(b[start..]), r)
    ensures r == Some(start + |e| + 1) && Holds(b', start, s)
  {
    EscapeDecodes(s, e, single, rest, dec);
    OutcomeClosed(b, b', start, s, |e| + 1, r);
  }

  lemma OutcomeClosed(b: string, b': string, start: nat, text: string, len: nat, r: Option<nat>)
    requires Outcome(b, b', start, Closed(text, len), r)
    ensures r == Some(start + len) && Holds(b', start, text)
  {
  }

  /** Prints a value as a quoted attribute, with any NUL-terminated text behind it, and parses it in place. */
  method PrintThenParse(s: string, single: bool, rest: string) returns (buf: array<char>, r: Option<nat>)
    requires '\0' !in s && '\0' in rest
    ensures fresh(buf) && Holds(buf[..], 0, s) && r == Some(|Escape(s, single)| + 1)
  {
    var e := TextOutputEscaped(s, single);
    var text := e + ([Quote(single)] + rest);
    buf := new char[|text|](i requires 0 <= i < |text| => text[i]);
    assert buf[..] == text && text[0..] == text;
    r := ParseWconv(buf, 0, Quote(single));
    ghost var dec: Decoder := t => Decode(t, Quote(single));
    PrintedValueParses(text, buf[..], 0, s, e, single, rest, dec, r);
  }
}
