/**
 Percent-encoding of URIs (ngx_escape_uri and ngx_unescape_uri, section 2.1 of RFC 3986).
 */
module Escape {
  import opened Strings
  import opened Words

  const PERCENT: Byte := 37
  const QUESTION: Byte := 63

  /** What a string is escaped for. */
  datatype Purpose = URI | ARGS | URI_COMPONENT | HTML | REFRESH | MEMCACHED | MAIL_AUTH

  /** The words of the table that says which of 32 bytes are escaped. */
  function Table(p: Purpose, i: nat): nat {
    if i == 0 then 0xffffffff
    else if i == 1 then
      match p
      case URI => 0x80000029
      case ARGS => 0x88000869
      case URI_COMPONENT => 0xfc009fff
      case HTML => 0x000000ad
      case REFRESH => 0x00000085
      case MEMCACHED => 0x00000021
      case MAIL_AUTH => 0x00000021
    else if i == 2 then (if p == URI_COMPONENT then 0x78000001 else 0)
    else if p == MEMCACHED || p == MAIL_AUTH then 0
    else if i == 3 then (if p == URI_COMPONENT then 0xb8000001 else 0x80000000)
    else 0xffffffff
  }

  function Power(k: nat): (r: nat)
    ensures r > 0
  {
    if k == 0 then 1 else 2 * Power(k - 1)
  }

  /** Is the byte escaped? */
  predicate Escaped(p: Purpose, c: Byte) { Table(p, c / 32) / Power(c % 32) % 2 == 1 }

  function Hex(n: nat): Byte
    requires n < 16
  {
    if n < 10 then 48 + n else 87 + n
  }

  function EscapeByte(p: Purpose, c: Byte): seq<Byte> {
    if Escaped(p, c) then [PERCENT, Hex(c / 16), Hex(c % 16)] else [c]
  }

  function EscapeAll(p: Purpose, s: seq<Byte>): seq<Byte> {
    if s == [] then [] else EscapeByte(p, s[0]) + EscapeAll(p, s[1..])
  }

  function Escapes(p: Purpose, s: seq<Byte>): nat {
    if s == [] then 0 else (if Escaped(p, s[0]) then 1 else 0) + Escapes(p, s[1..])
  }

  /** The counting pass tells the length of the result. */
  lemma {:induction false} EscapedLength(p: Purpose, s: seq<Byte>)
    ensures |EscapeAll(p, s)| == |s| + 2 * Escapes(p, s)
  {
    hide Escaped;
    if s != [] { EscapedLength(p, s[1..]); }
  }

  /** The first pass of ngx_escape_uri. */
  method Count(p: Purpose, src: seq<Byte>) returns (n: nat)
    ensures n == Escapes(p, src) && |EscapeAll(p, src)| == |src| + 2 * n
  {
    hide Escaped;
    n := 0;
    for i := 0 to |src|
      invariant n + Escapes(p, src[i..]) == Escapes(p, src)
    {
      assert src[i..][1..] == src[i + 1..];
      if Escaped(p, src[i]) {
        n := n + 1;
      }
    }
    EscapedLength(p, src);
  }

  /** Lines 1558-1567: one byte of the second pass. */
  method EscapeOne(p: Purpose, c: Byte) returns (out: seq<Byte>)
    ensures out == EscapeByte(p, c)
  {
    hide Escaped, Hex;
    if Escaped(p, c) {
      out := [PERCENT];
      out := out + [Hex(c / 16)];
      out := out + [Hex(c % 16)];
    } else {
      out := [c];
    }
  }

  /** The second pass. */
  method EscapeUri(p: Purpose, src: seq<Byte>) returns (dst: seq<Byte>)
    ensures dst == EscapeAll(p, src)
  {
    hide EscapeByte;
    dst := [];
    for i := 0 to |src|
      invariant dst + EscapeAll(p, src[i..]) == EscapeAll(p, src)
    {
      assert src[i..][0] == src[i] && src[i..][1..] == src[i + 1..];
      var out := EscapeOne(p, src[i]);
      dst := dst + out;
    }
  }

  // ----------------------------------------------------------------------- unescaping

  datatype State = Usual | Quoted | Second(decoded: nat)

  /** The flags NGX_UNESCAPE_URI and NGX_UNESCAPE_REDIRECT. */
  datatype Mode = Mode(uri: bool, redirect: bool)

  predicate IsLetter(ch: Byte) { 97 <= Lower(ch) <= 102 }

  function HexValue(ch: Byte): nat
    requires IsDigit(ch) || IsLetter(ch)
    ensures HexValue(ch) < 16
  {
    if IsDigit(ch) then ch - 48 else Lower(ch) - 87
  }

  /** What one byte does: bytes written, the next state, and whether the scan ends. */
  datatype Turn = Turn(out: seq<Byte>, state: State, done: bool)

  /** One turn of the loop of ngx_unescape_uri; `before` is the byte in front of `ch`. */
  function Scan(m: Mode, st: State, before: Byte, ch: Byte): Turn {
    match st
    case Usual =>
      if ch == QUESTION && (m.uri || m.redirect) then Turn([ch], Usual, true)
      else if ch == PERCENT then Turn([], Quoted, false)
      else Turn([ch], Usual, false)
    case Quoted =>
      if IsDigit(ch) || IsLetter(ch) then Turn([], Second(HexValue(ch)), false)
      else Turn([ch], Usual, false)
    case Second(d) =>
      if !IsDigit(ch) && !IsLetter(ch) then Turn([], Usual, false)
      else
        var c: Byte := (d * 16 + HexValue(ch)) % 256;
        if IsLetter(ch) && !IsDigit(ch) && m.uri then Turn([c], Usual, c == QUESTION)
        else if m.redirect then
          if IsLetter(ch) && !IsDigit(ch) && c == QUESTION then Turn([c], Usual, true)
          else if PERCENT < c < 127 then Turn([c], Usual, false)
          else Turn([PERCENT, before, ch], Usual, false)
        else Turn([c], Usual, false)
  }

  /** All bytes written from state `st` on. */
  function Unescaped(m: Mode, st: State, before: Byte, src: seq<Byte>): seq<Byte>
    decreases |src|
  {
    if src == [] then []
    else
      var t := Scan(m, st, before, src[0]);
      t.out + if t.done then [] else Unescaped(m, t.state, src[0], src[1..])
  }

  /** How many bytes are read from state `st` on. */
  function Consumed(m: Mode, st: State, before: Byte, src: seq<Byte>): (n: nat)
    ensures n <= |src|
    decreases |src|
  {
    if src == [] then 0
    else
      var t := Scan(m, st, before, src[0]);
      1 + if t.done then 0 else Consumed(m, t.state, src[0], src[1..])
  }

  /** ngx_unescape_uri; `s` is how far it read. */
  method UnescapeUri(m: Mode, src: seq<Byte>) returns (dst: seq<Byte>, s: nat)
    ensures dst == Unescaped(m, Usual, 0, src) && s == Consumed(m, Usual, 0, src)
  {
    hide Scan, Unescaped, Consumed;
    dst, s := [], 0;
    var state, before: Byte := Usual, 0;
    assert src[0..] == src;
    while s < |src|
      invariant s <= |src| && dst + Unescaped(m, state, before, src[s..]) == Unescaped(m, Usual, 0, src)
      invariant s + Consumed(m, state, before, src[s..]) == Consumed(m, Usual, 0, src)
    {
      var ch := src[s];
      assert src[s..] == [ch] + src[s + 1..];
      OneTurn(m, state, before, ch, src[s + 1..]);
      s := s + 1;
      var t := Scan(m, state, before, ch);
      dst := dst + t.out;
      if t.done {
        return;
      }
      state, before := t.state, ch;
    }
    assert src[s..] == [];
    AllRead(m, state, before);
  }

  lemma AllRead(m: Mode, st: State, b: Byte)
    ensures Unescaped(m, st, b, []) == [] && Consumed(m, st, b, []) == 0
  {
  }

  // ---------------------------------------------------------- what unescaping gives back

  const PLAIN: Mode := Mode(false, false)

  /** A question mark ends a URI and a redirect. */
  predicate Ends(m: Mode, c: Byte) { c == QUESTION && (m.uri || m.redirect) }

  /** What an escaped byte becomes: itself, but a redirect keeps what may not stand in a header as it is. */
  function Kept(m: Mode, p: Purpose, c: Byte): seq<Byte> {
    if m.redirect && Escaped(p, c) && !(PERCENT < c < 127) then EscapeByte(p, c) else [c]
  }

  function Decoded(m: Mode, p: Purpose, s: seq<Byte>): seq<Byte> {
    if s == [] then [] else Kept(m, p, s[0]) + if Ends(m, s[0]) then [] else Decoded(m, p, s[1..])
  }

  /** The part of `s` up to the byte that ends it. */
  function UpTo(m: Mode, s: seq<Byte>): seq<Byte> {
    if s == [] then [] else [s[0]] + if Ends(m, s[0]) then [] else UpTo(m, s[1..])
  }

  lemma HexBack(n: nat)
    requires n < 16
    ensures (IsDigit(Hex(n)) || IsLetter(Hex(n))) && HexValue(Hex(n)) == n
    ensures Hex(n) != PERCENT && Hex(n) != QUESTION && (n == 15 ==> IsLetter(Hex(n)) && !IsDigit(Hex(n)))
  {
  }

  /** In the usual state the byte in front does not matter. */
  lemma AnyBefore(m: Mode, b: Byte, c: Byte, src: seq<Byte>)
    ensures Unescaped(m, Usual, b, src) == Unescaped(m, Usual, c, src)
    ensures Consumed(m, Usual, b, src) == Consumed(m, Usual, c, src)
  {
  }

  lemma OneTurn(m: Mode, st: State, b: Byte, c: Byte, rest: seq<Byte>)
    ensures var t := Scan(m, st, b, c);
      && Unescaped(m, st, b, [c] + rest) == t.out + (if t.done then [] else Unescaped(m, t.state, c, rest))
      && Consumed(m, st, b, [c] + rest) == 1 + (if t.done then 0 else Consumed(m, t.state, c, rest))
  {
    assert ([c] + rest)[1..] == rest;
  }

  /** How one escaped byte reads back, unless it is a percent sign that was left alone. */
  lemma ByteBack(m: Mode, p: Purpose, c: Byte, b: Byte, rest: seq<Byte>)
    requires (Escaped(p, c) || c != PERCENT) && !(m.uri && m.redirect)
    ensures Unescaped(m, Usual, b, EscapeByte(p, c) + rest) == Kept(m, p, c) + if Ends(m, c) then [] else Unescaped(m, Usual, 0, rest)
    ensures Consumed(m, Usual, b, EscapeByte(p, c) + rest) == |EscapeByte(p, c)| + if Ends(m, c) then 0 else Consumed(m, Usual, 0, rest)
  {
    hide Escaped, Unescaped, Consumed;
    if Escaped(p, c) {
      hide Hex;
      ThreeTurns(m, p, c, b, rest);
    } else {
      OneTurn(m, Usual, b, c, rest);
      AnyBefore(m, c, 0, rest);
    }
  }

  lemma ThreeTurns(m: Mode, p: Purpose, c: Byte, b: Byte, rest: seq<Byte>)
    requires Escaped(p, c) && !(m.uri && m.redirect)
    ensures Unescaped(m, Usual, b, EscapeByte(p, c) + rest) == Kept(m, p, c) + if Ends(m, c) then [] else Unescaped(m, Usual, 0, rest)
    ensures Consumed(m, Usual, b, EscapeByte(p, c) + rest) == 3 + if Ends(m, c) then 0 else Consumed(m, Usual, 0, rest)
  {
    hide Escaped, Unescaped, Consumed, Hex, HexValue, IsDigit, IsLetter;
    var hi, lo := c / 16, c % 16;
    HexBack(hi);
    HexBack(lo);
    assert EscapeByte(p, c) + rest == [PERCENT] + ([Hex(hi)] + ([Hex(lo)] + rest));
    OneTurn(m, Usual, b, PERCENT, [Hex(hi)] + ([Hex(lo)] + rest));
    OneTurn(m, Quoted, PERCENT, Hex(hi), [Hex(lo)] + rest);
    OneTurn(m, Second(hi), Hex(hi), Hex(lo), rest);
    assert (hi * 16 + lo) % 256 == c;
    AnyBefore(m, Hex(lo), 0, rest);
  }

  /**
   Unescaping escaped text, in each mode: without flags all of it comes back, for a URI all of it
   up to the first question mark, and for a redirect likewise with the bytes outside '&' to '~'
   still escaped; just the escaped form of that part is read.
   */
  lemma {:induction false} Decodes(m: Mode, p: Purpose, s: seq<Byte>)
    requires (Escaped(p, PERCENT) || PERCENT !in s) && !(m.uri && m.redirect)
    ensures Unescaped(m, Usual, 0, EscapeAll(p, s)) == Decoded(m, p, s)
    ensures Consumed(m, Usual, 0, EscapeAll(p, s)) == |EscapeAll(p, UpTo(m, s))|
    ensures !m.redirect ==> Decoded(m, p, s) == UpTo(m, s)
    ensures m == PLAIN ==> UpTo(m, s) == s
  {
    hide Escaped, Scan;
    if s != [] {
      Decodes(m, p, s[1..]);
      ByteBack(m, p, s[0], 0, EscapeAll(p, s[1..]));
      var u := UpTo(m, s);
      assert u[0] == s[0] && u[1..] == if Ends(m, s[0]) then [] else UpTo(m, s[1..]);
    }
  }

  // ------------------------------------------------------------------ the round trip

  lemma PercentInTables(p: Purpose)
    ensures Escaped(p, PERCENT) <==> p != REFRESH
  {
    assert Power(5) == 32;
  }

  lemma PowerGrows(k: nat)
    ensures k >= 16 ==> Power(k) >= 65536
  {
    if k > 16 { PowerGrows(k - 1); } else { assert Power(4) == 16 && Power(8) == 256 && Power(12) == 4096 && Power(16) == 65536; }
  }

  /** No table escapes the digits of an escape. */
  lemma HexUnescaped(n: nat)
    requires n < 16
    ensures !Escaped(REFRESH, Hex(n))
  {
    if n < 10 {
      PowerGrows(Hex(n) % 32);
      DigitWord(Power(Hex(n) % 32));
    } else {
      LetterWord(n - 9);
    }
  }

  lemma DigitWord(d: nat)
    requires d >= 65536
    ensures 0x85 / d == 0
  {
  }

  lemma LetterWord(k: nat)
    requires 1 <= k <= 6
    ensures 0x80000000 / Power(k) % 2 == 0
  {
    assert Power(1) == 2 && Power(2) == 4 && Power(3) == 8 && Power(4) == 16 && Power(5) == 32 && Power(6) == 64;
    assert k == 1 || k == 2 || k == 3 || k == 4 || k == 5 || k == 6;
  }

  /**
   A percent sign that was not escaped: it takes `k` bytes of the original with it and yields fewer,
   or, in front of one escaped byte, the three bytes of that byte's escape.
   */
  lemma PercentTurn(s: seq<Byte>) returns (out: seq<Byte>, k: nat)
    requires s != [] && s[0] == PERCENT
    ensures 1 <= k <= |s| && Unescaped(PLAIN, Usual, 0, EscapeAll(REFRESH, s)) == out + Unescaped(PLAIN, Usual, 0, EscapeAll(REFRESH, s[k..]))
    ensures |out| < k || (k == 2 && |out| == 3 && !Escaped(REFRESH, out[1]) && !Escaped(REFRESH, out[2]) && Escaped(REFRESH, s[1]))
  {
    hide Escaped, Unescaped, IsDigit, IsLetter, HexValue, Hex;
    PercentInTables(REFRESH);
    var p := REFRESH;
    var r1 := s[1..];
    assert EscapeAll(p, s) == [PERCENT] + EscapeAll(p, r1);
    OneTurn(PLAIN, Usual, 0, PERCENT, EscapeAll(p, r1));
    if r1 == [] {
      Nothing(Quoted, PERCENT);
      Nothing(Usual, 0);
      return [], 1;
    }
    var d, r2 := r1[0], r1[1..];
    assert r2 == s[2..];
    if Escaped(p, d) {
      out := QuotedEscape(Quoted, PERCENT, d, EscapeAll(p, r2));
      return out, 2;
    }
    assert EscapeAll(p, r1) == [d] + EscapeAll(p, r2);
    OneTurn(PLAIN, Quoted, PERCENT, d, EscapeAll(p, r2));
    if !IsDigit(d) && !IsLetter(d) {
      AnyBefore(PLAIN, d, 0, EscapeAll(p, r2));
      return [d], 2;
    }
    var st := Second(HexValue(d));
    if r2 == [] {
      Nothing(st, d);
      Nothing(Usual, 0);
      return [], 2;
    }
    var e, r3 := r2[0], r2[1..];
    assert r3 == s[3..];
    if Escaped(p, e) {
      out := QuotedEscape(st, d, e, EscapeAll(p, r3));
      return out, 3;
    }
    assert EscapeAll(p, r2) == [e] + EscapeAll(p, r3);
    OneTurn(PLAIN, st, d, e, EscapeAll(p, r3));
    AnyBefore(PLAIN, e, 0, EscapeAll(p, r3));
    out := Scan(PLAIN, st, d, e).out;
    k := 3;
  }

  lemma Nothing(st: State, b: Byte)
    ensures Unescaped(PLAIN, st, b, []) == [] && EscapeAll(REFRESH, []) == []
  {
  }

  /** An escape where a hexadecimal digit is expected: its percent sign is taken for an invalid one. */
  lemma QuotedEscape(st: State, b: Byte, c: Byte, rest: seq<Byte>) returns (out: seq<Byte>)
    requires !st.Usual? && Escaped(REFRESH, c)
    ensures Unescaped(PLAIN, st, b, EscapeByte(REFRESH, c) + rest) == out + Unescaped(PLAIN, Usual, 0, rest)
    ensures |out| == if st.Quoted? then 3 else 2
    ensures st.Quoted? ==> !Escaped(REFRESH, out[1]) && !Escaped(REFRESH, out[2])
  {
    hide Escaped, Unescaped, Hex, Scan, HexValue, IsDigit, IsLetter;
    var hi, lo := c / 16, c % 16;
    HexBack(hi);
    HexBack(lo);
    HexUnescaped(hi);
    HexUnescaped(lo);
    var after := [Hex(lo)] + rest;
    assert EscapeByte(REFRESH, c) + rest == [PERCENT] + ([Hex(hi)] + after);
    StrayPercent(st, b, [Hex(hi)] + after);
    Literal(PERCENT, Hex(hi), after);
    Literal(Hex(hi), Hex(lo), rest);
    AnyBefore(PLAIN, Hex(lo), 0, rest);
    out := (if st.Quoted? then [PERCENT] else []) + [Hex(hi), Hex(lo)];
  }

  lemma StrayPercent(st: State, b: Byte, rest: seq<Byte>)
    requires !st.Usual?
    ensures Unescaped(PLAIN, st, b, [PERCENT] + rest) == (if st.Quoted? then [PERCENT] else []) + Unescaped(PLAIN, Usual, PERCENT, rest)
  {
    NotHex();
    hide Unescaped, IsDigit, IsLetter;
    OneTurn(PLAIN, st, b, PERCENT, rest);
  }

  lemma Literal(b: Byte, c: Byte, rest: seq<Byte>)
    requires c != PERCENT
    ensures Unescaped(PLAIN, Usual, b, [c] + rest) == [c] + Unescaped(PLAIN, Usual, c, rest)
  {
    hide Unescaped;
    OneTurn(PLAIN, Usual, b, c, rest);
  }

  lemma NotHex()
    ensures !IsDigit(PERCENT) && !IsLetter(PERCENT)
  {
  }

  /** Text ahead by `w` stays ahead. */
  lemma Ahead(out: seq<Byte>, u: seq<Byte>, v: seq<Byte>, q: seq<Byte>)
    requires |out| <= |v| && u != v[|out|..] + q
    ensures out + u != v + q
  {
    assert (out + u)[|out|..] == u && (v + q)[|out|..] == v[|out|..] + q;
  }

  /**
   After the first percent sign that was not escaped, the text read back never catches up with
   the original: `w` is what is still missing of it.
   */
  lemma {:induction false} NeverCatchesUp(w: seq<Byte>, s: seq<Byte>)
    requires w != [] || (s != [] && s[0] == PERCENT)
    ensures Unescaped(PLAIN, Usual, 0, EscapeAll(REFRESH, s)) != w + s
    decreases |s|
  {
    hide Escaped, Unescaped, EscapeAll, Scan;
    PercentInTables(REFRESH);
    if s == [] {
      Nothing(Usual, 0);
    } else if s[0] == PERCENT {
      var out, k := PercentTurn(s);
      var u, v := Unescaped(PLAIN, Usual, 0, EscapeAll(REFRESH, s[k..])), w + s[..k];
      assert w + s == v + s[k..];
      if |out| < |v| {
        NeverCatchesUp(v[|out|..], s[k..]);
        Ahead(out, u, v, s[k..]);
      } else {
        assert v[|v| - 1] == s[1] && out[|v| - 1] != s[1];
        assert (out + u)[|v| - 1] != (v + s[k..])[|v| - 1];
      }
    } else {
      var c, rest := s[0], s[1..];
      PlainStep(c, rest);
      assert s == [c] + rest && w + s == (w + [c]) + rest;
      NeverCatchesUp((w + [c])[1..], rest);
      Ahead([c], Unescaped(PLAIN, Usual, 0, EscapeAll(REFRESH, rest)), w + [c], rest);
    }
  }

  lemma PlainStep(c: Byte, rest: seq<Byte>)
    requires c != PERCENT
    ensures Unescaped(PLAIN, Usual, 0, EscapeAll(REFRESH, [c] + rest)) == [c] + Unescaped(PLAIN, Usual, 0, EscapeAll(REFRESH, rest))
  {
    hide Escaped, Unescaped;
    assert ([c] + rest)[1..] == rest;
    ByteBack(PLAIN, REFRESH, c, 0, EscapeAll(REFRESH, rest));
  }

  lemma {:induction false} Differs(s: seq<Byte>)
    requires PERCENT in s
    ensures Unescaped(PLAIN, Usual, 0, EscapeAll(REFRESH, s)) != s
  {
    hide Escaped, Unescaped, EscapeAll;
    if s[0] == PERCENT {
      NeverCatchesUp([], s);
      assert [] + s == s;
    } else {
      PlainStep(s[0], s[1..]);
      assert s == [s[0]] + s[1..];
      Differs(s[1..]);
    }
  }

  /**
   Unescaping undoes escaping exactly when the purpose escapes percent signs, as all but REFRESH
   do, or the string has none.
   */
  lemma RoundTripExactly(p: Purpose, s: seq<Byte>)
    ensures Unescaped(PLAIN, Usual, 0, EscapeAll(p, s)) == s <==> p != REFRESH || PERCENT !in s
  {
    PercentInTables(p);
    hide Escaped, Unescaped, EscapeAll;
    if p != REFRESH || PERCENT !in s { Decodes(PLAIN, p, s); } else { Differs(s); }
  }
}
