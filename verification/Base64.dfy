/**
 Base64 and base64url (ngx_string.c, sections 4 and 5 of RFC 4648).  Bytes and sextets are
 numbers; shifts and masks are written as products, quotients and remainders.
 */
module Base64 {
  import opened Strings
  import opened Words
  import opened Wrappers

  const EQUALS: Byte := 61

  /** The alphabet, with the last two characters of one of its two forms. */
  function Symbol(url: bool, k: nat): Byte
    requires k < 64
  {
    if k < 26 then 65 + k else if k < 52 then 71 + k else if k < 62 then k - 4
    else if k == 62 then (if url then 45 else 43) else (if url then 95 else 47)
  }

  /** The decoding tables; 77 marks a byte that is not in the alphabet. */
  function Value(url: bool, c: Byte): nat {
    if 65 <= c <= 90 then c - 65 else if 97 <= c <= 122 then c - 71 else if 48 <= c <= 57 then c + 4
    else if c == (if url then 45 else 43) then 62 else if c == (if url then 95 else 47) then 63 else 77
  }

  lemma Inverse(url: bool, k: nat)
    requires k < 64
    ensures Value(url, Symbol(url, k)) == k && Symbol(url, k) != EQUALS
  {
  }

  // ------------------------------------------------------------------------- meaning

  /** The four sextets of three bytes. */
  function S0(x: Byte): (k: nat) ensures k < 64 { x / 4 }
  function S1(x: Byte, y: Byte): (k: nat) ensures k < 64 { x % 4 * 16 + y / 16 }
  function S2(y: Byte, z: Byte): (k: nat) ensures k < 64 { y % 16 * 4 + z / 64 }
  function S3(z: Byte): (k: nat) ensures k < 64 { z % 64 }

  function Four(url: bool, x: Byte, y: Byte, z: Byte): seq<Byte> {
    [Symbol(url, S0(x)), Symbol(url, S1(x, y)), Symbol(url, S2(y, z)), Symbol(url, S3(z))]
  }

  /** The symbols of `s` without padding. */
  function Text(url: bool, s: seq<Byte>): seq<Byte>
    decreases |s|
  {
    if |s| == 0 then []
    else if |s| == 1 then [Symbol(url, S0(s[0])), Symbol(url, S1(s[0], 0))]
    else if |s| == 2 then [Symbol(url, S0(s[0])), Symbol(url, S1(s[0], s[1])), Symbol(url, S2(s[1], 0))]
    else Four(url, s[0], s[1], s[2]) + Text(url, s[3..])
  }

  function Padding(n: nat): seq<Byte> {
    if n >= 3 then Padding(n - 3) else if n == 1 then [EQUALS, EQUALS] else if n == 2 then [EQUALS] else []
  }

  lemma {:induction false} PaddingShape(n: nat)
    ensures Padding(n) == [] || Padding(n)[0] == EQUALS
  {
    if n >= 3 { PaddingShape(n - 3); }
  }

  predicate InAlphabet(url: bool, t: seq<Byte>) { forall i | 0 <= i < |t| :: t[i] != EQUALS && Value(url, t[i]) < 64 }

  /** The first, second and third byte that four sextets hold. */
  function First(a: nat, b: nat): Byte { (a * 4 + b / 16) % 256 }
  function Second(b: nat, c: nat): Byte { (b * 16 + c / 4) % 256 }
  function Third(c: nat, d: nat): Byte { (c * 64 + d) % 256 }

  /** The bytes that symbols stand for. */
  function Bytes(url: bool, t: seq<Byte>): seq<Byte>
    decreases |t|
  {
    if |t| <= 1 then []
    else
      var a, b := Value(url, t[0]), Value(url, t[1]);
      if |t| == 2 then [First(a, b)]
      else
        var c := Value(url, t[2]);
        if |t| == 3 then [First(a, b), Second(b, c)]
        else [First(a, b), Second(b, c), Third(c, Value(url, t[3]))] + Bytes(url, t[4..])
  }

  /** The symbols before the first padding character. */
  function Cut(t: seq<Byte>): seq<Byte> {
    if t == [] || t[0] == EQUALS then [] else [t[0]] + Cut(t[1..])
  }

  lemma {:induction false} TextIsSound(url: bool, s: seq<Byte>)
    ensures InAlphabet(url, Text(url, s)) && Bytes(url, Text(url, s)) == s
    decreases |s|
  {
    hide Value, Symbol, First, Second, Third, S0, S1, S2, S3;
    var t := Text(url, s);
    if |s| >= 1 { Inverse(url, S0(s[0])); }
    if |s| == 1 {
      Inverse(url, S1(s[0], 0));
      FirstBack(s[0], 0);
    } else if |s| == 2 {
      Inverse(url, S1(s[0], s[1]));
      Inverse(url, S2(s[1], 0));
      FirstBack(s[0], s[1]);
      SecondBack(s[0], s[1], 0);
    } else if |s| >= 3 {
      var x, y, z, rest := s[0], s[1], s[2], s[3..];
      Inverse(url, S1(x, y));
      Inverse(url, S2(y, z));
      Inverse(url, S3(z));
      FirstBack(x, y);
      SecondBack(x, y, z);
      ThirdBack(y, z);
      TextIsSound(url, rest);
      Prepend(url, x, y, z, Text(url, rest), rest);
      assert s == [x, y, z] + rest;
    }
  }

  lemma {:induction false} TextLength(url: bool, s: seq<Byte>)
    ensures |Text(url, s)| % 4 != 1 && |Text(url, s)| + |Padding(|s|)| == (|s| + 2) / 3 * 4
    decreases |s|
  {
    hide Symbol, S0, S1, S2, S3;
    if |s| >= 3 {
      var rest := s[3..];
      TextLength(url, rest);
      assert (|s| + 2) / 3 == (|rest| + 2) / 3 + 1;
      assert |Text(url, s)| == 4 + |Text(url, rest)|;
    }
  }

  lemma Prepend(url: bool, x: Byte, y: Byte, z: Byte, t: seq<Byte>, rest: seq<Byte>)
    requires InAlphabet(url, Four(url, x, y, z)) && InAlphabet(url, t) && Bytes(url, t) == rest
    requires Value(url, Symbol(url, S0(x))) == S0(x) && Value(url, Symbol(url, S1(x, y))) == S1(x, y)
    requires Value(url, Symbol(url, S2(y, z))) == S2(y, z) && Value(url, Symbol(url, S3(z))) == S3(z)
    requires First(S0(x), S1(x, y)) == x && Second(S1(x, y), S2(y, z)) == y && Third(S2(y, z), S3(z)) == z
    ensures var u := Four(url, x, y, z) + t;
      InAlphabet(url, u) && Bytes(url, u) == [x, y, z] + rest
  {
    hide Value, Symbol, First, Second, Third, S0, S1, S2, S3;
    var u := Four(url, x, y, z) + t;
    assert u[4..] == t;
  }

  lemma FirstBack(x: Byte, y: Byte)
    ensures First(S0(x), S1(x, y)) == x
  {
    assert (x % 4 * 16 + y / 16) / 16 == x % 4;
  }

  lemma SecondBack(x: Byte, y: Byte, z: Byte)
    ensures Second(S1(x, y), S2(y, z)) == y
  {
    assert (y % 16 * 4 + z / 64) / 4 == y % 16;
    assert S1(x, y) * 16 + y % 16 == x % 4 * 256 + y;
  }

  lemma ThirdBack(y: Byte, z: Byte)
    ensures Third(S2(y, z), S3(z)) == z
  {
    assert S2(y, z) * 64 + z % 64 == y % 16 * 256 + z;
  }

  lemma {:induction false} CutAtPadding(url: bool, t: seq<Byte>, p: seq<Byte>)
    requires InAlphabet(url, t) && (p == [] || p[0] == EQUALS)
    ensures Cut(t + p) == t
  {
    if t == [] {
      assert t + p == p;
    } else {
      assert t[0] != EQUALS;
      assert (t + p)[1..] == t[1..] + p;
      CutAtPadding(url, t[1..], p);
    }
  }

  // ------------------------------------------------------------------------ the loops

  lemma TextStep(url: bool, src: seq<Byte>, s: nat)
    requires s + 2 < |src|
    ensures Text(url, src[s..]) == Four(url, src[s], src[s + 1], src[s + 2]) + Text(url, src[s + 3..])
  {
    assert src[s..][3..] == src[s + 3..];
  }

  /** ngx_encode_base64_internal */
  method Encode(src: seq<Byte>, url: bool, padding: bool) returns (dst: seq<Byte>)
    ensures dst == Text(url, src) + if padding then Padding(|src|) else []
  {
    hide Symbol, S0, S1, S2, S3, Text;
    dst := [];
    var s := 0;
    while |src| - s > 2
      invariant 0 <= s <= |src| && Padding(|src| - s) == Padding(|src|)
      invariant dst + Text(url, src[s..]) == Text(url, src)
    {
      var a, b, c := src[s], src[s + 1], src[s + 2];
      TextStep(url, src, s);
      var four := [Symbol(url, S0(a)), Symbol(url, S1(a, b)), Symbol(url, S2(b, c)), Symbol(url, S3(c))];
      Regroup(dst, four, Text(url, src[s + 3..]));
      dst := dst + four;
      s := s + 3;
    }
    var last := EncodeLast(src[s..], url, padding);
    dst := dst + last;
  }

  /** Lines 1143-1160: the last one or two bytes. */
  method EncodeLast(src: seq<Byte>, url: bool, padding: bool) returns (dst: seq<Byte>)
    requires |src| <= 2
    ensures dst == Text(url, src) + if padding then Padding(|src|) else []
  {
    hide Symbol, S0, S1, S2, S3;
    dst := [];
    if |src| > 0 {
      dst := dst + [Symbol(url, S0(src[0]))];
      if |src| == 1 {
        dst := dst + [Symbol(url, S1(src[0], 0))];
        if padding {
          dst := dst + [EQUALS];
        }
      } else {
        dst := dst + [Symbol(url, S1(src[0], src[1])), Symbol(url, S2(src[1], 0))];
      }
      if padding {
        dst := dst + [EQUALS];
      }
    }
  }

  /** The scan of ngx_decode_base64_internal: the number of symbols, or none for a byte outside the alphabet. */
  method Scan(src: seq<Byte>, url: bool) returns (len: Option<nat>)
    ensures len.None? <==> !InAlphabet(url, Cut(src))
    ensures len.Some? ==> len.value <= |src| && src[..len.value] == Cut(src)
  {
    var n := 0;
    while n < |src|
      invariant 0 <= n <= |src| && InAlphabet(url, src[..n]) && Cut(src) == src[..n] + Cut(src[n..])
    {
      if src[n] == EQUALS {
        break;
      }
      assert src[n..][1..] == src[n + 1..] && src[..n + 1] == src[..n] + [src[n]];
      assert Cut(src)[n] == src[n];
      if Value(url, src[n]) == 77 {
        return None;
      }
      n := n + 1;
    }
    return Some(n);
  }

  /** ngx_decode_base64_internal */
  method Decode(src: seq<Byte>, url: bool) returns (dst: Option<seq<Byte>>)
    ensures dst.None? <==> !InAlphabet(url, Cut(src)) || |Cut(src)| % 4 == 1
    ensures dst.Some? ==> dst.value == Bytes(url, Cut(src))
  {
    hide Value, First, Second, Third;
    var scanned := Scan(src, url);
    if scanned == None {
      return None;
    }
    var len := scanned.value;
    if len % 4 == 1 {
      return None;
    }
    ghost var t := Cut(src);
    var s, d := 0, [];
    while len - s > 3
      invariant 0 <= s <= len && d + Bytes(url, t[s..]) == Bytes(url, t)
    {
      var a, b, c, e := Value(url, src[s]), Value(url, src[s + 1]), Value(url, src[s + 2]), Value(url, src[s + 3]);
      ghost var rest := t[s..];
      assert rest[0] == src[s] && rest[1] == src[s + 1] && rest[2] == src[s + 2] && rest[3] == src[s + 3] && rest[4..] == t[s + 4..];
      d := d + [First(a, b), Second(b, c), Third(c, e)];
      s := s + 4;
    }
    ghost var rest := t[s..];
    if len - s > 1 {
      assert rest[0] == src[s] && rest[1] == src[s + 1];
      d := d + [First(Value(url, src[s]), Value(url, src[s + 1]))];
    }
    if len - s > 2 {
      assert rest[2] == src[s + 2];
      d := d + [Second(Value(url, src[s + 1]), Value(url, src[s + 2]))];
    }
    return Some(d);
  }

  /** Decoding undoes encoding for every byte string, in both alphabets, padded or not. */
  method RoundTrip(src: seq<Byte>, url: bool, padding: bool) returns (text: seq<Byte>, back: Option<seq<Byte>>)
    ensures back == Some(src)
    ensures padding ==> |text| == (|src| + 2) / 3 * 4
  {
    hide Text, Bytes, InAlphabet, Cut;
    text := Encode(src, url, padding);
    PaddingShape(|src|);
    TextIsSound(url, src);
    TextLength(url, src);
    CutAtPadding(url, Text(url, src), if padding then Padding(|src|) else []);
    back := Decode(text, url);
  }
}
