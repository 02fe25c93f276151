/**
 IPv6 addresses as text (ngx_inet.c, section 2.2 of RFC 4291).
 */
module Inet6 {
  import opened Strings
  import opened Words
  import opened Wrappers

  const COLON: Byte := 58
  const DOT: Byte := 46

  // ------------------------------------------------------------------- IPv4 addresses

  /** ngx_inet_addr from a state of its loop on; nothing stands for INADDR_NONE. */
  function Quad(addr: nat, octet: nat, n: nat, text: seq<Byte>): Option<nat>
    decreases |text|
  {
    if text == [] then
      if n == 3 && octet < 256 then
        var a := (addr * 256 + octet) % 0x1_0000_0000;
        if a == 0xffffffff then None else Some(a)
      else None
    else if IsDigit(text[0]) then Quad(addr, (octet * 10 + (text[0] - 48)) % WORD, n, text[1..])
    else if text[0] == DOT && octet < 256 then Quad((addr * 256 + octet) % 0x1_0000_0000, 0, n + 1, text[1..])
    else None
  }

  method InetAddr(text: seq<Byte>) returns (r: Option<nat>)
    ensures r == Quad(0, 0, 0, text)
  {
    var addr, octet, n := 0, 0, 0;
    for p := 0 to |text|
      invariant addr >= 0 && octet >= 0 && n >= 0 && Quad(addr, octet, n, text[p..]) == Quad(0, 0, 0, text)
    {
      var c := text[p];
      assert text[p..][0] == c && text[p..][1..] == text[p + 1..];
      if IsDigit(c) {
        octet := (octet * 10 + (c - 48)) % WORD;
        continue;
      }
      if c == DOT && octet < 256 {
        addr := (addr * 256 + octet) % 0x1_0000_0000;
        octet := 0;
        n := n + 1;
        continue;
      }
      return None;
    }
    if n == 3 && octet < 256 {
      addr := (addr * 256 + octet) % 0x1_0000_0000;
      return if addr == 0xffffffff then None else Some(addr);
    }
    return None;
  }

  // --------------------------------------------------------------------- the parser

  /** Where the parser is: bytes written, position of "::", text after the last colon, and the number in hand. */
  datatype State = State(out: seq<Byte>, zero: Option<nat>, digit: Option<seq<Byte>>, nibbles: nat, word: nat)

  datatype Next = Go(st: State) | Stop(st: State) | Fail

  function HexDigit(c: Byte): Option<nat> {
    if IsDigit(c) then Some(c - 48) else if 97 <= Lower(c) <= 102 then Some(Lower(c) - 87) else None
  }

  function Pair(w: nat): seq<Byte> { [w / 256 % 256, w % 256] }

  /** One turn of the loop of ngx_inet6_addr on character `c`, with `rest` behind it. */
  function Turn(st: State, c: Byte, rest: seq<Byte>): Next {
    if c == COLON then
      if st.nibbles > 0 then
        if |st.out| + 2 < 16 then Go(State(st.out + Pair(st.word), st.zero, Some(rest), 0, 0)) else Fail
      else if st.zero.None? then Go(st.(zero := Some(|st.out|), digit := Some(rest)))
      else Fail
    else if c == DOT && st.nibbles > 0 then
      if |st.out| > 12 || st.digit.None? then Fail
      else match Quad(0, 0, 0, st.digit.value)
        case None => Fail
        case Some(a) => Stop(st.(out := st.out + Pair(a / 65536), word := a))
    else if st.nibbles + 1 > 4 then Fail
    else match HexDigit(c)
      case None => Fail
      case Some(d) => Go(st.(nibbles := st.nibbles + 1, word := st.word * 16 + d))
  }

  function Zeros(n: nat): seq<Byte> { seq(n, i => 0) }

  /** The end of ngx_inet6_addr: the last number, and zeros in place of "::". */
  function Finish(st: State): Option<seq<Byte>> {
    if st.nibbles == 0 && st.zero.None? then None
    else
      var out := st.out + Pair(st.word);
      if |out| < 16 then
        if st.zero.Some? && st.zero.value <= |out| then Some(out[..st.zero.value] + Zeros(16 - |out|) + out[st.zero.value..]) else None
      else if st.zero.None? then Some(out) else None
  }

  function Parse(st: State, text: seq<Byte>): Option<seq<Byte>>
    decreases |text|
  {
    if text == [] then Finish(st)
    else match Turn(st, text[0], text[1..])
      case Fail => None
      case Go(s) => Parse(s, text[1..])
      case Stop(s) => Finish(s)
  }

  const START: State := State([], None, None, 0, 0)

  function Address(text: seq<Byte>): Option<seq<Byte>> {
    if text == [] then None
    else if text[0] == COLON then Parse(START, text[1..])
    else Parse(START, text)
  }

  /** The moves of lines 153-161, in place: `n` bytes of zeros at `zero` push the bytes there to the end. */
  method Shift(addr: array<Byte>, used: nat, zero: nat)
    requires addr.Length == 16 && zero <= used <= 16
    modifies addr
    ensures addr[..] == old(addr[..zero]) + Zeros(16 - used) + old(addr[zero..used])
  {
    var n := 16 - used;
    MoveUp(addr, used, zero, n);
    forall k | zero <= k < zero + n {
      addr[k] := 0;
    }
    forall k | 0 <= k < 16 ensures addr[k] == (old(addr[..zero]) + Zeros(n) + old(addr[zero..used]))[k] {
      assert k >= zero + n ==> addr[k] == old(addr[k - n]);
    }
  }

  /** The bytes from `zero` on move up by `n`, the last one first. */
  method MoveUp(addr: array<Byte>, used: nat, zero: nat, n: nat)
    requires addr.Length == 16 && zero <= used && used + n == 16
    modifies addr
    ensures forall k | 0 <= k < zero :: addr[k] == old(addr[k])
    ensures forall k | zero + n <= k < 16 :: addr[k] == old(addr[k - n])
  {
    var s, d := used - 1, used - 1 + n;
    while s >= zero
      invariant zero - 1 <= s < used && d == s + n
      invariant forall k | 0 <= k <= s :: addr[k] == old(addr[k])
      invariant forall k | d < k < 16 :: addr[k] == old(addr[k - n])
    {
      addr[d] := addr[s];
      s := s - 1;
      d := d - 1;
    }
  }

  /** ngx_inet6_addr */
  method Inet6Addr(text: seq<Byte>) returns (addr: array<Byte>, ok: bool)
    ensures addr.Length == 16 && ok == Address(text).Some?
    ensures ok ==> addr[..] == Address(text).value
  {
    hide Quad, Finish, HexDigit, Pair, Turn, Parse;
    addr := new Byte[16](i => 0);
    if |text| == 0 {
      return addr, false;
    }
    var p := if text[0] == COLON then 1 else 0;
    assert text[0..] == text;
    ghost var st := START;
    var a, zero, digit, nibbles, word := 0, -1, -1, 0, 0;
    while p < |text|
      invariant 0 <= p <= |text| && Parse(st, text[p..]) == Address(text)
      invariant Shows(st, addr[..], a, zero, digit, nibbles, word, text)
    {
      ParseStep(st, text, p);
      var c := text[p];
      ghost var next := Turn(st, c, text[p + 1..]);
      p := p + 1;
      if c == COLON {
        var go;
        a, zero, digit, nibbles, word, go := AtColon(text, p, addr, a, zero, digit, nibbles, word, st);
        if !go {
          return addr, false;
        }
      } else if c == DOT && nibbles > 0 {
        var stop;
        a, word, stop := AtDot(text, p, addr, a, zero, digit, nibbles, word, st);
        if !stop {
          return addr, false;
        }
        ok := End(addr, a, zero, nibbles, word, next.st);
        return;
      } else {
        AtDigit(st, c, text[p..]);
        nibbles := nibbles + 1;
        if nibbles > 4 {
          return addr, false;
        }
        var d := HexDigit(c);
        if d == None {
          return addr, false;
        }
        word := word * 16 + d.value;
      }
      st := next.st;
    }
    assert text[p..] == [];
    ParseEnd(st);
    ok := End(addr, a, zero, nibbles, word, st);
  }

  lemma ParseStep(st: State, text: seq<Byte>, p: nat)
    requires p < |text|
    ensures Parse(st, text[p..]) == match Turn(st, text[p], text[p + 1..])
      case Fail => None
      case Go(s) => Parse(s, text[p + 1..])
      case Stop(s) => Finish(s)
  {
    assert text[p..][0] == text[p] && text[p..][1..] == text[p + 1..];
  }

  lemma ParseEnd(st: State)
    ensures Parse(st, []) == Finish(st)
  {
  }

  lemma AtDigit(st: State, c: Byte, rest: seq<Byte>)
    requires c != COLON && !(c == DOT && st.nibbles > 0)
    ensures Turn(st, c, rest) ==
      if st.nibbles + 1 > 4 || HexDigit(c).None? then Fail
      else Go(st.(nibbles := st.nibbles + 1, word := st.word * 16 + HexDigit(c).value))
  {
  }

  /** Lines 84-107: a colon. */
  method AtColon(text: seq<Byte>, p: nat, addr: array<Byte>, a: int, zero: int, digit: int, nibbles: int, word: int, ghost st: State)
    returns (a': int, zero': int, digit': int, nibbles': int, word': int, go: bool)
    requires p <= |text| && addr.Length == 16 && Shows(st, addr[..], a, zero, digit, nibbles, word, text)
    modifies addr
    ensures go == Turn(st, COLON, text[p..]).Go? && !Turn(st, COLON, text[p..]).Stop?
    ensures go ==> Shows(Turn(st, COLON, text[p..]).st, addr[..], a', zero', digit', nibbles', word', text)
  {
    a', zero', digit', nibbles', word' := a, zero, digit, nibbles, word;
    if nibbles > 0 {
      digit' := p;
      addr[a] := word / 256 % 256;
      addr[a + 1] := word % 256;
      a' := a + 2;
      if a' < 16 {
        nibbles', word' := 0, 0;
        assert addr[..a'] == st.out + Pair(word);
        return a', zero', digit', nibbles', word', true;
      }
    } else if zero == -1 {
      digit', zero' := p, a;
      return a', zero', digit', nibbles', word', true;
    }
    go := false;
  }

  /** Lines 109-123: a dot, which makes the last group an IPv4 address. */
  method AtDot(text: seq<Byte>, p: nat, addr: array<Byte>, a: int, zero: int, digit: int, nibbles: int, word: int, ghost st: State)
    returns (a': int, word': int, stop: bool)
    requires p <= |text| && addr.Length == 16 && Shows(st, addr[..], a, zero, digit, nibbles, word, text) && nibbles > 0
    modifies addr
    ensures stop == Turn(st, DOT, text[p..]).Stop? && !Turn(st, DOT, text[p..]).Go?
    ensures stop ==> Shows(Turn(st, DOT, text[p..]).st, addr[..], a', zero, digit, nibbles, word', text)
  {
    hide Quad;
    a', word', stop := a, word, false;
    if a > 12 || digit == -1 {
      return;
    }
    var quad := InetAddr(text[digit..]);
    if quad == None {
      return;
    }
    word' := quad.value;
    addr[a] := word' / 65536 / 256 % 256;
    addr[a + 1] := word' / 65536 % 256;
    a' := a + 2;
    assert addr[..a'] == st.out + Pair(word' / 65536);
    stop := true;
  }

  /** The variables of the loop hold the state `st`. */
  ghost predicate Shows(st: State, addr: seq<Byte>, a: int, zero: int, digit: int, nibbles: int, word: int, text: seq<Byte>) {
    && |addr| == 16 && 0 <= a <= 14 && a % 2 == 0 && addr[..a] == st.out
    && -1 <= zero <= a && st.zero == (if zero == -1 then None else Some(zero))
    && -1 <= digit <= |text| && st.digit == (if digit == -1 then None else Some(text[digit..]))
    && nibbles == st.nibbles && word == st.word
  }

  /** Lines 145-170: the last number, then zeros in place of "::". */
  method End(addr: array<Byte>, a: nat, zero: int, nibbles: nat, word: nat, ghost st: State) returns (ok: bool)
    requires addr.Length == 16 && a <= 14 && addr[..a] == st.out && nibbles == st.nibbles && word == st.word
    requires -1 <= zero <= a && st.zero == (if zero == -1 then None else Some(zero))
    modifies addr
    ensures ok == Finish(st).Some? && (ok ==> addr[..] == Finish(st).value)
  {
    if nibbles == 0 && zero == -1 {
      return false;
    }
    addr[a] := word / 256 % 256;
    addr[a + 1] := word % 256;
    ghost var out := st.out + Pair(word);
    assert addr[..a + 2] == out;
    if a + 2 < 16 {
      if zero != -1 {
        Shift(addr, a + 2, zero);
        return true;
      }
    } else if zero == -1 {
      assert addr[..] == out;
      return true;
    }
    return false;
  }

  // --------------------------------------------------------------------- the printer

  function Symbol(d: nat): Byte
    requires d < 16
  {
    if d < 10 then 48 + d else 87 + d
  }

  /** "%uxi" */
  function Hex(w: nat): seq<Byte> {
    if w < 16 then [Symbol(w)] else Hex(w / 16) + [Symbol(w % 16)]
  }

  /** "%ud" */
  function Dec(x: nat): seq<Byte> {
    if x < 10 then [48 + x] else Dec(x / 10) + [48 + x % 10]
  }

  type Address16 = p: seq<Byte> | |p| == 16 witness seq(16, i => 0)

  /** Group `i` of an address. */
  function Group(p: Address16, i: nat): nat
    requires i < 8
  {
    (p[2 * i] as int) * 256 + p[2 * i + 1]
  }

  /** The groups that are printed as "::". */
  datatype Run = NoRun | RunAt(z: nat, m: nat)

  predicate IsRun(p: Address16, run: Run) {
    run.RunAt? ==> 2 <= run.m && run.z + run.m <= 8 && ZeroGroups(p, run.z, run.m)
  }

  predicate ZeroGroups(p: Address16, z: nat, m: nat) {
    z + m <= 8 && forall k | z <= k < z + m :: ZeroAt(p, k)
  }

  predicate ZeroAt(p: Address16, k: nat) { k < 8 && Group(p, k) == 0 }

  /** The last four bytes are printed as an IPv4 address. */
  predicate Mixed(p: Address16, run: Run) {
    run.RunAt? && run.z == 0 &&
    ((run.m == 5 && p[10] == 0xff && p[11] == 0xff) || run.m == 6 || (run.m == 7 && p[14] != 0 && p[15] != 1))
  }

  function Dotted(p: Address16): seq<Byte> {
    Dec(p[12]) + ([DOT] + (Dec(p[13]) + ([DOT] + (Dec(p[14]) + ([DOT] + Dec(p[15]))))))
  }

  /** What the printing loop writes from group `i` on. */
  function Rest(p: Address16, run: Run, mixed: bool, i: nat): seq<Byte>
    requires IsRun(p, run)
    decreases 8 - i
  {
    if i >= (if mixed then 6 else 8) then (if mixed then Dotted(p) else [])
    else if run.RunAt? && run.z == i then [COLON] + Rest(p, run, mixed, i + run.m)
    else Hex(Group(p, i)) + ((if i < 7 then [COLON] else []) + Rest(p, run, mixed, i + 1))
  }

  function Printed(p: Address16, run: Run): seq<Byte>
    requires IsRun(p, run)
  {
    (if run.RunAt? && run.z == 0 then [COLON] else []) + Rest(p, run, Mixed(p, run), 0)
  }

  /** Lines 296-322: the longest run of zero groups, the first of several. */
  method FindRun(p: Address16) returns (run: Run)
    ensures IsRun(p, run)
    ensures LongestRun(p, run)
  {
    var zero, last, max, n := -1, -1, 1, 0;
    var i := 0;
    while i < 8
      invariant 0 <= i <= 8 && 0 <= n <= i && ZeroGroups(p, i - n, n) && (n > 0 ==> last == i - n)
      invariant max >= 1 && (max > 1 ==> zero >= 0 && zero + max <= 8 && ZeroGroups(p, zero, max)) && (zero == -1 ==> max == 1)
      invariant i > n ==> Group(p, i - n - 1) != 0
      invariant forall s: nat, l: nat | s + l <= i && ZeroGroups(p, s, l) :: l <= max || l <= n
    {
      if p[2 * i] != 0 || p[2 * i + 1] != 0 {
        if max < n {
          zero, max := last, n;
        }
        n := 0;
        forall s: nat, l: nat | s + l <= i + 1 && ZeroGroups(p, s, l) ensures l <= max {
          assert s <= i < s + l ==> ZeroAt(p, i);
        }
      } else {
        if n == 0 {
          last := i;
        }
        n := n + 1;
        forall s: nat, l: nat | s + l <= i + 1 && ZeroGroups(p, s, l) ensures l <= max || l <= n {
          LongestHere(p, i + 1, n, s, l);
          if s + l <= i { assert l <= max || l <= n - 1; }
        }
      }
      i := i + 1;
    }
    if max < n {
      zero, max := last, n;
    }
    run := if max > 1 then RunAt(zero, max) else NoRun;
  }

  lemma LongestHere(p: Address16, i: nat, n: nat, s: nat, l: nat)
    requires i <= 8 && n <= i && (i > n ==> Group(p, i - n - 1) != 0) && s + l <= i && ZeroGroups(p, s, l)
    ensures s + l == i ==> l <= n
  {
    if i > n {
      var k := i - n - 1;
      assert s <= k < s + l ==> ZeroAt(p, k);
    }
  }

  /** ngx_inet6_ntop */
  method Ntop(p: Address16) returns (text: seq<Byte>, run: Run)
    ensures IsRun(p, run) && LongestRun(p, run) && text == Printed(p, run)
  {
    hide Hex, Dotted, Rest, LongestRun;
    run := FindRun(p);
    text := [];
    var n := 8;
    if run.RunAt? && run.z == 0 {
      if (run.m == 5 && p[10] == 0xff && p[11] == 0xff) || run.m == 6 || (run.m == 7 && p[14] != 0 && p[15] != 1) {
        n := 6;
      }
      text := text + [COLON];
    }
    ghost var lead, mixed := text, Mixed(p, run);
    var i := 0;
    while i < n
      invariant 0 <= i <= 8 && text + Rest(p, run, mixed, i) == lead + Rest(p, run, mixed, 0)
    {
      RestStep(p, run, mixed, i);
      if run.RunAt? && run.z == i {
        Regroup(text, [COLON], Rest(p, run, mixed, i + run.m));
        text := text + [COLON];
        i := i + run.m;
        continue;
      }
      Regroup(text, Hex(Group(p, i)), (if i < 7 then [COLON] else []) + Rest(p, run, mixed, i + 1));
      text := text + Hex(Group(p, i));
      if i < 7 {
        Regroup(text, [COLON], Rest(p, run, mixed, i + 1));
        text := text + [COLON];
      }
      i := i + 1;
    }
    RestEnd(p, run, mixed, i);
    assert text + [] == text;
    if n == 6 {
      text := text + Dotted(p);
    }
  }

  lemma RestStep(p: Address16, run: Run, mixed: bool, i: nat)
    requires IsRun(p, run) && i < if mixed then 6 else 8
    ensures Rest(p, run, mixed, i) ==
      if run.RunAt? && run.z == i then [COLON] + Rest(p, run, mixed, i + run.m)
      else Hex(Group(p, i)) + ((if i < 7 then [COLON] else []) + Rest(p, run, mixed, i + 1))
  {
  }

  lemma RestEnd(p: Address16, run: Run, mixed: bool, i: nat)
    requires IsRun(p, run) && i >= if mixed then 6 else 8
    ensures Rest(p, run, mixed, i) == if mixed then Dotted(p) else []
  {
  }

  // ---------------------------------------------------------------------- round trip

  lemma SymbolBack(d: nat)
    requires d < 16
    ensures HexDigit(Symbol(d)) == Some(d) && Symbol(d) != COLON && Symbol(d) != DOT
  {
  }

  lemma HexLength(w: nat)
    ensures |Hex(w)| >= 1
    ensures (w < 16 ==> |Hex(w)| <= 1) && (w < 256 ==> |Hex(w)| <= 2) && (w < 4096 ==> |Hex(w)| <= 3) && (w < 65536 ==> |Hex(w)| <= 4)
  {
    if w >= 16 { assert |Hex(w)| == |Hex(w / 16)| + 1; }
    if w >= 256 { assert |Hex(w / 16)| == |Hex(w / 16 / 16)| + 1; }
    if w >= 4096 { assert |Hex(w / 16 / 16)| == |Hex(w / 16 / 16 / 16)| + 1; }
  }

  /** One more hexadecimal digit. */
  lemma DigitGoes(st: State, d: nat, rest: seq<Byte>)
    requires d < 16 && st.nibbles < 4
    ensures Parse(st, [Symbol(d)] + rest) == Parse(st.(nibbles := st.nibbles + 1, word := st.word * 16 + d), rest)
  {
    hide Turn, Finish, Symbol;
    DigitTurn(st, d, rest);
    assert ([Symbol(d)] + rest)[1..] == rest;
  }

  lemma DigitTurn(st: State, d: nat, rest: seq<Byte>)
    requires d < 16 && st.nibbles < 4
    ensures Turn(st, Symbol(d), rest) == Go(st.(nibbles := st.nibbles + 1, word := st.word * 16 + d))
  {
    hide Quad, HexDigit, Symbol;
    SymbolBack(d);
  }

  /** The parser reads a printed group. */
  lemma {:induction false} HexGoes(st: State, w: nat, rest: seq<Byte>)
    requires st.nibbles == 0 && st.word == 0 && |Hex(w)| <= 4
    ensures Parse(st, Hex(w) + rest) == Parse(st.(nibbles := |Hex(w)|, word := w), rest)
    decreases w
  {
    hide Parse;
    if w < 16 {
      DigitGoes(st, w, rest);
    } else {
      HexLength(w / 16);
      HexGoes(st, w / 16, [Symbol(w % 16)] + rest);
      assert Hex(w) + rest == Hex(w / 16) + ([Symbol(w % 16)] + rest);
      DigitGoes(st.(nibbles := |Hex(w / 16)|, word := w / 16), w % 16, rest);
    }
  }

  lemma ColonGoes(st: State, rest: seq<Byte>)
    ensures Parse(st, [COLON] + rest) == match Turn(st, COLON, rest)
      case Fail => None
      case Go(s) => Parse(s, rest)
      case Stop(s) => Finish(s)
  {
    assert ([COLON] + rest)[1..] == rest;
  }

  // ------------------------------------------------------------ the dotted last group

  lemma DecLength(x: nat)
    ensures |Dec(x)| >= 1 && (x < 10 ==> |Dec(x)| <= 1) && (x < 100 ==> |Dec(x)| <= 2) && (x < 1000 ==> |Dec(x)| <= 3)
  {
    if x >= 10 { assert |Dec(x)| == |Dec(x / 10)| + 1; }
    if x >= 100 { assert |Dec(x / 10)| == |Dec(x / 10 / 10)| + 1; }
  }

  /** ngx_inet_addr reads a printed octet. */
  lemma {:induction false} QuadGoes(addr: nat, n: nat, x: nat, rest: seq<Byte>)
    requires x < 256
    ensures Quad(addr, 0, n, Dec(x) + rest) == Quad(addr, x, n, rest)
    decreases x
  {
    hide Quad;
    if x < 10 {
      QuadDigit(addr, 0, n, x, rest);
    } else {
      var d := [48 + x % 10];
      QuadGoes(addr, n, x / 10, d + rest);
      assert Dec(x) + rest == Dec(x / 10) + (d + rest);
      QuadDigit(addr, x / 10, n, x % 10, rest);
    }
  }

  lemma QuadDigit(addr: nat, octet: nat, n: nat, d: nat, rest: seq<Byte>)
    requires d < 10 && octet < 256
    ensures Quad(addr, octet, n, [48 + d] + rest) == Quad(addr, octet * 10 + d, n, rest)
  {
    assert ([48 + d] + rest)[1..] == rest;
  }

  lemma QuadDot(addr: nat, x: nat, n: nat, rest: seq<Byte>)
    requires x < 256 && addr * 256 + x < 0x1_0000_0000
    ensures Quad(addr, x, n, [DOT] + rest) == Quad(addr * 256 + x, 0, n + 1, rest)
  {
    assert ([DOT] + rest)[1..] == rest;
  }

  function Value(p: Address16): nat {
    (((p[12] as int) * 256 + p[13]) * 256 + p[14]) * 256 + p[15]
  }

  lemma QuadReads(p: Address16)
    ensures Quad(0, 0, 0, Dotted(p)) == if Value(p) == 0xffffffff then None else Some(Value(p))
  {
    hide Quad, Dec;
    var a, b, c, d := p[12], p[13], p[14], p[15];
    var t3 := [DOT] + Dec(d);
    var t2 := [DOT] + (Dec(c) + t3);
    var t1 := [DOT] + (Dec(b) + t2);
    QuadGoes(0, 0, a, t1);
    QuadDot(0, a, 0, Dec(b) + t2);
    QuadGoes(a, 1, b, t2);
    QuadDot(a, b, 1, Dec(c) + t3);
    QuadGoes((a as int) * 256 + b, 2, c, t3);
    QuadDot((a as int) * 256 + b, c, 2, Dec(d));
    var e := ((a as int) * 256 + b) * 256 + c;
    QuadGoes(e, 3, d, []);
    assert Dec(d) + [] == Dec(d);
    QuadLast(e, d);
  }

  lemma QuadLast(addr: nat, x: nat)
    requires x < 256 && addr * 256 + x < 0x1_0000_0000
    ensures Quad(addr, x, 3, []) == if addr * 256 + x == 0xffffffff then None else Some(addr * 256 + x)
  {
  }

  /** Decimal digits, read as hexadecimal ones before the dot shows what they are. */
  function Misread(x: nat): nat { if x < 10 then x else Misread(x / 10) * 16 + x % 10 }

  lemma {:induction false} DecGoes(st: State, x: nat, rest: seq<Byte>)
    requires st.nibbles == 0 && st.word == 0 && |Dec(x)| <= 4
    ensures Parse(st, Dec(x) + rest) == Parse(st.(nibbles := |Dec(x)|, word := Misread(x)), rest)
    decreases x
  {
    hide Parse;
    if x < 10 {
      assert Dec(x) == [Symbol(x)];
      DigitGoes(st, x, rest);
    } else {
      DecLength(x / 10);
      DecGoes(st, x / 10, [Symbol(x % 10)] + rest);
      assert Dec(x) + rest == Dec(x / 10) + ([Symbol(x % 10)] + rest);
      DigitGoes(st.(nibbles := |Dec(x / 10)|, word := Misread(x / 10)), x % 10, rest);
    }
  }

  /** The parser hands a dotted last group, from its first octet on, to ngx_inet_addr. */
  lemma DottedGoes(st: State, p: Address16)
    requires st.nibbles == 0 && st.word == 0 && st.digit == Some(Dotted(p)) && |st.out| <= 12
    ensures Value(p) == 0xffffffff ==> Parse(st, Dotted(p)) == None
    ensures Value(p) != 0xffffffff ==>
      Parse(st, Dotted(p)) == Finish(st.(out := st.out + Pair(Value(p) / 65536), word := Value(p), nibbles := |Dec(p[12])|))
  {
    hide Quad, Dec, Finish, Pair;
    DecLength(p[12]);
    QuadReads(p);
    var more := Dec(p[13]) + ([DOT] + (Dec(p[14]) + ([DOT] + Dec(p[15]))));
    assert Dotted(p) == Dec(p[12]) + ([DOT] + more);
    DecGoes(st, p[12], [DOT] + more);
    DotStops(st.(nibbles := |Dec(p[12])|, word := Misread(p[12])), more, p);
  }

  lemma DotStops(st: State, rest: seq<Byte>, p: Address16)
    requires st.nibbles > 0 && st.digit == Some(Dotted(p)) && |st.out| <= 12
    ensures Parse(st, [DOT] + rest) == match Quad(0, 0, 0, Dotted(p))
      case None => None
      case Some(a) => Finish(st.(out := st.out + Pair(a / 65536), word := a))
  {
    hide Quad, Finish, Pair, Dotted;
    assert ([DOT] + rest)[1..] == rest;
  }

  // ----------------------------------------------------------------- the whole address

  lemma GroupBytes(p: Address16, i: nat)
    requires i < 8
    ensures Pair(Group(p, i)) == p[2 * i..2 * i + 2] && Group(p, i) < 65536
  {
  }

  lemma ValueBytes(p: Address16)
    ensures Pair(Value(p) / 65536) + Pair(Value(p)) == p[12..16]
    ensures Value(p) == 0xffffffff <==> p[12] == p[13] == p[14] == p[15] == 255
  {
    hide Pair;
    var hi, lo := (p[12] as int) * 256 + p[13], (p[14] as int) * 256 + p[15];
    assert Value(p) == hi * 65536 + lo && 0 <= lo < 65536;
    assert Value(p) / 65536 == hi;
    PairBytes(p[12], p[13], 0);
    PairBytes(p[14], p[15], hi);
    assert p[12..16] == [p[12], p[13]] + [p[14], p[15]];
  }

  lemma PairBytes(x: Byte, y: Byte, k: nat)
    ensures Pair(k * 65536 + (x as int) * 256 + y) == [x, y]
  {
    var w := k * 65536 + (x as int) * 256 + y;
    assert w / 256 == k * 256 + x;
  }

  /** Bytes written once the printing has reached group `i`: all up to there, without the run. */
  function Written(p: Address16, run: Run, i: nat): seq<Byte>
    requires IsRun(p, run) && i <= 8
  {
    if run.RunAt? && run.z + run.m <= i then p[..2 * run.z] + p[2 * (run.z + run.m)..2 * i] else p[..2 * i]
  }

  lemma RunIsZeros(p: Address16, z: nat, m: nat)
    requires ZeroGroups(p, z, m)
    ensures p[2 * z..2 * (z + m)] == Zeros(2 * m)
  {
    forall k | 2 * z <= k < 2 * (z + m) ensures p[k] == 0 {
      assert ZeroAt(p, k / 2);
      assert k == 2 * (k / 2) || k == 2 * (k / 2) + 1;
    }
  }

  /** Zeros in place of the run give the address back. */
  lemma Refilled(p: Address16, z: nat, m: nat)
    requires ZeroGroups(p, z, m)
    ensures var out := p[..2 * z] + p[2 * (z + m)..];
      |out| == 16 - 2 * m && out[..2 * z] + Zeros(2 * m) + out[2 * z..] == p
  {
    RunIsZeros(p, z, m);
    assert p == p[..2 * z] + p[2 * z..2 * (z + m)] + p[2 * (z + m)..];
  }

  /** The parser, having read what was printed before group `i`. */
  predicate Reached(p: Address16, run: Run, mixed: bool, i: nat, st: State)
    requires IsRun(p, run)
  {
    && i <= 8 && st.nibbles == 0 && st.word == 0 && st.out == Written(p, run, i)
    && (run.RunAt? ==> i <= run.z || run.z + run.m <= i)
    && st.zero == (if run.RunAt? && run.z + run.m <= i then Some(2 * run.z) else None)
    && (run.RunAt? && run.z + run.m <= i ==> st.digit == Some(Rest(p, run, mixed, i)))
  }

  /** What parsing the printed text gives. */
  function Expected(p: Address16, mixed: bool): Option<seq<Byte>> {
    if mixed && Value(p) == 0xffffffff then None else Some(p)
  }

  lemma {:induction false} Reads(p: Address16, run: Run, i: nat, st: State)
    requires IsRun(p, run) && Reached(p, run, Mixed(p, run), i, st) && (i == 8 ==> run.RunAt? && run.z + run.m == 8)
    requires Mixed(p, run) ==> i <= 6 || i == run.m
    ensures Parse(st, Rest(p, run, Mixed(p, run), i)) == Expected(p, Mixed(p, run))
    decreases 8 - i
  {
    hide Parse, Rest, Dotted, Hex, Written, Mixed, Value;
    var mixed := Mixed(p, run);
    MixedRun(p, run);
    if i >= (if mixed then 6 else 8) {
      RestEnd(p, run, mixed, i);
      if mixed { ReadsDotted(p, run, i, st); } else { ReadsNothing(p, run, st); }
    } else {
      RestStep(p, run, mixed, i);
      if run.RunAt? && run.z == i {
        var st' := ReadsRun(p, run, mixed, i, st);
        Reads(p, run, i + run.m, st');
      } else if i < 7 {
        var st' := ReadsGroup(p, run, mixed, i, st);
        Reads(p, run, i + 1, st');
      } else {
        ReadsLast(p, run, st);
      }
    }
  }

  lemma MixedRun(p: Address16, run: Run)
    ensures Mixed(p, run) ==> run.RunAt? && run.z == 0 && 5 <= run.m <= 7
  {
  }

  lemma ReadsRun(p: Address16, run: Run, mixed: bool, i: nat, st: State) returns (st': State)
    requires IsRun(p, run) && run.RunAt? && run.z == i && Reached(p, run, mixed, i, st)
    ensures Reached(p, run, mixed, i + run.m, st')
    ensures Parse(st, [COLON] + Rest(p, run, mixed, i + run.m)) == Parse(st', Rest(p, run, mixed, i + run.m))
  {
    hide Parse, Rest;
    var rest := Rest(p, run, mixed, i + run.m);
    st' := st.(zero := Some(|st.out|), digit := Some(rest));
    ColonGoes(st, rest);
  }

  lemma ReadsGroup(p: Address16, run: Run, mixed: bool, i: nat, st: State) returns (st': State)
    requires IsRun(p, run) && !(run.RunAt? && run.z == i) && i < 7 && Reached(p, run, mixed, i, st)
    ensures Reached(p, run, mixed, i + 1, st')
    ensures var rest := Rest(p, run, mixed, i + 1);
      Parse(st, Hex(Group(p, i)) + ([COLON] + rest)) == Parse(st', rest)
  {
    hide Parse, Rest, Hex, Pair, Group;
    var rest, w := Rest(p, run, mixed, i + 1), Group(p, i);
    GroupBytes(p, i);
    HexLength(w);
    HexGoes(st, w, [COLON] + rest);
    ColonGoes(st.(nibbles := |Hex(w)|, word := w), rest);
    st' := State(st.out + Pair(w), st.zero, Some(rest), 0, 0);
    Grows(p, run, i);
  }

  lemma Grows(p: Address16, run: Run, i: nat)
    requires IsRun(p, run) && i < 8 && (run.RunAt? ==> i < run.z || run.z + run.m <= i)
    ensures Written(p, run, i + 1) == Written(p, run, i) + p[2 * i..2 * i + 2] && |Written(p, run, i)| <= 2 * i
  {
  }

  lemma ReadsLast(p: Address16, run: Run, st: State)
    requires IsRun(p, run) && !(run.RunAt? && run.z == 7) && !Mixed(p, run) && Reached(p, run, false, 7, st)
    ensures Parse(st, Hex(Group(p, 7)) + ([] + Rest(p, run, false, 8))) == Some(p)
  {
    hide Parse, Hex, Pair, Group, Mixed;
    var w := Group(p, 7);
    GroupBytes(p, 7);
    HexLength(w);
    assert [] + Rest(p, run, false, 8) == [];
    HexGoes(st, w, []);
    var end := st.(nibbles := |Hex(w)|, word := w);
    ParseEnd(end);
    Grows(p, run, 7);
    assert p[..16] == p && p[14..16] == p[2 * 7..2 * 7 + 2];
    if run.RunAt? {
      Refilled(p, run.z, run.m);
      assert p[2 * (run.z + run.m)..2 * 8] == p[2 * (run.z + run.m)..];
    }
  }

  /** The text ended with the run. */
  lemma ReadsNothing(p: Address16, run: Run, st: State)
    requires IsRun(p, run) && run.RunAt? && run.z + run.m == 8 && Reached(p, run, false, 8, st)
    ensures Parse(st, []) == Some(p)
  {
    ParseEnd(st);
    RunIsZeros(p, run.z, run.m);
    var a := p[..2 * run.z];
    assert p == a + Zeros(2 * run.m);
    var out := st.out + Pair(0);
    assert out == a + [0, 0] && out[..2 * run.z] == a && out[2 * run.z..] == [0, 0];
    assert Zeros(2 * run.m) == Zeros(16 - |out|) + [0, 0];
    assert a + Zeros(16 - |out|) + [0, 0] == a + (Zeros(16 - |out|) + [0, 0]);
  }

  lemma ReadsDotted(p: Address16, run: Run, i: nat, st: State)
    requires IsRun(p, run) && Mixed(p, run) && (i == 6 || i == run.m == 7) && Reached(p, run, true, i, st)
    ensures Parse(st, Dotted(p)) == Expected(p, true)
  {
    hide Parse, Dotted, Value, Pair, Finish, Dec;
    RestEnd(p, run, true, i);
    DecLength(p[12]);
    DottedGoes(st, p);
    ValueBytes(p);
    var m := if run.m == 5 then 5 else 6;
    assert ZeroGroups(p, 0, m);
    assert st.out == p[2 * m..12] by { BeforeTail(p, run, i); }
    if Value(p) != 0xffffffff {
      var end := st.(out := st.out + Pair(Value(p) / 65536), word := Value(p), nibbles := |Dec(p[12])|);
      assert end.out + Pair(end.word) == p[2 * m..12] + p[12..16];
      FinishTail(p, m, end);
    }
  }

  lemma BeforeTail(p: Address16, run: Run, i: nat)
    requires IsRun(p, run) && Mixed(p, run) && (i == 6 || i == run.m == 7) && run.m <= i
    ensures Written(p, run, i) == p[2 * (if run.m == 5 then 5 else 6)..12]
  {
    assert p[..0] == [];
  }

  lemma FinishTail(p: Address16, m: nat, st: State)
    requires m <= 6 && ZeroGroups(p, 0, m) && m > 0 && st.nibbles > 0 && st.zero == Some(0)
    requires st.out + Pair(st.word) == p[2 * m..12] + p[12..16]
    ensures Finish(st) == Some(p)
  {
    hide Pair;
    var out := p[2 * m..12] + p[12..16];
    Refilled(p, 0, m);
    assert out == p[2 * m..] == p[..0] + p[2 * m..];
    assert out[..0] + Zeros(2 * m) + out[0..] == p;
  }

  /**
   Parsing a printed address gives it back, except for those printed with an IPv4 tail of
   255.255.255.255, which cannot be told from INADDR_NONE.
   */
  lemma PrintedReads(p: Address16, run: Run)
    requires IsRun(p, run)
    ensures Address(Printed(p, run)) == Expected(p, Mixed(p, run))
  {
    hide Parse, Rest, Dotted;
    var mixed := Mixed(p, run);
    assert Reached(p, run, mixed, 0, START);
    Reads(p, run, 0, START);
    var rest := Rest(p, run, mixed, 0);
    if run.RunAt? && run.z == 0 {
      assert Printed(p, run)[1..] == rest;
    } else {
      assert Printed(p, run) == rest;
      MixedRun(p, run);
      RestStep(p, run, mixed, 0);
      HexStart(Group(p, 0));
    }
  }

  lemma {:induction false} HexStart(w: nat)
    ensures Hex(w) != [] && Hex(w)[0] != COLON
  {
    if w < 16 { SymbolBack(w); } else { HexStart(w / 16); }
  }

  lemma {:induction false} RestLength(p: Address16, run: Run, mixed: bool, i: nat)
    requires IsRun(p, run) && i <= 8
    ensures |Rest(p, run, mixed, i)| <= (if i < 8 then 5 * (8 - i) else 0) + (if mixed then 15 else 0)
    ensures mixed ==> |Rest(p, run, mixed, i)| <= (if i < 6 then 5 * (6 - i) else 0) + 15
    decreases 8 - i
  {
    hide Hex, Dotted, Rest, Group, ZeroGroups;
    if i >= (if mixed then 6 else 8) {
      RestEnd(p, run, mixed, i);
      DottedLength(p);
    } else {
      RestStep(p, run, mixed, i);
      if run.RunAt? && run.z == i {
        RestLength(p, run, mixed, i + run.m);
      } else {
        GroupBytes(p, i);
        HexLength(Group(p, i));
        RestLength(p, run, mixed, i + 1);
      }
    }
  }

  lemma DottedLength(p: Address16)
    ensures |Dotted(p)| <= 15
  {
    hide Dec;
    DecLength(p[12]);
    DecLength(p[13]);
    DecLength(p[14]);
    DecLength(p[15]);
  }

  lemma PrintedLength(p: Address16, run: Run)
    requires IsRun(p, run)
    ensures |Printed(p, run)| <= 45
  {
    hide Rest;
    var mixed := Mixed(p, run);
    MixedRun(p, run);
    RestLength(p, run, mixed, 0);
    if run.RunAt? && run.z == 0 {
      RestStep(p, run, mixed, 0);
      RestLength(p, run, mixed, run.m);
    }
  }

  /** The addresses whose text does not parse, in their own terms. */
  predicate Collides(p: Address16) {
    && p[12] == p[13] == p[14] == p[15] == 255
    && ZeroGroups(p, 0, 5) && (ZeroAt(p, 5) || p[10] == p[11] == 255)
  }

  lemma CollidesExactly(p: Address16, run: Run)
    requires IsRun(p, run) && LongestRun(p, run)
    ensures Collides(p) <==> Mixed(p, run) && Value(p) == 0xffffffff
  {
    ValueBytes(p);
    if p[12] == p[13] == p[14] == p[15] == 255 {
      assert !ZeroAt(p, 6) && !ZeroAt(p, 7);
      if Collides(p) {
        var l := if ZeroAt(p, 5) then 6 else 5;
        assert ZeroGroups(p, 0, l);
        assert run.RunAt? && run.m >= l;
        assert run.z + run.m <= 6 by { assert forall k | run.z <= k < run.z + run.m :: ZeroAt(p, k); }
      }
    }
  }

  ghost predicate LongestRun(p: Address16, run: Run) {
    forall s: nat, l: nat | s + l <= 8 && ZeroGroups(p, s, l) :: l <= if run.RunAt? then run.m else 1
  }

  /**
   ngx_inet6_ntop and ngx_inet6_addr, one after the other: the text fits its buffer, and the
   address comes back exactly when its text does not collide with INADDR_NONE.
   */
  method RoundTrip(p: Address16) returns (text: seq<Byte>, addr: array<Byte>, ok: bool)
    ensures |text| <= 45 && addr.Length == 16
    ensures ok <==> !Collides(p)
    ensures ok ==> addr[..] == p
  {
    hide Parse, Rest, Dotted, Mixed, Collides, Value;
    var run;
    text, run := Ntop(p);
    PrintedReads(p, run);
    PrintedLength(p, run);
    CollidesExactly(p, run);
    addr, ok := Inet6Addr(text);
  }
}
