/**
 Names in DNS messages (ngx_resolver.c, sections 3.1 and 4.1.2 of RFC 1035): the query builder,
 which writes a name backwards, and the copy routine on names without compression.
 */
module DnsName {
  import opened Words

  const DOT: Byte := 46

  /** Bytes before the first dot. */
  function LabelLength(s: seq<Byte>): (n: nat)
    ensures n <= |s| && (n < |s| ==> s[n] == DOT)
  {
    if s == [] || s[0] == DOT then 0 else 1 + LabelLength(s[1..])
  }

  /** The name on the wire behind the length of its first label: each dot becomes the length of the label after it. */
  function Body(s: seq<Byte>): (w: seq<Byte>)
    ensures |w| == |s| + 1
  {
    if s == [] then [0] else [if s[0] == DOT then LabelLength(s[1..]) % 256 else s[0]] + Body(s[1..])
  }

  function Wire(s: seq<Byte>): seq<Byte> { [LabelLength(s) % 256] + Body(s) }

  /** All labels but the first have between 1 and `max` bytes. */
  predicate LaterLabels(s: seq<Byte>, max: nat) {
    s != [] ==> (s[0] == DOT ==> 1 <= LabelLength(s[1..]) <= max) && LaterLabels(s[1..], max)
  }

  predicate AllLabels(s: seq<Byte>, max: nat) { 1 <= LabelLength(s) <= max && LaterLabels(s, max) }

  /** Lines 2513-2541: writes the name into the last bytes of the space reserved for it. */
  method BuildName(name: seq<Byte>) returns (ok: bool, wire: array<Byte>)
    ensures ok <==> AllLabels(name, 255)
    ensures ok ==> wire.Length == |name| + 2 && wire[..] == Wire(name)
  {
    hide Body, LaterLabels, LabelLength;
    var nlen := if |name| > 0 then 1 + |name| + 1 else 1;
    wire := new Byte[nlen](i => 0);
    var len;
    wire[nlen - 1] := 0;
    if |name| == 0 {
      NoName();
      assert name == [];
      return false, wire;
    }
    ok, len := WriteLabels(name, wire);
    if !ok {
      return false, wire;
    }
    if len == 0 || len > 255 {
      return false, wire;
    }
    wire[0] := len % 256;
    assert wire[..] == [wire[0]] + wire[1..];
  }

  /** The loop: from the last byte to the first, with the length of the first label left to write. */
  method WriteLabels(name: seq<Byte>, wire: array<Byte>) returns (ok: bool, len: nat)
    requires wire.Length == |name| + 2 && wire[|name| + 1] == 0
    modifies wire
    ensures ok <==> LaterLabels(name, 255)
    ensures ok ==> len == LabelLength(name) && wire[1..] == Body(name)
  {
    hide Body, LaterLabels, LabelLength;
    len := 0;
    var p := |name|;
    assert wire[p + 1..] == [0] && name[p..] == [];
    NoName();
    while p > 0
      invariant 0 <= p <= |name|
      invariant len == LabelLength(name[p..]) && LaterLabels(name[p..], 255)
      invariant wire[p + 1..] == Body(name[p..])
    {
      Suffix(name, p - 1);
      ghost var was := wire[p + 1..];
      if name[p - 1] != DOT {
        wire[p] := name[p - 1];
        len := len + 1;
      } else {
        if len == 0 || len > 255 {
          BadLabel(name, p - 1);
          return false, len;
        }
        wire[p] := len % 256;
        len := 0;
      }
      assert wire[p..] == [wire[p]] + was;
      p := p - 1;
    }
    assert name[0..] == name;
    ok := true;
  }

  lemma NoName()
    ensures LabelLength([]) == 0 && LaterLabels([], 255) && Body([]) == [0]
  {
  }

  lemma Suffix(s: seq<Byte>, i: nat)
    requires i < |s|
    ensures LabelLength(s[i..]) == if s[i] == DOT then 0 else 1 + LabelLength(s[i + 1..])
    ensures Body(s[i..]) == [if s[i] == DOT then LabelLength(s[i + 1..]) % 256 else s[i]] + Body(s[i + 1..])
    ensures LaterLabels(s[i..], 255) <==> (s[i] == DOT ==> 1 <= LabelLength(s[i + 1..]) <= 255) && LaterLabels(s[i + 1..], 255)
  {
    assert s[i..][1..] == s[i + 1..];
  }

  /** A bad label anywhere makes the name bad. */
  lemma {:induction false} BadLabel(s: seq<Byte>, i: nat)
    requires i < |s| && s[i] == DOT && !(1 <= LabelLength(s[i + 1..]) <= 255)
    ensures !LaterLabels(s, 255)
  {
    if i == 0 {
      assert s[1..] == s[i + 1..];
    } else {
      assert s[1..][i - 1] == s[i] && s[1..][i - 1 + 1..] == s[i + 1..];
      BadLabel(s[1..], i - 1);
    }
  }

  // ---------------------------------------------------------------------------- copying

  /** The name, an error, or a compression pointer, whose meaning is not modelled. */
  datatype Copied = Name(text: seq<Byte>) | Invalid | Pointer

  /** The passes over a name of one label for each turn, `left` turns at most. */
  datatype Measured = Length(len: int) | Bad | Compressed

  /** Lines 2679-2716: the checks and the length, from label position `p` on. */
  function Measure(w: seq<Byte>, p: nat, left: nat): Measured
    requires p < |w|
    decreases left
  {
    if left == 0 then Bad
    else
      var n := w[p];
      if n == 0 then Length(-1)
      else if n >= 64 then Compressed
      else if p + 1 + n >= |w| then Bad
      else match Measure(w, p + 1 + n, left - 1)
        case Length(l) => Length(l + 1 + n)
        case other => other
  }

  /** ngx_tolower */
  function Low(c: Byte): Byte { if 65 <= c <= 90 then c + 32 else c }

  function LowAll(s: seq<Byte>): (r: seq<Byte>)
    ensures |r| == |s|
  {
    seq(|s|, i requires 0 <= i < |s| => Low(s[i]))
  }

  /** The text of the labels from position `p` on, joined by dots. */
  function Joined(w: seq<Byte>, p: nat, left: nat): seq<Byte>
    requires p < |w| && Measure(w, p, left).Length?
    decreases left
  {
    var n := w[p];
    if n == 0 then []
    else LowAll(w[p + 1..p + 1 + n]) + if w[p + 1 + n] == 0 then [] else [DOT] + Joined(w, p + 1 + n, left - 1)
  }

  lemma JoinedStep(w: seq<Byte>, p: nat, left: nat)
    requires p < |w| && Measure(w, p, left).Length? && w[p] != 0
    ensures left > 0 && p + 1 + w[p] < |w| && Measure(w, p + 1 + w[p], left - 1).Length?
    ensures Joined(w, p, left)
         == LowAll(w[p + 1..p + 1 + w[p]]) + if w[p + 1 + w[p]] == 0 then [] else [DOT] + Joined(w, p + 1 + w[p], left - 1)
  {
  }

  /** The space allotted by the first pass is what the second one fills. */
  lemma {:induction false} ExactLength(w: seq<Byte>, p: nat, left: nat)
    requires p < |w| && Measure(w, p, left).Length?
    ensures w[p] == 0 <==> Measure(w, p, left).len == -1
    ensures w[p] != 0 ==> Measure(w, p, left).len == |Joined(w, p, left)|
    decreases left
  {
    if w[p] != 0 { ExactLength(w, p + 1 + w[p], left - 1); }
  }

  /** The first loop of ngx_resolver_copy. */
  method FirstPass(w: seq<Byte>) returns (m: Measured)
    requires |w| > 0
    ensures m == Measure(w, 0, 128)
  {
    var p: nat, len: int := 0, -1;
    for i := 0 to 128
      invariant p < |w|
      invariant match Measure(w, p, 128 - i)
        case Length(l) => Measure(w, 0, 128) == Length(l + len + 1)
        case other => Measure(w, 0, 128) == other
    {
      var n := w[p];
      p := p + 1;
      if n == 0 {
        return Length(len);
      }
      if n >= 64 {
        return Compressed;
      }
      len := len + 1 + n;
      p := p + n;
      if p >= |w| {
        return Bad;
      }
    }
    return Bad;
  }

  /** The second loop, for a name that passed the first. */
  method SecondPass(w: seq<Byte>) returns (dst: seq<Byte>)
    requires |w| > 0 && w[0] != 0 && Measure(w, 0, 128).Length?
    ensures dst == Joined(w, 0, 128)
  {
    hide Joined, Measure;
    dst := [];
    var src: nat, n := 1, w[0];
    ghost var left: nat := 128;
    while true
      invariant 1 <= src <= |w| && n == w[src - 1] != 0 && Measure(w, src - 1, left).Length?
      invariant dst + Joined(w, src - 1, left) == Joined(w, 0, 128)
      decreases left
    {
      JoinedStep(w, src - 1, left);
      dst := dst + LowAll(w[src..src + n]);
      src := src + n;
      n := w[src];
      src := src + 1;
      if n != 0 {
        dst := dst + [DOT];
      }
      left := left - 1;
      if n == 0 {
        return;
      }
    }
  }

  /** ngx_resolver_copy on `w`, which reaches to the end of the response. */
  method Copy(w: seq<Byte>) returns (r: Copied)
    requires |w| > 0
    ensures match Measure(w, 0, 128)
      case Bad => r == Invalid
      case Compressed => r == Pointer
      case Length(l) => r == Name(if w[0] == 0 then [] else Joined(w, 0, 128)) && |r.text| == if l == -1 then 0 else l
  {
    var m := FirstPass(w);
    if m == Bad {
      return Invalid;
    }
    if m == Compressed {
      return Pointer;
    }
    ExactLength(w, 0, 128);
    if m.len == -1 {
      return Name([]);
    }
    var text := SecondPass(w);
    return Name(text);
  }

  // ------------------------------------------------------------------------- round trip

  function Labels(s: seq<Byte>): nat {
    if s == [] then 1 else (if s[0] == DOT then 1 else 0) + Labels(s[1..])
  }

  lemma {:induction false} BodyAt(s: seq<Byte>, i: nat)
    requires i <= |s|
    ensures Body(s)[i] == if i == |s| then 0 else if s[i] == DOT then LabelLength(s[i + 1..]) % 256 else s[i]
  {
    if i > 0 {
      BodyAt(s[1..], i - 1);
      if i < |s| { assert s[1..][i - 1 + 1..] == s[i + 1..]; }
    } else if i < |s| {
      assert s[i + 1..] == s[1..];
    }
  }

  lemma {:induction false} LabelOf(s: seq<Byte>)
    ensures forall i | 0 <= i < LabelLength(s) :: s[i] != DOT
  {
    if s != [] && s[0] != DOT {
      LabelOf(s[1..]);
      forall i | 0 <= i < LabelLength(s) ensures s[i] != DOT {
        if i > 0 { assert s[i] == s[1..][i - 1]; }
      }
    }
  }

  /** Past the first label, the rest is a name of one label less. */
  lemma {:induction false} NextLabel(s: seq<Byte>, max: nat)
    requires LaterLabels(s, max) && LabelLength(s) < |s|
    ensures var rest := s[LabelLength(s) + 1..]; AllLabels(rest, max) && Labels(s) == Labels(rest) + 1
  {
    var n := LabelLength(s);
    if s[0] == DOT {
      assert s[n + 1..] == s[1..];
      Later(s[1..], max);
    } else {
      NextLabel(s[1..], max);
      assert s[1..][n - 1 + 1..] == s[n + 1..];
    }
  }

  lemma Later(s: seq<Byte>, max: nat)
    requires LaterLabels(s, max) && 1 <= LabelLength(s) <= max
    ensures AllLabels(s, max)
  {
  }

  lemma {:induction false} OneLabel(s: seq<Byte>)
    requires LabelLength(s) == |s|
    ensures Labels(s) == 1
  {
    if s != [] { OneLabel(s[1..]); }
  }

  /** The wire, from the label that starts at name position `k` on, reads back as the rest of the name. */
  lemma {:induction false} ReadsBack(name: seq<Byte>, k: nat, left: nat)
    requires k <= |name| && AllLabels(name[k..], 63) && Labels(name[k..]) < left
    requires Wire(name)[k] == LabelLength(name[k..])
    ensures Measure(Wire(name), k, left).Length? && Joined(Wire(name), k, left) == LowAll(name[k..])
    decreases left
  {
    hide Body, Measure, Joined, LaterLabels, LabelLength, Labels, LowAll, Wire;
    var w, s := Wire(name), name[k..];
    var n := LabelLength(s);
    LabelBytes(name, k);
    if n == |s| {
      OneLabel(s);
      ReadLast(w, k, left);
      assert s[..n] == s;
    } else {
      var rest := s[n + 1..];
      Split(s, 63);
      assert rest == name[k + n + 1..];
      assert 1 <= LabelLength(rest) <= 63;
      ReadsBack(name, k + n + 1, left - 1);
      ReadStep(w, k, left);
      assert s == s[..n] + [DOT] + rest;
      LowJoins(s[..n], rest);
    }
  }

  /** The bytes of the label that starts at `k`, and what follows them. */
  lemma LabelBytes(name: seq<Byte>, k: nat)
    requires k <= |name|
    ensures var w, n := Wire(name), LabelLength(name[k..]);
      && |w| == |name| + 2 && k + n <= |name| && w[k + 1..k + 1 + n] == name[k..][..n]
      && w[k + 1 + n] == if k + n == |name| then 0 else LabelLength(name[k + n + 1..]) % 256
  {
    hide Body;
    var w, s := Wire(name), name[k..];
    var n := LabelLength(s);
    LabelOf(s);
    forall i | 0 <= i < n ensures w[k + 1 + i] == s[i] { BodyAt(name, k + i); }
    BodyAt(name, k + n);
  }

  lemma Split(s: seq<Byte>, max: nat)
    requires AllLabels(s, max) && LabelLength(s) < |s|
    ensures var rest := s[LabelLength(s) + 1..]; AllLabels(rest, max) && Labels(s) == Labels(rest) + 1
  {
    NextLabel(s, max);
  }

  lemma ReadLast(w: seq<Byte>, p: nat, left: nat)
    requires p < |w| && 1 <= w[p] < 64 && p + 1 + w[p] < |w| && w[p + 1 + w[p]] == 0 && left >= 2
    ensures Measure(w, p, left).Length? && Joined(w, p, left) == LowAll(w[p + 1..p + 1 + w[p]])
  {
    assert Measure(w, p + 1 + w[p], left - 1) == Length(-1);
  }

  lemma ReadStep(w: seq<Byte>, p: nat, left: nat)
    requires p < |w| && 1 <= w[p] < 64 && p + 1 + w[p] < |w| && w[p + 1 + w[p]] != 0 && left >= 1
    requires Measure(w, p + 1 + w[p], left - 1).Length?
    ensures Measure(w, p, left).Length?
    ensures Joined(w, p, left) == LowAll(w[p + 1..p + 1 + w[p]]) + ([DOT] + Joined(w, p + 1 + w[p], left - 1))
  {
  }

  lemma LowJoins(a: seq<Byte>, b: seq<Byte>)
    ensures LowAll(a + [DOT] + b) == LowAll(a) + ([DOT] + LowAll(b))
  {
  }

  /** Only labels of at most 63 bytes, 127 at most, pass the first loop of the copy routine. */
  lemma {:induction false} PassesOnlyIf(name: seq<Byte>, k: nat, left: nat)
    requires k <= |name| && AllLabels(name[k..], 255) && Wire(name)[k] == LabelLength(name[k..])
    requires Measure(Wire(name), k, left).Length?
    ensures AllLabels(name[k..], 63) && Labels(name[k..]) < left
    decreases left
  {
    hide Body, LaterLabels, LabelLength, Labels, Wire;
    var w, s := Wire(name), name[k..];
    var n := LabelLength(s);
    LabelBytes(name, k);
    if n == |s| {
      OneLabel(s);
      LastLabel(s, 63);
    } else {
      var rest := s[n + 1..];
      Split(s, 255);
      assert rest == name[k + n + 1..];
      PassesOnlyIf(name, k + n + 1, left - 1);
      Longer(s, 63);
    }
  }

  lemma {:induction false} LastLabel(s: seq<Byte>, max: nat)
    requires LabelLength(s) == |s|
    ensures LaterLabels(s, max)
  {
    if s != [] { LastLabel(s[1..], max); }
  }

  lemma {:induction false} Longer(s: seq<Byte>, max: nat)
    requires LabelLength(s) < |s| && AllLabels(s[LabelLength(s) + 1..], max)
    ensures LaterLabels(s, max)
  {
    var n := LabelLength(s);
    if s[0] == DOT {
      assert s[n + 1..] == s[1..];
    } else {
      assert s[1..][n - 1 + 1..] == s[n + 1..];
      Longer(s[1..], max);
    }
  }

  /**
   The query builder takes exactly the names with labels of 1 to 255 bytes and fills exactly its
   space; the copy routine then gives the name back in lower case exactly when no label is longer
   than 63 bytes and there are at most 127 of them.
   */
  method RoundTrip(name: seq<Byte>) returns (ok: bool, wire: array<Byte>, r: Copied)
    ensures ok <==> AllLabels(name, 255)
    ensures ok ==> wire.Length == |name| + 2
    ensures ok ==> (r == Name(LowAll(name)) <==> AllLabels(name, 63) && Labels(name) <= 127)
    ensures ok && r.Name? ==> r == Name(LowAll(name))
  {
    hide Body, LaterLabels, LabelLength, Labels, Measure, Joined;
    ok, wire := BuildName(name);
    if !ok {
      return ok, wire, Invalid;
    }
    assert name[0..] == name;
    assert wire[..] == Wire(name);
    if AllLabels(name, 63) && Labels(name) <= 127 { ReadsBack(name, 0, 128); }
    if Measure(Wire(name), 0, 128).Length? { PassesOnlyIf(name, 0, 128); }
    r := Copy(wire[..]);
  }

  /** A name with an empty label is declined. */
  method EmptyLabel(name: seq<Byte>, i: nat) returns (ok: bool)
    requires i <= |name| && (i == 0 || name[i - 1] == DOT) && (i == |name| || name[i] == DOT)
    ensures !ok
  {
    if i > 0 { BadLabel(name, i - 1); }
    var wire;
    ok, wire := BuildName(name);
  }
}
