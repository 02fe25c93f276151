/**
 Chunk sizes and chunk bitmaps of the slab pool, for 4096-byte pages, 64-bit words and the
 minimum shift of 3 that nginx uses.

 A machine word that serves as a bitmap is the set of its one bits.
 */
module SlabBits {
  import opened Arithmetic

  const PAGE_SHIFT: nat := 12
  const PAGE: nat := 4096
  const MIN_SHIFT: nat := 3
  /** the chunk size for which one word is exactly the bitmap of a page */
  const EXACT_SHIFT: nat := 6
  const MAX_SIZE: nat := 2048
  const BITS: nat := 64

  type Bits = set<nat>

  predicate IsShift(s: nat) { MIN_SHIFT <= s < PAGE_SHIFT }

  function Size(s: nat): (r: nat)
    ensures r > 0
  {
    if s == 0 then 1 else 2 * Size(s - 1)
  }

  /** Chunks in a page. */
  function Count(s: nat): nat
    requires s <= PAGE_SHIFT
  {
    Size(PAGE_SHIFT - s)
  }

  /** Words of the bitmap that a page of small chunks keeps in itself. */
  function Words(s: nat): nat
    requires s <= PAGE_SHIFT
  {
    Count(s) / BITS
  }

  /** Chunks that hold the in-page bitmap. */
  function Reserved(s: nat): nat
    requires IsShift(s)
  {
    if s >= EXACT_SHIFT then 0
    else var n := Count(s) / 8 / Size(s); if n == 0 then 1 else n
  }

  /** The table of sizes, and that reserved chunks cover the bitmap and leave room for more. */
  lemma Sizes(s: nat)
    requires IsShift(s)
    ensures Size(3) == 8 && Size(4) == 16 && Size(5) == 32 && Size(6) == 64
    ensures Size(7) == 128 && Size(8) == 256 && Size(9) == 512 && Size(10) == 1024 && Size(11) == 2048
    ensures Size(s) >= 8 && Size(s) * Count(s) == PAGE
    ensures s < EXACT_SHIFT ==>
        && Words(s) >= 2 && Words(s) * BITS == Count(s) && Words(s) * 8 <= Reserved(s) * Size(s)
        && 1 <= Reserved(s) < BITS - 1
    ensures s == EXACT_SHIFT ==> Count(s) == BITS
    ensures s > EXACT_SHIFT ==> Count(s) <= 32
    ensures Reserved(s) + 2 <= Count(s)
  {
    assert Size(1) == 2 && Size(2) == 4 && Size(3) == 8 && Size(4) == 16 && Size(5) == 32;
    assert Size(6) == 64 && Size(7) == 128 && Size(8) == 256 && Size(9) == 512;
    assert Size(10) == 1024 && Size(11) == 2048 && Size(12) == 4096;
    assert s == 3 || s == 4 || s == 5 || s == 6 || s == 7 || s == 8 || s == 9 || s == 10 || s == 11;
  }

  /** Lines 179-188: the shift of the smallest chunk that holds `size` bytes. */
  method ChooseShift(size: nat) returns (shift: nat)
    requires size < MAX_SIZE
    ensures IsShift(shift) && size <= Size(shift)
    ensures shift > MIN_SHIFT ==> Size(shift - 1) < size
  {
    Sizes(MIN_SHIFT);
    if size > Size(MIN_SHIFT) {
      shift := 1;
      var s := (size - 1) / 2;
      assert Size(1) == 2;
      while s != 0
        invariant 1 <= shift && s == (size - 1) / Size(shift) && Size(shift) > 0
        invariant Size(shift - 1) <= size - 1
        decreases s
      {
        HalveAgain(size - 1, shift);
        shift := shift + 1;
        s := s / 2;
      }
      QuotientZero(size - 1, Size(shift));
      if shift < MIN_SHIFT { SizeMonotone(shift, MIN_SHIFT); }
      if 11 < shift - 1 { SizeMonotone(11, shift - 1); }
    } else {
      shift := MIN_SHIFT;
    }
  }

  lemma HalveAgain(x: nat, k: nat)
    requires Size(k) > 0 && x / Size(k) != 0
    ensures x / Size(k) / 2 == x / Size(k + 1) && Size(k + 1) > 0 && Size(k) <= x
  {
    var d := Size(k);
    assert Size(k + 1) == 2 * d;
    DivTwice(x, d);
  }

  lemma DivTwice(x: nat, d: nat)
    requires d > 0
    ensures x / d / 2 == x / (2 * d)
    ensures x / d != 0 ==> d <= x
  {
    var q := x / d;
    assert x == q * d + x % d;
    Halves(x, d, q / 2, q % 2, x % d);
  }

  lemma Halves(x: nat, d: nat, r: nat, b: nat, e: nat)
    requires d > 0 && b < 2 && e < d && x == (2 * r + b) * d + e
    ensures x / (2 * d) == r
  {
    if b == 0 {
      assert x == r * (2 * d) + e;
      QuotientUnique(x, 2 * d, r, e);
    } else {
      assert x == r * (2 * d) + (d + e);
      QuotientUnique(x, 2 * d, r, d + e);
    }
  }

  lemma QuotientZero(x: nat, d: nat)
    requires d > 0 && x / d == 0
    ensures x < d
  {
  }

  lemma {:induction false} SizeMonotone(a: nat, b: nat)
    requires a < b
    ensures Size(a) < Size(b)
    decreases b
  {
    if a < b - 1 { SizeMonotone(a, b - 1); }
  }

  // ------------------------------------------------------------------ bit words

  function Below(n: nat): (w: Bits)
    ensures forall i :: i in w <==> 0 <= i < n
  {
    set i: nat | i < n && InRange(i, n)
  }

  predicate InRange(i: nat, n: nat) { i < n }

  /** All bits of a word: NGX_SLAB_BUSY. */
  function Full(): Bits { Below(BITS) }

  /** The scan for the lowest clear bit. */
  method LowestClear(w: Bits, n: nat) returns (i: nat)
    requires w < Below(n)
    ensures i < n && i !in w && Below(i) <= w
  {
    i := 0;
    while i in w
      invariant i <= n && Below(i) <= w
      decreases n - i
    {
      i := i + 1;
      assert Below(n) <= w || i < n;
    }
  }

  // ----------------------------------------------- in-page bitmaps of small chunks

  ghost predicate IsBitmap(words: seq<Bits>) { forall n | 0 <= n < |words| :: words[n] <= Full() }

  /** The chunks marked in a bitmap. */
  ghost function Marked(words: seq<Bits>): (u: set<nat>)
    ensures forall c :: c in u <==> 0 <= c < |words| * BITS && c % BITS in words[c / BITS]
  {
    set c: nat | 0 <= c < |words| * BITS && c % BITS in words[c / BITS]
  }

  lemma MarkedUpdate(words: seq<Bits>, n: nat, w: Bits, i: nat)
    requires IsBitmap(words) && n < |words| && i < BITS
    ensures w == words[n] + {i} ==> Marked(words[n := w]) == Marked(words) + {n * BITS + i}
    ensures w == words[n] - {i} ==> Marked(words[n := w]) == Marked(words) - {n * BITS + i}
    ensures (n * BITS + i in Marked(words)) <==> i in words[n]
  {
    var c := n * BITS + i;
    assert c / BITS == n && c % BITS == i;
  }

  lemma MarkedFull(words: seq<Bits>)
    requires IsBitmap(words)
    ensures (forall n | 0 <= n < |words| :: words[n] == Full()) <==> Marked(words) == Below(|words| * BITS)
  {
    if Marked(words) == Below(|words| * BITS) {
      forall n, i | 0 <= n < |words| && 0 <= i < BITS ensures i in words[n] { MarkedUpdate(words, n, words[n], i); }
    }
  }

  /**
   Lines 207-241: takes the first free chunk of a bitmap; `full` says that none is left.
   */
  method TakeSmall(words: seq<Bits>) returns (words': seq<Bits>, chunk: nat, full: bool)
    requires IsBitmap(words) && Marked(words) != Below(|words| * BITS)
    ensures IsBitmap(words') && |words'| == |words|
    ensures chunk < |words| * BITS && chunk !in Marked(words) && Below(chunk) <= Marked(words)
    ensures Marked(words') == Marked(words) + {chunk}
    ensures full <==> Marked(words') == Below(|words| * BITS)
  {
    MarkedFull(words);
    var n := 0;
    while words[n] == Full()
      invariant 0 <= n < |words|
      invariant forall j | 0 <= j < n :: words[j] == Full()
      decreases |words| - n
    {
      n := n + 1;
      assert n < |words|;
    }
    var i := LowestClear(words[n], BITS);
    words' := words[n := words[n] + {i}];
    chunk := n * BITS + i;
    MarkedUpdate(words, n, words[n] + {i}, i);
    FirstFree(words, n, i);
    MarkedFull(words');
    full := false;
    if words'[n] == Full() {
      var j := n + 1;
      while j < |words'| && words'[j] == Full()
        invariant n < j <= |words'|
        invariant forall m | 0 <= m < j :: words'[m] == Full()
      {
        j := j + 1;
      }
      full := j == |words'|;
    }
  }

  lemma FirstFree(words: seq<Bits>, n: nat, i: nat)
    requires IsBitmap(words) && n < |words| && i < BITS && Below(i) <= words[n]
    requires forall j | 0 <= j < n :: words[j] == Full()
    ensures Below(n * BITS + i) <= Marked(words)
  {
  }

  /**
   Lines 441-479: gives a chunk back; `empty` says that only the `reserved` chunks are left.
   */
  method GiveSmall(words: seq<Bits>, chunk: nat, reserved: nat) returns (words': seq<Bits>, empty: bool)
    requires IsBitmap(words) && chunk in Marked(words) && reserved < BITS
    ensures IsBitmap(words') && |words'| == |words|
    ensures Marked(words') == Marked(words) - {chunk}
    ensures empty <==> Marked(words') <= Below(reserved)
  {
    var n, i := chunk / BITS, chunk % BITS;
    words' := words[n := words[n] - {i}];
    MarkedUpdate(words, n, words[n] - {i}, i);
    OnlyReserved(words', reserved);
    if words'[0] - Below(reserved) != {} {
      return words', false;
    }
    var j := 1;
    while j < |words'|
      invariant 1 <= j <= |words'|
      invariant forall m | 1 <= m < j :: words'[m] == {}
    {
      if words'[j] != {} {
        return words', false;
      }
      j := j + 1;
    }
    empty := true;
  }

  lemma OnlyReserved(words: seq<Bits>, reserved: nat)
    requires IsBitmap(words) && |words| > 0 && reserved < BITS
    ensures Marked(words) <= Below(reserved) <==>
      words[0] - Below(reserved) == {} && forall m | 1 <= m < |words| :: words[m] == {}
  {
    if Marked(words) <= Below(reserved) {
      forall m, i | 0 <= m < |words| && i in words[m] ensures m == 0 && i < reserved { MarkedUpdate(words, m, words[m], i); }
      assert words[0] - Below(reserved) == {};
      forall m | 1 <= m < |words| ensures words[m] == {} {
        assert forall i :: i !in words[m];
      }
    }
    if words[0] - Below(reserved) == {} && forall m | 1 <= m < |words| :: words[m] == {} {
      forall c | c in Marked(words) ensures c in Below(reserved) {
        assert c % BITS in words[c / BITS] && c / BITS == 0;
        assert c % BITS !in words[0] - Below(reserved);
      }
    }
  }

  /** Lines 335-348: a fresh bitmap marks the reserved chunks and the first one handed out. */
  method FreshBitmap(s: nat) returns (words: seq<Bits>)
    requires IsShift(s) && s < EXACT_SHIFT
    ensures |words| == Words(s) && IsBitmap(words) && Marked(words) == Below(Reserved(s) + 1)
  {
    Sizes(s);
    var n := Count(s) / 8 / Size(s);
    if n == 0 {
      n := 1;
    }
    words := [Below(n + 1)];
    var i := 1;
    while i < Words(s)
      invariant 1 <= i <= Words(s) && |words| == i
      invariant words[0] == Below(n + 1) && forall j | 1 <= j < i :: words[j] == {}
    {
      words := words + [{}];
      i := i + 1;
    }
    FreshMarks(words, n + 1);
  }

  lemma FreshMarks(words: seq<Bits>, m: nat)
    requires |words| > 0 && m <= BITS && words[0] == Below(m) && forall j | 1 <= j < |words| :: words[j] == {}
    ensures IsBitmap(words) && Marked(words) == Below(m)
  {
    forall c: nat ensures c in Marked(words) <==> c < m {
      if c in Marked(words) { assert c / BITS == 0; }
      if c < m { assert c / BITS == 0 && c % BITS == c; }
    }
  }
}
