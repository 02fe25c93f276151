/**
 What the page headers and bitmaps of a slab pool mean.

 `Owner` says for every page what it is part of: a free run, an allocated run, or chunks of one
 size.  It is not stored by the program; it is what the headers must agree with.
 */
module SlabState {
  import opened Arithmetic
  import opened SlabBits

  /** The type bits kept in the `prev` field of a page header. */
  datatype Kind = PAGE_KIND | BIG | EXACT | SMALL

  /** The `slab` word of a page header, by how it is written. */
  datatype Slab =
    | Idle(pages: nat)                  // length of a free run, or 0 inside one
    | Start(pages: nat)                 // length of an allocated run with NGX_SLAB_PAGE_START
    | Busy                              // NGX_SLAB_PAGE_BUSY, inside an allocated run
    | Shift(shift: nat)                 // chunk shift; the bitmap is in the page
    | Map(used: Bits)                   // bitmap of a page of exact chunks
    | MapShift(used: Bits, shift: nat)  // bitmap and chunk shift

  datatype Owner = Free(head: nat) | Run(head: nat) | Chunks(shift: nat)

  datatype State = State(slab: seq<Slab>, kind: seq<Kind>, bitmap: seq<seq<Bits>>, owner: seq<Owner>)

  const SLOTS: nat := 9

  ghost predicate Sized(st: State) { |st.slab| == |st.kind| == |st.bitmap| == |st.owner| }

  /** The chunks of page `p` that are marked as taken, the reserved ones included. */
  ghost function Used(st: State, p: nat): Bits
    requires Sized(st) && p < |st.owner|
  {
    match st.slab[p]
    case Shift(_) => Marked(st.bitmap[p])
    case Map(u) => u
    case MapShift(u, _) => u
    case _ => {}
  }

  ghost predicate FullPage(st: State, p: nat, s: nat)
    requires Sized(st) && p < |st.owner| && IsShift(s)
  {
    Used(st, p) == Below(Count(s))
  }

  /** The header of a page of chunks of shift `s` uses the encoding for that size. */
  ghost predicate Encoded(st: State, p: nat, s: nat)
    requires Sized(st) && p < |st.owner| && IsShift(s)
  {
    if s < EXACT_SHIFT then
      st.kind[p] == SMALL && st.slab[p] == Shift(s) && |st.bitmap[p]| == Words(s) && IsBitmap(st.bitmap[p])
    else if s == EXACT_SHIFT then
      st.kind[p] == EXACT && st.slab[p].Map?
    else
      st.kind[p] == BIG && st.slab[p].MapShift? && st.slab[p].shift == s
  }

  ghost predicate ChunkPage(st: State, p: nat, s: nat)
    requires Sized(st) && p < |st.owner|
  {
    && IsShift(s) && Encoded(st, p, s)
    && Below(Reserved(s)) < Used(st, p) <= Below(Count(s))
  }

  /** Page `p` lies in the run that starts at `h`. */
  predicate InRun(st: State, h: nat, p: nat) {
    h < |st.slab| && (st.slab[h].Idle? || st.slab[h].Start?) && h <= p < h + st.slab[h].pages <= |st.slab|
  }

  ghost predicate PageOk(st: State, p: nat)
    requires Sized(st) && p < |st.owner|
  {
    match st.owner[p]
    case Chunks(s) => ChunkPage(st, p, s)
    case Run(h) =>
      InRun(st, h, p) && st.slab[h].Start? && st.owner[h] == Run(h) && st.kind[p] == PAGE_KIND && (p > h ==> st.slab[p] == Busy)
    case Free(h) =>
      InRun(st, h, p) && st.slab[h].Idle? && st.owner[h] == Free(h) && st.kind[p] == PAGE_KIND && (p > h ==> st.slab[p] == Idle(0))
  }

  /** `p` is the first page of a free or allocated run. */
  predicate IsHead(st: State, p: nat)
  {
    p < |st.owner| && (st.owner[p] == Run(p) || st.owner[p] == Free(p))
  }

  ghost predicate StateOk(st: State) {
    && Sized(st)
    && (forall p | 0 <= p < |st.owner| :: PageOk(st, p))
    && (forall h: nat, p: nat | IsHead(st, h) && InRun(st, h, p) :: st.owner[p] == st.owner[h])
  }

  /** The list a page belongs on: its slot while it has a free chunk, the free list for the head of a free run. */
  ghost function Home(st: State, p: nat): int
    requires Sized(st) && p < |st.owner|
  {
    match st.owner[p]
    case Chunks(s) => if IsShift(s) && !FullPage(st, p, s) then s - MIN_SHIFT else -1
    case Run(_) => -1
    case Free(h) => if h == p then SLOTS else -1
  }

  // --------------------------------------------------------------------- blocks

  /** A block of `len` bytes at offset `a` is handed out. */
  ghost predicate IsLive(st: State, a: nat, len: nat)
    requires Sized(st)
  {
    var p, off := a / PAGE, a % PAGE;
    && p < |st.owner|
    && match st.owner[p]
       case Free(_) => false
       case Run(h) => h == p && off == 0 && st.slab[p].Start? && len == st.slab[p].pages * PAGE
       case Chunks(s) => IsShift(s) && len == Size(s) && off % Size(s) == 0 && LiveChunk(st, p, s, off / Size(s))
  }

  ghost predicate LiveChunk(st: State, p: nat, s: nat, c: nat)
    requires Sized(st) && p < |st.owner| && IsShift(s)
  {
    c in Used(st, p) && Reserved(s) <= c
  }

  /** Chunk `c` of a page lies within the page, and its offset determines it. */
  lemma ChunkOffset(s: nat, c: nat)
    requires IsShift(s) && c < Count(s)
    ensures 0 <= c * Size(s) && c * Size(s) + Size(s) <= PAGE
    ensures (c * Size(s)) % Size(s) == 0 && (c * Size(s)) / Size(s) == c
  {
    hide Size, Count;
    assert Size(s) * Count(s) == PAGE by { Sizes(s); }
    Multiples(Size(s), Count(s), c);
  }

  lemma Multiples(z: nat, n: nat, c: nat)
    requires z > 0 && c < n
    ensures c * z + z <= z * n
    ensures (c * z) % z == 0 && (c * z) / z == c
  {
    assert (c + 1) * z <= n * z;
    QuotientUnique(c * z, z, c, 0);
  }

  lemma PageOffset(p: nat, off: nat)
    requires off < PAGE
    ensures (p * PAGE + off) / PAGE == p && (p * PAGE + off) % PAGE == off
  {
  }

  lemma MultipleGap(z: nat, x: nat, y: nat)
    requires z > 0 && x % z == 0 && y % z == 0 && x < y
    ensures x + z <= y
  {
    var i, j := x / z, y / z;
    assert x == i * z && y == j * z;
    Ordered(z, i, j);
  }

  lemma Ordered(z: nat, i: nat, j: nat)
    requires z > 0 && i * z < j * z
    ensures i < j && i * z + z <= j * z
  {
    assert (j - i) * z == j * z - i * z;
    MultipleBounds(j - i, z);
    MultipleBounds(i - j, z);
  }

  lemma Exact(x: nat, z: nat)
    requires z > 0 && x % z == 0
    ensures x == (x / z) * z
  {
  }

  /** A live chunk lies in its page behind the in-page bitmap, on a multiple of its size. */
  lemma LiveChunkInside(st: State, a: nat, len: nat)
    requires StateOk(st) && IsLive(st, a, len) && st.owner[a / PAGE].Chunks?
    ensures var p := a / PAGE;
      && IsShift(st.owner[p].shift) && len == Size(st.owner[p].shift) > 0
      && (a % PAGE) % len == 0 && a % PAGE + len <= PAGE
      && (st.kind[p] == SMALL ==> |st.bitmap[p]| * 8 <= a % PAGE)
  {
    hide Size, Count, Reserved, Words, Used;
    var p, off := a / PAGE, a % PAGE;
    var s := st.owner[p].shift;
    assert PageOk(st, p);
    var c := off / Size(s);
    Exact(off, Size(s));
    assert c in Below(Count(s));
    ChunkOffset(s, c);
    if s < EXACT_SHIFT {
      assert Words(s) * 8 <= Reserved(s) * Size(s) by { Sizes(s); }
      assert Reserved(s) * Size(s) <= c * Size(s) by { Scale(Reserved(s), c, Size(s)); }
    }
  }

  lemma Scale(i: nat, j: nat, z: nat)
    requires i <= j
    ensures i * z <= j * z
  {
  }

  /** A live run starts at a page and ends inside the pool. */
  lemma LiveRunInside(st: State, a: nat, len: nat)
    requires StateOk(st) && IsLive(st, a, len) && !st.owner[a / PAGE].Chunks?
    ensures var p := a / PAGE;
      && st.owner[p] == Run(p) && st.slab[p].Start? && a == p * PAGE && len == st.slab[p].pages * PAGE > 0
      && p + st.slab[p].pages <= |st.owner|
  {
    assert PageOk(st, a / PAGE);
  }

  /** Live blocks lie inside the pool and are aligned; chunks leave the in-page bitmap alone. */
  lemma LiveInside(st: State, a: nat, len: nat)
    requires StateOk(st) && IsLive(st, a, len)
    ensures 0 < len && a + len <= |st.owner| * PAGE
    ensures if len < PAGE then a % len == 0 else a % PAGE == 0 && len % PAGE == 0
    ensures var p := a / PAGE; st.kind[p] == SMALL ==> p * PAGE + |st.bitmap[p]| * 8 <= a
  {
    hide Size, Count, StateOk, IsLive;
    var p := a / PAGE;
    assert p < |st.owner| && Sized(st) by { InPool(st, a, len); }
    if st.owner[p].Chunks? {
      LiveChunkInside(st, a, len);
      assert (p + 1) * PAGE <= |st.owner| * PAGE;
      assert PAGE % len == 0 by { SizeDivides(st.owner[p].shift); }
      AlignedInPage(p, a % PAGE, len);
      assert len < PAGE by { SizeDivides(st.owner[p].shift); }
    } else {
      LiveRunInside(st, a, len);
      assert st.kind[p] == PAGE_KIND by { RunKind(st, p); }
      assert (p + st.slab[p].pages) * PAGE <= |st.owner| * PAGE;
    }
  }

  lemma InPool(st: State, a: nat, len: nat)
    requires StateOk(st) && IsLive(st, a, len)
    ensures Sized(st) && a / PAGE < |st.owner|
  {
  }

  lemma RunKind(st: State, p: nat)
    requires StateOk(st) && p < |st.owner| && st.owner[p] == Run(p)
    ensures st.kind[p] == PAGE_KIND
  {
    assert PageOk(st, p);
  }

  lemma SizeDivides(s: nat)
    requires IsShift(s)
    ensures 0 < Size(s) < PAGE && PAGE % Size(s) == 0
  {
    Sizes(s);
  }

  lemma AlignedInPage(p: nat, off: nat, z: nat)
    requires z > 0 && PAGE % z == 0 && off % z == 0
    ensures (p * PAGE + off) % z == 0
  {
    var k, j := PAGE / z, off / z;
    assert PAGE == k * z && off == j * z;
    assert p * PAGE + off == (p * k + j) * z;
    QuotientUnique(p * PAGE + off, z, p * k + j, 0);
  }

  /** Distinct live blocks do not overlap. */
  lemma LiveDisjoint(st: State, a: nat, len: nat, b: nat, m: nat)
    requires StateOk(st) && IsLive(st, a, len) && IsLive(st, b, m) && a <= b
    ensures if a == b then len == m else a + len <= b
  {
    hide Size, Count, StateOk, IsLive;
    InPool(st, a, len);
    InPool(st, b, m);
    var p, q := a / PAGE, b / PAGE;
    if st.owner[p].Chunks? {
      LiveChunkInside(st, a, len);
      if p == q && a < b {
        LiveChunkInside(st, b, m);
        MultipleGap(len, a % PAGE, b % PAGE);
      } else if a == b {
        LiveChunkInside(st, b, m);
      }
    } else {
      LiveRunInside(st, a, len);
      RunAlone(st, p, b, m);
    }
  }

  /** No live block starts inside an allocated run but the run itself. */
  lemma RunAlone(st: State, p: nat, b: nat, m: nat)
    requires StateOk(st) && p < |st.owner| && st.owner[p] == Run(p) && st.slab[p].Start? && IsLive(st, b, m) && p * PAGE <= b
    ensures if b == p * PAGE then m == st.slab[p].pages * PAGE else p * PAGE + st.slab[p].pages * PAGE <= b
  {
    var q, k := b / PAGE, st.slab[p].pages;
    assert PageOk(st, p);
    if q < p + k {
      assert InRun(st, p, q) && IsHead(st, p);
      assert st.owner[q] == Run(p);
    }
  }

  // ---------------------------------------------------------------- transitions

  ghost predicate SameSize(st: State, st': State) {
    Sized(st) && Sized(st') && |st'.owner| == |st.owner|
  }

  /** The first `k` pages of the free run at `h` are handed out; the rest stays a free run. */
  ghost predicate RunTaken(st: State, st': State, h: nat, k: nat)
    requires SameSize(st, st') && h < |st.owner| && st.slab[h].Idle?
  {
    var len := st.slab[h].pages;
    && st'.kind == st.kind && st'.bitmap == st.bitmap
    && forall x: nat | x < |st.owner| ::
         && st'.slab[x] == (if x == h then Start(k)
                            else if h < x < h + k then Busy
                            else if x == h + k && k < len then Idle(len - k)
                            else st.slab[x])
         && st'.owner[x] == (if h <= x < h + k then Run(h)
                             else if h + k <= x < h + len then Free(h + k)
                             else st.owner[x])
  }

  lemma RunOwner(st: State, h: nat, x: nat)
    requires StateOk(st) && IsHead(st, h)
    ensures InRun(st, h, x) ==> x < |st.owner| && st.owner[x] == st.owner[h]
  {
  }

  lemma FreeRunFits(st: State, h: nat)
    requires StateOk(st) && h < |st.owner| && st.owner[h] == Free(h)
    ensures st.slab[h].Idle? && 1 <= st.slab[h].pages && h + st.slab[h].pages <= |st.owner|
  {
    assert PageOk(st, h);
  }

  /** In a free run nothing outside is touched: runs do not overlap. */
  lemma OtherRun(st: State, h: nat, x: nat)
    requires StateOk(st) && IsHead(st, h) && x < |st.owner| && !InRun(st, h, x)
    ensures st.owner[x] != Run(h) && st.owner[x] != Free(h)
    ensures !st.owner[x].Chunks? ==> IsHead(st, st.owner[x].head) && !InRun(st, h, st.owner[x].head)
  {
    assert PageOk(st, x);
    if !st.owner[x].Chunks? {
      var g := st.owner[x].head;
      RunOwner(st, h, g);
    }
  }

  lemma RunTakenOk(st: State, st': State, h: nat, k: nat)
    requires StateOk(st) && SameSize(st, st') && h < |st.owner| && st.owner[h] == Free(h)
    requires st.slab[h].Idle? && 1 <= k <= st.slab[h].pages && RunTaken(st, st', h, k)
    ensures StateOk(st')
  {
    hide Used, Encoded;
    assert PageOk(st, h) && IsHead(st, h);
    var len := st.slab[h].pages;
    forall x: nat | x < |st.owner| ensures PageOk(st', x) {
      assert PageOk(st, x);
      if InRun(st, h, x) {
        assert st.owner[x] == Free(h);
      } else {
        OtherRun(st, h, x);
        UntouchedPage(st, st', x);
      }
    }
    forall g: nat, x: nat | IsHead(st', g) && InRun(st', g, x) ensures st'.owner[x] == st'.owner[g] {
      if !InRun(st, h, g) {
        assert IsHead(st, g) && InRun(st, g, x);
        assert st.owner[x] == st.owner[g];
        RunOwner(st, h, x);
      }
    }
  }

  /** A page whose own header and whose run head's header are unchanged stays right. */
  lemma UntouchedPage(st: State, st': State, x: nat)
    requires SameSize(st, st') && x < |st.owner| && PageOk(st, x)
    requires st'.owner[x] == st.owner[x] && st'.slab[x] == st.slab[x] && st'.kind[x] == st.kind[x] && st'.bitmap[x] == st.bitmap[x]
    requires !st.owner[x].Chunks? ==>
        var g := st.owner[x].head; g < |st.owner| && st'.owner[g] == st.owner[g] && st'.slab[g] == st.slab[g]
    ensures PageOk(st', x)
  {
  }

  /** Taking a run adds exactly one live block. */
  lemma RunTakenLive(st: State, st': State, h: nat, k: nat, a: nat, len: nat)
    requires StateOk(st) && SameSize(st, st') && h < |st.owner| && st.owner[h] == Free(h)
    requires st.slab[h].Idle? && 1 <= k <= st.slab[h].pages && RunTaken(st, st', h, k)
    ensures IsLive(st', a, len) <==> IsLive(st, a, len) || (a == h * PAGE && len == k * PAGE)
    ensures !IsLive(st, h * PAGE, k * PAGE)
  {
    hide Used, LiveChunk;
    PageOffset(h, 0);
    assert PageOk(st, h) && IsHead(st, h);
    var p := a / PAGE;
    if p < |st.owner| {
      assert PageOk(st, p);
      assert InRun(st, h, p) ==> st.owner[p] == Free(h);
      if !InRun(st, h, p) && st.owner[p].Chunks? { SameUsed(st, st', p, st.owner[p].shift); }
    }
  }

  lemma SameUsed(st: State, st': State, p: nat, s: nat)
    requires SameSize(st, st') && p < |st.owner|
    requires st'.slab[p] == st.slab[p] && st'.bitmap[p] == st.bitmap[p]
    ensures Used(st', p) == Used(st, p)
    ensures IsShift(s) ==> forall c: nat :: LiveChunk(st', p, s, c) <==> LiveChunk(st, p, s, c)
  {
  }

  lemma RunTakenHome(st: State, st': State, h: nat, k: nat, x: nat)
    requires StateOk(st) && SameSize(st, st') && h < |st.owner| && st.owner[h] == Free(h) && x < |st.owner|
    requires st.slab[h].Idle? && 1 <= k <= st.slab[h].pages && RunTaken(st, st', h, k)
    ensures Home(st', x) == if x == h then -1
                            else if x == h + k && k < st.slab[h].pages then SLOTS
                            else Home(st, x)
    ensures Home(st, h) == SLOTS && (h < x < h + st.slab[h].pages ==> Home(st, x) == -1)
  {
    assert PageOk(st, h) && IsHead(st, h) && PageOk(st, x);
    assert InRun(st, h, x) ==> st.owner[x] == Free(h);
    SameUsedOutside(st, st', h, k, x);
  }

  lemma SameUsedOutside(st: State, st': State, h: nat, k: nat, x: nat)
    requires SameSize(st, st') && h < |st.owner| && x < |st.owner| && st.slab[h].Idle? && RunTaken(st, st', h, k)
    ensures !(h <= x <= h + k) ==> Used(st', x) == Used(st, x)
  {
  }

  /** The run at `h`, or the single page of chunks there, becomes a free run of `k` pages. */
  ghost predicate RunReturned(st: State, st': State, h: nat, k: nat)
    requires SameSize(st, st')
  {
    forall x: nat | x < |st.owner| ::
      && (x != h ==> st'.bitmap[x] == st.bitmap[x])
      && st'.slab[x] == (if x == h then Idle(k) else if h < x < h + k then Idle(0) else st.slab[x])
      && st'.kind[x] == (if h <= x < h + k then PAGE_KIND else st.kind[x])
      && st'.owner[x] == (if h <= x < h + k then Free(h) else st.owner[x])
  }

  /** `k` pages at `h` are one allocated run or one page of chunks. */
  predicate Returnable(st: State, h: nat, k: nat) {
    && h < |st.owner| && h < |st.slab| && 1 <= k
    && ((st.owner[h] == Run(h) && st.slab[h] == Start(k)) || (st.owner[h].Chunks? && k == 1))
  }

  lemma ReturnableRange(st: State, h: nat, k: nat, x: nat)
    requires StateOk(st) && Returnable(st, h, k) && x < |st.owner|
    ensures h + k <= |st.owner|
    ensures h < x < h + k ==> st.owner[x] == Run(h)
    ensures !(h <= x < h + k) && !st.owner[x].Chunks? ==>
        var g := st.owner[x].head; IsHead(st, g) && !(h <= g < h + k)
  {
    assert PageOk(st, h) && PageOk(st, x);
    if st.owner[h] == Run(h) {
      assert IsHead(st, h);
      assert InRun(st, h, x) ==> st.owner[x] == Run(h);
      if !(h <= x < h + k) { OtherRun(st, h, x); }
    }
  }

  lemma RunReturnedOk(st: State, st': State, h: nat, k: nat)
    requires StateOk(st) && SameSize(st, st') && Returnable(st, h, k) && RunReturned(st, st', h, k)
    ensures StateOk(st')
  {
    hide Used, Encoded;
    ReturnableRange(st, h, k, h);
    forall x: nat | x < |st.owner| ensures PageOk(st', x) {
      assert PageOk(st, x);
      ReturnableRange(st, h, k, x);
      if !(h <= x < h + k) { UntouchedPage(st, st', x); }
    }
    forall g: nat, x: nat | IsHead(st', g) && InRun(st', g, x) ensures st'.owner[x] == st'.owner[g] {
      ReturnableRange(st, h, k, g);
      if !(h <= g < h + k) {
        assert IsHead(st, g) && InRun(st, g, x);
        assert st.owner[x] == st.owner[g];
        ReturnableRange(st, h, k, x);
      }
    }
  }

  lemma RunReturnedHome(st: State, st': State, h: nat, k: nat, x: nat)
    requires StateOk(st) && SameSize(st, st') && Returnable(st, h, k) && RunReturned(st, st', h, k) && x < |st.owner|
    ensures Home(st', x) == if x == h then SLOTS else if h < x < h + k then -1 else Home(st, x)
    ensures h < x < h + k ==> Home(st, x) == -1
  {
    ReturnableRange(st, h, k, x);
    if !(h <= x < h + k) { SameUsed(st, st', x, 0); }
  }

  /** Returning a run or an empty page of chunks leaves all live blocks outside it alone. */
  lemma RunReturnedLive(st: State, st': State, h: nat, k: nat, a: nat, len: nat)
    requires StateOk(st) && SameSize(st, st') && Returnable(st, h, k) && RunReturned(st, st', h, k)
    ensures IsLive(st', a, len) <==> IsLive(st, a, len) && a / PAGE != h
  {
    hide Used, LiveChunk;
    var p := a / PAGE;
    if p < |st.owner| {
      ReturnableRange(st, h, k, p);
      assert PageOk(st, p);
      if !(h <= p < h + k) && st.owner[p].Chunks? { SameUsed(st, st', p, st.owner[p].shift); }
    }
  }

  /** Only page `p` differs. */
  ghost predicate OnlyPage(st: State, st': State, p: nat)
    requires SameSize(st, st')
  {
    forall x: nat | x < |st.owner| && x != p ::
      st'.slab[x] == st.slab[x] && st'.kind[x] == st.kind[x] && st'.bitmap[x] == st.bitmap[x] && st'.owner[x] == st.owner[x]
  }

  /** A page of chunks, or a one-page run that becomes one, may change its bitmap. */
  lemma ChunkSetOk(st: State, st': State, p: nat, s: nat)
    requires StateOk(st) && SameSize(st, st') && Returnable(st, p, 1) && OnlyPage(st, st', p)
    requires st'.owner[p] == Chunks(s) && ChunkPage(st', p, s)
    ensures StateOk(st')
  {
    hide Used, Encoded;
    forall x: nat | x < |st.owner| ensures PageOk(st', x) {
      assert PageOk(st, x);
      ReturnableRange(st, p, 1, x);
      if x != p { UntouchedPage(st, st', x); }
    }
    forall g: nat, x: nat | IsHead(st', g) && InRun(st', g, x) ensures st'.owner[x] == st'.owner[g] {
      assert g != p;
      assert IsHead(st, g) && InRun(st, g, x);
      assert st.owner[x] == st.owner[g];
      ReturnableRange(st, p, 1, x);
    }
  }

  lemma OnlyPageLive(st: State, st': State, p: nat, a: nat, len: nat)
    requires SameSize(st, st') && OnlyPage(st, st', p) && a / PAGE != p
    ensures IsLive(st', a, len) <==> IsLive(st, a, len)
  {
  }

  lemma OnlyPageHome(st: State, st': State, p: nat, x: nat)
    requires SameSize(st, st') && OnlyPage(st, st', p) && x != p && x < |st.owner|
    ensures Home(st', x) == Home(st, x)
  {
  }

  /** The live blocks of a page of chunks are its marked chunks behind the reserved ones. */
  lemma ChunkLive(st: State, p: nat, s: nat, a: nat, len: nat)
    requires Sized(st) && p < |st.owner| && st.owner[p] == Chunks(s) && IsShift(s) && Used(st, p) <= Below(Count(s))
    requires a / PAGE == p
    ensures IsLive(st, a, len) <==> exists c :: c in Used(st, p) && Reserved(s) <= c && BlockOf(p, s, c, a, len)
  {
    hide Used, Count;
    var off := a % PAGE;
    var c := off / Size(s);
    if IsLive(st, a, len) {
      Exact(off, Size(s));
      assert BlockOf(p, s, c, a, len);
    }
    forall c | c in Used(st, p) && Reserved(s) <= c && BlockOf(p, s, c, a, len) ensures IsLive(st, a, len) {
      ChunkOffset(s, c);
      PageOffset(p, c * Size(s));
    }
  }

  predicate BlockOf(p: nat, s: nat, c: nat, a: nat, len: nat) {
    a == p * PAGE + c * Size(s) && len == Size(s)
  }

  lemma SameBlock(p: nat, s: nat, c: nat, d: nat, a: nat, len: nat)
    requires BlockOf(p, s, c, a, len) && BlockOf(p, s, d, a, len)
    ensures c == d
  {
    QuotientUnique(c * Size(s), Size(s), c, 0);
    QuotientUnique(d * Size(s), Size(s), d, 0);
  }

  // --------------------------------------------------------------- conservation

  /** Lengths, as their headers give them, of the free runs that start before page `k`. */
  ghost function FreeLengths(st: State, k: nat): nat
    requires Sized(st) && k <= |st.owner|
  {
    if k == 0 then 0
    else FreeLengths(st, k - 1) + if st.owner[k - 1] == Free(k - 1) && st.slab[k - 1].Idle? then st.slab[k - 1].pages else 0
  }

  /** Pages before `k` that are handed out, whole or as chunks. */
  ghost function BusyPages(st: State, k: nat): nat
    requires Sized(st) && k <= |st.owner|
  {
    if k == 0 then 0 else BusyPages(st, k - 1) + if st.owner[k - 1].Free? then 0 else 1
  }

  /** Pages from `k` on that belong to a free run starting before `k`. */
  ghost function Overhang(st: State, k: nat): nat
    requires StateOk(st) && k <= |st.owner|
  {
    if k < |st.owner| && st.owner[k].Free? && st.owner[k].head != k then
      assert PageOk(st, k);
      st.owner[k].head + st.slab[st.owner[k].head].pages - k
    else 0
  }

  lemma {:induction false} PagesCounted(st: State, k: nat)
    requires StateOk(st) && k <= |st.owner|
    ensures FreeLengths(st, k) + BusyPages(st, k) == k + Overhang(st, k)
  {
    hide Used, Encoded;
    if k > 0 {
      var p := k - 1;
      PagesCounted(st, p);
      OverhangAfter(st, p);
      assert PageOk(st, p);
      assert Overhang(st, p) == if st.owner[p].Free? && st.owner[p].head != p then st.owner[p].head + FreeLength(st, st.owner[p].head) - p else 0;
    } else if |st.owner| > 0 {
      assert PageOk(st, 0);
    }
  }

  /** A page's run goes on at the next page exactly while its length lasts. */
  lemma OverhangAfter(st: State, p: nat)
    requires StateOk(st) && p < |st.owner|
    ensures Overhang(st, p + 1) == if st.owner[p].Free? then st.owner[p].head + FreeLength(st, st.owner[p].head) - (p + 1) else 0
  {
    hide Used, Encoded;
    assert PageOk(st, p);
    if p + 1 < |st.owner| && st.owner[p + 1].Free? {
      assert PageOk(st, p + 1);
      var g := st.owner[p + 1].head;
      assert IsHead(st, g);
      if g <= p { RunOwner(st, g, p); }
    }
    if st.owner[p].Free? {
      assert IsHead(st, st.owner[p].head);
      RunOwner(st, st.owner[p].head, p + 1);
    }
  }

  ghost function FreeLength(st: State, h: nat): nat
  {
    if h < |st.slab| && st.slab[h].Idle? then st.slab[h].pages else 0
  }

  /** The lengths of the free runs and the pages in use sum to the size of the pool. */
  lemma Conservation(st: State)
    requires StateOk(st)
    ensures FreeLengths(st, |st.owner|) + BusyPages(st, |st.owner|) == |st.owner|
  {
    PagesCounted(st, |st.owner|);
  }
}
