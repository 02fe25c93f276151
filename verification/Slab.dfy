/**
 The slab allocator of ngx_slab.c: page headers, chunk bitmaps, slot lists and the list of free
 runs, updated in place.  Addresses are offsets from the page-aligned start of the pool.
 */
module SlabPool {
  import opened Arithmetic
  import opened SlabBits
  import opened SlabState
  import opened SlabRings
  import opened Wrappers
  import MachineWords = Words

  /** Page `x` is on list `k` exactly when it belongs there. */
  ghost predicate AtHome(st: State, lists: seq<seq<nat>>, k: nat, x: nat)
    requires Sized(st) && k < |lists|
  {
    x in lists[k] <==> x < |st.owner| && Home(st, x) == k
  }

  ghost predicate Unlinked(st: State, next: Links, x: nat)
    requires Sized(st) && x < |st.owner| <= |next|
  {
    Home(st, x) == -1 ==> next[x] == NULL
  }

  /** Every page is on the list it belongs on and on no other; a page on no list has no successor. */
  ghost predicate Homed(st: State, lists: seq<seq<nat>>, next: Links)
    requires Sized(st) && |st.owner| <= |next|
  {
    && |lists| == SLOTS + 1
    && (forall k: nat, x: nat | k <= SLOTS :: AtHome(st, lists, k, x))
    && (forall x: nat | x < |st.owner| :: Unlinked(st, next, x))
  }

  lemma HomedAt(st: State, lists: seq<seq<nat>>, next: Links, k: nat, x: nat)
    requires Sized(st) && |st.owner| <= |next| && Homed(st, lists, next) && k <= SLOTS
    ensures x in lists[k] <==> x < |st.owner| && Home(st, x) == k
    ensures x < |st.owner| && Home(st, x) == -1 ==> next[x] == NULL
  {
    assert AtHome(st, lists, k, x);
    if x < |st.owner| { assert Unlinked(st, next, x); }
  }

  /** As `Homed`, leaving page `p` out. */
  ghost predicate HomedBut(st: State, lists: seq<seq<nat>>, next: Links, p: nat)
    requires Sized(st) && |st.owner| <= |next|
  {
    && |lists| == SLOTS + 1
    && (forall k: nat, x: nat | k <= SLOTS && x != p :: AtHome(st, lists, k, x))
    && (forall x: nat | x < |st.owner| && x != p :: Unlinked(st, next, x))
  }

  lemma HomedButAt(st: State, lists: seq<seq<nat>>, next: Links, p: nat, k: nat, x: nat)
    requires Sized(st) && |st.owner| <= |next| && HomedBut(st, lists, next, p) && k <= SLOTS && x != p
    ensures x in lists[k] <==> x < |st.owner| && Home(st, x) == k
    ensures x < |st.owner| && Home(st, x) == -1 ==> next[x] == NULL
  {
    assert AtHome(st, lists, k, x);
    if x < |st.owner| { assert Unlinked(st, next, x); }
  }

  lemma InsideUnlisted(st: State, lists: seq<seq<nat>>, next: Links, h: nat, k: nat)
    requires StateOk(st) && Returnable(st, h, k) && |st.owner| <= |next| && HomedBut(st, lists, next, h)
    ensures forall x: nat | h < x < h + k :: !Listed(lists, x)
  {
    ReturnableRange(st, h, k, h);
    forall x: nat | h < x < h + k ensures !Listed(lists, x) {
      ReturnableRange(st, h, k, x);
      forall j | 0 <= j < |lists| ensures x !in lists[j] { HomedButAt(st, lists, next, h, j, x); }
    }
  }

  /** Clearing successor links keeps pages unlinked. */
  lemma HomedButKept(st: State, lists: seq<seq<nat>>, next: Links, next': Links, p: nat)
    requires Sized(st) && |st.owner| <= |next| && |st.owner| <= |next'| && HomedBut(st, lists, next, p)
    requires forall x: nat | x < |st.owner| && x != p && next[x] == NULL :: next'[x] == NULL
    ensures HomedBut(st, lists, next', p)
  {
    hide Home, AtHome;
    forall x: nat | x < |st.owner| && x != p ensures Unlinked(st, next', x) { assert Unlinked(st, next, x); }
  }

  lemma UnlinkHomedBut(st: State, lists: seq<seq<nat>>, next: Links, lists': seq<seq<nat>>, next': Links, p: nat, k: nat, i: nat)
    requires Sized(st) && |st.owner| <= |next| && |st.owner| <= |next'| && HomedBut(st, lists, next, p)
    requires k <= SLOTS && i < |lists[k]| && lists[k][i] == p
    requires forall a, b | 0 <= a < b < |lists[k]| :: lists[k][a] != lists[k][b]
    requires lists' == lists[k := Skip(lists[k], i)]
    requires forall x: nat | x < |st.owner| && next[x] == NULL :: next'[x] == NULL
    ensures HomedBut(st, lists', next', p)
  {
    hide Home, Skip;
    SkipMembersOf(lists[k], i);
    forall j: nat, x: nat | j <= SLOTS && x != p ensures AtHome(st, lists', j, x) {
      HomedButAt(st, lists, next, p, j, x);
    }
    forall x: nat | x < |st.owner| && x != p ensures Unlinked(st, next', x) { HomedButAt(st, lists, next, p, 0, x); }
  }

  /** The lists after the pages at `h` became a free run at the front of the free list. */
  lemma ReturnedHomed(st: State, st': State, lists: seq<seq<nat>>, next: Links, lists': seq<seq<nat>>, next': Links, h: nat, k: nat)
    requires StateOk(st) && SameSize(st, st') && Returnable(st, h, k) && RunReturned(st, st', h, k)
    requires |st.owner| <= |next| && |st.owner| <= |next'|
    requires HomedBut(st, lists, next, h) && (forall j | 0 <= j <= SLOTS :: h !in lists[j])
    requires lists' == lists[SLOTS := [h] + lists[SLOTS]]
    requires forall x: nat | x < |st.owner| && x != h && (next[x] == NULL || h < x < h + k) :: next'[x] == NULL
    ensures Homed(st', lists', next')
  {
    hide StateOk, RunReturned, Home;
    forall x: nat | x < |st.owner|
      ensures Home(st', x) == if x == h then SLOTS else if h < x < h + k then -1 else Home(st, x)
      ensures h < x < h + k ==> Home(st, x) == -1
    {
      RunReturnedHome(st, st', h, k, x);
    }
    assert h < |st.owner|;
    forall j: nat, x: nat | j <= SLOTS ensures AtHome(st', lists', j, x) {
      if x != h { HomedButAt(st, lists, next, h, j, x); }
    }
    forall x: nat | x < |st.owner| ensures Unlinked(st', next', x) {
      if x != h { HomedButAt(st, lists, next, h, 0, x); }
    }
  }

  /** The lists after `k` pages of the free run at position `i` of the free list were taken. */
  lemma TakenHomed(st: State, st': State, lists: seq<seq<nat>>, next: Links, lists': seq<seq<nat>>, next': Links, i: nat, k: nat)
    requires StateOk(st) && SameSize(st, st') && |st.owner| <= |next| && |st.owner| <= |next'| && Homed(st, lists, next)
    requires i < |lists[SLOTS]| && lists[SLOTS][i] < |st.owner| && 1 <= k
    requires forall a, b | 0 <= a < b < |lists[SLOTS]| :: lists[SLOTS][a] != lists[SLOTS][b]
    requires var h := lists[SLOTS][i];
      && st.slab[h].Idle? && st.owner[h] == Free(h) && k <= st.slab[h].pages && RunTaken(st, st', h, k)
      && lists' == lists[SLOTS := if k < st.slab[h].pages then Put(lists[SLOTS], i, h + k) else Skip(lists[SLOTS], i)]
      && (forall x: nat | x < |st.owner| && h <= x < h + k :: next'[x] == NULL)
      && (forall x: nat | x < |st.owner| && next[x] == NULL && x != h + k :: next'[x] == NULL)
      && (k == st.slab[h].pages ==> forall x: nat | x < |st.owner| && next[x] == NULL :: next'[x] == NULL)
    ensures Homed(st', lists', next')
  {
    hide StateOk, RunTaken;
    var h, l := lists[SLOTS][i], lists[SLOTS];
    forall x: nat | x < |st.owner| ensures
      && Home(st', x) == (if x == h then -1 else if x == h + k && k < st.slab[h].pages then SLOTS else Home(st, x))
      && (h < x < h + st.slab[h].pages ==> Home(st, x) == -1)
    {
      RunTakenHome(st, st', h, k, x);
    }
    if k < st.slab[h].pages {
      FreeRunFits(st, h);
      HomedAt(st, lists, next, SLOTS, h + k);
      assert h + k !in l;
      PutMembers(l, i, h + k);
    } else {
      SkipMembersOf(l, i);
    }
    forall j: nat, x: nat | j <= SLOTS ensures AtHome(st', lists', j, x) {
      HomedAt(st, lists, next, j, x);
    }
    forall x: nat | x < |st.owner| ensures Unlinked(st', next', x) {
      HomedAt(st, lists, next, 0, x);
    }
  }

  lemma PutMembers(l: seq<nat>, i: nat, x: nat)
    requires i < |l| && forall a, b | 0 <= a < b < |l| :: l[a] != l[b]
    ensures x !in l ==> forall z :: z in Put(l, i, x) <==> (z in l && z != l[i]) || z == x
  {
    var r := Put(l, i, x);
    assert r[i] == x;
    forall z | z in l && z != l[i] ensures z in r {
      var j :| 0 <= j < |l| && l[j] == z;
      assert r[j] == z;
    }
  }

  lemma SkipMembersOf(l: seq<nat>, i: nat)
    requires i < |l| && forall a, b | 0 <= a < b < |l| :: l[a] != l[b]
    ensures forall z :: z in Skip(l, i) <==> z in l && z != l[i]
  {
    SkipAt(l, i);
    forall z | z in l && z != l[i] ensures z in Skip(l, i) {
      var j :| 0 <= j < |l| && l[j] == z;
      assert Skip(l, i)[if j < i then j else j - 1] == z;
    }
  }

  ghost predicate Takes(st: State, h: nat, k: nat) {
    && Sized(st) && h < |st.owner| && st.owner[h] == Free(h) && st.slab[h].Idle? && 1 <= k <= st.slab[h].pages
    && h + st.slab[h].pages <= |st.owner|
  }

  lemma StillUnlisted(lists: seq<seq<nat>>, lists': seq<seq<nat>>, i: nat, k: nat, len: nat)
    requires |lists| == SLOTS + 1 && i < |lists[SLOTS]| && 1 <= k <= len
    requires forall a, b | 0 <= a < b < |lists[SLOTS]| :: lists[SLOTS][a] != lists[SLOTS][b]
    requires var h := lists[SLOTS][i];
      && (forall x: nat | h < x < h + len :: !Listed(lists, x))
      && lists' == lists[SLOTS := if k < len then Put(lists[SLOTS], i, h + k) else Skip(lists[SLOTS], i)]
    ensures var h := lists[SLOTS][i]; forall x: nat | h < x < h + k :: !Listed(lists', x)
  {
    var h, l := lists[SLOTS][i], lists[SLOTS];
    if k < len {
      assert !Listed(lists, h + k);
      assert h + k !in l;
      PutMembers(l, i, h + k);
    } else {
      SkipMembersOf(l, i);
    }
    forall x: nat | h < x < h + k ensures !Listed(lists', x) {
      assert !Listed(lists, x);
      forall j | 0 <= j < |lists'| ensures x !in lists'[j] { assert x !in lists[j]; }
    }
  }

  /** Exactly one block was added. */
  ghost predicate Adds(st: State, st': State, a: nat, len: nat)
    requires Sized(st) && Sized(st')
  {
    !IsLive(st, a, len) && forall b: nat, m: nat :: IsLive(st', b, m) <==> IsLive(st, b, m) || (b == a && m == len)
  }

  /** A request for `size` bytes cannot be served. */
  ghost predicate NoRoom(st: State, size: nat)
    requires Sized(st)
  {
    if size >= MAX_SIZE then
      forall x: nat | x < |st.owner| && st.owner[x] == Free(x) :: st.slab[x].Idle? && st.slab[x].pages < PagesFor(size)
    else
      && (forall x: nat | x < |st.owner| :: st.owner[x] != Free(x))
      && exists s :: Serves(s, size) && forall x: nat | x < |st.owner| && st.owner[x] == Chunks(s) :: FullPage(st, x, s)
  }

  /** Pages for `size` bytes. */
  function PagesFor(size: nat): nat { size / PAGE + if size % PAGE != 0 then 1 else 0 }

  /** Chunks of shift `s` are the smallest that hold `size` bytes. */
  predicate Serves(s: nat, size: nat) {
    IsShift(s) && size <= Size(s) && (s > MIN_SHIFT ==> Size(s - 1) < size)
  }

  /** Exactly the block at `a` was removed. */
  ghost predicate Removes(st: State, st': State, a: nat)
    requires Sized(st) && Sized(st')
  {
    forall b: nat, m: nat :: IsLive(st', b, m) <==> IsLive(st, b, m) && b != a
  }

  lemma BackHome(st: State, st': State, lists: seq<seq<nat>>, next: Links, p: nat)
    requires SameSize(st, st') && OnlyPage(st, st', p) && |st.owner| <= |next| && HomedBut(st, lists, next, p) && p < |st.owner|
    requires forall j | 0 <= j <= SLOTS :: p in lists[j] <==> Home(st', p) == j
    requires Home(st', p) == -1 ==> next[p] == NULL
    ensures Homed(st', lists, next)
  {
    hide Home;
    forall x: nat | x < |st.owner| && x != p ensures Home(st', x) == Home(st, x) { OnlyPageHome(st, st', p, x); }
    forall j: nat, x: nat | j <= SLOTS ensures AtHome(st', lists, j, x) {
      if x != p { HomedButAt(st, lists, next, p, j, x); }
    }
    forall x: nat | x < |st.owner| ensures Unlinked(st', next, x) {
      if x != p { HomedButAt(st, lists, next, p, 0, x); }
    }
  }

  lemma ButHome(st: State, lists: seq<seq<nat>>, next: Links, p: nat)
    requires Sized(st) && |st.owner| <= |next| && Homed(st, lists, next)
    ensures HomedBut(st, lists, next, p)
  {
    forall j: nat, x: nat | j <= SLOTS && x != p ensures AtHome(st, lists, j, x) {
      HomedAt(st, lists, next, j, x);
    }
  }

  /** Marking a chunk of a page makes it live. */
  lemma ChunkAdds(st: State, st': State, p: nat, s: nat, c: nat)
    requires StateOk(st) && SameSize(st, st') && OnlyPage(st, st', p) && p < |st.owner|
    requires st.owner[p] == st'.owner[p] == Chunks(s) && IsShift(s)
    requires Used(st', p) == Used(st, p) + {c} && c !in Used(st, p) && Reserved(s) <= c < Count(s)
    ensures Adds(st, st', p * PAGE + c * Size(s), Size(s))
  {
    hide Used, Size, Count, Below;
    assert PageOk(st, p);
    var a, len := p * PAGE + c * Size(s), Size(s);
    ChunkOffset(s, c);
    PageOffset(p, c * Size(s));
    UsedInPage(st, p, s);
    assert Used(st', p) <= Below(Count(s)) by { BelowContains(Count(s), c); }
    forall b: nat, m: nat
      ensures IsLive(st', b, m) <==> IsLive(st, b, m) || (b == a && m == len)
      ensures b == a && m == len ==> !IsLive(st, b, m)
    {
      if b / PAGE != p { OnlyPageLive(st, st', p, b, m); } else {
        ChunkLive(st, p, s, b, m);
        ChunkLive(st', p, s, b, m);
        assert b == a && m == len ==> BlockOf(p, s, c, b, m);
        forall d | d in Used(st', p) && BlockOf(p, s, d, b, m) ensures d == c <==> b == a && m == len {
          if b == a && m == len { SameBlock(p, s, c, d, b, m); }
        }
      }
    }
  }

  lemma BelowContains(n: nat, c: nat)
    ensures c in Below(n) <==> c < n
  {
  }

  lemma BelowGrows(c: nat, m: nat)
    requires c < m
    ensures Below(c) < Below(c + 1) <= Below(m) && (c + 1 < m ==> Below(c + 1) != Below(m)) && Below(c) != Below(m)
  {
    BelowContains(c, c);
    BelowContains(c + 1, c);
    BelowContains(c + 1, c + 1);
    BelowContains(m, c + 1);
    BelowContains(m, c);
  }

  lemma UsedInPage(st: State, p: nat, s: nat)
    requires StateOk(st) && p < |st.owner| && st.owner[p] == Chunks(s)
    ensures Sized(st) && IsShift(s) && Encoded(st, p, s) && Below(Reserved(s)) < Used(st, p) <= Below(Count(s))
  {
    assert PageOk(st, p);
  }

  lemma MarkedOk(st: State, st': State, p: nat, s: nat, c: nat)
    requires StateOk(st) && SameSize(st, st') && OnlyPage(st, st', p) && p < |st.owner|
    requires st.owner[p] == st'.owner[p] == Chunks(s) && IsShift(s) && Encoded(st', p, s)
    requires Used(st', p) == Used(st, p) + {c} && c < Count(s)
    ensures StateOk(st')
  {
    hide Used, Encoded, Count, Below, StateOk, Reserved;
    UsedInPage(st, p, s);
    BelowContains(Count(s), c);
    ChunkSetOk(st, st', p, s);
  }

  /** A page taken as a run and turned into a page with one live chunk adds that chunk only. */
  lemma FreshChunkAdds(st0: State, st1: State, st2: State, h: nat, s: nat, c: nat)
    requires StateOk(st0) && SameSize(st0, st1) && SameSize(st1, st2) && Takes(st0, h, 1) && RunTaken(st0, st1, h, 1)
    requires OnlyPage(st1, st2, h) && st2.owner[h] == Chunks(s) && IsShift(s)
    requires c == Reserved(s) < Count(s) && Used(st2, h) == Below(c + 1)
    ensures Adds(st0, st2, h * PAGE + c * Size(s), Size(s))
  {
    hide Used, Size, Count, StateOk, RunTaken, IsLive;
    var a, len := h * PAGE + c * Size(s), Size(s);
    ChunkOffset(s, c);
    PageOffset(h, c * Size(s));
    forall b: nat, m: nat
      ensures IsLive(st2, b, m) <==> IsLive(st0, b, m) || (b == a && m == len)
      ensures b == a && m == len ==> !IsLive(st0, b, m)
    {
      RunTakenLive(st0, st1, h, 1, b, m);
      PageOffset(h, 0);
      if b / PAGE != h {
        OnlyPageLive(st1, st2, h, b, m);
      } else {
        FreeNotLive(st0, h, b, m);
        ChunkLive(st2, h, s, b, m);
        assert b == a && m == len ==> BlockOf(h, s, c, b, m);
      }
    }
  }

  lemma FreeNotLive(st: State, h: nat, a: nat, len: nat)
    requires Sized(st) && h < |st.owner| && st.owner[h].Free? && a / PAGE == h
    ensures !IsLive(st, a, len)
  {
  }

  /** A page of the right chunk size that is not full has room. */
  lemma HasRoom(st: State, size: nat, s: nat, x: nat)
    requires Sized(st) && size < MAX_SIZE && Serves(s, size) && x < |st.owner| && st.owner[x] == Chunks(s) && !FullPage(st, x, s)
    ensures !NoRoom(st, size)
  {
    forall t: nat | Serves(t, size) ensures t == s {
      if t < s - 1 { SizeMonotone(t, s - 1); }
      if s < t - 1 { SizeMonotone(s, t - 1); }
    }
  }

  /** Clearing a chunk of a page that keeps others removes just that block. */
  lemma ChunkRemoves(st: State, st': State, p: nat, s: nat, c: nat)
    requires StateOk(st) && SameSize(st, st') && OnlyPage(st, st', p) && p < |st.owner|
    requires st.owner[p] == st'.owner[p] == Chunks(s) && IsShift(s)
    requires Used(st', p) == Used(st, p) - {c} && c in Used(st, p) && Reserved(s) <= c < Count(s)
    ensures Removes(st, st', p * PAGE + c * Size(s))
  {
    hide Used, Size, Count, Below, StateOk, IsLive;
    var a := p * PAGE + c * Size(s);
    ChunkOffset(s, c);
    PageOffset(p, c * Size(s));
    UsedInPage(st, p, s);
    forall b: nat, m: nat ensures IsLive(st', b, m) <==> IsLive(st, b, m) && b != a {
      if b / PAGE != p { OnlyPageLive(st, st', p, b, m); } else {
        ChunkLive(st, p, s, b, m);
        ChunkLive(st', p, s, b, m);
        forall d | d in Used(st, p) && BlockOf(p, s, d, b, m) ensures d == c <==> b == a {
          if b == a {
            assert BlockOf(p, s, c, b, m);
            SameBlock(p, s, c, d, b, m);
          }
        }
      }
    }
  }

  /** Giving back the page of the last live chunk removes just that block. */
  lemma LastChunkRemoves(st: State, st': State, p: nat, s: nat, c: nat)
    requires StateOk(st) && SameSize(st, st') && Returnable(st, p, 1) && RunReturned(st, st', p, 1)
    requires st.owner[p] == Chunks(s) && IsShift(s)
    requires c in Used(st, p) && Used(st, p) - {c} <= Below(Reserved(s)) && Reserved(s) <= c < Count(s)
    ensures Removes(st, st', p * PAGE + c * Size(s))
  {
    hide Used, Size, Count, StateOk, IsLive, RunReturned, Reserved;
    var a := p * PAGE + c * Size(s);
    ChunkOffset(s, c);
    PageOffset(p, c * Size(s));
    UsedInPage(st, p, s);
    forall b: nat, m: nat ensures IsLive(st', b, m) <==> IsLive(st, b, m) && b != a {
      RunReturnedLive(st, st', p, 1, b, m);
      if b / PAGE == p {
        ChunkLive(st, p, s, b, m);
        assert Used(st, p) <= Below(Reserved(s)) + {c};
      }
    }
  }

  lemma RunRemoves(st: State, st': State, p: nat, k: nat)
    requires StateOk(st) && SameSize(st, st') && Returnable(st, p, k) && RunReturned(st, st', p, k) && st.owner[p] == Run(p)
    ensures Removes(st, st', p * PAGE)
  {
    hide StateOk, RunReturned;
    PageOffset(p, 0);
    forall b: nat, m: nat ensures IsLive(st', b, m) <==> IsLive(st, b, m) && b != p * PAGE {
      RunReturnedLive(st, st', p, k, b, m);
    }
  }

  lemma PushHomedBut(st: State, lists: seq<seq<nat>>, next: Links, lists': seq<seq<nat>>, next': Links, p: nat, k: nat)
    requires Sized(st) && |st.owner| <= |next| && |st.owner| <= |next'| && HomedBut(st, lists, next, p)
    requires k <= SLOTS && lists' == lists[k := [p] + lists[k]]
    requires forall x: nat | x < |st.owner| && x != p :: next'[x] == next[x]
    ensures HomedBut(st, lists', next', p)
  {
    hide Home;
    forall j: nat, x: nat | j <= SLOTS && x != p ensures AtHome(st, lists', j, x) {
      HomedButAt(st, lists, next, p, j, x);
    }
    forall x: nat | x < |st.owner| && x != p ensures Unlinked(st, next', x) { HomedButAt(st, lists, next, p, 0, x); }
  }

  lemma UnmarkedOk(st: State, st': State, p: nat, s: nat, c: nat)
    requires StateOk(st) && SameSize(st, st') && OnlyPage(st, st', p) && p < |st.owner|
    requires st.owner[p] == st'.owner[p] == Chunks(s) && IsShift(s) && Encoded(st', p, s)
    requires Used(st', p) == Used(st, p) - {c} && Reserved(s) <= c && !(Used(st', p) <= Below(Reserved(s)))
    ensures StateOk(st')
  {
    hide Used, Encoded, Count, StateOk, Reserved;
    UsedInPage(st, p, s);
    ChunkSetOk(st, st', p, s);
  }

  lemma NotFull(st: State, st': State, p: nat, s: nat, c: nat)
    requires SameSize(st, st') && p < |st.owner| && IsShift(s) && c < Count(s)
    requires Used(st', p) == Used(st, p) - {c} && st'.owner[p] == Chunks(s)
    ensures Home(st', p) == s - MIN_SHIFT
  {
    BelowContains(Count(s), c);
  }

  /** The number of the chunk of shift `s` that an address falls in, within its page. */
  function ChunkOf(addr: nat, s: nat): nat { Quotient(addr % PAGE, Size(s)) }

  /** In a page of chunks of shift `s`, the block at `a` is live if its chunk is marked behind the reserved ones. */
  lemma ChunkAt(st: State, a: nat, s: nat)
    requires StateOk(st) && a / PAGE < |st.owner| && st.owner[a / PAGE] == Chunks(s) && IsShift(s)
    ensures a % Size(s) == 0 <==> a % PAGE % Size(s) == 0
    ensures a % Size(s) == 0 ==> a == a / PAGE * PAGE + ChunkOf(a, s) * Size(s) && ChunkOf(a, s) < Count(s)
    ensures LiveAt(st, a) <==> a % Size(s) == 0 && LiveChunk(st, a / PAGE, s, ChunkOf(a, s))
  {
    hide Size, Count, StateOk, LiveChunk, Reserved;
    var p, off, z := a / PAGE, a % PAGE, Size(s);
    SizeDivides(s);
    ModuloInPage(p, off, z);
    if off % z == 0 {
      Exact(off, z);
      assert z * Count(s) == PAGE by { Sizes(s); }
      QuotientBelow(off / z, Count(s), z);
    }
    assert Sized(st) by { ReadSized(st); }
    assert LiveAt(st, a) ==> off % z == 0 && LiveChunk(st, p, s, off / z);
    if off % z == 0 && LiveChunk(st, p, s, off / z) { assert IsLive(st, a, z); }
  }

  lemma ReadSized(st: State)
    requires StateOk(st)
    ensures Sized(st)
  {
  }

  lemma ModuloInPage(p: nat, off: nat, z: nat)
    requires z > 0 && PAGE % z == 0
    ensures (p * PAGE + off) % z == off % z
  {
    var k := PAGE / z;
    assert PAGE == k * z;
    assert off == off / z * z + off % z;
    assert p * PAGE + off == (p * k + off / z) * z + off % z;
    QuotientUnique(p * PAGE + off, z, p * k + off / z, off % z);
  }

  lemma QuotientBelow(q: nat, c: nat, z: nat)
    requires z > 0 && q * z < z * c
    ensures q < c
  {
    if q >= c { Scale(c, q, z); }
  }

  lemma HomedSizes(st: State, lists: seq<seq<nat>>, next: Links, p: nat)
    requires Sized(st) && |st.owner| <= |next| && HomedBut(st, lists, next, p)
    ensures |lists| == SLOTS + 1
  {
  }

  lemma HomeRange(st: State, p: nat)
    requires Sized(st) && p < |st.owner|
    ensures -1 <= Home(st, p) <= SLOTS
  {
  }

  /** A free request that the allocator can tell from a legal one, or a legal one. */
  ghost predicate Checkable(st: State, addr: nat)
    requires Sized(st)
  {
    var p := addr / PAGE;
    p < |st.owner| ==>
      match st.owner[p]
      case Free(h) => h == p ==> addr % PAGE != 0
      case Run(_) => true
      case Chunks(s) => IsShift(s) && addr % Size(s) == 0 ==> Reserved(s) <= ChunkOf(addr, s)
  }

  ghost predicate LiveAt(st: State, addr: int)
    requires Sized(st)
  {
    addr >= 0 && exists len: nat :: IsLive(st, addr, len)
  }

  /** sizeof(ngx_slab_page_t) */
  const HEADER: nat := 24

  /** The first page boundary behind the slots and as many page headers as could be needed. */
  function FirstPage(p: nat, limit: nat): (start: nat)
    requires p <= limit
    ensures start % PAGE == 0
    ensures var headers := p + SLOTS * HEADER + (limit - p) / (PAGE + HEADER) * HEADER; headers <= start < headers + PAGE
  {
    (p + SLOTS * HEADER + (limit - p) / (PAGE + HEADER) * HEADER + PAGE - 1) / PAGE * PAGE
  }

  /**
   Lines 89-126: where the pages start and how many there are.  If the memory reaches that far,
   every whole page behind the start is used and the headers end before it.  If not, an unsigned
   division hides that and the pages lie outside.
   */
  method Layout(p: nat, limit: nat) returns (start: nat, pages: nat)
    requires p <= limit < MachineWords.WORD
    ensures start == FirstPage(p, limit)
    ensures start <= limit ==> start + pages * PAGE <= limit < start + (pages + 1) * PAGE && p + SLOTS * HEADER + pages * HEADER <= start
    ensures limit < start ==> start + pages * PAGE > limit && pages == (limit - p) / (PAGE + HEADER)
  {
    var size := limit - p;
    pages := size / (PAGE + HEADER);
    start := FirstPage(p, limit);
    var room := (if start <= limit then limit - start else MachineWords.WORD + limit - start) / PAGE;
    NoRoomWraps(p, limit);
    var m := pages - room;
    if m > 0 {
      pages := pages - m;
    }
  }

  lemma NoRoomWraps(p: nat, limit: nat)
    requires p <= limit < MachineWords.WORD
    ensures var start, pages := FirstPage(p, limit), (limit - p) / (PAGE + HEADER);
      if start <= limit then (limit - start) / PAGE <= pages else (MachineWords.WORD + limit - start) / PAGE >= pages
  {
    var pages := (limit - p) / (PAGE + HEADER);
    assert pages * (PAGE + HEADER) <= limit - p < (pages + 1) * (PAGE + HEADER);
    assert limit < FirstPage(p, limit) ==> pages <= 2;
  }

  /** The tests of lines 422-579 for an address in a page of the pool. */
  ghost predicate Accepted(st: State, addr: nat)
    requires Sized(st) && addr / PAGE < |st.owner|
  {
    var p := addr / PAGE;
    match st.kind[p]
    case SMALL =>
      st.slab[p].Shift? && addr % Size(st.slab[p].shift) == 0 && ChunkOf(addr, st.slab[p].shift) in Marked(st.bitmap[p])
    case EXACT =>
      st.slab[p].Map? && addr % Size(EXACT_SHIFT) == 0 && ChunkOf(addr, EXACT_SHIFT) in st.slab[p].used
    case BIG =>
      st.slab[p].MapShift? && addr % Size(st.slab[p].shift) == 0 && ChunkOf(addr, st.slab[p].shift) in st.slab[p].used
    case PAGE_KIND =>
      addr % PAGE == 0 && st.slab[p] != Idle(0) && st.slab[p] != Busy
  }

  /** The allocator takes exactly the live blocks and the addresses that are not checkable, which are not live. */
  lemma AcceptedExactly(st: State, addr: nat)
    requires StateOk(st) && addr / PAGE < |st.owner|
    ensures Sized(st) && (Accepted(st, addr) <==> LiveAt(st, addr) || !Checkable(st, addr))
    ensures !Checkable(st, addr) ==> !LiveAt(st, addr)
  {
    hide Size, Count, Reserved, StateOk, Accepted, IsLive, Used, LiveChunk, LiveAt;
    ReadSized(st);
    var p := addr / PAGE;
    if st.owner[p].Chunks? {
      AcceptedChunk(st, addr, st.owner[p].shift);
      MarkedLive(st, p, st.owner[p].shift, ChunkOf(addr, st.owner[p].shift));
    } else {
      PageAt(st, p);
      AcceptedRun(st, addr);
    }
  }

  lemma MarkedLive(st: State, p: nat, s: nat, c: nat)
    requires Sized(st) && p < |st.owner| && IsShift(s)
    ensures LiveChunk(st, p, s, c) <==> c in Used(st, p) && Reserved(s) <= c
  {
  }

  lemma AcceptedRun(st: State, addr: nat)
    requires Sized(st) && addr / PAGE < |st.owner| && PageOk(st, addr / PAGE) && !st.owner[addr / PAGE].Chunks?
    ensures var p := addr / PAGE;
      && (Accepted(st, addr) <==> addr % PAGE == 0 && st.owner[p].head == p)
      && (LiveAt(st, addr) <==> addr % PAGE == 0 && st.owner[p] == Run(p))
  {
    hide Used;
    var p := addr / PAGE;
    assert st.slab[p].Start? ==> (IsLive(st, addr, st.slab[p].pages * PAGE) <==> st.owner[p] == Run(p) && addr % PAGE == 0);
  }

  lemma PageAt(st: State, p: nat)
    requires StateOk(st) && p < |st.owner|
    ensures PageOk(st, p)
  {
  }

  lemma AcceptedChunk(st: State, addr: nat, s: nat)
    requires StateOk(st) && addr / PAGE < |st.owner| && st.owner[addr / PAGE] == Chunks(s)
    ensures Sized(st) && IsShift(s)
    ensures Accepted(st, addr) <==> addr % Size(s) == 0 && ChunkOf(addr, s) in Used(st, addr / PAGE)
    ensures LiveAt(st, addr) <==> addr % Size(s) == 0 && LiveChunk(st, addr / PAGE, s, ChunkOf(addr, s))
    ensures addr % Size(s) == 0 && ChunkOf(addr, s) < Reserved(s) ==> ChunkOf(addr, s) in Used(st, addr / PAGE)
  {
    hide Size, Count, Reserved, LiveChunk, StateOk;
    UsedInPage(st, addr / PAGE, s);
    ChunkAt(st, addr, s);
    BelowContains(Reserved(s), ChunkOf(addr, s));
  }

  // ----------------------------------------------------------------- a client's run

  datatype Request = Get(size: nat) | Give(addr: nat)

  /** A block that a client holds: its length and the size asked for. */
  datatype Block = Block(len: nat, size: nat)

  /** The blocks held are exactly the live ones, and none is smaller than asked for. */
  ghost predicate Holds(st: State, held: map<nat, Block>)
    requires Sized(st)
  {
    && (forall a: nat, len: nat :: IsLive(st, a, len) <==> a in held && held[a].len == len)
    && (forall a | a in held :: held[a].size <= held[a].len)
  }

  /** Disjoint aligned intervals inside `n` pages. */
  ghost predicate Intervals(held: map<nat, Block>, n: nat) {
    && (forall a | a in held ::
          && held[a].size <= held[a].len && 0 < held[a].len && a + held[a].len <= n * PAGE
          && if held[a].len < PAGE then a % held[a].len == 0 else a % PAGE == 0)
    && (forall a, b | a in held && b in held && a < b :: a + held[a].len <= b)
  }

  lemma HoldsMore(st: State, st': State, held: map<nat, Block>, a: nat, len: nat, size: nat)
    requires StateOk(st') && Sized(st) && Holds(st, held) && Adds(st, st', a, len) && size <= len
    ensures Holds(st', held[a := Block(len, size)])
  {
    hide StateOk, IsLive;
    ReadSized(st');
    var held' := held[a := Block(len, size)];
    forall b: nat, m: nat ensures IsLive(st', b, m) <==> b in held' && held'[b].len == m {
      assert IsLive(st', b, m) <==> IsLive(st, b, m) || (b == a && m == len);
      if b == a && IsLive(st', b, m) { LiveDisjoint(st', a, len, b, m); }
    }
  }

  lemma HeldIsLive(st: State, held: map<nat, Block>, a: nat)
    requires StateOk(st) && Holds(st, held) && a in held
    ensures LiveAt(st, a) && a < |st.owner| * PAGE && Checkable(st, a)
  {
    hide StateOk, Size;
    ReadSized(st);
    assert IsLive(st, a, held[a].len);
    LiveInside(st, a, held[a].len);
    if st.owner[a / PAGE].Chunks? { ChunkAt(st, a, st.owner[a / PAGE].shift); }
  }

  lemma HeldApart(st: State, held: map<nat, Block>)
    requires StateOk(st) && Holds(st, held)
    ensures Intervals(held, |st.owner|)
  {
    hide StateOk, IsLive;
    ReadSized(st);
    forall a | a in held
      ensures 0 < held[a].len && a + held[a].len <= |st.owner| * PAGE
      ensures if held[a].len < PAGE then a % held[a].len == 0 else a % PAGE == 0
    {
      assert IsLive(st, a, held[a].len);
      LiveInside(st, a, held[a].len);
    }
    forall a, b | a in held && b in held && a < b ensures a + held[a].len <= b {
      assert IsLive(st, a, held[a].len) && IsLive(st, b, held[b].len);
      LiveDisjoint(st, a, held[a].len, b, held[b].len);
    }
  }

  class Pool {
    /** pages, and the offset of the end of the memory */
    const n: nat
    const end: nat
    var slab: seq<Slab>
    var kind: seq<Kind>
    var bitmap: seq<seq<Bits>>
    var next: Links
    var prev: Links
    ghost var owner: seq<Owner>
    ghost var lists: seq<seq<nat>>

    ghost function View(): State
      reads this`slab, this`kind, this`bitmap, this`owner
    {
      State(slab, kind, bitmap, owner)
    }

    ghost predicate Valid()
      reads this
    {
      && StateOk(View()) && |owner| == n && n * PAGE <= end
      && Rings(next, prev, n, lists)
      && Homed(View(), lists, next)
    }

    /**
     ngx_slab_init for the memory from `p`, behind the pool header, up to `limit`.  The slots and
     the page headers come first; all whole pages behind them, at least one, are one free run.
     */
    constructor (p: nat, limit: nat)
      requires p <= limit < MachineWords.WORD && FirstPage(p, limit) + PAGE <= limit
      ensures Valid() && Sized(View()) && n >= 1 && fresh(this)
      ensures n * PAGE <= end < (n + 1) * PAGE
      ensures forall a: nat, len: nat :: !IsLive(View(), a, len)
      ensures owner == seq(n, x => Free(0)) && slab[0] == Idle(n)
    {
      var start, pages := Layout(p, limit);
      n := pages;
      end := limit - start;
      slab := seq(pages, x => if x == 0 then Idle(pages) else Idle(0));
      kind := seq(pages, x => PAGE_KIND);
      bitmap := seq(pages, x => []);
      owner := seq(pages, x => Free(0));
      next := seq(pages + SLOTS + 1, x => if x == 0 then pages + SLOTS else if x < pages then NULL else if x < pages + SLOTS then x else 0);
      prev := seq(pages + SLOTS + 1, x => if x == 0 then pages + SLOTS else NULL);
      lists := seq(SLOTS + 1, k => if k < SLOTS then [] else [0]);
      new;
      FreshPool();
    }

    lemma FreshPool()
      requires n >= 1 && n * PAGE <= end
      requires |slab| == |kind| == |bitmap| == |owner| == n && |next| == |prev| == n + SLOTS + 1 && |lists| == SLOTS + 1
      requires forall x | 0 <= x < n :: slab[x] == (if x == 0 then Idle(n) else Idle(0)) && kind[x] == PAGE_KIND && owner[x] == Free(0)
      requires forall x | 0 <= x < n + SLOTS + 1 :: next[x] == if x == 0 then n + SLOTS else if x < n then NULL else if x < n + SLOTS then x else 0
      requires prev[0] == n + SLOTS
      requires forall k | 0 <= k <= SLOTS :: lists[k] == if k < SLOTS then [] else [0]
      ensures Valid() && forall a: nat, len: nat :: !IsLive(View(), a, len)
    {
      hide Ring, Used, Encoded, FullPage, ChunkPage, LiveChunk, Size;
      forall k: nat | k <= SLOTS ensures Ring(next, prev, n + k, lists[k]) { FreshRing(k); }
      assert StateOk(View()) by { assert forall p | 0 <= p < n :: PageOk(View(), p); }
      forall k: nat, x: nat | k <= SLOTS ensures AtHome(View(), lists, k, x) { }
    }

    lemma FreshRing(k: nat)
      requires k <= SLOTS && n >= 1 && |next| == |prev| == n + SLOTS + 1 && |lists| == SLOTS + 1
      requires next[0] == prev[0] == n + SLOTS && next[n + k] == (if k < SLOTS then n + k else 0)
      requires lists[k] == if k < SLOTS then [] else [0]
      ensures Ring(next, prev, n + k, lists[k])
    {
    }

    /** Lines 628-635: the rest of a longer free run takes its place on the free list. */
    method SplitRun(page: nat, pages: nat, ghost i: nat)
      requires Valid() && i < |lists[SLOTS]| && page == lists[SLOTS][i]
      requires page < n && slab[page].Idle? && 1 <= pages < slab[page].pages && page + pages < n
      modifies this`slab, this`next, this`prev, this`lists
      ensures slab == old(slab)[page + pages := Idle(old(slab[page].pages) - pages)]
      ensures lists == old(lists)[SLOTS := Put(old(lists)[SLOTS], i, page + pages)]
      ensures Rings(next, prev, n, lists) && !Listed(lists, page)
      ensures forall x: nat | x < n && x != page + pages && old(next)[x] == NULL :: next[x] == NULL
    {
      hide StateOk, Homed, Ring, Put;
      var q := page + pages;
      Lengths();
      HeadOfRun(page, i);
      InsideRun(page, q);
      OnFreeList(i);
      RingsReplace(next, prev, n, lists, SLOTS, i, q);
      slab := slab[q := Idle(slab[page].pages - pages)];
      next := next[q := next[page]];
      prev := prev[q := prev[page]];
      var p := prev[page];
      next := next[p := q];
      prev := prev[next[page] := q];
      lists := lists[SLOTS := Put(lists[SLOTS], i, q)];
    }

    /** Lines 638-640, 230-233 and others: takes a page off its list. */
    method Unlink(page: nat, ghost k: nat, ghost i: nat)
      requires Rings(next, prev, n, lists) && k < |lists| && i < |lists[k]| && page == lists[k][i]
      modifies this`next, this`prev, this`lists
      ensures lists == old(lists)[k := Skip(old(lists)[k], i)]
      ensures Rings(next, prev, n, lists) && !Listed(lists, page)
      ensures forall x: nat | x < n && old(next)[x] == NULL :: next[x] == NULL
    {
      hide Ring, Skip;
      RingsUnlink(next, prev, n, lists, k, i);
      RingNeighbours(next, prev, n, lists, k, i);
      var p := prev[page];
      next := next[p := next[page]];
      prev := prev[next[page] := p];
      lists := lists[k := Skip(lists[k], i)];
    }

    /** A page on the free list has linked neighbours. */
    lemma OnFreeList(i: nat)
      requires Valid() && i < |lists[SLOTS]|
      ensures var x := lists[SLOTS][i]; var a := prev[x];
        a >= 0 && a < |next| && (a < n ==> next[a] != NULL)
    {
      RingNeighbours(next, prev, n, lists, SLOTS, i);
    }

    lemma HeadOfRun(page: nat, i: nat)
      requires Valid() && i < |lists[SLOTS]| && page == lists[SLOTS][i]
      ensures page < n && owner[page] == Free(page) && slab[page].Idle? && 1 <= slab[page].pages && page + slab[page].pages <= n
    {
      assert page in lists[SLOTS];
      HomedAt(View(), lists, next, SLOTS, page);
      assert PageOk(View(), page);
    }

    lemma InsideRun(page: nat, x: nat)
      requires Valid() && page < n && owner[page] == Free(page) && slab[page].Idle? && page < x < page + slab[page].pages
      ensures x < n && !Listed(lists, x) && next[x] == NULL && Home(View(), x) == -1
    {
      assert PageOk(View(), page) && IsHead(View(), page) && InRun(View(), page, x);
      assert owner[x] == Free(page);
      NotListed(x);
    }

    lemma NotListed(x: nat)
      requires Valid() && x < n && Home(View(), x) == -1
      ensures !Listed(lists, x) && next[x] == NULL
    {
      forall k | 0 <= k < |lists| ensures x !in lists[k] { HomedAt(View(), lists, next, k, x); }
      HomedAt(View(), lists, next, 0, x);
    }

    lemma Lengths()
      requires Valid()
      ensures |slab| == |kind| == |bitmap| == |owner| == n
      ensures |next| == |prev| == n + SLOTS + 1 && |lists| == SLOTS + 1
    {
    }

    /** Lines 643-656: the headers of a run handed out. */
    method MarkRun(page: nat, pages: nat)
      requires |slab| == |kind| == n && |next| == |prev| && page + pages <= n <= |next| && 1 <= pages
      requires Rings(next, prev, n, lists) && forall x: nat | page <= x < page + pages :: !Listed(lists, x)
      modifies this`slab, this`kind, this`next, this`prev
      ensures |slab| == |kind| == n && |next| == |old(next)| && Rings(next, prev, n, lists)
      ensures forall x: nat | x < n ::
        && slab[x] == (if x == page then Start(pages) else if page < x < page + pages then Busy else old(slab)[x])
        && kind[x] == (if page <= x < page + pages then PAGE_KIND else old(kind)[x])
        && next[x] == (if page <= x < page + pages then NULL else old(next)[x])
    {
      hide Rings, Listed;
      RingsIgnore(next, prev, n, lists, page, NULL, NULL);
      slab := slab[page := Start(pages)];
      next := next[page := NULL];
      prev := prev[page := NULL];
      kind := kind[page := PAGE_KIND];
      var p := page + 1;
      while p < page + pages
        invariant page < p <= page + pages
        invariant |slab| == |kind| == n && |next| == |prev| == |old(next)| && Rings(next, prev, n, lists)
        invariant forall x: nat | x < n ::
          && slab[x] == (if x == page then Start(pages) else if page < x < p then Busy else old(slab)[x])
          && kind[x] == (if page <= x < p then PAGE_KIND else old(kind)[x])
          && next[x] == (if page <= x < p then NULL else old(next)[x])
      {
        RingsIgnore(next, prev, n, lists, p, NULL, NULL);
        slab := slab[p := Busy];
        next := next[p := NULL];
        prev := prev[p := NULL];
        kind := kind[p := PAGE_KIND];
        p := p + 1;
      }
    }

    /** ngx_slab_alloc_pages: the first free run that is long enough gives up its first pages. */
    method AllocPages(pages: nat) returns (found: Option<nat>)
      requires Valid() && 1 <= pages
      modifies this`slab, this`kind, this`next, this`prev, this`lists, this`owner
      ensures Valid()
      ensures found.None? ==>
          && View() == old(View()) && next == old(next) && lists == old(lists)
          && forall x: nat | x < n && owner[x] == Free(x) :: slab[x].Idle? && slab[x].pages < pages
      ensures found.Some? ==>
          && found.value < n && Takes(old(View()), found.value, pages) && SameSize(old(View()), View())
          && RunTaken(old(View()), View(), found.value, pages)
    {
      hide StateOk, Homed, Ring;
      Lengths();
      var page, i := FirstFit(pages);
      if page == n + SLOTS {
        AllTooShort(pages);
        return None;
      }
      HeadOfRun(page, i);
      TakeRun(page, pages, i);
      return Some(page);
    }

    /** The search of ngx_slab_alloc_pages; the list head stands for a failed search. */
    method FirstFit(pages: nat) returns (page: nat, ghost i: nat)
      requires Valid() && 1 <= pages
      ensures |lists| == SLOTS + 1 && i <= |lists[SLOTS]|
      ensures page == if i < |lists[SLOTS]| then lists[SLOTS][i] else n + SLOTS
      ensures page == n + SLOTS || (page in lists[SLOTS] && page < n && slab[page].Idle? && pages <= slab[page].pages)
      ensures forall j | 0 <= j < i :: var x := lists[SLOTS][j]; x < n && slab[x].Idle? && slab[x].pages < pages
    {
      hide StateOk, Homed, Ring;
      Lengths();
      ListHead(SLOTS);
      page, i := next[n + SLOTS], 0;
      if lists[SLOTS] != [] { HeadOfRun(page, 0); }
      while page != n + SLOTS && slab[page].pages < pages
        invariant 0 <= i <= |lists[SLOTS]|
        invariant page == if i < |lists[SLOTS]| then lists[SLOTS][i] else n + SLOTS
        invariant i < |lists[SLOTS]| ==> page < n && slab[page].Idle?
        invariant forall j | 0 <= j < i :: var x := lists[SLOTS][j]; x < n && slab[x].Idle? && slab[x].pages < pages
        decreases |lists[SLOTS]| - i
      {
        ListNext(SLOTS, i);
        page := next[page];
        i := i + 1;
        if i < |lists[SLOTS]| { HeadOfRun(page, i); }
      }
    }

    /** Lines 627-641: the rest of the free run at position `i`, if any, takes its place on the free list. */
    method CutRun(page: nat, pages: nat, ghost i: nat)
      requires Valid() && i < |lists[SLOTS]| && page == lists[SLOTS][i] && Takes(View(), page, pages)
      modifies this`slab, this`next, this`prev, this`lists
      ensures |slab| == n && |next| == |prev| == |old(next)| && Rings(next, prev, n, lists)
      ensures var len := old(slab)[page].pages;
        && slab == (if pages < len then old(slab)[page + pages := Idle(len - pages)] else old(slab))
        && lists == old(lists)[SLOTS := if pages < len then Put(old(lists)[SLOTS], i, page + pages) else Skip(old(lists)[SLOTS], i)]
        && (forall x: nat | x < n && (x != page + pages || pages == len) && old(next)[x] == NULL :: next[x] == NULL)
      ensures forall x: nat | page <= x < page + pages :: !Listed(lists, x)
    {
      hide StateOk, Homed, Ring, Put, Skip, Listed;
      ghost var ls := lists;
      Lengths();
      HeadOfRun(page, i);
      RunUnlisted(page);
      ListHead(SLOTS);
      ghost var len := slab[page].pages;
      if slab[page].pages > pages {
        SplitRun(page, pages, i);
      } else {
        Unlink(page, SLOTS, i);
      }
      StillUnlisted(ls, lists, i, pages, len);
    }

    /** Hands out the first pages of the free run at position `i` of the free list. */
    method TakeRun(page: nat, pages: nat, ghost i: nat)
      requires Valid() && i < |lists[SLOTS]| && page == lists[SLOTS][i] && Takes(View(), page, pages)
      modifies this`slab, this`kind, this`next, this`prev, this`lists, this`owner
      ensures Valid() && SameSize(old(View()), View()) && RunTaken(old(View()), View(), page, pages)
    {
      hide StateOk, Homed, Ring, Put, Skip, Listed;
      ghost var st, ls, nx := View(), lists, next;
      Lengths();
      HeadOfRun(page, i);
      RunUnlisted(page);
      ListHead(SLOTS);
      var len := slab[page].pages;
      CutRun(page, pages, i);
      MarkRun(page, pages);
      owner := seq(n, x requires 0 <= x < n =>
        if page <= x < page + pages then Run(page) else if page + pages <= x < page + len then Free(page + pages) else st.owner[x]);
      RunTakenOk(st, View(), page, pages);
      TakenHomed(st, View(), ls, nx, lists, next, i, pages);
    }

    /** Lines 679-681: the headers inside a run that is given back are cleared. */
    method ClearInside(page: nat, pages: nat)
      requires |slab| == |kind| == n && |next| == |prev| && page + pages <= n <= |next| && 1 <= pages
      requires Rings(next, prev, n, lists) && forall x: nat | page < x < page + pages :: !Listed(lists, x)
      modifies this`slab, this`kind, this`next, this`prev
      ensures |slab| == |kind| == n && |next| == |prev| == |old(next)| && Rings(next, prev, n, lists)
      ensures forall x: nat | x < n ::
        && slab[x] == (if x == page then Idle(pages) else if page < x < page + pages then Idle(0) else old(slab)[x])
        && kind[x] == (if page < x < page + pages then PAGE_KIND else old(kind)[x])
      ensures forall x: nat | x < |next| :: next[x] == (if page < x < page + pages then NULL else old(next)[x])
    {
      hide Rings, Listed;
      slab := slab[page := Idle(pages)];
      var p := page + 1;
      while p < page + pages
        invariant page < p <= page + pages
        invariant |slab| == |kind| == n && |next| == |prev| == |old(next)| && Rings(next, prev, n, lists)
        invariant forall x: nat | x < n ::
          && slab[x] == (if x == page then Idle(pages) else if page < x < p then Idle(0) else old(slab)[x])
          && kind[x] == (if page < x < p then PAGE_KIND else old(kind)[x])
        invariant forall x: nat | x < |next| :: next[x] == (if page < x < p then NULL else old(next)[x])
      {
        RingsIgnore(next, prev, n, lists, p, NULL, NULL);
        slab := slab[p := Idle(0)];
        next := next[p := NULL];
        prev := prev[p := NULL];
        kind := kind[p := PAGE_KIND];
        p := p + 1;
      }
    }

    /** Puts an unlisted page in front of list `k`. */
    method Push(page: nat, k: nat)
      requires Rings(next, prev, n, lists) && k < |lists| && page < n && !Listed(lists, page)
      modifies this`next, this`prev, this`lists
      ensures lists == old(lists)[k := [page] + old(lists)[k]]
      ensures Rings(next, prev, n, lists)
      ensures forall x: nat | x < n && x != page :: next[x] == old(next)[x]
    {
      hide Ring;
      RingsPush(next, prev, n, lists, k, page);
      next := next[page := next[n + k]];
      var f := next[page];
      next := next[n + k := page];
      prev := prev[page := n + k];
      prev := prev[f := page];
      lists := lists[k := [page] + lists[k]];
    }

    /** Lines 677-687: clears the headers of the run and takes its first page off its list. */
    method ClearAndDetach(page: nat, pages: nat, ghost st: State, ghost k: nat)
      requires StateOk(st) && |st.owner| == n && Returnable(st, page, pages)
      requires |slab| == |kind| == n && Rings(next, prev, n, lists) && HomedBut(st, lists, next, page)
      requires if st.owner[page].Chunks? then k < SLOTS && page in lists[k] && next[page] != NULL
               else next[page] == NULL && !Listed(lists, page)
      modifies this`slab, this`kind, this`next, this`prev, this`lists
      ensures |slab| == |kind| == n && page + pages <= n
      ensures forall x: nat | x < n ::
        && slab[x] == (if x == page then Idle(pages) else if page < x < page + pages then Idle(0) else old(slab)[x])
        && kind[x] == (if page < x < page + pages then PAGE_KIND else old(kind)[x])
      ensures Rings(next, prev, n, lists) && HomedBut(st, lists, next, page) && !Listed(lists, page)
      ensures forall x: nat | page < x < page + pages :: next[x] == NULL
    {
      hide StateOk, Ring, Home, Skip;
      ReadSized(st);
      ReturnableRange(st, page, pages, page);
      InsideUnlisted(st, lists, next, page, pages);
      ghost var was := next;
      ClearInside(page, pages);
      HomedButKept(st, lists, was, next, page);
      if next[page] != NULL {
        ghost var i :| 0 <= i < |lists[k]| && lists[k][i] == page;
        ghost var ls, nx := lists, next;
        DistinctList(next, prev, n, lists, k);
        Unlink(page, k, i);
        UnlinkHomedBut(st, ls, nx, lists, next, page, k, i);
      }
    }

    /**
     ngx_slab_free_pages for the pages at `page`, which are an allocated run or, in the state `st`,
     one page of chunks on list `k`.
     */
    method FreePages(page: nat, pages: nat, ghost st: State, ghost k: nat)
      requires StateOk(st) && |st.owner| == n && n * PAGE <= end && Returnable(st, page, pages)
      requires SameSize(st, View()) && OnlyPage(st, View(), page) && owner == st.owner
      requires Rings(next, prev, n, lists) && HomedBut(st, lists, next, page)
      requires if st.owner[page].Chunks? then k < SLOTS && page in lists[k] && next[page] != NULL
               else next[page] == NULL && !Listed(lists, page)
      modifies this`slab, this`kind, this`next, this`prev, this`lists, this`owner
      ensures Valid() && SameSize(st, View()) && RunReturned(st, View(), page, pages)
    {
      hide StateOk, Ring, Home, HomedBut, Homed;
      ReturnableRange(st, page, pages, page);
      HomedSizes(st, lists, next, page);
      ClearAndDetach(page, pages, st, k);
      HomedSizes(st, lists, next, page);
      ghost var ls, nx := lists, next;
      kind := kind[page := PAGE_KIND];
      Push(page, SLOTS);
      owner := seq(n, x requires 0 <= x < n => if page <= x < page + pages then Free(page) else st.owner[x]);
      RunReturnedOk(st, View(), page, pages);
      ReturnedHomed(st, View(), ls, nx, lists, next, page, pages);
    }

    // -------------------------------------------------------------------- chunks

    /** Marks the first free chunk of a page that has one; `full` says that it was the last. */
    method MarkChunk(page: nat, shift: nat) returns (chunk: nat, full: bool)
      requires StateOk(View()) && |owner| == n && page < n && owner[page] == Chunks(shift)
      requires IsShift(shift) && !FullPage(View(), page, shift)
      modifies this`slab, this`bitmap
      ensures SameSize(old(View()), View()) && OnlyPage(old(View()), View(), page)
      ensures Encoded(View(), page, shift)
      ensures Used(View(), page) == old(Used(View(), page)) + {chunk}
      ensures chunk !in old(Used(View(), page)) && Reserved(shift) <= chunk < Count(shift)
      ensures full <==> FullPage(View(), page, shift)
    {
      hide Size, Count, Words, StateOk, Reserved;
      UsedInPage(View(), page, shift);
      if shift < EXACT_SHIFT {
        assert Words(shift) * BITS == Count(shift) by { Sizes(shift); }
        var words;
        words, chunk, full := TakeSmall(bitmap[page]);
        bitmap := bitmap[page := words];
      } else if shift == EXACT_SHIFT {
        assert Count(shift) == BITS by { Sizes(shift); }
        chunk := LowestClear(slab[page].used, BITS);
        slab := slab[page := Map(slab[page].used + {chunk})];
        full := slab[page].used == Full();
      } else {
        var mask := Below(Count(shift));
        chunk := LowestClear(slab[page].used, Count(shift));
        slab := slab[page := MapShift(slab[page].used + {chunk}, shift)];
        full := slab[page].used == mask;
      }
      BelowContains(Reserved(shift), chunk);
    }

    /** Lines 196-326: takes a chunk from the first page on a slot list. */
    method TakeChunk(page: nat, shift: nat) returns (chunk: nat)
      requires Valid() && IsShift(shift) && |lists[shift - MIN_SHIFT]| > 0 && page == lists[shift - MIN_SHIFT][0]
      modifies this`slab, this`bitmap, this`next, this`prev, this`lists
      ensures Valid() && Sized(View()) && Sized(old(View())) && chunk < Count(shift) && page < n
      ensures Adds(old(View()), View(), page * PAGE + chunk * Size(shift), Size(shift))
    {
      hide StateOk, Ring, Size, Count, Reserved, Encoded, Used, Skip;
      ghost var st, k := View(), shift - MIN_SHIFT;
      Lengths();
      OnSlot(page, shift);
      var full;
      chunk, full := MarkChunk(page, shift);
      MarkedOk(st, View(), page, shift, chunk);
      ChunkAdds(st, View(), page, shift, chunk);
      ButHome(st, lists, next, page);
      DistinctList(next, prev, n, lists, k);
      if full {
        ghost var ls, nx := lists, next;
        Unlink(page, k, 0);
        UnlinkHomedBut(st, ls, nx, lists, next, page, k, 0);
        RingsIgnore(next, prev, n, lists, page, NULL, NULL);
        nx := next;
        next := next[page := NULL];
        prev := prev[page := NULL];
        HomedButKept(st, lists, nx, next, page);
      }
      BackHome(st, View(), lists, next, page);
    }

    /** Lines 331-385: turns a page just taken into a page of chunks, the first one handed out. */
    method InitChunks(page: nat, shift: nat) returns (chunk: nat)
      requires Valid() && IsShift(shift) && page < n && owner[page] == Run(page) && slab[page] == Start(1)
      requires lists[shift - MIN_SHIFT] == []
      modifies this`slab, this`kind, this`bitmap, this`next, this`prev, this`lists, this`owner
      ensures Valid() && SameSize(old(View()), View()) && OnlyPage(old(View()), View(), page)
      ensures chunk == Reserved(shift) < Count(shift) && owner[page] == Chunks(shift)
      ensures Used(View(), page) == Below(chunk + 1)
    {
      hide StateOk, Ring, Size, Count;
      ghost var st := View();
      var k := shift - MIN_SHIFT;
      Lengths();
      NotListed(page);
      chunk := EncodeFirst(page, shift);
      ChunkSetOk(st, View(), page, shift);
      ButHome(st, lists, next, page);
      ghost var ls, nx := lists, next;
      LinkFirst(page, k);
      assert [page] + ls[k] == [page];
      PushHomedBut(st, ls, nx, lists, next, page, k);
      BelowGrows(chunk + 1, Count(shift));
      assert forall j | 0 <= j <= SLOTS :: page in lists[j] <==> j == k;
      BackHome(st, View(), lists, next, page);
    }

    /** The header and the bitmap of a page whose first chunk is handed out. */
    method EncodeFirst(page: nat, shift: nat) returns (chunk: nat)
      requires Sized(View()) && page < |owner| && IsShift(shift)
      modifies this`slab, this`kind, this`bitmap, this`owner
      ensures SameSize(old(View()), View()) && OnlyPage(old(View()), View(), page)
      ensures chunk == Reserved(shift) && chunk + 2 <= Count(shift) && owner[page] == Chunks(shift)
      ensures ChunkPage(View(), page, shift) && Used(View(), page) == Below(chunk + 1)
    {
      hide Size, Count;
      assert Reserved(shift) + 2 <= Count(shift) by { Sizes(shift); }
      assert Below(1) == {0};
      if shift < EXACT_SHIFT {
        var words := FreshBitmap(shift);
        bitmap := bitmap[page := words];
        slab := slab[page := Shift(shift)];
        kind := kind[page := SMALL];
      } else if shift == EXACT_SHIFT {
        slab := slab[page := Map({0})];
        kind := kind[page := EXACT];
      } else {
        slab := slab[page := MapShift({0}, shift)];
        kind := kind[page := BIG];
      }
      owner := owner[page := Chunks(shift)];
      chunk := Reserved(shift);
      BelowGrows(chunk, Count(shift));
    }

    /** The page becomes the only one on list `k`; the backward link of the head is not written. */
    method LinkFirst(page: nat, k: nat)
      requires Rings(next, prev, n, lists) && k < |lists| && lists[k] == [] && page < n && !Listed(lists, page)
      modifies this`next, this`prev, this`lists
      ensures lists == old(lists)[k := [page]] && Rings(next, prev, n, lists)
      ensures forall x: nat | x < n && x != page :: next[x] == old(next)[x]
    {
      hide Ring;
      RingsPush(next, prev, n, lists, k, page);
      EmptyHead(k);
      RingsHead(next[page := n + k][n + k := page], prev[page := n + k][n + k := page], n, lists[k := [page] + lists[k]], k, prev[n + k]);
      assert [page] + lists[k] == [page];
      assert prev[page := n + k][n + k := page][n + k := prev[n + k]] == prev[page := n + k];
      next := next[page := n + k];
      prev := prev[page := n + k];
      next := next[n + k := page];
      lists := lists[k := [page]];
    }

    lemma EmptyHead(k: nat)
      requires Rings(next, prev, n, lists) && k < |lists| && lists[k] == []
      ensures next[n + k] == n + k
    {
      HeadNext(next, prev, n + k, lists[k]);
    }

    /**
     ngx_slab_alloc_locked.  A block of the smallest fitting size is added to the live ones; a
     request fails exactly when there is no room, and then changes nothing.
     */
    method AllocLocked(size: nat) returns (r: Option<nat>, len: nat)
      requires Valid()
      modifies this`slab, this`kind, this`bitmap, this`next, this`prev, this`lists, this`owner
      ensures Valid() && Sized(View()) && Sized(old(View()))
      ensures r.Some? ==> size <= len && Adds(old(View()), View(), r.value, len)
      ensures r.Some? && size < MAX_SIZE ==> exists s :: Serves(s, size) && len == Size(s)
      ensures r.Some? && size >= MAX_SIZE ==> len == PagesFor(size) * PAGE
      ensures r.None? <==> NoRoom(old(View()), size)
      ensures r.None? ==> View() == old(View())
    {
      hide StateOk, Homed, Ring, RunTaken, IsLive, Size;
      Lengths();
      if size >= MAX_SIZE {
        var found := AllocPages(PagesFor(size));
        if found == None {
          return None, 0;
        }
        len := PagesFor(size) * PAGE;
        ghost var h := found.value;
        forall b: nat, m: nat
          ensures IsLive(View(), b, m) <==> old(IsLive(View(), b, m)) || (b == h * PAGE && m == len)
          ensures !old(IsLive(View(), h * PAGE, len))
        {
          RunTakenLive(old(View()), View(), h, PagesFor(size), b, m);
        }
        return Some(found.value * PAGE), len;
      }
      var shift := ChooseShift(size);
      assert Serves(shift, size);
      len := Size(shift);
      var k := shift - MIN_SHIFT;
      ListHead(k);
      var page := next[n + k];
      if lists[k] != [] { ListNext(k, 0); }
      if next[page] != page {
        OnSlot(page, shift);
        HasRoom(View(), size, shift, page);
        var chunk := TakeChunk(page, shift);
        return Some(page * PAGE + chunk * Size(shift)), len;
      }
      SlotEmpty(shift);
      r := AllocFresh(size, shift);
    }

    /** The page that `ngx_slab_alloc_pages` finds is turned into chunks. */
    method AllocFresh(size: nat, shift: nat) returns (r: Option<nat>)
      requires Valid() && size < MAX_SIZE && Serves(shift, size) && lists[shift - MIN_SHIFT] == []
      modifies this`slab, this`kind, this`bitmap, this`next, this`prev, this`lists, this`owner
      ensures Valid() && Sized(View()) && Sized(old(View()))
      ensures r.Some? ==> Adds(old(View()), View(), r.value, Size(shift))
      ensures r.None? <==> NoRoom(old(View()), size)
      ensures r.None? ==> View() == old(View())
    {
      hide StateOk, Homed, Ring, RunTaken, IsLive, Size, Adds;
      Lengths();
      SlotEmpty(shift);
      ghost var st := View();
      var found := AllocPages(1);
      if found == None {
        NoFreeRun();
        return None;
      }
      ghost var st1 := View();
      var page := found.value;
      TakenPage(st, st1, page);
      StillEmpty(st, page, shift);
      var chunk := InitChunks(page, shift);
      FreshChunkAdds(st, st1, View(), page, shift, chunk);
      return Some(page * PAGE + chunk * Size(shift));
    }

    // ---------------------------------------------------------------------- free

    /** Clears the bit of a chunk; `empty` says that only reserved chunks are left. */
    method UnmarkChunk(page: nat, shift: nat, chunk: nat) returns (empty: bool)
      requires Sized(View()) && page < |owner| && ChunkPage(View(), page, shift)
      requires Reserved(shift) <= chunk && chunk in Used(View(), page)
      modifies this`slab, this`bitmap
      ensures SameSize(old(View()), View()) && OnlyPage(old(View()), View(), page)
      ensures Encoded(View(), page, shift)
      ensures Used(View(), page) == old(Used(View(), page)) - {chunk}
      ensures empty <==> Used(View(), page) <= Below(Reserved(shift))
    {
      hide Size, Count, Words;
      if shift < EXACT_SHIFT {
        assert Reserved(shift) < BITS by { Sizes(shift); }
        var words;
        words, empty := GiveSmall(bitmap[page], chunk, Reserved(shift));
        bitmap := bitmap[page := words];
      } else if shift == EXACT_SHIFT {
        slab := slab[page := Map(slab[page].used - {chunk})];
        empty := slab[page].used == {};
      } else {
        slab := slab[page := MapShift(slab[page].used - {chunk}, shift)];
        empty := slab[page].used == {};
      }
    }

    /** Lines 448-484, 497-519 and 538-558: gives back a taken chunk. */
    method FreeChunk(page: nat, shift: nat, chunk: nat, full: bool)
      requires Valid() && page < n && owner[page] == Chunks(shift) && IsShift(shift)
      requires Reserved(shift) <= chunk && chunk in Used(View(), page)
      requires full <==> FullPage(View(), page, shift)
      modifies this`slab, this`kind, this`bitmap, this`next, this`prev, this`lists, this`owner
      ensures Valid() && Sized(View()) && Sized(old(View()))
      ensures Removes(old(View()), View(), page * PAGE + chunk * Size(shift))
    {
      hide StateOk, Ring, Size, Count, Reserved, Encoded, Used, Skip;
      ghost var st := View();
      var k := shift - MIN_SHIFT;
      Lengths();
      UsedInPage(st, page, shift);
      BelowContains(Count(shift), chunk);
      OnOneList(page);
      ButHome(st, lists, next, page);
      if full {
        ghost var ls, nx := lists, next;
        Push(page, k);
        PushHomedBut(st, ls, nx, lists, next, page, k);
      }
      LinkedPage(page, k);
      var empty := UnmarkChunk(page, shift, chunk);
      if empty {
        ghost var st1 := View();
        FreePages(page, 1, st, k);
        LastChunkRemoves(st, View(), page, shift, chunk);
      } else {
        UnmarkedOk(st, View(), page, shift, chunk);
        ChunkRemoves(st, View(), page, shift, chunk);
        NotFull(st, View(), page, shift, chunk);
        BackHome(st, View(), lists, next, page);
      }
    }

    /**
     ngx_slab_free_locked.  Exactly the live blocks can be given back; any other pointer that the
     headers tell apart is refused and changes nothing.
     */
    method FreeLocked(addr: int) returns (ok: bool)
      requires Valid() && (addr < n * PAGE || end < addr)
      requires addr >= 0 ==> Checkable(View(), addr)
      modifies this`slab, this`kind, this`bitmap, this`next, this`prev, this`lists, this`owner
      ensures Valid() && Sized(View()) && Sized(old(View()))
      ensures ok <==> LiveAt(old(View()), addr)
      ensures ok ==> Removes(old(View()), View(), addr)
      ensures !ok ==> View() == old(View())
    {
      hide StateOk, Homed, Ring, Size, Count, Reserved, Used;
      Lengths();
      if addr < 0 || addr > end {
        assert addr >= 0 ==> addr / PAGE >= n;
        return false;
      }
      var page, off := addr / PAGE, addr % PAGE;
      HeaderMeaning(page);
      match kind[page] {
        case SMALL => ok := FreeSmall(addr, page);
        case EXACT => ok := FreeExact(addr, page);
        case BIG => ok := FreeBig(addr, page);
        case PAGE_KIND => ok := FreeRun(addr, page);
      }
    }

    /** Lines 563-588: whole pages. */
    method FreeRun(addr: nat, page: nat) returns (ok: bool)
      requires Valid() && page < n && addr / PAGE == page && kind[page] == PAGE_KIND && Checkable(View(), addr)
      modifies this`slab, this`kind, this`next, this`prev, this`lists, this`owner
      ensures Valid() && Sized(View()) && Sized(old(View()))
      ensures ok <==> LiveAt(old(View()), addr)
      ensures ok ==> Removes(old(View()), View(), addr)
      ensures !ok ==> View() == old(View())
    {
      hide StateOk, Homed, Ring, RunReturned;
      Lengths();
      HeaderMeaning(page);
      if addr % PAGE != 0 {
        return false;
      }
      if slab[page] == Idle(0) {
        return false;
      }
      if slab[page] == Busy {
        return false;
      }
      ghost var st := View();
      ButHome(st, lists, next, page);
      NotListed(page);
      assert IsLive(st, addr, slab[page].pages * PAGE);
      FreePages(page, slab[page].pages, st, SLOTS);
      RunRemoves(st, View(), page, st.slab[page].pages);
      return true;
    }

    /**
     Every run: whatever blocks a client asks for and gives back, in any order, the blocks it
     holds are exactly the live ones and are disjoint intervals inside the pool.
     */
    method Serve(script: seq<Request>) returns (held: map<nat, Block>)
      requires Valid() && Sized(View()) && forall a: nat, len: nat :: !IsLive(View(), a, len)
      modifies this`slab, this`kind, this`bitmap, this`next, this`prev, this`lists, this`owner
      ensures Valid() && Sized(View()) && Holds(View(), held) && Intervals(held, n)
      ensures FreeLengths(View(), n) + BusyPages(View(), n) == n
    {
      hide StateOk, Homed, Rings, IsLive;
      held := map[];
      for i := 0 to |script|
        invariant Valid() && Sized(View()) && Holds(View(), held)
      {
        ghost var st := View();
        match script[i] {
          case Get(size) =>
            var r, len := AllocLocked(size);
            if r.Some? {
              HoldsMore(st, View(), held, r.value, len, size);
              held := held[r.value := Block(len, size)];
            }
          case Give(addr) =>
            if addr in held {
              HeldIsLive(st, held, addr);
              var ok := FreeLocked(addr);
              held := held - {addr};
            }
        }
      }
      HeldApart(View(), held);
      Conservation(View());
    }

    /** What the type bits of a page tell about it. */
    lemma HeaderMeaning(page: nat)
      requires Valid() && page < n
      ensures match kind[page]
        case SMALL => owner[page].Chunks? && IsShift(owner[page].shift) && owner[page].shift < EXACT_SHIFT && slab[page] == Shift(owner[page].shift)
        case EXACT => owner[page] == Chunks(EXACT_SHIFT) && slab[page].Map?
        case BIG => owner[page].Chunks? && IsShift(owner[page].shift) && owner[page].shift > EXACT_SHIFT && slab[page].MapShift? && slab[page].shift == owner[page].shift
        case PAGE_KIND =>
          if owner[page] == Free(page) then slab[page].Idle? && slab[page].pages > 0
          else if owner[page].Free? then slab[page] == Idle(0)
          else if owner[page] == Run(page) then slab[page].Start? && slab[page].pages > 0
          else owner[page].Run? && slab[page] == Busy
    {
      assert PageOk(View(), page);
    }

    /** Lines 432-486: chunks whose bitmap is in the page. */
    method FreeSmall(addr: nat, page: nat) returns (ok: bool)
      requires Valid() && page < n && addr / PAGE == page && kind[page] == SMALL && Checkable(View(), addr)
      modifies this`slab, this`kind, this`bitmap, this`next, this`prev, this`lists, this`owner
      ensures Valid() && Sized(View()) && Sized(old(View()))
      ensures ok <==> LiveAt(old(View()), addr)
      ensures ok ==> Removes(old(View()), View(), addr)
      ensures !ok ==> View() == old(View())
    {
      hide StateOk, Homed, Ring, Size, Count, Reserved, Below, Words;
      Lengths();
      HeaderMeaning(page);
      var shift := slab[page].shift;
      UsedInPage(View(), page, shift);
      ChunkAt(View(), addr, shift);
      if addr % Size(shift) != 0 {
        return false;
      }
      var chunk := addr % PAGE / Size(shift);
      assert Words(shift) * BITS == Count(shift) by { Sizes(shift); }
      if chunk % BITS !in bitmap[page][chunk / BITS] {
        return false;
      }
      OffList(page, shift);
      FreeChunk(page, shift, chunk, next[page] == NULL);
      return true;
    }

    /** Lines 488-522: the header is the bitmap. */
    method FreeExact(addr: nat, page: nat) returns (ok: bool)
      requires Valid() && page < n && addr / PAGE == page && kind[page] == EXACT && Checkable(View(), addr)
      modifies this`slab, this`kind, this`bitmap, this`next, this`prev, this`lists, this`owner
      ensures Valid() && Sized(View()) && Sized(old(View()))
      ensures ok <==> LiveAt(old(View()), addr)
      ensures ok ==> Removes(old(View()), View(), addr)
      ensures !ok ==> View() == old(View())
    {
      hide StateOk, Homed, Ring, Size, Count, Reserved, Below, Words;
      Lengths();
      HeaderMeaning(page);
      UsedInPage(View(), page, EXACT_SHIFT);
      ChunkAt(View(), addr, EXACT_SHIFT);
      assert Count(EXACT_SHIFT) == BITS by { Sizes(EXACT_SHIFT); }
      if addr % Size(EXACT_SHIFT) != 0 {
        return false;
      }
      var chunk := addr % PAGE / Size(EXACT_SHIFT);
      if chunk !in slab[page].used {
        return false;
      }
      FreeChunk(page, EXACT_SHIFT, chunk, slab[page].used == Full());
      return true;
    }

    /** Lines 524-561: the header holds bitmap and shift. */
    method FreeBig(addr: nat, page: nat) returns (ok: bool)
      requires Valid() && page < n && addr / PAGE == page && kind[page] == BIG && Checkable(View(), addr)
      modifies this`slab, this`kind, this`bitmap, this`next, this`prev, this`lists, this`owner
      ensures Valid() && Sized(View()) && Sized(old(View()))
      ensures ok <==> LiveAt(old(View()), addr)
      ensures ok ==> Removes(old(View()), View(), addr)
      ensures !ok ==> View() == old(View())
    {
      hide StateOk, Homed, Ring, Size, Count, Reserved, Below, Words;
      Lengths();
      HeaderMeaning(page);
      var shift := slab[page].shift;
      UsedInPage(View(), page, shift);
      ChunkAt(View(), addr, shift);
      if addr % Size(shift) != 0 {
        return false;
      }
      var chunk := addr % PAGE / Size(shift);
      if chunk !in slab[page].used {
        return false;
      }
      OffList(page, shift);
      FreeChunk(page, shift, chunk, next[page] == NULL);
      return true;
    }

    /** A page of chunks is on no list exactly when it is full. */
    lemma OffList(page: nat, shift: nat)
      requires Valid() && page < n && owner[page] == Chunks(shift) && IsShift(shift)
      ensures next[page] == NULL <==> FullPage(View(), page, shift)
    {
      hide StateOk, Ring, FullPage;
      Lengths();
      HomedAt(View(), lists, next, shift - MIN_SHIFT, page);
      if !FullPage(View(), page, shift) { LinkedPage(page, shift - MIN_SHIFT); }
    }

    lemma OnOneList(page: nat)
      requires Valid() && page < n
      ensures |lists| == SLOTS + 1 && forall j | 0 <= j <= SLOTS :: page in lists[j] <==> j == Home(View(), page)
      ensures !Listed(lists, page) <==> Home(View(), page) == -1
    {
      forall j | 0 <= j <= SLOTS ensures page in lists[j] <==> j == Home(View(), page) { HomedAt(View(), lists, next, j, page); }
      HomeRange(View(), page);
      if Home(View(), page) >= 0 { assert page in lists[Home(View(), page)]; }
    }

    lemma LinkedPage(page: nat, k: nat)
      requires Rings(next, prev, n, lists) && k < |lists| && page in lists[k]
      ensures page < n && next[page] != NULL
    {
      var i :| 0 <= i < |lists[k]| && lists[k][i] == page;
      assert Ring(next, prev, n + k, lists[k]);
      RangeOf(next, prev, n + k, lists[k], i);
    }

    lemma NoFreeRun()
      requires Valid() && forall x: nat | x < n && owner[x] == Free(x) :: slab[x].Idle? && slab[x].pages < 1
      ensures forall x: nat | x < n :: owner[x] != Free(x)
    {
      forall x: nat | x < n ensures owner[x] != Free(x) {
        if owner[x] == Free(x) { FreeRunFits(View(), x); }
      }
    }

    /** An empty slot list means that every page of that chunk size is full. */
    lemma SlotEmpty(shift: nat)
      requires Valid() && IsShift(shift)
      ensures lists[shift - MIN_SHIFT] == [] <==>
        forall x: nat | x < n && owner[x] == Chunks(shift) :: FullPage(View(), x, shift)
    {
      var k := shift - MIN_SHIFT;
      if lists[k] == [] {
        forall x: nat | x < n && owner[x] == Chunks(shift) ensures FullPage(View(), x, shift) {
          HomedAt(View(), lists, next, k, x);
        }
      } else {
        OnSlot(lists[k][0], shift);
      }
    }

    lemma StillEmpty(st: State, page: nat, shift: nat)
      requires Valid() && IsShift(shift) && SameSize(st, View()) && Takes(st, page, 1) && RunTaken(st, View(), page, 1) && StateOk(st)
      requires forall x: nat | x < n && st.owner[x] == Chunks(shift) :: FullPage(st, x, shift)
      ensures lists[shift - MIN_SHIFT] == []
    {
      forall x: nat | x < n && owner[x] == Chunks(shift) ensures FullPage(View(), x, shift) {
        RunTakenHome(st, View(), page, 1, x);
        RunInside(st, page, x);
      }
      SlotEmpty(shift);
    }

    lemma RunInside(st: State, page: nat, x: nat)
      requires StateOk(st) && Takes(st, page, 1) && x < |st.owner| && SameSize(st, View()) && RunTaken(st, View(), page, 1)
      ensures owner[x].Chunks? ==> st.owner[x] == owner[x] && Used(View(), x) == Used(st, x)
    {
      SameUsedOutside(st, View(), page, 1, x);
      assert IsHead(st, page);
      RunOwner(st, page, x);
    }

    lemma TakenPage(st: State, st': State, page: nat)
      requires SameSize(st, st') && Takes(st, page, 1) && RunTaken(st, st', page, 1)
      ensures st'.owner[page] == Run(page) && st'.slab[page] == Start(1)
    {
    }

    /** A page on a slot list holds chunks of that size and has a free one. */
    lemma OnSlot(page: nat, shift: nat)
      requires Valid() && IsShift(shift) && page in lists[shift - MIN_SHIFT]
      ensures page < n && owner[page] == Chunks(shift) && !FullPage(View(), page, shift)
      ensures forall j | 0 <= j <= SLOTS :: page in lists[j] <==> j == shift - MIN_SHIFT
    {
      HomedAt(View(), lists, next, shift - MIN_SHIFT, page);
      forall j | 0 <= j <= SLOTS ensures page in lists[j] <==> j == shift - MIN_SHIFT { HomedAt(View(), lists, next, j, page); }
    }

    // ------------------------------------------------- what the invariant says about lists

    lemma ListHead(k: nat)
      requires Valid() && k <= SLOTS
      ensures |lists| == SLOTS + 1 && |next| == n + SLOTS + 1
      ensures next[n + k] == if lists[k] == [] then n + k else lists[k][0]
      ensures forall i | 0 <= i < |lists[k]| :: lists[k][i] < n
      ensures forall a, b | 0 <= a < b < |lists[k]| :: lists[k][a] != lists[k][b]
    {
      HeadNext(next, prev, n + k, lists[k]);
    }

    lemma ListNext(k: nat, i: nat)
      requires Valid() && k <= SLOTS && i < |lists[k]|
      ensures lists[k][i] < n && next[lists[k][i]] == (if i + 1 < |lists[k]| then lists[k][i + 1] else n + k)
      ensures next[lists[k][i]] != lists[k][i] && next[lists[k][i]] != NULL
    {
      assert Ring(next, prev, n + k, lists[k]);
      assert next[lists[k][i]] == After(lists[k], n + k, i);
      RangeOf(next, prev, n + k, lists[k], i);
    }

    lemma AllTooShort(pages: nat)
      requires Valid()
      requires forall j | 0 <= j < |lists[SLOTS]| :: var x := lists[SLOTS][j]; x < n && slab[x].Idle? && slab[x].pages < pages
      ensures forall x: nat | x < n && owner[x] == Free(x) :: slab[x].Idle? && slab[x].pages < pages
    {
      forall x: nat | x < n && owner[x] == Free(x) ensures slab[x].Idle? && slab[x].pages < pages {
        HomedAt(View(), lists, next, SLOTS, x);
      }
    }

    /** The pages inside a free run are on no list and carry no type bits. */
    lemma RunUnlisted(page: nat)
      requires Valid() && page < n && owner[page] == Free(page)
      ensures slab[page].Idle? && page + slab[page].pages <= n
      ensures forall x: nat | page < x < page + slab[page].pages :: !Listed(lists, x)
      ensures forall x: nat | page <= x < page + slab[page].pages :: kind[x] == PAGE_KIND
    {
      FreeRunFits(View(), page);
      forall x: nat | page < x < page + slab[page].pages ensures !Listed(lists, x) { InsideRun(page, x); }
      forall x: nat | page <= x < page + slab[page].pages ensures kind[x] == PAGE_KIND {
        assert IsHead(View(), page);
        RunOwner(View(), page, x);
        assert PageOk(View(), x);
      }
    }
  }
}
