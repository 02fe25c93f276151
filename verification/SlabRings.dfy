/**
 The circular page lists of the slab pool: one per slot and one of free runs.

 A node is a page index or, from the page count on, a list head.  `Ring` ties the link fields to
 the sequence of pages on a list; the backward link of a head is never read and is left open.
 */
module SlabRings {

  const NULL: int := -1

  type Links = seq<int>

  /** The node after position `i` of the list `l` with head `h`. */
  function After(l: seq<nat>, h: nat, i: int): nat
    requires -1 <= i < |l|
  {
    if i + 1 < |l| then l[i + 1] else h
  }

  /** The node before position `i`. */
  function Before(l: seq<nat>, h: nat, i: int): nat
    requires 0 <= i < |l|
  {
    if i > 0 then l[i - 1] else h
  }

  ghost predicate Ring(next: Links, prev: Links, h: nat, l: seq<nat>) {
    && |next| == |prev| && h < |next|
    && (forall i | 0 <= i < |l| :: l[i] < |next| && l[i] != h)
    && (forall i, j | 0 <= i < j < |l| :: l[i] != l[j])
    && next[h] == After(l, h, -1)
    && (forall i {:trigger After(l, h, i)} | 0 <= i < |l| :: next[l[i]] == After(l, h, i))
    && (forall i {:trigger Before(l, h, i)} | 0 <= i < |l| :: prev[l[i]] == Before(l, h, i))
  }

  /** Links that agree on the nodes of a ring hold the same ring. */
  lemma RingFrame(next: Links, prev: Links, next': Links, prev': Links, h: nat, l: seq<nat>)
    requires Ring(next, prev, h, l) && |next'| == |prev'| == |next|
    requires next'[h] == next[h]
    requires forall i | 0 <= i < |l| :: next'[l[i]] == next[l[i]] && prev'[l[i]] == prev[l[i]]
    ensures Ring(next', prev', h, l)
  {
  }

  function Put(l: seq<nat>, i: nat, x: nat): seq<nat>
    requires i < |l|
  {
    l[i := x]
  }

  ghost function Skip(l: seq<nat>, i: nat): seq<nat>
    requires i < |l|
  {
    l[..i] + l[i + 1..]
  }

  lemma SkipAt(l: seq<nat>, i: nat)
    requires i < |l|
    ensures |Skip(l, i)| == |l| - 1
    ensures forall j {:trigger Skip(l, i)[j]} | 0 <= j < |l| - 1 :: Skip(l, i)[j] == if j < i then l[j] else l[j + 1]
  {
  }

  lemma SkipDistinct(next: Links, l: seq<nat>, h: nat, i: nat)
    requires i < |l| && forall i | 0 <= i < |l| :: l[i] < |next| && l[i] != h
    requires forall i, j | 0 <= i < j < |l| :: l[i] != l[j]
    ensures forall j | 0 <= j < |Skip(l, i)| :: Skip(l, i)[j] < |next| && Skip(l, i)[j] != h
    ensures forall a, b | 0 <= a < b < |Skip(l, i)| :: Skip(l, i)[a] != Skip(l, i)[b]
  {
  }

  /** The links of the page that ends up at position `j` when position `i` is unlinked. */
  lemma UnlinkAt(next: Links, prev: Links, h: nat, l: seq<nat>, i: nat, j: nat)
    requires Ring(next, prev, h, l) && i < |l| && j < |l| - 1
    ensures var n, p, r := next[l[i]], prev[l[i]], Skip(l, i);
      && 0 <= n < |next| && 0 <= p < |next| && r[j] < |next|
      && next[p := n][r[j]] == After(r, h, j) && prev[n := p][r[j]] == Before(r, h, j)
  {
    hide Skip;
    SkipAt(l, i);
    assert next[l[i]] == After(l, h, i) && prev[l[i]] == Before(l, h, i);
    var n, p, r := next[l[i]], prev[l[i]], Skip(l, i);
    var k := if j < i then j else j + 1;
    assert next[l[k]] == After(l, h, k) && prev[l[k]] == Before(l, h, k);
    assert j + 1 < |r| ==> r[j + 1] == if j + 1 < i then l[j + 1] else l[j + 2];
    assert j > 0 ==> r[j - 1] == if j - 1 < i then l[j - 1] else l[j];
    assert l[k] == p <==> k + 1 == i;
    assert l[k] == n <==> k == i + 1;
  }

  /** Unlinks the page at position `i`; its own links do not matter any more. */
  lemma RingUnlink(next: Links, prev: Links, h: nat, l: seq<nat>, i: nat)
    requires Ring(next, prev, h, l) && i < |l|
    ensures var n, p := next[l[i]], prev[l[i]];
      0 <= n < |next| && 0 <= p < |next| && n != l[i] && p != l[i] &&
      Ring(next[p := n], prev[n := p], h, Skip(l, i))
  {
    hide Skip;
    assert next[l[i]] == After(l, h, i) && prev[l[i]] == Before(l, h, i) && next[h] == After(l, h, -1);
    var n: nat, p: nat := next[l[i]], prev[l[i]];
    var r := Skip(l, i);
    SkipAt(l, i);
    SkipDistinct(next, l, h, i);
    assert next[p := n][h] == After(r, h, -1) by {
      assert |r| > 0 ==> r[0] == if 0 < i then l[0] else l[1];
    }
    forall j | 0 <= j < |r|
      ensures next[p := n][r[j]] == After(r, h, j) && prev[n := p][r[j]] == Before(r, h, j)
    {
      UnlinkAt(next, prev, h, l, i, j);
    }
  }

  /** Puts page `x` in front of the list. */
  lemma RingPush(next: Links, prev: Links, h: nat, l: seq<nat>, x: nat)
    requires Ring(next, prev, h, l) && x < |next| && x != h && x !in l
    ensures 0 <= next[h] < |next|
    ensures Ring(next[x := next[h]][h := x], prev[x := h][next[h] := x], h, [x] + l)
  {
    var r := [x] + l;
    PushAt(next, prev, h, l, x, 0);
    forall j: nat | j < |r|
      ensures next[x := next[h]][h := x][r[j]] == After(r, h, j) && prev[x := h][next[h] := x][r[j]] == Before(r, h, j)
    {
      PushAt(next, prev, h, l, x, j);
    }
  }

  /** The links of the page at position `j` once page `x` is in front. */
  lemma PushAt(next: Links, prev: Links, h: nat, l: seq<nat>, x: nat, j: nat)
    requires Ring(next, prev, h, l) && x < |next| && x != h && x !in l && j <= |l|
    ensures var r := [x] + l;
      && 0 <= next[h] < |next| && r[j] < |next|
      && next[x := next[h]][h := x][r[j]] == After(r, h, j) && prev[x := h][next[h] := x][r[j]] == Before(r, h, j)
  {
    assert next[h] == After(l, h, -1);
    if j > 0 { assert next[l[j - 1]] == After(l, h, j - 1) && prev[l[j - 1]] == Before(l, h, j - 1); }
  }

  /** Page `x` takes the place of the page at position `i`. */
  lemma RingReplace(next: Links, prev: Links, h: nat, l: seq<nat>, i: nat, x: nat)
    requires Ring(next, prev, h, l) && i < |l| && x < |next| && x != h && x !in l
    ensures var n, p := next[l[i]], prev[l[i]];
      0 <= n < |next| && 0 <= p < |next| &&
      Ring(next[x := n][p := x], prev[x := p][n := x], h, Put(l, i, x))
  {
    ReplaceAt(next, prev, h, l, i, x, i);
    PutDistinct(next, l, h, i, x);
    var n: nat, p: nat := next[l[i]], prev[l[i]];
    var r := Put(l, i, x);
    hide After, Before, Put;
    forall j: nat | j < |r|
      ensures next[x := n][p := x][r[j]] == After(r, h, j) && prev[x := p][n := x][r[j]] == Before(r, h, j)
    {
      ReplaceAt(next, prev, h, l, i, x, j);
    }
  }

  lemma PutDistinct(next: Links, l: seq<nat>, h: nat, i: nat, x: nat)
    requires i < |l| && x < |next| && x != h && x !in l && forall j | 0 <= j < |l| :: l[j] < |next| && l[j] != h
    requires forall j, k | 0 <= j < k < |l| :: l[j] != l[k]
    ensures |Put(l, i, x)| == |l| && forall j | 0 <= j < |l| :: Put(l, i, x)[j] < |next| && Put(l, i, x)[j] != h
    ensures forall j, k | 0 <= j < k < |l| :: Put(l, i, x)[j] != Put(l, i, x)[k]
  {
  }

  /** The links of the page at position `j` once `x` has replaced the page at position `i`. */
  lemma ReplaceAt(next: Links, prev: Links, h: nat, l: seq<nat>, i: nat, x: nat, j: nat)
    requires Ring(next, prev, h, l) && i < |l| && x < |next| && x != h && x !in l && j < |l|
    ensures var n, p, r := next[l[i]], prev[l[i]], Put(l, i, x);
      && 0 <= n < |next| && 0 <= p < |next| && r[j] < |next|
      && next[x := n][p := x][r[j]] == After(r, h, j) && prev[x := p][n := x][r[j]] == Before(r, h, j)
      && next[x := n][p := x][h] == After(r, h, -1)
  {
    assert next[l[i]] == After(l, h, i) && prev[l[i]] == Before(l, h, i);
    assert next[l[j]] == After(l, h, j) && prev[l[j]] == Before(l, h, j);
    assert j != i ==> (l[j] == prev[l[i]] <==> j + 1 == i);
    assert j != i ==> (l[j] == next[l[i]] <==> j == i + 1);
  }

  // --------------------------------------------------------- all lists of a pool

  /** List `k` of `lists` hangs from head `n + k`; no page is on two lists. */
  ghost predicate Rings(next: Links, prev: Links, n: nat, lists: seq<seq<nat>>) {
    && |next| == |prev| == n + |lists|
    && (forall k | 0 <= k < |lists| :: Ring(next, prev, n + k, lists[k]))
    && (forall k, i | 0 <= k < |lists| && 0 <= i < |lists[k]| :: lists[k][i] < n)
    && Apart(lists)
  }

  ghost predicate Apart(lists: seq<seq<nat>>) {
    forall j, k, x | 0 <= j < |lists| && 0 <= k < |lists| && j != k && x in lists[j] :: x !in lists[k]
  }

  predicate Listed(lists: seq<seq<nat>>, x: nat) { exists k | 0 <= k < |lists| :: x in lists[k] }

  /** The links of a page on no list, and the backward links of heads, do not matter. */
  lemma RingsIgnore(next: Links, prev: Links, n: nat, lists: seq<seq<nat>>, x: nat, u: int, v: int)
    requires Rings(next, prev, n, lists) && x < n && !Listed(lists, x)
    ensures Rings(next[x := u], prev[x := v], n, lists)
  {
    forall k | 0 <= k < |lists| ensures Ring(next[x := u], prev[x := v], n + k, lists[k]) {
      assert x !in lists[k];
      RingFrame(next, prev, next[x := u], prev[x := v], n + k, lists[k]);
    }
  }

  lemma RingsUnlink(next: Links, prev: Links, n: nat, lists: seq<seq<nat>>, k: nat, i: nat)
    requires Rings(next, prev, n, lists) && k < |lists| && i < |lists[k]|
    ensures var x := lists[k][i]; var b, a := next[x], prev[x];
      0 <= a < |next| && 0 <= b < |next| && a != x && b != x &&
      Rings(next[a := b], prev[b := a], n, lists[k := Skip(lists[k], i)]) &&
      !Listed(lists[k := Skip(lists[k], i)], x)
  {
    hide Ring;
    var x := lists[k][i];
    RingUnlink(next, prev, n + k, lists[k], i);
    Neighbours(next, prev, n + k, lists[k], i);
    var b: nat, a: nat := next[x], prev[x];
    var lists' := lists[k := Skip(lists[k], i)];
    SkipMembers(lists[k], i, next, n + k, prev);
    forall j | 0 <= j < |lists| && j != k ensures Ring(next[a := b], prev[b := a], n + j, lists[j]) {
      OthersKept(next, prev, n, lists, j, k, a, b, n + j);
      RingFrame(next, prev, next[a := b], prev[b := a], n + j, lists[j]);
    }
  }

  /** The neighbours of a page are on the same list or its head. */
  lemma Neighbours(next: Links, prev: Links, h: nat, l: seq<nat>, i: nat)
    requires Ring(next, prev, h, l) && i < |l|
    ensures (next[l[i]] == h || next[l[i]] in l) && (prev[l[i]] == h || prev[l[i]] in l)
  {
    assert next[l[i]] == After(l, h, i) && prev[l[i]] == Before(l, h, i);
  }

  lemma SkipMembers(l: seq<nat>, i: nat, next: Links, h: nat, prev: Links)
    requires Ring(next, prev, h, l) && i < |l|
    ensures forall y :: y in Skip(l, i) <==> y in l && y != l[i]
  {
    SkipAt(l, i);
    forall y | y in l && y != l[i] ensures y in Skip(l, i) {
      var j :| 0 <= j < |l| && l[j] == y;
      assert Skip(l, i)[if j < i then j else j - 1] == y;
    }
  }

  /** Nodes of list `k` are not nodes of list `j`. */
  lemma OthersKept(next: Links, prev: Links, n: nat, lists: seq<seq<nat>>, j: nat, k: nat, a: nat, b: nat, h: nat)
    requires Rings(next, prev, n, lists) && j < |lists| && k < |lists| && j != k && h == n + j
    requires (a == n + k || a in lists[k]) && (b == n + k || b in lists[k])
    ensures a != h && b != h && a !in lists[j] && b !in lists[j]
  {
  }

  lemma RingsPush(next: Links, prev: Links, n: nat, lists: seq<seq<nat>>, k: nat, x: nat)
    requires Rings(next, prev, n, lists) && k < |lists| && x < n && !Listed(lists, x)
    ensures var h := n + k; var f := next[h];
      0 <= f < |next| && f != x &&
      Rings(next[x := f][h := x], prev[x := h][f := x], n, lists[k := [x] + lists[k]])
  {
    hide Ring;
    assert x !in lists[k];
    var h := n + k;
    HeadNext(next, prev, h, lists[k]);
    RingPush(next, prev, h, lists[k], x);
    var f := next[h];
    forall j | 0 <= j < |lists| && j != k ensures Ring(next[x := f][h := x], prev[x := h][f := x], n + j, lists[j]) {
      assert x !in lists[j];
      OthersKept(next, prev, n, lists, j, k, h, f, n + j);
      RingFrame(next, prev, next[x := f][h := x], prev[x := h][f := x], n + j, lists[j]);
    }
  }

  lemma HeadNext(next: Links, prev: Links, h: nat, l: seq<nat>)
    requires Ring(next, prev, h, l)
    ensures next[h] == (if l == [] then h else l[0]) && h < |next| && 0 <= next[h] < |next|
  {
    assert next[h] == After(l, h, -1);
  }

  lemma RingsReplace(next: Links, prev: Links, n: nat, lists: seq<seq<nat>>, k: nat, i: nat, x: nat)
    requires Rings(next, prev, n, lists) && k < |lists| && i < |lists[k]| && x < n && !Listed(lists, x)
    ensures var y := lists[k][i]; var b, a := next[y], prev[y]; var lists' := lists[k := Put(lists[k], i, x)];
      0 <= a < |next| && 0 <= b < |next| && a != x && b != x && a != y && b != y &&
      Rings(next[x := b][a := x], prev[x := a][b := x], n, lists') && !Listed(lists', y)
  {
    hide Ring;
    assert x !in lists[k];
    var y, h := lists[k][i], n + k;
    RingReplace(next, prev, h, lists[k], i, x);
    Neighbours(next, prev, h, lists[k], i);
    RangeOf(next, prev, h, lists[k], i);
    var b: nat, a: nat := next[y], prev[y];
    var lists' := lists[k := Put(lists[k], i, x)];
    ReplacedMembers(next, prev, h, lists[k], i, x);
    forall j | 0 <= j < |lists| && j != k ensures Ring(next[x := b][a := x], prev[x := a][b := x], n + j, lists[j]) {
      assert x !in lists[j];
      OthersKept(next, prev, n, lists, j, k, a, b, n + j);
      RingFrame(next, prev, next[x := b][a := x], prev[x := a][b := x], n + j, lists[j]);
    }
  }

  lemma RangeOf(next: Links, prev: Links, h: nat, l: seq<nat>, i: nat)
    requires Ring(next, prev, h, l) && i < |l|
    ensures 0 <= next[l[i]] < |next| && 0 <= prev[l[i]] < |next| && next[l[i]] != l[i] && prev[l[i]] != l[i]
  {
    assert next[l[i]] == After(l, h, i) && prev[l[i]] == Before(l, h, i);
  }

  lemma ReplacedMembers(next: Links, prev: Links, h: nat, l: seq<nat>, i: nat, x: nat)
    requires Ring(next, prev, h, l) && i < |l| && x !in l
    ensures forall z :: z in Put(l, i, x) <==> (z in l && z != l[i]) || z == x
  {
    var r := Put(l, i, x);
    assert r[i] == x;
    forall z | z in l && z != l[i] ensures z in r {
      var j :| 0 <= j < |l| && l[j] == z;
      assert r[j] == z;
    }
  }

  /** The neighbours of a listed page are listed or heads, and are linked. */
  lemma RingNeighbours(next: Links, prev: Links, n: nat, lists: seq<seq<nat>>, k: nat, i: nat)
    requires Rings(next, prev, n, lists) && k < |lists| && i < |lists[k]|
    ensures var x := lists[k][i]; var b, a := next[x], prev[x];
      && 0 <= a < |next| && 0 <= b < |next| && next[a] == x
      && (a < n ==> Listed(lists, a)) && (b < n ==> Listed(lists, b))
  {
    var l, h := lists[k], n + k;
    assert Ring(next, prev, h, l);
    Neighbours(next, prev, h, l, i);
    RangeOf(next, prev, h, l, i);
    assert prev[l[i]] == Before(l, h, i);
    if i > 0 { assert next[l[i - 1]] == After(l, h, i - 1); } else { assert next[h] == After(l, h, -1); }
  }

  /** The backward link of a head does not matter. */
  lemma RingsHead(next: Links, prev: Links, n: nat, lists: seq<seq<nat>>, k: nat, v: int)
    requires Rings(next, prev, n, lists) && k < |lists|
    ensures Rings(next, prev[n + k := v], n, lists)
  {
    forall j | 0 <= j < |lists| ensures Ring(next, prev[n + k := v], n + j, lists[j]) {
      RingFrame(next, prev, next, prev[n + k := v], n + j, lists[j]);
    }
  }

  lemma DistinctList(next: Links, prev: Links, n: nat, lists: seq<seq<nat>>, k: nat)
    requires Rings(next, prev, n, lists) && k < |lists|
    ensures forall a, b | 0 <= a < b < |lists[k]| :: lists[k][a] != lists[k][b]
  {
  }
}
