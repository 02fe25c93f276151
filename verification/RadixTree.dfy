/**
 The 32-bit radix tree of ngx_radix_tree.c, without preallocation.

 `at` maps each path that the tree has, a sequence of bits from the root, to its node; a prefix of
 length `n` is the path of the first `n` bits of its key.
 */
module RadixTree {
  import opened Words

  const NO_VALUE: Word := WORD - 1

  type Path = seq<bool>

  class Node {
    var left: Node?
    var right: Node?
    var parent: Node?
    var value: Word

    constructor () { }
  }

  // ------------------------------------------------------------------ bits of a key

  function Half(bit: bv32): bv32 { bit >> 1 }

  predicate On(word: bv32, bit: bv32) { word & bit != 0 }

  /** The value of the variable `bit` after `i` shifts. */
  function BitAt(i: nat): bv32 {
    if i == 0 then 0x8000_0000 else Half(BitAt(i - 1))
  }

  function Bit(key: bv32, i: nat): bool { On(key, BitAt(i)) }

  lemma BitsEnd()
    ensures BitAt(32) == 0
  {
    assert BitAt(4) == 0x0800_0000;
    assert BitAt(8) == 0x0080_0000;
    assert BitAt(12) == 0x0008_0000;
    assert BitAt(16) == 0x0000_8000;
    assert BitAt(20) == 0x0000_0800;
    assert BitAt(24) == 0x0000_0080;
    assert BitAt(28) == 0x0000_0008;
    assert BitAt(32) == 0;
  }

  /** The mask starts with `n` one bits and no more; bits behind a gap are never looked at. */
  ghost predicate IsMask(mask: bv32, n: nat) {
    n <= 32 && (forall i: nat | i < n :: Bit(mask, i)) && (n < 32 ==> !Bit(mask, n))
  }

  function OnesFrom(mask: bv32, i: nat): nat
    requires i <= 32
    decreases 32 - i
  {
    if i < 32 && Bit(mask, i) then OnesFrom(mask, i + 1) else i
  }

  /** The length of the prefix that a mask stands for. */
  function Length(mask: bv32): nat { OnesFrom(mask, 0) }

  lemma {:induction false} CountsOnes(mask: bv32, i: nat)
    requires i <= 32 && forall j: nat | j < i :: Bit(mask, j)
    ensures IsMask(mask, OnesFrom(mask, i))
    decreases 32 - i
  {
    hide Bit;
    if i < 32 && Bit(mask, i) { CountsOnes(mask, i + 1); }
  }

  /** For a contiguous mask the length is the number of its one bits. */
  lemma ContiguousLength(mask: bv32, n: nat)
    requires n <= 32 && forall i: nat | i < 32 :: Bit(mask, i) <==> i < n
    ensures Length(mask) == n
  {
    hide Bit, OnesFrom;
    CountsOnes(mask, 0);
    var m := Length(mask);
    assert m < 32 ==> !Bit(mask, m);
    assert n < 32 ==> !Bit(mask, n);
  }

  /** The first `n` bits of `key`. */
  function Prefix(key: bv32, n: nat): (p: Path)
    ensures |p| == n
  {
    if n == 0 then [] else Prefix(key, n - 1) + [Bit(key, n - 1)]
  }

  lemma {:induction false} PrefixOfPrefix(key: bv32, m: nat, n: nat)
    requires m <= n
    ensures Prefix(key, n)[..m] == Prefix(key, m)
    decreases n
  {
    if m < n { PrefixOfPrefix(key, m, n - 1); }
  }

  lemma MaskEnd(mask: bv32, n: nat, i: nat)
    requires IsMask(mask, n) && i <= n
    ensures On(mask, BitAt(i)) <==> i < n
  {
    hide BitAt, On;
    if i == 32 {
      BitsEnd();
      NoBit(mask);
    } else {
      assert i < n ==> Bit(mask, i);
    }
  }

  lemma NoBit(word: bv32)
    ensures !On(word, 0)
  {
  }

  // ------------------------------------------------------- trees as maps from paths

  datatype Fields = Fields(left: Node?, right: Node?, parent: Node?, value: Word)

  function FieldsOf(n: Node): Fields
    reads n
  {
    Fields(n.left, n.right, n.parent, n.value)
  }

  type Paths = map<Path, Node>
  type Snapshot = map<Path, Fields>

  function Init(p: Path): Path
    requires p != []
  {
    p[..|p| - 1]
  }

  function Child(at: Paths, p: Path, b: bool): Node? {
    if p + [b] in at then at[p + [b]] else null
  }

  function Up(at: Paths, p: Path): Node? {
    if p != [] && Init(p) in at then at[Init(p)] else null
  }

  /** The node at `p` is linked to its children and its parent. */
  ghost predicate NodeOk(at: Paths, fs: Snapshot, p: Path) {
    && p in at && p in fs && |p| <= 32 && (p != [] ==> Init(p) in at)
    && fs[p].left == Child(at, p, false) && fs[p].right == Child(at, p, true) && fs[p].parent == Up(at, p)
  }

  ghost predicate Linked(at: Paths, fs: Snapshot, root: Node) {
    && [] in at && root == at[[]] && fs.Keys == at.Keys
    && (forall p, q | p in at && q in at && at[p] == at[q] :: p == q)
    && (forall p {:trigger NodeOk(at, fs, p)} | p in at :: NodeOk(at, fs, p))
  }

  predicate IsLeaf(f: Fields) { f.left == null && f.right == null }

  /** As a node is made. */
  predicate IsBlank(f: Fields) { IsLeaf(f) && f.value == NO_VALUE }

  ghost predicate Bearing(fs: Snapshot, p: Path) { p != [] && p in fs && IsLeaf(fs[p]) ==> fs[p].value != NO_VALUE }

  /** Every leaf but the root, and but the one at `but`, carries a value. */
  ghost predicate Leaves(fs: Snapshot, but: Path) {
    forall p {:trigger Bearing(fs, p)} | p in fs && p != but :: Bearing(fs, p)
  }

  ghost function Bound(fs: Snapshot): map<Path, Word> {
    map p | p in fs && fs[p].value != NO_VALUE :: fs[p].value
  }

  lemma AppendUnique(p: Path, b: bool, q: Path, c: bool)
    requires p + [b] == q + [c]
    ensures p == q && b == c
  {
    assert (p + [b])[..|p|] == p && (q + [c])[..|q|] == q;
    assert (p + [b])[|p|] == b && (q + [c])[|q|] == c;
  }

  lemma InitAppend(p: Path, b: bool)
    ensures Init(p + [b]) == p
  {
  }

  lemma {:induction false} Prefixes(at: Paths, fs: Snapshot, root: Node, p: Path, m: nat)
    requires Linked(at, fs, root) && p in at && m <= |p|
    ensures p[..m] in at
    decreases |p|
  {
    assert NodeOk(at, fs, p);
    if m < |p| {
      Prefixes(at, fs, root, Init(p), m);
      assert Init(p)[..m] == p[..m];
    } else {
      assert p[..m] == p;
    }
  }

  /** What is below a missing path is missing. */
  lemma NothingBelow(at: Paths, fs: Snapshot, root: Node, p: Path, b: bool)
    requires Linked(at, fs, root) && p !in at
    ensures p + [b] !in at
  {
    InitAppend(p, b);
    assert p + [b] in at ==> NodeOk(at, fs, p + [b]);
  }

  // ------------------------------------------------------------------- one node more

  function WithChild(f: Fields, b: bool, n: Node?): Fields {
    if b then f.(right := n) else f.(left := n)
  }

  ghost function Grown(at: Paths, fs: Snapshot, p: Path, b: bool): Snapshot
    requires p in at && p in fs && p + [b] in at
  {
    fs[p + [b] := Fields(null, null, at[p], NO_VALUE)][p := WithChild(fs[p], b, at[p + [b]])]
  }

  lemma GrowLinked(at: Paths, fs: Snapshot, root: Node, p: Path, b: bool, n: Node)
    requires Linked(at, fs, root) && p in at && p + [b] !in at && |p| < 32 && n !in at.Values
    ensures p in fs && Linked(at[p + [b] := n], Grown(at[p + [b] := n], fs, p, b), root)
  {
    var at', c := at[p + [b] := n], p + [b];
    assert NodeOk(at, fs, p);
    var fs' := Grown(at', fs, p, b);
    InitAppend(p, b);
    NothingBelow(at, fs, root, c, false);
    NothingBelow(at, fs, root, c, true);
    forall q | q in at' ensures NodeOk(at', fs', q) {
      ChildGrown(at, p, b, n, q, false);
      ChildGrown(at, p, b, n, q, true);
      assert q != c ==> NodeOk(at, fs, q);
    }
  }

  lemma ChildGrown(at: Paths, p: Path, b: bool, n: Node, q: Path, c: bool)
    ensures Child(at[p + [b] := n], q, c) == if q == p && c == b then n else Child(at, q, c)
  {
    if q + [c] == p + [b] { AppendUnique(q, c, p, b); }
  }

  lemma GrowLeaves(at: Paths, fs: Snapshot, p: Path, b: bool)
    requires p in at && p in fs && p + [b] in at && p + [b] !in fs
    ensures Leaves(fs, p) ==> Leaves(Grown(at, fs, p, b), p + [b])
    ensures Bound(Grown(at, fs, p, b)) == Bound(fs)
  {
    var fs' := Grown(at, fs, p, b);
    forall q | q in fs' && q != p + [b] && Leaves(fs, p) ensures Bearing(fs', q) {
      if q != p { assert Bearing(fs, q); }
    }
  }

  // ------------------------------------------------------------------- one node less

  ghost function Pruned(at: Paths, fs: Snapshot, p: Path): Snapshot
    requires p != [] && Init(p) in fs
  {
    (fs - {p})[Init(p) := WithChild(fs[Init(p)], p[|p| - 1], null)]
  }

  lemma LeafIsLast(at: Paths, fs: Snapshot, p: Path, q: Path)
    requires NodeOk(at, fs, p) && IsLeaf(fs[p]) && q in at
    ensures q != [] ==> Init(q) != p
  {
    if q != [] {
      var b := q[|q| - 1];
      assert q == Init(q) + [b];
      assert Child(at, p, b) == null;
    }
  }

  lemma PruneLinked(at: Paths, fs: Snapshot, root: Node, p: Path)
    requires Linked(at, fs, root) && p in at && p != [] && p in fs && IsLeaf(fs[p])
    ensures Init(p) in at && Init(p) in fs && Linked(at - {p}, Pruned(at, fs, p), root)
  {
    assert NodeOk(at, fs, p);
    forall q | q in at && q != p ensures NodeOk(at - {p}, Pruned(at, fs, p), q) {
      assert NodeOk(at, fs, q);
      PrunedAt(at, fs, p, q);
    }
  }

  /** The node at `q` once the leaf at `p` is gone. */
  lemma PrunedAt(at: Paths, fs: Snapshot, p: Path, q: Path)
    requires NodeOk(at, fs, p) && NodeOk(at, fs, q) && p != [] && Init(p) in fs && IsLeaf(fs[p]) && p != q
    ensures NodeOk(at - {p}, Pruned(at, fs, p), q)
  {
    LeafIsLast(at, fs, p, q);
    hide Child;
    ChildPruned(at, p, q, false);
    ChildPruned(at, p, q, true);
  }

  lemma ChildPruned(at: Paths, p: Path, q: Path, c: bool)
    requires p != []
    ensures Child(at - {p}, q, c) == if q == Init(p) && c == p[|p| - 1] then null else Child(at, q, c)
  {
    assert p == Init(p) + [p[|p| - 1]];
    if q + [c] == p { AppendUnique(q, c, Init(p), p[|p| - 1]); }
  }

  /** Only the parent of a pruned leaf can have become a leaf without a value. */
  lemma PruneLeaves(at: Paths, fs: Snapshot, p: Path)
    requires p != [] && Init(p) in fs && p in fs
    ensures Leaves(fs, p) ==> Leaves(Pruned(at, fs, p), Init(p))
    ensures Bound(Pruned(at, fs, p)) == Bound(fs) - {p}
  {
    var fs' := Pruned(at, fs, p);
    forall q | q in fs' && q != Init(p) && Leaves(fs, p) ensures Bearing(fs', q) {
      assert Bearing(fs, q);
    }
  }

  // ---------------------------------------------------------------------- free list

  function First(q: seq<Node>): Node? { if q == [] then null else q[0] }

  /** The nodes of `q`, all different, are linked through `right`. */
  ghost predicate Chained(q: seq<Node>)
    reads (set n | n in q)`right
  {
    q != [] ==> q[0] !in q[1..] && q[0].right == First(q[1..]) && Chained(q[1..])
  }

  lemma ChainedTail(q: seq<Node>)
    requires Chained(q) && q != []
    ensures Chained(q[1..]) && First(q[1..]) == q[0].right && q[0] !in q[1..]
  {
  }

  datatype Result = OK | BUSY | ERROR | FAULT

  class Tree {
    var root: Node
    var free: Node?
    ghost var at: Paths
    ghost var spare: seq<Node>

    ghost function Snap(): Snapshot
      reads this`at, at.Values
    {
      map p | p in at :: FieldsOf(at[p])
    }

    /** The free list is linked through `right` and has no node of the tree. */
    ghost predicate FreeOk()
      reads this`free, this`spare, this`at, spare`right
    {
      free == First(spare) && Chained(spare) && forall n | n in spare :: n !in at.Values
    }

    /** Well linked, apart from the free list; so are trees with preallocated nodes. */
    ghost predicate Sound()
      reads this, spare, at.Values
    {
      Linked(at, Snap(), root) && FreeOk()
    }

    /** As it is without preallocation: every leaf but the root carries a value. */
    ghost predicate Valid()
      reads this, spare, at.Values
    {
      Sound() && Leaves(Snap(), [])
    }

    /** What the tree stands for: the prefixes that are bound and their values. */
    ghost function Bindings(): map<Path, Word>
      reads this`at, at.Values
    {
      Bound(Snap())
    }

    /** ngx_radix_tree_create(pool, 0) */
    constructor ()
      ensures Valid() && Bindings() == map[] && fresh(root) && at.Values == {root} && spare == []
    {
      var n := new Node();
      n.left, n.right, n.parent, n.value := null, null, null, NO_VALUE;
      root, free := n, null;
      at, spare := map[[] := n], [];
      new;
      assert NodeOk(at, Snap(), []);
    }

    /** The prefix that key and mask name. */
    static function Named(key: bv32, mask: bv32): Path { Prefix(key, Length(mask)) }

    lemma Step(p: Path)
      requires Linked(at, Snap(), root) && p in at
      ensures NodeOk(at, Snap(), p) && Snap()[p] == FieldsOf(at[p])
    {
    }

    /** ngx_radix32tree_find: the value of the longest prefix of the key that is bound. */
    method Find(key: bv32) returns (value: Word)
      requires Sound()
      ensures value == NO_VALUE ==> forall k: nat | k <= 32 :: Prefix(key, k) !in Bindings()
      ensures value != NO_VALUE ==> exists k: nat :: Longest(Bindings(), key, k, value)
    {
      hide FreeOk, Leaves, Half, On, Linked, Bound;
      var bit: bv32 := 0x8000_0000;
      value := NO_VALUE;
      var node: Node? := root;
      ghost var i: nat := 0;
      ghost var best: nat := 0;
      HasRoot(at, Snap(), root);
      while node != null
        invariant i <= 33 && bit == BitAt(i)
        invariant node == if Prefix(key, i) in at then at[Prefix(key, i)] else null
        invariant i == 33 ==> node == null
        invariant Best(Bindings(), key, i, best, value)
        decreases 33 - i
      {
        Step(Prefix(key, i));
        BestStep(Snap(), key, i, best, value);
        if node.value != NO_VALUE {
          value, best := node.value, i;
        }
        if On(key, bit) {
          node := node.right;
        } else {
          node := node.left;
        }
        bit := Half(bit);
        i := i + 1;
        assert Prefix(key, i) == Prefix(key, i - 1) + [Bit(key, i - 1)];
        if Prefix(key, i) in at { Step(Prefix(key, i)); }
      }
      NoneLonger(at, Snap(), root, key, i);
      assert value != NO_VALUE ==> Longest(Bindings(), key, best, value);
    }

    /** ngx_radix_alloc: a node from the free list, or a new one. */
    method Alloc() returns (n: Node)
      requires FreeOk()
      modifies this`free, this`spare
      ensures FreeOk() && n !in at.Values && n !in spare
      ensures fresh(n) || n in old(spare)
      ensures forall m | m in spare :: m in old(spare)
    {
      if free != null {
        n := free;
        assert n == spare[0] && n in spare;
        free := free.right;
        spare := spare[1..];
        ChainedTail(old(spare));
        return;
      }
      n := new Node();
    }

    /** Lines 146-154: a node without children and value. */
    method NewNode(parent: Node) returns (n: Node)
      requires FreeOk()
      modifies this`free, this`spare, spare
      ensures FreeOk() && n !in at.Values && n !in spare
      ensures fresh(n) || n in old(spare)
      ensures forall m | m in spare :: m in old(spare)
      ensures FieldsOf(n) == Fields(null, null, parent, NO_VALUE)
      ensures forall m | m in at.Values :: FieldsOf(m) == old(FieldsOf(m))
    {
      hide Chained;
      n := Alloc();
      n.left, n.right, n.parent, n.value := null, null, parent, NO_VALUE;
    }

    /** Lines 145-165, one turn of the loop: a new node below the one at `p`. */
    method Grow(ghost p: Path, node: Node, b: bool) returns (next: Node)
      requires Linked(at, Snap(), root) && FreeOk() && p in at && node == at[p] && p + [b] !in at && |p| < 32
      modifies this`free, this`spare, this`at, node`left, node`right, spare
      ensures FreeOk() && next !in old(at).Values
      ensures at == old(at)[p + [b] := next] && p in old(Snap()) && Snap() == Grown(at, old(Snap()), p, b)
      ensures fresh(next) || next in old(spare)
      ensures forall m | m in spare :: m in old(spare)
    {
      hide Linked, Bound, Chained;
      Alone(at, Snap(), root, p);
      ghost var fs := Snap();
      next := NewNode(node);
      assert Snap() == fs;
      Hang(p, node, b, next);
    }

    /** Lines 156-161: a blank node becomes the child of the node at `p`. */
    method Hang(ghost p: Path, node: Node, b: bool, next: Node)
      requires FreeOk() && p in at && node == at[p] && p + [b] !in at && forall q | q in at && at[q] == node :: q == p
      requires next !in at.Values && next !in spare && FieldsOf(next) == Fields(null, null, node, NO_VALUE)
      modifies this`at, node`left, node`right
      ensures FreeOk() && at == old(at)[p + [b] := next]
      ensures p in old(Snap()) && Snap() == Grown(at, old(Snap()), p, b)
    {
      hide Chained;
      ghost var fs := Snap();
      if b {
        node.right := next;
      } else {
        node.left := next;
      }
      at := at[p + [b] := next];
      Apart(at, old(at), p + [b], next);
      assert forall q | q in at :: FieldsOf(at[q]) == Grown(at, fs, p, b)[q];
    }

    method SetValue(ghost p: Path, node: Node, value: Word)
      requires Linked(at, Snap(), root) && p in at && node == at[p]
      modifies node`value
      ensures p in old(Snap()) && Snap() == Valued(old(Snap()), p, value)
    {
      hide Linked;
      Alone(at, Snap(), root, p);
      node.value := value;
    }

    /** The descent of insert: as far along the key as there are nodes. */
    method Descend(key: bv32, mask: bv32, ghost n: nat) returns (node: Node, next: Node?, bit: bv32, ghost i: nat)
      requires Sound() && IsMask(mask, n)
      ensures i <= n && bit == BitAt(i) && Prefix(key, i) in at && node == at[Prefix(key, i)]
      ensures if next != null then i == n else i < n && Prefix(key, i + 1) !in at
    {
      hide FreeOk, Leaves, Half, On, Linked, IsMask;
      bit := 0x8000_0000;
      node, next, i := root, root, 0;
      HasRoot(at, Snap(), root);
      MaskLength(mask, n);
      MaskEnd(mask, n, 0);
      while On(mask, bit)
        invariant i <= n && bit == BitAt(i) && Prefix(key, i) in at && node == at[Prefix(key, i)] && next != null
        invariant On(mask, bit) <==> i < n
        decreases n - i
      {
        Step(Prefix(key, i));
        assert Prefix(key, i + 1) == Prefix(key, i) + [Bit(key, i)];
        if On(key, bit) {
          next := node.right;
        } else {
          next := node.left;
        }
        if next == null {
          break;
        }
        bit := Half(bit);
        node := next;
        i := i + 1;
        MaskEnd(mask, n, i);
      }
    }

    /** Lines 145-165: the missing nodes of the prefix. */
    method Extend(node: Node, key: bv32, mask: bv32, bit: bv32, ghost i: nat, ghost n: nat) returns (last: Node)
      requires Sound() && IsMask(mask, n) && i < n && bit == BitAt(i)
      requires Prefix(key, i) in at && node == at[Prefix(key, i)] && Prefix(key, i + 1) !in at
      modifies this`free, this`spare, this`at, at.Values, spare
      ensures Sound() && Bindings() == old(Bindings()) && (old(Valid()) ==> Leaves(Snap(), Prefix(key, n)))
      ensures Prefix(key, n) in at && last == at[Prefix(key, n)] && IsBlank(FieldsOf(last))
      ensures forall m | m in at.Values || m in spare :: fresh(m) || m in old(at.Values) || m in old(spare)
    {
      hide FreeOk, Leaves, Half, On, Linked, IsMask, Bound;
      ghost var j := i;
      var b := bit;
      last := node;
      MaskLength(mask, n);
      MaskEnd(mask, n, i);
      LeavesMore(Snap(), Prefix(key, i));
      ghost var neat := Leaves(Snap(), Prefix(key, i));
      while On(mask, b)
        invariant i <= j <= n && b == BitAt(j) && Prefix(key, j) in at && last == at[Prefix(key, j)]
        invariant (j < n ==> Prefix(key, j + 1) !in at) && (On(mask, b) <==> j < n)
        invariant Sound() && (neat ==> Leaves(Snap(), Prefix(key, j))) && Bound(Snap()) == old(Bindings())
        invariant j > i ==> IsBlank(FieldsOf(last))
        invariant forall m | m in at.Values || m in spare :: fresh(m) || m in old(at.Values) || m in old(spare)
        decreases n - j
      {
        last := ExtendOne(last, key, b, j);
        b := Half(b);
        j := j + 1;
        MaskEnd(mask, n, j);
      }
    }

    /** One turn of the loop. */
    method ExtendOne(node: Node, key: bv32, bit: bv32, ghost j: nat) returns (next: Node)
      requires Sound() && j < 32 && bit == BitAt(j) && Prefix(key, j) in at && node == at[Prefix(key, j)] && Prefix(key, j + 1) !in at
      modifies this`free, this`spare, this`at, at.Values, spare
      ensures Sound() && Bound(Snap()) == old(Bindings())
      ensures old(Leaves(Snap(), Prefix(key, j))) ==> Leaves(Snap(), Prefix(key, j + 1))
      ensures Prefix(key, j + 1) in at && next == at[Prefix(key, j + 1)] && Prefix(key, j + 2) !in at && IsBlank(FieldsOf(next))
      ensures forall m | m in at.Values || m in spare :: fresh(m) || m in old(at.Values) || m in old(spare)
    {
      hide FreeOk, Leaves, On, Linked, Bound, Grown;
      ghost var p, w, fs := Prefix(key, j), at, Snap();
      assert Prefix(key, j + 1) == p + [Bit(key, j)];
      NothingBelow(w, fs, root, Prefix(key, j + 1), Bit(key, j + 1));
      assert Prefix(key, j + 2) == Prefix(key, j + 1) + [Bit(key, j + 1)];
      var one := On(key, bit);
      next := Grow(p, node, one);
      GrowLinked(w, fs, root, p, one, next);
      SameKeys(w, fs, root);
      GrowLeaves(at, fs, p, one);
      GrownLeaf(at, fs, p, one);
      PathDiffers(key, j);
    }

    /**
     ngx_radix32tree_insert: binds a prefix that is not bound yet.  Storing NGX_RADIX_NO_VALUE, as
     preallocation does, binds nothing and may leave a leaf without a value.
     */
    method Insert(key: bv32, mask: bv32, value: Word) returns (r: Result)
      requires Sound()
      modifies this`free, this`spare, this`at, at.Values, spare
      ensures Sound() && r == if Named(key, mask) in old(Bindings()) then BUSY else OK
      ensures Bindings() == if r == OK && value != NO_VALUE then old(Bindings())[Named(key, mask) := value] else old(Bindings())
      ensures old(Valid()) ==> (Valid() <==> value != NO_VALUE || Named(key, mask) in old(at))
      ensures forall m | m in at.Values || m in spare :: fresh(m) || m in old(at.Values) || m in old(spare)
    {
      hide FreeOk, Leaves, Half, On, Linked, IsMask, Bound, Valued, OnesFrom;
      ghost var n := Length(mask);
      CountsOnes(mask, 0);
      var node, next, bit, i := Descend(key, mask, n);
      ghost var p := Prefix(key, n);
      if next != null {
        IsBound(Snap(), p);
        SameKeys(at, Snap(), root);
        if node.value != NO_VALUE {
          return BUSY;
        }
        LeavesMore(Snap(), p);
        Store(p, node, value);
        return OK;
      }
      Missing(at, Snap(), root, key, i, n);
      StaysMissing(at, Snap(), root, key, i + 1, n);
      node := Extend(node, key, mask, bit, i, n);
      Store(p, node, value);
      return OK;
    }

    /** Stores a value at a node without one. */
    method Store(ghost p: Path, node: Node, value: Word)
      requires Sound() && p in at && node == at[p] && node.value == NO_VALUE
      modifies node`value
      ensures Sound() && Bindings() == if value == NO_VALUE then old(Bindings()) else old(Bindings())[p := value]
      ensures value != NO_VALUE && old(Leaves(Snap(), p)) ==> Valid()
      ensures value == NO_VALUE ==> (Valid() <==> old(Valid())) && (p != [] && IsLeaf(FieldsOf(node)) ==> !Valid())
    {
      hide FreeOk, Leaves, Linked, Bound, Valued;
      ghost var fs := Snap();
      SetValue(p, node, value);
      StoredInv(at, fs, root, p, value);
    }

    /** Lines 207-212: the link from the parent is cleared. */
    method Unlink(ghost p: Path, node: Node)
      requires Linked(at, Snap(), root) && p in at && p != [] && node == at[p] && node.parent != null && Init(p) in at && node.parent == at[Init(p)]
      modifies node.parent`left, node.parent`right
      ensures Init(p) in old(Snap()) && Snap() == old(Snap())[Init(p) := WithChild(old(Snap())[Init(p)], p[|p| - 1], null)]
      ensures FieldsOf(node).parent == old(node.parent)
    {
      hide Linked;
      WhichChild(at, Snap(), root, p);
      Alone(at, Snap(), root, Init(p));
      if node.parent.right == node {
        node.parent.right := null;
      } else {
        node.parent.left := null;
      }
    }

    /** Lines 214-215: a node that nothing links to enters the free list. */
    method Recycle(ghost p: Path, node: Node)
      requires FreeOk() && p in at && node == at[p] && forall q | q in at && q != p :: at[q] != node
      modifies this`free, this`spare, this`at, node`right
      ensures FreeOk() && at == old(at) - {p} && spare == [node] + old(spare) && Snap() == old(Snap()) - {p}
    {
      hide Chained;
      node.right := free;
      free := node;
      at := at - {p};
      ChainedMore(node, spare);
      spare := [node] + spare;
    }

    /** Lines 206-217: a leaf leaves the tree and enters the free list. */
    method Prune(ghost p: Path, node: Node)
      requires Linked(at, Snap(), root) && FreeOk() && p in at && p != [] && node == at[p] && node.left == null && node.right == null
      modifies this`free, this`spare, this`at, at.Values
      ensures FreeOk() && p != [] && Init(p) in old(Snap()) && at == old(at) - {p} && spare == [node] + old(spare)
      ensures Snap() == Pruned(old(at), old(Snap()), p)
      ensures Init(p) in at && node.parent == at[Init(p)]
    {
      hide Linked, Bound, Chained;
      Step(p);
      ghost var u, fs := Init(p), Snap();
      Alone(at, fs, root, p);
      Unlink(p, node);
      Recycle(p, node);
    }

    /** The descent of delete. */
    method Locate(key: bv32, mask: bv32, ghost n: nat) returns (node: Node?)
      requires Sound() && IsMask(mask, n)
      ensures node == if Prefix(key, n) in at then at[Prefix(key, n)] else null
    {
      hide FreeOk, Leaves, Half, On, Linked, IsMask;
      var bit: bv32 := 0x8000_0000;
      node := root;
      ghost var i: nat := 0;
      HasRoot(at, Snap(), root);
      MaskLength(mask, n);
      MaskEnd(mask, n, 0);
      while node != null && On(mask, bit)
        invariant i <= n && bit == BitAt(i) && (On(mask, bit) <==> i < n)
        invariant node == if Prefix(key, i) in at then at[Prefix(key, i)] else null
        decreases n - i
      {
        Step(Prefix(key, i));
        assert Prefix(key, i + 1) == Prefix(key, i) + [Bit(key, i)];
        if On(key, bit) {
          node := node.right;
        } else {
          node := node.left;
        }
        bit := Half(bit);
        i := i + 1;
        MaskEnd(mask, n, i);
      }
      if node == null { StaysMissing(at, Snap(), root, key, i, n); }
    }

    /** Lines 206-230: removes a leaf and then every ancestor that is left without children and value. */
    method PruneUp(ghost p: Path, leaf: Node)
      requires Sound() && p in at && p != [] && leaf == at[p] && leaf.left == null && leaf.right == null
      modifies this`free, this`spare, this`at, at.Values
      ensures Sound() && Bindings() == old(Bindings()) - {p} && (old(Valid()) ==> Valid())
      ensures forall m | m in at.Values || m in spare :: m in old(at.Values) || m in old(spare)
    {
      hide FreeOk, Leaves, Linked, Bound, Pruned;
      ghost var q := p;
      var node := leaf;
      LeavesMore(Snap(), p);
      ghost var neat := Leaves(Snap(), p);
      NoMore(Bound(Snap()), p);
      while true
        invariant Sound() && (neat ==> Leaves(Snap(), q)) && q in at && q != [] && node == at[q]
        invariant node.left == null && node.right == null
        invariant Bound(Snap()) - {p} == old(Bindings()) - {p} && (q != p ==> q !in Bound(Snap()) && p !in Bound(Snap()))
        invariant forall m | m in at.Values || m in spare :: m in old(at.Values) || m in old(spare)
        invariant at.Values <= old(at.Values)
        decreases |q|
      {
        PruneStep(p, q, node);
        q := Init(q);
        node := node.parent;
        if node.right != null || node.left != null || node.value != NO_VALUE || node.parent == null {
          Step(q);
          MendedLeaves(at, Snap(), root, q);
          break;
        }
        Step(q);
        IsBound(Snap(), q);
      }
    }

    /** One turn of the loop. */
    method PruneStep(ghost p: Path, ghost q: Path, node: Node)
      requires Sound() && q in at && q != [] && node == at[q] && node.left == null && node.right == null
      requires q == p || (q !in Bound(Snap()) && p !in Bound(Snap()))
      modifies this`free, this`spare, this`at, at.Values
      ensures Sound() && at == old(at) - {q} && spare == [node] + old(spare)
      ensures q != [] && Init(q) in at && node.parent == at[Init(q)]
      ensures old(Leaves(Snap(), q)) ==> Leaves(Snap(), Init(q))
      ensures Bound(Snap()) - {p} == old(Bound(Snap())) - {p} && p !in Bound(Snap())
    {
      hide FreeOk, Leaves, Linked, Bound, Pruned;
      ghost var fs := Snap();
      PruneLinked(at, fs, root, q);
      SameKeys(at, fs, root);
      PruneLeaves(at, fs, q);
      GoneOnce(Bound(fs), p, q);
      Prune(q, node);
    }

    /**
     ngx_radix32tree_delete.  The result FAULT stands for line 207 following the parent link of a
     root without children, which is null.
     */
    method Delete(key: bv32, mask: bv32) returns (r: Result)
      requires Sound()
      modifies this`free, this`spare, this`at, at.Values
      ensures Sound() && (old(Valid()) ==> Valid())
      ensures r == FAULT <==> Length(mask) == 0 && old(root.left == null && root.right == null)
      ensures Bindings() == if r == FAULT then old(Bindings()) else old(Bindings()) - {Named(key, mask)}
      ensures old(Valid()) && r != FAULT ==> r == if Named(key, mask) in old(Bindings()) then OK else ERROR
      ensures r != FAULT ==> (r == OK <==> Named(key, mask) in old(Bindings()) || (Named(key, mask) in old(at) && old(IsLeaf(Snap()[Named(key, mask)]))))
      ensures forall m | m in at.Values || m in spare :: m in old(at.Values) || m in old(spare)
    {
      hide FreeOk, Leaves, Linked, Bound, IsMask, Valued, OnesFrom;
      ghost var n := Length(mask);
      CountsOnes(mask, 0);
      ghost var p := Prefix(key, n);
      HasRoot(at, Snap(), root);
      IsBound(Snap(), p);
      NoMore(Bindings(), p);
      var node := Locate(key, mask, n);
      if node == null {
        return ERROR;
      }
      if node.right != null || node.left != null {
        if node.value != NO_VALUE {
          ghost var fs := Snap();
          SetValue(p, node, NO_VALUE);
          ClearInv(at, fs, root, p);
          return OK;
        }
        return ERROR;
      }
      ParentOf(p);
      if node.parent == null {
        return FAULT;
      }
      LeafBound(Snap(), p);
      PruneUp(p, node);
      return OK;
    }

    /** The root has no parent, and every other node has one. */
    lemma ParentOf(p: Path)
      requires Sound() && p in at
      ensures at[p].parent == null <==> p == []
      ensures at[[]] == root && root.parent == null
    {
      Step(p);
      Step([]);
    }
  }

  lemma Apart(at': Paths, at: Paths, c: Path, n: Node)
    requires c !in at && at' == at[c := n] && n !in at.Values
    ensures (forall m | m in at'.Values :: m in at.Values || m == n) && at'[c] == n
    ensures forall p | p in at :: p in at' && at'[p] == at[p] && at[p] != n
  {
    assert forall p | p in at :: at[p] in at.Values;
  }

  lemma Alone(at: Paths, fs: Snapshot, root: Node, p: Path)
    requires Linked(at, fs, root) && p in at
    ensures p in fs && forall q | q in at && q != p :: at[q] != at[p]
  {
  }

  function Valued(fs: Snapshot, p: Path, v: Word): Snapshot
    requires p in fs
  {
    fs[p := fs[p].(value := v)]
  }

  lemma ValuedLinked(at: Paths, fs: Snapshot, root: Node, p: Path, v: Word)
    requires Linked(at, fs, root) && p in fs
    ensures Linked(at, Valued(fs, p, v), root)
  {
    var fs' := Valued(fs, p, v);
    forall q | q in at ensures NodeOk(at, fs', q) { assert NodeOk(at, fs, q); }
  }

  lemma ClearBound(fs: Snapshot, p: Path)
    requires p in fs
    ensures Bound(Valued(fs, p, NO_VALUE)) == Bound(fs) - {p}
  {
  }

  /** Storing a value at a node without one binds its path and mends the one leaf that may lack a value. */
  lemma StoredInv(at: Paths, fs: Snapshot, root: Node, p: Path, v: Word)
    requires Linked(at, fs, root) && p in fs && fs[p].value == NO_VALUE
    ensures Linked(at, Valued(fs, p, v), root)
    ensures Bound(Valued(fs, p, v)) == if v == NO_VALUE then Bound(fs) else Bound(fs)[p := v]
    ensures v != NO_VALUE && Leaves(fs, p) ==> Leaves(Valued(fs, p, v), [])
    ensures v == NO_VALUE ==> Valued(fs, p, v) == fs
    ensures v == NO_VALUE && IsLeaf(fs[p]) && p != [] ==> !Leaves(fs, [])
  {
    ValuedLinked(at, fs, root, p, v);
    StoredLeaves(fs, p, v);
    StoredBound(fs, p, v);
    hide Linked, Leaves, Bound;
  }

  lemma StoredBound(fs: Snapshot, p: Path, v: Word)
    requires p in fs && fs[p].value == NO_VALUE
    ensures Bound(Valued(fs, p, v)) == if v == NO_VALUE then Bound(fs) else Bound(fs)[p := v]
  {
  }

  lemma StoredLeaves(fs: Snapshot, p: Path, v: Word)
    requires p in fs && fs[p].value == NO_VALUE
    ensures v != NO_VALUE && Leaves(fs, p) ==> Leaves(Valued(fs, p, v), [])
    ensures v == NO_VALUE && IsLeaf(fs[p]) && p != [] ==> !Leaves(fs, [])
  {
    var fs' := Valued(fs, p, v);
    forall q | q in fs' && Leaves(fs, p) && v != NO_VALUE ensures Bearing(fs', q) {
      if q != p { assert Bearing(fs, q); }
    }
    assert v == NO_VALUE && p != [] && IsLeaf(fs[p]) ==> !Bearing(fs, p);
  }

  lemma GrownLeaf(at: Paths, fs: Snapshot, p: Path, b: bool)
    requires p in at && p in fs && p + [b] in at
    ensures p + [b] in Grown(at, fs, p, b) && IsLeaf(Grown(at, fs, p, b)[p + [b]]) && Grown(at, fs, p, b)[p + [b]].value == NO_VALUE
  {
  }

  lemma LeavesMore(fs: Snapshot, but: Path)
    ensures Leaves(fs, []) ==> Leaves(fs, but)
  {
    forall p | p in fs && Leaves(fs, []) ensures Bearing(fs, p) { }
  }

  lemma IsBound(fs: Snapshot, p: Path)
    ensures p in Bound(fs) <==> p in fs && fs[p].value != NO_VALUE
  {
  }

  lemma MaskLength(mask: bv32, n: nat)
    requires IsMask(mask, n)
    ensures n <= 32
  {
  }

  lemma SameKeys(at: Paths, fs: Snapshot, root: Node)
    requires Linked(at, fs, root)
    ensures at.Keys == fs.Keys
  {
  }

  lemma PathDiffers(key: bv32, j: nat)
    ensures Prefix(key, j + 2) != Prefix(key, j + 1)
  {
  }

  /** Past a missing prefix nothing is bound. */
  lemma Missing(at: Paths, fs: Snapshot, root: Node, key: bv32, i: nat, n: nat)
    requires Linked(at, fs, root) && Prefix(key, i + 1) !in at && i < n
    ensures Prefix(key, n) !in Bound(fs)
  {
    NoneLonger(at, fs, root, key, i + 1);
  }

  /** A node is the child of its parent on the side that its last bit says. */
  lemma WhichChild(at: Paths, fs: Snapshot, root: Node, p: Path)
    requires Linked(at, fs, root) && p in at && p != []
    ensures Init(p) in at && Init(p) in fs && (if p[|p| - 1] then fs[Init(p)].right == at[p] else fs[Init(p)].left == at[p] && fs[Init(p)].right != at[p])
  {
    var u, b := Init(p), p[|p| - 1];
    assert NodeOk(at, fs, p) && NodeOk(at, fs, u);
    assert p == u + [b] && u + [true] != u + [false];
  }

  lemma ChainedMore(n: Node, q: seq<Node>)
    requires Chained(q) && n !in q && n.right == First(q)
    ensures Chained([n] + q)
  {
    assert ([n] + q)[1..] == q;
  }

  lemma StaysMissing(at: Paths, fs: Snapshot, root: Node, key: bv32, i: nat, n: nat)
    requires Linked(at, fs, root) && Prefix(key, i) !in at && i <= n
    ensures Prefix(key, n) !in at
  {
    PrefixOfPrefix(key, i, n);
    if Prefix(key, n) in at { Prefixes(at, fs, root, Prefix(key, n), i); }
  }

  lemma NoMore(bound: map<Path, Word>, p: Path)
    ensures p !in bound ==> bound - {p} == bound
  {
  }

  lemma GoneOnce(bound: map<Path, Word>, p: Path, q: Path)
    requires q == p || q !in bound
    ensures (bound - {q}) - {p} == bound - {p} && p !in bound - {p}
    ensures q != p ==> bound - {q} == bound
  {
  }

  lemma MendedLeaves(at: Paths, fs: Snapshot, root: Node, q: Path)
    requires Linked(at, fs, root) && q in fs
    requires fs[q].right != null || fs[q].left != null || fs[q].value != NO_VALUE || fs[q].parent == null
    ensures Leaves(fs, q) ==> Leaves(fs, [])
  {
    assert NodeOk(at, fs, q);
    forall p | p in fs && Leaves(fs, q) ensures Bearing(fs, p) {
      if p != q { assert Bearing(fs, p); }
    }
  }

  lemma ClearInv(at: Paths, fs: Snapshot, root: Node, p: Path)
    requires Linked(at, fs, root) && p in fs && !IsLeaf(fs[p])
    ensures var fs' := Valued(fs, p, NO_VALUE);
      Linked(at, fs', root) && (Leaves(fs, []) ==> Leaves(fs', [])) && Bound(fs') == Bound(fs) - {p}
  {
    var fs' := Valued(fs, p, NO_VALUE);
    ValuedLinked(at, fs, root, p, NO_VALUE);
    ClearBound(fs, p);
    hide Linked, Bound;
    forall q | q in fs' && q != [] && Leaves(fs, []) ensures Bearing(fs', q) { assert Bearing(fs, q); }
  }

  lemma LeafBound(fs: Snapshot, p: Path)
    requires p in fs && IsLeaf(fs[p])
    ensures p != [] && Leaves(fs, []) ==> p in Bound(fs)
  {
    assert p != [] && Leaves(fs, []) ==> Bearing(fs, p);
  }

  lemma HasRoot(at: Paths, fs: Snapshot, root: Node)
    requires Linked(at, fs, root)
    ensures [] in at && at[[]] == root
  {
  }

  lemma NoneLonger(at: Paths, fs: Snapshot, root: Node, key: bv32, i: nat)
    requires Linked(at, fs, root) && Prefix(key, i) !in at
    ensures forall k: nat | i <= k :: Prefix(key, k) !in Bound(fs)
  {
    forall k: nat | i <= k ensures Prefix(key, k) !in Bound(fs) {
      PrefixOfPrefix(key, i, k);
      if Prefix(key, k) in at { Prefixes(at, fs, root, Prefix(key, k), i); }
    }
  }

  /** The first `k` bits of the key are bound to `value`, and no more of them are. */
  ghost predicate Longest(bound: map<Path, Word>, key: bv32, k: nat, value: Word) {
    && Prefix(key, k) in bound && bound[Prefix(key, k)] == value
    && forall m: nat | k < m <= 32 :: Prefix(key, m) !in bound
  }

  /** Among the first `i` lengths, `best` is the longest that is bound. */
  ghost predicate Best(bound: map<Path, Word>, key: bv32, i: nat, best: nat, value: Word) {
    if value == NO_VALUE then forall k: nat | k < i :: Prefix(key, k) !in bound
    else
      && best < i && Prefix(key, best) in bound && bound[Prefix(key, best)] == value
      && forall k: nat | best < k < i :: Prefix(key, k) !in bound
  }

  lemma BestStep(fs: Snapshot, key: bv32, i: nat, best: nat, value: Word)
    requires Prefix(key, i) in fs && Best(Bound(fs), key, i, best, value)
    ensures var v := fs[Prefix(key, i)].value;
      if v != NO_VALUE then Best(Bound(fs), key, i + 1, i, v) else Best(Bound(fs), key, i + 1, best, value)
  {
  }
}
