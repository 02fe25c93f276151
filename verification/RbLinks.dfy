/**
 Linked nodes of the red-black tree and what a snapshot of their fields must look like to have
 a given shape.  All lemmas here are about snapshots, that is, values; module RbTree applies
 them to the heap before and after its assignments.
 */
module RbLinks {
  import opened RbShape
  import opened Words

  class Node {
    var key: Word
    const name: string
    var left: Node?
    var right: Node?
    var parent: Node?
    var color: Color

    constructor (name: string)
      ensures this.name == name
    {
      this.name := name;
    }
  }

  // ----------------------------------------------------------- insertion order

  /** The three comparisons a tree can be created with. */
  datatype Order = ByValue | ByTimer | ByName

  /** ngx_strcmp(a, b) < 0 */
  predicate StringLess(a: string, b: string) {
    b != [] && (a == [] || a[0] < b[0] || (a[0] == b[0] && StringLess(a[1..], b[1..])))
  }

  /** Does the new node `a` go to the left of `b`? */
  predicate Precedes(order: Order, a: Node, b: Node)
    reads a`key, b`key
  {
    match order
    case ByValue => a.key < b.key
    case ByTimer => Signed(Wrap(a.key - b.key)) < 0
    case ByName => a.key < b.key || (a.key == b.key && StringLess(a.name, b.name))
  }

  /** Once `node` goes before an element of `q`, it goes before all later ones. */
  ghost predicate Monotone(order: Order, node: Node, q: seq<Node>)
    reads node`key, (set x | x in q)`key
  {
    forall i, j | 0 <= i <= j < |q| && Precedes(order, node, q[i]) :: Precedes(order, node, q[j])
  }

  /** The gap at `k` in `q` is where `node` belongs: after every node it does not precede. */
  ghost predicate Belongs(order: Order, node: Node, q: seq<Node>, k: nat)
    requires k <= |q|
    reads node`key, (set x | x in q)`key
  {
    && (forall i | 0 <= i < k :: !Precedes(order, node, q[i]))
    && (forall i | k <= i < |q| :: Precedes(order, node, q[i]))
  }

  lemma MonotoneSplit(order: Order, node: Node, q: seq<Node>, k: nat)
    requires Monotone(order, node, q) && k < |q|
    ensures Precedes(order, node, q[k]) ==> forall j | k <= j < |q| :: Precedes(order, node, q[j])
    ensures !Precedes(order, node, q[k]) ==> forall i | 0 <= i <= k :: !Precedes(order, node, q[i])
  {
  }

  // --------------------------------------------- order of the open-file cache tree

  lemma {:induction false} StringLessTotal(a: string, b: string)
    ensures !(StringLess(a, b) && StringLess(b, a)) && !StringLess(a, a)
    ensures a == b || StringLess(a, b) || StringLess(b, a)
  {
    if a != [] && b != [] {
      StringLessTotal(a[1..], b[1..]);
      assert a == [a[0]] + a[1..] && b == [b[0]] + b[1..];
    }
    if a != [] { StringLessTotal(a[1..], a[1..]); }
  }

  lemma {:induction false} StringLessTransitive(a: string, b: string, c: string)
    requires StringLess(a, b) && StringLess(b, c)
    ensures StringLess(a, c)
  {
    if a != [] && a[0] == b[0] == c[0] { StringLessTransitive(a[1..], b[1..], c[1..]); }
  }

  /** Entries ordered by hash, then by name. */
  predicate EntryLess(h: Word, a: string, k: Word, b: string) { h < k || (h == k && StringLess(a, b)) }

  lemma EntryLessTransitive(h: Word, a: string, k: Word, b: string, l: Word, c: string)
    requires EntryLess(h, a, k, b) && EntryLess(k, b, l, c)
    ensures EntryLess(h, a, l, c)
  {
    if h == k == l { StringLessTransitive(a, b, c); }
  }

  /** Strictly increasing by hash and name, so no entry occurs twice. */
  ghost predicate NameOrdered(q: seq<Node>)
    reads (set x | x in q)`key
  {
    forall i, j | 0 <= i < j < |q| :: EntryLess(q[i].key, q[i].name, q[j].key, q[j].name)
  }

  ghost predicate IsEntry(n: Node, hash: Word, name: string)
    reads n`key
  {
    n.key == hash && n.name == name
  }

  lemma Narrow(q: seq<Node>, hash: Word, name: string, k: nat)
    requires NameOrdered(q) && k < |q|
    ensures EntryLess(hash, name, q[k].key, q[k].name) ==>
      forall i | k <= i < |q| :: EntryLess(hash, name, q[i].key, q[i].name)
    ensures EntryLess(q[k].key, q[k].name, hash, name) ==>
      forall i | 0 <= i <= k :: EntryLess(q[i].key, q[i].name, hash, name)
  {
    forall i | k < i < |q| && EntryLess(hash, name, q[k].key, q[k].name)
      ensures EntryLess(hash, name, q[i].key, q[i].name)
    {
      EntryLessTransitive(hash, name, q[k].key, q[k].name, q[i].key, q[i].name);
    }
    forall i | 0 <= i < k && EntryLess(q[k].key, q[k].name, hash, name)
      ensures EntryLess(q[i].key, q[i].name, hash, name)
    {
      EntryLessTransitive(q[i].key, q[i].name, q[k].key, q[k].name, hash, name);
    }
  }

  /** Inserting an entry that is not there yet keeps the order, and its comparison is monotone. */
  lemma InsertKeepsNames(q: seq<Node>, node: Node, k: nat, r: seq<Node>)
    requires NameOrdered(q) && k <= |q| && r == q[..k] + [node] + q[k..]
    requires forall i | 0 <= i < |q| :: !IsEntry(q[i], node.key, node.name)
    requires Monotone(ByName, node, q) ==> Belongs(ByName, node, q, k)
    ensures NameOrdered(r)
  {
    forall i, j | 0 <= i <= j < |q| && Precedes(ByName, node, q[i]) ensures Precedes(ByName, node, q[j]) {
      Narrow(q, node.key, node.name, i);
    }
    forall i | 0 <= i < k ensures EntryLess(q[i].key, q[i].name, node.key, node.name) {
      StringLessTotal(q[i].name, node.name);
    }
    forall i, j | 0 <= i < j < |r| ensures EntryLess(r[i].key, r[i].name, r[j].key, r[j].name) {
      var i', j' := if i <= k then i else i - 1, if j <= k then j else j - 1;
      assert i != k ==> r[i] == q[i'];
      assert j != k ==> r[j] == q[j'];
    }
  }

  /** As far as the context `c` tells, the hole is where `node` belongs in `q`. */
  ghost predicate Placed(order: Order, node: Node, q: seq<Node>, c: Path)
    reads node`key, (set x | x in q)`key
  {
    && |Before(c)| + |After(c)| <= |q|
    && (forall i | 0 <= i < |Before(c)| :: !Precedes(order, node, q[i]))
    && (forall i | |q| - |After(c)| <= i < |q| :: Precedes(order, node, q[i]))
  }

  lemma PlacedDown(order: Order, node: Node, q: seq<Node>, c: Path, t: Shape)
    requires Monotone(order, node, q) && t.Fork? && q == Spelled(c, t) && Placed(order, node, q, c)
    ensures if Precedes(order, node, t.node) then Placed(order, node, q, OnLeft(t.node, t.color, t.right, c))
            else Placed(order, node, q, OnRight(t.left, t.node, t.color, c))
  {
    var k := |Before(c)| + |InOrder(t.left)|;
    assert q[k] == t.node;
    MonotoneSplit(order, node, q, k);
  }

  /** As far as the context `c` tells, the entry can only be in the hole. */
  ghost predicate Narrowed(hash: Word, name: string, q: seq<Node>, c: Path)
    reads (set x | x in q)`key
  {
    && |Before(c)| + |After(c)| <= |q|
    && (forall i | 0 <= i < |Before(c)| :: EntryLess(q[i].key, q[i].name, hash, name))
    && (forall i | |q| - |After(c)| <= i < |q| :: EntryLess(hash, name, q[i].key, q[i].name))
  }

  lemma NarrowedDown(hash: Word, name: string, q: seq<Node>, c: Path, t: Shape)
    requires NameOrdered(q) && t.Fork? && q == Spelled(c, t) && Narrowed(hash, name, q, c)
    ensures EntryLess(hash, name, t.node.key, t.node.name) ==>
      Narrowed(hash, name, q, OnLeft(t.node, t.color, t.right, c))
    ensures EntryLess(t.node.key, t.node.name, hash, name) ==>
      Narrowed(hash, name, q, OnRight(t.left, t.node, t.color, c))
  {
    hide EntryLess, NameOrdered;
    var k := |Before(c)| + |InOrder(t.left)|;
    assert q[k] == t.node;
    Narrow(q, hash, name, k);
  }

  type Shape = Tree<Node>
  type Path = Context<Node>

  /** What the rebalancing code reads and writes of a node. */
  datatype Fields = Fields(left: Node?, right: Node?, parent: Node?, color: Color)

  ghost function FieldsOf(n: Node): Fields
    reads n`left, n`right, n`parent, n`color
  {
    Fields(n.left, n.right, n.parent, n.color)
  }

  function Child(n: Node, d: Side): Node?
    reads n`left, n`right
  {
    if d == L then n.left else n.right
  }

  /** The fields of all nodes of a tree at one moment. */
  type Snapshot = map<Node, Fields>

  ghost function Target(link: Link<Node>, sentinel: Node): Node {
    if link.Leaf? then sentinel else link.node
  }

  /** A node with fields `f` is what `cell` asks for; the parent of the root is left open. */
  ghost predicate Holds(f: Fields, cell: Cell<Node>, sentinel: Node) {
    && f.left == Target(cell.left, sentinel)
    && f.right == Target(cell.right, sentinel)
    && (cell.parent.To? ==> f.parent == cell.parent.node)
    && f.color == cell.color
  }

  /** The nodes of snapshot `s` are linked in the shape `Plug(c, t)`. */
  ghost predicate Fits(c: Path, t: Shape, s: Snapshot, root: Node, sentinel: Node) {
    && s.Keys == ContextElements(c) + Elements(t) && sentinel !in s
    && DistinctPair(c, t)
    && root == Target(RootLink(c, LinkTo(t)), sentinel)
    && (forall n | n in Elements(t) :: n in s && Holds(s[n], CellOf(t, n, ParentLink(c)), sentinel))
    && (forall n | n in ContextElements(c) :: n in s && Holds(s[n], CellIn(c, n, LinkTo(t)), sentinel))
  }

  lemma {:induction false} RootOnPath(c: Path, hole: Link<Node>)
    ensures c.Top? ==> RootLink(c, hole) == hole && ContextElements(c) == {}
    ensures !c.Top? ==> RootLink(c, hole).To? && RootLink(c, hole).node in ContextElements(c)
                        && c.node in ContextElements(c)
    ensures forall h :: !c.Top? ==> RootLink(c, h) == RootLink(c, hole)
    decreases c
  {
    if !c.Top? { RootOnPath(c.up, To(c.node)); }
  }

  /** Fitting does not depend on where in the tree one looks from. */
  lemma FitsUp(c: Path, t: Shape, s: Snapshot, root: Node, sentinel: Node)
    requires !c.Top? && Fits(c, t, s, root, sentinel)
    ensures Fits(c.up, FocusUp(c, t), s, root, sentinel)
  {
    hide Elements, ContextElements, CellOf, CellIn, Distinct, DistinctContext;
    UpCells(c, t);
    forall n | n in s { UpCell(c, t, n); }
  }

  lemma FitsDown(c: Path, t: Shape, s: Snapshot, root: Node, sentinel: Node)
    requires !c.Top? && Fits(c.up, FocusUp(c, t), s, root, sentinel)
    ensures Fits(c, t, s, root, sentinel)
  {
    hide Elements, ContextElements, CellOf, CellIn, Distinct, DistinctContext;
    DownCells(c, t);
    UpCells(c, t);
    forall n | n in s { UpCell(c, t, n); }
  }

  lemma FitsPainted(c: Path, t: Shape, k: Color, s: Snapshot, root: Node, sentinel: Node)
    requires Fits(c, t, s, root, sentinel) && t.Fork?
    ensures t.node in s && Fits(c, Painted(t, k), Tint(s, t.node, k), root, sentinel)
  {
  }

  // ---------------------------------------------------------------- rotations

  function ChildOf(f: Fields, d: Side): Node? { if d == L then f.left else f.right }

  function WithChild(f: Fields, d: Side, n: Node?): Fields { if d == L then f.(left := n) else f.(right := n) }

  /** Among the children of a node, `y` takes the place of `x`. */
  function Rehung(f: Fields, x: Node, y: Node): Fields {
    if f.left == x then f.(left := y) else f.(right := y)
  }

  /** `x` can be rotated towards `d`: its other child exists and the nodes involved differ. */
  ghost predicate Ready(s: Snapshot, x: Node, d: Side, root: Node, sentinel: Node) {
    && x in s && ChildOf(s[x], Other(d)) != null && ChildOf(s[x], Other(d)) in s && ChildOf(s[x], Other(d)) != x
    && var y: Node := ChildOf(s[x], Other(d));
    var b, p := ChildOf(s[y], d), s[x].parent;
    && b != null && b != x && b != y && (b != sentinel ==> b in s)
    && (x != root ==> p != null && p in s && p != x && p != y && p != b && (s[p].left == x <==> s[p].right != x))
  }

  ghost function Turned(s: Snapshot, x: Node, d: Side, root: Node, sentinel: Node, n: Node): Fields
    requires Ready(s, x, d, root, sentinel) && n in s
  {
    var y: Node := ChildOf(s[x], Other(d));
    var b, p := ChildOf(s[y], d), s[x].parent;
    if n == x then WithChild(s[x], Other(d), b).(parent := y)
    else if n == y then WithChild(s[y], d, x).(parent := p)
    else if n == b && n != sentinel then s[n].(parent := x)
    else if x != root && n == p then Rehung(s[n], x, y)
    else s[n]
  }

  lemma FitsReady(c: Path, t: Shape, d: Side, s: Snapshot, root: Node, sentinel: Node)
    requires Fits(c, t, s, root, sentinel) && t.Fork? && Sub(t, Other(d)).Fork?
    ensures Ready(s, t.node, d, root, sentinel)
    ensures var v := Sub(t, Other(d));
      && ChildOf(s[t.node], Other(d)) == v.node && v.node in s
      && ChildOf(s[v.node], d) == Target(LinkTo(Sub(v, d)), sentinel)
    ensures root == t.node <==> c.Top?
    ensures !c.Top? ==> s[t.node].parent == c.node
  {
    RotatedDistinct(t, d);
    TopCells(t, Other(d), ParentLink(c));
    RootOnPath(c, LinkTo(t));
  }

  /** The context of a subtree still fits when its root is replaced in the parent. */
  lemma PathRehung(c: Path, t: Shape, s: Snapshot, root: Node, s': Snapshot, g: Link<Node>, sentinel: Node)
    requires Fits(c, t, s, root, sentinel) && t.Fork? && ContextElements(c) <= s'.Keys
    requires forall n | n in ContextElements(c) ::
      s'[n] == if n == c.node then Rehung(s[n], t.node, Target(g, sentinel)) else s[n]
    ensures forall n | n in ContextElements(c) :: Holds(s'[n], CellIn(c, n, g), sentinel)
  {
    forall n | n in ContextElements(c) ensures Holds(s'[n], CellIn(c, n, g), sentinel) {
      HoleCells(c, n, LinkTo(t), g);
    }
  }

  lemma TreeTurned(c: Path, t: Shape, d: Side, s: Snapshot, root: Node, s': Snapshot, sentinel: Node)
    requires Fits(c, t, s, root, sentinel) && t.Fork? && Sub(t, Other(d)).Fork?
    requires Ready(s, t.node, d, root, sentinel) && s'.Keys == s.Keys
    requires forall n | n in s :: s'[n] == Turned(s, t.node, d, root, sentinel, n)
    ensures forall n | n in Elements(t) ::
      n in Elements(Rotated(t, d)) && Holds(s'[n], CellOf(Rotated(t, d), n, ParentLink(c)), sentinel)
  {
    hide Elements, ContextElements, CellOf, CellIn, Distinct, DistinctContext;
    var u, p := Rotated(t, d), ParentLink(c);
    FitsReady(c, t, d, s, root, sentinel);
    RotatedDistinct(t, d);
    RootOnPath(c, LinkTo(t));
    forall n | n in Elements(t) ensures Holds(s'[n], CellOf(u, n, p), sentinel) {
      RotatedCells(t, d, p, n);
      assert Holds(s[n], CellOf(t, n, p), sentinel);
    }
  }

  lemma FitsTurned(c: Path, t: Shape, d: Side, s: Snapshot, root: Node, s': Snapshot, sentinel: Node)
    requires Fits(c, t, s, root, sentinel) && t.Fork? && Sub(t, Other(d)).Fork?
    requires Ready(s, t.node, d, root, sentinel) && s'.Keys == s.Keys
    requires forall n | n in s :: s'[n] == Turned(s, t.node, d, root, sentinel, n)
    ensures Fits(c, Rotated(t, d), s', if root == t.node then Rotated(t, d).node else root, sentinel)
  {
    hide Elements, ContextElements, CellOf, CellIn, Distinct, DistinctContext;
    FitsReady(c, t, d, s, root, sentinel);
    RotatedDistinct(t, d);
    TreeTurned(c, t, d, s, root, s', sentinel);
    RootOnPath(c, LinkTo(t));
    PathRehung(c, t, s, root, s', To(Rotated(t, d).node), sentinel);
  }

  // ------------------------------------------------------ rebalancing on insert

  ghost function Tint(s: Snapshot, n: Node, k: Color): Snapshot
    requires n in s
  {
    s[n := s[n].(color := k)]
  }

  /** What a node and its parent hold. */
  lemma Near(c: Path, t: Shape, s: Snapshot, root: Node, sentinel: Node)
    requires Fits(c, t, s, root, sentinel) && !c.Top?
    ensures c.node in s && c.node != sentinel && s[c.node].color == c.color
    ensures t.Fork? ==> t.node in s && t.node != sentinel && root != t.node && s[t.node].parent == c.node
    ensures c.OnLeft? ==>
        && s[c.node].left == Target(LinkTo(t), sentinel)
        && s[c.node].right == Target(LinkTo(c.right), sentinel)
        && (c.right.Fork? ==> c.right.node in s && s[c.right.node].color == c.right.color)
        && (t.Fork? ==> LinkTo(c.right) != LinkTo(t))
    ensures c.OnRight? ==>
        && s[c.node].right == Target(LinkTo(t), sentinel)
        && s[c.node].left == Target(LinkTo(c.left), sentinel)
        && (c.left.Fork? ==> c.left.node in s && s[c.left.node].color == c.left.color)
        && (t.Fork? ==> LinkTo(c.left) != LinkTo(t))
  {
    RootOnPath(c, LinkTo(t));
  }

  lemma FitsRecolored(c: Path, t: Shape, s: Snapshot, root: Node, sentinel: Node)
    requires Fits(c, t, s, root, sentinel) && !c.Top? && !c.up.Top? && Uncle(c).Fork?
    ensures c.node in s && Uncle(c).node in s && c.up.node in s
    ensures Fits(c.up.up, Recolored(c, t),
                 Tint(Tint(Tint(s, c.node, Black), Uncle(c).node, Black), c.up.node, Red), root, sentinel)
  {
    hide Elements, ContextElements, CellOf, CellIn, Distinct, DistinctContext, Fits;
    FitsUp(c, t, s, root, sentinel);
    FitsPainted(c.up, FocusUp(c, t), Black, s, root, sentinel);
    var s1, p := Tint(s, c.node, Black), Painted(FocusUp(c, t), Black);
    FitsUp(c.up, p, s1, root, sentinel);
    var u := Uncle(c);
    var cu := if c.up.OnLeft? then OnRight(p, c.up.node, c.up.color, c.up.up) else OnLeft(c.up.node, c.up.color, p, c.up.up);
    FitsDown(cu, u, s1, root, sentinel);
    FitsPainted(cu, u, Black, s1, root, sentinel);
    var s2 := Tint(s1, u.node, Black);
    FitsUp(cu, Painted(u, Black), s2, root, sentinel);
    FitsPainted(c.up.up, FocusUp(cu, Painted(u, Black)), Red, s2, root, sentinel);
  }

  lemma FitsPrimed(c: Path, t: Shape, s: Snapshot, root: Node, sentinel: Node)
    requires Fits(c, t, s, root, sentinel) && !c.Top? && !c.up.Top?
    ensures c.node in s && c.up.node in s
    ensures Fits(c.up.up, Primed(c, t), Tint(Tint(s, c.node, Black), c.up.node, Red), root, sentinel)
  {
    hide Elements, ContextElements, CellOf, CellIn, Distinct, DistinctContext, Fits;
    FitsUp(c, t, s, root, sentinel);
    FitsPainted(c.up, FocusUp(c, t), Black, s, root, sentinel);
    var s1, p := Tint(s, c.node, Black), Painted(FocusUp(c, t), Black);
    FitsUp(c.up, p, s1, root, sentinel);
    FitsPainted(c.up.up, FocusUp(c.up, p), Red, s1, root, sentinel);
  }

  lemma {:induction false} FitsPlug(c: Path, t: Shape, s: Snapshot, root: Node, sentinel: Node)
    requires Fits(c, t, s, root, sentinel)
    ensures Fits(Top, Plug(c, t), s, root, sentinel)
    decreases c
  {
    if !c.Top? {
      FitsUp(c, t, s, root, sentinel);
      FitsPlug(c.up, FocusUp(c, t), s, root, sentinel);
    }
  }

  // ----------------------------------------------------------------- attaching

  lemma {:induction false} FitsUnplug(c: Path, t: Shape, s: Snapshot, root: Node, sentinel: Node)
    requires Fits(Top, Plug(c, t), s, root, sentinel)
    ensures Fits(c, t, s, root, sentinel)
    decreases c
  {
    if !c.Top? {
      FitsUnplug(c.up, FocusUp(c, t), s, root, sentinel);
      FitsDown(c, t, s, root, sentinel);
    }
  }

  /** Hanging a red leaf `node` into the hole of `c`. */
  lemma FitsAttached(c: Path, node: Node, s: Snapshot, root: Node, s': Snapshot, sentinel: Node)
    requires Fits(c, Nil, s, root, sentinel) && !c.Top? && node !in s && node != sentinel
    requires s'.Keys == s.Keys + {node}
    requires forall n | n in s :: s'[n] == if n != c.node then s[n]
                                           else if c.OnLeft? then s[n].(left := node) else s[n].(right := node)
    requires s'[node] == Fields(sentinel, sentinel, c.node, Red)
    ensures Fits(c, Fork(Nil, node, Red, Nil), s', root, sentinel)
  {
    RootOnPath(c, Leaf);
    forall n | n in ContextElements(c) ensures n in s' && Holds(s'[n], CellIn(c, n, To(node)), sentinel) {
      HoleCells(c, n, Leaf, To(node));
    }
  }

  // ------------------------------------------------------ rebalancing on delete

  ghost function WithSibling(c: Path, w: Shape): Path
    requires !c.Top?
  {
    Hole(SideOf(c), c.node, c.color, w, c.up)
  }

  /** The sibling of the hole turns colour `k`. */
  lemma FitsSiblingPainted(c: Path, t: Shape, k: Color, s: Snapshot, root: Node, sentinel: Node)
    requires Fits(c, t, s, root, sentinel) && !c.Top? && Sibling(c).Fork?
    ensures Sibling(c).node in s
    ensures Fits(WithSibling(c, Painted(Sibling(c), k)), t, Tint(s, Sibling(c).node, k), root, sentinel)
  {
    hide Elements, ContextElements, CellOf, CellIn, Distinct, DistinctContext, Fits;
    var w := Sibling(c);
    var cw := Hole(Other(SideOf(c)), c.node, c.color, t, c.up);
    FitsUp(c, t, s, root, sentinel);
    FitsDown(cw, w, s, root, sentinel);
    FitsPainted(cw, w, k, s, root, sentinel);
    FitsUp(cw, Painted(w, k), Tint(s, w.node, k), root, sentinel);
    FitsDown(WithSibling(c, Painted(w, k)), t, Tint(s, w.node, k), root, sentinel);
  }

  ghost function WithColor(c: Path, k: Color): Path
    requires !c.Top?
  {
    Hole(SideOf(c), c.node, k, Sibling(c), c.up)
  }

  /** The parent of the hole turns colour `k`. */
  lemma FitsParentPainted(c: Path, t: Shape, k: Color, s: Snapshot, root: Node, sentinel: Node)
    requires Fits(c, t, s, root, sentinel) && !c.Top?
    ensures c.node in s && Fits(WithColor(c, k), t, Tint(s, c.node, k), root, sentinel)
  {
    hide Elements, ContextElements, CellOf, CellIn, Distinct, DistinctContext, Fits;
    FitsUp(c, t, s, root, sentinel);
    FitsPainted(c.up, FocusUp(c, t), k, s, root, sentinel);
    FitsDown(WithColor(c, k), t, Tint(s, c.node, k), root, sentinel);
  }

  lemma FitsRedSibling(c: Path, t: Shape, s: Snapshot, root: Node, sentinel: Node)
    requires Fits(c, t, s, root, sentinel) && !c.Top? && Sibling(c).Fork?
    ensures Sibling(c).node in s && c.node in s
    ensures Fits(c.up, Join(SideOf(c), t, c.node, Red, Painted(Sibling(c), Black)),
                 Tint(Tint(s, Sibling(c).node, Black), c.node, Red), root, sentinel)
  {
    hide Elements, ContextElements, CellOf, CellIn, Distinct, DistinctContext, Fits;
    FitsSiblingPainted(c, t, Black, s, root, sentinel);
    var c1, s1 := WithSibling(c, Painted(Sibling(c), Black)), Tint(s, Sibling(c).node, Black);
    FitsParentPainted(c1, t, Red, s1, root, sentinel);
    FitsUp(WithColor(c1, Red), t, Tint(s1, c.node, Red), root, sentinel);
  }

  lemma FitsLowered(c: Path, t: Shape, s: Snapshot, root: Node, sentinel: Node)
    requires Fits(c, t, s, root, sentinel) && !c.Top? && Sibling(c).Fork?
    ensures Sibling(c).node in s
    ensures Fits(c.up, Lowered(c, t), Tint(s, Sibling(c).node, Red), root, sentinel)
  {
    hide Elements, ContextElements, CellOf, CellIn, Distinct, DistinctContext, Fits;
    FitsSiblingPainted(c, t, Red, s, root, sentinel);
    FitsUp(WithSibling(c, Painted(Sibling(c), Red)), t, Tint(s, Sibling(c).node, Red), root, sentinel);
  }

  /** Seen from the sibling. */
  ghost function Across(c: Path, t: Shape): Path
    requires !c.Top?
  {
    Hole(Other(SideOf(c)), c.node, c.color, t, c.up)
  }

  lemma FitsFarRed(c: Path, t: Shape, s: Snapshot, root: Node, sentinel: Node)
    requires Fits(c, t, s, root, sentinel) && !c.Top? && Sibling(c).Fork? && Sub(Sibling(c), SideOf(c)).Fork?
    ensures var d, w := SideOf(c), Sibling(c);
      && Sub(w, d).node in s && w.node in s
      && Fits(Across(c, t), Join(d, Painted(Sub(w, d), Black), w.node, Red, Sub(w, Other(d))),
              Tint(Tint(s, Sub(w, d).node, Black), w.node, Red), root, sentinel)
  {
    hide Elements, ContextElements, CellOf, CellIn, Distinct, DistinctContext, Fits;
    var d, w := SideOf(c), Sibling(c);
    var near := Sub(w, d);
    FitsUp(c, t, s, root, sentinel);
    FitsDown(Across(c, t), w, s, root, sentinel);
    var cn := Hole(d, w.node, w.color, Sub(w, Other(d)), Across(c, t));
    FitsDown(cn, near, s, root, sentinel);
    FitsPainted(cn, near, Black, s, root, sentinel);
    var s1 := Tint(s, near.node, Black);
    FitsParentPainted(cn, Painted(near, Black), Red, s1, root, sentinel);
    FitsUp(WithColor(cn, Red), Painted(near, Black), Tint(s1, w.node, Red), root, sentinel);
  }

  lemma FitsRepaid(c: Path, t: Shape, s: Snapshot, root: Node, sentinel: Node)
    requires Fits(c, t, s, root, sentinel) && !c.Top? && Sibling(c).Fork? && Sub(Sibling(c), Other(SideOf(c))).Fork?
    ensures var d, w := SideOf(c), Sibling(c);
      var far := Sub(w, Other(d));
      && w.node in s && c.node in s && far.node in s
      && Fits(c.up, Join(d, t, c.node, Black, Join(d, Sub(w, d), w.node, c.color, Painted(far, Black))),
              Tint(Tint(Tint(s, w.node, c.color), c.node, Black), far.node, Black), root, sentinel)
  {
    hide Elements, ContextElements, CellOf, CellIn, Distinct, DistinctContext, Fits;
    var d, w := SideOf(c), Sibling(c);
    var far := Sub(w, Other(d));
    FitsSiblingPainted(c, t, c.color, s, root, sentinel);
    var w1, s1 := Painted(w, c.color), Tint(s, w.node, c.color);
    FitsParentPainted(WithSibling(c, w1), t, Black, s1, root, sentinel);
    var c2, s2 := Hole(d, c.node, Black, w1, c.up), Tint(s1, c.node, Black);
    FitsUp(c2, t, s2, root, sentinel);
    var cw := Across(c2, t);
    FitsDown(cw, w1, s2, root, sentinel);
    var cf := Hole(Other(d), w.node, c.color, Sub(w, d), cw);
    FitsDown(cf, far, s2, root, sentinel);
    FitsPainted(cf, far, Black, s2, root, sentinel);
    var s3 := Tint(s2, far.node, Black);
    FitsUp(cf, Painted(far, Black), s3, root, sentinel);
    FitsUp(cw, FocusUp(cf, Painted(far, Black)), s3, root, sentinel);
  }

  // ------------------------------------------------------------------- splicing

  /** The only child of a node that lacks one. */
  ghost function OnlyChild(t: Shape): Shape
    requires t.Fork?
  {
    if t.left.Nil? then t.right else t.left
  }

  lemma OnlyChildCells(t: Shape, p: Link<Node>, n: Node)
    requires Distinct(t) && t.Fork? && (t.left.Nil? || t.right.Nil?)
    ensures var x := OnlyChild(t);
      && Elements(t) == Elements(x) + {t.node} && t.node !in Elements(x) && Distinct(x)
      && (if x.Fork? then x.node in Elements(x) else Elements(x) == {})
      && (n in Elements(x) ==> CellOf(x, n, p) == if n == x.node then CellOf(t, n, p).(parent := p) else CellOf(t, n, p))
  {
    var x := OnlyChild(t);
    if n in Elements(x) { assert CellOf(t, n, p) == CellOf(x, n, To(t.node)); }
  }

  /** A node with at most one child is replaced by that child. */
  lemma FitsUnlinked(c: Path, t: Shape, s: Snapshot, root: Node, s': Snapshot, sentinel: Node)
    requires Fits(c, t, s, root, sentinel) && !c.Top? && t.Fork? && (t.left.Nil? || t.right.Nil?)
    requires s'.Keys == s.Keys - {t.node}
    requires forall n: Node | n in s' ::
      (s'[n] == if n == c.node then Rehung(s[n], t.node, Target(LinkTo(OnlyChild(t)), sentinel))
                else if LinkTo(OnlyChild(t)) == To(n) then s[n].(parent := c.node)
                else s[n])
    ensures Fits(c, OnlyChild(t), s', root, sentinel)
  {
    hide Elements, ContextElements, CellOf, CellIn, Distinct, DistinctContext;
    var x := OnlyChild(t);
    RootOnPath(c, LinkTo(t));
    OnlyChildCells(t, ParentLink(c), t.node);
    forall n | n in Elements(x) ensures n in s' && Holds(s'[n], CellOf(x, n, ParentLink(c)), sentinel) {
      OnlyChildCells(t, ParentLink(c), n);
    }
    PathRehung(c, t, s, root, s', LinkTo(x), sentinel);
  }

  /** A node outside the tree takes the place of the root of `t`. */
  lemma FitsRenamed(c: Path, t: Shape, y: Node, s: Snapshot, root: Node, s': Snapshot, sentinel: Node)
    requires Fits(c, t, s, root, sentinel) && t.Fork? && y !in s && y != sentinel
    requires s'.Keys == s.Keys - {t.node} + {y} && s'[y] == s[t.node]
    requires forall n: Node | n in s' && n != y ::
      (s'[n] == if !c.Top? && n == c.node then Rehung(s[n], t.node, y)
                else if LinkTo(t.left) == To(n) || LinkTo(t.right) == To(n) then s[n].(parent := y)
                else s[n])
    ensures Fits(c, Fork(t.left, y, t.color, t.right), s', if root == t.node then y else root, sentinel)
  {
    hide ContextElements, CellIn, DistinctContext;
    var u := Fork(t.left, y, t.color, t.right);
    RootOnPath(c, LinkTo(t));
    forall n | n in Elements(u) ensures n in s' && Holds(s'[n], CellOf(u, n, ParentLink(c)), sentinel) {
      if n != y { RenamedCell(t, y, ParentLink(c), n); }
    }
    PathRehung(c, t, s, root, s', To(y), sentinel);
  }

  lemma RenamedCell(t: Shape, y: Node, p: Link<Node>, n: Node)
    requires Distinct(t) && t.Fork? && y !in Elements(t) && n in Elements(t) && n != t.node
    ensures var u := Fork(t.left, y, t.color, t.right);
      n in Elements(u) && CellOf(u, n, p) ==
        if LinkTo(t.left) == To(n) || LinkTo(t.right) == To(n) then CellOf(t, n, p).(parent := To(y)) else CellOf(t, n, p)
  {
  }

  lemma {:induction false} FitsCompose(inner: Path, outer: Path, t: Shape, s: Snapshot, root: Node, sentinel: Node)
    requires Fits(outer, Plug(inner, t), s, root, sentinel)
    ensures Fits(Compose(inner, outer), t, s, root, sentinel)
    decreases inner
  {
    if !inner.Top? {
      FitsCompose(inner.up, outer, FocusUp(inner, t), s, root, sentinel);
      FitsDown(Compose(inner, outer), t, s, root, sentinel);
    }
  }

  lemma {:induction false} FitsDecompose(inner: Path, outer: Path, t: Shape, s: Snapshot, root: Node, sentinel: Node)
    requires Fits(Compose(inner, outer), t, s, root, sentinel)
    ensures Fits(outer, Plug(inner, t), s, root, sentinel)
    decreases inner
  {
    if !inner.Top? {
      FitsUp(Compose(inner, outer), t, s, root, sentinel);
      FitsDecompose(inner.up, outer, FocusUp(inner, t), s, root, sentinel);
    }
  }

  /** `temp` takes the place of `subst` and gets `up` as its parent. */
  ghost function Unlinked(s: Snapshot, subst: Node, temp: Node, up: Node, n: Node): Fields
    requires subst in s && n in s
  {
    if n == s[subst].parent then Rehung(s[n], subst, temp)
    else if n == temp then s[n].(parent := up)
    else s[n]
  }

  /** `subst` takes the place of `node`. */
  ghost function TakenOver(s: Snapshot, node: Node, subst: Node, root: Node, n: Node): Fields
    requires node in s && n in s
  {
    if n == subst then s[node]
    else if node != root && n == s[node].parent then Rehung(s[n], node, subst)
    else if n == s[node].left || n == s[node].right then s[n].(parent := subst)
    else s[n]
  }

  /** `subst` has the fields of `node` and its place below the parent. */
  ghost function Inherited(s: Snapshot, node: Node, subst: Node, root: Node, n: Node): Fields
    requires node in s && n in s
  {
    if n == subst then s[node]
    else if node != root && n == s[node].parent then Rehung(s[n], node, subst)
    else s[n]
  }

  /** The children of `subst` have it as their parent. */
  ghost function Adopted(s: Snapshot, subst: Node, n: Node): Fields
    requires subst in s && n in s
  {
    if n == s[subst].left || n == s[subst].right then s[n].(parent := subst) else s[n]
  }

  ghost predicate CanTakeOver(s: Snapshot, node: Node, subst: Node, root: Node, sentinel: Node) {
    && node in s && subst in s && node != subst && sentinel !in s && root != subst
    && var l, r, p := s[node].left, s[node].right, s[node].parent;
    && l != null && r != null && l != subst && r != subst && l != node && r != node
    && (l == sentinel || l in s) && (r == sentinel || r in s)
    && (node != root ==>
          && p != null && p in s && p != node && p != subst && p != l && p != r
          && (s[p].left == node <==> s[p].right != node))
  }

  /** The way from the place of `t` to the minimum of its right subtree. */
  ghost function ToMin(c: Path, t: Shape, node: Node, inner: Path): Path
    requires t.Fork?
  {
    Compose(inner, OnRight(t.left, node, t.color, c))
  }

  ghost predicate HasMin(t: Shape, inner: Path, m: Shape) {
    t.Fork? && t.left.Fork? && t.right == Plug(inner, m) && m.Fork? && m.left.Nil? && Before(inner) == []
  }

  lemma FitsMin(c: Path, t: Shape, inner: Path, m: Shape, s: Snapshot, root: Node, sentinel: Node)
    requires Fits(c, t, s, root, sentinel) && HasMin(t, inner, m)
    ensures Fits(ToMin(c, t, t.node, inner), m, s, root, sentinel)
  {
    FitsDown(OnRight(t.left, t.node, t.color, c), t.right, s, root, sentinel);
    FitsCompose(inner, OnRight(t.left, t.node, t.color, c), m, s, root, sentinel);
  }

  /** The tree with the minimum `m` of the right subtree taken out of `t`. */
  ghost function WithoutMin(t: Shape, inner: Path, m: Shape): Shape
    requires HasMin(t, inner, m)
  {
    Fork(t.left, t.node, t.color, Plug(inner, m.right))
  }

  lemma FitsMinUnlinked(c: Path, t: Shape, inner: Path, m: Shape, s: Snapshot, root: Node, s': Snapshot, sentinel: Node)
    requires Fits(c, t, s, root, sentinel) && HasMin(t, inner, m)
    requires s'.Keys == s.Keys - {m.node} && m.node in s
    requires !ToMin(c, t, t.node, inner).Top?
    requires forall n: Node | n in s' ::
      s'[n] == Unlinked(s, m.node, Target(LinkTo(m.right), sentinel), ToMin(c, t, t.node, inner).node, n)
    ensures Fits(c, WithoutMin(t, inner, m), s', root, sentinel)
  {
    hide Elements, ContextElements, CellOf, CellIn, Distinct, DistinctContext, Fits, Plug, Compose;
    var p := ToMin(c, t, t.node, inner);
    FitsMin(c, t, inner, m, s, root, sentinel);
    Near(p, m, s, root, sentinel);
    NotSentinel(p, m, s, root, sentinel);
    FitsUnlinked(p, m, s, root, s', sentinel);
    FitsDecompose(inner, OnRight(t.left, t.node, t.color, c), m.right, s', root, sentinel);
    FitsUp(OnRight(t.left, t.node, t.color, c), Plug(inner, m.right), s', root, sentinel);
  }

  lemma NotSentinel(c: Path, t: Shape, s: Snapshot, root: Node, sentinel: Node)
    requires Fits(c, t, s, root, sentinel)
    ensures sentinel !in s
  {
  }

  /** What the pointer code of ngx_rbtree_delete leaves when the node has two children. */
  ghost predicate Spliced(t: Shape, m: Shape, s: Snapshot, s1: Snapshot, s2: Snapshot, root: Node, sentinel: Node)
    requires t.Fork? && m.Fork?
  {
    var node, subst, temp := t.node, m.node, Target(LinkTo(m.right), sentinel);
    && node in s && subst in s && s[subst].parent != null
    && s1.Keys == s.Keys && s2.Keys == s.Keys - {node}
    && var up: Node := if s[subst].parent == node then subst else s[subst].parent;
    && (forall n | n in s :: s1[n] == Unlinked(s, subst, temp, up, n))
    && (forall n | n in s2 :: s2[n] == TakenOver(s1, node, subst, root, n))
  }

  /** The snapshot with the minimum of the right subtree taken out. */
  ghost function MinOut(c: Path, t: Shape, inner: Path, m: Shape, s: Snapshot, sentinel: Node): Snapshot
    requires t.Fork? && m.Fork? && m.node in s && !ToMin(c, t, t.node, inner).Top?
  {
    map n: Node | n in s && n != m.node ::
      Unlinked(s, m.node, Target(LinkTo(m.right), sentinel), ToMin(c, t, t.node, inner).node, n)
  }

  lemma SplicedAgrees(c: Path, t: Shape, inner: Path, m: Shape, s: Snapshot, root: Node,
                      s1: Snapshot, s2: Snapshot, sentinel: Node, n: Node)
    requires Fits(c, t, s, root, sentinel) && HasMin(t, inner, m)
    requires Spliced(t, m, s, s1, s2, root, sentinel)
    requires n in s2 && !ToMin(c, t, t.node, inner).Top?
    requires Fits(c, WithoutMin(t, inner, m), MinOut(c, t, inner, m, s, sentinel), root, sentinel)
    ensures var u, ideal := WithoutMin(t, inner, m), MinOut(c, t, inner, m, s, sentinel);
      && t.node in ideal && (n != m.node ==> n in ideal)
      && (s2[n] == if n == m.node then ideal[t.node]
                   else if !c.Top? && n == c.node then Rehung(ideal[n], t.node, m.node)
                   else if LinkTo(u.left) == To(n) || LinkTo(u.right) == To(n) then ideal[n].(parent := m.node)
                   else ideal[n])
  {
    hide Elements, ContextElements, CellOf, CellIn, Distinct, DistinctContext, Fits, Compose, ToMin;
    MinApart(c, t, inner, m, s, root, sentinel);
    RootFields(c, WithoutMin(t, inner, m), MinOut(c, t, inner, m, s, sentinel), root, sentinel);
  }

  lemma FitsSpliced(c: Path, t: Shape, inner: Path, m: Shape, s: Snapshot, root: Node,
                    s1: Snapshot, s2: Snapshot, sentinel: Node)
    requires Fits(c, t, s, root, sentinel) && HasMin(t, inner, m)
    requires Spliced(t, m, s, s1, s2, root, sentinel)
    ensures Fits(ToMin(c, t, m.node, inner), m.right, s2, if root == t.node then m.node else root, sentinel)
  {
    hide Elements, ContextElements, CellOf, CellIn, Distinct, DistinctContext, Fits, Plug, Compose, Unlinked, TakenOver;
    var node, subst, u := t.node, m.node, WithoutMin(t, inner, m);
    MinApart(c, t, inner, m, s, root, sentinel);
    var ideal := MinOut(c, t, inner, m, s, sentinel);
    FitsMinUnlinked(c, t, inner, m, s, root, ideal, sentinel);
    forall n: Node | n in s2 { SplicedAgrees(c, t, inner, m, s, root, s1, s2, sentinel, n); }
    SplicedAgrees(c, t, inner, m, s, root, s1, s2, sentinel, subst);
    FitsRenamed(c, u, subst, ideal, root, s2, sentinel);
    var root' := if root == node then subst else root;
    FitsDown(OnRight(t.left, subst, t.color, c), Plug(inner, m.right), s2, root', sentinel);
    FitsCompose(inner, OnRight(t.left, subst, t.color, c), m.right, s2, root', sentinel);
  }

  /** The root of a subtree, its children and its parent. */
  lemma RootFields(c: Path, t: Shape, s: Snapshot, root: Node, sentinel: Node)
    requires Fits(c, t, s, root, sentinel) && t.Fork?
    ensures t.node in s && sentinel !in s && t.node != sentinel && (root == t.node <==> c.Top?)
    ensures s[t.node].left == Target(LinkTo(t.left), sentinel) && s[t.node].right == Target(LinkTo(t.right), sentinel)
    ensures t.left.Fork? ==> t.left.node in s && t.left.node != t.node && LinkTo(t.left) != LinkTo(t.right)
    ensures t.right.Fork? ==> t.right.node in s && t.right.node != t.node
    ensures t.left.Fork? ==> s[t.left.node].parent == t.node
    ensures t.right.Fork? ==> s[t.right.node].parent == t.node
    ensures !c.Top? ==> s[t.node].parent == c.node && c.node in s && To(c.node) != LinkTo(t)
                        && To(c.node) != LinkTo(t.left) && To(c.node) != LinkTo(t.right)
    ensures !c.Top? ==> (s[c.node].left == t.node <==> s[c.node].right != t.node)
  {
    RootOnPath(c, LinkTo(t));
    if t.left.Fork? { TopCells(t, L, ParentLink(c)); }
    if t.right.Fork? { TopCells(t, R, ParentLink(c)); }
    assert t.left.Fork? ==> t.left.node in Elements(t.left);
    assert t.right.Fork? ==> t.right.node in Elements(t.right);
  }

  /** Where the minimum of the right subtree and its only child lie. */
  lemma MinApart(c: Path, t: Shape, inner: Path, m: Shape, s: Snapshot, root: Node, sentinel: Node)
    requires Fits(c, t, s, root, sentinel) && HasMin(t, inner, m)
    ensures var p := ToMin(c, t, t.node, inner);
      && !p.Top? && m.node in s && m.node != sentinel && m.node != t.node && p.node in s && p.node != m.node
      && s[m.node].parent == p.node && root != m.node
      && s[m.node].left == sentinel && s[m.node].right == Target(LinkTo(m.right), sentinel)
      && (m.right.Fork? ==> m.right.node in s && m.right.node != m.node && m.right.node != t.node && m.right.node != p.node)
      && (s[p.node].left == m.node <==> s[p.node].right != m.node)
      && (p.node == t.node <==> inner.Top?)
    ensures !c.Top? ==> c.node != m.node && To(c.node) != LinkTo(m.right)
    ensures To(m.node) != LinkTo(t.left) && LinkTo(t.left) != LinkTo(m.right)
  {
    var p := ToMin(c, t, t.node, inner);
    FitsMin(c, t, inner, m, s, root, sentinel);
    RootFields(p, m, s, root, sentinel);
    PlugElements(inner, m);
    RootOnPath(c, LinkTo(t));
    assert m.right.Fork? ==> m.right.node in Elements(m.right);
  }

  lemma MinCanTakeOver(c: Path, t: Shape, inner: Path, m: Shape, s: Snapshot, root: Node, s1: Snapshot, sentinel: Node)
    requires Fits(c, t, s, root, sentinel) && HasMin(t, inner, m)
    requires m.node in s && s[m.node].parent != null && s1.Keys == s.Keys
    requires var up: Node := if s[m.node].parent == t.node then m.node else s[m.node].parent;
      forall n | n in s :: s1[n] == Unlinked(s, m.node, Target(LinkTo(m.right), sentinel), up, n)
    ensures CanTakeOver(s1, t.node, m.node, root, sentinel)
  {
    hide Elements, ContextElements, CellOf, CellIn, Distinct, DistinctContext, Fits, Compose, ToMin;
    MinApart(c, t, inner, m, s, root, sentinel);
    RootFields(c, t, s, root, sentinel);
    ApartFromMin(c, t, inner, m, s, root, sentinel);
  }

  lemma ApartFromMin(c: Path, t: Shape, inner: Path, m: Shape, s: Snapshot, root: Node, sentinel: Node)
    requires Fits(c, t, s, root, sentinel) && HasMin(t, inner, m)
    ensures !c.Top? && !ToMin(c, t, t.node, inner).Top? ==> c.node != ToMin(c, t, t.node, inner).node
  {
    PlugElements(inner, m);
    RootOnPath(c, LinkTo(t));
    RootOnPath(inner, LinkTo(m));
  }

  lemma FitsRootReplaced(t: Shape, s: Snapshot, root: Node, s': Snapshot, sentinel: Node)
    requires Fits(Top, t, s, root, sentinel) && t.Fork? && (t.left.Nil? || t.right.Nil?)
    requires s' == s - {t.node}
    ensures Fits(Top, OnlyChild(t), s', Target(LinkTo(OnlyChild(t)), sentinel), sentinel)
  {
    hide Elements, CellOf, Distinct;
    var x := OnlyChild(t);
    OnlyChildCells(t, Leaf, t.node);
    forall n | n in Elements(x) ensures n in s' && Holds(s'[n], CellOf(x, n, Leaf), sentinel) { OnlyChildCells(t, Leaf, n); }
  }

  // ------------------------------------------------- what splicing does to shapes

  /** Taking out a node with at most one child: nothing is missing if it was red. */
  lemma UnlinkedShape(c: Path, t: Shape)
    requires RedBlack(Plug(c, t)) && t.Fork? && (t.left.Nil? || t.right.Nil?)
    ensures if t.color == Red then RedBlack(Plug(c, OnlyChild(t))) else Short(c, OnlyChild(t))
    ensures InOrder(t) == [t.node] + InOrder(OnlyChild(t)) || InOrder(t) == InOrder(OnlyChild(t)) + [t.node]
  {
    PlugRedBlack(c, t);
    PlugRedBlack(c, OnlyChild(t));
  }

  lemma {:induction false} RenamedContext(inner: Path, l: Shape, x: Node, y: Node, k: Color, c: Path, h: nat)
    ensures FitsHeight(Compose(inner, OnRight(l, x, k, c)), h) <==> FitsHeight(Compose(inner, OnRight(l, y, k, c)), h)
    ensures Proper(Compose(inner, OnRight(l, x, k, c))) <==> Proper(Compose(inner, OnRight(l, y, k, c)))
    ensures RedParent(Compose(inner, OnRight(l, x, k, c))) <==> RedParent(Compose(inner, OnRight(l, y, k, c)))
    ensures !Compose(inner, OnRight(l, x, k, c)).Top? && !Compose(inner, OnRight(l, y, k, c)).Top?
    decreases inner
  {
    if !inner.Top? { RenamedContext(inner.up, l, x, y, k, c, h + Weight(inner.color)); }
  }

  lemma SplicedShape(c: Path, t: Shape, inner: Path, m: Shape)
    requires RedBlack(Plug(c, t)) && HasMin(t, inner, m)
    ensures if m.color == Red then RedBlack(Plug(ToMin(c, t, m.node, inner), m.right))
            else Short(ToMin(c, t, m.node, inner), m.right)
  {
    hide Balanced, NoRedRed;
    var before, after := ToMin(c, t, t.node, inner), ToMin(c, t, m.node, inner);
    PlugCompose(inner, OnRight(t.left, t.node, t.color, c), m);
    UnlinkedShape(before, m);
    PlugRedBlack(before, m.right);
    PlugRedBlack(after, m.right);
    RenamedContext(inner, t.left, t.node, m.node, t.color, c, BlackHeight(m.right));
    RenamedContext(inner, t.left, t.node, m.node, t.color, c, BlackHeight(m.right) + 1);
  }

  /** The sequence `q` without its element at `k`. */
  ghost function Without<T>(q: seq<T>, k: nat): seq<T>
    requires k < |q|
  {
    q[..k] + q[k + 1..]
  }

  lemma UnlinkedSpelling(c: Path, t: Shape)
    requires t.Fork? && (t.left.Nil? || t.right.Nil?)
    ensures var k := |Before(c)| + |InOrder(t.left)|;
      && k < |Spelled(c, t)| && Spelled(c, t)[k] == t.node && Spelled(c, OnlyChild(t)) == Without(Spelled(c, t), k)
  {
    hide Without, Before, After;
    assert InOrder(OnlyChild(t)) == InOrder(t.left) + InOrder(t.right);
    DroppedOne(Before(c), InOrder(t.left), t.node, InOrder(t.right), After(c));
  }

  lemma DroppedOne<T>(a: seq<T>, l: seq<T>, n: T, r: seq<T>, e: seq<T>)
    ensures var q, k := a + (l + [n] + r) + e, |a| + |l|;
      q[k] == n && a + (l + r) + e == Without(q, k)
  {
  }

  lemma SplicedSpelling(c: Path, t: Shape, inner: Path, m: Shape)
    requires HasMin(t, inner, m)
    ensures var k := |Before(c)| + |InOrder(t.left)|;
      && k < |Spelled(c, t)| && Spelled(c, t)[k] == t.node
      && Spelled(ToMin(c, t, m.node, inner), m.right) == Without(Spelled(c, t), k)
  {
    hide Without, InOrder, Before, After, Plug;
    MinSpelled(c, t, inner, m);
    Dropped(Before(c), InOrder(t.left), t.node, m.node, InOrder(m.right), After(inner), After(c));
  }

  /** The sequence before and after the minimum of the right subtree took the place of the root. */
  lemma MinSpelled(c: Path, t: Shape, inner: Path, m: Shape)
    requires HasMin(t, inner, m)
    ensures var a, l, x, b, e := Before(c), InOrder(t.left), InOrder(m.right), After(inner), After(c);
      && Spelled(c, t) == a + (l + [t.node] + ([m.node] + x + b)) + e
      && Spelled(ToMin(c, t, m.node, inner), m.right) == a + (l + [m.node]) + (x + b) + e
  {
    hide Plug, Compose;
    var outer := OnRight(t.left, m.node, t.color, c);
    SpelledCompose(inner, outer, m.right);
    PlugInOrder(inner, m);
    PlugInOrder(inner, m.right);
    OnTheRight(c, t.left, m.node, t.color);
    LeafLeft(m);
    hide Before, After, InOrder;
    var x, b := InOrder(m.right), After(inner);
    assert [] + ([m.node] + x) + b == [m.node] + x + b && [] + x + b == x + b;
  }

  lemma OnTheRight(c: Path, l: Shape, x: Node, k: Color)
    ensures Before(OnRight(l, x, k, c)) == Before(c) + (InOrder(l) + [x]) && After(OnRight(l, x, k, c)) == After(c)
  {
  }

  lemma LeafLeft(m: Shape)
    requires m.Fork? && m.left.Nil?
    ensures InOrder(m) == [m.node] + InOrder(m.right)
  {
  }

  lemma SpelledCompose(inner: Path, outer: Path, u: Shape)
    ensures Spelled(Compose(inner, outer), u) == Spelled(outer, Plug(inner, u))
  {
    PlugCompose(inner, outer, u);
    PlugInOrder(Compose(inner, outer), u);
    PlugInOrder(outer, Plug(inner, u));
  }

  lemma Dropped<T>(a: seq<T>, l: seq<T>, n: T, m: T, x: seq<T>, b: seq<T>, e: seq<T>)
    ensures var q, k := a + (l + [n] + ([m] + x + b)) + e, |a| + |l|;
      q[k] == n && a + (l + [m]) + (x + b) + e == Without(q, k)
  {
  }
}
