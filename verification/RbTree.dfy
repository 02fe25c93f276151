/**
 The red-black tree of ngx_rbtree.c on linked nodes with parent pointers and a
 shared sentinel.

 The code below assigns the fields of heap nodes in the order of the source.  Each
 step is proved against shapes (module RbShape): `At(c, t)` says that the heap
 holds the tree `Plug(c, t)`.  The parent of the root and the parent of the
 sentinel are left open, as in the source.
 */
module RbTree {
  import opened RbShape
  import opened RbLinks
  import opened Words

  class RbTree {
    var root: Node
    const sentinel: Node
    const order: Order
    ghost var nodes: set<Node>
    ghost var shape: Shape

    ghost predicate Valid()
      reads this, sentinel, nodes
    {
      At(Top, shape) && RedBlack(shape)
    }

    /** The nodes in order. */
    ghost function Sequence(): seq<Node>
      reads this
    {
      InOrder(shape)
    }

    /** ngx_rbtree_init */
    constructor (s: Node, order: Order)
      modifies s`color
      ensures Valid() && Sequence() == [] && nodes == {}
      ensures sentinel == s && this.order == order
    {
      root, sentinel, this.order := s, s, order;
      nodes, shape := {}, Nil;
      new;
      s.color := Black;
    }

    ghost function Snap(): Snapshot
      reads this`nodes, nodes`left, nodes`right, nodes`parent, nodes`color
    {
      map n | n in nodes :: FieldsOf(n)
    }

    /** The heap holds the tree `Plug(c, t)`. */
    ghost predicate At(c: Path, t: Shape)
      reads this`root, this`nodes, sentinel`color, nodes`left, nodes`right, nodes`parent, nodes`color
    {
      sentinel.color == Black && Fits(c, t, Snap(), root, sentinel)
    }

    method Paint(n: Node, k: Color)
      requires n in nodes
      modifies n`color
      ensures n in old(Snap()) && Snap() == Tint(old(Snap()), n, k)
    {
      n.color := k;
    }

    /** The assignments of ngx_rbtree_left_rotate. */
    method RelinkLeft(node: Node)
      requires Ready(Snap(), node, L, root, sentinel)
      modifies this`root, nodes`left, nodes`right, nodes`parent
      ensures root == if old(root) == node then old(node.right) else old(root)
      ensures forall n | n in nodes :: FieldsOf(n) == Turned(old(Snap()), node, L, old(root), sentinel, n)
    {
      var temp := node.right;
      node.right := temp.left;
      if temp.left != sentinel {
        temp.left.parent := node;
      }
      temp.parent := node.parent;
      if node == root {
        root := temp;
      } else if node == node.parent.left {
        node.parent.left := temp;
      } else {
        node.parent.right := temp;
      }
      temp.left := node;
      node.parent := temp;
    }

    /** The assignments of ngx_rbtree_right_rotate. */
    method RelinkRight(node: Node)
      requires Ready(Snap(), node, R, root, sentinel)
      modifies this`root, nodes`left, nodes`right, nodes`parent
      ensures root == if old(root) == node then old(node.left) else old(root)
      ensures forall n | n in nodes :: FieldsOf(n) == Turned(old(Snap()), node, R, old(root), sentinel, n)
    {
      var temp := node.left;
      node.left := temp.right;
      if temp.right != sentinel {
        temp.right.parent := node;
      }
      temp.parent := node.parent;
      if node == root {
        root := temp;
      } else if node == node.parent.right {
        node.parent.right := temp;
      } else {
        node.parent.left := temp;
      }
      temp.right := node;
      node.parent := temp;
    }

    method LeftRotate(node: Node, ghost c: Path, ghost t: Shape)
      requires At(c, t) && t.Fork? && t.node == node && t.right.Fork?
      modifies this`root, nodes`left, nodes`right, nodes`parent
      ensures At(c, Rotated(t, L))
    {
      ghost var s := Snap();
      FitsReady(c, t, L, s, root, sentinel);
      RelinkLeft(node);
      FitsTurned(c, t, L, s, old(root), Snap(), sentinel);
    }

    method RightRotate(node: Node, ghost c: Path, ghost t: Shape)
      requires At(c, t) && t.Fork? && t.node == node && t.left.Fork?
      modifies this`root, nodes`left, nodes`right, nodes`parent
      ensures At(c, Rotated(t, R))
    {
      ghost var s := Snap();
      FitsReady(c, t, R, s, root, sentinel);
      RelinkRight(node);
      FitsTurned(c, t, R, s, old(root), Snap(), sentinel);
    }

    method Rotate(node: Node, d: Side, ghost c: Path, ghost t: Shape)
      requires At(c, t) && t.Fork? && t.node == node && Sub(t, Other(d)).Fork?
      modifies this`root, nodes`left, nodes`right, nodes`parent
      ensures At(c, Rotated(t, d))
    {
      if d == L {
        LeftRotate(node, c, t);
      } else {
        RightRotate(node, c, t);
      }
    }

    lemma Neighbours(c: Path, t: Shape)
      requires At(c, t) && !c.Top? && !c.up.Top? && t.Fork?
      ensures sentinel !in nodes
      ensures t.node in nodes && t.node.parent == c.node && c.node in nodes && c.node.parent == c.up.node && c.up.node in nodes
      ensures c.node.color == c.color
      ensures c.OnLeft? <==> c.node.left == t.node
      ensures c.OnRight? <==> c.node.right == t.node
      ensures c.up.OnLeft? <==> c.up.node.left == c.node
      ensures var u := Uncle(c); if u.Nil? then (if c.up.OnLeft? then c.up.node.right else c.up.node.left) == sentinel
              else u.node in nodes && u.node.color == u.color && u.node == if c.up.OnLeft? then c.up.node.right else c.up.node.left
    {
      Near(c, t, Snap(), root, sentinel);
      FitsUp(c, t, Snap(), root, sentinel);
      Near(c.up, FocusUp(c, t), Snap(), root, sentinel);
      assert forall n | n in nodes :: Snap()[n] == FieldsOf(n);
    }

    /** The last two repaints and the rotation, for a node on the outside. */
    method Settle(node: Node, d: Side, ghost c: Path, ghost t: Shape)
      requires At(c, t) && Rising(c, t) && RedParent(c) && IsRed(t) && t.node == node
      requires Outer(c, d) && !IsRed(Uncle(c))
      modifies this`root, nodes`left, nodes`right, nodes`parent, nodes`color
      ensures At(Settled(c, d), t)
    {
      hide Elements, ContextElements, CellOf, CellIn, Distinct, DistinctContext, Fits, Spelled, Rising;
      Neighbours(c, t);
      FitsPrimed(c, t, Snap(), root, sentinel);
      OuterSettles(c, t, d);
      Paint(node.parent, Black);
      Paint(node.parent.parent, Red);
      Rotate(node.parent.parent, Other(d), c.up.up, Primed(c, t));
      FitsDown(Settled(c, d), t, Snap(), root, sentinel);
    }

    /** Rotates an inner node's parent, which becomes an outer node. */
    method Straighten(node: Node, d: Side, ghost c: Path, ghost t: Shape)
      requires At(c, t) && Rising(c, t) && RedParent(c) && IsRed(t) && Inner(c, d) && c.node == node
      modifies this`root, nodes`left, nodes`right, nodes`parent
      ensures At(OuterContext(c, t, d), OuterTree(c, t, d))
    {
      hide Elements, ContextElements, CellOf, CellIn, Distinct, DistinctContext, Fits, Spelled, Rising;
      InnerBecomesOuter(c, t, d);
      FitsUp(c, t, Snap(), root, sentinel);
      Rotate(node, d, c.up, FocusUp(c, t));
      FitsDown(OuterContext(c, t, d), OuterTree(c, t, d), Snap(), root, sentinel);
    }

    /** Parent and uncle turn black, the grandparent red. */
    method Recolor(node: Node, temp: Node, ghost c: Path, ghost t: Shape)
      requires At(c, t) && RedParent(c) && IsRed(t) && t.node == node && !c.up.Top?
      requires IsRed(Uncle(c)) && Uncle(c).node == temp
      modifies nodes`color
      ensures At(c.up.up, Recolored(c, t))
    {
      hide Elements, ContextElements, CellOf, CellIn, Distinct, DistinctContext, Fits, Tint, Recolored;
      Neighbours(c, t);
      FitsRecolored(c, t, Snap(), root, sentinel);
      Paint(node.parent, Black);
      Paint(temp, Black);
      Paint(node.parent.parent, Red);
    }

    /**
     One round of the loop in ngx_rbtree_insert for a parent that is a child on side `d`; the
     source spells the two sides out one after the other.
     */
    method InsertRound(start: Node, d: Side, ghost c0: Path, ghost t0: Shape)
      returns (node: Node, ghost c: Path, ghost t: Shape)
      requires At(c0, t0) && Rising(c0, t0) && RedParent(c0) && IsRed(t0) && t0.node == start
      requires if d == L then c0.up.OnLeft? else c0.up.OnRight?
      modifies this`root, nodes`left, nodes`right, nodes`parent, nodes`color
      ensures At(c, t) && Rising(c, t) && t.node == node
      ensures Spelled(c, t) == Spelled(c0, t0) && Trouble(c) < Trouble(c0)
    {
      hide Elements, ContextElements, CellOf, CellIn, Distinct, DistinctContext, Fits, Spelled, Rising;
      c, t := c0, t0;
      node := start;
      Neighbours(c, t);
      var temp := Child(node.parent.parent, Other(d));
      if temp.color == Red {
        RecoloredRises(c, t);
        Recolor(node, temp, c, t);
        node := node.parent.parent;
        c, t := c.up.up, Recolored(c, t);
      } else {
        if node == Child(node.parent, Other(d)) {
          node := node.parent;
          InnerBecomesOuter(c, t, d);
          Straighten(node, d, c, t);
          c, t := OuterContext(c, t, d), OuterTree(c, t, d);
        }
        OuterSettles(c, t, d);
        Settle(node, d, c, t);
        c := Settled(c, d);
      }
    }

    /** The rebalancing loop of ngx_rbtree_insert. */
    method InsertFixup(start: Node, ghost c0: Path, ghost t0: Shape)
      requires At(c0, t0) && Rising(c0, t0) && t0.node == start
      modifies this`root, this`shape, nodes`left, nodes`right, nodes`parent, nodes`color
      ensures Valid() && Sequence() == Spelled(c0, t0)
    {
      hide Elements, ContextElements, CellOf, CellIn, Distinct, DistinctContext, Fits, Spelled;
      var node := start;
      ghost var c, t := c0, t0;
      Ends(c, t);
      while node != root && node.parent.color == Red
        invariant At(c, t) && Rising(c, t) && t.node == node
        invariant Spelled(c, t) == Spelled(c0, t0)
        invariant node == root <==> c.Top?
        invariant !c.Top? ==> node.parent == c.node && c.node.color == c.color
        decreases Trouble(c)
      {
        Neighbours(c, t);
        if node.parent == node.parent.parent.left {
          node, c, t := InsertRound(node, L, c, t);
        } else {
          node, c, t := InsertRound(node, R, c, t);
        }
        Ends(c, t);
      }
      BlackenRoot(c, t);
    }

    /** The root is the focus exactly at the top. */
    lemma Ends(c: Path, t: Shape)
      requires At(c, t) && t.Fork?
      ensures t.node == root <==> c.Top?
      ensures !c.Top? ==> t.node.parent == c.node && c.node.color == c.color
      ensures sentinel !in nodes && root in nodes
    {
      RootOnPath(c, LinkTo(t));
      if !c.Top? { Near(c, t, Snap(), root, sentinel); }
      assert forall n | n in nodes :: Snap()[n] == FieldsOf(n);
    }

    /** ngx_rbt_black(*root) after the loop. */
    method BlackenRoot(ghost c: Path, ghost t: Shape)
      requires At(c, t) && Rising(c, t) && !RedParent(c)
      modifies this`shape, nodes`color
      ensures Valid() && Sequence() == Spelled(c, t)
    {
      hide Elements, ContextElements, CellOf, CellIn, Distinct, DistinctContext, Fits, Plug, InOrder;
      Ends(c, t);
      PlugInOrder(c, t);
      FitsPlug(c, t, Snap(), root, sentinel);
      PlugRises(c, t);
      ghost var u := Plug(c, t);
      FitsPainted(Top, u, Black, Snap(), root, sentinel);
      Ends(Top, u);
      Paint(root, Black);
      shape := Painted(u, Black);
    }

    /** The descent of the insert functions: finds the free child place for `node`. */
    method Descend(node: Node) returns (temp: Node, onLeft: bool, ghost c: Path)
      requires Valid() && root != sentinel
      ensures At(c, Nil) && !c.Top? && temp == c.node && temp in nodes && (onLeft <==> c.OnLeft?)
      ensures Plug(c, Nil) == shape
      ensures Monotone(order, node, Sequence()) ==> Placed(order, node, Sequence(), c)
    {
      hide Elements, ContextElements, CellOf, CellIn, Distinct, DistinctContext, Fits, InOrder, Placed, Monotone;
      temp := root;
      ghost var t := shape;
      c := Top;
      StartsPlaced(node);
      while true
        invariant At(c, t) && t.Fork? && t.node == temp && Plug(c, t) == shape
        invariant Monotone(order, node, Sequence()) ==> Placed(order, node, Sequence(), c)
        decreases t
      {
        Sees(c, t);
        PlugInOrder(c, t);
        if Monotone(order, node, Sequence()) { PlacedDown(order, node, Sequence(), c, t); }
        onLeft := Precedes(order, node, temp);
        var next := if onLeft then temp.left else temp.right;
        c, t := if onLeft then OnLeft(temp, t.color, t.right, c) else OnRight(t.left, temp, t.color, c),
                if onLeft then t.left else t.right;
        FitsDown(c, t, Snap(), root, sentinel);
        if next == sentinel {
          break;
        }
        temp := next;
      }
    }

    lemma StartsPlaced(node: Node)
      requires Valid() && root != sentinel
      ensures Placed(order, node, Sequence(), Top) && shape.Fork? && shape.node == root
    {
    }

    lemma Sees(c: Path, t: Shape)
      requires At(c, t) && t.Fork?
      ensures t.node in nodes && sentinel !in nodes
      ensures t.node.left == Target(LinkTo(t.left), sentinel) && t.node.right == Target(LinkTo(t.right), sentinel)
      ensures t.left.Fork? ==> t.left.node in nodes
      ensures t.right.Fork? ==> t.right.node in nodes
      ensures t.node.color == t.color
    {
      assert Snap()[t.node] == FieldsOf(t.node);
    }

    /** Makes `node` a red leaf in the place found by the descent. */
    method Attach(node: Node, temp: Node, onLeft: bool, ghost c: Path)
      requires At(c, Nil) && !c.Top? && temp == c.node && temp in nodes && (onLeft <==> c.OnLeft?)
      requires node !in nodes && node != sentinel
      modifies this`nodes, temp`left, temp`right, node`left, node`right, node`parent, node`color
      ensures nodes == old(nodes) + {node}
      ensures At(c, Fork(Nil, node, Red, Nil))
    {
      hide Elements, ContextElements, CellOf, CellIn, Distinct, DistinctContext, Fits;
      ghost var s := Snap();
      if onLeft {
        temp.left := node;
      } else {
        temp.right := node;
      }
      node.parent := temp;
      node.left := sentinel;
      node.right := sentinel;
      node.color := Red;
      nodes := nodes + {node};
      FitsAttached(c, node, s, root, Snap(), sentinel);
    }

    method InsertFirst(node: Node)
      requires Valid() && node != sentinel && root == sentinel
      modifies this`root, this`nodes, this`shape, node`left, node`right, node`parent, node`color
      ensures old(Sequence()) == [] && old(nodes) == {}
      ensures Valid() && nodes == {node} && Sequence() == [node]
    {
      assert shape.Nil?;
      node.parent := null;
      node.left := sentinel;
      node.right := sentinel;
      node.color := Black;
      root := node;
      nodes, shape := {node}, Fork(Nil, node, Black, Nil);
    }

    /** A leaf in the place that the descent found breaks no rule but the red-red one. */
    lemma LeafRises(c: Path, node: Node)
      requires Valid() && Plug(c, Nil) == shape && !c.Top?
      ensures var k, leaf := |Before(c)|, Fork(Nil, node, Red, Nil);
        && Rising(c, leaf) && k <= |Sequence()|
        && Spelled(c, leaf) == Sequence()[..k] + [node] + Sequence()[k..]
        && (Placed(order, node, Sequence(), c) ==> Belongs(order, node, Sequence(), k))
    {
      hide Elements, ContextElements, CellOf, CellIn, Distinct, DistinctContext, Fits, Plug, InOrder, Precedes;
      PlugInOrder(c, Nil);
      PlugRedBlack(c, Nil);
      var a, b, leaf := Before(c), After(c), Fork(Nil, node, Red, Nil);
      LeafFacts(node);
      assert Sequence() == a + [] + b == a + b;
      assert Spelled(c, leaf) == a + [node] + b;
    }

    lemma LeafFacts(node: Node)
      ensures var leaf := Fork(Nil, node, Red, Nil);
        && InOrder<Node>(Nil) == [] && InOrder(leaf) == [node]
        && Balanced(leaf) && NoRedRed(leaf) && BlackHeight(leaf) == BlackHeight<Node>(Nil)
    {
    }

    lemma SequenceNodes()
      requires Valid()
      ensures forall i | 0 <= i < |Sequence()| :: Sequence()[i] in nodes
      ensures forall n | n in nodes :: n in Sequence()
      ensures sentinel !in nodes
    {
      InOrderElements(shape);
    }

    /**
     ngx_rbtree_insert: the node enters the in-order sequence at position `k`, and
     when its order agrees with the sequence, behind every node it does not precede.
     */
    method Insert(node: Node) returns (ghost k: nat)
      requires Valid() && node !in nodes && node != sentinel
      modifies this`root, this`nodes, this`shape, nodes`left, nodes`right, nodes`parent, nodes`color,
               node`left, node`right, node`parent, node`color
      ensures Valid() && nodes == old(nodes) + {node}
      ensures k <= |old(Sequence())|
      ensures Sequence() == old(Sequence())[..k] + [node] + old(Sequence())[k..]
      ensures Monotone(order, node, old(Sequence())) ==> Belongs(order, node, old(Sequence()), k)
    {
      hide Elements, ContextElements, CellOf, CellIn, Distinct, DistinctContext, Plug, InOrder, Fits, RedBlack, Rising,
           Precedes, Placed, Monotone, Belongs;
      SequenceNodes();
      ghost var q := Sequence();
      assert forall i | 0 <= i < |q| :: q[i] in nodes;
      if root == sentinel {
        InsertFirst(node);
        k := 0;
        BelongsAlone(node);
      } else {
        var temp, onLeft, c := Descend(node);
        LeafRises(c, node);
        k := |Before(c)|;
        Attach(node, temp, onLeft, c);
        InsertFixup(node, c, Fork(Nil, node, Red, Nil));
        assert Monotone(order, node, q) == old(Monotone(order, node, q));
        assert Belongs(order, node, q, k) == old(Belongs(order, node, q, k));
      }
    }

    lemma BelongsAlone(node: Node)
      ensures Belongs(order, node, [], 0)
    {
    }

    // ---------------------------------------------------------------- deletion

    /** The sibling of the hole and its children. */
    lemma SeesSibling(c: Path, t: Shape)
      requires At(c, t) && !c.Top? && Sibling(c).Fork?
      ensures sentinel !in nodes && c.node in nodes && c.node.color == c.color
      ensures Child(c.node, SideOf(c)) == Target(LinkTo(t), sentinel) != Sibling(c).node
      ensures var w := Sibling(c);
        && w.node in nodes && Child(c.node, Other(SideOf(c))) == w.node && w.node.color == w.color
        && SeesKid(w, L) && SeesKid(w, R)
      ensures t.Fork? ==> t.node.parent == c.node && t.node in nodes
    {
      Near(c, t, Snap(), root, sentinel);
      FitsUp(c, t, Snap(), root, sentinel);
      FitsDown(Across(c, t), Sibling(c), Snap(), root, sentinel);
      Sees(Across(c, t), Sibling(c));
      assert forall n | n in nodes :: Snap()[n] == FieldsOf(n);
      if t.Fork? { Sees(c, t); }
      KidColors(Across(c, t), Sibling(c));
    }

    ghost predicate SeesKid(w: Shape, e: Side)
      requires w.Fork? && w.node in nodes
      reads this`nodes, nodes`left, nodes`right, nodes`color, sentinel`color
    {
      var kid := Child(w.node, e);
      && kid == Target(LinkTo(Sub(w, e)), sentinel)
      && (Sub(w, e).Fork? ==> kid in nodes)
      && kid.color == (if Sub(w, e).Fork? then Sub(w, e).color else Black)
    }

    lemma KidColors(c: Path, w: Shape)
      requires At(c, w) && w.Fork?
      ensures w.node in nodes && SeesKid(w, L) && SeesKid(w, R)
    {
      Sees(c, w);
      if w.left.Fork? {
        FitsDown(OnLeft(w.node, w.color, w.right, c), w.left, Snap(), root, sentinel);
        Sees(OnLeft(w.node, w.color, w.right, c), w.left);
      }
      if w.right.Fork? {
        FitsDown(OnRight(w.left, w.node, w.color, c), w.right, Snap(), root, sentinel);
        Sees(OnRight(w.left, w.node, w.color, c), w.right);
      }
    }

    /** A red sibling is rotated over the parent. */
    method LiftSibling(parent: Node, w: Node, d: Side, ghost c: Path, ghost t: Shape)
      requires At(c, t) && Short(c, t) && !c.Top? && !IsRed(t) && IsRed(Sibling(c))
      requires SideOf(c) == d && parent == c.node && w == Sibling(c).node
      modifies this`root, nodes`left, nodes`right, nodes`parent, nodes`color
      ensures At(RedSiblingUp(c), t)
    {
      hide Elements, ContextElements, CellOf, CellIn, Distinct, DistinctContext, Fits, Spelled, Short, Tint;
      SeesSibling(c, t);
      FitsRedSibling(c, t, Snap(), root, sentinel);
      RedSiblingStep(c, t);
      Paint(w, Black);
      Paint(parent, Red);
      Rotate(parent, d, c.up, Join(d, t, parent, Red, Painted(Sibling(c), Black)));
      ghost var c' := RedSiblingUp(c);
      FitsDown(c'.up, FocusUp(c', t), Snap(), root, sentinel);
      FitsDown(c', t, Snap(), root, sentinel);
    }

    /** A black sibling with black children turns red. */
    method LowerSibling(w: Node, ghost c: Path, ghost t: Shape)
      requires At(c, t) && !c.Top? && Sibling(c).Fork? && w == Sibling(c).node
      modifies nodes`color
      ensures At(c.up, Lowered(c, t))
    {
      hide Elements, ContextElements, CellOf, CellIn, Distinct, DistinctContext, Fits;
      SeesSibling(c, t);
      FitsLowered(c, t, Snap(), root, sentinel);
      Paint(w, Red);
    }

    /** The red near child is rotated over its parent, the sibling. */
    method TurnSibling(w: Node, d: Side, ghost c: Path, ghost t: Shape)
      requires At(c, t) && Short(c, t) && !c.Top? && !IsRed(t) && !IsRed(Sibling(c)) && Sibling(c).Fork?
      requires SideOf(c) == d && w == Sibling(c).node && IsRed(Sub(Sibling(c), d)) && !IsRed(Sub(Sibling(c), Other(d)))
      modifies this`root, nodes`left, nodes`right, nodes`parent, nodes`color
      ensures At(FarRed(c), t)
    {
      hide Elements, ContextElements, CellOf, CellIn, Distinct, DistinctContext, Fits, Spelled, Short, Tint;
      SeesSibling(c, t);
      FitsFarRed(c, t, Snap(), root, sentinel);
      FarRedStep(c, t);
      Paint(Child(w, d), Black);
      Paint(w, Red);
      ghost var g := Join(d, Painted(Sub(Sibling(c), d), Black), w, Red, Sub(Sibling(c), Other(d)));
      Rotate(w, Other(d), Across(c, t), g);
      FitsUp(Across(c, t), Rotated(g, Other(d)), Snap(), root, sentinel);
      FitsDown(FarRed(c), t, Snap(), root, sentinel);
    }

    /** The sibling takes the parent's colour and place. */
    method Repay(parent: Node, w: Node, d: Side, ghost c: Path, ghost t: Shape)
      requires At(c, t) && !c.Top? && Sibling(c).Fork? && parent == c.node
      requires SideOf(c) == d && w == Sibling(c).node && IsRed(Sub(Sibling(c), Other(d)))
      modifies this`root, nodes`left, nodes`right, nodes`parent, nodes`color
      ensures At(c.up, Repaid(c, t))
    {
      hide Elements, ContextElements, CellOf, CellIn, Distinct, DistinctContext, Fits, Spelled, Tint;
      SeesSibling(c, t);
      FitsRepaid(c, t, Snap(), root, sentinel);
      RepaidStep(c, t);
      Paint(w, parent.color);
      Paint(parent, Black);
      Paint(Child(w, Other(d)), Black);
      ghost var v := Sibling(c);
      Rotate(parent, d, c.up, Join(d, t, parent, Black, Join(d, Sub(v, d), w, c.color, Painted(Sub(v, Other(d)), Black))));
    }

    /** `temp` is the node, or the sentinel, in the hole of `c`, and knows its parent. */
    ghost predicate Holder(temp: Node, c: Path, t: Shape)
      reads temp`parent
    {
      temp == Target(LinkTo(t), sentinel) && (!c.Top? ==> temp.parent == c.node)
    }

    /** One round of the loop of ngx_rbtree_delete, for a node that is a child on side `d`. */
    method DeleteRound(start: Node, d: Side, ghost c0: Path, ghost t0: Shape)
      returns (temp: Node, ghost c: Path, ghost t: Shape)
      requires At(c0, t0) && Short(c0, t0) && !c0.Top? && !IsRed(t0) && SideOf(c0) == d && Holder(start, c0, t0)
      modifies this`root, nodes`left, nodes`right, nodes`parent, nodes`color
      ensures At(c, t) && Short(c, t) && Holder(temp, c, t)
      ensures Spelled(c, t) == Spelled(c0, t0) && Debt(c, t) < Debt(c0, t0)
    {
      hide Elements, ContextElements, CellOf, CellIn, Distinct, DistinctContext, Fits, Spelled, Short, Plug;
      temp, c, t := start, c0, t0;
      ShortSibling(c, t);
      SeesSibling(c, t);
      var w := Child(temp.parent, Other(d));
      if w.color == Red {
        RedSiblingStep(c, t);
        LiftSibling(temp.parent, w, d, c, t);
        c := RedSiblingUp(c);
        ShortSibling(c, t);
        SeesSibling(c, t);
        w := Child(temp.parent, Other(d));
      }
      if w.left.color == Black && w.right.color == Black {
        LoweredStep(c, t);
        LowerSibling(w, c, t);
        temp := temp.parent;
        c, t := c.up, Lowered(c, t);
        if !c.Top? { Ends(c, t); }
      } else {
        t := FinishRound(temp.parent, w, d, c, t);
        temp, c := root, Top;
      }
    }

    /** The part of the round that restores the black height for good. */
    method FinishRound(parent: Node, sibling: Node, d: Side, ghost c0: Path, ghost t0: Shape)
      returns (ghost t: Shape)
      requires At(c0, t0) && Short(c0, t0) && !c0.Top? && !IsRed(t0) && SideOf(c0) == d && parent == c0.node
      requires Sibling(c0).Fork? && !IsRed(Sibling(c0)) && sibling == Sibling(c0).node
      requires IsRed(Sibling(c0).left) || IsRed(Sibling(c0).right)
      modifies this`root, nodes`left, nodes`right, nodes`parent, nodes`color
      ensures At(Top, t) && t.Fork? && t.node == root && Short(Top, t) && Spelled(Top, t) == Spelled(c0, t0)
    {
      hide Elements, ContextElements, CellOf, CellIn, Distinct, DistinctContext, Fits, Spelled, Short, Plug, RedBlack;
      ghost var c := c0;
      var w := sibling;
      SeesSibling(c, t0);
      if Child(w, Other(d)).color == Black {
        FarRedStep(c, t0);
        TurnSibling(w, d, c, t0);
        c := FarRed(c);
        SeesSibling(c, t0);
        w := Child(parent, Other(d));
      }
      RepaidRedBlack(c, t0);
      RepaidStep(c, t0);
      Repay(parent, w, d, c, t0);
      WholeTree(c.up, Repaid(c, t0));
      t := Plug(c.up, Repaid(c, t0));
    }

    /** Seen from the top. */
    lemma WholeTree(c: Path, t: Shape)
      requires At(c, t) && t.Fork? && RedBlack(Plug(c, t))
      ensures At(Top, Plug(c, t)) && Short(Top, Plug(c, t)) && Plug(c, t).Fork? && Plug(c, t).node == root
      ensures Spelled(Top, Plug(c, t)) == Spelled(c, t)
    {
      hide Elements, ContextElements, CellOf, CellIn, Distinct, DistinctContext, Plug, InOrder;
      FitsPlug(c, t, Snap(), root, sentinel);
      PlugInOrder(c, t);
      PlugForks(c, t);
    }

    /** The loop that ends ngx_rbtree_delete. */
    method DeleteFixup(start: Node, ghost c0: Path, ghost t0: Shape)
      requires At(c0, t0) && Short(c0, t0) && Holder(start, c0, t0)
      modifies this`root, this`shape, nodes`left, nodes`right, nodes`parent, nodes`color, sentinel`color
      ensures Valid() && Sequence() == Spelled(c0, t0)
    {
      hide Elements, ContextElements, CellOf, CellIn, Distinct, DistinctContext, Fits, Spelled, Short;
      var temp := start;
      ghost var c, t := c0, t0;
      while temp != root && temp.color == Black
        invariant At(c, t) && Short(c, t) && Holder(temp, c, t)
        invariant Spelled(c, t) == Spelled(c0, t0)
        decreases Debt(c, t)
      {
        FocusColor(c, t);
        ShortSibling(c, t);
        SeesSibling(c, t);
        if temp == temp.parent.left {
          temp, c, t := DeleteRound(temp, L, c, t);
        } else {
          temp, c, t := DeleteRound(temp, R, c, t);
        }
      }
      FocusColor(c, t);
      BlackenFocus(temp, c, t);
    }

    lemma FocusColor(c: Path, t: Shape)
      requires At(c, t)
      ensures Target(LinkTo(t), sentinel).color == Red <==> IsRed(t)
      ensures Target(LinkTo(t), sentinel) == root <==> c.Top?
      ensures sentinel !in nodes && (t.Fork? ==> t.node in nodes)
    {
      RootOnPath(c, LinkTo(t));
      if t.Fork? { Sees(c, t); }
    }

    /** ngx_rbt_black(temp) after the loop; `temp` may be the sentinel. */
    method BlackenFocus(temp: Node, ghost c: Path, ghost t: Shape)
      requires At(c, t) && Short(c, t) && (IsRed(t) || c.Top?) && temp == Target(LinkTo(t), sentinel)
      modifies this`shape, temp`color
      ensures Valid() && Sequence() == Spelled(c, t)
    {
      hide Elements, ContextElements, CellOf, CellIn, Distinct, DistinctContext, Fits, Plug, InOrder, RedBlack;
      FocusColor(c, t);
      RedPays(c, t);
      ghost var u := if t.Fork? then Painted(t, Black) else t;
      PlugInOrder(c, u);
      if t.Fork? { FitsPainted(c, t, Black, Snap(), root, sentinel); }
      ghost var s := Snap();
      temp.color := Black;
      assert t.Fork? ==> Snap() == Tint(s, temp, Black);
      assert t.Nil? ==> Snap() == s;
      FitsPlug(c, u, Snap(), root, sentinel);
      shape := Plug(c, u);
    }

    /** ngx_rbtree_min */
    method Min(start: Node, ghost c: Path, ghost t: Shape) returns (node: Node, ghost inner: Path, ghost m: Shape)
      requires At(c, t) && t.Fork? && t.node == start
      ensures m.Fork? && m.left.Nil? && m.node == node && Plug(inner, m) == t && Before(inner) == []
      ensures node in nodes
    {
      node, inner, m := start, Top, t;
      ghost var p := c;
      Sees(p, m);
      while node.left != sentinel
        invariant At(p, m) && m.Fork? && m.node == node && Plug(inner, m) == t && Before(inner) == []
        invariant node in nodes && sentinel !in nodes && node.left == Target(LinkTo(m.left), sentinel)
        decreases m
      {
        node := node.left;
        p, inner, m := OnLeft(m.node, m.color, m.right, p), OnLeft(m.node, m.color, m.right, inner), m.left;
        FitsDown(p, m, Snap(), root, sentinel);
        Sees(p, m);
      }
    }

    /** ngx_open_file_lookup: finds the entry exactly when the tree holds it. */
    method Lookup(name: string, hash: Word) returns (found: Node?)
      requires Valid() && NameOrdered(Sequence())
      ensures found != null ==> found in nodes && IsEntry(found, hash, name)
      ensures found == null ==> forall n | n in nodes :: !IsEntry(n, hash, name)
    {
      hide Elements, ContextElements, CellOf, CellIn, Distinct, DistinctContext, Fits, InOrder, RedBlack, Before, After,
           NameOrdered, Narrowed, Plug;
      var node := root;
      ghost var c, t := Top, shape;
      StartsNarrowed(hash, name);
      while node != sentinel
        invariant At(c, t) && Plug(c, t) == shape && node == Target(LinkTo(t), sentinel)
        invariant NameOrdered(Sequence()) && Narrowed(hash, name, Sequence(), c)
        decreases t
      {
        Sees(c, t);
        var left := hash < node.key || (hash == node.key && StringLess(name, node.name));
        if hash == node.key {
          if name == node.name {
            return node;
          }
        }
        SearchDown(hash, name, left, c, t);
        c, t := if left then OnLeft(t.node, t.color, t.right, c) else OnRight(t.left, t.node, t.color, c),
                if left then t.left else t.right;
        node := if left then node.left else node.right;
      }
      found := null;
      FocusColor(c, t);
      NotThere(c, hash, name);
    }

    lemma StartsNarrowed(hash: Word, name: string)
      requires Valid()
      ensures Narrowed(hash, name, Sequence(), Top) && Plug(Top, shape) == shape
      ensures root == Target(LinkTo(shape), sentinel)
    {
    }

    /** The search goes down to the child that can still hold the entry. */
    lemma SearchDown(hash: Word, name: string, left: bool, c: Path, t: Shape)
      requires At(c, t) && t.Fork? && Plug(c, t) == shape && NameOrdered(Sequence())
      requires Narrowed(hash, name, Sequence(), c) && !IsEntry(t.node, hash, name)
      requires left <==> EntryLess(hash, name, t.node.key, t.node.name)
      ensures var c', u := if left then OnLeft(t.node, t.color, t.right, c) else OnRight(t.left, t.node, t.color, c),
                           if left then t.left else t.right;
        At(c', u) && Plug(c', u) == shape && Narrowed(hash, name, Sequence(), c')
    {
      hide Elements, ContextElements, CellOf, CellIn, Distinct, DistinctContext, Fits, InOrder, Before, After, Narrowed,
           NameOrdered;
      PlugInOrder(c, t);
      StringLessTotal(name, t.node.name);
      NarrowedDown(hash, name, Sequence(), c, t);
      if left {
        FitsDown(OnLeft(t.node, t.color, t.right, c), t.left, Snap(), root, sentinel);
      } else {
        FitsDown(OnRight(t.left, t.node, t.color, c), t.right, Snap(), root, sentinel);
      }
    }

    /** A search that ends at an empty place has excluded every node. */
    lemma NotThere(c: Path, hash: Word, name: string)
      requires Valid() && Plug(c, Nil) == shape && Narrowed(hash, name, Sequence(), c)
      ensures forall n | n in nodes :: !IsEntry(n, hash, name)
    {
      hide Fits, RedBlack;
      PlugInOrder(c, Nil);
      SequenceNodes();
      forall n | n in nodes ensures !IsEntry(n, hash, name) {
        var i :| 0 <= i < |Sequence()| && Sequence()[i] == n;
        StringLessTotal(name, n.name);
      }
    }

    /** The first node in order. */
    method First() returns (node: Node)
      requires Valid() && root != sentinel
      ensures Sequence() != [] && node == Sequence()[0] && node in nodes
    {
      StartsPlaced(root);
      ghost var inner, m;
      node, inner, m := Min(root, Top, shape);
      PlugInOrder(inner, m);
    }

    lemma EmptyTree()
      requires Valid()
      ensures root == sentinel <==> Sequence() == []
    {
    }

    /** Lines 202-220: `temp` takes the place of `subst`, with parent `up`. */
    method Unlink(subst: Node, temp: Node, up: Node)
      requires subst in nodes && sentinel !in nodes && subst.parent != null && subst.parent in nodes && subst.parent != subst
      requires temp == sentinel || temp in nodes
      requires temp != subst && temp != subst.parent
      requires subst.parent.left == subst <==> subst.parent.right != subst
      modifies subst.parent`left, subst.parent`right, temp`parent
      ensures temp.parent == up
      ensures forall n | n in nodes :: FieldsOf(n) == Unlinked(old(Snap()), subst, temp, up, n)
    {
      if subst == subst.parent.left {
        subst.parent.left := temp;
      } else {
        subst.parent.right := temp;
      }
      temp.parent := up;
    }

    /** Lines 222-236: `subst` gets the fields of `node` and its place below the parent. */
    method Inherit(node: Node, subst: Node)
      requires CanTakeOver(Snap(), node, subst, root, sentinel)
      modifies this`root, nodes`left, nodes`right, subst`parent, subst`color
      ensures root == if old(root) == node then subst else old(root)
      ensures forall n | n in nodes :: FieldsOf(n) == Inherited(old(Snap()), node, subst, old(root), n)
    {
      subst.left := node.left;
      subst.right := node.right;
      subst.parent := node.parent;
      subst.color := node.color;
      if node == root {
        root := subst;
      } else {
        if node == node.parent.left {
          node.parent.left := subst;
        } else {
          node.parent.right := subst;
        }
      }
    }

    /** Lines 238-244: the children of `subst` learn their new parent. */
    method Adopt(subst: Node)
      requires subst in nodes && sentinel !in nodes && subst.left != null && subst.right != null
      requires subst.left != subst && subst.right != subst
      requires (subst.left == sentinel || subst.left in nodes) && (subst.right == sentinel || subst.right in nodes)
      modifies nodes`parent
      ensures forall n | n in nodes :: FieldsOf(n) == Adopted(old(Snap()), subst, n)
    {
      if subst.left != sentinel {
        subst.left.parent := subst;
      }
      if subst.right != sentinel {
        subst.right.parent := subst;
      }
    }

    /** Lines 222-244: `subst` takes the place of `node`. */
    method TakeOver(node: Node, subst: Node)
      requires CanTakeOver(Snap(), node, subst, root, sentinel)
      modifies this`root, nodes`left, nodes`right, nodes`parent, nodes`color
      ensures root == if old(root) == node then subst else old(root)
      ensures forall n | n in nodes :: FieldsOf(n) == TakenOver(old(Snap()), node, subst, old(root), n)
    {
      ghost var s := Snap();
      Inherit(node, subst);
      assert FieldsOf(subst) == s[node];
      Adopt(subst);
    }

    /** Takes out a node with at most one child that is not the root. */
    method SpliceOne(node: Node, temp: Node, ghost c: Path, ghost t: Shape)
      requires At(c, t) && !c.Top? && t.Fork? && t.node == node && (t.left.Nil? || t.right.Nil?)
      requires temp == Target(LinkTo(OnlyChild(t)), sentinel)
      modifies this`nodes, nodes`left, nodes`right, nodes`parent, sentinel`parent
      ensures nodes == old(nodes) - {node}
      ensures At(c, OnlyChild(t)) && Holder(temp, c, OnlyChild(t))
    {
      hide Elements, ContextElements, CellOf, CellIn, Distinct, DistinctContext, Fits;
      ghost var s := Snap();
      RootFields(c, t, s, root, sentinel);
      Unlink(node, temp, node.parent);
      nodes := nodes - {node};
      FitsUnlinked(c, t, s, root, Snap(), sentinel);
    }

    /** The minimum `subst` of the right subtree leaves its place, so that it can take over that of `node`. */
    method Unhook(node: Node, subst: Node, temp: Node, ghost c: Path, ghost t: Shape, ghost inner: Path, ghost m: Shape)
      requires At(c, t) && HasMin(t, inner, m) && t.node == node && m.node == subst
      requires temp == Target(LinkTo(m.right), sentinel)
      modifies nodes`left, nodes`right, nodes`parent, sentinel`parent
      ensures node in old(Snap()) && subst in old(Snap()) && old(subst.parent) != null
      ensures var up: Node := if old(subst.parent) == node then subst else old(subst.parent);
        temp.parent == up && forall n | n in nodes :: FieldsOf(n) == Unlinked(old(Snap()), subst, temp, up, n)
      ensures CanTakeOver(Snap(), node, subst, root, sentinel)
    {
      hide Elements, ContextElements, CellOf, CellIn, Distinct, DistinctContext, Fits, Plug, Compose, ToMin, CanTakeOver,
           Unlinked;
      ghost var s := Snap();
      MinApart(c, t, inner, m, s, root, sentinel);
      RootFields(c, t, s, root, sentinel);
      Unlink(subst, temp, if subst.parent == node then subst else subst.parent);
      MinCanTakeOver(c, t, inner, m, s, root, Snap(), sentinel);
    }

    /** The assignments that take out a node with two children. */
    method Relocate(node: Node, subst: Node, temp: Node, ghost c: Path, ghost t: Shape, ghost inner: Path, ghost m: Shape)
      returns (ghost middle: Snapshot)
      requires At(c, t) && HasMin(t, inner, m) && t.node == node && m.node == subst
      requires temp == Target(LinkTo(m.right), sentinel)
      modifies this`root, this`nodes, nodes`left, nodes`right, nodes`parent, nodes`color, sentinel`parent
      ensures nodes == old(nodes) - {node}
      ensures root == if old(root) == node then subst else old(root)
      ensures Spliced(t, m, old(Snap()), middle, Snap(), old(root), sentinel)
      ensures temp == sentinel ==> temp.parent == old(if subst.parent == node then subst else subst.parent)
    {
      hide Elements, ContextElements, CellOf, CellIn, Distinct, DistinctContext, Fits, Plug, Compose, ToMin, CanTakeOver,
           TakenOver, Unlinked, HasMin;
      NotSentinel(c, t, Snap(), root, sentinel);
      Unhook(node, subst, temp, c, t, inner, m);
      middle := Snap();
      TakeOver(node, subst);
      nodes := nodes - {node};
    }

    /** Takes out a node with two children: the next node in order takes its place. */
    method SpliceTwo(node: Node, subst: Node, temp: Node, ghost c: Path, ghost t: Shape, ghost inner: Path, ghost m: Shape)
      requires At(c, t) && HasMin(t, inner, m) && t.node == node && m.node == subst
      requires temp == Target(LinkTo(m.right), sentinel)
      modifies this`root, this`nodes, nodes`left, nodes`right, nodes`parent, nodes`color, sentinel`parent
      ensures nodes == old(nodes) - {node}
      ensures At(ToMin(c, t, subst, inner), m.right) && Holder(temp, ToMin(c, t, subst, inner), m.right)
    {
      hide Elements, ContextElements, CellOf, CellIn, Distinct, DistinctContext, Fits, Plug, Compose, ToMin, Spliced;
      ghost var s, r := Snap(), root;
      NotSentinel(c, t, s, root, sentinel);
      MinApart(c, t, inner, m, s, root, sentinel);
      MinHangs(c, t, inner, m);
      ghost var s1 := Relocate(node, subst, temp, c, t, inner, m);
      FitsSpliced(c, t, inner, m, s, r, s1, Snap(), sentinel);
      if m.right.Fork? { Ends(ToMin(c, t, subst, inner), m.right); }
    }

    /** Which node the minimum of the right subtree hangs from, before and after. */
    lemma MinHangs(c: Path, t: Shape, inner: Path, m: Shape)
      requires HasMin(t, inner, m)
      ensures !ToMin(c, t, t.node, inner).Top? && !ToMin(c, t, m.node, inner).Top?
      ensures ToMin(c, t, t.node, inner).node == if inner.Top? then t.node else inner.node
      ensures ToMin(c, t, m.node, inner).node == if inner.Top? then m.node else inner.node
    {
    }

    /** Lines 187-198: the root has at most one child, which becomes the root. */
    method ReplaceRoot(node: Node, temp: Node, ghost t: Shape)
      requires Valid() && shape == t && t.Fork? && t.node == node && (t.left.Nil? || t.right.Nil?)
      requires temp == Target(LinkTo(OnlyChild(t)), sentinel)
      modifies this`root, this`nodes, this`shape, temp`color
      ensures Valid() && nodes == old(nodes) - {node} && Sequence() == Spelled(Top, OnlyChild(t))
    {
      hide Elements, CellOf, Distinct, Fits, Short;
      RootFields(Top, t, Snap(), root, sentinel);
      FitsRootReplaced(t, Snap(), root, Snap() - {node}, sentinel);
      UnlinkedShape(Top, t);
      root := temp;
      nodes := nodes - {node};
      assert Snap() == old(Snap()) - {node};
      BlackenFocus(temp, Top, OnlyChild(t));
    }

    /** The place of a node in the tree. */
    lemma PlaceOf(node: Node) returns (c: Path, t: Shape)
      requires Valid() && node in nodes
      ensures At(c, t) && t.Fork? && t.node == node && Plug(c, t) == shape && Spelled(c, t) == Sequence()
      ensures c.Top? <==> node == root
      ensures c.Top? ==> t == shape
      ensures node.color == t.color && (node.parent != null || node == root)
      ensures node.left == Target(LinkTo(t.left), sentinel) && node.right == Target(LinkTo(t.right), sentinel)
      ensures t.left.Fork? ==> t.left.node in nodes
      ensures t.right.Fork? ==> t.right.node in nodes
      ensures sentinel !in nodes
    {
      hide CellOf, CellIn, Distinct, DistinctContext;
      c, t := Locate(shape, node, Top);
      FitsUnplug(c, t, Snap(), root, sentinel);
      PlugInOrder(c, t);
      Ends(c, t);
      Sees(c, t);
    }

    /** The next node in order, for a node with two children. */
    method Successor(node: Node, ghost c: Path, ghost t: Shape) returns (subst: Node, temp: Node, ghost inner: Path, ghost m: Shape)
      requires At(c, t) && t.Fork? && t.node == node && t.left.Fork? && t.right.Fork?
      ensures HasMin(t, inner, m) && m.Fork? && subst == m.node && temp == Target(LinkTo(m.right), sentinel)
      ensures subst in nodes && subst != root && subst != node && subst.color == m.color
    {
      hide Elements, ContextElements, CellOf, CellIn, Distinct, DistinctContext, Fits, Plug, Compose;
      Sees(c, t);
      FitsDown(OnRight(t.left, t.node, t.color, c), t.right, Snap(), root, sentinel);
      subst, inner, m := Min(node.right, OnRight(t.left, t.node, t.color, c), t.right);
      MinApart(c, t, inner, m, Snap(), root, sentinel);
      FitsMin(c, t, inner, m, Snap(), root, sentinel);
      Sees(ToMin(c, t, t.node, inner), m);
      // a minimum has no left child, so the test of subst->left in the source always takes this branch
      temp := subst.right;
    }

    /**
     ngx_rbtree_delete: exactly `node` leaves the in-order sequence, and the tree is red-black again.
     */
    method Delete(node: Node) returns (ghost k: nat)
      requires Valid() && node in nodes
      modifies this`root, this`nodes, this`shape, nodes`left, nodes`right, nodes`parent, nodes`color, node`key,
               sentinel`parent, sentinel`color
      ensures Valid() && nodes == old(nodes) - {node}
      ensures k < |old(Sequence())| && old(Sequence())[k] == node
      ensures Sequence() == Without(old(Sequence()), k)
    {
      hide Elements, ContextElements, CellOf, CellIn, Distinct, DistinctContext, Fits, Plug, Compose, InOrder, RedBlack,
           Short, Without, HasMin, ToMin, Spelled;
      ghost var c, t := PlaceOf(node);
      k := |Before(c)| + |InOrder(t.left)|;
      var subst, temp: Node;
      ghost var inner, m;
      if node.left == sentinel {
        temp := node.right;
        subst := node;
      } else if node.right == sentinel {
        temp := node.left;
        subst := node;
      } else {
        subst, temp, inner, m := Successor(node, c, t);
      }
      if subst == root {
        UnlinkedSpelling(c, t);
        ReplaceRoot(node, temp, t);
        Clear(node);
        return;
      }
      var red := subst.color == Red;
      if subst == node {
        UnlinkedSpelling(c, t);
        UnlinkedShape(c, t);
        SpliceOne(node, temp, c, t);
        c, t := c, OnlyChild(t);
      } else {
        SplicedSpelling(c, t, inner, m);
        SplicedShape(c, t, inner, m);
        SpliceTwo(node, subst, temp, c, t, inner, m);
        c, t := ToMin(c, t, subst, inner), m.right;
      }
      FocusColor(c, t);
      Clear(node);
      if red {
        WholeShape(c, t);
        shape := Plug(c, t);
        return;
      }
      DeleteFixup(temp, c, t);
    }

    lemma WholeShape(c: Path, t: Shape)
      requires At(c, t)
      ensures At(Top, Plug(c, t)) && InOrder(Plug(c, t)) == Spelled(c, t)
    {
      hide Elements, ContextElements, CellOf, CellIn, Distinct, DistinctContext, Fits, Plug, InOrder;
      FitsPlug(c, t, Snap(), root, sentinel);
      PlugInOrder(c, t);
    }

    /** A deleted node keeps no links and no key. */
    method Clear(node: Node)
      modifies node`left, node`right, node`parent, node`key
      ensures node.left == null && node.right == null && node.parent == null && node.key == 0
    {
      node.left := null;
      node.right := null;
      node.parent := null;
      node.key := 0;
    }
  }
}
