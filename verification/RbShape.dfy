/**
 Shapes of the red-black tree of ngx_rbtree.c.

 A `Tree` is the abstract value of a linked subtree, a `Context` is the path from
 a position in the tree up to the root.  `Plug` puts a subtree back into
 its context.  Colours are part of the value, so the red-black rules and the
 in-order sequence are properties of shapes alone; module RbTree ties shapes to
 the heap.
 */
module RbShape {

  datatype Color = Red | Black

  datatype Tree<T> = Nil | Fork(left: Tree<T>, node: T, color: Color, right: Tree<T>)

  /** The way back up: the hole is the left or the right child of `node`. */
  datatype Context<T> =
    | Top
    | OnLeft(node: T, color: Color, right: Tree<T>, up: Context<T>)
    | OnRight(left: Tree<T>, node: T, color: Color, up: Context<T>)

  // ---------------------------------------------------------------- contents

  ghost function InOrder<T>(t: Tree<T>): seq<T> {
    match t
    case Nil => []
    case Fork(l, n, _, r) => InOrder(l) + [n] + InOrder(r)
  }

  ghost function Elements<T>(t: Tree<T>): set<T> {
    match t
    case Nil => {}
    case Fork(l, n, _, r) => Elements(l) + {n} + Elements(r)
  }

  ghost function ContextElements<T>(c: Context<T>): set<T> {
    match c
    case Top => {}
    case OnLeft(n, _, r, up) => {n} + Elements(r) + ContextElements(up)
    case OnRight(l, n, _, up) => Elements(l) + {n} + ContextElements(up)
  }

  ghost function Plug<T>(c: Context<T>, t: Tree<T>): Tree<T>
    decreases c
  {
    match c
    case Top => t
    case OnLeft(n, k, r, up) => Plug(up, Fork(t, n, k, r))
    case OnRight(l, n, k, up) => Plug(up, Fork(l, n, k, t))
  }

  /** What precedes the hole in order. */
  ghost function Before<T>(c: Context<T>): seq<T> {
    match c
    case Top => []
    case OnLeft(n, _, r, up) => Before(up)
    case OnRight(l, n, _, up) => Before(up) + (InOrder(l) + [n])
  }

  /** What follows the hole in order. */
  ghost function After<T>(c: Context<T>): seq<T> {
    match c
    case Top => []
    case OnLeft(n, _, r, up) => ([n] + InOrder(r)) + After(up)
    case OnRight(l, n, _, up) => After(up)
  }

  lemma Regroup<T>(a: seq<T>, b: seq<T>, c: seq<T>, d: seq<T>, e: seq<T>)
    ensures a + (b + c + d) + e == a + b + ((c + d) + e)
    ensures a + (b + c + d) + e == (a + (b + c)) + d + e
  {
  }

  lemma {:induction false} PlugInOrder<T>(c: Context<T>, t: Tree<T>)
    ensures InOrder(Plug(c, t)) == Before(c) + InOrder(t) + After(c)
    decreases c
  {
    match c
    case Top =>
    case OnLeft(n, k, r, up) =>
      PlugInOrder(up, Fork(t, n, k, r));
      Regroup(Before(up), InOrder(t), [n], InOrder(r), After(up));
    case OnRight(l, n, k, up) =>
      PlugInOrder(up, Fork(l, n, k, t));
      Regroup(Before(up), InOrder(l), [n], InOrder(t), After(up));
  }

  lemma {:induction false} PlugElements<T>(c: Context<T>, t: Tree<T>)
    ensures Elements(Plug(c, t)) == ContextElements(c) + Elements(t)
    decreases c
  {
    match c
    case Top =>
    case OnLeft(n, k, r, up) => PlugElements(up, Fork(t, n, k, r));
    case OnRight(l, n, k, up) => PlugElements(up, Fork(l, n, k, t));
  }

  lemma {:induction false} InOrderElements<T>(t: Tree<T>)
    ensures forall i | 0 <= i < |InOrder(t)| :: InOrder(t)[i] in Elements(t)
    ensures forall x | x in Elements(t) :: x in InOrder(t)
  {
    match t
    case Nil =>
    case Fork(l, n, _, r) => InOrderElements(l); InOrderElements(r);
  }

  // ---------------------------------------------------------- red-black rules

  predicate IsRed<T>(t: Tree<T>) { t.Fork? && t.color == Red }

  function Weight(c: Color): nat { if c == Black then 1 else 0 }

  /** Black nodes on the leftmost path; on a `Balanced` tree, on every path. */
  ghost function BlackHeight<T>(t: Tree<T>): nat {
    match t
    case Nil => 0
    case Fork(l, _, k, _) => BlackHeight(l) + Weight(k)
  }

  /** Every path to a leaf has the same number of black nodes. */
  ghost predicate Balanced<T>(t: Tree<T>) {
    match t
    case Nil => true
    case Fork(l, _, _, r) => Balanced(l) && Balanced(r) && BlackHeight(l) == BlackHeight(r)
  }

  /** No red node has a red child. */
  ghost predicate NoRedRed<T>(t: Tree<T>) {
    match t
    case Nil => true
    case Fork(l, _, k, r) =>
      && NoRedRed(l) && NoRedRed(r)
      && (k == Red ==> !IsRed(l) && !IsRed(r))
  }

  ghost predicate RedBlack<T>(t: Tree<T>) {
    Balanced(t) && NoRedRed(t) && !IsRed(t)
  }

  /** The context is balanced for a hole of black height `h`. */
  ghost predicate FitsHeight<T>(c: Context<T>, h: nat) {
    match c
    case Top => true
    case OnLeft(_, k, r, up) => Balanced(r) && BlackHeight(r) == h && FitsHeight(up, h + Weight(k))
    case OnRight(l, _, k, up) => Balanced(l) && BlackHeight(l) == h && FitsHeight(up, h + Weight(k))
  }

  predicate RedParent<T>(c: Context<T>) { !c.Top? && c.color == Red }

  /** No red-red edge in the context, the edge into the hole aside; the root is black. */
  ghost predicate Proper<T>(c: Context<T>) {
    match c
    case Top => true
    case OnLeft(_, k, r, up) =>
      NoRedRed(r) && Proper(up) && (k == Red ==> !IsRed(r) && !up.Top? && !RedParent(up))
    case OnRight(l, _, k, up) =>
      NoRedRed(l) && Proper(up) && (k == Red ==> !IsRed(l) && !up.Top? && !RedParent(up))
  }

  /** Plugging a fitting subtree gives a red-black tree, and only that does. */
  lemma {:induction false} PlugRedBlack<T>(c: Context<T>, t: Tree<T>)
    ensures RedBlack(Plug(c, t))
       <==> Balanced(t) && NoRedRed(t) && FitsHeight(c, BlackHeight(t)) && Proper(c)
            && (IsRed(t) ==> !c.Top? && !RedParent(c))
    decreases c
  {
    match c
    case Top =>
    case OnLeft(n, k, r, up) => PlugRedBlack(up, Fork(t, n, k, r));
    case OnRight(l, n, k, up) => PlugRedBlack(up, Fork(l, n, k, t));
  }

  /** Deeper frames first: `inner` is a path inside the hole of `outer`. */
  ghost function Compose<T>(inner: Context<T>, outer: Context<T>): Context<T> {
    match inner
    case Top => outer
    case OnLeft(n, k, r, up) => OnLeft(n, k, r, Compose(up, outer))
    case OnRight(l, n, k, up) => OnRight(l, n, k, Compose(up, outer))
  }

  lemma {:induction false} PlugCompose<T>(inner: Context<T>, outer: Context<T>, t: Tree<T>)
    ensures Plug(Compose(inner, outer), t) == Plug(outer, Plug(inner, t))
    decreases inner
  {
    match inner
    case Top =>
    case OnLeft(n, k, r, up) => PlugCompose(up, outer, Fork(t, n, k, r));
    case OnRight(l, n, k, up) => PlugCompose(up, outer, Fork(l, n, k, t));
  }

  /** Every node of a tree has a context. */
  lemma {:induction false} Locate<T>(t: Tree<T>, x: T, outer: Context<T>) returns (c: Context<T>, sub: Tree<T>)
    requires x in Elements(t)
    ensures sub.Fork? && sub.node == x && Plug(c, sub) == Plug(outer, t)
    decreases t
  {
    if x == t.node {
      c, sub := outer, t;
    } else if x in Elements(t.left) {
      c, sub := Locate(t.left, x, OnLeft(t.node, t.color, t.right, outer));
    } else {
      c, sub := Locate(t.right, x, OnRight(t.left, t.node, t.color, outer));
    }
  }

  // ---------------------------------------------------------------- node cells

  /** A child or parent reference; `Leaf` stands for the sentinel. */
  datatype Link<T> = Leaf | To(node: T)

  /** What one node must hold for its tree to have a given shape. */
  datatype Cell<T> = Cell(left: Link<T>, right: Link<T>, parent: Link<T>, color: Color)

  ghost function LinkTo<T>(t: Tree<T>): Link<T> { if t.Nil? then Leaf else To(t.node) }

  ghost function ParentLink<T>(c: Context<T>): Link<T> { if c.Top? then Leaf else To(c.node) }

  /** The cell of node `n` in `t`, where `p` is the parent of the root of `t`. */
  ghost function CellOf<T>(t: Tree<T>, n: T, p: Link<T>): Cell<T>
    requires n in Elements(t)
  {
    if n == t.node then Cell(LinkTo(t.left), LinkTo(t.right), p, t.color)
    else if n in Elements(t.left) then CellOf(t.left, n, To(t.node))
    else CellOf(t.right, n, To(t.node))
  }

  /** The cell of a node of the context when `hole` is linked in the hole. */
  ghost function CellIn<T>(c: Context<T>, n: T, hole: Link<T>): Cell<T>
    requires n in ContextElements(c)
  {
    match c
    case OnLeft(m, k, r, up) =>
      if n == m then Cell(hole, LinkTo(r), ParentLink(up), k)
      else if n in Elements(r) then CellOf(r, n, To(m))
      else CellIn(up, n, To(m))
    case OnRight(l, m, k, up) =>
      if n == m then Cell(LinkTo(l), hole, ParentLink(up), k)
      else if n in Elements(l) then CellOf(l, n, To(m))
      else CellIn(up, n, To(m))
  }

  ghost function RootLink<T>(c: Context<T>, hole: Link<T>): Link<T> {
    if c.Top? then hole else RootLink(c.up, To(c.node))
  }

  ghost predicate Distinct<T>(t: Tree<T>) {
    match t
    case Nil => true
    case Fork(l, n, _, r) =>
      && n !in Elements(l) && n !in Elements(r) && Elements(l) !! Elements(r)
      && Distinct(l) && Distinct(r)
  }

  ghost predicate DistinctContext<T>(c: Context<T>) {
    match c
    case Top => true
    case OnLeft(n, _, r, up) =>
      && n !in Elements(r) && n !in ContextElements(up) && Elements(r) !! ContextElements(up)
      && Distinct(r) && DistinctContext(up)
    case OnRight(l, n, _, up) =>
      && n !in Elements(l) && n !in ContextElements(up) && Elements(l) !! ContextElements(up)
      && Distinct(l) && DistinctContext(up)
  }

  ghost predicate DistinctPair<T>(c: Context<T>, t: Tree<T>) {
    Distinct(t) && DistinctContext(c) && Elements(t) !! ContextElements(c)
  }

  ghost function FocusUp<T>(c: Context<T>, t: Tree<T>): (u: Tree<T>)
    requires !c.Top?
    ensures u.Fork? && u.node == c.node && u.color == c.color
  {
    match c
    case OnLeft(n, k, r, _) => Fork(t, n, k, r)
    case OnRight(l, n, k, _) => Fork(l, n, k, t)
  }

  lemma UpCells<T>(c: Context<T>, t: Tree<T>)
    requires !c.Top? && DistinctPair(c, t)
    ensures DistinctPair(c.up, FocusUp(c, t))
    ensures Elements(FocusUp(c, t)) + ContextElements(c.up) == Elements(t) + ContextElements(c)
  {
  }

  lemma UpCell<T>(c: Context<T>, t: Tree<T>, n: T)
    requires !c.Top? && DistinctPair(c, t)
    ensures n in Elements(t) ==>
        n in Elements(FocusUp(c, t)) && CellOf(FocusUp(c, t), n, ParentLink(c.up)) == CellOf(t, n, ParentLink(c))
    ensures n in ContextElements(c) ==>
        if n in ContextElements(c.up)
        then CellIn(c.up, n, LinkTo(FocusUp(c, t))) == CellIn(c, n, LinkTo(t))
        else n in Elements(FocusUp(c, t)) && CellOf(FocusUp(c, t), n, ParentLink(c.up)) == CellIn(c, n, LinkTo(t))
  {
  }

  lemma DownCells<T>(c: Context<T>, t: Tree<T>)
    requires !c.Top? && DistinctPair(c.up, FocusUp(c, t))
    ensures DistinctPair(c, t)
  {
  }

  datatype Side = L | R

  function Other(d: Side): Side { if d == L then R else L }

  function Sub<T>(t: Tree<T>, d: Side): Tree<T>
    requires t.Fork?
  {
    if d == L then t.left else t.right
  }

  /** The rotation of `t` towards side `d`. */
  ghost function Rotated<T>(t: Tree<T>, d: Side): Tree<T>
    requires t.Fork? && Sub(t, Other(d)).Fork?
  {
    if d == L then Fork(Fork(t.left, t.node, t.color, t.right.left), t.right.node, t.right.color, t.right.right)
    else Fork(t.left.left, t.left.node, t.left.color, Fork(t.left.right, t.node, t.color, t.right))
  }

  lemma RotatedInOrder<T>(t: Tree<T>, d: Side)
    requires t.Fork? && Sub(t, Other(d)).Fork?
    ensures InOrder(Rotated(t, d)) == InOrder(t)
  {
    if d == L {
      Reassociate(InOrder(t.left), [t.node], InOrder(t.right.left), [t.right.node], InOrder(t.right.right));
    } else {
      Reassociate(InOrder(t.left.left), [t.left.node], InOrder(t.left.right), [t.node], InOrder(t.right));
    }
  }

  lemma Reassociate<T>(a: seq<T>, b: seq<T>, c: seq<T>, d: seq<T>, e: seq<T>)
    ensures a + b + (c + d + e) == (a + b + c) + d + e
  {
  }

  ghost function SetChild<T>(cell: Cell<T>, d: Side, link: Link<T>): Cell<T> {
    if d == L then cell.(left := link) else cell.(right := link)
  }

  /** The cell of `n` before and after the rotation that lifts `y` over `x`; `b` changes sides. */
  ghost predicate Lifted<T>(t: Tree<T>, u: Tree<T>, b: Link<T>, p: Link<T>, d: Side, n: T)
    requires t.Fork? && u.Fork?
  {
    n in Elements(t) ==>
      && n in Elements(u)
      && var x, y, was := t.node, u.node, CellOf(t, n, p);
         CellOf(u, n, p) ==
           if n == x then SetChild(was, Other(d), b).(parent := To(y))
           else if n == y then SetChild(was, d, To(x)).(parent := p)
           else if b == To(n) then was.(parent := To(x))
           else was
  }

  lemma RotatedDistinct<T>(t: Tree<T>, d: Side)
    requires t.Fork? && Sub(t, Other(d)).Fork? && Distinct(t)
    ensures Distinct(Rotated(t, d)) && Elements(Rotated(t, d)) == Elements(t)
    ensures var x, y := t.node, Rotated(t, d).node;
      var b := Sub(Sub(t, Other(d)), d);
      && x != y && x in Elements(t) && y in Elements(t)
      && (b.Fork? ==> b.node != x && b.node != y && b.node in Elements(t))
  {
    var v := Sub(t, Other(d));
    assert Distinct(v);
    assert Sub(v, d).Fork? ==> Sub(v, d).node in Elements(Sub(v, d));
  }

  lemma RotatedCells<T>(t: Tree<T>, d: Side, p: Link<T>, n: T)
    requires t.Fork? && Sub(t, Other(d)).Fork? && Distinct(t)
    ensures Lifted(t, Rotated(t, d), LinkTo(Sub(Sub(t, Other(d)), d)), p, d, n)
  {
    RotatedDistinct(t, d);
    var v, u := Sub(t, Other(d)), Rotated(t, d);
    var b, x, y := Sub(v, d), t.node, v.node;
    assert Distinct(v);
    if n in Elements(b) {
      assert CellOf(t, n, p) == CellOf(v, n, To(x)) == CellOf(b, n, To(y));
      assert CellOf(u, n, p) == CellOf(Sub(u, d), n, To(y)) == CellOf(b, n, To(x));
    } else if n in Elements(v) && n != y {
      assert CellOf(t, n, p) == CellOf(v, n, To(x));
    }
  }

  /** The top two cells of a tree. */
  lemma TopCells<T>(t: Tree<T>, d: Side, p: Link<T>)
    requires t.Fork? && Sub(t, d).Fork? && Distinct(t)
    ensures var v := Sub(t, d);
      && t.node in Elements(t) && CellOf(t, t.node, p) == Cell(LinkTo(t.left), LinkTo(t.right), p, t.color)
      && v.node in Elements(t) && CellOf(t, v.node, p) == Cell(LinkTo(v.left), LinkTo(v.right), To(t.node), v.color)
  {
  }

  /** Only the parent of the hole sees what is in the hole. */
  lemma HoleCells<T>(c: Context<T>, n: T, h: Link<T>, g: Link<T>)
    requires n in ContextElements(c)
    ensures CellIn(c, n, g) ==
      if n != c.node then CellIn(c, n, h) else SetChild(CellIn(c, n, h), if c.OnLeft? then L else R, g)
  {
  }

  // ------------------------------------------------------ rebalancing on insert

  /** The in-order sequence of `Plug(c, t)`. */
  ghost function Spelled<T>(c: Context<T>, t: Tree<T>): seq<T> { Before(c) + InOrder(t) + After(c) }

  lemma SpelledUp<T>(c: Context<T>, t: Tree<T>)
    requires !c.Top?
    ensures Spelled(c.up, FocusUp(c, t)) == Spelled(c, t)
  {
    if c.OnLeft? {
      Regroup(Before(c.up), InOrder(t), [c.node], InOrder(c.right), After(c.up));
    } else {
      Regroup(Before(c.up), InOrder(c.left), [c.node], InOrder(t), After(c.up));
    }
  }

  /** The only broken rule is that the red root of `t` may have a red parent. */
  ghost predicate Rising<T>(c: Context<T>, t: Tree<T>) {
    IsRed(t) && Balanced(t) && NoRedRed(t) && FitsHeight(c, BlackHeight(t)) && Proper(c)
  }

  /** When no red-red edge is left, blackening the root restores all rules. */
  lemma {:induction false} PlugRises<T>(c: Context<T>, t: Tree<T>)
    requires Rising(c, t) && !RedParent(c)
    ensures Plug(c, t).Fork? && RedBlack(Painted(Plug(c, t), Black))
    ensures InOrder(Painted(Plug(c, t), Black)) == InOrder(Plug(c, t))
  {
    if !c.Top? {
      PlugRedBlack(c, t);
      assert c.color == Black;
      assert Plug(c, t) == Plug(c.up, FocusUp(c, t));
      PlugForks(c.up, FocusUp(c, t));
    }
  }

  lemma {:induction false} PlugForks<T>(c: Context<T>, t: Tree<T>)
    requires t.Fork?
    ensures Plug(c, t).Fork?
    decreases c
  {
    if !c.Top? { PlugForks(c.up, FocusUp(c, t)); }
  }

  ghost function Depth<T>(c: Context<T>): nat { if c.Top? then 0 else 1 + Depth(c.up) }

  /** How far a red-red edge is from the root. */
  ghost function Trouble<T>(c: Context<T>): nat { if RedParent(c) then 1 + Depth(c) else 0 }

  ghost function Uncle<T>(c: Context<T>): Tree<T>
    requires !c.Top? && !c.up.Top?
  {
    if c.up.OnLeft? then c.up.right else c.up.left
  }

  ghost function Painted<T>(t: Tree<T>, k: Color): Tree<T>
    requires t.Fork?
  {
    Fork(t.left, t.node, k, t.right)
  }

  /** Parent and uncle turn black, the grandparent red. */
  ghost function Recolored<T>(c: Context<T>, t: Tree<T>): Tree<T>
    requires !c.Top? && !c.up.Top? && Uncle(c).Fork?
  {
    var p := Painted(FocusUp(c, t), Black);
    if c.up.OnLeft? then Fork(p, c.up.node, Red, Painted(c.up.right, Black))
    else Fork(Painted(c.up.left, Black), c.up.node, Red, p)
  }

  lemma RecoloredRises<T>(c: Context<T>, t: Tree<T>)
    requires Rising(c, t) && RedParent(c) && IsRed(Uncle(c))
    ensures Rising(c.up.up, Recolored(c, t)) && Spelled(c.up.up, Recolored(c, t)) == Spelled(c, t)
    ensures Trouble(c.up.up) < Trouble(c)
  {
    assert FitsHeight(c.up, BlackHeight(t)) && Proper(c.up);
    assert FitsHeight(c.up.up, BlackHeight(t) + 1) && Proper(c.up.up);
    SpelledUp(c, t);
    SpelledUp(c.up, FocusUp(c, t));
    assert Depth(c) == 1 + Depth(c.up);
    assert InOrder(Recolored(c, t)) == InOrder(FocusUp(c.up, FocusUp(c, t)));
  }

  /** The hole and the parent lie on the same side `d`. */
  predicate Outer<T>(c: Context<T>, d: Side) {
    !c.Top? && !c.up.Top? && if d == L then c.OnLeft? && c.up.OnLeft? else c.OnRight? && c.up.OnRight?
  }

  /** The hole lies on the other side than its parent, which is on side `d`. */
  predicate Inner<T>(c: Context<T>, d: Side) {
    !c.Top? && !c.up.Top? && if d == L then c.OnRight? && c.up.OnLeft? else c.OnLeft? && c.up.OnRight?
  }

  /** After rotating the parent of an inner node, seen from the old parent. */
  ghost function OuterContext<T>(c: Context<T>, t: Tree<T>, d: Side): Context<T>
    requires Inner(c, d) && t.Fork?
  {
    if d == L then OnLeft(t.node, t.color, t.right, c.up) else OnRight(t.left, t.node, t.color, c.up)
  }

  ghost function OuterTree<T>(c: Context<T>, t: Tree<T>, d: Side): Tree<T>
    requires Inner(c, d) && t.Fork?
  {
    if d == L then Fork(c.left, c.node, c.color, t.left) else Fork(t.right, c.node, c.color, c.right)
  }

  lemma InnerBecomesOuter<T>(c: Context<T>, t: Tree<T>, d: Side)
    requires Rising(c, t) && RedParent(c) && Inner(c, d)
    ensures var c', t' := OuterContext(c, t, d), OuterTree(c, t, d);
      && Rising(c', t') && RedParent(c') && Outer(c', d) && Uncle(c') == Uncle(c)
      && FocusUp(c', t') == Rotated(FocusUp(c, t), d) && Spelled(c', t') == Spelled(c, t)
  {
    var c', t' := OuterContext(c, t, d), OuterTree(c, t, d);
    SpelledUp(c, t);
    SpelledUp(c', t');
    RotatedInOrder(FocusUp(c, t), d);
  }

  /** The grandparent, red, under the parent, now black, after the final rotation. */
  ghost function Settled<T>(c: Context<T>, d: Side): Context<T>
    requires Outer(c, d)
  {
    if d == L then OnLeft(c.node, Black, Fork(c.right, c.up.node, Red, c.up.right), c.up.up)
    else OnRight(Fork(c.up.left, c.up.node, Red, c.left), c.node, Black, c.up.up)
  }

  /** The grandparent's subtree just before the final rotation. */
  ghost function Primed<T>(c: Context<T>, t: Tree<T>): Tree<T>
    requires !c.Top? && !c.up.Top?
  {
    Painted(FocusUp(c.up, Painted(FocusUp(c, t), Black)), Red)
  }

  lemma OuterSettles<T>(c: Context<T>, t: Tree<T>, d: Side)
    requires Rising(c, t) && RedParent(c) && Outer(c, d) && !IsRed(Uncle(c))
    ensures Rising(Settled(c, d), t) && Trouble(Settled(c, d)) == 0
    ensures Spelled(Settled(c, d), t) == Spelled(c, t)
    ensures Primed(c, t).Fork? && Sub(Primed(c, t), d).Fork?
    ensures FocusUp(Settled(c, d), t) == Rotated(Primed(c, t), Other(d))
  {
    assert FitsHeight(c.up, BlackHeight(t)) && Proper(c.up);
    assert FitsHeight(c.up.up, BlackHeight(t) + 1) && Proper(c.up.up);
    SpelledUp(c, t);
    SpelledUp(c.up, FocusUp(c, t));
    SpelledUp(Settled(c, d), t);
    RotatedInOrder(Primed(c, t), Other(d));
    assert InOrder(Primed(c, t)) == InOrder(FocusUp(c.up, FocusUp(c, t)));
  }

  // ------------------------------------------------------ rebalancing on delete

  /** A tree with `a` on side `d` and `b` on the other side. */
  ghost function Join<T>(d: Side, a: Tree<T>, n: T, k: Color, b: Tree<T>): Tree<T> {
    if d == L then Fork(a, n, k, b) else Fork(b, n, k, a)
  }

  /** A hole on side `d` of `n`, with sibling `w`. */
  ghost function Hole<T>(d: Side, n: T, k: Color, w: Tree<T>, up: Context<T>): Context<T> {
    if d == L then OnLeft(n, k, w, up) else OnRight(w, n, k, up)
  }

  function SideOf<T>(c: Context<T>): Side
    requires !c.Top?
  {
    if c.OnLeft? then L else R
  }

  function Sibling<T>(c: Context<T>): Tree<T>
    requires !c.Top?
  {
    if c.OnLeft? then c.right else c.left
  }

  /** The subtree is one black node short; its root may be red below a red child. */
  ghost predicate Short<T>(c: Context<T>, t: Tree<T>) {
    && Balanced(t) && (t.Fork? ==> NoRedRed(t.left) && NoRedRed(t.right))
    && FitsHeight(c, BlackHeight(t) + 1) && Proper(c)
    && (IsRed(t) || NoRedRed(t))
  }

  /** How far the missing black node is from the root. */
  ghost function Debt<T>(c: Context<T>, t: Tree<T>): nat {
    if c.Top? || IsRed(t) then 0 else Depth(c)
  }

  /** A subtree that is short has a sibling, and a red sibling has black children. */
  lemma ShortSibling<T>(c: Context<T>, t: Tree<T>)
    requires Short(c, t) && !c.Top?
    ensures Sibling(c).Fork?
    ensures IsRed(Sibling(c)) ==>
        && c.color == Black && Sibling(c).left.Fork? && Sibling(c).right.Fork?
        && !IsRed(Sibling(c).left) && !IsRed(Sibling(c).right)
  {
  }

  /** The context after rotating a red sibling over the parent. */
  ghost function RedSiblingUp<T>(c: Context<T>): Context<T>
    requires !c.Top? && Sibling(c).Fork?
  {
    var d, w := SideOf(c), Sibling(c);
    Hole(d, c.node, Red, Sub(w, d), Hole(d, w.node, Black, Sub(w, Other(d)), c.up))
  }

  lemma RedSiblingStep<T>(c: Context<T>, t: Tree<T>)
    requires Short(c, t) && !c.Top? && !IsRed(t) && IsRed(Sibling(c))
    ensures var c' := RedSiblingUp(c);
      && Short(c', t) && !IsRed(Sibling(c')) && c'.color == Red && SideOf(c') == SideOf(c)
      && Spelled(c', t) == Spelled(c, t)
      && var g := Join(SideOf(c), t, c.node, Red, Painted(Sibling(c), Black));
         FocusUp(c'.up, FocusUp(c', t)) == Rotated(g, SideOf(c))
  {
    ShortSibling(c, t);
    var c', d := RedSiblingUp(c), SideOf(c);
    var g := Join(d, t, c.node, Red, Painted(Sibling(c), Black));
    SpelledUp(c, t);
    SpelledUp(c', t);
    SpelledUp(c'.up, FocusUp(c', t));
    assert InOrder(g) == InOrder(FocusUp(c, t));
    RotatedInOrder(g, d);
  }

  /** A black sibling with black children turns red, and the parent becomes short. */
  ghost function Lowered<T>(c: Context<T>, t: Tree<T>): Tree<T>
    requires !c.Top? && Sibling(c).Fork?
  {
    Join(SideOf(c), t, c.node, c.color, Painted(Sibling(c), Red))
  }

  lemma LoweredStep<T>(c: Context<T>, t: Tree<T>)
    requires Short(c, t) && !c.Top? && !IsRed(t) && !IsRed(Sibling(c)) && Sibling(c).Fork?
    requires !IsRed(Sibling(c).left) && !IsRed(Sibling(c).right)
    ensures Short(c.up, Lowered(c, t)) && Spelled(c.up, Lowered(c, t)) == Spelled(c, t)
    ensures Debt(c.up, Lowered(c, t)) < Depth(c)
    ensures c.color == Red ==> Debt(c.up, Lowered(c, t)) == 0
  {
    SpelledUp(c, t);
    assert InOrder(Lowered(c, t)) == InOrder(FocusUp(c, t));
  }

  /** The sibling after its red near child was rotated over it. */
  ghost function FarRed<T>(c: Context<T>): Context<T>
    requires !c.Top? && Sibling(c).Fork? && Sub(Sibling(c), SideOf(c)).Fork?
  {
    var d, w := SideOf(c), Sibling(c);
    var near := Sub(w, d);
    Hole(d, c.node, c.color,
         Join(d, Sub(near, d), near.node, Black, Join(d, Sub(near, Other(d)), w.node, Red, Sub(w, Other(d)))), c.up)
  }

  lemma FarRedStep<T>(c: Context<T>, t: Tree<T>)
    requires Short(c, t) && !c.Top? && !IsRed(t) && !IsRed(Sibling(c)) && Sibling(c).Fork?
    requires var w, d := Sibling(c), SideOf(c); IsRed(Sub(w, d)) && !IsRed(Sub(w, Other(d)))
    ensures var c', d := FarRed(c), SideOf(c);
      && Short(c', t) && SideOf(c') == d && !IsRed(Sibling(c')) && IsRed(Sub(Sibling(c'), Other(d)))
      && Spelled(c', t) == Spelled(c, t)
      && var w := Sibling(c);
         Sibling(c') == Rotated(Join(d, Painted(Sub(w, d), Black), w.node, Red, Sub(w, Other(d))), Other(d))
  {
    var c', d, w := FarRed(c), SideOf(c), Sibling(c);
    var v := Join(d, Painted(Sub(w, d), Black), w.node, Red, Sub(w, Other(d)));
    var near := Sub(w, d);
    assert Balanced(near) && NoRedRed(near);
    assert InOrder(v) == InOrder(w);
    RotatedInOrder(v, Other(d));
    SpelledUp(c, t);
    SpelledUp(c', t);
  }

  /** The sibling takes the parent's colour and place; parent and far child turn black. */
  ghost function Repaid<T>(c: Context<T>, t: Tree<T>): Tree<T>
    requires !c.Top? && Sibling(c).Fork? && Sub(Sibling(c), Other(SideOf(c))).Fork?
  {
    var d, w := SideOf(c), Sibling(c);
    Join(d, Join(d, t, c.node, Black, Sub(w, d)), w.node, c.color, Painted(Sub(w, Other(d)), Black))
  }

  lemma RepaidRedBlack<T>(c: Context<T>, t: Tree<T>)
    requires Short(c, t) && !c.Top? && !IsRed(t) && !IsRed(Sibling(c)) && Sibling(c).Fork?
    requires IsRed(Sub(Sibling(c), Other(SideOf(c))))
    ensures RedBlack(Plug(c.up, Repaid(c, t)))
  {
    var d, w := SideOf(c), Sibling(c);
    var far := Painted(Sub(w, Other(d)), Black);
    assert Balanced(Sub(w, Other(d))) && NoRedRed(Sub(w, Other(d)));
    assert Balanced(far) && NoRedRed(far) && !IsRed(far) && BlackHeight(far) == BlackHeight(t) + 1;
    var low := Join(d, t, c.node, Black, Sub(w, d));
    assert Balanced(low) && NoRedRed(low) && !IsRed(low) && BlackHeight(low) == BlackHeight(t) + 1;
    assert Repaid(c, t) == Join(d, low, w.node, c.color, far);
    PlugRedBlack(c.up, Repaid(c, t));
  }

  lemma RepaidStep<T>(c: Context<T>, t: Tree<T>)
    requires !c.Top? && Sibling(c).Fork? && Sub(Sibling(c), Other(SideOf(c))).Fork?
    ensures Spelled(c.up, Repaid(c, t)) == Spelled(c, t)
    ensures var d, w := SideOf(c), Sibling(c);
      var g := Join(d, t, c.node, Black, Join(d, Sub(w, d), w.node, c.color, Painted(Sub(w, Other(d)), Black)));
      Repaid(c, t) == Rotated(g, d)
  {
    var d, w := SideOf(c), Sibling(c);
    var far := Painted(Sub(w, Other(d)), Black);
    var v := Join(d, Sub(w, d), w.node, c.color, far);
    var g := Join(d, t, c.node, Black, v);
    assert InOrder(far) == InOrder(Sub(w, Other(d)));
    assert InOrder(v) == InOrder(w);
    assert InOrder(g) == InOrder(FocusUp(c, t));
    RotatedInOrder(g, d);
    SpelledUp(c, t);
  }

  /** A red root turned black pays for the missing black node. */
  lemma RedPays<T>(c: Context<T>, t: Tree<T>)
    requires Short(c, t) && (IsRed(t) || c.Top?)
    ensures var u := if t.Fork? then Painted(t, Black) else t;
      RedBlack(Plug(c, u)) && Spelled(c, u) == Spelled(c, t)
  {
    PlugRedBlack(c, if t.Fork? then Painted(t, Black) else t);
  }

  // ------------------------------------------------------------------- height

  ghost function Height<T>(t: Tree<T>): nat {
    match t
    case Nil => 0
    case Fork(l, _, _, r) => 1 + if Height(l) > Height(r) then Height(l) else Height(r)
  }

  ghost function Pow2(n: nat): nat { if n == 0 then 1 else 2 * Pow2(n - 1) }

  lemma {:induction false} PowSplit(a: nat, b: nat)
    ensures Pow2(a + b) == Pow2(a) * Pow2(b)
  {
    if a > 0 { PowSplit(a - 1, b); }
  }

  lemma {:induction false} PowMonotone(a: nat, b: nat)
    requires a <= b
    ensures Pow2(a) <= Pow2(b)
  {
    if a < b { PowMonotone(a, b - 1); }
  }

  lemma {:induction false} HeightByBlackHeight<T>(t: Tree<T>)
    requires Balanced(t) && NoRedRed(t)
    ensures Height(t) <= 2 * BlackHeight(t) + (if IsRed(t) then 1 else 0)
    ensures Pow2(BlackHeight(t)) <= |InOrder(t)| + 1
  {
    match t
    case Nil =>
    case Fork(l, _, _, r) => HeightByBlackHeight(l); HeightByBlackHeight(r);
  }

  lemma SquareMonotone(a: nat, b: nat)
    requires a <= b
    ensures a * a <= b * b
  {
    assert a * a <= a * b <= b * b;
  }

  /** Height is at most 2*log2(n + 1), stated without logarithms. */
  lemma {:induction false} HeightBound<T>(t: Tree<T>)
    requires RedBlack(t)
    ensures Pow2(Height(t)) <= (|InOrder(t)| + 1) * (|InOrder(t)| + 1)
  {
    HeightByBlackHeight(t);
    var b := BlackHeight(t);
    PowMonotone(Height(t), b + b);
    PowSplit(b, b);
    SquareMonotone(Pow2(b), |InOrder(t)| + 1);
  }
}
