/**
 Trees with the plain key order of ngx_rbtree_insert_value: over any inserts and deletes the nodes
 stay sorted by key, and nodes with equal keys in the order of their insertion.
 */
module KeyOrder {
  import opened Words
  import opened RbLinks
  import RbShape
  import opened RbTree

  /** The key a node was inserted with, and when. */
  datatype Entry = Entry(key: Word, time: nat)

  predicate Sooner(a: Entry, b: Entry) { a.key < b.key || (a.key == b.key && a.time < b.time) }

  /** Sorted by key, and nodes with equal keys by the time of their insertion. */
  ghost predicate StableSorted(q: seq<Node>, entries: map<Node, Entry>) {
    && (forall i | 0 <= i < |q| :: q[i] in entries)
    && (forall i, j | 0 <= i < j < |q| :: Sooner(entries[q[i]], entries[q[j]]))
  }

  /** Keys do not decrease along `q`. */
  ghost predicate KeySorted(q: seq<Node>)
    reads (set x | x in q)`key
  {
    forall i, j | 0 <= i <= j < |q| :: q[i].key <= q[j].key
  }

  /** In a sorted sequence, what goes before one element goes before all later ones. */
  lemma SortedIsMonotone(q: seq<Node>, n: Node)
    requires KeySorted(q)
    ensures Monotone(ByValue, n, q)
  {
  }

  lemma StableIsSorted(q: seq<Node>, entries: map<Node, Entry>)
    requires StableSorted(q, entries) && forall i | 0 <= i < |q| :: q[i].key == entries[q[i]].key
    ensures KeySorted(q)
  {
    forall i, j | 0 <= i <= j < |q| ensures q[i].key <= q[j].key {
      assert i < j ==> Sooner(entries[q[i]], entries[q[j]]);
    }
  }

  /** The newest node, put where it belongs, keeps the order. */
  lemma InsertStable(q: seq<Node>, entries: map<Node, Entry>, n: Node, now: nat, k: nat, r: seq<Node>)
    requires StableSorted(q, entries) && n !in q && k <= |q| && r == q[..k] + [n] + q[k..]
    requires forall i | 0 <= i < |q| :: q[i].key == entries[q[i]].key
    requires forall m | m in entries :: entries[m].time < now
    requires Monotone(ByValue, n, q) ==> Belongs(ByValue, n, q, k)
    ensures StableSorted(r, entries[n := Entry(n.key, now)])
  {
    StableIsSorted(q, entries);
    SortedIsMonotone(q, n);
    var es := entries[n := Entry(n.key, now)];
    forall i | 0 <= i < |q| ensures if i < k then Sooner(entries[q[i]], es[n]) else Sooner(es[n], entries[q[i]]) {
      assert Precedes(ByValue, n, q[i]) <==> k <= i;
    }
    hide Monotone, Belongs, Sooner, KeySorted;
    forall i | 0 <= i < |r| ensures r[i] in es && (i < k ==> r[i] == q[i]) && (i > k ==> r[i] == q[i - 1]) { }
    forall i, j | 0 <= i < j < |r| ensures Sooner(es[r[i]], es[r[j]]) {
      assert i != k ==> r[i] != n;
      assert j != k ==> r[j] != n;
    }
  }

  lemma WithoutStable(q: seq<Node>, entries: map<Node, Entry>, k: nat)
    requires StableSorted(q, entries) && k < |q| && q[k] !in Without(q, k)
    ensures StableSorted(Without(q, k), entries - {q[k]})
  {
    hide Sooner;
    var r := Without(q, k);
    forall i | 0 <= i < |r| ensures r[i] == q[if i < k then i else i + 1] && r[i] != q[k] {
      assert r[i] in r;
    }
  }

  /** Each node has the key it was inserted with, some time before `now`. */
  ghost predicate Recorded(nodes: set<Node>, entries: map<Node, Entry>, now: nat)
    reads nodes`key
  {
    forall n | n in nodes :: n in entries && n.key == entries[n].key && entries[n].time < now
  }

  lemma RecordedMore(nodes: set<Node>, entries: map<Node, Entry>, now: nat, node: Node)
    requires Recorded(nodes, entries, now)
    ensures Recorded(nodes + {node}, entries[node := Entry(node.key, now)], now + 1)
  {
  }

  lemma RecordedKeys(q: seq<Node>, nodes: set<Node>, entries: map<Node, Entry>, now: nat)
    requires Recorded(nodes, entries, now) && entries.Keys == nodes && forall i | 0 <= i < |q| :: q[i] in nodes
    ensures forall i | 0 <= i < |q| :: q[i] in entries && q[i].key == entries[q[i]].key
    ensures forall m | m in entries :: entries[m].time < now
  {
  }

  datatype Request = Put(node: Node, key: Word) | Take(node: Node)

  class KeyedTree {
    const tree: RbTree
    /** the nodes that the caller has in the tree */
    var members: set<Node>
    ghost var entries: map<Node, Entry>
    ghost var now: nat

    ghost predicate Valid()
      reads this, tree, tree.sentinel, tree.nodes
    {
      && tree.Valid() && tree.order == ByValue && members == entries.Keys == tree.nodes
      && Recorded(tree.nodes, entries, now)
      && StableSorted(tree.Sequence(), entries)
    }

    constructor (sentinel: Node)
      modifies sentinel`color
      ensures Valid() && fresh(tree) && tree.sentinel == sentinel && tree.nodes == {} && entries == map[]
    {
      members, entries, now := {}, map[], 0;
      tree := new RbTree(sentinel, ByValue);
    }

    /** Sets the key of a node and inserts it. */
    method Insert(node: Node, key: Word)
      requires Valid() && node !in tree.nodes && node != tree.sentinel
      modifies this`members, this`entries, this`now, tree`root, tree`nodes, tree`shape, tree.nodes`left, tree.nodes`right, tree.nodes`parent, tree.nodes`color,
               node`key, node`left, node`right, node`parent, node`color
      ensures Valid() && tree.nodes == old(tree.nodes) + {node} && now == old(now) + 1
      ensures entries == old(entries)[node := Entry(key, old(now))]
    {
      hide Fits, RbShape.RedBlack, RbShape.InOrder, Precedes, Belongs, Monotone, StableSorted, Recorded;
      ghost var q, nodes := tree.Sequence(), tree.nodes;
      tree.SequenceNodes();
      assert node !in q;
      node.key := key;
      ghost var k := tree.Insert(node);
      assert forall i | 0 <= i < |q| :: q[i] in nodes;
      RecordedKeys(q, nodes, entries, now);
      RecordedMore(nodes, entries, now, node);
      InsertStable(q, entries, node, now, k, tree.Sequence());
      members, entries := members + {node}, entries[node := Entry(key, now)];
      now := now + 1;
    }

    method Delete(node: Node)
      requires Valid() && node in tree.nodes
      modifies this`members, this`entries, this`now, tree`root, tree`nodes, tree`shape, tree.nodes`left, tree.nodes`right, tree.nodes`parent, tree.nodes`color,
               node`key, tree.sentinel`parent, tree.sentinel`color
      ensures Valid() && tree.nodes == old(tree.nodes) - {node} && now == old(now)
      ensures entries == old(entries) - {node}
    {
      hide Fits, RbShape.RedBlack, RbShape.InOrder, StableSorted, Without;
      ghost var q := tree.Sequence();
      ghost var k := tree.Delete(node);
      tree.SequenceNodes();
      ghost var r := tree.Sequence();
      assert forall i | 0 <= i < |r| :: r[i] in tree.nodes && r[i] != node;
      assert node !in r && r == Without(q, k) && q[k] == node;
      WithoutStable(q, entries, k);
      members, entries := members - {node}, entries - {node};
    }

    /**
     Every run of inserts and deletes of nodes from `pool`: keys never decrease along the in-order
     sequence, and among equal keys the node inserted earlier comes first.
     */
    method Serve(script: seq<Request>, ghost pool: set<Node>)
      requires Valid() && tree.nodes <= pool && tree.sentinel !in pool && forall r | r in script :: r.node in pool
      modifies this`members, this`entries, this`now, tree`root, tree`nodes, tree`shape, tree.sentinel`parent, tree.sentinel`color, pool
      ensures Valid() && tree.nodes <= pool && tree.Valid() && KeySorted(tree.Sequence())
      ensures var q := tree.Sequence(); forall i, j | 0 <= i < j < |q| && q[i].key == q[j].key ::
        q[i] in entries && q[j] in entries && entries[q[i]].time < entries[q[j]].time
    {
      hide Fits, RbShape.RedBlack, RbShape.InOrder, StableSorted;
      for i := 0 to |script|
        invariant Valid() && tree.nodes <= pool
      {
        assert script[i] in script;
        match script[i] {
          case Put(node, key) =>
            if node !in members {
              Insert(node, key);
            }
          case Take(node) =>
            if node in members {
              Delete(node);
            }
        }
      }
      Sorted();
    }

    /** What the invariant says about the keys in the tree. */
    lemma Sorted()
      requires Valid()
      ensures KeySorted(tree.Sequence())
      ensures var q := tree.Sequence(); forall i, j | 0 <= i < j < |q| && q[i].key == q[j].key ::
        q[i] in entries && q[j] in entries && entries[q[i]].time < entries[q[j]].time
    {
      hide Fits, RbShape.RedBlack, RbShape.InOrder;
      tree.SequenceNodes();
      var q := tree.Sequence();
      StableIsSorted(q, entries);
      forall i, j | 0 <= i < j < |q| && q[i].key == q[j].key
        ensures q[i] in entries && q[j] in entries && entries[q[i]].time < entries[q[j]].time
      {
        assert Sooner(entries[q[i]], entries[q[j]]);
      }
    }
  }
}
