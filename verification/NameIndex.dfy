/**
 The name index of the open-file cache: a red-black tree ordered by hash, then by name.
 */
module NameIndex {
  import opened Words
  import opened RbShape
  import opened RbLinks
  import opened RbTree

  class Index {
    const tree: RbTree
    /** ngx_crc32_long over the name; any function of the name will do */
    const hash: string -> Word

    ghost predicate Valid()
      reads this, tree, tree.sentinel, tree.nodes
    {
      && tree.Valid() && tree.order == ByName
      && (forall i | 0 <= i < |tree.Sequence()| :: tree.Sequence()[i] in tree.nodes)
      && NameOrdered(tree.Sequence())
      && forall n | n in tree.nodes :: n.key == hash(n.name)
    }

    constructor (sentinel: Node, hash: string -> Word)
      modifies sentinel`color
      ensures Valid() && tree.nodes == {} && fresh(tree) && tree.sentinel == sentinel
    {
      this.hash := hash;
      tree := new RbTree(sentinel, ByName);
    }

    /** ngx_open_file_lookup finds an entry by name if and only if there is one. */
    method Find(name: string) returns (found: Node?)
      requires Valid()
      ensures found != null ==> found in tree.nodes && found.name == name
      ensures found == null ==> forall n | n in tree.nodes :: n.name != name
    {
      hide Fits, RedBlack, InOrder, NameOrdered;
      found := tree.Lookup(name, hash(name));
      assert found == null ==> forall n | n in tree.nodes && n.name == name :: IsEntry(n, hash(name), name);
    }

    /** Names are unique. */
    lemma UniqueNames(m: Node, n: Node)
      requires Valid() && m in tree.nodes && n in tree.nodes && m.name == n.name
      ensures m == n
    {
      hide Fits, RedBlack, InOrder;
      tree.SequenceNodes();
      var q := tree.Sequence();
      var i, j :| 0 <= i < |q| && 0 <= j < |q| && q[i] == m && q[j] == n;
      StringLessTotal(m.name, n.name);
    }

    method Add(node: Node)
      requires Valid() && node !in tree.nodes && node != tree.sentinel && forall n | n in tree.nodes :: n.name != node.name
      modifies tree`root, tree`nodes, tree`shape, tree.nodes`left, tree.nodes`right, tree.nodes`parent, tree.nodes`color,
               node`key, node`left, node`right, node`parent, node`color
      ensures Valid() && tree.nodes == old(tree.nodes) + {node}
    {
      hide Fits, RedBlack, InOrder, Precedes, Belongs, Monotone, NameOrdered;
      node.key := hash(node.name);
      ghost var q := tree.Sequence();
      tree.SequenceNodes();
      assert forall i | 0 <= i < |q| :: q[i] in tree.nodes && !IsEntry(q[i], node.key, node.name);
      assert NameOrdered(q);
      ghost var k := tree.Insert(node);
      assert forall i | 0 <= i < |q| :: q[i] in old(tree.nodes);
      InsertKeepsNames(q, node, k, tree.Sequence());
      tree.SequenceNodes();
    }

    method Remove(node: Node)
      requires Valid() && node in tree.nodes
      modifies tree`root, tree`nodes, tree`shape, tree.sentinel`parent, tree.sentinel`color,
               tree.nodes`left, tree.nodes`right, tree.nodes`parent, tree.nodes`color, node`key
      ensures Valid() && tree.nodes == old(tree.nodes) - {node}
    {
      hide Fits, RedBlack, InOrder;
      ghost var q := tree.Sequence();
      tree.SequenceNodes();
      assert forall i | 0 <= i < |q| :: q[i] in tree.nodes;
      ghost var k := tree.Delete(node);
      tree.SequenceNodes();
      ghost var r := tree.Sequence();
      forall i, j | 0 <= i < j < |r| ensures EntryLess(r[i].key, r[i].name, r[j].key, r[j].name) {
        var a, b := if i < k then i else i + 1, if j < k then j else j + 1;
        assert r[i] == q[a] && r[j] == q[b];
        assert r[i] in tree.nodes && r[j] in tree.nodes;
        assert old(EntryLess(q[a].key, q[a].name, q[b].key, q[b].name));
      }
    }
  }
}
