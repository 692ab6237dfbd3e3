/** The two builders as they run: they write the children of shared nodes in place. */
module TreeBuilder {
  import opened Wrappers
  import opened TreeModel
  import opened TreeProofs

  class TreeNode {
    const item: Item
    var children: seq<TreeNode>

    constructor (item: Item)
      ensures this.item == item && children == []
    {
      this.item := item;
      children := [];
    }
  }

  function ItemsOf(nodes: seq<TreeNode>): seq<Item> {
    seq(|nodes|, i requires 0 <= i < |nodes| => nodes[i].item)
  }

  /** The nodes with the given parent, in input order. */
  function ChildrenOf(nodes: seq<TreeNode>, parent: Option<int>): (r: seq<TreeNode>)
    ensures forall n :: n in r ==> n in nodes && n.item.parent == parent
    ensures ItemsOf(r) == seq(|r|, i requires 0 <= i < |r| => r[i].item)
  {
    if nodes == [] then []
    else
      var rest := ChildrenOf(nodes[..|nodes| - 1], parent);
      var last := nodes[|nodes| - 1];
      if last.item.parent == parent then rest + [last] else rest
  }

  /** The nodes among `some` that are on top in `items`, in order. */
  function TopNodes(items: seq<Item>, some: seq<TreeNode>): (r: seq<TreeNode>)
    ensures forall n :: n in r ==> n in some
  {
    if some == [] then []
    else
      var rest := TopNodes(items, some[..|some| - 1]);
      var last := some[|some| - 1];
      if Top(items, last.item) then rest + [last] else rest
  }

  function IdsOf(nodes: seq<TreeNode>): seq<int> {
    seq(|nodes|, i requires 0 <= i < |nodes| => nodes[i].item.id)
  }

  lemma {:induction false} ChildIds(nodes: seq<TreeNode>, parent: Option<int>)
    ensures IdsOf(ChildrenOf(nodes, parent)) == WithParent(ItemsOf(nodes), parent)
  {
    if nodes != [] {
      var most := nodes[..|nodes| - 1];
      ChildIds(most, parent);
      assert ItemsOf(nodes)[..|nodes| - 1] == ItemsOf(most);
    }
  }

  lemma {:induction false} TopIds(items: seq<Item>, some: seq<TreeNode>)
    ensures IdsOf(TopNodes(items, some)) == TopsAmong(items, ItemsOf(some))
  {
    if some != [] {
      var most := some[..|some| - 1];
      TopIds(items, most);
      assert ItemsOf(some)[..|some| - 1] == ItemsOf(most);
    }
  }

  // ---------------------------------------------------------------- what the heap holds

  /** The children of the node are those the list gives it. */
  ghost predicate Final(nodes: seq<TreeNode>, n: TreeNode)
    reads n
  {
    n.children == ChildrenOf(nodes, Some(n.item.id))
  }

  /** The node and everything below it spell out the tree. */
  ghost predicate Represents(nodes: seq<TreeNode>, t: Tree, n: TreeNode)
    reads nodes
    decreases t
  {
    && n in nodes && n.item.id == t.id && |n.children| == |t.children|
    && forall i :: 0 <= i < |t.children| ==> Represents(nodes, t.children[i], n.children[i])
  }

  ghost predicate RepresentsAll(nodes: seq<TreeNode>, trees: seq<Tree>, roots: seq<TreeNode>)
    reads nodes
  {
    |roots| == |trees| && forall i :: 0 <= i < |trees| ==> Represents(nodes, trees[i], roots[i])
  }

  /** Every node in the trees of `ids` below the path `c` is final. */
  ghost predicate FinalBelow(nodes: seq<TreeNode>, c: seq<int>, ids: seq<int>)
    requires Distinct(ItemsOf(nodes)) && Extends(ItemsOf(nodes), c, ids)
    reads nodes
  {
    forall n :: n in nodes && n.item.id in Flat(Grow(ItemsOf(nodes), c, ids)) ==> Final(nodes, n)
  }

  lemma FinalParts(nodes: seq<TreeNode>, c: seq<int>, roots: seq<TreeNode>)
    requires Distinct(ItemsOf(nodes)) && Extends(ItemsOf(nodes), c, IdsOf(roots)) && FinalBelow(nodes, c, IdsOf(roots))
    requires roots != [] && forall n :: n in roots ==> n in nodes
    ensures var (most, n, items) := (roots[..|roots| - 1], roots[|roots| - 1], ItemsOf(nodes));
      && Extends(items, c, IdsOf(most)) && FinalBelow(nodes, c, IdsOf(most))
      && Final(nodes, n) && Room(items, c + [n.item.id]) < Room(items, c)
      && IdsOf(n.children) == WithParent(items, Some(n.item.id))
      && Extends(items, c + [n.item.id], IdsOf(n.children)) && FinalBelow(nodes, c + [n.item.id], IdsOf(n.children))
      && Grow(items, c, IdsOf(roots)) ==
         Grow(items, c, IdsOf(most)) + [Tree(n.item.id, Grow(items, c + [n.item.id], IdsOf(n.children)))]
  {
    var (most, n, items) := (roots[..|roots| - 1], roots[|roots| - 1], ItemsOf(nodes));
    assert IdsOf(roots)[..|roots| - 1] == IdsOf(most);
    LessRoom(items, c, n.item.id);
    FlatLast(items, c, IdsOf(roots));
    ChildIds(nodes, Some(n.item.id));
    hide WithParent, Flat, Distinct, Room;
    assert Final(nodes, n);
    hide Final, Extends;
  }

  /** If every node below is final, the heap spells out the forest. */
  lemma {:induction false} FinalRepresents(nodes: seq<TreeNode>, c: seq<int>, roots: seq<TreeNode>)
    requires Distinct(ItemsOf(nodes)) && Extends(ItemsOf(nodes), c, IdsOf(roots)) && FinalBelow(nodes, c, IdsOf(roots))
    requires forall n :: n in roots ==> n in nodes
    ensures RepresentsAll(nodes, Grow(ItemsOf(nodes), c, IdsOf(roots)), roots)
    decreases Room(ItemsOf(nodes), c), |roots|
  {
    if roots != [] {
      FinalParts(nodes, c, roots);
      hide FinalBelow, Extends, Distinct, Room, Grow, WithParent, Represents, RepresentsAll, Final;
      var n := roots[|roots| - 1];
      FinalRepresents(nodes, c, roots[..|roots| - 1]);
      FinalRepresents(nodes, c + [n.item.id], n.children);
      var below := Grow(ItemsOf(nodes), c + [n.item.id], IdsOf(n.children));
      OneMoreRepresented(nodes, Grow(ItemsOf(nodes), c, IdsOf(roots[..|roots| - 1])), below, roots);
    } else {
      assert IdsOf(roots) == [];
    }
  }

  lemma OneMoreRepresented(nodes: seq<TreeNode>, trees: seq<Tree>, below: seq<Tree>, roots: seq<TreeNode>)
    requires roots != [] && roots[|roots| - 1] in nodes
    requires RepresentsAll(nodes, trees, roots[..|roots| - 1])
    requires RepresentsAll(nodes, below, roots[|roots| - 1].children)
    ensures RepresentsAll(nodes, trees + [Tree(roots[|roots| - 1].item.id, below)], roots)
  {
    assert Represents(nodes, Tree(roots[|roots| - 1].item.id, below), roots[|roots| - 1]);
    hide Represents;
    forall i | 0 <= i < |trees| ensures Represents(nodes, trees[i], roots[i]) {
      assert roots[i] == roots[..|roots| - 1][i];
    }
  }

  // ---------------------------------------------------------------- one pass

  method IndexNodes(nodes: seq<TreeNode>) returns (nodeDict: map<int, TreeNode>)
    ensures forall id :: id in nodeDict <==> id in Ids(ItemsOf(nodes))
    ensures forall id :: id in nodeDict ==> nodeDict[id] in nodes && nodeDict[id].item.id == id
  {
    nodeDict := map[];
    for i := 0 to |nodes|
      invariant forall id :: id in nodeDict ==> nodeDict[id] in nodes && nodeDict[id].item.id == id
      invariant forall j :: 0 <= j < i ==> nodes[j].item.id in nodeDict
    {
      nodeDict := nodeDict[nodes[i].item.id := nodes[i]];
    }
    forall id ensures id in nodeDict <==> id in Ids(ItemsOf(nodes)) {
      if id in nodeDict {
        var j :| 0 <= j < |nodes| && nodes[j] == nodeDict[id];
        assert ItemsOf(nodes)[j].id == id;
      }
      if id in Ids(ItemsOf(nodes)) {
        var j :| 0 <= j < |nodes| && ItemsOf(nodes)[j].id == id;
      }
    }
  }

  lemma DistinctNodes(nodes: seq<TreeNode>, m: TreeNode, n: TreeNode)
    requires Distinct(ItemsOf(nodes)) && m in nodes && n in nodes && m.item.id == n.item.id
    ensures m == n
  {
    var i :| 0 <= i < |nodes| && nodes[i] == m;
    var j :| 0 <= j < |nodes| && nodes[j] == n;
    assert ItemsOf(nodes)[i].id == ItemsOf(nodes)[j].id;
  }

  lemma NotYet(nodes: seq<TreeNode>, i: nat, parent: Option<int>)
    requires Distinct(ItemsOf(nodes)) && i < |nodes|
    ensures nodes[i] !in nodes[..i] && nodes[i] !in ChildrenOf(nodes[..i], parent)
    ensures nodes[i] !in TopNodes(ItemsOf(nodes), nodes[..i])
  {
    forall j | 0 <= j < i ensures nodes[j] != nodes[i] {
      assert ItemsOf(nodes)[j].id != ItemsOf(nodes)[i].id;
    }
  }

  /** Every node is appended to its parent, or to the result when it has none. */
  method TraversalToTree(nodes: seq<TreeNode>) returns (tree: seq<TreeNode>)
    requires Distinct(ItemsOf(nodes)) && forall n :: n in nodes ==> n.children == []
    modifies nodes
    ensures tree == TopNodes(ItemsOf(nodes), nodes)
    ensures forall n :: n in nodes ==> Final(nodes, n)
    ensures RepresentsAll(nodes, Forest(ItemsOf(nodes)), tree)
  {
    var nodeDict := IndexNodes(nodes);
    tree := [];
    for i := 0 to |nodes|
      invariant tree == TopNodes(ItemsOf(nodes), nodes[..i])
      invariant forall n :: n in nodes ==> n.children == ChildrenOf(nodes[..i], Some(n.item.id))
    {
      hide Distinct;
      var node := nodes[i];
      assert nodes[..i + 1][..i] == nodes[..i];
      NotYet(nodes, i, node.item.parent);
      if node.item.parent.None? {
        tree := tree + [node];
      } else {
        var parentId := node.item.parent.value;
        if parentId in nodeDict {
          var parentNode := nodeDict[parentId];
          forall n | n in nodes && n.item.id == parentId
              ensures n == parentNode { DistinctNodes(nodes, n, parentNode); }
          if node !in parentNode.children {
            parentNode.children := parentNode.children + [node];
          }
        } else {
          forall n | n in nodes ensures n.item.id != parentId {
            var j :| 0 <= j < |nodes| && nodes[j] == n;
            assert ItemsOf(nodes)[j].id == n.item.id;
          }
          if node !in tree {
            tree := tree + [node];
          }
        }
      }
    }
    assert nodes[..|nodes|] == nodes;
    TopsExtend(ItemsOf(nodes));
    TopIds(ItemsOf(nodes), nodes);
    FinalRepresents(nodes, [], tree);
  }

  // ---------------------------------------------------------------- recursion

  lemma PrefixExtends(nodes: seq<TreeNode>, c: seq<int>, i: nat, parent: Option<int>)
    requires i <= |nodes| && Extends(ItemsOf(nodes), c, WithParent(ItemsOf(nodes), parent))
    ensures Extends(ItemsOf(nodes), c, WithParent(ItemsOf(nodes[..i]), parent))
  {
    forall item | item in ItemsOf(nodes[..i]) ensures item in ItemsOf(nodes) {
      var j :| 0 <= j < i && ItemsOf(nodes[..i])[j] == item;
      assert ItemsOf(nodes)[j] == item;
    }
  }

  lemma OneMore(nodes: seq<TreeNode>, i: nat, parent: Option<int>)
    requires i < |nodes|
    ensures var (before, after) := (WithParent(ItemsOf(nodes[..i]), parent),
      WithParent(ItemsOf(nodes[..i + 1]), parent));
      after == if nodes[i].item.parent == parent then before + [nodes[i].item.id] else before
    ensures ChildrenOf(nodes[..i + 1], parent) ==
      if nodes[i].item.parent == parent then ChildrenOf(nodes[..i], parent) + [nodes[i]]
          else ChildrenOf(nodes[..i], parent)
  {
    assert ItemsOf(nodes[..i + 1])[..i] == ItemsOf(nodes[..i]);
    assert nodes[..i + 1][..i] == nodes[..i];
  }

  lemma OneMoreBelow(nodes: seq<TreeNode>, c: seq<int>, before: seq<int>, after: seq<int>, n: TreeNode)
    requires Distinct(ItemsOf(nodes)) && Extends(ItemsOf(nodes), c, before) && Extends(ItemsOf(nodes), c, after)
    requires n in nodes && after == before + [n.item.id]
    requires Extends(ItemsOf(nodes), c + [n.item.id], WithParent(ItemsOf(nodes), Some(n.item.id)))
    requires FinalBelow(nodes, c, before) && Final(nodes, n)
    requires FinalBelow(nodes, c + [n.item.id], WithParent(ItemsOf(nodes), Some(n.item.id)))
    ensures FinalBelow(nodes, c, after)
  {
    hide Extends, WithParent, Grow, Flat, Final, Distinct;
    FlatLast(ItemsOf(nodes), c, after);
    assert after[..|after| - 1] == before;
    forall m | m in nodes && m.item.id in Flat(Grow(ItemsOf(nodes), c, after)) ensures Final(nodes, m) {
      if m.item.id == n.item.id { DistinctNodes(nodes, m, n); }
    }
  }

  /** Collects the nodes with the given parent, each with its own children collected first. */
  method RecursiveToTree(nodes: seq<TreeNode>, ghost c: seq<int>, parentId: Option<int>) returns (tree: seq<TreeNode>)
    requires Distinct(ItemsOf(nodes)) && Extends(ItemsOf(nodes), c, WithParent(ItemsOf(nodes), parentId))
    requires forall n :: n in nodes ==> n.children == [] || Final(nodes, n)
    modifies nodes
    ensures tree == ChildrenOf(nodes, parentId)
    ensures forall n :: n in nodes ==> n.children == [] || Final(nodes, n)
    ensures forall n :: n in nodes && old(Final(nodes, n)) ==> Final(nodes, n)
    ensures FinalBelow(nodes, c, WithParent(ItemsOf(nodes), parentId))
    decreases Room(ItemsOf(nodes), c)
  {
    ghost var items := ItemsOf(nodes);
    tree := [];
    hide Distinct, Extends, Flat, Grow, WithParent, ChildrenOf, Room, ItemsOf;
    NothingBelow(nodes, c, parentId);
    for i := 0 to |nodes|
      invariant tree == ChildrenOf(nodes[..i], parentId)
      invariant forall n :: n in nodes ==> n.children == [] || Final(nodes, n)
      invariant forall n :: n in nodes && old(Final(nodes, n)) ==> Final(nodes, n)
      invariant Extends(items, c, WithParent(ItemsOf(nodes[..i]), parentId))
      invariant FinalBelow(nodes, c, WithParent(ItemsOf(nodes[..i]), parentId))
    {
      var node := nodes[i];
      OneMore(nodes, i, parentId);
      PrefixExtends(nodes, c, i + 1, parentId);
      if node.item.parent == parentId {
        Branch(nodes, c, i, parentId);
        var childNodes := RecursiveToTree(nodes, c + [node.item.id], Some(node.item.id));
        if childNodes != [] {
          node.children := childNodes;
        }
        OneMoreBelow(nodes, c, WithParent(ItemsOf(nodes[..i]), parentId),
            WithParent(ItemsOf(nodes[..i + 1]), parentId), node);
        tree := tree + [node];
      }
    }
    assert nodes[..|nodes|] == nodes;
  }

  lemma NothingBelow(nodes: seq<TreeNode>, c: seq<int>, parentId: Option<int>)
    requires Distinct(ItemsOf(nodes))
    ensures ChildrenOf(nodes[..0], parentId) == []
    ensures Extends(ItemsOf(nodes), c, WithParent(ItemsOf(nodes[..0]), parentId))
    ensures FinalBelow(nodes, c, WithParent(ItemsOf(nodes[..0]), parentId))
  {
    hide Distinct;
    assert WithParent(ItemsOf(nodes[..0]), parentId) == [];
  }

  lemma Branch(nodes: seq<TreeNode>, c: seq<int>, i: nat, parentId: Option<int>)
    requires Distinct(ItemsOf(nodes)) && i < |nodes| && nodes[i].item.parent == parentId
    requires Extends(ItemsOf(nodes), c, WithParent(ItemsOf(nodes), parentId))
    ensures var x := nodes[i].item.id;
      && Extends(ItemsOf(nodes), c + [x], WithParent(ItemsOf(nodes), Some(x)))
      && Room(ItemsOf(nodes), c + [x]) < Room(ItemsOf(nodes), c)
  {
    assert ItemsOf(nodes)[i] == nodes[i].item;
    LessRoom(ItemsOf(nodes), c, nodes[i].item.id);
  }

  /** Started from null, the recursion ends whatever cycles the list has, with the forest of null parents. */
  method RecursiveFromNull(nodes: seq<TreeNode>) returns (tree: seq<TreeNode>)
    requires Distinct(ItemsOf(nodes)) && forall n :: n in nodes ==> n.children == []
    modifies nodes
    ensures tree == ChildrenOf(nodes, None)
    ensures RepresentsAll(nodes, NullForest(ItemsOf(nodes)), tree)
  {
    TopsExtend(ItemsOf(nodes));
    tree := RecursiveToTree(nodes, [], None);
    hide Distinct, Extends, Flat, Grow, WithParent;
    ChildIds(nodes, None);
    FinalRepresents(nodes, [], tree);
  }
}
