/** Forests from flat lists of nodes that name their parents. */
module TreeModel {
  import opened Wrappers
  import opened Collections

  datatype Item = Item(id: int, parent: Option<int>)

  datatype Tree = Tree(id: int, children: seq<Tree>)

  function Ids(items: seq<Item>): (r: set<int>)
    ensures forall x :: x in r <==> exists i :: 0 <= i < |items| && items[i].id == x
  {
    set i | 0 <= i < |items| :: items[i].id
  }

  ghost predicate Distinct(items: seq<Item>) {
    forall i, j :: 0 <= i < j < |items| ==> items[i].id != items[j].id
  }

  /** The parent is null, or names no node of the list. */
  predicate Top(items: seq<Item>, item: Item) {
    item.parent.Some? ==> item.parent.value !in Ids(items)
  }

  /** The ids of the nodes with the given parent, in input order. */
  function WithParent(items: seq<Item>, parent: Option<int>): (r: seq<int>)
    ensures forall x :: x in r <==> Item(x, parent) in items
  {
    if items == [] then []
    else
      var rest := WithParent(items[..|items| - 1], parent);
      var last := items[|items| - 1];
      if last.parent == parent then rest + [last.id] else rest
  }

  /** The ids of the nodes among `some` that are on top in `items`, in order. */
  function TopsAmong(items: seq<Item>, some: seq<Item>): (r: seq<int>)
    ensures forall x :: x in r <==> exists p :: Item(x, p) in some && Top(items, Item(x, p))
  {
    if some == [] then []
    else
      var rest := TopsAmong(items, some[..|some| - 1]);
      var last := some[|some| - 1];
      if Top(items, last) then rest + [last.id] else rest
  }

  function Tops(items: seq<Item>): seq<int> {
    TopsAmong(items, items)
  }

  // ---------------------------------------------------------------- paths

  ghost predicate TopId(items: seq<Item>, x: int) {
    exists p :: Item(x, p) in items && Top(items, Item(x, p))
  }

  /** A path from a top node down to the last id. */
  ghost predicate IsPath(items: seq<Item>, c: seq<int>) {
    && c != []
    && TopId(items, c[0])
    && forall i :: 1 <= i < |c| ==> Item(c[i], Some(c[i - 1])) in items
  }

  lemma SameItem(items: seq<Item>, a: Item, b: Item)
    requires Distinct(items) && a in items && b in items && a.id == b.id
    ensures a == b
  {
    var i :| 0 <= i < |items| && items[i] == a;
    var j :| 0 <= j < |items| && items[j] == b;
  }

  lemma PathInIds(items: seq<Item>, c: seq<int>, i: nat)
    requires IsPath(items, c) && i < |c|
    ensures c[i] in Ids(items)
  {
    if i == 0 {
      var p :| Item(c[0], p) in items;
    } else {
      assert Item(c[i], Some(c[i - 1])) in items;
    }
  }

  lemma PathPrefix(items: seq<Item>, c: seq<int>, k: nat)
    requires IsPath(items, c) && 1 <= k <= |c|
    ensures IsPath(items, c[..k])
  {
    assert c[..k][0] == c[0];
  }

  /** There is only one path to a node. */
  lemma {:induction false} OnePath(items: seq<Item>, c: seq<int>, d: seq<int>)
    requires Distinct(items) && IsPath(items, c) && IsPath(items, d) && c[|c| - 1] == d[|d| - 1]
    ensures c == d
    decreases |c|
  {
    PathInIds(items, c, |c| - 1);
    if |c| > 1 && |d| > 1 {
      SameItem(items, Item(c[|c| - 1], Some(c[|c| - 2])), Item(d[|d| - 1], Some(d[|d| - 2])));
      PathPrefix(items, c, |c| - 1);
      PathPrefix(items, d, |d| - 1);
      OnePath(items, c[..|c| - 1], d[..|d| - 1]);
      assert c == c[..|c| - 1] + [c[|c| - 1]];
      assert d == d[..|d| - 1] + [d[|d| - 1]];
    } else if |c| > 1 {
      TopHasNoParent(items, d[0], c[|c| - 2]);
      PathInIds(items, c, |c| - 2);
    } else if |d| > 1 {
      TopHasNoParent(items, c[0], d[|d| - 2]);
      PathInIds(items, d, |d| - 2);
    }
  }

  lemma TopHasNoParent(items: seq<Item>, x: int, y: int)
    requires Distinct(items) && TopId(items, x)
    requires Item(x, Some(y)) in items
    ensures y !in Ids(items)
  {
    var p :| Item(x, p) in items && Top(items, Item(x, p));
    SameItem(items, Item(x, p), Item(x, Some(y)));
  }

  /** A path does not return to a node it has passed. */
  lemma PathIsSimple(items: seq<Item>, c: seq<int>, i: nat, j: nat)
    requires Distinct(items) && IsPath(items, c) && i < j < |c|
    ensures c[i] != c[j]
  {
    PathPrefix(items, c, i + 1);
    PathPrefix(items, c, j + 1);
    if c[i] == c[j] {
      OnePath(items, c[..i + 1], c[..j + 1]);
      assert false;
    }
  }

  // ---------------------------------------------------------------- forests

  ghost predicate Extends(items: seq<Item>, c: seq<int>, ids: seq<int>) {
    forall x :: x in ids ==> IsPath(items, c + [x])
  }

  /** How many nodes are not on the path. */
  function Room(items: seq<Item>, c: seq<int>): nat {
    |Ids(items) - Elements(c)|
  }

  lemma LessRoom(items: seq<Item>, c: seq<int>, x: int)
    requires Distinct(items) && IsPath(items, c + [x])
    ensures Room(items, c + [x]) < Room(items, c)
    ensures Extends(items, c + [x], WithParent(items, Some(x)))
  {
    var d := c + [x];
    PathInIds(items, d, |c|);
    forall i | 0 <= i < |c| ensures c[i] != x {
      PathIsSimple(items, d, i, |c|);
      assert d[i] == c[i];
    }
    assert Ids(items) - Elements(d) == (Ids(items) - Elements(c)) - {x};
    forall y | y in WithParent(items, Some(x)) ensures IsPath(items, d + [y]) {
      assert (d + [y])[0] == d[0];
      forall i | 1 <= i < |d + [y]| ensures Item((d + [y])[i], Some((d + [y])[i - 1])) in items {
        if i < |d| { assert Item(d[i], Some(d[i - 1])) in items; }
      }
    }
  }

  /** The trees of the nodes `ids` below the path `c`. */
  ghost function Grow(items: seq<Item>, c: seq<int>, ids: seq<int>): (trees: seq<Tree>)
    requires Distinct(items) && Extends(items, c, ids)
    ensures |trees| == |ids|
    decreases Room(items, c), |ids|
  {
    if ids == [] then []
    else
      var most := ids[..|ids| - 1];
      var x := ids[|ids| - 1];
      LessRoom(items, c, x);
      Grow(items, c, most) + [Tree(x, Grow(items, c + [x], WithParent(items, Some(x))))]
  }

  lemma TopsExtend(items: seq<Item>)
    ensures Extends(items, [], Tops(items)) && Extends(items, [], WithParent(items, None))
  {
    forall x | x in WithParent(items, None) ensures IsPath(items, [] + [x]) {
      assert Top(items, Item(x, None)) && TopId(items, x);
    }
    forall x | x in Tops(items) ensures IsPath(items, [] + [x]) {
      assert TopId(items, x);
    }
  }

  /** The forest of all top nodes. */
  ghost function Forest(items: seq<Item>): seq<Tree>
    requires Distinct(items)
  {
    TopsExtend(items);
    Grow(items, [], Tops(items))
  }

  /** The forest of the nodes with a null parent. */
  ghost function NullForest(items: seq<Item>): seq<Tree>
    requires Distinct(items)
  {
    TopsExtend(items);
    Grow(items, [], WithParent(items, None))
  }

  /** The ids of a forest, parents before children. */
  function Flat(trees: seq<Tree>): seq<int> {
    if trees == [] then []
    else
      var last := trees[|trees| - 1];
      Flat(trees[..|trees| - 1]) + [last.id] + Flat(last.children)
  }
}
