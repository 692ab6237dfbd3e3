/** A forest holds each node whose chain of parents ends exactly once, and drops exactly the others. */
module TreeProofs {
  import opened Wrappers
  import opened Collections
  import opened TreeModel

  /** The chain of parents ends at a null or missing parent. */
  ghost predicate Grounded(items: seq<Item>, x: int) {
    exists d :: IsPath(items, d) && d[|d| - 1] == x
  }

  /** Each id is followed by its parent, which is in the list. */
  ghost predicate Climb(items: seq<Item>, e: seq<int>) {
    && (forall i :: 0 <= i < |e| ==> e[i] in Ids(items))
    && forall i :: 0 <= i < |e| - 1 ==> Item(e[i], Some(e[i + 1])) in items
  }

  /** Climbing from the node comes back to a node already passed. */
  ghost predicate Cyclic(items: seq<Item>, x: int) {
    exists e, i, j :: Climb(items, e) && 0 <= i < j < |e| && e[0] == x && e[i] == e[j]
  }

  // ---------------------------------------------------------------- membership

  /** A path goes through the path `c`, then one of the nodes `ids`, to `x`. */
  ghost predicate Below(items: seq<Item>, c: seq<int>, ids: seq<int>, x: int) {
    exists d :: Leads(items, c, ids, x, d)
  }

  ghost predicate Leads(items: seq<Item>, c: seq<int>, ids: seq<int>, x: int, d: seq<int>) {
    IsPath(items, d) && |c| < |d| && c == d[..|c|] && d[|c|] in ids && d[|d| - 1] == x
  }

  lemma {:induction false} FlatGrow(items: seq<Item>, c: seq<int>, ids: seq<int>, x: int)
    requires Distinct(items) && Extends(items, c, ids)
    ensures x in Flat(Grow(items, c, ids)) <==> Below(items, c, ids, x)
    decreases Room(items, c), |ids|
  {
    if ids != [] {
      var most := ids[..|ids| - 1];
      var k := ids[|ids| - 1];
      LessRoom(items, c, k);
      FlatGrow(items, c, most, x);
      FlatGrow(items, c + [k], WithParent(items, Some(k)), x);
      FlatLast(items, c, ids);
      hide Grow, Flat, IsPath, Distinct;
      BelowLast(items, c, ids, x);
    }
  }

  lemma FlatLast(items: seq<Item>, c: seq<int>, ids: seq<int>)
    requires Distinct(items) && Extends(items, c, ids) && ids != []
    ensures var k := ids[|ids| - 1];
      && Extends(items, c + [k], WithParent(items, Some(k)))
      && Flat(Grow(items, c, ids)) ==
         Flat(Grow(items, c, ids[..|ids| - 1])) + [k] + Flat(Grow(items, c + [k], WithParent(items, Some(k))))
  {
    LessRoom(items, c, ids[|ids| - 1]);
    hide Extends, WithParent;
    var most := Grow(items, c, ids[..|ids| - 1]);
    var all := Grow(items, c, ids);
    assert all[..|all| - 1] == most;
  }

  lemma BelowLast(items: seq<Item>, c: seq<int>, ids: seq<int>, x: int)
    requires ids != [] && Extends(items, c, ids)
    ensures var (most, k) := (ids[..|ids| - 1], ids[|ids| - 1]);
      Below(items, c, ids, x) <==>
        Below(items, c, most, x) || x == k || Below(items, c + [k], WithParent(items, Some(k)), x)
  {
    var (most, k) := (ids[..|ids| - 1], ids[|ids| - 1]);
    assert IsPath(items, c + [k]);
    if Below(items, c, ids, x) {
      var d :| Leads(items, c, ids, x, d);
      if d[|c|] in most {
        assert Leads(items, c, most, x, d);
      } else if |d| > |c| + 1 {
        assert d[|c|] == k;
        assert Item(d[|c| + 1], Some(d[|c|])) in items;
        assert d[..|c| + 1] == c + [k];
        assert Leads(items, c + [k], WithParent(items, Some(k)), x, d);
      }
    }
    if Below(items, c, most, x) {
      var d :| Leads(items, c, most, x, d);
      assert Leads(items, c, ids, x, d);
    }
    if x == k {
      assert Leads(items, c, ids, x, c + [k]);
    }
    if Below(items, c + [k], WithParent(items, Some(k)), x) {
      var d :| Leads(items, c + [k], WithParent(items, Some(k)), x, d);
      assert d[..|c|] == (c + [k])[..|c|] && d[|c|] == (c + [k])[|c|];
      assert Leads(items, c, ids, x, d);
    }
  }

  // ---------------------------------------------------------------- once each

  lemma {:induction false} WithParentOnce(items: seq<Item>, parent: Option<int>)
    requires Distinct(items)
    ensures NoRepeats(WithParent(items, parent))
  {
    if items != [] {
      var most := items[..|items| - 1];
      var last := items[|items| - 1];
      WithParentOnce(most, parent);
      forall i | 0 <= i < |WithParent(most, parent)| ensures WithParent(most, parent)[i] != last.id {
        assert Item(WithParent(most, parent)[i], parent) in most;
      }
    }
  }

  lemma {:induction false} TopsOnce(items: seq<Item>, some: seq<Item>)
    requires Distinct(some)
    ensures NoRepeats(TopsAmong(items, some))
  {
    if some != [] {
      var most := some[..|some| - 1];
      var last := some[|some| - 1];
      TopsOnce(items, most);
      var tops := TopsAmong(items, most);
      forall i | 0 <= i < |tops| ensures tops[i] != last.id {
        assert tops[i] in tops;
        var p :| Item(tops[i], p) in most;
      }
    }
  }

  lemma {:induction false} GrowOnce(items: seq<Item>, c: seq<int>, ids: seq<int>)
    requires Distinct(items) && Extends(items, c, ids) && NoRepeats(ids)
    ensures NoRepeats(Flat(Grow(items, c, ids)))
    decreases Room(items, c), |ids|
  {
    if ids != [] {
      var most := ids[..|ids| - 1];
      var k := ids[|ids| - 1];
      LessRoom(items, c, k);
      GrowOnce(items, c, most);
      WithParentOnce(items, Some(k));
      GrowOnce(items, c + [k], WithParent(items, Some(k)));
      FlatLast(items, c, ids);
      var (left, right) := (Flat(Grow(items, c, most)), Flat(Grow(items, c + [k], WithParent(items, Some(k)))));
      forall x ensures !(x in left && (x == k || x in right)) && !(x == k && x in right) {
        FlatGrow(items, c, most, x);
        FlatGrow(items, c + [k], WithParent(items, Some(k)), x);
        Apart(items, c, ids, x);
      }
      hide Grow, Flat, Extends, WithParent;
      JoinedOnce(left, k, right);
    }
  }

  lemma JoinedOnce(left: seq<int>, k: int, right: seq<int>)
    requires NoRepeats(left) && NoRepeats(right)
    requires forall x :: !(x in left && (x == k || x in right)) && !(x == k && x in right)
    ensures NoRepeats(left + [k] + right)
  {
    var s := left + [k] + right;
    forall i, j | 0 <= i < j < |s| ensures s[i] != s[j] {
      assert i < |left| ==> s[i] in left;
      assert j > |left| ==> s[j] in right;
    }
  }

  /** The subtree of the last node and the rest share nothing. */
  lemma Apart(items: seq<Item>, c: seq<int>, ids: seq<int>, x: int)
    requires Distinct(items) && Extends(items, c, ids) && NoRepeats(ids) && ids != []
    ensures var (most, k) := (ids[..|ids| - 1], ids[|ids| - 1]);
      var beneath := Below(items, c + [k], WithParent(items, Some(k)), x);
      !(Below(items, c, most, x) && (x == k || beneath)) && !(x == k && beneath)
  {
    var (most, k) := (ids[..|ids| - 1], ids[|ids| - 1]);
    var beneath := Below(items, c + [k], WithParent(items, Some(k)), x);
    assert IsPath(items, c + [k]);
    hide IsPath, Distinct;
    if beneath {
      var e :| Leads(items, c + [k], WithParent(items, Some(k)), x, e);
      assert e[|c|] == (c + [k])[|c|];
      if x == k { OnePath(items, e, c + [k]); }
      if Below(items, c, most, x) {
        var d :| Leads(items, c, most, x, d);
        OnePath(items, d, e);
      }
    } else if x == k && Below(items, c, most, x) {
      var d :| Leads(items, c, most, x, d);
      OnePath(items, d, c + [k]);
    }
  }

  // ---------------------------------------------------------------- the promises

  /** The forest contains each grounded node exactly once, and no other. */
  lemma ForestHoldsGrounded(items: seq<Item>)
    requires Distinct(items)
    ensures NoRepeats(Flat(Forest(items)))
    ensures forall x :: x in Flat(Forest(items)) <==> Grounded(items, x)
  {
    TopsExtend(items);
    TopsOnce(items, items);
    GrowOnce(items, [], Tops(items));
    forall x ensures x in Flat(Forest(items)) <==> Grounded(items, x) {
      FlatGrow(items, [], Tops(items), x);
      if Grounded(items, x) {
        var d :| IsPath(items, d) && d[|d| - 1] == x;
        assert Leads(items, [], Tops(items), x, d);
      }
    }
  }

  /** A node of the list is grounded exactly when climbing from it never comes back. */
  lemma GroundedIffNotCyclic(items: seq<Item>, x: int)
    requires Distinct(items) && x in Ids(items)
    ensures Grounded(items, x) <==> !Cyclic(items, x)
  {
    if !Grounded(items, x) {
      NotGroundedClimbs(items, [x]);
    } else {
      var d :| IsPath(items, d) && d[|d| - 1] == x;
      forall e, i, j | Climb(items, e) && 0 <= i < j < |e| && e[0] == x ensures e[i] != e[j] {
        ClimbFollowsPath(items, d, e, i);
        ClimbFollowsPath(items, d, e, j);
        PathIsSimple(items, d, |d| - 1 - j, |d| - 1 - i);
      }
    }
  }

  lemma {:induction false} ClimbFollowsPath(items: seq<Item>, d: seq<int>, e: seq<int>, i: nat)
    requires Distinct(items) && IsPath(items, d) && Climb(items, e) && e != [] && e[0] == d[|d| - 1] && i < |e|
    ensures i < |d| && e[i] == d[|d| - 1 - i]
  {
    if i > 0 {
      ClimbFollowsPath(items, d, e, i - 1);
      var y := e[i - 1];
      assert Item(e[i - 1], Some(e[i])) in items;
      if i == |d| {
        TopHasNoParent(items, y, e[i]);
      } else {
        assert Item(d[|d| - i], Some(d[|d| - i - 1])) in items;
        SameItem(items, Item(y, Some(e[i])), Item(d[|d| - i], Some(d[|d| - i - 1])));
      }
    }
  }

  /** Climbing from an ungrounded node goes on until it repeats itself. */
  lemma {:induction false} NotGroundedClimbs(items: seq<Item>, e: seq<int>)
    requires Distinct(items) && Climb(items, e) && e != [] && NoRepeats(e) && !Grounded(items, e[0])
    ensures Cyclic(items, e[0])
    decreases Room(items, e)
  {
    var y := e[|e| - 1];
    var i :| 0 <= i < |items| && items[i].id == y;
    var item := items[i];
    assert item in items && item == Item(y, item.parent);
    if Top(items, item) {
      TopGrounds(items, e, item.parent);
    } else {
      ClimbOn(items, e, item.parent.value);
      hide Climb, Cyclic, Grounded, Ids, NoRepeats;
      if item.parent.value !in e { NotGroundedClimbs(items, e + [item.parent.value]); }
    }
  }

  /** One more step up either closes a circle or finds a node not yet passed. */
  lemma ClimbOn(items: seq<Item>, e: seq<int>, z: int)
    requires Climb(items, e) && e != [] && NoRepeats(e) && Item(e[|e| - 1], Some(z)) in items && z in Ids(items)
    ensures Climb(items, e + [z])
    ensures z in e ==> Cyclic(items, e[0])
    ensures z !in e ==> NoRepeats(e + [z]) && Room(items, e + [z]) < Room(items, e)
  {
    hide Room, Ids;
    var e' := e + [z];
    assert Climb(items, e') by {
      forall i | 0 <= i < |e'| - 1 ensures Item(e'[i], Some(e'[i + 1])) in items {
        assert i < |e| - 1 ==> Item(e[i], Some(e[i + 1])) in items;
      }
    }
    if z in e {
      var j :| 0 <= j < |e| && e[j] == z;
      assert e'[j] == e'[|e|] && e'[0] == e[0];
    } else {
      RoomShrinks(items, e, z);
    }
  }

  lemma RoomShrinks(items: seq<Item>, e: seq<int>, z: int)
    requires z in Ids(items) && z !in e
    ensures Room(items, e + [z]) < Room(items, e)
  {
    hide Ids;
    assert Ids(items) - Elements(e + [z]) == (Ids(items) - Elements(e)) - {z};
  }

  lemma TopGrounds(items: seq<Item>, e: seq<int>, p: Option<int>)
    requires Climb(items, e) && e != [] && Item(e[|e| - 1], p) in items && Top(items, Item(e[|e| - 1], p))
    ensures Grounded(items, e[0])
  {
    var y := e[|e| - 1];
    assert TopId(items, y);
    assert IsPath(items, [y]);
    DescendToStart(items, e, [y], |e| - 1);
  }

  lemma {:induction false} DescendToStart(items: seq<Item>, e: seq<int>, d: seq<int>, i: nat)
    requires Climb(items, e) && i < |e| && IsPath(items, d) && d[|d| - 1] == e[i]
    ensures Grounded(items, e[0])
    decreases i
  {
    if i > 0 {
      assert Item(e[i - 1], Some(e[i])) in items;
      var d' := d + [e[i - 1]];
      assert d'[0] == d[0];
      assert IsPath(items, d');
      DescendToStart(items, e, d', i - 1);
    }
  }

  /** When no chain of parents is cyclic, the forest is a permutation of the list. */
  lemma AcyclicForestIsPermutation(items: seq<Item>)
    requires Distinct(items) && forall x :: x in Ids(items) ==> !Cyclic(items, x)
    ensures multiset(Flat(Forest(items))) == multiset(IdList(items))
  {
    hide Flat, Forest, Cyclic, Grounded;
    ForestHoldsGrounded(items);
    forall x ensures x in Flat(Forest(items)) <==> x in IdList(items) {
      if x in IdList(items) {
        var i :| 0 <= i < |items| && IdList(items)[i] == x;
        assert items[i].id == x;
        GroundedIffNotCyclic(items, x);
      }
      if x in Flat(Forest(items)) { GroundedInIds(items, x); }
    }
    SameElements(Flat(Forest(items)), IdList(items));
  }

  function IdList(items: seq<Item>): seq<int> {
    seq(|items|, i requires 0 <= i < |items| => items[i].id)
  }

  lemma GroundedInIds(items: seq<Item>, x: int)
    requires Grounded(items, x)
    ensures x in Ids(items) && x in IdList(items)
  {
    var d :| IsPath(items, d) && d[|d| - 1] == x;
    PathInIds(items, d, |d| - 1);
    var i :| 0 <= i < |items| && items[i].id == x;
    assert IdList(items)[i] == x;
  }

  // ---------------------------------------------------------------- the two builders

  /** Every parent named is in the list. */
  ghost predicate NoneMissing(items: seq<Item>) {
    forall item :: item in items && item.parent.Some? ==> item.parent.value in Ids(items)
  }

  /** Every top node has a null parent, or adds one more tree. */
  lemma {:induction false} TopsAreNull(items: seq<Item>, some: seq<Item>)
    ensures if forall item :: item in some && item.parent.Some? ==> item.parent.value in Ids(items)
      then TopsAmong(items, some) == WithParent(some, None)
      else |TopsAmong(items, some)| > |WithParent(some, None)|
  {
    if some != [] {
      var most, last := some[..|some| - 1], some[|some| - 1];
      assert some == most + [last];
      TopsAreNull(items, most);
      assert last in some;
    }
  }

  /** The recursive builder, started from null, builds the same forest exactly when no parent is missing. */
  lemma NullForestIsForest(items: seq<Item>)
    requires Distinct(items)
    ensures NullForest(items) == Forest(items) <==> NoneMissing(items)
  {
    hide Grow;
    TopsAreNull(items, items);
  }

  // ---------------------------------------------------------------- order

  /** A node with the first id stands before one with the second. */
  ghost predicate Before(items: seq<Item>, x: int, y: int) {
    exists i, j :: 0 <= i < j < |items| && items[i].id == x && items[j].id == y
  }

  /** The ids stand in the order of the list. */
  ghost predicate InListOrder(items: seq<Item>, ids: seq<int>) {
    forall a, b :: 0 <= a < b < |ids| ==> Before(items, ids[a], ids[b])
  }

  lemma BeforeMore(items: seq<Item>, item: Item, x: int, y: int)
    requires Before(items, x, y) || (x in Ids(items) && y == item.id)
    ensures Before(items + [item], x, y)
  {
    var more := items + [item];
    if Before(items, x, y) {
      var i, j :| 0 <= i < j < |items| && items[i].id == x && items[j].id == y;
      assert more[i].id == x && more[j].id == y;
    } else {
      var i :| 0 <= i < |items| && items[i].id == x;
      assert more[i].id == x && more[|items|].id == y;
    }
  }

  lemma AppendInOrder(items: seq<Item>, item: Item, ids: seq<int>)
    requires InListOrder(items, ids) && forall x :: x in ids ==> x in Ids(items)
    ensures InListOrder(items + [item], ids) && InListOrder(items + [item], ids + [item.id])
  {
    hide Before;
    var longer := ids + [item.id];
    forall a, b | 0 <= a < b < |longer| ensures Before(items + [item], longer[a], longer[b]) {
      assert ids[a] in ids;
      BeforeMore(items, item, longer[a], longer[b]);
    }
    forall a, b | 0 <= a < b < |ids| ensures Before(items + [item], ids[a], ids[b]) {
      assert longer[a] == ids[a] && longer[b] == ids[b];
    }
  }

  lemma {:induction false} WithParentInOrder(items: seq<Item>, parent: Option<int>)
    ensures InListOrder(items, WithParent(items, parent))
  {
    if items != [] {
      var most, last := items[..|items| - 1], items[|items| - 1];
      WithParentInOrder(most, parent);
      hide InListOrder;
      assert items == most + [last];
      AppendInOrder(most, last, WithParent(most, parent));
    }
  }

  lemma {:induction false} TopsInOrder(items: seq<Item>, some: seq<Item>)
    ensures InListOrder(some, TopsAmong(items, some))
  {
    if some != [] {
      var most, last := some[..|some| - 1], some[|some| - 1];
      TopsInOrder(items, most);
      hide InListOrder;
      assert some == most + [last];
      AppendInOrder(most, last, TopsAmong(items, most));
    }
  }

  function RootIds(trees: seq<Tree>): seq<int> {
    seq(|trees|, i requires 0 <= i < |trees| => trees[i].id)
  }

  /** In the trees every node has exactly the nodes that name it as their parent for children, in list order. */
  ghost predicate Spelled(items: seq<Item>, trees: seq<Tree>)
    decreases trees
  {
    forall t :: t in trees ==>
      && (forall x :: x in RootIds(t.children) <==> Item(x, Some(t.id)) in items)
      && InListOrder(items, RootIds(t.children))
      && Spelled(items, t.children)
  }

  lemma {:induction false} GrowSpelled(items: seq<Item>, c: seq<int>, ids: seq<int>)
    requires Distinct(items) && Extends(items, c, ids)
    ensures RootIds(Grow(items, c, ids)) == ids && Spelled(items, Grow(items, c, ids))
    decreases Room(items, c), |ids|
  {
    hide Distinct, IsPath, InListOrder, Room;
    if ids != [] {
      var most, x := ids[..|ids| - 1], ids[|ids| - 1];
      LessRoom(items, c, x);
      GrowSpelled(items, c, most);
      GrowSpelled(items, c + [x], WithParent(items, Some(x)));
      WithParentInOrder(items, Some(x));
      var t := Tree(x, Grow(items, c + [x], WithParent(items, Some(x))));
      assert Grow(items, c, ids) == Grow(items, c, most) + [t];
      hide Grow, RootIds, Spelled, Extends;
      SpelledSnoc(items, Grow(items, c, most), t);
      assert ids == most + [x];
    }
  }

  lemma SpelledSnoc(items: seq<Item>, trees: seq<Tree>, t: Tree)
    requires Spelled(items, trees) && Spelled(items, t.children)
    requires InListOrder(items, RootIds(t.children))
    requires forall x :: x in RootIds(t.children) <==> Item(x, Some(t.id)) in items
    ensures Spelled(items, trees + [t]) && RootIds(trees + [t]) == RootIds(trees) + [t.id]
  {
    hide InListOrder;
  }

  /** The forest has for roots the nodes whose parent is null or missing, and under every node its children; roots and
      children stand in the order of the list. */
  lemma ForestIsSpelled(items: seq<Item>)
    requires Distinct(items)
    ensures var roots := RootIds(Forest(items));
      && (forall x :: x in roots <==> exists p :: Item(x, p) in items && (p.None? || p.value !in Ids(items)))
      && InListOrder(items, roots) && Spelled(items, Forest(items))
  {
    TopsExtend(items);
    GrowSpelled(items, [], Tops(items));
    TopsInOrder(items, items);
    hide Spelled, InListOrder, Grow;
    forall x ensures x in Tops(items) <==> exists p :: Item(x, p) in items && (p.None? || p.value !in Ids(items)) {
      if p :| Item(x, p) in items && (p.None? || p.value !in Ids(items)) {
        assert Top(items, Item(x, p));
      }
      if x in Tops(items) {
        var p :| Item(x, p) in items && Top(items, Item(x, p));
      }
    }
  }

  /** The forest grown from null has for roots the nodes with a null parent. */
  lemma NullForestIsSpelled(items: seq<Item>)
    requires Distinct(items)
    ensures var roots := RootIds(NullForest(items));
      && (forall x :: x in roots <==> Item(x, None) in items)
      && InListOrder(items, roots) && Spelled(items, NullForest(items))
  {
    TopsExtend(items);
    GrowSpelled(items, [], WithParent(items, None));
    WithParentInOrder(items, None);
    hide Spelled, InListOrder, Grow;
  }
}
