/** Nesting undoes joining. */
module JoinProofs {
  import opened Wrappers
  import opened JoinModel
  import opened LeftJoin

  // ---------------------------------------------------------------- collecting and deduplicating

  lemma {:induction false} CollectAppend(a: seq<Row>, b: seq<Row>, sel: Selector)
    ensures Collect(a + b, sel) == Collect(a, sel) + Collect(b, sel)
  {
    hide Select;
    if b == [] {
      assert a + b == a;
    } else {
      var init, last := b[..|b| - 1], b[|b| - 1];
      assert (a + b)[..|a + b| - 1] == a + init && (a + b)[|a + b| - 1] == last;
      CollectAppend(a, init, sel);
      assert Collect(a, sel) + Collect(init, sel) + Select(sel, last) ==
          Collect(a, sel) + (Collect(init, sel) + Select(sel, last));
    }
  }

  lemma {:induction false} InCollect(rows: seq<Row>, sel: Selector, o: Obj)
    ensures o in Collect(rows, sel) <==> exists i :: 0 <= i < |rows| && o in Select(sel, rows[i])
  {
    if rows != [] {
      var init := rows[..|rows| - 1];
      InCollect(init, sel, o);
      if o in Collect(init, sel) {
        var i :| 0 <= i < |init| && o in Select(sel, init[i]);
        assert o in Select(sel, rows[i]);
      }
    }
  }

  lemma UniqueSnoc(a: seq<Obj>, o: Obj)
    ensures Unique(a + [o]) == if o.id in Ids(a) then Unique(a) else Unique(a) + [o]
  {
    assert (a + [o])[..|a + [o]| - 1] == a;
  }

  /** Objects whose ids are already there add nothing. */
  lemma {:induction false} UniqueKnown(a: seq<Obj>, b: seq<Obj>)
    requires Ids(b) <= Ids(a)
    ensures Unique(a + b) == Unique(a)
  {
    if b == [] {
      assert a + b == a;
    } else {
      var init, last := b[..|b| - 1], b[|b| - 1];
      assert Ids(init) <= Ids(b) && last.id in Ids(b);
      UniqueKnown(a, init);
      assert a + b == (a + init) + [last];
      UniqueSnoc(a + init, last);
    }
  }

  lemma {:induction false} UniqueDistinct(b: seq<Obj>)
    requires DistinctIds(b)
    ensures Unique(b) == b
  {
    if b != [] {
      var init, last := b[..|b| - 1], b[|b| - 1];
      UniqueDistinct(init);
      assert b == init + [last];
      UniqueSnoc(init, last);
    }
  }

  lemma {:induction false} UniqueIsDistinct(b: seq<Obj>)
    ensures DistinctIds(Unique(b))
  {
    if b != [] {
      UniqueIsDistinct(b[..|b| - 1]);
      var rest := Unique(b[..|b| - 1]);
      assert forall i :: 0 <= i < |rest| ==> rest[i].id in Ids(rest);
    }
  }

  lemma UniqueShort(x: seq<Obj>, y: seq<Obj>, s: seq<Obj>)
    requires Unique(x) == Unique(y) && |s| <= 1
    ensures Unique(x + s) == Unique(y + s)
  {
    if s == [] {
      assert x + s == x && y + s == y;
    } else {
      assert s == [s[0]];
      UniqueSnoc(x, s[0]);
      UniqueSnoc(y, s[0]);
    }
  }

  // ---------------------------------------------------------------- later columns do not matter

  function Width(sel: Selector): nat {
    if sel.Head? then 1 else if sel.c < sel.p then sel.p + 1 else sel.c + 1
  }

  lemma SelectShort(sel: Selector, row: Row)
    ensures |Select(sel, row)| <= 1
  {
  }

  lemma SelectExtended(sel: Selector, row: Row, cell: Option<Obj>)
    requires Width(sel) <= |row|
    ensures Select(sel, row + [cell]) == Select(sel, row)
  {
  }

  /** Each cell added repeats what the row contributes. */
  lemma ExtendRowRepeats(row: Row, cells: seq<Option<Obj>>, sel: Selector)
    requires Width(sel) <= |row| && cells != []
    ensures Collect(ExtendRow(row, cells), sel) ==
            Collect(ExtendRow(row, cells[..|cells| - 1]), sel) + Select(sel, row)
  {
    var last := cells[|cells| - 1];
    SelectExtended(sel, row, last);
    CollectAppend(ExtendRow(row, cells[..|cells| - 1]), [row + [last]], sel);
    assert [row + [last]][..0] == [];
    hide Select;
    assert Collect([row + [last]], sel) == Select(sel, row);
  }

  /** A row extended by one or more cells contributes what it did before, as often. */
  lemma {:induction false} ExtendRowStutters(x: seq<Obj>, row: Row, cells: seq<Option<Obj>>, sel: Selector)
    requires Width(sel) <= |row| && cells != []
    ensures Unique(x + Collect(ExtendRow(row, cells), sel)) == Unique(x + Select(sel, row))
  {
    var init := cells[..|cells| - 1];
    var s := Select(sel, row);
    ExtendRowRepeats(row, cells, sel);
    hide Select, Unique, Width;
    var before := Collect(ExtendRow(row, init), sel);
    assert x + (before + s) == (x + before) + s;
    if init == [] {
      assert x + before == x;
    } else {
      hide Collect, ExtendRow;
      ExtendRowStutters(x, row, init, sel);
      assert Ids(x + s) == Ids(x) + Ids(s);
      UniqueKnown(x + before, s);
    }
  }

  lemma {:induction false} ExtendRowsStutters(db: Related, sch: Schema, rows: seq<Row>, width: nat, sel: Selector)
    requires 0 < width < |sch.cols| && Wide(rows, width) && Width(sel) <= width
    ensures Unique(Collect(ExtendRows(db, sch, rows, width), sel)) == Unique(Collect(rows, sel))
  {
    if rows != [] {
      var init, last := rows[..|rows| - 1], rows[|rows| - 1];
      hide Unique, Select, Cells, Width;
      ExtendRowsStutters(db, sch, init, width, sel);
      var x := Collect(ExtendRows(db, sch, init, width), sel);
      CollectAppend(ExtendRows(db, sch, init, width), ExtendRow(last, Cells(db, sch, last)), sel);
      ExtendRowStutters(x, last, Cells(db, sch, last), sel);
      SelectShort(sel, last);
      UniqueShort(x, Collect(init, sel), Select(sel, last));
    }
  }

  /** Joining further columns does not change what is read from the earlier ones. */
  lemma {:induction false} JoinStable(db: Related, sch: Schema, mains: seq<Obj>, sel: Selector, lo: nat, hi: nat)
    requires 1 <= lo <= hi <= |sch.cols| && Width(sel) <= lo
    ensures Unique(Collect(Join(db, sch, mains, hi), sel)) == Unique(Collect(Join(db, sch, mains, lo), sel))
    decreases hi
  {
    hide Unique, Collect, ExtendRows, Width;
    if lo < hi {
      JoinStable(db, sch, mains, sel, lo, hi - 1);
      ExtendRowsStutters(db, sch, Join(db, sch, mains, hi - 1), hi - 1, sel);
    }
  }

  // ---------------------------------------------------------------- the column that adds the children

  function Present(cells: seq<Option<Obj>>): seq<Obj> {
    if cells == [] then []
    else Present(cells[..|cells| - 1]) + (if cells[|cells| - 1].Some? then [cells[|cells| - 1].value] else [])
  }

  lemma {:induction false} PresentAll(kids: seq<Obj>, cells: seq<Option<Obj>>)
    requires |cells| == |kids| && forall i :: 0 <= i < |kids| ==> cells[i] == Some(kids[i])
    ensures Present(cells) == kids
  {
    if kids != [] {
      PresentAll(kids[..|kids| - 1], cells[..|cells| - 1]);
      assert kids == kids[..|kids| - 1] + [kids[|kids| - 1]];
    }
  }

  /** A row of `main` that holds the parent `pk` in column `p`. */
  predicate Holds(row: Row, p: nat, main: Key, pk: int) {
    Select(Child(p, p, main, Id(pk)), row) != []
  }

  lemma {:induction false} ExtendRowCollects(row: Row, cells: seq<Option<Obj>>, p: nat, main: Key, pk: int)
    requires p < |row|
    ensures Collect(ExtendRow(row, cells), Child(|row|, p, main, Id(pk))) ==
      if Holds(row, p, main, pk) then Present(cells) else []
  {
    if cells != [] {
      var init, last := cells[..|cells| - 1], cells[|cells| - 1];
      var sel := Child(|row|, p, main, Id(pk));
      ExtendRowCollects(row, init, p, main, pk);
      CollectAppend(ExtendRow(row, init), [row + [last]], sel);
      assert [row + [last]][..0] == [];
      assert Collect([row + [last]], sel) == Select(sel, row + [last]);
    }
  }

  /** A column of class `cls` in position `c`, hanging from column `p`. */
  ghost predicate ColumnOf(sch: Schema, cls: string, c: nat, p: nat) {
    && c < |sch.cols| && sch.cols[c] == cls && p < c
    && ParentOf(sch.rels, cls).Some? && ParentOf(sch.rels, cls).value in sch.cols
    && Col(sch, ParentOf(sch.rels, cls).value) == p
  }

  lemma RowCells(db: Related, sch: Schema, row: Row, cls: string, p: nat, main: Key, pk: int)
    requires 0 < |row| < |sch.cols| && ColumnOf(sch, cls, |row|, p) && Holds(row, p, main, pk)
    ensures Present(Cells(db, sch, row)) == Children(db, cls, pk)
  {
    var kids := Children(db, cls, pk);
    if kids != [] { PresentAll(kids, Cells(db, sch, row)); }
  }

  lemma {:induction false} ExtendRowsCollects(db: Related, sch: Schema, rows: seq<Row>, cls: string, c: nat, p: nat,
      main: Key, pk: int)
    requires Sound(db) && 0 < c < |sch.cols| && ColumnOf(sch, cls, c, p) && Wide(rows, c)
    ensures Unique(Collect(ExtendRows(db, sch, rows, c), Child(c, p, main, Id(pk)))) ==
            if Collect(rows, Child(p, p, main, Id(pk))) != [] then Children(db, cls, pk) else []
  {
    if rows != [] {
      hide Unique, Cells, ColumnOf, Select;
      var init, last := rows[..|rows| - 1], rows[|rows| - 1];
      var sel := Child(c, p, main, Id(pk));
      var kids := Children(db, cls, pk);
      ExtendRowsCollects(db, sch, init, cls, c, p, main, pk);
      var x := Collect(ExtendRows(db, sch, init, c), sel);
      CollectAppend(ExtendRows(db, sch, init, c), ExtendRow(last, Cells(db, sch, last)), sel);
      assert p < c by { ParentBefore(sch, cls, c, p); }
      ExtendRowCollects(last, Cells(db, sch, last), p, main, pk);
      if Holds(last, p, main, pk) {
        RowCells(db, sch, last, cls, p, main, pk);
        AddChildren(x, kids);
      } else {
        assert x + [] == x;
      }
    }
  }

  lemma ParentBefore(sch: Schema, cls: string, c: nat, p: nat)
    requires ColumnOf(sch, cls, c, p)
    ensures p < c
  {
  }

  lemma UniqueEmpty(x: seq<Obj>)
    ensures Unique(x) == [] ==> x == []
  {
    if x != [] { assert x[0].id in Ids(x); }
  }

  /** The first copy of the children is kept, later copies are dropped. */
  lemma AddChildren(x: seq<Obj>, kids: seq<Obj>)
    requires DistinctIds(kids) && (Unique(x) == kids || Unique(x) == [])
    ensures Unique(x + kids) == kids
  {
    if Unique(x) == kids {
      assert Ids(x) == Ids(Unique(x));
      UniqueKnown(x, kids);
    } else {
      UniqueEmpty(x);
      assert x + kids == kids;
      UniqueDistinct(kids);
    }
  }

  // ---------------------------------------------------------------- groups of the joined rows

  /** Under a main object whose rows hold the parent, the rows group exactly the parent's children. */
  lemma GroupIsChildren(db: Related, sch: Schema, mains: seq<Obj>, main: Key, c: nat, p: nat, pk: int)
    requires WellFormed(sch) && Sound(db) && 1 <= c < |sch.cols| && ColumnOf(sch, sch.cols[c], c, p)
    requires Collect(Join(db, sch, mains, |sch.cols|), Child(p, p, main, Id(pk))) != []
    ensures Unique(Collect(Join(db, sch, mains, |sch.cols|), Child(c, p, main, Id(pk)))) ==
      Children(db, sch.cols[c], pk)
  {
    hide Unique, Collect, ExtendRows, WellFormed, Sound;
    assert p < c by { ParentBefore(sch, sch.cols[c], c, p); }
    var n := |sch.cols|;
    JoinStable(db, sch, mains, Child(c, p, main, Id(pk)), c + 1, n);
    JoinStable(db, sch, mains, Child(p, p, main, Id(pk)), c, n);
    NonEmptyUnique(Collect(Join(db, sch, mains, n), Child(p, p, main, Id(pk))),
        Collect(Join(db, sch, mains, c), Child(p, p, main, Id(pk))));
    ExtendRowsCollects(db, sch, Join(db, sch, mains, c), sch.cols[c], c, p, main, pk);
  }

  lemma NonEmptyUnique(x: seq<Obj>, y: seq<Obj>)
    requires Unique(x) == Unique(y) && x != []
    ensures y != []
  {
    assert x[0].id in Ids(x);
    assert Ids(Unique(x)) == Ids(Unique(y));
  }

  // ---------------------------------------------------------------- nesting undoes joining

  /** Some row of the main object holds an object with this id in column `c`. */
  ghost predicate Appears(rows: seq<Row>, main: Key, c: nat, id: int) {
    Collect(rows, Child(c, c, main, Id(id))) != []
  }

  lemma CollectedAppears(rows: seq<Row>, c: nat, p: nat, main: Key, pk: int, o: Obj)
    requires o in Collect(rows, Child(c, p, main, Id(pk)))
    ensures Appears(rows, main, c, o.id)
  {
    InCollect(rows, Child(c, p, main, Id(pk)), o);
    InCollect(rows, Child(c, c, main, Id(o.id)), o);
  }

  /** What the rows must say about groups for the nesting to rebuild the trees. */
  ghost predicate GroupsAreChildren(db: Related, sch: Schema, rows: seq<Row>) {
    forall main, c: nat, p: nat, pk ::
      1 <= c < |sch.cols| && ColumnOf(sch, sch.cols[c], c, p) && Appears(rows, main, p, pk) ==>
        Unique(Collect(rows, Child(c, p, main, Id(pk)))) == Children(db, sch.cols[c], pk)
  }

  lemma JoinGroups(db: Related, sch: Schema, mains: seq<Obj>)
    requires WellFormed(sch) && Sound(db)
    ensures GroupsAreChildren(db, sch, Join(db, sch, mains, |sch.cols|))
  {
    hide Ordered, Sound, Unique, Collect, ColumnOf;
    var rows := Join(db, sch, mains, |sch.cols|);
    forall main, c: nat, p: nat, pk | 1 <= c < |sch.cols| && ColumnOf(sch, sch.cols[c], c, p)
        && Appears(rows, main, p, pk)
      ensures Unique(Collect(rows, Child(c, p, main, Id(pk)))) == Children(db, sch.cols[c], pk)
    {
      GroupIsChildren(db, sch, mains, main, c, p, pk);
    }
  }

  /** The target of a relationship hangs from its source. */
  lemma TargetColumn(sch: Schema, rel: Rel, c: nat)
    requires WellFormed(sch) && rel in sch.rels && c < |sch.cols| && rel.source == sch.cols[c]
    ensures rel.target in sch.cols && 1 <= Col(sch, rel.target)
    ensures ColumnOf(sch, rel.target, Col(sch, rel.target), c)
    ensures ParentOf(sch.rels, rel.target) == Some(sch.cols[c])
    ensures Col(sch, sch.cols[c]) == c
  {
    var parent := ParentOf(sch.rels, rel.target);
    var r :| r in sch.rels && r.target == rel.target && r.source == parent.value;
    var i :| 0 <= i < |sch.rels| && sch.rels[i] == r;
    var j :| 0 <= j < |sch.rels| && sch.rels[j] == rel;
    assert i == j;
    assert Col(sch, rel.source) < Col(sch, rel.target);
  }

  lemma BuildIsTree(db: Related, sch: Schema, rows: seq<Row>, main: Key, rel: Rel, c: nat, pk: int)
    requires WellFormed(sch) && GroupsAreChildren(db, sch, rows)
    requires rel in sch.rels && c < |sch.cols| && rel.source == sch.cols[c] && Appears(rows, main, c, pk)
    ensures rel.target in sch.cols && Acyclic(sch.rels)
    ensures Build(sch, rows, main, rel.target, Id(pk)) == Trees(db, sch, rel.target, Children(db, rel.target, pk))
    decreases |sch.cols| - c, 0, 0
  {
    TargetColumn(sch, rel, c);
    OrderedIsAcyclic(sch);
    hide WellFormed, Acyclic, Unique, Collect, Appears, Children;
    var t := Col(sch, rel.target);
    var kids := Children(db, rel.target, pk);
    assert Unique(Group(sch, rows, main, rel.target, Id(pk))) == kids;
    forall i | 0 <= i < |kids| ensures Appears(rows, main, t, kids[i].id) {
      assert kids[i] in Unique(Collect(rows, Child(t, c, main, Id(pk))));
      CollectedAppears(rows, t, c, main, pk, kids[i]);
    }
    BuildNodesAreTrees(db, sch, rows, main, t, kids);
  }

  lemma TreesSnoc(db: Related, sch: Schema, cls: string, objs: seq<Obj>)
    requires Acyclic(sch.rels) && objs != []
    ensures Trees(db, sch, cls, objs) ==
            Trees(db, sch, cls, objs[..|objs| - 1]) + [Tree(db, sch, cls, objs[|objs| - 1])]
  {
    hide Acyclic, Tree, Trees;
  }

  lemma {:induction false} BuildNodesAreTrees(db: Related, sch: Schema, rows: seq<Row>, main: Key, c: nat,
      objs: seq<Obj>)
    requires WellFormed(sch) && GroupsAreChildren(db, sch, rows)
    requires c < |sch.cols| && forall i :: 0 <= i < |objs| ==> Appears(rows, main, c, objs[i].id)
    ensures Acyclic(sch.rels)
    ensures BuildNodes(sch, rows, main, sch.cols[c], objs) == Trees(db, sch, sch.cols[c], objs)
    decreases |sch.cols| - c, 2, |objs|
  {
    OrderedIsAcyclic(sch);
    hide WellFormed, Acyclic, Unique, Collect, Appears, GroupsAreChildren, BuildFields, TreeFields, SubRels, Trees;
    if objs != [] {
      var init, last := objs[..|objs| - 1], objs[|objs| - 1];
      BuildNodesAreTrees(db, sch, rows, main, c, init);
      TreesSnoc(db, sch, sch.cols[c], objs);
      BuildFieldsAreTree(db, sch, rows, main, c, last.id, SubRels(sch.rels, sch.cols[c]));
    }
  }

  lemma {:induction false} BuildFieldsAreTree(db: Related, sch: Schema, rows: seq<Row>, main: Key, c: nat, pk: int,
      rels: seq<Rel>)
    requires WellFormed(sch) && GroupsAreChildren(db, sch, rows)
    requires c < |sch.cols| && Appears(rows, main, c, pk)
    requires forall r :: r in rels ==> r in sch.rels && r.source == sch.cols[c]
    ensures Acyclic(sch.rels)
    ensures BuildFields(sch, rows, main, sch.cols[c], Id(pk), rels) == TreeFields(db, sch, sch.cols[c], pk, rels)
    decreases |sch.cols| - c, 1, |rels|
  {
    OrderedIsAcyclic(sch);
    hide WellFormed, Acyclic, Unique, Collect, Appears, Children;
    if rels != [] {
      var init, last := rels[..|rels| - 1], rels[|rels| - 1];
      BuildFieldsAreTree(db, sch, rows, main, c, pk, init);
      BuildIsTree(db, sch, rows, main, last, c, pk);
    }
  }

  // ---------------------------------------------------------------- the rows hold what was joined

  /** Every cell of a joined row holds a child of the parent in the same row; the first holds a main object. */
  ghost predicate Linked(db: Related, sch: Schema, mains: seq<Obj>, row: Row) {
    && 0 < |row| <= |sch.cols| && row[0].Some? && row[0].value in mains
    && forall c: nat, p: nat :: c < |row| && ColumnOf(sch, sch.cols[c], c, p) && row[c].Some? ==>
         row[p].Some? && row[c].value in Children(db, sch.cols[c], row[p].value.id)
  }

  lemma CellIsChild(db: Related, sch: Schema, row: Row, cell: Option<Obj>, p: nat)
    requires 0 < |row| < |sch.cols| && ColumnOf(sch, sch.cols[|row|], |row|, p)
    requires cell in Cells(db, sch, row) && cell.Some?
    ensures row[p].Some? && cell.value in Children(db, sch.cols[|row|], row[p].value.id)
  {
  }

  lemma CellsLinked(db: Related, sch: Schema, mains: seq<Obj>, row: Row, cell: Option<Obj>)
    requires |row| < |sch.cols| && Linked(db, sch, mains, row) && cell in Cells(db, sch, row)
    ensures Linked(db, sch, mains, row + [cell])
  {
    hide Cells, Children;
    var row' := row + [cell];
    forall c: nat, p: nat | c < |row'| && ColumnOf(sch, sch.cols[c], c, p) && row'[c].Some?
      ensures row'[p].Some? && row'[c].value in Children(db, sch.cols[c], row'[p].value.id)
    {
      if c == |row| { CellIsChild(db, sch, row, cell, p); }
    }
  }

  lemma {:induction false} ExtendRowLinked(db: Related, sch: Schema, mains: seq<Obj>, row: Row, cells: seq<Option<Obj>>)
    requires 0 < |row| < |sch.cols| && Linked(db, sch, mains, row)
    requires forall cell :: cell in cells ==> cell in Cells(db, sch, row)
    ensures forall r :: r in ExtendRow(row, cells) ==> Linked(db, sch, mains, r)
  {
    hide Linked, Cells;
    if cells != [] {
      ExtendRowLinked(db, sch, mains, row, cells[..|cells| - 1]);
      CellsLinked(db, sch, mains, row, cells[|cells| - 1]);
    }
  }

  lemma {:induction false} ExtendRowsLinked(db: Related, sch: Schema, mains: seq<Obj>, rows: seq<Row>, width: nat)
    requires 0 < width < |sch.cols| && Wide(rows, width)
    requires forall r :: r in rows ==> Linked(db, sch, mains, r)
    ensures forall r :: r in ExtendRows(db, sch, rows, width) ==> Linked(db, sch, mains, r)
  {
    hide Linked, Cells;
    if rows != [] {
      var last := rows[|rows| - 1];
      ExtendRowsLinked(db, sch, mains, rows[..|rows| - 1], width);
      ExtendRowLinked(db, sch, mains, last, Cells(db, sch, last));
    }
  }

  lemma {:induction false} JoinLinked(db: Related, sch: Schema, mains: seq<Obj>, width: nat)
    requires 1 <= width <= |sch.cols|
    ensures forall r :: r in Join(db, sch, mains, width) ==> Linked(db, sch, mains, r)
    decreases width
  {
    if width > 1 {
      hide Linked, ExtendRows;
      JoinLinked(db, sch, mains, width - 1);
      ExtendRowsLinked(db, sch, mains, Join(db, sch, mains, width - 1), width - 1);
    }
  }

  // ---------------------------------------------------------------- the main objects

  /** Objects that their ids tell apart have keys that do. */
  lemma {:induction false} MainsAreUnique(objs: seq<Obj>)
    requires forall a, b :: a in objs && b in objs && a.id == b.id ==> a == b
    ensures Mains(objs) == Unique(objs)
  {
    if objs != [] {
      var init, last := objs[..|objs| - 1], objs[|objs| - 1];
      MainsAreUnique(init);
      var rest := Unique(init);
      if last.id in Ids(rest) {
        var o :| o in rest && o.id == last.id;
        assert o == last && KeyOf(o) in Keys(rest);
      } else {
        forall o | o in rest ensures KeyOf(o) != KeyOf(last) { assert o.id in Ids(rest); }
      }
    }
  }

  lemma SameId(objs: seq<Obj>, a: Obj, b: Obj)
    requires DistinctIds(objs) && a in objs && b in objs && a.id == b.id
    ensures a == b
  {
    var i :| 0 <= i < |objs| && objs[i] == a;
    var j :| 0 <= j < |objs| && objs[j] == b;
  }

  lemma HeadIsMain(db: Related, sch: Schema, mains: seq<Obj>, rows: seq<Row>, o: Obj)
    requires sch.cols != [] && (forall r :: r in rows ==> r in Join(db, sch, mains, |sch.cols|))
      && o in Collect(rows, Head)
    ensures o in mains
  {
    JoinLinked(db, sch, mains, |sch.cols|);
    hide Join, Linked;
    InCollect(rows, Head, o);
    var i :| 0 <= i < |rows| && o in Select(Head, rows[i]);
    assert Linked(db, sch, mains, rows[i]);
    RowHead(db, sch, mains, rows[i]);
  }

  lemma RowHead(db: Related, sch: Schema, mains: seq<Obj>, row: Row)
    requires Linked(db, sch, mains, row)
    ensures row != [] && row[0].Some? && row[0].value in mains
  {
  }

  lemma {:induction false} FirstColumn(mains: seq<Obj>, rows: seq<Row>)
    requires |rows| == |mains| && forall i :: 0 <= i < |mains| ==> rows[i] == [Some(mains[i])]
    ensures Collect(rows, Head) == mains
    ensures forall m :: m in mains ==> Appears(rows, KeyOf(m), 0, m.id)
  {
    if mains != [] {
      FirstColumn(mains[..|mains| - 1], rows[..|rows| - 1]);
      assert mains == mains[..|mains| - 1] + [mains[|mains| - 1]];
      forall m | m in mains ensures Appears(rows, KeyOf(m), 0, m.id) {
        var i :| 0 <= i < |mains| && mains[i] == m;
        assert m in Select(Child(0, 0, KeyOf(m), Id(m.id)), rows[i]);
        InCollect(rows, Child(0, 0, KeyOf(m), Id(m.id)), m);
      }
    }
  }

  lemma JoinMains(db: Related, sch: Schema, mains: seq<Obj>)
    requires sch.cols != [] && DistinctIds(mains)
    ensures var rows := Join(db, sch, mains, |sch.cols|);
      Mains(Collect(rows, Head)) == mains && forall m :: m in mains ==> Appears(rows, KeyOf(m), 0, m.id)
  {
    var first := Join(db, sch, mains, 1);
    var rows := Join(db, sch, mains, |sch.cols|);
    FirstColumn(mains, first);
    hide Unique, Mains, Collect, Join, Select, DistinctIds;
    UniqueDistinct(mains);
    JoinStable(db, sch, mains, Head, 1, |sch.cols|);
    forall a, b | a in Collect(rows, Head) && b in Collect(rows, Head) && a.id == b.id ensures a == b {
      HeadIsMain(db, sch, mains, rows, a);
      HeadIsMain(db, sch, mains, rows, b);
      SameId(mains, a, b);
    }
    MainsAreUnique(Collect(rows, Head));
    forall m | m in mains ensures Appears(rows, KeyOf(m), 0, m.id) {
      MainAppears(db, sch, mains, m);
    }
  }

  lemma MainAppears(db: Related, sch: Schema, mains: seq<Obj>, m: Obj)
    requires sch.cols != [] && DistinctIds(mains) && m in mains
    ensures Appears(Join(db, sch, mains, |sch.cols|), KeyOf(m), 0, m.id)
  {
    var first := Join(db, sch, mains, 1);
    FirstColumn(mains, first);
    hide Unique, Collect, Join, Select, DistinctIds;
    var sel := Child(0, 0, KeyOf(m), Id(m.id));
    JoinStable(db, sch, mains, sel, 1, |sch.cols|);
    NonEmptyUnique(Collect(first, sel), Collect(Join(db, sch, mains, |sch.cols|), sel));
  }

  lemma FirstColumnExists(sch: Schema)
    requires WellFormed(sch)
    ensures sch.cols != [] && Acyclic(sch.rels)
  {
    OrderedIsAcyclic(sch);
  }

  lemma NonZeroResultIsTree(db: Related, sch: Schema, rows: seq<Row>, m: Obj)
    requires WellFormed(sch) && GroupsAreChildren(db, sch, rows) && Appears(rows, KeyOf(m), 0, m.id) && m.id != 0
    ensures sch.cols != [] && Acyclic(sch.rels)
    ensures Result(sch, rows, m) == Tree(db, sch, sch.cols[0], m)
  {
    FirstColumnExists(sch);
    hide WellFormed, Acyclic, GroupsAreChildren, Appears;
    BuildFieldsAreTree(db, sch, rows, KeyOf(m), 0, m.id, SubRels(sch.rels, sch.cols[0]));
  }
}
