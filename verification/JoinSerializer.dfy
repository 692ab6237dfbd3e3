/** The serializer as it runs: loops fill the class index and the hierarchy, a recursion reads them. */
module JoinSerializer {
  import opened JoinModel

  /** Children by main object, class and parent id. */
  datatype Slot = Slot(main: Key, cls: string, pk: Key)

  type Hierarchy = map<Slot, seq<Obj>>

  function Lookup(h: Hierarchy, slot: Slot): seq<Obj> {
    if slot in h then h[slot] else []
  }

  /** A class is filed when it has a column after the first and a parent with a column. */
  ghost predicate Readable(sch: Schema, cls: string) {
    && cls in sch.cols && Col(sch, cls) >= 1
    && ParentOf(sch.rels, cls).Some? && ParentOf(sch.rels, cls).value in sch.cols
  }

  /** The selector behind a slot: which column is read, under which parent column. */
  ghost predicate Reads(sch: Schema, cls: string, c: nat, p: nat) {
    && Readable(sch, cls)
    && c == Col(sch, cls) && p == Col(sch, ParentOf(sch.rels, cls).value)
  }

  /** The hierarchy holds, for every slot, what the rows group there. */
  ghost predicate Grouped(sch: Schema, rows: seq<Row>, h: Hierarchy) {
    forall slot: Slot :: Lookup(h, slot) == Group(sch, rows, slot.main, slot.cls, slot.pk)
  }

  /** The rows before `row`, and the columns of `row` before `idx`, have been filed. */
  ghost predicate Filed(sch: Schema, rows: seq<Row>, row: Row, idx: nat, h: Hierarchy) {
    && (forall slot: Slot :: !Readable(sch, slot.cls) ==> Lookup(h, slot) == [])
    && (forall slot: Slot, c: nat, p: nat :: Reads(sch, slot.cls, c, p) ==>
          Lookup(h, slot) == Collect(rows, Child(c, p, slot.main, slot.pk)) +
                             (if c < idx then Select(Child(c, p, slot.main, slot.pk), row) else []))
  }

  lemma GroupReads(sch: Schema, rows: seq<Row>, main: Key, cls: string, pk: Key)
    ensures !Readable(sch, cls) ==> Group(sch, rows, main, cls, pk) == []
    ensures forall c: nat, p: nat :: Reads(sch, cls, c, p) ==>
      Group(sch, rows, main, cls, pk) == Collect(rows, Child(c, p, main, pk))
  {
  }

  /** One cell per column, empty or holding an object of the column's class. */
  ghost predicate RowConforms(sch: Schema, row: Row) {
    |row| == |sch.cols| && forall c :: 0 <= c < |row| && row[c].Some? ==> row[c].value.cls == sch.cols[c]
  }

  /** Where each class seen so far sits. */
  ghost predicate Indexed(sch: Schema, clsIdx: map<string, nat>, rows: seq<Row>) {
    && (forall cls :: cls in clsIdx ==> clsIdx[cls] < |sch.cols| && sch.cols[clsIdx[cls]] == cls)
    && (forall i, c :: 0 <= i < |rows| && 0 <= c < |rows[i]| && rows[i][c].Some? ==> rows[i][c].value.cls in clsIdx)
  }

  lemma ColUnique(sch: Schema, c: nat)
    requires Nestable(sch) && c < |sch.cols|
    ensures Col(sch, sch.cols[c]) == c
  {
  }

  method IndexClasses(sch: Schema, rows: seq<Row>) returns (clsIdx: map<string, nat>)
    requires Nestable(sch) && forall i :: 0 <= i < |rows| ==> RowConforms(sch, rows[i])
    ensures Indexed(sch, clsIdx, rows)
  {
    hide Nestable;
    clsIdx := map[];
    for i := 0 to |rows|
      invariant Indexed(sch, clsIdx, rows[..i])
    {
      var row := rows[i];
      assert RowConforms(sch, row);
      for idx := 0 to |row|
        invariant Indexed(sch, clsIdx, rows[..i])
        invariant forall c :: 0 <= c < idx && row[c].Some? ==> row[c].value.cls in clsIdx
      {
        if row[idx].Some? && row[idx].value.cls !in clsIdx {
          clsIdx := clsIdx[row[idx].value.cls := idx];
        }
      }
    }
    assert rows[..|rows|] == rows;
  }

  /** The parent cell of a class in a row, through the class index. */
  lemma ParentCell(sch: Schema, clsIdx: map<string, nat>, rows: seq<Row>, row: Row, parent: string)
    requires Nestable(sch) && Indexed(sch, clsIdx, rows) && row in rows && RowConforms(sch, row)
    ensures parent in clsIdx ==> parent in sch.cols && clsIdx[parent] == Col(sch, parent)
    ensures parent !in clsIdx && parent in sch.cols ==> row[Col(sch, parent)].None?
  {
    if parent in clsIdx { ColUnique(sch, clsIdx[parent]); }
    var i :| 0 <= i < |rows| && rows[i] == row;
    if parent in sch.cols {
      assert rows[i][Col(sch, parent)].Some? ==> rows[i][Col(sch, parent)].value.cls == parent;
    }
  }

  /** What filing the cell in column `idx` must do to the hierarchy. */
  ghost predicate CellFiled(sch: Schema, row: Row, idx: nat, h: Hierarchy, h': Hierarchy)
    requires idx < |sch.cols|
  {
    && (forall slot: Slot :: slot.cls != sch.cols[idx] || !Readable(sch, slot.cls) ==>
         Lookup(h', slot) == Lookup(h, slot))
    && (forall slot: Slot, p: nat :: slot.cls == sch.cols[idx] && Reads(sch, slot.cls, idx, p) ==>
          Lookup(h', slot) == Lookup(h, slot) + Select(Child(idx, p, slot.main, slot.pk), row))
  }

  lemma FileStep(sch: Schema, before: seq<Row>, row: Row, idx: nat, h: Hierarchy, h': Hierarchy)
    requires Nestable(sch)
    requires idx < |sch.cols| && Filed(sch, before, row, idx, h) && CellFiled(sch, row, idx, h, h')
    ensures Filed(sch, before, row, idx + 1, h')
  {
    ColUnique(sch, idx);
    hide Nestable, Select, Collect, Lookup, Col;
    forall slot: Slot, c: nat, p: nat | Reads(sch, slot.cls, c, p)
      ensures Lookup(h', slot) == Collect(before, Child(c, p, slot.main, slot.pk)) +
                                  (if c < idx + 1 then Select(Child(c, p, slot.main, slot.pk), row) else [])
    {
      FileSlot(sch, before, row, idx, h, h', slot, c, p);
    }
    hide Reads;
  }

  lemma FileSlot(
    sch: Schema, before: seq<Row>, row: Row, idx: nat, h: Hierarchy, h': Hierarchy, slot: Slot, c: nat, p: nat)
    requires idx < |sch.cols| && Filed(sch, before, row, idx, h) && CellFiled(sch, row, idx, h, h')
    requires Reads(sch, slot.cls, c, p) && Col(sch, sch.cols[idx]) == idx
    ensures Lookup(h', slot) == Collect(before, Child(c, p, slot.main, slot.pk)) +
                                (if c < idx + 1 then Select(Child(c, p, slot.main, slot.pk), row) else [])
  {
    hide Select, Collect, Lookup;
    var sel := Child(c, p, slot.main, slot.pk);
    assert Lookup(h, slot) == Collect(before, sel) + if c < idx then Select(sel, row) else [];
    if slot.cls == sch.cols[idx] {
      assert Lookup(h', slot) == Lookup(h, slot) + Select(sel, row);
      assert Collect(before, sel) + [] + Select(sel, row) == Collect(before, sel) + Select(sel, row);
    } else {
      assert Lookup(h', slot) == Lookup(h, slot);
    }
  }

  /** A cell without an object or without a parent object is filed nowhere. */
  lemma NotFiled(sch: Schema, row: Row, idx: nat, h: Hierarchy)
    requires idx < |sch.cols|
    requires forall slot: Slot, p: nat :: slot.cls == sch.cols[idx] && Reads(sch, slot.cls, idx, p) ==>
               p >= |row| || idx >= |row| || row[idx].None? || row[p].None?
    ensures CellFiled(sch, row, idx, h, h)
  {
    hide Reads, Lookup;
  }

  /** A cell with a parent object is filed under it, and nowhere else. */
  lemma FiledUnderParent(sch: Schema, row: Row, idx: nat, q: nat, h: Hierarchy, slot0: Slot)
    requires idx < |sch.cols| && idx < |row| && q < |row| && row[0].Some? && row[idx].Some? && row[q].Some?
    requires forall cls: string, p: nat :: cls == sch.cols[idx] && Reads(sch, cls, idx, p) ==> p == q
    requires Readable(sch, sch.cols[idx])
    requires slot0 == Slot(KeyOf(row[0].value), sch.cols[idx], Id(row[q].value.id))
    ensures CellFiled(sch, row, idx, h, h[slot0 := Lookup(h, slot0) + [row[idx].value]])
  {
    hide Reads;
  }

  /** Files one cell of a row under its parent. */
  method FileCell(sch: Schema, clsIdx: map<string, nat>, ghost rows: seq<Row>, row: Row, idx: nat, h: Hierarchy)
    returns (h': Hierarchy)
    requires Nestable(sch) && Indexed(sch, clsIdx, rows) && row in rows && RowConforms(sch, row)
    requires 1 <= idx < |row| && row[0].Some?
    ensures CellFiled(sch, row, idx, h, h')
  {
    h' := h;
    if row[idx].None? { NotFiled(sch, row, idx, h); return; }
    var cls := row[idx].value.cls;
    var parentType := ParentOf(sch.rels, cls);
    if parentType.None? { NotFiled(sch, row, idx, h); return; }
    ParentCell(sch, clsIdx, rows, row, parentType.value);
    hide Nestable, Indexed, CellFiled, Col;
    if parentType.value !in clsIdx || row[clsIdx[parentType.value]].None? { NotFiled(sch, row, idx, h); return; }
    var parentIdx := clsIdx[parentType.value];
    var slot := Slot(KeyOf(row[0].value), cls, Id(row[parentIdx].value.id));
    h' := h[slot := Lookup(h, slot) + [row[idx].value]];
    FiledUnderParent(sch, row, idx, parentIdx, h, slot);
  }

  /** Fills the hierarchy row by row, column by column. */
  method BuildHierarchy(sch: Schema, clsIdx: map<string, nat>, rows: seq<Row>) returns (h: Hierarchy)
    requires Nestable(sch) && Indexed(sch, clsIdx, rows)
    requires forall i :: 0 <= i < |rows| ==> RowConforms(sch, rows[i])
    ensures Grouped(sch, rows, h)
  {
    hide Nestable, Indexed, Filed, Grouped;
    h := map[];
    NothingGrouped(sch);
    for i := 0 to |rows|
      invariant Grouped(sch, rows[..i], h)
    {
      var row := rows[i];
      assert RowConforms(sch, row);
      StartRow(sch, rows[..i], row, h);
      if row != [] && row[0].Some? {
        for idx := 1 to |row|
          invariant Filed(sch, rows[..i], row, idx, h)
        {
          ghost var h0 := h;
          h := FileCell(sch, clsIdx, rows, row, idx, h);
          FileStep(sch, rows[..i], row, idx, h0, h);
        }
        FinishRow(sch, rows[..i], row, h);
      } else {
        SkipRow(sch, rows[..i], row, h);
      }
      assert rows[..i + 1] == rows[..i] + [row];
    }
    assert rows[..|rows|] == rows;
  }

  lemma NothingGrouped(sch: Schema)
    ensures Grouped(sch, [], map[])
  {
  }

  /** Nothing is filed from the main column. */
  lemma StartRow(sch: Schema, before: seq<Row>, row: Row, h: Hierarchy)
    requires Grouped(sch, before, h)
    ensures Filed(sch, before, row, 1, h)
  {
    hide Group, Collect, Select, Lookup;
    forall slot: Slot ensures !Readable(sch, slot.cls) ==> Lookup(h, slot) == [] {
      GroupReads(sch, before, slot.main, slot.cls, slot.pk);
    }
    forall slot: Slot, c: nat, p: nat | Reads(sch, slot.cls, c, p)
      ensures c >= 1 && Lookup(h, slot) == Collect(before, Child(c, p, slot.main, slot.pk)) + []
    {
      GroupReads(sch, before, slot.main, slot.cls, slot.pk);
    }
  }

  lemma CollectSnoc(before: seq<Row>, row: Row, sel: Selector)
    ensures Collect(before + [row], sel) == Collect(before, sel) + Select(sel, row)
  {
    assert (before + [row])[..|before + [row]| - 1] == before;
  }

  lemma FinishRow(sch: Schema, before: seq<Row>, row: Row, h: Hierarchy)
    requires |row| == |sch.cols| && Filed(sch, before, row, |row|, h)
    ensures Grouped(sch, before + [row], h)
  {
    forall slot: Slot ensures Lookup(h, slot) == Group(sch, before + [row], slot.main, slot.cls, slot.pk) {
      hide Select, Collect, Lookup;
      if Readable(sch, slot.cls) {
        var c, p := Col(sch, slot.cls), Col(sch, ParentOf(sch.rels, slot.cls).value);
        assert Reads(sch, slot.cls, c, p);
        CollectSnoc(before, row, Child(c, p, slot.main, slot.pk));
      }
    }
  }

  lemma SkipRow(sch: Schema, before: seq<Row>, row: Row, h: Hierarchy)
    requires (row == [] || row[0].None?) && Grouped(sch, before, h)
    ensures Grouped(sch, before + [row], h)
  {
    forall slot: Slot ensures Lookup(h, slot) == Group(sch, before + [row], slot.main, slot.cls, slot.pk) {
      hide Collect, Lookup;
      if Readable(sch, slot.cls) {
        CollectSnoc(before, row, Child(Col(sch, slot.cls), Col(sch, ParentOf(sch.rels, slot.cls).value), slot.main,
            slot.pk));
      }
    }
  }

  // ---------------------------------------------------------------- building the results

  /** Keeps the first object of each id. */
  method DedupeObjects(objs: seq<Obj>) returns (unique: seq<Obj>)
    ensures unique == Unique(objs)
  {
    var seen: set<int> := {};
    unique := [];
    for i := 0 to |objs|
      invariant unique == Unique(objs[..i]) && seen == Ids(unique)
    {
      assert objs[..i + 1][..i] == objs[..i];
      if objs[i].id !in seen {
        assert Ids(unique + [objs[i]]) == Ids(unique) + {objs[i].id};
        seen := seen + {objs[i].id};
        unique := unique + [objs[i]];
      }
    }
    assert objs[..|objs|] == objs;
  }

  lemma BuildNodesSnoc(sch: Schema, rows: seq<Row>, main: Key, cls: string, objs: seq<Obj>, i: nat)
    requires Acyclic(sch.rels) && i < |objs|
    ensures BuildNodes(sch, rows, main, cls, objs[..i + 1]) ==
            BuildNodes(sch, rows, main, cls, objs[..i]) +
            [Node(objs[i], BuildFields(sch, rows, main, cls, Id(objs[i].id), SubRels(sch.rels, cls)))]
  {
    hide Acyclic, BuildFields;
    assert objs[..i + 1][..i] == objs[..i];
  }

  lemma BuildFieldsSnoc(sch: Schema, rows: seq<Row>, main: Key, cls: string, pk: Key, rels: seq<Rel>, i: nat)
    requires Acyclic(sch.rels) && i < |rels|
    requires forall r :: r in rels ==> r in sch.rels && r.source == cls
    ensures BuildFields(sch, rows, main, cls, pk, rels[..i + 1]) ==
            BuildFields(sch, rows, main, cls, pk, rels[..i])
            [rels[i].FieldName() := Pack(rels[i], Build(sch, rows, main, rels[i].target, pk))]
  {
    hide Build, Pack;
    assert rels[..i + 1][..i] == rels[..i];
  }

  lemma NoFields(sch: Schema, rows: seq<Row>, main: Key, cls: string, pk: Key)
    requires Acyclic(sch.rels)
    ensures BuildFields(sch, rows, main, cls, pk, []) == map[]
  {
  }

  method RecursiveBuild(sch: Schema, ghost rows: seq<Row>, h: Hierarchy, main: Key, cls: string, pk: Key)
      returns (output: seq<Node>)
    requires Acyclic(sch.rels) && Grouped(sch, rows, h)
    ensures output == Build(sch, rows, main, cls, pk)
    decreases RankOf(sch.rels, cls), 1
  {
    assert Lookup(h, Slot(main, cls, pk)) == Group(sch, rows, main, cls, pk);
    hide Acyclic, Grouped, RankOf, Group, BuildNodes, BuildFields;
    var objs := DedupeObjects(Lookup(h, Slot(main, cls, pk)));
    output := [];
    for i := 0 to |objs|
      invariant output == BuildNodes(sch, rows, main, cls, objs[..i])
    {
      var item := objs[i];
      var itemData := FillFields(sch, rows, h, main, cls, Id(item.id));
      BuildNodesSnoc(sch, rows, main, cls, objs, i);
      output := output + [Node(item, itemData)];
    }
    assert objs[..|objs|] == objs;
  }

  /** The loop over the relationships that leave a class. */
  method FillFields(sch: Schema, ghost rows: seq<Row>, h: Hierarchy, main: Key, cls: string, pk: Key)
      returns (data: map<string, Field>)
    requires Acyclic(sch.rels) && Grouped(sch, rows, h)
    ensures data == BuildFields(sch, rows, main, cls, pk, SubRels(sch.rels, cls))
    decreases RankOf(sch.rels, cls), 0
  {
    hide Acyclic, Grouped, BuildFields, Build, RankOf;
    var sub := SubRels(sch.rels, cls);
    data := map[];
    NoFields(sch, rows, main, cls, pk);
    for i := 0 to |sub|
      invariant data == BuildFields(sch, rows, main, cls, pk, sub[..i])
    {
      var rel := sub[i];
      assert rel in sch.rels;
      RankFalls(sch.rels, rel);
      var nodes := RecursiveBuild(sch, rows, h, main, rel.target, pk);
      BuildFieldsSnoc(sch, rows, main, cls, pk, sub, i);
      data := data[rel.FieldName() := Pack(rel, nodes)];
    }
    assert sub[..|sub|] == sub;
  }

  /** The whole serializer: index, hierarchy, then one result per main object in row order. */
  method SelectJoinSerialize(sch: Schema, rows: seq<Row>) returns (out: Output)
    requires Nestable(sch) && forall i :: 0 <= i < |rows| ==> RowConforms(sch, rows[i])
    ensures out == Serialize(sch, rows)
  {
    if rows == [] || rows[0] == [] || rows[0][0].None? { return Nothing; }
    var clsIdx := IndexClasses(sch, rows);
    var h := BuildHierarchy(sch, clsIdx, rows);
    hide Nestable, Acyclic, Grouped, RowConforms, Indexed, SubRels, Mains, Collect, Keys, Results, BuildFields;
    var results: seq<Node> := [];
    var processed: set<Key> := {};
    ghost var mains: seq<Obj> := [];
    NoMains(sch, rows);
    for i := 0 to |rows|
      invariant mains == Mains(Collect(rows[..i], Head)) && processed == Keys(mains)
      invariant results == Results(sch, rows, mains)
    {
      var row := rows[i];
      NextMain(rows, i);
      if row != [] && row[0].Some? {
        var m := row[0].value;
        if KeyOf(m) !in processed {
          processed := processed + {KeyOf(m)};
          var data := FillFields(sch, rows, h, KeyOf(m), sch.cols[0], KeyOf(m));
          ResultsSnoc(sch, rows, mains, m);
          results := results + [Node(m, data)];
          mains := mains + [m];
        }
      }
    }
    assert rows[..|rows|] == rows;
    out := if |results| == 1 then Single(results[0]) else List(results);
  }

  lemma NoMains(sch: Schema, rows: seq<Row>)
    requires Acyclic(sch.rels) && sch.cols != []
    ensures Mains(Collect(rows[..0], Head)) == [] && Keys([]) == {} && Results(sch, rows, []) == []
  {
    hide Acyclic;
  }

  /** One more row adds its main object, unless its key has been seen. */
  lemma NextMain(rows: seq<Row>, i: nat)
    requires i < |rows|
    ensures
      var mains := Mains(Collect(rows[..i], Head));
      var row := rows[i];
      if row != [] && row[0].Some? && KeyOf(row[0].value) !in Keys(mains) then
        && Mains(Collect(rows[..i + 1], Head)) == mains + [row[0].value]
        && Keys(mains + [row[0].value]) == Keys(mains) + {KeyOf(row[0].value)}
      else
        Mains(Collect(rows[..i + 1], Head)) == mains
  {
    hide Keys;
    var row := rows[i];
    CollectSnoc(rows[..i], row, Head);
    assert rows[..i + 1] == rows[..i] + [row];
    if row != [] && row[0].Some? {
      AppendMain(Collect(rows[..i], Head), row[0].value);
    } else {
      assert Collect(rows[..i], Head) + [] == Collect(rows[..i], Head);
    }
  }

  lemma ResultsSnoc(sch: Schema, rows: seq<Row>, mains: seq<Obj>, m: Obj)
    requires Acyclic(sch.rels) && sch.cols != []
    ensures Results(sch, rows, mains + [m]) ==
            Results(sch, rows, mains) +
            [Node(m, BuildFields(sch, rows, KeyOf(m), sch.cols[0], KeyOf(m), SubRels(sch.rels, sch.cols[0])))]
  {
    hide Acyclic, BuildFields, SubRels;
  }

  lemma AppendMain(x: seq<Obj>, m: Obj)
    ensures Mains(x + [m]) == if KeyOf(m) in Keys(Mains(x)) then Mains(x) else Mains(x) + [m]
    ensures Keys(Mains(x) + [m]) == Keys(Mains(x)) + {KeyOf(m)}
  {
    assert (x + [m])[..|x + [m]| - 1] == x;
  }
}
