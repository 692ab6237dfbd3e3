/** Nesting undoes joining, exactly when no main object with id zero has children. */
module JoinTheorems {
  import opened Wrappers
  import opened JoinModel
  import opened LeftJoin
  import opened JoinProofs

  // ---------------------------------------------------------------- a main object whose id is zero

  /** No later relationship writes the same field. */
  predicate Kept(rels: seq<Rel>, i: nat)
    requires i < |rels|
  {
    forall j :: i < j < |rels| ==> rels[j].FieldName() != rels[i].FieldName()
  }

  /** Every field that would hold children of `pk` is empty. */
  predicate Childless(db: Related, rels: seq<Rel>, pk: int) {
    forall i :: 0 <= i < |rels| && Kept(rels, i) ==> Children(db, rels[i].target, pk) == []
  }

  /** A main object whose id is zero has no children to lose. */
  predicate LosesNothing(db: Related, sch: Schema, m: Obj)
    requires sch.cols != []
  {
    m.id == 0 ==> Childless(db, SubRels(sch.rels, sch.cols[0]), 0)
  }

  function EmptyFields(rels: seq<Rel>): map<string, Field> {
    if rels == [] then map[]
    else EmptyFields(rels[..|rels| - 1])[rels[|rels| - 1].FieldName() := Pack(rels[|rels| - 1], [])]
  }

  /** Nothing is filed under an address. */
  lemma {:induction false} NothingUnderAddress(rows: seq<Row>, c: nat, p: nat, main: Key, o: Obj)
    ensures Collect(rows, Child(c, p, main, Address(o))) == []
  {
    if rows != [] { NothingUnderAddress(rows[..|rows| - 1], c, p, main, o); }
  }

  /** With an address as the parent, every field comes out empty. */
  lemma {:induction false} AddressFields(sch: Schema, rows: seq<Row>, main: Key, cls: string, o: Obj, rels: seq<Rel>)
    requires Acyclic(sch.rels) && forall r :: r in rels ==> r in sch.rels && r.source == cls
    ensures BuildFields(sch, rows, main, cls, Address(o), rels) == EmptyFields(rels)
  {
    hide Acyclic, Pack;
    if rels != [] {
      var init, last := rels[..|rels| - 1], rels[|rels| - 1];
      AddressFields(sch, rows, main, cls, o, init);
      AddressBuild(sch, rows, main, last.target, o);
      hide Build;
    }
  }

  lemma AddressBuild(sch: Schema, rows: seq<Row>, main: Key, cls: string, o: Obj)
    requires Acyclic(sch.rels)
    ensures Build(sch, rows, main, cls, Address(o)) == []
  {
    hide Acyclic, Collect;
    forall c: nat, p: nat ensures Collect(rows, Child(c, p, main, Address(o))) == [] {
      NothingUnderAddress(rows, c, p, main, o);
    }
    assert Group(sch, rows, main, cls, Address(o)) == [];
  }

  lemma PackEmptyIff(rel: Rel, nodes: seq<Node>)
    ensures Pack(rel, nodes) == Pack(rel, []) <==> nodes == []
  {
  }

  /** Under each field name, the value of the last relationship that writes it. */
  ghost predicate HoldsKept(m: map<string, Field>, rels: seq<Rel>, values: seq<Field>)
    requires |values| == |rels|
  {
    forall i :: 0 <= i < |rels| && Kept(rels, i) ==> rels[i].FieldName() in m && m[rels[i].FieldName()] == values[i]
  }

  ghost predicate OnlyKept(m: map<string, Field>, rels: seq<Rel>) {
    forall k :: k in m ==> exists i :: 0 <= i < |rels| && Kept(rels, i) && rels[i].FieldName() == k
  }

  ghost predicate Holding(m: map<string, Field>, rels: seq<Rel>, values: seq<Field>)
    requires |values| == |rels|
  {
    HoldsKept(m, rels, values) && OnlyKept(m, rels)
  }

  lemma KeptBefore(init: seq<Rel>, last: Rel, i: nat)
    requires i < |init|
    ensures Kept(init + [last], i) <==> Kept(init, i) && init[i].FieldName() != last.FieldName()
  {
    var rels := init + [last];
    assert rels[|init|] == last;
    assert forall j :: 0 <= j < |init| ==> rels[j] == init[j];
  }

  lemma HoldsKeptSnoc(m: map<string, Field>, init: seq<Rel>, values: seq<Field>, last: Rel, value: Field)
    requires |values| == |init| && HoldsKept(m, init, values)
    ensures HoldsKept(m[last.FieldName() := value], init + [last], values + [value])
  {
    var (rels, m') := (init + [last], m[last.FieldName() := value]);
    forall i | 0 <= i < |rels| && Kept(rels, i)
      ensures rels[i].FieldName() in m' && m'[rels[i].FieldName()] == (values + [value])[i]
    {
      if i < |init| {
        KeptBefore(init, last, i);
        assert rels[i] == init[i] && (values + [value])[i] == values[i];
      }
    }
  }

  lemma OnlyKeptSnoc(m: map<string, Field>, init: seq<Rel>, last: Rel, value: Field)
    requires OnlyKept(m, init)
    ensures OnlyKept(m[last.FieldName() := value], init + [last])
  {
    var (rels, m') := (init + [last], m[last.FieldName() := value]);
    forall k | k in m' ensures exists i :: 0 <= i < |rels| && Kept(rels, i) && rels[i].FieldName() == k {
      if k == last.FieldName() {
        assert Kept(rels, |init|) && rels[|init|] == last;
      } else {
        var i :| 0 <= i < |init| && Kept(init, i) && init[i].FieldName() == k;
        KeptBefore(init, last, i);
        assert Kept(rels, i) && rels[i] == init[i];
      }
    }
  }

  lemma HoldingSnoc(m: map<string, Field>, init: seq<Rel>, values: seq<Field>, last: Rel, value: Field)
    requires |values| == |init| && Holding(m, init, values)
    ensures Holding(m[last.FieldName() := value], init + [last], values + [value])
  {
    HoldsKeptSnoc(m, init, values, last, value);
    OnlyKeptSnoc(m, init, last, value);
    hide HoldsKept, OnlyKept;
  }

  function EmptyValues(rels: seq<Rel>): seq<Field> {
    seq(|rels|, i requires 0 <= i < |rels| => Pack(rels[i], []))
  }

  function TreeValues(db: Related, sch: Schema, pk: int, rels: seq<Rel>): seq<Field>
    requires Acyclic(sch.rels)
  {
    seq(|rels|, i requires 0 <= i < |rels| => Pack(rels[i],
        Trees(db, sch, rels[i].target, Children(db, rels[i].target, pk))))
  }

  lemma {:induction false} HoldingEmpty(rels: seq<Rel>)
    ensures Holding(EmptyFields(rels), rels, EmptyValues(rels))
  {
    hide Holding, Pack;
    if rels == [] {
      HoldingNothing();
      assert EmptyValues(rels) == [];
    } else {
      var init, last := rels[..|rels| - 1], rels[|rels| - 1];
      HoldingEmpty(init);
      HoldingSnoc(EmptyFields(init), init, EmptyValues(init), last, Pack(last, []));
      assert init + [last] == rels;
      assert EmptyValues(init) + [Pack(last, [])] == EmptyValues(rels);
    }
  }

  lemma HoldingNothing()
    ensures Holding(map[], [], [])
  {
  }

  lemma {:induction false} HoldingTree(db: Related, sch: Schema, cls: string, pk: int, rels: seq<Rel>)
    requires Acyclic(sch.rels) && forall r :: r in rels ==> r in sch.rels && r.source == cls
    ensures Holding(TreeFields(db, sch, cls, pk, rels), rels, TreeValues(db, sch, pk, rels))
  {
    hide Holding, Pack, Acyclic, Trees, Children;
    if rels == [] {
      HoldingNothing();
      assert TreeValues(db, sch, pk, rels) == [];
    } else {
      var init, last := rels[..|rels| - 1], rels[|rels| - 1];
      HoldingTree(db, sch, cls, pk, init);
      var value := Pack(last, Trees(db, sch, last.target, Children(db, last.target, pk)));
      HoldingSnoc(TreeFields(db, sch, cls, pk, init), init, TreeValues(db, sch, pk, init), last, value);
      assert init + [last] == rels;
      assert TreeValues(db, sch, pk, init) + [value] == TreeValues(db, sch, pk, rels);
    }
  }

  /** Two such maps are equal exactly when the kept values are. */
  lemma HoldingEqualIff(m: map<string, Field>, n: map<string, Field>, rels: seq<Rel>, v: seq<Field>, w: seq<Field>)
    requires |v| == |rels| == |w| && Holding(m, rels, v) && Holding(n, rels, w)
    ensures m == n <==> forall i :: 0 <= i < |rels| && Kept(rels, i) ==> v[i] == w[i]
  {
    hide Kept;
    if forall i :: 0 <= i < |rels| && Kept(rels, i) ==> v[i] == w[i] {
      assert forall k :: k in m ==> k in n && m[k] == n[k];
      assert forall k :: k in n ==> k in m;
    }
  }

  /** The empty fields are those of the tree exactly when no field that is kept has children. */
  lemma FieldsEmptyIff(db: Related, sch: Schema, cls: string, pk: int, rels: seq<Rel>)
    requires Acyclic(sch.rels) && forall r :: r in rels ==> r in sch.rels && r.source == cls
    ensures EmptyFields(rels) == TreeFields(db, sch, cls, pk, rels) <==> Childless(db, rels, pk)
  {
    HoldingEmpty(rels);
    HoldingTree(db, sch, cls, pk, rels);
    HoldingEqualIff(EmptyFields(rels), TreeFields(db, sch, cls, pk, rels), rels, EmptyValues(rels),
        TreeValues(db, sch, pk, rels));
    forall i | 0 <= i < |rels|
      ensures EmptyValues(rels)[i] == TreeValues(db, sch, pk, rels)[i] <==> Children(db, rels[i].target, pk) == []
    {
      PackEmptyIff(rels[i], Trees(db, sch, rels[i].target, Children(db, rels[i].target, pk)));
    }
    hide Acyclic, TreeFields, EmptyFields, Children, Kept, Holding, TreeValues, EmptyValues;
  }

  lemma ResultIsTreeIff(db: Related, sch: Schema, rows: seq<Row>, m: Obj)
    requires WellFormed(sch) && GroupsAreChildren(db, sch, rows) && Appears(rows, KeyOf(m), 0, m.id)
    ensures sch.cols != [] && Acyclic(sch.rels)
    ensures Result(sch, rows, m) == Tree(db, sch, sch.cols[0], m) <==> LosesNothing(db, sch, m)
  {
    FirstColumnExists(sch);
    if m.id != 0 {
      NonZeroResultIsTree(db, sch, rows, m);
    } else {
      hide WellFormed, Acyclic, GroupsAreChildren, Appears;
      var sub := SubRels(sch.rels, sch.cols[0]);
      AddressFields(sch, rows, KeyOf(m), sch.cols[0], m, sub);
      FieldsEmptyIff(db, sch, sch.cols[0], 0, sub);
    }
  }

  // ---------------------------------------------------------------- the whole result

  lemma ResultsAreTreesIff(db: Related, sch: Schema, rows: seq<Row>, mains: seq<Obj>)
    requires WellFormed(sch) && GroupsAreChildren(db, sch, rows)
    requires forall m :: m in mains ==> Appears(rows, KeyOf(m), 0, m.id)
    ensures sch.cols != [] && Acyclic(sch.rels)
    ensures Results(sch, rows, mains) == Trees(db, sch, sch.cols[0], mains) <==>
      forall m :: m in mains ==> LosesNothing(db, sch, m)
  {
    FirstColumnExists(sch);
    hide WellFormed, Acyclic, GroupsAreChildren, Appears, Result, Tree, LosesNothing;
    var (results, trees) := (Results(sch, rows, mains), Trees(db, sch, sch.cols[0], mains));
    forall i | 0 <= i < |mains| ensures results[i] == trees[i] <==> LosesNothing(db, sch, mains[i]) {
      ResultIsTreeIff(db, sch, rows, mains[i]);
    }
    if results == trees {
      forall m | m in mains ensures LosesNothing(db, sch, m) {
        var i :| 0 <= i < |mains| && mains[i] == m;
        assert results[i] == trees[i];
      }
    } else {
      var i :| 0 <= i < |mains| && results[i] != trees[i];
      assert mains[i] in mains;
    }
  }

  function Wrapped(results: seq<Node>): Output {
    if |results| == 1 then Single(results[0]) else List(results)
  }

  lemma {:induction false} JoinStarts(db: Related, sch: Schema, mains: seq<Obj>, width: nat)
    requires 1 <= width <= |sch.cols| && mains != []
    ensures var rows := Join(db, sch, mains, width);
      rows != [] && rows[0] != [] && rows[0][0] == Some(mains[0])
  {
    hide ExtendRows;
    if width > 1 {
      JoinStarts(db, sch, mains, width - 1);
      ExtendStarts(db, sch, Join(db, sch, mains, width - 1), width - 1);
    }
  }

  lemma {:induction false} ExtendStarts(db: Related, sch: Schema, rows: seq<Row>, width: nat)
    requires 0 < width < |sch.cols| && Wide(rows, width) && rows != []
    ensures var rows' := ExtendRows(db, sch, rows, width);
      rows' != [] && rows'[0] != [] && rows'[0][0] == rows[0][0]
  {
    hide Cells;
    var init, last := rows[..|rows| - 1], rows[|rows| - 1];
    if init != [] {
      ExtendStarts(db, sch, init, width);
    } else {
      ExtendRowStarts(last, Cells(db, sch, last));
    }
  }

  lemma {:induction false} ExtendRowStarts(row: Row, cells: seq<Option<Obj>>)
    requires cells != [] && row != []
    ensures var rows := ExtendRow(row, cells);
      rows != [] && rows[0] != [] && rows[0][0] == row[0]
  {
    var init := cells[..|cells| - 1];
    if init != [] { ExtendRowStarts(row, init); }
  }

  lemma SerializesMains(sch: Schema, rows: seq<Row>, mains: seq<Obj>)
    requires Acyclic(sch.rels) && sch.cols != []
    requires rows != [] && rows[0] != [] && rows[0][0].Some? && Mains(Collect(rows, Head)) == mains
    ensures Serialize(sch, rows) == Wrapped(Results(sch, rows, mains))
  {
    hide Acyclic, Mains, Collect, Result;
  }

  /** Serializing the rows of the nested-loop join gives back the original trees, in order, exactly when
      no main object with id zero has children: they are filed under zero and looked up under its address. */
  lemma {:induction false} SerializeUndoesJoinIff(db: Related, sch: Schema, mains: seq<Obj>)
    requires WellFormed(sch) && Sound(db) && DistinctIds(mains) && mains != []
    ensures Acyclic(sch.rels)
    ensures Serialize(sch, Join(db, sch, mains, |sch.cols|)) == Wrapped(Trees(db, sch, sch.cols[0], mains)) <==>
      forall m :: m in mains ==> LosesNothing(db, sch, m)
  {
    FirstColumnExists(sch);
    hide Ordered, Acyclic, Join, Mains, Collect, Appears, GroupsAreChildren, Sound, LosesNothing, Results, Trees;
    JoinGroups(db, sch, mains);
    JoinMains(db, sch, mains);
    JoinStarts(db, sch, mains, |sch.cols|);
    var rows := Join(db, sch, mains, |sch.cols|);
    hide WellFormed, DistinctIds, Wide, Wrapped, Result, Serialize;
    SerializesMains(sch, rows, mains);
    ResultsAreTreesIff(db, sch, rows, mains);
    WrappedInjective(Results(sch, rows, mains), Trees(db, sch, sch.cols[0], mains));
  }

  lemma WrappedInjective(a: seq<Node>, b: seq<Node>)
    requires |a| == |b|
    ensures Wrapped(a) == Wrapped(b) <==> a == b
  {
    if |a| == 1 { assert a == [a[0]] && b == [b[0]]; }
  }

  /** In particular it does for main objects with positive ids. */
  lemma SerializeUndoesJoin(db: Related, sch: Schema, mains: seq<Obj>)
    requires WellFormed(sch) && Sound(db) && DistinctIds(mains) && mains != []
    requires forall m :: m in mains ==> m.id > 0
    ensures Acyclic(sch.rels)
    ensures Serialize(sch, Join(db, sch, mains, |sch.cols|)) == Wrapped(Trees(db, sch, sch.cols[0], mains))
  {
    hide WellFormed, Sound, Acyclic, Serialize, Join, Trees;
    SerializeUndoesJoinIff(db, sch, mains);
  }

  /** A user with id zero and a role: the role, which is in the rows (`UserRoleJoin`), is lost. */
  lemma ZeroIdLosesChildren(db: Related, sch: Schema, user: Obj, role: Obj)
    requires sch == Schema(["user", "role"], [Rel("user", "role", M2M, None)])
    requires db == map[("role", 0) := [role]] && user.id == 0 && user.cls == "user" && role.cls == "role"
    ensures WellFormed(sch) && Sound(db) && Acyclic(sch.rels)
    ensures Serialize(sch, Join(db, sch, [user], 2)) != Wrapped(Trees(db, sch, "user", [user]))
  {
    hide Join, Serialize, Trees, LosesNothing, WellFormed, Sound, Acyclic;
    UserRoleSchema(sch);
    UserRoleSound(db, sch, user, role);
    assert user in [user];
    SerializeUndoesJoinIff(db, sch, [user]);
  }

  lemma UserRoleSound(db: Related, sch: Schema, user: Obj, role: Obj)
    requires sch == Schema(["user", "role"], [Rel("user", "role", M2M, None)])
    requires db == map[("role", 0) := [role]] && user.id == 0 && role.cls == "role"
    ensures Sound(db) && !LosesNothing(db, sch, user)
  {
    OneListSound(db, role);
    hide Sound;
    var rel := Rel("user", "role", M2M, None);
    OneRel(rel);
    hide SubRels, WellFormed;
    assert Kept([rel], 0);
    assert Children(db, "role", 0) == [role];
  }

  lemma OneListSound(db: Related, o: Obj)
    requires db == map[(o.cls, 0) := [o]]
    ensures Sound(db)
  {
  }

  lemma OneRel(rel: Rel)
    ensures SubRels([rel], rel.source) == [rel]
  {
    assert [rel][..0] == [];
  }

  lemma UserRoleSchema(sch: Schema)
    requires sch == Schema(["user", "role"], [Rel("user", "role", M2M, None)])
    ensures WellFormed(sch)
  {
    assert Col(sch, "user") == 0;
    assert sch.cols[1..] == ["role"];
    assert Col(sch, "role") == 1;
  }

  lemma UserRoleJoin(db: Related, sch: Schema, user: Obj, role: Obj)
    requires sch == Schema(["user", "role"], [Rel("user", "role", M2M, None)])
    requires db == map[("role", 0) := [role]] && user.id == 0
    ensures Join(db, sch, [user], 2) == [[Some(user), Some(role)]]
  {
    var first := Join(db, sch, [user], 1);
    assert first == [[Some(user)]];
    var row := [Some(user)];
    assert Cells(db, sch, row) == [Some(role)];
    assert [Some(role)][..0] == [];
    assert ExtendRow(row, []) == [];
    assert row + [Some(role)] == [Some(user), Some(role)];
    assert ExtendRow(row, [Some(role)]) == [[Some(user), Some(role)]];
    assert first[..0] == [];
    assert ExtendRows(db, sch, first, 1) == [] + ExtendRow(row, Cells(db, sch, row));
  }
}
