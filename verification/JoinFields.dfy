/** The names and contents of the fields of a nested result, said without the functions that compute them. */
module JoinFields {
  import opened Wrappers
  import opened JoinModel
  import opened LeftJoin
  import opened JoinTheorems

  // ---------------------------------------------------------------- names and contents

  /** The field of a relationship: its custom name, or the class it leads to, with an s when it may lead to many. */
  ghost predicate Named(rel: Rel, key: string) {
    && (rel.custom.Some? ==> key == rel.custom.value)
    && (rel.custom.None? && (rel.kind == M2O || rel.kind == O2O) ==> key == rel.target)
    && (rel.custom.None? && (rel.kind == O2M || rel.kind == M2M) ==> key == rel.target + "s")
  }

  /** All related objects, or the first one when there can be only one. */
  ghost predicate Contains(rel: Rel, field: Field, nodes: seq<Node>) {
    && (rel.kind == O2M || rel.kind == M2M ==> field == Many(nodes))
    && (rel.kind == M2O || rel.kind == O2O ==> field == One(if nodes == [] then None else Some(nodes[0])))
  }

  /** A later relationship has the same field. */
  ghost predicate Overwritten(rels: seq<Rel>, i: nat)
    requires i < |rels|
  {
    exists j, key :: i < j < |rels| && Named(rels[i], key) && Named(rels[j], key)
  }

  /** The fields are those of the relationships that are not overwritten, under their names, and no others. */
  ghost predicate FieldsOf(fields: map<string, Field>, rels: seq<Rel>, lists: seq<seq<Node>>)
    requires |lists| == |rels|
  {
    && (forall i, key :: 0 <= i < |rels| && !Overwritten(rels, i) && Named(rels[i], key) ==>
          key in fields && Contains(rels[i], fields[key], lists[i]))
    && (forall key :: key in fields ==> exists i :: 0 <= i < |rels| && !Overwritten(rels, i) && Named(rels[i], key))
  }

  lemma NameIs(rel: Rel, key: string)
    ensures Named(rel, key) <==> key == rel.FieldName()
  {
  }

  lemma KeptIff(rels: seq<Rel>, i: nat)
    requires i < |rels|
    ensures Kept(rels, i) <==> !Overwritten(rels, i)
  {
    NameIs(rels[i], rels[i].FieldName());
    hide Named;
    if Overwritten(rels, i) {
      var j, key :| i < j < |rels| && Named(rels[i], key) && Named(rels[j], key);
      NameIs(rels[i], key);
      NameIs(rels[j], key);
    } else {
      forall j | i < j < |rels| ensures rels[j].FieldName() != rels[i].FieldName() {
        NameIs(rels[j], rels[j].FieldName());
      }
    }
  }

  function Packed(rels: seq<Rel>, lists: seq<seq<Node>>): seq<Field>
    requires |lists| == |rels|
  {
    seq(|rels|, i requires 0 <= i < |rels| => Pack(rels[i], lists[i]))
  }

  lemma PackContains(rel: Rel, nodes: seq<Node>)
    ensures Contains(rel, Pack(rel, nodes), nodes)
  {
  }

  lemma HoldingIsFieldsOf(fields: map<string, Field>, rels: seq<Rel>, lists: seq<seq<Node>>)
    requires |lists| == |rels| && Holding(fields, rels, Packed(rels, lists))
    ensures FieldsOf(fields, rels, lists)
  {
    hide Kept, Overwritten, Named, Contains, Pack;
    forall i, key | 0 <= i < |rels| && !Overwritten(rels, i) && Named(rels[i], key)
      ensures key in fields && Contains(rels[i], fields[key], lists[i])
    {
      KeptIff(rels, i);
      NameIs(rels[i], key);
      PackContains(rels[i], lists[i]);
    }
    OnlyNamed(fields, rels);
  }

  lemma OnlyNamed(fields: map<string, Field>, rels: seq<Rel>)
    requires OnlyKept(fields, rels)
    ensures forall key :: key in fields ==> exists i :: 0 <= i < |rels| && !Overwritten(rels, i) && Named(rels[i], key)
  {
    hide Kept, Overwritten, Named;
    forall key | key in fields ensures exists i :: 0 <= i < |rels| && !Overwritten(rels, i) && Named(rels[i], key) {
      var i :| 0 <= i < |rels| && Kept(rels, i) && rels[i].FieldName() == key;
      KeptIff(rels, i);
      NameIs(rels[i], key);
    }
  }

  /** The relationships that leave a class come in the order given, each as often as given: what leaves it in two
      lists together is what leaves it in the first and then what leaves it in the second. */
  lemma {:induction false} LeavingInOrder(a: seq<Rel>, b: seq<Rel>, cls: string)
    ensures SubRels(a + b, cls) == SubRels(a, cls) + SubRels(b, cls)
    ensures |b| == 1 ==> SubRels(b, cls) == if b[0].source == cls then b else []
  {
    hide SubRels;
    if b == [] {
      assert a + b == a;
      LeavingNone(cls);
    } else {
      var init, last := b[..|b| - 1], b[|b| - 1];
      LeavingInOrder(a, init, cls);
      LeavingLast(init, last, cls);
      LeavingLast(a + init, last, cls);
      LeavingNone(cls);
      assert init + [last] == b;
      assert a + init + [last] == a + b;
    }
  }

  lemma LeavingNone(cls: string)
    ensures SubRels([], cls) == []
  {
  }

  lemma LeavingLast(init: seq<Rel>, last: Rel, cls: string)
    ensures SubRels(init + [last], cls) == SubRels(init, cls) + if last.source == cls then [last] else []
  {
    assert (init + [last])[..|init|] == init;
  }

  // ---------------------------------------------------------------- the fields that nesting builds

  function Built(sch: Schema, rows: seq<Row>, main: Key, pk: Key, rels: seq<Rel>): seq<seq<Node>>
    requires Acyclic(sch.rels)
  {
    seq(|rels|, i requires 0 <= i < |rels| => Build(sch, rows, main, rels[i].target, pk))
  }

  lemma {:induction false} HoldingBuilt(
    sch: Schema, rows: seq<Row>, main: Key, cls: string, pk: Key, rels: seq<Rel>)
    requires Acyclic(sch.rels) && forall r :: r in rels ==> r in sch.rels && r.source == cls
    ensures Holding(BuildFields(sch, rows, main, cls, pk, rels), rels, Packed(rels, Built(sch, rows, main, pk, rels)))
  {
    hide Holding, Pack, Acyclic, Build;
    var values := Packed(rels, Built(sch, rows, main, pk, rels));
    if rels == [] {
      HoldingNothing();
      assert values == [];
    } else {
      var init, last := rels[..|rels| - 1], rels[|rels| - 1];
      HoldingBuilt(sch, rows, main, cls, pk, init);
      var (before, value) := (Packed(init, Built(sch, rows, main, pk, init)),
          Pack(last, Build(sch, rows, main, last.target, pk)));
      HoldingSnoc(BuildFields(sch, rows, main, cls, pk, init), init, before, last, value);
      assert init + [last] == rels;
      assert before + [value] == values;
    }
  }

  /** Whatever the rows: the fields of a nested object are named after the relationships that leave its class, and hold
      what the rows group under it. */
  lemma BuiltFieldsNamed(sch: Schema, rows: seq<Row>, main: Key, cls: string, pk: Key)
    requires Acyclic(sch.rels)
    ensures var rels := SubRels(sch.rels, cls);
      FieldsOf(BuildFields(sch, rows, main, cls, pk, rels), rels, Built(sch, rows, main, pk, rels))
  {
    var rels := SubRels(sch.rels, cls);
    HoldingBuilt(sch, rows, main, cls, pk, rels);
    HoldingIsFieldsOf(BuildFields(sch, rows, main, cls, pk, rels), rels, Built(sch, rows, main, pk, rels));
  }

  /** The same of a main object's result, with what the rows group under the object. */
  lemma ResultFieldsNamed(sch: Schema, rows: seq<Row>, m: Obj)
    requires Acyclic(sch.rels) && sch.cols != []
    ensures var rels := SubRels(sch.rels, sch.cols[0]);
      && Result(sch, rows, m).obj == m
      && FieldsOf(Result(sch, rows, m).fields, rels, Built(sch, rows, KeyOf(m), KeyOf(m), rels))
  {
    BuiltFieldsNamed(sch, rows, KeyOf(m), sch.cols[0], KeyOf(m));
    hide FieldsOf, Acyclic, BuildFields, Built;
  }

  // ---------------------------------------------------------------- the fields of the original trees

  function Below(db: Related, sch: Schema, pk: int, rels: seq<Rel>): seq<seq<Node>>
    requires Acyclic(sch.rels)
  {
    seq(|rels|, i requires 0 <= i < |rels| => Trees(db, sch, rels[i].target, Children(db, rels[i].target, pk)))
  }

  /** The fields of an original tree are named after the relationships that leave its class, and hold the trees of the
      related objects: so do those that serializing the join gives back. */
  lemma TreeFieldsNamed(db: Related, sch: Schema, cls: string, o: Obj)
    requires Acyclic(sch.rels)
    ensures var rels := SubRels(sch.rels, cls);
      FieldsOf(Tree(db, sch, cls, o).fields, rels, Below(db, sch, o.id, rels))
  {
    var rels := SubRels(sch.rels, cls);
    HoldingTree(db, sch, cls, o.id, rels);
    assert TreeValues(db, sch, o.id, rels) == Packed(rels, Below(db, sch, o.id, rels));
    hide Holding, Acyclic, TreeFields, Trees, Children, FieldsOf;
    HoldingIsFieldsOf(TreeFields(db, sch, cls, o.id, rels), rels, Below(db, sch, o.id, rels));
  }
}
