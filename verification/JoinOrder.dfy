/** The order of the rows only decides the order of siblings. */
module JoinOrder {
  import opened Wrappers
  import opened JoinModel
  import opened LeftJoin
  import opened JoinProofs
  import opened JoinTheorems

  /** A tree whose to-many fields are multisets: equal shapes are trees equal up to the order of siblings. */
  datatype Shape = Shape(obj: Obj, fields: map<string, ShapeField>)

  datatype ShapeField = OneOf(shape: Option<Shape>) | ManyOf(shapes: multiset<Shape>)

  function ShapeOf(n: Node): Shape {
    Shape(n.obj, map k | k in n.fields :: FieldShape(n.fields[k]))
  }

  function FieldShape(f: Field): ShapeField {
    match f
    case One(None) => OneOf(None)
    case One(Some(n)) => OneOf(Some(ShapeOf(n)))
    case Many(ns) => ManyOf(Shapes(ns))
  }

  function Shapes(nodes: seq<Node>): multiset<Shape> {
    if nodes == [] then multiset{} else Shapes(nodes[..|nodes| - 1]) + multiset{ShapeOf(nodes[|nodes| - 1])}
  }

  /** The same rows, in any order and with any repetition. */
  ghost predicate SameRows(a: seq<Row>, b: seq<Row>) {
    forall r :: r in a <==> r in b
  }

  ghost predicate SameObjs(x: seq<Obj>, y: seq<Obj>) {
    DistinctIds(x) && DistinctIds(y) && forall o :: o in x <==> o in y
  }

  /** A to-one relationship relates at most one object. */
  ghost predicate Singular(db: Related, sch: Schema) {
    forall rel, pk :: rel in sch.rels && !rel.kind.Many() ==> |Children(db, rel.target, pk)| <= 1
  }

  // ---------------------------------------------------------------- groups, up to order

  lemma SameRowsCollect(a: seq<Row>, b: seq<Row>, sel: Selector, o: Obj)
    requires SameRows(a, b)
    ensures o in Collect(a, sel) <==> o in Collect(b, sel)
  {
    InCollect(a, sel, o);
    InCollect(b, sel, o);
    if i :| 0 <= i < |a| && o in Select(sel, a[i]) {
      assert a[i] in b;
    }
    if i :| 0 <= i < |b| && o in Select(sel, b[i]) {
      assert b[i] in a;
    }
  }

  // ---------------------------------------------------------------- deduplicated lists as sets

  lemma KeptById(x: seq<Obj>, o: Obj)
    requires o in x && forall o' :: o' in x && o'.id == o.id ==> o' == o
    ensures o in Unique(x)
  {
    assert o.id in Ids(x);
    var o' :| o' in Unique(x) && o'.id == o.id;
  }

  /** A list drawn from `kids` that contains all of them deduplicates to the same members. */
  lemma DedupedMembers(x: seq<Obj>, kids: seq<Obj>)
    requires DistinctIds(kids) && forall o :: o in x <==> o in kids
    ensures SameObjs(Unique(x), kids)
  {
    UniqueIsDistinct(x);
    forall o | o in kids ensures o in Unique(x) {
      forall o' | o' in x && o'.id == o.id ensures o' == o {
        var i :| 0 <= i < |kids| && kids[i] == o;
        var j :| 0 <= j < |kids| && kids[j] == o';
        assert i == j;
      }
      KeptById(x, o);
    }
  }

  lemma {:induction false} SameObjsLength(x: seq<Obj>, y: seq<Obj>)
    requires SameObjs(x, y)
    ensures |x| == |y|
  {
    DistinctSize(x);
    DistinctSize(y);
    assert (set o | o in x) == (set o | o in y);
  }

  lemma {:induction false} DistinctSize(x: seq<Obj>)
    requires DistinctIds(x)
    ensures |set o | o in x| == |x|
  {
    if x != [] {
      var init, last := x[..|x| - 1], x[|x| - 1];
      DistinctSize(init);
      assert x == init + [last];
      assert (set o | o in x) == (set o | o in init) + {last};
      assert forall i :: 0 <= i < |init| ==> init[i] == x[i] && x[i].id != last.id;
    }
  }

  // ---------------------------------------------------------------- groups of reordered rows

  lemma SameAppears(a: seq<Row>, b: seq<Row>, main: Key, p: nat, pk: int)
    requires SameRows(a, b) && Appears(a, main, p, pk)
    ensures Appears(b, main, p, pk)
  {
    var o := Collect(a, Child(p, p, main, Id(pk)))[0];
    SameRowsCollect(a, b, Child(p, p, main, Id(pk)), o);
  }

  lemma CollectedIsChild(db: Related, sch: Schema, mains: seq<Obj>, rows: seq<Row>, c: nat, p: nat, main: Key,
      pk: int, o: Obj)
    requires forall r :: r in rows ==> Linked(db, sch, mains, r)
    requires c < |sch.cols| && ColumnOf(sch, sch.cols[c], c, p) && o in Collect(rows, Child(c, p, main, Id(pk)))
    ensures o in Children(db, sch.cols[c], pk)
  {
    hide ColumnOf, Children;
    InCollect(rows, Child(c, p, main, Id(pk)), o);
    var i :| 0 <= i < |rows| && o in Select(Child(c, p, main, Id(pk)), rows[i]);
    assert Linked(db, sch, mains, rows[i]);
  }

  ghost predicate GroupsMatch(db: Related, sch: Schema, rows: seq<Row>) {
    forall main, c: nat, p: nat, pk ::
      1 <= c < |sch.cols| && ColumnOf(sch, sch.cols[c], c, p) && Appears(rows, main, p, pk) ==>
        SameObjs(Unique(Collect(rows, Child(c, p, main, Id(pk)))), Children(db, sch.cols[c], pk))
  }

  lemma ReorderedGroup(db: Related, sch: Schema, mains: seq<Obj>, rows: seq<Row>, main: Key, c: nat, p: nat, pk: int)
    requires WellFormed(sch) && Sound(db) && SameRows(rows, Join(db, sch, mains, |sch.cols|))
    requires 1 <= c < |sch.cols| && ColumnOf(sch, sch.cols[c], c, p) && Appears(rows, main, p, pk)
    ensures SameObjs(Unique(Collect(rows, Child(c, p, main, Id(pk)))), Children(db, sch.cols[c], pk))
  {
    var joined := Join(db, sch, mains, |sch.cols|);
    var kids := Children(db, sch.cols[c], pk);
    var sel := Child(c, p, main, Id(pk));
    assert DistinctIds(kids);
    SameAppears(rows, joined, main, p, pk);
    hide WellFormed, Sound, ColumnOf, Children, Join, Linked;
    JoinLinked(db, sch, mains, |sch.cols|);
    GroupIsChildren(db, sch, mains, main, c, p, pk);
    forall o ensures o in Collect(rows, sel) <==> o in kids {
      SameRowsCollect(rows, joined, sel, o);
      if o in Collect(joined, sel) { CollectedIsChild(db, sch, mains, joined, c, p, main, pk, o); }
      assert o in Unique(Collect(joined, sel)) ==> o in Collect(joined, sel);
    }
    DedupedMembers(Collect(rows, sel), kids);
  }

  lemma ReorderedGroups(db: Related, sch: Schema, mains: seq<Obj>, rows: seq<Row>)
    requires WellFormed(sch) && Sound(db) && SameRows(rows, Join(db, sch, mains, |sch.cols|))
    ensures GroupsMatch(db, sch, rows)
  {
    hide Ordered, Sound, Unique, Collect, ColumnOf, SameRows, Appears, SameObjs;
    forall main, c: nat, p: nat, pk | 1 <= c < |sch.cols| && ColumnOf(sch, sch.cols[c], c, p)
        && Appears(rows, main, p, pk)
      ensures SameObjs(Unique(Collect(rows, Child(c, p, main, Id(pk)))), Children(db, sch.cols[c], pk))
    {
      ReorderedGroup(db, sch, mains, rows, main, c, p, pk);
    }
  }

  // ---------------------------------------------------------------- shapes

  lemma {:induction false} ShapesSize(nodes: seq<Node>)
    ensures |Shapes(nodes)| == |nodes|
  {
    if nodes != [] { ShapesSize(nodes[..|nodes| - 1]); }
  }

  lemma {:induction false} InShapes(nodes: seq<Node>, s: Shape)
    ensures s in Shapes(nodes) <==> exists i :: 0 <= i < |nodes| && ShapeOf(nodes[i]) == s
  {
    if nodes != [] {
      hide ShapeOf;
      var init := nodes[..|nodes| - 1];
      InShapes(init, s);
      if s in Shapes(init) {
        var i :| 0 <= i < |init| && ShapeOf(init[i]) == s;
        assert nodes[i] == init[i];
      }
      if i :| 0 <= i < |nodes| && ShapeOf(nodes[i]) == s {
        if i < |init| { assert init[i] == nodes[i]; }
      }
    }
  }

  /** The nodes belong to objects of distinct ids, in order. */
  ghost predicate NodesFor(nodes: seq<Node>, x: seq<Obj>) {
    |nodes| == |x| && DistinctIds(x) && forall i :: 0 <= i < |x| ==> nodes[i].obj == x[i]
  }

  /** Nodes of distinct objects have distinct shapes. */
  lemma {:induction false} ShapesOnce(nodes: seq<Node>, x: seq<Obj>, s: Shape)
    requires NodesFor(nodes, x)
    ensures Shapes(nodes)[s] <= 1
  {
    if nodes != [] {
      var init, last := nodes[..|nodes| - 1], nodes[|nodes| - 1];
      ShapesOnce(init, x[..|x| - 1], s);
      InShapes(init, s);
      assert ShapeOf(last).obj == last.obj;
      if s in Shapes(init) {
        var i :| 0 <= i < |init| && ShapeOf(init[i]) == s;
        assert s.obj == x[i] && x[i] != x[|x| - 1];
      }
      hide ShapeOf;
    }
  }

  lemma PackShape(rel: Rel, nodes: seq<Node>, trees: seq<Node>)
    requires Shapes(nodes) == Shapes(trees)
    requires rel.kind.Many() || |trees| <= 1
    ensures FieldShape(Pack(rel, nodes)) == FieldShape(Pack(rel, trees))
  {
    ShapesSize(nodes);
    ShapesSize(trees);
    if !rel.kind.Many() && trees != [] {
      hide ShapeOf;
      assert trees[..0] == [] && nodes[..0] == [];
      assert Shapes(trees) == multiset{ShapeOf(trees[0])} && Shapes(nodes) == multiset{ShapeOf(nodes[0])};
      assert ShapeOf(nodes[0]) in multiset{ShapeOf(trees[0])};
    }
  }

  lemma SameShapes(nodes: seq<Node>, x: seq<Obj>, trees: seq<Node>, y: seq<Obj>)
    requires NodesFor(nodes, x) && NodesFor(trees, y) && SameObjs(x, y)
    requires forall i, j :: 0 <= i < |x| && 0 <= j < |y| && x[i] == y[j] ==> ShapeOf(nodes[i]) == ShapeOf(trees[j])
    ensures Shapes(nodes) == Shapes(trees)
  {
    hide ShapeOf, Shapes;
    forall s ensures Shapes(nodes)[s] == Shapes(trees)[s] {
      ShapesOnce(nodes, x, s);
      ShapesOnce(trees, y, s);
      InShapes(nodes, s);
      InShapes(trees, s);
      if s in Shapes(nodes) {
        var i :| 0 <= i < |x| && ShapeOf(nodes[i]) == s;
        assert x[i] in y;
        var j :| 0 <= j < |y| && y[j] == x[i];
      }
      if s in Shapes(trees) {
        var j :| 0 <= j < |y| && ShapeOf(trees[j]) == s;
        assert y[j] in x;
        var i :| 0 <= i < |x| && x[i] == y[j];
      }
    }
  }

  lemma BuildShape(db: Related, sch: Schema, rows: seq<Row>, main: Key, rel: Rel, c: nat, pk: int)
    requires WellFormed(sch) && GroupsMatch(db, sch, rows) && Singular(db, sch)
    requires rel in sch.rels && c < |sch.cols| && rel.source == sch.cols[c] && Appears(rows, main, c, pk)
    ensures rel.target in sch.cols && Acyclic(sch.rels)
    ensures Shapes(Build(sch, rows, main, rel.target, Id(pk))) ==
      Shapes(Trees(db, sch, rel.target, Children(db, rel.target, pk)))
    decreases |sch.cols| - c, 0
  {
    TargetColumn(sch, rel, c);
    OrderedIsAcyclic(sch);
    hide WellFormed, Acyclic, Unique, Collect, Appears, Children, Shapes, ShapeOf, Singular;
    var t := Col(sch, rel.target);
    var x := Unique(Collect(rows, Child(t, c, main, Id(pk))));
    var kids := Children(db, rel.target, pk);
    assert SameObjs(x, kids);
    assert Group(sch, rows, main, rel.target, Id(pk)) == Collect(rows, Child(t, c, main, Id(pk)));
    forall i | 0 <= i < |x| ensures Appears(rows, main, t, x[i].id) {
      assert x[i] in x;
      CollectedAppears(rows, t, c, main, pk, x[i]);
    }
    BuildNodesShapes(db, sch, rows, main, t, x);
    var nodes := BuildNodes(sch, rows, main, rel.target, x);
    SameShapes(nodes, x, Trees(db, sch, rel.target, kids), kids);
  }

  lemma {:induction false} BuildNodesShapes(db: Related, sch: Schema, rows: seq<Row>, main: Key, c: nat, objs: seq<Obj>)
    requires WellFormed(sch) && GroupsMatch(db, sch, rows) && Singular(db, sch)
    requires c < |sch.cols| && forall i :: 0 <= i < |objs| ==> Appears(rows, main, c, objs[i].id)
    ensures Acyclic(sch.rels)
    ensures forall i :: 0 <= i < |objs| ==>
      ShapeOf(BuildNodes(sch, rows, main, sch.cols[c], objs)[i]) == ShapeOf(Tree(db, sch, sch.cols[c], objs[i]))
    decreases |sch.cols| - c, 3, |objs|
  {
    OrderedIsAcyclic(sch);
    hide WellFormed, Acyclic, Unique, Collect, Appears, ShapeOf, BuildFields, Tree, Singular, GroupsMatch, SubRels;
    if objs != [] {
      var init, last := objs[..|objs| - 1], objs[|objs| - 1];
      assert forall i :: 0 <= i < |init| ==> Appears(rows, main, c, init[i].id) by {
        assert forall i :: 0 <= i < |init| ==> init[i] == objs[i];
      }
      BuildNodesShapes(db, sch, rows, main, c, init);
      NodeShape(db, sch, rows, main, c, last);
      var nodes := BuildNodes(sch, rows, main, sch.cols[c], objs);
      assert nodes == BuildNodes(sch, rows, main, sch.cols[c], init) +
                      [Node(last, BuildFields(sch, rows, main, sch.cols[c], Id(last.id),
                          SubRels(sch.rels, sch.cols[c])))];
      hide BuildNodes;
      forall i | 0 <= i < |objs| ensures ShapeOf(nodes[i]) == ShapeOf(Tree(db, sch, sch.cols[c], objs[i])) {
        if i < |init| { assert objs[i] == init[i]; }
      }
    }
  }

  lemma NodeShape(db: Related, sch: Schema, rows: seq<Row>, main: Key, c: nat, o: Obj)
    requires WellFormed(sch) && GroupsMatch(db, sch, rows) && Singular(db, sch)
    requires c < |sch.cols| && Appears(rows, main, c, o.id)
    ensures Acyclic(sch.rels)
    ensures ShapeOf(Node(o, BuildFields(sch, rows, main, sch.cols[c], Id(o.id), SubRels(sch.rels, sch.cols[c])))) ==
            ShapeOf(Tree(db, sch, sch.cols[c], o))
    decreases |sch.cols| - c, 2
  {
    OrderedIsAcyclic(sch);
    hide WellFormed, Acyclic, Appears, ShapeOf, SameFields, BuildFields, TreeFields, Singular, GroupsMatch;
    var sub := SubRels(sch.rels, sch.cols[c]);
    BuildFieldsShape(db, sch, rows, main, c, o.id, sub);
    FieldsDecideShape(o, BuildFields(sch, rows, main, sch.cols[c], Id(o.id), sub),
        TreeFields(db, sch, sch.cols[c], o.id, sub));
  }

  lemma {:induction false} BuildFieldsShape(db: Related, sch: Schema, rows: seq<Row>, main: Key, c: nat, pk: int,
      rels: seq<Rel>)
    requires WellFormed(sch) && GroupsMatch(db, sch, rows) && Singular(db, sch)
    requires c < |sch.cols| && Appears(rows, main, c, pk)
    requires forall r :: r in rels ==> r in sch.rels && r.source == sch.cols[c]
    ensures Acyclic(sch.rels)
    ensures SameFields(BuildFields(sch, rows, main, sch.cols[c], Id(pk), rels),
      TreeFields(db, sch, sch.cols[c], pk, rels))
    decreases |sch.cols| - c, 1, |rels|
  {
    OrderedIsAcyclic(sch);
    hide WellFormed, Acyclic, Unique, Collect, Appears, Shapes, SameFields, Build, Children, Pack;
    if rels == [] {
      NoFields();
    } else {
      var init, last := rels[..|rels| - 1], rels[|rels| - 1];
      BuildFieldsShape(db, sch, rows, main, c, pk, init);
      BuildShape(db, sch, rows, main, last, c, pk);
      var nodes, trees := Build(sch, rows, main, last.target, Id(pk)),
          Trees(db, sch, last.target, Children(db, last.target, pk));
      PackShape(last, nodes, trees);
      AddField(BuildFields(sch, rows, main, sch.cols[c], Id(pk), init), TreeFields(db, sch, sch.cols[c], pk, init),
               last.FieldName(), Pack(last, nodes), Pack(last, trees));
    }
  }

  ghost predicate SameFields(a: map<string, Field>, b: map<string, Field>) {
    a.Keys == b.Keys && forall k :: k in a ==> FieldShape(a[k]) == FieldShape(b[k])
  }

  lemma NoFields()
    ensures SameFields(map[], map[])
  {
  }

  lemma AddField(a: map<string, Field>, b: map<string, Field>, k: string, f: Field, g: Field)
    requires SameFields(a, b) && FieldShape(f) == FieldShape(g)
    ensures SameFields(a[k := f], b[k := g])
  {
  }

  // ---------------------------------------------------------------- any order of rows

  function NodesOf(out: Output): seq<Node> {
    match out
    case Nothing => []
    case Single(n) => [n]
    case List(ns) => ns
  }

  lemma ReorderedMains(db: Related, sch: Schema, mains: seq<Obj>, rows: seq<Row>)
    requires sch.cols != [] && DistinctIds(mains) && SameRows(rows, Join(db, sch, mains, |sch.cols|))
    ensures SameObjs(Mains(Collect(rows, Head)), mains)
    ensures forall m :: m in mains ==> Appears(rows, KeyOf(m), 0, m.id)
  {
    var joined := Join(db, sch, mains, |sch.cols|);
    hide Unique, Mains, Join, DistinctIds;
    JoinMains(db, sch, mains);
    forall o ensures o in Collect(rows, Head) <==> o in mains {
      SameRowsCollect(rows, joined, Head, o);
      if o in Collect(rows, Head) { HeadIsMain(db, sch, mains, joined, o); }
      assert o in Mains(Collect(joined, Head)) ==> o in Collect(joined, Head);
    }
    forall a, b | a in Collect(rows, Head) && b in Collect(rows, Head) && a.id == b.id ensures a == b {
      SameId(mains, a, b);
    }
    MainsAreUnique(Collect(rows, Head));
    DedupedMembers(Collect(rows, Head), mains);
    forall m | m in mains ensures Appears(rows, KeyOf(m), 0, m.id) {
      SameAppears(joined, rows, KeyOf(m), 0, m.id);
    }
  }

  /** Empty fields have the shape of the tree's fields exactly when no field that is kept has children. */
  lemma EmptyShapeIff(db: Related, sch: Schema, cls: string, pk: int, rels: seq<Rel>)
    requires Acyclic(sch.rels) && forall r :: r in rels ==> r in sch.rels && r.source == cls
    ensures SameFields(EmptyFields(rels), TreeFields(db, sch, cls, pk, rels)) <==> Childless(db, rels, pk)
  {
    FieldsEmptyIff(db, sch, cls, pk, rels);
    HoldingEmpty(rels);
    HoldingTree(db, sch, cls, pk, rels);
    hide Acyclic, TreeFields, EmptyFields, Children, Kept, Trees, FieldShape;
    if i :| 0 <= i < |rels| && Kept(rels, i) && Children(db, rels[i].target, pk) != [] {
      var k := rels[i].FieldName();
      assert EmptyFields(rels)[k] == Pack(rels[i], []);
      assert TreeFields(db, sch, cls, pk, rels)[k] ==
          Pack(rels[i], Trees(db, sch, rels[i].target, Children(db, rels[i].target, pk)));
      PackedShapeDiffers(rels[i], Trees(db, sch, rels[i].target, Children(db, rels[i].target, pk)));
    }
  }

  lemma PackedShapeDiffers(rel: Rel, nodes: seq<Node>)
    requires nodes != []
    ensures FieldShape(Pack(rel, nodes)) != FieldShape(Pack(rel, []))
  {
    ShapesSize(nodes);
  }

  lemma FieldsDecideShape(m: Obj, a: map<string, Field>, b: map<string, Field>)
    ensures ShapeOf(Node(m, a)) == ShapeOf(Node(m, b)) <==> SameFields(a, b)
  {
    hide FieldShape;
    var x := ShapeOf(Node(m, a)).fields;
    var y := ShapeOf(Node(m, b)).fields;
    assert x.Keys == a.Keys && y.Keys == b.Keys;
    if x == y {
      forall k | k in a ensures k in b && FieldShape(a[k]) == FieldShape(b[k]) {
        assert k in x;
        assert x[k] == FieldShape(a[k]) && y[k] == FieldShape(b[k]);
      }
      assert a.Keys == b.Keys;
    }
  }

  lemma ResultShapeIff(db: Related, sch: Schema, rows: seq<Row>, m: Obj)
    requires WellFormed(sch) && GroupsMatch(db, sch, rows) && Singular(db, sch) && Appears(rows, KeyOf(m), 0, m.id)
    ensures sch.cols != [] && Acyclic(sch.rels)
    ensures ShapeOf(Result(sch, rows, m)) == ShapeOf(Tree(db, sch, sch.cols[0], m)) <==> LosesNothing(db, sch, m)
  {
    FirstColumnExists(sch);
    hide WellFormed, Acyclic, GroupsMatch, Appears, Singular, SameFields, ShapeOf, Childless;
    var sub := SubRels(sch.rels, sch.cols[0]);
    var tree := TreeFields(db, sch, sch.cols[0], m.id, sub);
    if m.id != 0 {
      BuildFieldsShape(db, sch, rows, KeyOf(m), 0, m.id, sub);
      FieldsDecideShape(m, BuildFields(sch, rows, KeyOf(m), sch.cols[0], KeyOf(m), sub), tree);
    } else {
      AddressFields(sch, rows, KeyOf(m), sch.cols[0], m, sub);
      EmptyShapeIff(db, sch, sch.cols[0], 0, sub);
      FieldsDecideShape(m, EmptyFields(sub), tree);
    }
  }

  /** Serializing the rows of the join in any other order, with any repetition, gives the same trees up to the order
      of siblings at every level, exactly when no main object with id zero has children to lose. */
  lemma {:induction false} SerializeAnyOrder(db: Related, sch: Schema, mains: seq<Obj>, rows: seq<Row>)
    requires WellFormed(sch) && Sound(db) && Singular(db, sch) && DistinctIds(mains) && mains != []
    requires SameRows(rows, Join(db, sch, mains, |sch.cols|))
    ensures Acyclic(sch.rels)
    ensures |NodesOf(Serialize(sch, rows))| == |mains|
    ensures Shapes(NodesOf(Serialize(sch, rows))) == Shapes(Trees(db, sch, sch.cols[0], mains)) <==>
      forall m :: m in mains ==> LosesNothing(db, sch, m)
  {
    hide WellFormed, Acyclic, Join, Mains, Collect, Appears, GroupsMatch, Sound, Singular, SameRows, Shapes, SameObjs,
      Serialize, Results, Trees, LosesNothing;
    FirstColumnExists(sch);
    var found := Mains(Collect(rows, Head));
    ReorderedGroups(db, sch, mains, rows);
    ReorderedMains(db, sch, mains, rows);
    SameObjsLength(found, mains);
    FirstRowFilled(db, sch, mains, rows);
    ResultsShapesIff(db, sch, rows, found, mains);
    SerializedNodes(sch, rows);
  }

  lemma SerializedNodes(sch: Schema, rows: seq<Row>)
    requires Acyclic(sch.rels) && sch.cols != [] && rows != [] && rows[0] != [] && rows[0][0].Some?
    ensures NodesOf(Serialize(sch, rows)) == Results(sch, rows, Mains(Collect(rows, Head)))
  {
    hide Acyclic, Mains, Collect;
  }

  lemma ResultsFor(sch: Schema, rows: seq<Row>, found: seq<Obj>)
    requires Acyclic(sch.rels) && sch.cols != [] && DistinctIds(found)
    ensures NodesFor(Results(sch, rows, found), found)
  {
    hide Acyclic;
  }

  lemma TreesFor(db: Related, sch: Schema, cls: string, objs: seq<Obj>)
    requires Acyclic(sch.rels) && DistinctIds(objs)
    ensures NodesFor(Trees(db, sch, cls, objs), objs)
  {
    hide Acyclic, Trees;
  }

  lemma ResultsShapesIff(db: Related, sch: Schema, rows: seq<Row>, found: seq<Obj>, mains: seq<Obj>)
    requires WellFormed(sch) && GroupsMatch(db, sch, rows) && Singular(db, sch) && SameObjs(found, mains)
    requires forall m :: m in mains ==> Appears(rows, KeyOf(m), 0, m.id)
    ensures sch.cols != [] && Acyclic(sch.rels)
    ensures |Results(sch, rows, found)| == |found|
    ensures Shapes(Results(sch, rows, found)) == Shapes(Trees(db, sch, sch.cols[0], mains)) <==>
      forall m :: m in mains ==> LosesNothing(db, sch, m)
  {
    hide WellFormed, Acyclic, Appears, GroupsMatch, Singular, Results, Trees, LosesNothing;
    hide NodesFor, DistinctIds, Shapes, ShapeOf, KeyOf;
    FirstColumnExists(sch);
    ResultsFor(sch, rows, found);
    TreesFor(db, sch, sch.cols[0], mains);
    ResultsLength(sch, rows, found);
    var (nodes, trees) := (Results(sch, rows, found), Trees(db, sch, sch.cols[0], mains));
    var same := set m | m in mains && LosesNothing(db, sch, m);
    forall i, j | 0 <= i < |found| && 0 <= j < |mains| && found[i] == mains[j]
      ensures ShapeOf(nodes[i]) == ShapeOf(trees[j]) <==> mains[j] in same
    {
      ShapesAtIff(db, sch, rows, found, mains, i, j);
    }
    ShapesEqualIff(nodes, found, trees, mains, same);
  }

  lemma ResultsLength(sch: Schema, rows: seq<Row>, found: seq<Obj>)
    requires Acyclic(sch.rels) && sch.cols != []
    ensures |Results(sch, rows, found)| == |found|
  {
    hide Acyclic, Result;
  }

  lemma ShapesAtIff(db: Related, sch: Schema, rows: seq<Row>, found: seq<Obj>, mains: seq<Obj>, i: nat, j: nat)
    requires WellFormed(sch) && GroupsMatch(db, sch, rows) && Singular(db, sch)
    requires i < |found| && j < |mains| && found[i] == mains[j] && Appears(rows, KeyOf(mains[j]), 0, mains[j].id)
    ensures sch.cols != [] && Acyclic(sch.rels) && |Results(sch, rows, found)| == |found|
    ensures ShapeOf(Results(sch, rows, found)[i]) == ShapeOf(Trees(db, sch, sch.cols[0], mains)[j]) <==>
      LosesNothing(db, sch, mains[j])
  {
    hide WellFormed, Acyclic, Appears, GroupsMatch, Singular, Result, Tree, Trees, LosesNothing, ShapeOf;
    FirstColumnExists(sch);
    ResultShapeIff(db, sch, rows, mains[j]);
  }

  /** Two lists of nodes for the same objects have equal shapes exactly when each object's nodes do. */
  lemma ShapesEqualIff(nodes: seq<Node>, x: seq<Obj>, trees: seq<Node>, y: seq<Obj>, same: set<Obj>)
    requires NodesFor(nodes, x) && NodesFor(trees, y) && SameObjs(x, y)
    requires forall i, j :: 0 <= i < |x| && 0 <= j < |y| && x[i] == y[j] ==>
      (ShapeOf(nodes[i]) == ShapeOf(trees[j]) <==> y[j] in same)
    ensures Shapes(nodes) == Shapes(trees) <==> forall o :: o in y ==> o in same
  {
    if forall o :: o in y ==> o in same {
      SameShapes(nodes, x, trees, y);
    } else {
      var o :| o in y && o !in same;
      assert o in x;
      var i :| 0 <= i < |x| && x[i] == o;
      InShapes(nodes, ShapeOf(nodes[i]));
      InShapes(trees, ShapeOf(nodes[i]));
      forall j | 0 <= j < |y| ensures ShapeOf(trees[j]) != ShapeOf(nodes[i]) {
        assert ShapeOf(trees[j]).obj == y[j] && ShapeOf(nodes[i]).obj == o;
      }
    }
  }

  lemma FirstRowFilled(db: Related, sch: Schema, mains: seq<Obj>, rows: seq<Row>)
    requires sch.cols != [] && mains != [] && SameRows(rows, Join(db, sch, mains, |sch.cols|))
    ensures rows != [] && rows[0] != [] && rows[0][0].Some?
  {
    var joined := Join(db, sch, mains, |sch.cols|);
    hide Join;
    JoinStarts(db, sch, mains, |sch.cols|);
    JoinLinked(db, sch, mains, |sch.cols|);
    assert joined[0] in rows;
    assert rows[0] in joined;
  }
}
