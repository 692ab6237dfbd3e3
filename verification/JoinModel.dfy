/** Rows of a left join, and the nesting that turns them back into trees. */
module JoinModel {
  import opened Wrappers

  /** An entity of a mapped class; `data` stands for its other columns. */
  datatype Obj = Obj(cls: string, id: int, data: int)

  type Row = seq<Option<Obj>>

  datatype Kind = O2M | M2O | O2O | M2M {
    predicate Many() { O2M? || M2M? }
  }

  /** A parsed relationship `source-kind-target[:custom]`. */
  datatype Rel = Rel(source: string, target: string, kind: Kind, custom: Option<string>) {
    /** The field that holds the related objects. */
    function FieldName(): string {
      if custom.Some? then custom.value else if kind.Many() then target + "s" else target
    }
  }

  /** The class of each column, the main class first, and the entries of the relation graph. */
  datatype Schema = Schema(cols: seq<string>, rels: seq<Rel>)

  /** A nested result: an object and its relation fields. */
  datatype Node = Node(obj: Obj, fields: map<string, Field>)

  datatype Field = One(node: Option<Node>) | Many(nodes: seq<Node>)

  function Pack(rel: Rel, nodes: seq<Node>): Field {
    if rel.kind.Many() then Many(nodes)
    else One(if nodes == [] then None else Some(nodes[0]))
  }

  // ---------------------------------------------------------------- schemas

  function IndexOf(cols: seq<string>, cls: string): (i: nat)
    requires cls in cols
    ensures i < |cols| && cols[i] == cls
  {
    if cols[0] == cls then 0 else 1 + IndexOf(cols[1..], cls)
  }

  function Col(sch: Schema, cls: string): (i: nat)
    requires cls in sch.cols
    ensures i < |sch.cols| && sch.cols[i] == cls
  {
    IndexOf(sch.cols, cls)
  }

  /** `rank` decreases along every relationship. */
  ghost predicate Ranks(rels: seq<Rel>, rank: string -> nat) {
    forall r :: r in rels ==> rank(r.source) > rank(r.target)
  }

  /** No class lies below itself. */
  ghost predicate Acyclic(rels: seq<Rel>) {
    exists rank: string -> nat :: Ranks(rels, rank)
  }

  ghost function RankOf(rels: seq<Rel>, cls: string): nat
    requires Acyclic(rels)
  {
    var rank: string -> nat :| Ranks(rels, rank);
    rank(cls)
  }

  lemma RankFalls(rels: seq<Rel>, r: Rel)
    requires Acyclic(rels) && r in rels
    ensures RankOf(rels, r.target) < RankOf(rels, r.source)
  {
  }

  /** One column per class, and relationships without a cycle, one for each pair of classes as in a dictionary:
      what nesting needs.  With several columns and no relationship at all the rows are not nested. */
  ghost predicate Nestable(sch: Schema) {
    && sch.cols != [] && (|sch.cols| > 1 ==> sch.rels != [])
    && Acyclic(sch.rels)
    && (forall i, j :: 0 <= i < j < |sch.rels| ==>
          (sch.rels[i].source, sch.rels[i].target) != (sch.rels[j].source, sch.rels[j].target))
    && (forall i, j :: 0 <= i < j < |sch.cols| ==> sch.cols[i] != sch.cols[j])
  }

  /** Every relationship leads from a column to a later one: parents are joined first. */
  ghost predicate Ordered(sch: Schema) {
    forall r :: r in sch.rels ==>
      r.source in sch.cols && r.target in sch.cols && Col(sch, r.source) < Col(sch, r.target)
  }

  /** One column per class, and a relation tree over all columns rooted at the first: what the join needs. */
  ghost predicate WellFormed(sch: Schema) {
    && sch.cols != []
    && Ordered(sch)
    && (forall i, j :: 0 <= i < j < |sch.cols| ==> sch.cols[i] != sch.cols[j])
    && (forall i, j :: 0 <= i < j < |sch.rels| ==> sch.rels[i].target != sch.rels[j].target)
    && (forall c :: 1 <= c < |sch.cols| ==> ParentOf(sch.rels, sch.cols[c]).Some?)
  }

  lemma OrderedIsAcyclic(sch: Schema)
    requires Ordered(sch)
    ensures Acyclic(sch.rels)
  {
    assert Ranks(sch.rels, cls => if cls in sch.cols then |sch.cols| - Col(sch, cls) else 0);
  }

  /** The relationships that leave a class, in the order given. */
  function SubRels(rels: seq<Rel>, cls: string): (sub: seq<Rel>)
    ensures forall r :: r in sub <==> r in rels && r.source == cls
  {
    if rels == [] then []
    else
      var rest := SubRels(rels[..|rels| - 1], cls);
      var last := rels[|rels| - 1];
      if last.source == cls then rest + [last] else rest
  }

  /** The class a class hangs from. */
  function ParentOf(rels: seq<Rel>, cls: string): (parent: Option<string>)
    ensures parent.Some? ==> exists r :: r in rels && r.target == cls && r.source == parent.value
    ensures parent.None? ==> forall r :: r in rels ==> r.target != cls
  {
    if rels == [] then None
    else if rels[|rels| - 1].target == cls then Some(rels[|rels| - 1].source)
    else ParentOf(rels[..|rels| - 1], cls)
  }

  // ---------------------------------------------------------------- reading rows

  /** What groups are filed under: an id, or the address of an object, which is no id. */
  datatype Key = Id(id: int) | Address(obj: Obj)

  /** The key of a main object: its id, or its address when the id counts as false. */
  function KeyOf(o: Obj): Key {
    if o.id != 0 then Id(o.id) else Address(o)
  }

  /** What is read from a row: the main object, or the object in column `c` of a row of the
      main object `main` whose column `p` holds the parent `pk`. */
  datatype Selector = Head | Child(c: nat, p: nat, main: Key, pk: Key)

  function Select(sel: Selector, row: Row): seq<Obj> {
    match sel
    case Head => if 0 < |row| && row[0].Some? then [row[0].value] else []
    case Child(c, p, main, pk) =>
      if c < |row| && p < |row| && row[0].Some? && KeyOf(row[0].value) == main
         && row[c].Some? && row[p].Some? && Id(row[p].value.id) == pk
      then [row[c].value] else []
  }

  function Collect(rows: seq<Row>, sel: Selector): seq<Obj> {
    if rows == [] then [] else Collect(rows[..|rows| - 1], sel) + Select(sel, rows[|rows| - 1])
  }

  function Ids(objs: seq<Obj>): (ids: set<int>) {
    set o | o in objs :: o.id
  }

  /** The first object of each id, in order. */
  function Unique(objs: seq<Obj>): (unique: seq<Obj>)
    ensures Ids(unique) == Ids(objs)
    ensures forall o :: o in unique ==> o in objs
  {
    if objs == [] then []
    else
      var rest := Unique(objs[..|objs| - 1]);
      var last := objs[|objs| - 1];
      assert Ids(objs) == Ids(objs[..|objs| - 1]) + {last.id};
      if last.id in Ids(rest) then rest
      else assert Ids(rest + [last]) == Ids(rest) + {last.id}; rest + [last]
  }

  function Keys(objs: seq<Obj>): set<Key> {
    set o | o in objs :: KeyOf(o)
  }

  /** The first main object of each key, in order. */
  function Mains(objs: seq<Obj>): (mains: seq<Obj>)
    ensures forall o :: o in mains ==> o in objs
  {
    if objs == [] then []
    else
      var rest := Mains(objs[..|objs| - 1]);
      var last := objs[|objs| - 1];
      if KeyOf(last) in Keys(rest) then rest else rest + [last]
  }

  /** The children of class `cls` that the rows give to the parent `pk` under the main object `main`.
      The main column and classes without a column or a parent are filed nowhere. */
  function Group(sch: Schema, rows: seq<Row>, main: Key, cls: string, pk: Key): seq<Obj> {
    var parent := ParentOf(sch.rels, cls);
    if cls !in sch.cols || Col(sch, cls) == 0 || parent.None? || parent.value !in sch.cols then []
    else Collect(rows, Child(Col(sch, cls), Col(sch, parent.value), main, pk))
  }

  // ---------------------------------------------------------------- nesting

  /** The nested objects of class `cls` under the parent `pk`. */
  function Build(sch: Schema, rows: seq<Row>, main: Key, cls: string, pk: Key): seq<Node>
    requires Acyclic(sch.rels)
    decreases RankOf(sch.rels, cls), 2, 0
  {
    BuildNodes(sch, rows, main, cls, Unique(Group(sch, rows, main, cls, pk)))
  }

  function BuildNodes(sch: Schema, rows: seq<Row>, main: Key, cls: string, objs: seq<Obj>): (nodes: seq<Node>)
    requires Acyclic(sch.rels)
    ensures |nodes| == |objs| && forall i :: 0 <= i < |objs| ==> nodes[i].obj == objs[i]
    decreases RankOf(sch.rels, cls), 1, |objs|
  {
    if objs == [] then []
    else
      var last := objs[|objs| - 1];
      BuildNodes(sch, rows, main, cls, objs[..|objs| - 1]) +
      [Node(last, BuildFields(sch, rows, main, cls, Id(last.id), SubRels(sch.rels, cls)))]
  }

  function BuildFields(sch: Schema, rows: seq<Row>, main: Key, cls: string, pk: Key, rels: seq<Rel>): map<string, Field>
    requires Acyclic(sch.rels)
    requires forall r :: r in rels ==> r in sch.rels && r.source == cls
    decreases RankOf(sch.rels, cls), 0, |rels|
  {
    if rels == [] then map[]
    else
      var last := rels[|rels| - 1];
      RankFalls(sch.rels, last);
      BuildFields(sch, rows, main, cls, pk, rels[..|rels| - 1])
      [last.FieldName() := Pack(last, Build(sch, rows, main, last.target, pk))]
  }

  datatype Output = Nothing | Single(node: Node) | List(nodes: seq<Node>)

  /** One result per main object; a lone result is not wrapped in a list. */
  function Serialize(sch: Schema, rows: seq<Row>): Output
    requires Acyclic(sch.rels) && sch.cols != []
  {
    if rows == [] || rows[0] == [] || rows[0][0].None? then Nothing
    else
      var results := Results(sch, rows, Mains(Collect(rows, Head)));
      if |results| == 1 then Single(results[0]) else List(results)
  }

  /** The key of the main object serves both to find its groups and as the parent of the first level. */
  function Result(sch: Schema, rows: seq<Row>, m: Obj): Node
    requires Acyclic(sch.rels) && sch.cols != []
  {
    Node(m, BuildFields(sch, rows, KeyOf(m), sch.cols[0], KeyOf(m), SubRels(sch.rels, sch.cols[0])))
  }

  function Results(sch: Schema, rows: seq<Row>, mains: seq<Obj>): seq<Node>
    requires Acyclic(sch.rels) && sch.cols != []
  {
    seq(|mains|, i requires 0 <= i < |mains| => Result(sch, rows, mains[i]))
  }
}
