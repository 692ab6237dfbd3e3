/** The rows a nested-loop left join produces from related objects, and the trees they came from. */
module LeftJoin {
  import opened Wrappers
  import opened JoinModel

  /** The related objects: children of a class under a parent id. */
  type Related = map<(string, int), seq<Obj>>

  function Children(db: Related, cls: string, pk: int): seq<Obj> {
    if (cls, pk) in db then db[(cls, pk)] else []
  }

  ghost predicate DistinctIds(objs: seq<Obj>) {
    forall i, j :: 0 <= i < j < |objs| ==> objs[i].id != objs[j].id
  }

  /** Each child list holds objects of its class, each id once. */
  ghost predicate Sound(db: Related) {
    forall cls, pk :: DistinctIds(Children(db, cls, pk)) && forall o :: o in Children(db, cls, pk) ==> o.cls == cls
  }

  // ---------------------------------------------------------------- joining

  /** What the join puts into the next column of a row: the children of the parent, or an empty cell. */
  function Cells(db: Related, sch: Schema, row: Row): (cells: seq<Option<Obj>>)
    requires 0 < |row| < |sch.cols|
    ensures cells != []
  {
    var cls := sch.cols[|row|];
    var parent := ParentOf(sch.rels, cls);
    if parent.None? || parent.value !in sch.cols then [None] else
    var p := Col(sch, parent.value);
    if |row| <= p || row[p].None? then [None] else
    var kids := Children(db, cls, row[p].value.id);
    if kids == [] then [None] else seq(|kids|, i requires 0 <= i < |kids| => Some(kids[i]))
  }

  function ExtendRow(row: Row, cells: seq<Option<Obj>>): seq<Row> {
    if cells == [] then [] else ExtendRow(row, cells[..|cells| - 1]) + [row + [cells[|cells| - 1]]]
  }

  ghost predicate Wide(rows: seq<Row>, width: nat) {
    forall i :: 0 <= i < |rows| ==> |rows[i]| == width
  }

  function ExtendRows(db: Related, sch: Schema, rows: seq<Row>, width: nat): seq<Row>
    requires 0 < width < |sch.cols| && Wide(rows, width)
  {
    if rows == [] then []
    else
      var last := rows[|rows| - 1];
      ExtendRows(db, sch, rows[..|rows| - 1], width) + ExtendRow(last, Cells(db, sch, last))
  }

  /** The left join of the main objects over the first `width` columns. */
  function Join(db: Related, sch: Schema, mains: seq<Obj>, width: nat): (rows: seq<Row>)
    requires 1 <= width <= |sch.cols|
    ensures Wide(rows, width)
    decreases width
  {
    if width == 1 then seq(|mains|, i requires 0 <= i < |mains| => [Some(mains[i])])
    else
      var rows := ExtendRows(db, sch, Join(db, sch, mains, width - 1), width - 1);
      ExtendedWide(db, sch, Join(db, sch, mains, width - 1), width - 1);
      rows
  }

  lemma ExtendRowWide(row: Row, cells: seq<Option<Obj>>)
    ensures Wide(ExtendRow(row, cells), |row| + 1) && |ExtendRow(row, cells)| == |cells|
  {
  }

  lemma ExtendedWide(db: Related, sch: Schema, rows: seq<Row>, width: nat)
    requires 0 < width < |sch.cols| && Wide(rows, width)
    ensures Wide(ExtendRows(db, sch, rows, width), width + 1)
  {
    if rows != [] {
      var last := rows[|rows| - 1];
      ExtendedWide(db, sch, rows[..|rows| - 1], width);
      ExtendRowWide(last, Cells(db, sch, last));
    }
  }

  // ---------------------------------------------------------------- the original trees

  /** The tree below an object of class `cls`: its children, their children, and so on. */
  function Tree(db: Related, sch: Schema, cls: string, o: Obj): Node
    requires Acyclic(sch.rels)
    decreases RankOf(sch.rels, cls), 1, 0
  {
    Node(o, TreeFields(db, sch, cls, o.id, SubRels(sch.rels, cls)))
  }

  function Trees(db: Related, sch: Schema, cls: string, objs: seq<Obj>): (trees: seq<Node>)
    requires Acyclic(sch.rels)
    ensures |trees| == |objs| && forall i :: 0 <= i < |objs| ==> trees[i] == Tree(db, sch, cls, objs[i])
    decreases RankOf(sch.rels, cls), 2, |objs|
  {
    if objs == [] then [] else [Tree(db, sch, cls, objs[0])] + Trees(db, sch, cls, objs[1..])
  }

  /** One field per relationship: all children, or the first one for a to-one relationship. */
  function TreeFields(db: Related, sch: Schema, cls: string, pk: int, rels: seq<Rel>): map<string, Field>
    requires Acyclic(sch.rels)
    requires forall r :: r in rels ==> r in sch.rels && r.source == cls
    decreases RankOf(sch.rels, cls), 0, |rels|
  {
    if rels == [] then map[]
    else
      var last := rels[|rels| - 1];
      RankFalls(sch.rels, last);
      var kids := Trees(db, sch, last.target, Children(db, last.target, pk));
      TreeFields(db, sch, cls, pk, rels[..|rels| - 1])
      [last.FieldName() := Pack(last, kids)]
  }
}
