/** Ordering succeeds exactly when it can, and failures name a real cause. */
module PluginOrderProofs {
  import opened Collections
  import opened PluginOrder

  // ---------------------------------------------------------------- the relation

  function Deps(p: Plugin): seq<string> {
    if p.dependsOn.Some? then p.dependsOn.value else []
  }

  /** The plugin named `a` depends on the one named `b`. */
  predicate DependsOn(m: Catalog, a: string, b: string) {
    a in m && b in Deps(m[a])
  }

  /** Each name depends on the next. */
  ghost predicate Chain(m: Catalog, path: seq<string>) {
    forall i :: 0 <= i < |path| - 1 ==> DependsOn(m, path[i], path[i + 1])
  }

  ghost predicate IsCycle(m: Catalog, path: seq<string>) {
    |path| >= 2 && path[0] == path[|path| - 1] && Chain(m, path)
  }

  ghost predicate Acyclic(m: Catalog) {
    forall path :: !IsCycle(m, path)
  }

  ghost predicate Complete(m: Catalog) {
    forall a, b :: DependsOn(m, a, b) ==> b in m
  }

  ghost predicate Distinct(ps: seq<Plugin>) {
    forall i, j :: 0 <= i < j < |ps| ==> ps[i].name != ps[j].name
  }

  function NamesIn(ps: seq<Plugin>): (r: set<string>)
    ensures forall n :: n in r <==> exists i :: 0 <= i < |ps| && ps[i].name == n
  {
    set i | 0 <= i < |ps| :: ps[i].name
  }

  /** Every plugin comes after all its dependencies. */
  ghost predicate InOrder(ps: seq<Plugin>) {
    forall i, d :: 0 <= i < |ps| && d in Deps(ps[i]) ==> d in NamesIn(ps[..i])
  }

  // ---------------------------------------------------------------- a finished search

  /** The plugins done so far are in order, without repetition, and from the catalog. */
  ghost predicate Proper(m: Catalog, progress: Progress) {
    && progress.visited == NamesIn(progress.ordered)
    && (forall p :: p in progress.ordered ==> p.name in m && m[p.name] == p)
    && Distinct(progress.ordered)
    && InOrder(progress.ordered)
  }

  /** More plugins have been done, none of them among `visiting`. */
  ghost predicate Extends(before: Progress, after: Progress, visiting: seq<string>) {
    && before.ordered <= after.ordered
    && before.visited <= after.visited
    && forall n :: n in visiting && n in after.visited ==> n in before.visited
  }

  lemma AppendProper(m: Catalog, progress: Progress, p: Plugin)
    requires Proper(m, progress) && p.name in m && m[p.name] == p && p.name !in progress.visited
    requires forall d :: d in Deps(p) ==> d in progress.visited
    ensures Proper(m, Progress(progress.visited + {p.name}, progress.ordered + [p]))
  {
    var ordered := progress.ordered;
    var ordered' := ordered + [p];
    hide Deps;
    NamesSnoc(ordered, p);
    forall i, d | 0 <= i < |ordered'| && d in Deps(ordered'[i]) ensures d in NamesIn(ordered'[..i]) {
      assert ordered'[..i] == ordered[..i];
      if i == |ordered| { assert ordered[..i] == ordered; }
    }
    hide NamesIn;
    assert Distinct(ordered') by {
      forall i | 0 <= i < |ordered| ensures ordered[i].name != p.name { assert ordered[i].name in NamesIn(ordered); }
    }
  }

  lemma NamesSnoc(ps: seq<Plugin>, p: Plugin)
    ensures NamesIn(ps + [p]) == NamesIn(ps) + {p.name}
  {
    forall n | n in NamesIn(ps) ensures n in NamesIn(ps + [p]) {
      var i :| 0 <= i < |ps| && ps[i].name == n;
      assert (ps + [p])[i].name == n;
    }
    assert (ps + [p])[|ps|].name == p.name;
  }

  lemma {:induction false} VisitDone(m: Catalog, p: Plugin, visiting: seq<string>, before: Progress)
    requires Consistent(m) && p.name in m && m[p.name] == p && Proper(m, before)
    requires Visit(m, p, visiting, before).Done?
    ensures var after := Visit(m, p, visiting, before).progress;
      Proper(m, after) && Extends(before, after, visiting) && p.name in after.visited
    decreases |m.Keys - Elements(visiting)|, 0
  {
    hide Proper;
    if p.name !in before.visited {
      var inner := visiting + [p.name];
      if p.dependsOn.Some? {
        assert p.name in m.Keys - Elements(visiting) && p.name !in m.Keys - Elements(inner);
        Fewer(m.Keys - Elements(inner), m.Keys - Elements(visiting));
        VisitAllDone(m, p.name, p.dependsOn.value, inner, before);
        var mid := VisitAll(m, p.name, p.dependsOn.value, inner, before).progress;
        assert p.name in inner;
        AppendProper(m, mid, p);
      } else {
        AppendProper(m, before, p);
      }
    }
  }

  lemma {:induction false} VisitAllDone(m: Catalog, source: string, deps: seq<string>, visiting: seq<string>,
      before: Progress)
    requires Consistent(m) && Proper(m, before) && VisitAll(m, source, deps, visiting, before).Done?
    ensures var after := VisitAll(m, source, deps, visiting, before).progress;
      Proper(m, after) && Extends(before, after, visiting) && forall d :: d in deps ==> d in after.visited
    decreases |m.Keys - Elements(visiting)|, |deps|
  {
    hide Proper, Elements;
    if deps != [] {
      VisitDone(m, m[deps[0]], visiting, before);
      var mid := Visit(m, m[deps[0]], visiting, before).progress;
      VisitAllDone(m, source, deps[1..], visiting, mid);
      hide Visit;
      forall d | d in deps ensures d == deps[0] || d in deps[1..] {}
    }
  }

  lemma {:induction false} VisitEachDone(m: Catalog, ps: seq<Plugin>, before: Progress)
    requires Consistent(m) && (forall p :: p in ps ==> p.name in m && m[p.name] == p) && Proper(m, before)
    requires VisitEach(m, ps, before).Done?
    ensures var after := VisitEach(m, ps, before).progress;
      Proper(m, after) && before.visited <= after.visited && forall p :: p in ps ==> p.name in after.visited
  {
    hide Proper;
    if ps != [] {
      VisitDone(m, ps[0], [], before);
      var mid := Visit(m, ps[0], [], before).progress;
      VisitEachDone(m, ps[1..], mid);
      hide Visit;
      forall p | p in ps ensures p == ps[0] || p in ps[1..] {}
    }
  }

  // ---------------------------------------------------------------- a failed search

  /** The failure names a dependency that is absent, or a path that returns to where it started. */
  ghost predicate Justified(m: Catalog, out: Outcome) {
    match out
    case Done(_) => true
    case Missing(plugin, dep) => DependsOn(m, plugin, dep) && dep !in m
    case Cycle(path) => IsCycle(m, path)
  }

  lemma {:induction false} VisitJustified(m: Catalog, p: Plugin, visiting: seq<string>, before: Progress)
    requires Consistent(m) && p.name in m && m[p.name] == p && Chain(m, visiting + [p.name])
    ensures Justified(m, Visit(m, p, visiting, before))
    decreases |m.Keys - Elements(visiting)|, 0
  {
    if p.name in before.visited {
    } else if p.name in visiting {
      ClosedChain(m, p.name, visiting);
    } else if p.dependsOn.Some? {
      var inner := visiting + [p.name];
      assert p.name in m.Keys - Elements(visiting) && p.name !in m.Keys - Elements(inner);
      Fewer(m.Keys - Elements(inner), m.Keys - Elements(visiting));
      VisitAllJustified(m, p.name, p.dependsOn.value, inner, before);
    }
  }

  /** The tail of the visiting path from the first occurrence of a name, closed with that name. */
  lemma ClosedChain(m: Catalog, n: string, visiting: seq<string>)
    requires n in visiting && Chain(m, visiting + [n])
    ensures IsCycle(m, visiting[IndexOf(visiting, n)..] + [n])
  {
    hide DependsOn;
    var k := IndexOf(visiting, n);
    var path := visiting[k..] + [n];
    forall i | 0 <= i < |path| - 1 ensures DependsOn(m, path[i], path[i + 1]) {
      assert path[i] == (visiting + [n])[k + i] && path[i + 1] == (visiting + [n])[k + i + 1];
    }
  }

  lemma {:induction false} VisitAllJustified(m: Catalog, source: string, deps: seq<string>, visiting: seq<string>,
      before: Progress)
    requires Consistent(m) && visiting != [] && visiting[|visiting| - 1] == source && Chain(m, visiting)
    requires forall d :: d in deps ==> DependsOn(m, source, d)
    ensures Justified(m, VisitAll(m, source, deps, visiting, before))
    decreases |m.Keys - Elements(visiting)|, |deps|
  {
    hide Elements, DependsOn;
    if deps != [] {
      assert deps[0] in deps;
      if deps[0] in m {
        assert Chain(m, visiting + [deps[0]]);
        VisitJustified(m, m[deps[0]], visiting, before);
        if Visit(m, m[deps[0]], visiting, before).Done? {
          VisitAllJustified(m, source, deps[1..], visiting, Visit(m, m[deps[0]], visiting, before).progress);
        }
      }
    }
  }

  lemma {:induction false} VisitEachJustified(m: Catalog, ps: seq<Plugin>, before: Progress)
    requires Consistent(m) && forall p :: p in ps ==> p.name in m && m[p.name] == p
    ensures Justified(m, VisitEach(m, ps, before))
  {
    if ps != [] {
      hide Justified;
      assert Chain(m, [] + [ps[0].name]);
      VisitJustified(m, ps[0], [], before);
      if Visit(m, ps[0], [], before).Done? {
        VisitEachJustified(m, ps[1..], Visit(m, ps[0], [], before).progress);
      }
    }
  }

  // ---------------------------------------------------------------- the promises

  lemma {:induction false} CatalogOf(ps: seq<Plugin>)
    requires Distinct(ps)
    ensures var m := MapByName(ps);
      Consistent(m) && m.Keys == NamesIn(ps) && forall p :: p in ps ==> p.name in m && m[p.name] == p
  {
    if ps != [] {
      var most := ps[..|ps| - 1];
      var last := ps[|ps| - 1];
      CatalogOf(most);
      NamesSnoc(most, last);
      assert most + [last] == ps;
      var m := MapByName(most);
      assert MapByName(ps) == m[last.name := last];
      hide MapByName, NamesIn;
      OneMoreEntry(m, most, last);
    }
  }

  lemma OneMoreEntry(m: Catalog, most: seq<Plugin>, last: Plugin)
    requires Consistent(m) && (forall p :: p in most ==> p.name in m && m[p.name] == p)
    requires Distinct(most + [last])
    ensures Consistent(m[last.name := last])
    ensures forall p :: p in most + [last] ==> p.name in m[last.name := last] && m[last.name := last][p.name] == p
  {
    forall p | p in most ensures p.name != last.name {
      var i :| 0 <= i < |most| && most[i] == p;
      assert (most + [last])[i].name != (most + [last])[|most|].name;
    }
  }

  /** A failure is never invented: a reported cycle is a real cycle, a missing dependency is really declared and
      absent. */
  lemma FailureIsReal(ps: seq<Plugin>)
    requires Distinct(ps)
    ensures Justified(MapByName(ps), Resolve(ps))
  {
    CatalogOf(ps);
    VisitEachJustified(MapByName(ps), ps, Progress({}, []));
  }

  /** A success is a permutation of the plugins, each after all its dependencies. */
  lemma SuccessIsOrdered(ps: seq<Plugin>)
    requires Distinct(ps) && Resolve(ps).Done?
    ensures var ordered := Resolve(ps).progress.ordered;
      multiset(ordered) == multiset(ps) && InOrder(ordered) && Distinct(ordered)
  {
    var m := MapByName(ps);
    CatalogOf(ps);
    VisitEachDone(m, ps, Progress({}, []));
    var progress := Resolve(ps).progress;
    hide Resolve, InOrder, Deps, MapByName, NamesIn, VisitEach;
    SamePlugins(m, ps, progress);
    DistinctNoRepeats(progress.ordered);
    DistinctNoRepeats(ps);
    SameElements(progress.ordered, ps);
  }

  lemma DistinctNoRepeats(ps: seq<Plugin>)
    requires Distinct(ps)
    ensures NoRepeats(ps)
  {
  }

  lemma SamePlugins(m: Catalog, ps: seq<Plugin>, progress: Progress)
    requires Proper(m, progress) && m.Keys == NamesIn(ps)
    requires forall p :: p in ps ==> p.name in m && m[p.name] == p && p.name in progress.visited
    ensures forall p :: p in progress.ordered <==> p in ps
  {
    hide InOrder, Distinct;
    forall p | p in progress.ordered ensures p in ps {
      var i :| 0 <= i < |ps| && ps[i].name == p.name;
      assert ps[i] in ps;
    }
    forall p | p in ps ensures p in progress.ordered {
      var i :| 0 <= i < |progress.ordered| && progress.ordered[i].name == p.name;
      assert progress.ordered[i] in progress.ordered;
    }
  }

  /** In an ordered list a dependency path leads backwards. */
  lemma {:induction false} ChainGoesBack(m: Catalog, ps: seq<Plugin>, path: seq<string>, i: nat, j: nat)
    requires InOrder(ps) && Distinct(ps) && (forall p :: p in ps ==> p.name in m && m[p.name] == p)
    requires |path| >= 2 && Chain(m, path)
    requires i < |ps| && ps[i].name == path[0] && j < |ps| && ps[j].name == path[|path| - 1]
    ensures j < i
    decreases |path|
  {
    assert DependsOn(m, path[0], path[1]);
    assert ps[i] in ps;
    var k :| 0 <= k < i && ps[..i][k].name == path[1];
    hide InOrder, Deps;
    if |path| > 2 {
      forall x | 0 <= x < |path[1..]| - 1 ensures DependsOn(m, path[1..][x], path[1..][x + 1]) {
        assert DependsOn(m, path[x + 1], path[x + 2]);
      }
      ChainGoesBack(m, ps, path[1..], k, j);
    } else {
      assert ps[k].name == ps[j].name;
    }
  }

  /** Ordering succeeds exactly when every dependency is present and the relation is acyclic. */
  lemma SucceedsIff(ps: seq<Plugin>)
    requires Distinct(ps)
    ensures Resolve(ps).Done? <==> Complete(MapByName(ps)) && Acyclic(MapByName(ps))
  {
    hide Resolve, MapByName, Complete, Acyclic, Justified, InOrder;
    var m := MapByName(ps);
    FailureIsReal(ps);
    if Resolve(ps).Done? {
      SuccessIsOrdered(ps);
      CatalogOf(ps);
      OrderedIsSound(m, ps, Resolve(ps).progress.ordered);
    } else {
      FailureHasCause(m, Resolve(ps));
    }
  }

  lemma FailureHasCause(m: Catalog, out: Outcome)
    requires Justified(m, out) && !out.Done?
    ensures !Complete(m) || !Acyclic(m)
  {
  }

  lemma OrderedIsSound(m: Catalog, ps: seq<Plugin>, ordered: seq<Plugin>)
    requires multiset(ordered) == multiset(ps) && InOrder(ordered) && Distinct(ordered)
    requires m.Keys == NamesIn(ps) && forall p :: p in ps ==> p.name in m && m[p.name] == p
    ensures Complete(m) && Acyclic(m)
  {
    forall p ensures p in ordered <==> p in ps {
      assert p in multiset(ordered) <==> p in multiset(ps);
    }
    forall n | n in m ensures n in NamesIn(ordered) {
      var i :| 0 <= i < |ps| && ps[i].name == n;
      assert ps[i] in ordered;
    }
    forall a, b | DependsOn(m, a, b) ensures b in m {
      DependencyListed(m, ordered, a, b);
    }
    forall path ensures !IsCycle(m, path) {
      if IsCycle(m, path) {
        assert DependsOn(m, path[0], path[1]);
        var i :| 0 <= i < |ordered| && ordered[i].name == path[0];
        ChainGoesBack(m, ordered, path, i, i);
      }
    }
  }

  lemma DependencyListed(m: Catalog, ordered: seq<Plugin>, a: string, b: string)
    requires InOrder(ordered) && DependsOn(m, a, b) && a in NamesIn(ordered)
    requires forall p :: p in ordered ==> p.name in m && m[p.name] == p
    ensures b in m
  {
    var i :| 0 <= i < |ordered| && ordered[i].name == a;
    assert ordered[i] in ordered;
    assert b in NamesIn(ordered[..i]);
    var j :| 0 <= j < i && ordered[..i][j].name == b;
    assert ordered[j] in ordered;
  }

  // ---------------------------------------------------------------- an ordered input

  lemma {:induction false} AllVisited(m: Catalog, source: string, deps: seq<string>, visiting: seq<string>,
      progress: Progress)
    requires Consistent(m) && forall d :: d in deps ==> d in m && d in progress.visited
    ensures VisitAll(m, source, deps, visiting, progress) == Done(progress)
    decreases |deps|
  {
    if deps != [] {
      assert deps[0] in deps;
      AllVisited(m, source, deps[1..], visiting, progress);
    }
  }

  lemma {:induction false} KeepsOrder(m: Catalog, ps: seq<Plugin>, k: nat)
    requires Distinct(ps) && InOrder(ps) && k <= |ps|
    requires Consistent(m) && forall p :: p in ps ==> p.name in m && m[p.name] == p
    ensures VisitEach(m, ps[k..], Progress(NamesIn(ps[..k]), ps[..k])) == Done(Progress(NamesIn(ps), ps))
    decreases |ps| - k
  {
    if k < |ps| {
      NextInOrder(m, ps, k);
      KeepsOrder(m, ps, k + 1);
      assert ps[k..][0] == ps[k] && ps[k..][1..] == ps[k + 1..];
      hide Visit, NamesIn, InOrder, Distinct;
    } else {
      assert ps[..k] == ps;
    }
  }

  lemma NextInOrder(m: Catalog, ps: seq<Plugin>, k: nat)
    requires Distinct(ps) && InOrder(ps) && k < |ps|
    requires Consistent(m) && forall p :: p in ps ==> p.name in m && m[p.name] == p
    ensures Visit(m, ps[k], [], Progress(NamesIn(ps[..k]), ps[..k])) ==
            Done(Progress(NamesIn(ps[..k + 1]), ps[..k + 1]))
  {
    var progress := Progress(NamesIn(ps[..k]), ps[..k]);
    var p := ps[k];
    assert p.name !in progress.visited;
    forall d | d in Deps(p) ensures d in m && d in progress.visited {
      assert d in NamesIn(ps[..k]);
      var j :| 0 <= j < k && ps[..k][j].name == d;
      assert ps[j] in ps;
    }
    NamesSnoc(ps[..k], p);
    assert ps[..k] + [p] == ps[..k + 1];
    hide InOrder, Distinct, NamesIn;
    if p.dependsOn.Some? { AllVisited(m, p.name, p.dependsOn.value, [] + [p.name], progress); }
    hide VisitAll;
  }

  /** An input that is already in order comes back unchanged. */
  lemma OrderedIsUnchanged(ps: seq<Plugin>)
    requires Distinct(ps) && InOrder(ps)
    ensures Resolve(ps).Done? && Resolve(ps).progress.ordered == ps
  {
    CatalogOf(ps);
    KeepsOrder(MapByName(ps), ps, 0);
    assert ps[0..] == ps && ps[..0] == [];
    assert NamesIn([]) == {};
  }

  /** Ordering twice is ordering once. */
  lemma Idempotent(ps: seq<Plugin>)
    requires Distinct(ps) && Resolve(ps).Done?
    ensures var ordered := Resolve(ps).progress.ordered;
      Resolve(ordered).Done? && Resolve(ordered).progress.ordered == ordered
  {
    SuccessIsOrdered(ps);
    OrderedIsUnchanged(Resolve(ps).progress.ordered);
  }
}
