/** Ordering plugins after their dependencies. */
module PluginOrder {
  import opened Wrappers
  import opened Collections

  /** `dependsOn` is absent when the plugin declares nothing. */
  datatype Plugin = Plugin(name: string, dependsOn: Option<seq<string>>)

  /** The progress of the search: names done, and plugins in the order in which they were done. */
  datatype Progress = Progress(visited: set<string>, ordered: seq<Plugin>)

  datatype Outcome = Done(progress: Progress) | Missing(plugin: string, dep: string) | Cycle(path: seq<string>)

  type Catalog = map<string, Plugin>

  /** The plugins by name; of two with the same name the later one stays. */
  function MapByName(ps: seq<Plugin>): (m: Catalog)
    ensures forall n :: n in m ==> m[n].name == n && m[n] in ps
    ensures forall p :: p in ps ==> p.name in m
  {
    if ps == [] then map[]
    else MapByName(ps[..|ps| - 1])[ps[|ps| - 1].name := ps[|ps| - 1]]
  }

  predicate Consistent(m: Catalog) {
    forall n :: n in m ==> m[n].name == n
  }

  function IndexOf(names: seq<string>, n: string): (i: nat)
    requires n in names
    ensures i < |names| && names[i] == n && n !in names[..i]
  {
    if names[0] == n then 0 else
      var i := IndexOf(names[1..], n);
      assert names[..i + 1] == [names[0]] + names[1..][..i];
      1 + i
  }

  /** Visits one plugin, with `visiting` the plugins whose dependencies are being visited. */
  function Visit(m: Catalog, p: Plugin, visiting: seq<string>, progress: Progress): Outcome
    requires Consistent(m) && p.name in m
    decreases |m.Keys - Elements(visiting)|, 0, 1
  {
    if p.name in progress.visited then Done(progress)
    else if p.name in visiting then Cycle(visiting[IndexOf(visiting, p.name)..] + [p.name])
    else
      var visited := if p.dependsOn.None? then Done(progress) else VisitDeps(m, p, visiting, progress);
      if visited.Done?
      then Done(Progress(visited.progress.visited + {p.name}, visited.progress.ordered + [p]))
      else visited
  }

  function VisitDeps(m: Catalog, p: Plugin, visiting: seq<string>, progress: Progress): Outcome
    requires Consistent(m) && p.name in m && p.name !in visiting && p.dependsOn.Some?
    decreases |m.Keys - Elements(visiting)|, 0, 0
  {
    assert p.name in m.Keys - Elements(visiting) && p.name !in m.Keys - Elements(visiting + [p.name]);
    Fewer(m.Keys - Elements(visiting + [p.name]), m.Keys - Elements(visiting));
    VisitAll(m, p.name, p.dependsOn.value, visiting + [p.name], progress)
  }

  /** Visits the dependencies of the plugin named `source` in order. */
  function VisitAll(m: Catalog, source: string, deps: seq<string>, visiting: seq<string>, progress: Progress): Outcome
    requires Consistent(m)
    decreases |m.Keys - Elements(visiting)|, |deps|
  {
    if deps == [] then Done(progress)
    else if deps[0] !in m then Missing(source, deps[0])
    else
      var first := Visit(m, m[deps[0]], visiting, progress);
      if first.Done? then VisitAll(m, source, deps[1..], visiting, first.progress) else first
  }

  /** Visits the plugins in the order given. */
  function VisitEach(m: Catalog, ps: seq<Plugin>, progress: Progress): Outcome
    requires Consistent(m) && forall p :: p in ps ==> p.name in m
  {
    if ps == [] then Done(progress)
    else
      var first := Visit(m, ps[0], [], progress);
      if first.Done? then VisitEach(m, ps[1..], first.progress) else first
  }

  function Resolve(ps: seq<Plugin>): Outcome {
    VisitEach(MapByName(ps), ps, Progress({}, []))
  }
}
