/** The ordering as it runs: shared lists that the recursion pushes to and pops from. */
module PluginResolver {
  import opened Collections
  import opened PluginOrder

  datatype Failure = NoFailure | Failed(out: Outcome)

  class Resolver {
    const pluginMap: Catalog
    var visited: set<string>
    var visiting: seq<string>
    var ordered: seq<Plugin>

    constructor (pluginMap: Catalog)
      ensures this.pluginMap == pluginMap && visited == {} && visiting == [] && ordered == []
    {
      this.pluginMap := pluginMap;
      visited, visiting, ordered := {}, [], [];
    }

    function Progress(): Progress
      reads this
    {
      PluginOrder.Progress(visited, ordered)
    }

    /** The fields are those of a finished search, or the failure is reported. */
    ghost predicate Reports(out: Outcome, failure: Failure, stack: seq<string>)
      reads this
    {
      if out.Done? then failure == NoFailure && Progress() == out.progress && visiting == stack
      else failure == Failed(out)
    }

    method Visit(plugin: Plugin) returns (failure: Failure)
      requires Consistent(pluginMap) && plugin.name in pluginMap
      modifies this
      ensures Reports(PluginOrder.Visit(pluginMap, plugin, old(visiting), old(Progress())), failure, old(visiting))
      decreases |pluginMap.Keys - Elements(visiting)|
    {
      if plugin.name in visited { return NoFailure; }
      if plugin.name in visiting {
        var cycleStart := IndexOf(visiting, plugin.name);
        return Failed(Cycle(visiting[cycleStart..] + [plugin.name]));
      }
      if plugin.dependsOn.Some? {
        ghost var before, m := Progress(), pluginMap;
        visiting := visiting + [plugin.name];
        ghost var inner := visiting;
        assert plugin.name in m.Keys - Elements(old(visiting)) && plugin.name !in m.Keys - Elements(inner);
        Fewer(m.Keys - Elements(inner), m.Keys - Elements(old(visiting)));
        var deps := plugin.dependsOn.value;
        for i := 0 to |deps|
          invariant visiting == inner
          invariant VisitAll(m, plugin.name, deps, inner, before) ==
            VisitAll(m, plugin.name, deps[i..], inner, Progress())
        {
          hide PluginOrder.Visit, Elements;
          assert deps[i..][0] == deps[i] && deps[i..][1..] == deps[i + 1..];
          if deps[i] !in pluginMap { return Failed(Missing(plugin.name, deps[i])); }
          failure := Visit(pluginMap[deps[i]]);
          if failure.Failed? { return; }
        }
        visiting := visiting[..|visiting| - 1];
      }
      visited := visited + {plugin.name};
      ordered := ordered + [plugin];
      failure := NoFailure;
    }

    /** Visits the plugins in the order given. */
    method VisitPlugins(plugins: seq<Plugin>) returns (failure: Failure)
      requires Consistent(pluginMap) && (forall p :: p in plugins ==> p.name in pluginMap) && visiting == []
      modifies this
      ensures Reports(VisitEach(pluginMap, plugins, old(Progress())), failure, [])
    {
      ghost var m, before := pluginMap, Progress();
      for i := 0 to |plugins|
        invariant visiting == []
        invariant VisitEach(m, plugins, before) == VisitEach(m, plugins[i..], Progress())
      {
        hide PluginOrder.Visit;
        assert plugins[i..][0] == plugins[i] && plugins[i..][1..] == plugins[i + 1..];
        failure := Visit(plugins[i]);
        if failure.Failed? { return; }
      }
      failure := NoFailure;
    }
  }

  method ResolvePluginOrder(plugins: seq<Plugin>) returns (out: Outcome)
    ensures out == Resolve(plugins)
  {
    var pluginMap: Catalog := map[];
    for i := 0 to |plugins|
      invariant pluginMap == MapByName(plugins[..i])
    {
      assert plugins[..i + 1][..i] == plugins[..i];
      pluginMap := pluginMap[plugins[i].name := plugins[i]];
    }
    assert plugins[..|plugins|] == plugins;
    var resolver := new Resolver(pluginMap);
    var failure := resolver.VisitPlugins(plugins);
    hide VisitEach, MapByName;
    out := if failure.Failed? then failure.out else Done(Progress(resolver.visited, resolver.ordered));
  }
}
