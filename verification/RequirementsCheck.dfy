/** The check as it runs: one shared visited set that the recursion grows. */
module RequirementsCheck {
  import opened Collections
  import opened Requirements

  class Checker {
    const env: Env
    var visited: set<Key>

    constructor (env: Env)
      ensures this.env == env && visited == {}
    {
      this.env := env;
      visited := {};
    }

    method RequirementSatisfied(ghost all: set<Key>, r: Req, extras: set<string>) returns (verdict: Verdict)
      requires Covers(env, all) && r.AsKey() in all
      modifies this
      ensures (verdict, visited) == Visit(env, all, r, extras, old(visited))
      decreases |all - visited|
    {
      if !Active(env, r, extras) { return Ok(true); }
      if r.name !in env.dists { return Ok(false); }
      var dist := env.dists[r.name];
      if r.specifier.Some? && !env.contains(r.specifier.value, dist.version) { return Ok(false); }
      var key := r.AsKey();
      if key in visited { return Ok(true); }
      visited := visited + {key};
      ghost var here := visited;
      assert all - here < all - old(visited);
      Fewer(all - here, all - old(visited));
      var childExtras := ActiveExtras(r.extras);
      var lines := dist.dependencies;
      hide Active;
      for i := 0 to |lines|
        invariant here <= visited
        invariant VisitAll(env, all, lines, childExtras, here) == VisitAll(env, all, lines[i..], childExtras, visited)
      {
        hide Visit;
        assert lines[i..][0] == lines[i] && lines[i..][1..] == lines[i + 1..];
        if lines[i].Malformed? { return BadLine; }
        assert Parsed(lines[i].req) in lines;
        Fewer(all - visited, all - here);
        var satisfied := RequirementSatisfied(all, lines[i].req, childExtras);
        if satisfied != Ok(true) { return satisfied; }
      }
      verdict := Ok(true);
    }

    /** All requirements of the file, in order. */
    method AllSatisfied(lines: seq<Line>) returns (verdict: Verdict)
      requires visited == {}
      modifies this
      ensures verdict == Installed(env, lines)
    {
      for i := 0 to |lines|
        invariant forall j :: 0 <= j < i ==> lines[j].Parsed?
      {
        if lines[i].Malformed? { return BadLine; }
      }
      ghost var all := Universe(env, lines);
      UniverseCovers(env, lines);
      hide Universe;
      for i := 0 to |lines|
        invariant VisitAll(env, all, lines, {""}, {}) == VisitAll(env, all, lines[i..], {""}, visited)
      {
        hide Visit;
        assert lines[i..][0] == lines[i] && lines[i..][1..] == lines[i + 1..];
        assert Parsed(lines[i].req) in lines;
        var satisfied := RequirementSatisfied(all, lines[i].req, {""});
        if satisfied != Ok(true) { return satisfied; }
      }
      verdict := Ok(true);
    }
  }
}
