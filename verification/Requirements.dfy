/** Are the requirements of a plugin installed?  A search over package metadata, which may be cyclic. */
module Requirements {
  import opened Wrappers
  import opened Collections

  /** A parsed requirement.  Names are canonical; markers and specifiers are left to the environment. */
  datatype Req = Req(name: string, extras: set<string>, marker: Option<int>, specifier: Option<int>) {
    function AsKey(): Key { Key(name, extras) }
  }

  /** What the search remembers: a package and the extras asked of it. */
  datatype Key = Key(name: string, extras: set<string>)

  /** A line of a requirements file, comments and blanks left out, or of package metadata. */
  datatype Line = Parsed(req: Req) | Malformed

  datatype Dist = Dist(version: int, dependencies: seq<Line>)

  /** The installed packages, how markers evaluate for an extra, and which versions a specifier contains. */
  datatype Env = Env(dists: map<string, Dist>, holds: (int, string) -> bool, contains: (int, int) -> bool)

  datatype Verdict = Ok(satisfied: bool) | BadLine

  /** The extras under which the dependencies of a requirement are looked at. */
  function ActiveExtras(extras: set<string>): set<string> {
    if extras == {} then {""} else extras
  }

  predicate Active(env: Env, r: Req, extras: set<string>) {
    r.marker.Some? ==> exists e :: e in extras && env.holds(r.marker.value, e)
  }

  /** Installed, in a version the specifier contains. */
  predicate Satisfied(env: Env, r: Req) {
    r.name in env.dists && (r.specifier.Some? ==> env.contains(r.specifier.value, env.dists[r.name].version))
  }

  // ---------------------------------------------------------------- what is promised

  /** The marker of the requirement holds for one of the extras asked for, or, when none is, for the empty one. */
  ghost predicate Wanted(env: Env, r: Req, extras: set<string>) {
    || r.marker.None?
    || (extras == {} && env.holds(r.marker.value, ""))
    || exists e :: e in extras && env.holds(r.marker.value, e)
  }

  /** `b` is a dependency of `a` that is wanted for the extras asked of `a`. */
  ghost predicate Edge(env: Env, a: Req, b: Req) {
    a.name in env.dists && Parsed(b) in env.dists[a.name].dependencies && Wanted(env, b, a.extras)
  }

  ghost predicate Path(env: Env, p: seq<Req>) {
    p != [] && forall i :: 0 <= i < |p| - 1 ==> Edge(env, p[i], p[i + 1])
  }

  ghost predicate Reaches(env: Env, a: Req, b: Req) {
    exists p :: Path(env, p) && p[0] == a && p[|p| - 1] == b
  }

  /** A requirement of the file whose marker holds without extras. */
  ghost predicate Root(env: Env, lines: seq<Line>, r: Req) {
    Parsed(r) in lines && Wanted(env, r, {})
  }

  ghost predicate Needed(env: Env, lines: seq<Line>, r: Req) {
    exists a :: Root(env, lines, a) && Reaches(env, a, r)
  }

  ghost predicate WellFormed(env: Env, r: Req) {
    r.name in env.dists ==> Malformed !in env.dists[r.name].dependencies
  }

  /** Installed in a version that the specifier contains, with readable metadata. */
  ghost predicate Good(env: Env, r: Req) {
    && r.name in env.dists && Malformed !in env.dists[r.name].dependencies
    && (r.specifier.None? || env.contains(r.specifier.value, env.dists[r.name].version))
  }

  // ---------------------------------------------------------------- the search

  /** Every state that the file or the metadata mentions. */
  function Universe(env: Env, lines: seq<Line>): set<Key> {
    (set l | l in lines && l.Parsed? :: l.req.AsKey()) +
    (set n, l | n in env.dists && l in env.dists[n].dependencies && l.Parsed? :: l.req.AsKey())
  }

  ghost predicate Covers(env: Env, all: set<Key>) {
    forall n, r :: n in env.dists && Parsed(r) in env.dists[n].dependencies ==> r.AsKey() in all
  }

  /** One requirement, given the states visited so far. */
  function Visit(env: Env, all: set<Key>, r: Req, extras: set<string>, visited: set<Key>): (result: (Verdict, set<Key>))
    requires Covers(env, all) && r.AsKey() in all
    ensures visited <= result.1
    decreases |all - visited|, 0
  {
    if !Active(env, r, extras) then (Ok(true), visited)
    else if !Satisfied(env, r) then (Ok(false), visited)
    else if r.AsKey() in visited then (Ok(true), visited)
    else
      assert all - (visited + {r.AsKey()}) < all - visited;
      Fewer(all - (visited + {r.AsKey()}), all - visited);
      VisitAll(env, all, env.dists[r.name].dependencies, ActiveExtras(r.extras), visited + {r.AsKey()})
  }

  /** The dependency lines of a package in order, up to the first that fails. */
  function VisitAll(env: Env, all: set<Key>, lines: seq<Line>, extras: set<string>, visited: set<Key>)
    : (result: (Verdict, set<Key>))
    requires Covers(env, all) && forall r :: Parsed(r) in lines ==> r.AsKey() in all
    ensures visited <= result.1
    decreases |all - visited|, |lines|
  {
    if lines == [] then (Ok(true), visited)
    else if lines[0].Malformed? then (BadLine, visited)
    else
      var (verdict, visited') := Visit(env, all, lines[0].req, extras, visited);
      if verdict != Ok(true) then (verdict, visited')
      else
        Fewer(all - visited', all - visited);
        VisitAll(env, all, lines[1..], extras, visited')
  }

  lemma UniverseCovers(env: Env, lines: seq<Line>)
    ensures Covers(env, Universe(env, lines))
    ensures forall r :: Parsed(r) in lines ==> r.AsKey() in Universe(env, lines)
  {
    forall n, r | n in env.dists && Parsed(r) in env.dists[n].dependencies ensures r.AsKey() in Universe(env, lines) {
      assert Parsed(r).req.AsKey() == r.AsKey();
    }
    forall r | Parsed(r) in lines ensures r.AsKey() in Universe(env, lines) {
      assert Parsed(r).req.AsKey() == r.AsKey();
    }
  }

  /** The check of a requirements file: all lines are parsed before any is looked at. */
  function Installed(env: Env, lines: seq<Line>): Verdict {
    if Malformed in lines then BadLine
    else UniverseCovers(env, lines); VisitAll(env, Universe(env, lines), lines, {""}, {}).0
  }
}
