/** The optimistic search answers exactly the reachability question. */
module RequirementsProofs {
  import opened Collections
  import opened Requirements

  // ---------------------------------------------------------------- paths

  lemma ReachesSelf(env: Env, a: Req)
    ensures Reaches(env, a, a)
  {
    assert Path(env, [a]);
  }

  lemma ReachesThrough(env: Env, a: Req, b: Req, c: Req)
    requires Edge(env, a, b) && Reaches(env, b, c)
    ensures Reaches(env, a, c)
  {
    hide Edge;
    var p :| Path(env, p) && p[0] == b && p[|p| - 1] == c;
    var q := [a] + p;
    forall i | 0 <= i < |q| - 1 ensures Edge(env, q[i], q[i + 1]) {
      if i > 0 { assert q[i] == p[i - 1] && q[i + 1] == p[i]; }
    }
    assert Path(env, q);
  }

  // ---------------------------------------------------------------- a true answer can be relied on

  /** The dependencies of `s` are installed, and have been visited. */
  ghost predicate Settled(env: Env, s: Key, visited: set<Key>) {
    && s.name in env.dists
    && Malformed !in env.dists[s.name].dependencies
    && forall r :: Parsed(r) in env.dists[s.name].dependencies && Active(env, r, ActiveExtras(s.extras)) ==>
         Satisfied(env, r) && r.AsKey() in visited
  }

  lemma SettledMonotone(env: Env, s: Key, visited: set<Key>, more: set<Key>)
    requires Settled(env, s, visited) && visited <= more
    ensures Settled(env, s, more)
  {
  }

  lemma {:induction false} VisitTrue(env: Env, all: set<Key>, r: Req, extras: set<string>, visited: set<Key>)
    requires Covers(env, all) && r.AsKey() in all
    requires Visit(env, all, r, extras, visited).0 == Ok(true)
    ensures var after := Visit(env, all, r, extras, visited).1;
      && (Active(env, r, extras) ==> Satisfied(env, r) && r.AsKey() in after)
      && forall s :: s in after && s !in visited ==> Settled(env, s, after)
    decreases |all - visited|, 0
  {
    if Active(env, r, extras) && r.AsKey() !in visited {
      var lines := env.dists[r.name].dependencies;
      var here := visited + {r.AsKey()};
      assert all - here < all - visited;
      Fewer(all - here, all - visited);
      VisitAllTrue(env, all, lines, ActiveExtras(r.extras), here);
    }
  }

  lemma {:induction false} VisitAllTrue(env: Env, all: set<Key>, lines: seq<Line>, extras: set<string>,
      visited: set<Key>)
    requires Covers(env, all) && forall r :: Parsed(r) in lines ==> r.AsKey() in all
    requires VisitAll(env, all, lines, extras, visited).0 == Ok(true)
    ensures var after := VisitAll(env, all, lines, extras, visited).1;
      && Malformed !in lines
      && (forall r :: Parsed(r) in lines && Active(env, r, extras) ==> Satisfied(env, r) && r.AsKey() in after)
      && (forall s :: s in after && s !in visited ==> Settled(env, s, after))
    decreases |all - visited|, |lines|
  {
    if lines != [] {
      var r := lines[0].req;
      assert Parsed(r) in lines;
      VisitTrue(env, all, r, extras, visited);
      var next := Visit(env, all, r, extras, visited).1;
      Fewer(all - next, all - visited);
      VisitAllTrue(env, all, lines[1..], extras, next);
      var after := VisitAll(env, all, lines[1..], extras, next).1;
      hide Visit, Active, Satisfied, Covers;
      assert VisitAll(env, all, lines, extras, visited).1 == after;
      hide VisitAll;
      forall s | s in after && s !in visited ensures Settled(env, s, after) {
        if s in next { SettledMonotone(env, s, next, after); }
      }
      hide Settled;
      forall x | x in lines ensures x == lines[0] || x in lines[1..] {}
    }
  }

  /** Along a path from a settled requirement everything is good. */
  lemma {:induction false} SettledPath(env: Env, visited: set<Key>, p: seq<Req>)
    requires forall s :: s in visited ==> Settled(env, s, visited)
    requires Path(env, p) && Satisfied(env, p[0]) && p[0].AsKey() in visited
    ensures Good(env, p[|p| - 1])
    decreases |p|
  {
    assert Settled(env, p[0].AsKey(), visited);
    if |p| > 1 {
      assert Edge(env, p[0], p[1]);
      forall i | 0 <= i < |p[1..]| - 1 ensures Edge(env, p[1..][i], p[1..][i + 1]) {
        assert Edge(env, p[i + 1], p[i + 2]);
      }
      SettledPath(env, visited, p[1..]);
    }
  }

  // ---------------------------------------------------------------- any other answer has a reason

  /** Some requirement reachable from `a` gives the reason for the verdict. */
  ghost predicate Blames(env: Env, a: Req, verdict: Verdict) {
    exists b :: Reaches(env, a, b) && Explains(env, b, verdict)
  }

  ghost predicate Explains(env: Env, b: Req, verdict: Verdict) {
    if verdict == BadLine then !WellFormed(env, b) else verdict == Ok(false) && !Satisfied(env, b)
  }

  lemma {:induction false} VisitBlames(env: Env, all: set<Key>, r: Req, extras: set<string>, visited: set<Key>)
    requires Covers(env, all) && r.AsKey() in all
    requires Visit(env, all, r, extras, visited).0 != Ok(true)
    ensures Active(env, r, extras)
    ensures Blames(env, r, Visit(env, all, r, extras, visited).0)
    decreases |all - visited|, 0
  {
    ReachesSelf(env, r);
    if Satisfied(env, r) {
      var lines := env.dists[r.name].dependencies;
      var here := visited + {r.AsKey()};
      assert all - here < all - visited;
      Fewer(all - here, all - visited);
      var verdict := VisitAll(env, all, lines, ActiveExtras(r.extras), here).0;
      VisitAllBlames(env, all, lines, ActiveExtras(r.extras), here);
      hide VisitAll, Reaches;
      if verdict == BadLine && Malformed in lines {
        assert !WellFormed(env, r);
        assert Explains(env, r, verdict);
      } else {
        var d :| Parsed(d) in lines && Active(env, d, ActiveExtras(r.extras)) && Blames(env, d, verdict);
        assert Edge(env, r, d);
        BlamesThrough(env, r, d, verdict);
      }
    } else {
      assert Explains(env, r, Ok(false));
    }
  }

  lemma BlamesThrough(env: Env, a: Req, b: Req, verdict: Verdict)
    requires Edge(env, a, b) && Blames(env, b, verdict)
    ensures Blames(env, a, verdict)
  {
    hide Reaches, Edge, Explains;
    var c :| Reaches(env, b, c) && Explains(env, c, verdict);
    ReachesThrough(env, a, b, c);
  }

  lemma {:induction false} VisitAllBlames(env: Env, all: set<Key>, lines: seq<Line>, extras: set<string>,
      visited: set<Key>)
    requires Covers(env, all) && forall r :: Parsed(r) in lines ==> r.AsKey() in all
    requires VisitAll(env, all, lines, extras, visited).0 != Ok(true)
    ensures var verdict := VisitAll(env, all, lines, extras, visited).0;
      || (verdict == BadLine && Malformed in lines)
      || exists d :: Parsed(d) in lines && Active(env, d, extras) && Blames(env, d, verdict)
    decreases |all - visited|, |lines|
  {
    if !lines[0].Malformed? {
      var r := lines[0].req;
      assert Parsed(r) in lines;
      if Visit(env, all, r, extras, visited).0 != Ok(true) {
        VisitBlames(env, all, r, extras, visited);
      } else {
        var next := Visit(env, all, r, extras, visited).1;
        Fewer(all - next, all - visited);
        VisitAllBlames(env, all, lines[1..], extras, next);
      }
    }
  }

  // ---------------------------------------------------------------- the promise

  /** True exactly when no line of the file is malformed and every requirement reachable through active
      markers and extras is installed in a satisfying version, with well-formed metadata. */
  lemma InstalledIff(env: Env, lines: seq<Line>)
    ensures Installed(env, lines) == Ok(true) <==>
      Malformed !in lines && forall r :: Needed(env, lines, r) ==> Good(env, r)
  {
    if Malformed !in lines {
      var all := Universe(env, lines);
      UniverseCovers(env, lines);
      hide Universe;
      if Installed(env, lines) == Ok(true) {
        VisitAllTrue(env, all, lines, {""}, {});
        var after := VisitAll(env, all, lines, {""}, {}).1;
        hide VisitAll, Installed, Good, Settled, Path;
        forall r | Needed(env, lines, r) ensures Good(env, r) {
          var a :| Root(env, lines, a) && Reaches(env, a, r);
          var p :| Path(env, p) && p[0] == a && p[|p| - 1] == r;
          SettledPath(env, after, p);
        }
      } else {
        OtherwiseBlamed(env, lines);
      }
    }
  }

  lemma OtherwiseBlamed(env: Env, lines: seq<Line>)
    requires Malformed !in lines && Installed(env, lines) != Ok(true)
    ensures exists b :: Needed(env, lines, b) && Explains(env, b, Installed(env, lines)) && !Good(env, b)
  {
    UniverseCovers(env, lines);
    VisitAllBlames(env, Universe(env, lines), lines, {""}, {});
    var verdict := Installed(env, lines);
    hide VisitAll, Installed, Reaches;
    var d :| Parsed(d) in lines && Active(env, d, {""}) && Blames(env, d, verdict);
    var b :| Reaches(env, d, b) && Explains(env, b, verdict);
    assert Root(env, lines, d);
    assert Needed(env, lines, b);
  }

  /** False only when some needed requirement is missing or in the wrong version. */
  lemma UnsatisfiedIsReal(env: Env, lines: seq<Line>)
    requires Installed(env, lines) == Ok(false)
    ensures exists r :: Needed(env, lines, r) && !Satisfied(env, r)
  {
    OtherwiseBlamed(env, lines);
  }

  /** A format error only when the file, or the metadata of some needed package, has a malformed line. */
  lemma BadLineIsReal(env: Env, lines: seq<Line>)
    requires Installed(env, lines) == BadLine
    ensures Malformed in lines || exists r :: Needed(env, lines, r) && !WellFormed(env, r)
  {
    if Malformed !in lines { OtherwiseBlamed(env, lines); }
  }
}
