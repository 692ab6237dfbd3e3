/** How leases are lost and ids repeated when the assumptions of lease safety fail, and exactly when. */
module NodeLeaseFailures {
  import opened Collections
  import opened SnowflakeBits
  import opened SnowflakeGenerator
  import opened NodeLease
  import opened NodeLeaseSafety

  // ---------------------------------------------------------------- parts of a run

  lemma {:induction false} ExecAppend(sys: System, a: seq<Step>, b: seq<Step>)
    ensures Exec(sys, a + b) == Exec(Exec(sys, a), b)
    decreases |b|
  {
    hide Apply;
    if b == [] {
      assert a + b == a;
    } else {
      ExecAppend(sys, a, b[..|b| - 1]);
      assert (a + b)[..|a + b| - 1] == a + b[..|b| - 1];
    }
  }

  // ---------------------------------------------------------------- two holders of one node

  /** Two processes hold one node. */
  ghost predicate Shared(sys: System) {
    exists p, q :: p != q && Holds(sys, p) && Holds(sys, q) && sys.procs[p].node == sys.procs[q].node
  }

  ghost predicate NoTick(steps: seq<Step>) {
    forall i :: 0 <= i < |steps| ==> !steps[i].Tick?
  }

  ghost predicate Leases(sys: System) {
    0 < sys.ttl && Leased(sys) && Exclusive(sys)
  }

  /** While the clock stands still no step breaks a lease, whatever ids are generated. */
  lemma StepKeepsLeases(sys: System, step: Step)
    requires Leases(sys) && !step.Tick?
    ensures Leases(Apply(sys, step))
  {
    hide NodeAt, Generate;
    var sys' := Apply(sys, step);
    if step.Try? && step.p in sys.procs && sys.procs[step.p].Acquiring? {
      TryKeepsLease(sys, step.p);
    } else {
      forall p | Holds(sys', p)
        ensures Holds(sys, p) && sys'.procs[p].node == sys.procs[p].node
        ensures p != step.p ==> sys'.procs[p] == sys.procs[p]
        ensures step.Release? && Holds(sys, step.p) ==> sys.procs[p].node != sys.procs[step.p].node {}
    }
  }

  lemma {:induction false} RunKeepsLeases(sys: System, steps: seq<Step>)
    requires Leases(sys) && NoTick(steps)
    ensures Leases(Exec(sys, steps))
    decreases |steps|
  {
    hide Leases, Apply;
    if steps != [] {
      RunKeepsLeases(sys, steps[..|steps| - 1]);
      StepKeepsLeases(Exec(sys, steps[..|steps| - 1]), steps[|steps| - 1]);
    }
  }

  /** The nodes whose keys are alive. */
  function Registered(sys: System): set<Node> {
    set n | n in sys.keys && sys.now < sys.keys[n]
  }

  /** Every scan of the run returns the live keys, all of them and nothing else. */
  ghost predicate ExactScans(sys: System, steps: seq<Step>) {
    forall i :: 0 <= i < |steps| && steps[i].Scan? ==> steps[i].seen == Registered(Exec(sys, steps[..i]))
  }

  lemma ExactScansAppend(sys: System, a: seq<Step>, b: seq<Step>)
    requires ExactScans(sys, a) && ExactScans(Exec(sys, a), b)
    ensures ExactScans(sys, a + b)
  {
    hide Exec, Registered;
    forall i | 0 <= i < |a + b| && (a + b)[i].Scan? ensures (a + b)[i].seen == Registered(Exec(sys, (a + b)[..i])) {
      if i < |a| {
        assert (a + b)[..i] == a[..i];
      } else {
        assert (a + b)[..i] == a + b[..i - |a|];
        ExecAppend(sys, a, b[..i - |a|]);
      }
    }
  }

  /** One scan and `k` tries. */
  function Race(q: int, seen: set<Node>, k: nat): seq<Step> {
    if k == 0 then [Scan(q, seen)] else Race(q, seen, k - 1) + [Try(q)]
  }

  lemma RaceSteps(sys: System, q: int, seen: set<Node>, k: nat)
    ensures Exec(sys, Race(q, seen, 0)) == Apply(sys, Scan(q, seen))
    ensures Exec(sys, Race(q, seen, k + 1)) == Apply(Exec(sys, Race(q, seen, k)), Try(q))
  {
    hide Apply;
    assert [Scan(q, seen)][..0] == [];
    var steps := Race(q, seen, k + 1);
    assert steps[..|steps| - 1] == Race(q, seen, k);
  }

  lemma {:induction false} RaceShape(q: int, seen: set<Node>, k: nat)
    ensures var steps := Race(q, seen, k);
      |steps| == k + 1 && steps[0] == Scan(q, seen) && forall i :: 1 <= i <= k ==> steps[i] == Try(q)
  {
    if k > 0 { RaceShape(q, seen, k - 1); }
  }

  lemma RaceIsExact(sys: System, q: int, k: nat)
    ensures NoTick(Race(q, Registered(sys), k)) && ExactScans(sys, Race(q, Registered(sys), k))
  {
    var steps := Race(q, Registered(sys), k);
    RaceShape(q, Registered(sys), k);
    assert steps[..0] == [];
    hide Race, Registered;
  }

  lemma TryAlive(sys: System, q: int, seen: set<Node>, k: nat)
    requires q in sys.procs && sys.procs[q] == Acquiring(seen, k) && k < NODES && Alive(sys, NodeAt(k))
    ensures Apply(sys, Try(q)) == sys.(procs := sys.procs[q := Acquiring(seen, k + 1)])
  {
    hide NodeAt;
  }

  lemma {:induction false} RaceSkipsAlive(sys: System, q: int, seen: set<Node>, k: nat)
    requires q !in sys.procs && k <= NODES && forall i: nat :: i < k ==> Alive(sys, NodeAt(i))
    ensures Exec(sys, Race(q, seen, k)) == sys.(procs := sys.procs[q := Acquiring(seen, k)])
  {
    hide NodeAt, Exec, Race, TryNext;
    RaceSteps(sys, q, seen, if k == 0 then 0 else k - 1);
    if k > 0 {
      RaceSkipsAlive(sys, q, seen, k - 1);
      TryAlive(sys.(procs := sys.procs[q := Acquiring(seen, k - 1)]), q, seen, k - 1);
    }
  }

  /** A new process takes the first node whose key has run out. */
  lemma RaceTakes(sys: System, q: int, d: nat)
    requires q !in sys.procs && d < NODES && !Alive(sys, NodeAt(d)) && forall i: nat :: i < d ==> Alive(sys, NodeAt(i))
    ensures var n := NodeAt(d);
      Exec(sys, Race(q, Registered(sys), d + 1)) ==
      sys.(keys := sys.keys[n := sys.now + sys.ttl],
           procs := sys.procs[q := Holding(n, sys.now, Gen(n.dc, n.worker, 0, -1), false)])
  {
    hide NodeAt, Exec, Race;
    RaceSteps(sys, q, Registered(sys), d);
    RaceSkipsAlive(sys, q, Registered(sys), d);
    assert NodeAt(d) !in Registered(sys);
  }

  lemma {:induction false} Above(ids: set<int>) returns (m: int)
    ensures forall x :: x in ids ==> x < m
  {
    if ids == {} {
      m := 0;
    } else {
      var x := Pick(ids);
      var most := Above(ids - {x});
      m := if most <= x then x + 1 else most;
      forall y | y in ids ensures y < m { assert y == x || y in ids - {x}; }
    }
  }

  /** `steps` leads to two holders of one node, by exact scans and without an advance of the clock. */
  ghost predicate LeadsToShared(sys: System, steps: seq<Step>) {
    NoTick(steps) && ExactScans(sys, steps) && Shared(Exec(sys, steps))
  }

  lemma LeadsAppend(sys: System, a: seq<Step>, b: seq<Step>)
    requires NoTick(a) && ExactScans(sys, a) && LeadsToShared(Exec(sys, a), b)
    ensures LeadsToShared(sys, a + b)
  {
    hide ExactScans, Shared, Exec;
    ExactScansAppend(sys, a, b);
    ExecAppend(sys, a, b);
  }

  /** New processes take the nodes whose keys are gone one after another, up to the one that is still held. */
  lemma {:induction false} TakenInTurn(sys: System, p: int, k: nat, d: nat)
    requires 0 < sys.ttl && Holds(sys, p) && d <= k < NODES && sys.procs[p].node == NodeAt(k) && !Alive(sys, NodeAt(k))
    requires forall i: nat :: i < d ==> Alive(sys, NodeAt(i))
    ensures exists steps :: LeadsToShared(sys, steps)
    decreases k - d
  {
    if Alive(sys, NodeAt(d)) {
      TakenInTurn(sys, p, k, d + 1);
    } else {
      var q := Above(sys.procs.Keys);
      var steps := Race(q, Registered(sys), d + 1);
      var sys' := Exec(sys, steps);
      RaceTakes(sys, q, d);
      RaceIsExact(sys, q, d + 1);
      NodesDiffer(d, k);
      hide NodeAt, Exec, Race, ExactScans, NoTick, LeadsToShared, Registered;
      if d == k {
        BothHold(sys', p, q);
        LeadsHere(sys, steps);
      } else {
        TakenInTurn(sys', p, k, d + 1);
        var more :| LeadsToShared(sys', more);
        LeadsAppend(sys, steps, more);
      }
    }
  }

  lemma NodesDiffer(i: nat, j: nat)
    ensures NodeAt(i) == NodeAt(j) ==> i == j
  {
  }

  lemma BothHold(sys: System, p: int, q: int)
    requires p != q && Holds(sys, p) && Holds(sys, q) && sys.procs[p].node == sys.procs[q].node
    ensures Shared(sys)
  {
  }

  lemma LeadsHere(sys: System, steps: seq<Step>)
    requires NoTick(steps) && ExactScans(sys, steps) && Shared(Exec(sys, steps))
    ensures LeadsToShared(sys, steps)
  {
  }

  /** After an advance of the clock two processes can come to hold one node, by some run without a further advance
      in which every scan returns exactly the live keys, if and only if some holder's lease has run out. */
  lemma LeaseLostIff(sys: System, seconds: nat)
    requires Inv(sys)
    ensures (exists steps :: LeadsToShared(Apply(sys, Tick(seconds)), steps)) <==> !Timely(sys, seconds)
  {
    var sys' := Apply(sys, Tick(seconds));
    hide Parse, Compose, Recorded, Topped, ExactScans;
    forall q ensures Holds(sys', q) <==> Holds(sys, q) {}
    if Timely(sys, seconds) {
      assert Leases(sys');
      forall steps | NoTick(steps) ensures !Shared(Exec(sys', steps)) {
        RunKeepsLeases(sys', steps);
      }
    } else {
      var p :| Holds(sys, p) && sys.now + seconds >= sys.procs[p].renewed + sys.ttl;
      var node := sys.procs[p].node;
      assert NodeAt(node.dc * 32 + node.worker) == node;
      TakenInTurn(sys', p, node.dc * 32 + node.worker, 0);
    }
  }

  // ---------------------------------------------------------------- ids issued twice

  /** The first sequence number of a millisecond; a new generator takes itself to have been at minus one. */
  function First(timestamp: int): int {
    if timestamp == -1 then 1 else 0
  }

  /** Entry `j` is the first id that `p` issued on `node` in the millisecond `t`. */
  ghost predicate Opens(sys: System, j: int, p: int, node: Node, t: int) {
    && |sys.issuers| == |sys.issued| && 0 <= j < |sys.issued| && sys.issuers[j] == p
    && NodeOf(sys.issued[j]) == node && Parse(sys.issued[j]).timestamp == t && Parse(sys.issued[j]).sequence == First(t)
  }

  ghost predicate Opened(sys: System, p: int, node: Node, t: int) {
    exists j :: Opens(sys, j, p, node, t)
  }

  /** Each process issues increasing ids. */
  ghost predicate Rising(sys: System) {
    && |sys.issuers| == |sys.issued|
    && forall i, j :: 0 <= i < j < |sys.issued| && sys.issuers[i] == sys.issuers[j] ==> sys.issued[i] < sys.issued[j]
  }

  /** In every millisecond each process starts with the first sequence number. */
  ghost predicate AllOpened(sys: System) {
    && |sys.issuers| == |sys.issued|
    && forall i :: 0 <= i < |sys.issued| ==>
         Opened(sys, sys.issuers[i], NodeOf(sys.issued[i]), Parse(sys.issued[i]).timestamp)
  }

  /** Ids come from processes that have held a node, and not from above their generator. */
  ghost predicate Credited(sys: System) {
    && |sys.issuers| == |sys.issued|
    && forall i :: 0 <= i < |sys.issued| ==>
         var p := sys.issuers[i];
         && p in sys.procs && !sys.procs[p].Acquiring?
         && (Holds(sys, p) ==> sys.procs[p].started && sys.issued[i] <= sys.procs[p].gen.Top())
  }

  ghost predicate Generating(sys: System) {
    forall p :: Holds(sys, p) ==>
      var proc := sys.procs[p];
      && proc.gen.last >= -1
      && (proc.started ==> Opened(sys, p, proc.node, proc.gen.last))
      && (!proc.started ==> proc.gen.sequence == 0 && proc.gen.last == -1)
  }

  /** What every run keeps, with no assumption on leases or clocks. */
  ghost predicate Logged(sys: System) {
    Equipped(sys) && Credited(sys) && Generating(sys) && Rising(sys) && AllOpened(sys)
  }

  /** Nothing is issued, and no process changes but one that has issued nothing or stops issuing. */
  lemma QuietKeepsLogged(sys: System, sys': System, p: int)
    requires Logged(sys) && sys'.issued == sys.issued && sys'.issuers == sys.issuers
    requires forall q :: q in sys.procs ==> q in sys'.procs
    requires forall q :: q in sys'.procs && q != p ==> q in sys.procs && sys'.procs[q] == sys.procs[q]
    requires p in sys'.procs ==>
      var proc := sys'.procs[p];
      || proc.Stopped?
      || (p !in sys.procs && proc.Acquiring?)
      || (p in sys.procs && sys.procs[p].Acquiring? && !proc.Holding?)
      || (p in sys.procs && sys.procs[p].Acquiring? && proc.Holding? && !proc.started &&
          proc.gen == Gen(proc.node.dc, proc.node.worker, 0, -1) && proc.gen.Valid())
      || (Holds(sys, p) && proc.Holding? && proc.(renewed := 0) == sys.procs[p].(renewed := 0))
    ensures Logged(sys')
  {
    hide Parse, Compose;
    forall q, node, t ensures Opened(sys', q, node, t) <==> Opened(sys, q, node, t) {
      forall j ensures Opens(sys', j, q, node, t) <==> Opens(sys, j, q, node, t) {}
    }
    hide Opened;
  }

  /** A later millisecond starts at zero, the same one goes on. */
  lemma GenerateOpens(g: Gen, readings: seq<int>)
    requires g.Valid()
    ensures var (out, g', _) := Generate(g, readings);
      out.Id? ==> if g'.last == g.last then g'.sequence == g.sequence + 1 else g'.last > g.last && g'.sequence == 0
  {
    NextSequence(g);
    hide Compose, And;
  }

  lemma OpenedStays(sys: System, sys': System, q: int, node: Node, t: int, id: int, p: int)
    requires Opened(sys, q, node, t) && sys'.issued == sys.issued + [id] && sys'.issuers == sys.issuers + [p]
    ensures Opened(sys', q, node, t)
  {
    hide Parse;
    var j :| Opens(sys, j, q, node, t);
    assert Opens(sys', j, q, node, t);
  }

  lemma OpensNow(sys: System, p: int, node: Node, t: int)
    requires |sys.issuers| == |sys.issued| > 0 && sys.issuers[|sys.issued| - 1] == p
    requires var id := sys.issued[|sys.issued| - 1];
      NodeOf(id) == node && Parse(id).timestamp == t && Parse(id).sequence == First(t)
    ensures Opened(sys, p, node, t)
  {
    assert Opens(sys, |sys.issued| - 1, p, node, t);
  }

  /** One more id of a holder. */
  lemma EntryKeepsLogged(sys: System, sys': System, p: int, id: int, gen: Gen)
    requires Logged(sys) && Holds(sys, p)
    requires sys' == sys.(procs := sys.procs[p := sys.procs[p].(gen := gen, started := true)],
                          used := sys'.used, issued := sys.issued + [id], issuers := sys.issuers + [p])
    requires gen.Valid() && gen.dc == sys.procs[p].gen.dc && gen.worker == sys.procs[p].gen.worker
    requires id == gen.Top() && sys.procs[p].gen.Top() < id && gen.last >= -1
    requires Opened(sys', p, sys.procs[p].node, gen.last)
    requires NodeOf(id) == sys.procs[p].node && Parse(id).timestamp == gen.last
    ensures Logged(sys')
  {
    hide Parse, Compose;
    forall q, node, t | Opened(sys, q, node, t) ensures Opened(sys', q, node, t) {
      OpenedStays(sys, sys', q, node, t, id, p);
    }
    hide Opened, NodeOf;
    assert Rising(sys');
    assert AllOpened(sys');
    forall q | Holds(sys', q) && q != p ensures Holds(sys, q) && sys'.procs[q] == sys.procs[q] {}
    assert Credited(sys') && Generating(sys') && Equipped(sys');
  }

  lemma IssueKeepsLogged(sys: System, p: int, readings: seq<int>)
    requires Logged(sys) && Holds(sys, p)
    ensures Logged(Issue(sys, p, readings))
  {
    hide Credited, Rising, AllOpened, Parse, Compose, Opens;
    var proc, sys' := sys.procs[p], Issue(sys, p, readings);
    var (out, gen, _) := Generate(proc.gen, readings);
    GenerateAdvances(proc.gen, readings);
    GenerateOpens(proc.gen, readings);
    LogLengths(sys);
    hide Generate;
    if out.Id? {
      if gen.last == proc.gen.last && proc.started {
        OpenedStays(sys, sys', p, proc.node, gen.last, out.id, p);
      } else {
        OpensNow(sys', p, proc.node, gen.last);
      }
      EntryKeepsLogged(sys, sys', p, out.id, gen);
    }
  }

  lemma LogLengths(sys: System)
    requires Logged(sys)
    ensures |sys.issuers| == |sys.issued|
  {
  }

  lemma StepKeepsLogged(sys: System, step: Step)
    requires Logged(sys)
    ensures Logged(Apply(sys, step))
  {
    var sys' := Apply(sys, step);
    hide Logged, Generate;
    match step
    case GenerateIds(p, readings) => if Holds(sys, p) { IssueKeepsLogged(sys, p, readings); }
    case Tick(_) => var q := Above(sys.procs.Keys); QuietKeepsLogged(sys, sys', q);
    case Scan(p, _) => if sys' != sys { QuietKeepsLogged(sys, sys', p); }
    case Try(p) => if sys' != sys { QuietKeepsLogged(sys, sys', p); }
    case Heartbeat(p) => if sys' != sys { QuietKeepsLogged(sys, sys', p); }
    case Release(p) => if sys' != sys { QuietKeepsLogged(sys, sys', p); }
    case Crash(p) => if sys' != sys { QuietKeepsLogged(sys, sys', p); }
  }

  lemma {:induction false} RunKeepsLogged(now: int, ttl: int, steps: seq<Step>)
    ensures Logged(Exec(Start(now, ttl), steps))
    decreases |steps|
  {
    hide Logged, Apply, Start;
    if steps == [] {
      StartLogged(now, ttl);
    } else {
      RunKeepsLogged(now, ttl, steps[..|steps| - 1]);
      StepKeepsLogged(Exec(Start(now, ttl), steps[..|steps| - 1]), steps[|steps| - 1]);
    }
  }

  lemma StartLogged(now: int, ttl: int)
    ensures Logged(Start(now, ttl))
  {
  }

  /** Some id was issued twice. */
  ghost predicate Repeats(sys: System) {
    exists i, j :: 0 <= i < j < |sys.issued| && sys.issued[i] == sys.issued[j]
  }

  /** Two processes issued ids on one node in one millisecond. */
  ghost predicate Crossed(sys: System) {
    |sys.issuers| == |sys.issued| && exists i, j :: 0 <= i < j < |sys.issued| && Cross(sys, i, j)
  }

  ghost predicate Cross(sys: System, i: int, j: int)
    requires 0 <= i < |sys.issued| && 0 <= j < |sys.issued| && |sys.issuers| == |sys.issued|
  {
    && sys.issuers[i] != sys.issuers[j]
    && NodeOf(sys.issued[i]) == NodeOf(sys.issued[j])
    && Parse(sys.issued[i]).timestamp == Parse(sys.issued[j]).timestamp
  }

  /** Over every run, whatever happens to leases and whatever the clocks show: an id is issued twice if and only if
      two processes issue on one node in one millisecond. */
  lemma {:induction false} IdsRepeatIff(now: int, ttl: int, steps: seq<Step>)
    ensures var sys := Exec(Start(now, ttl), steps); Repeats(sys) <==> Crossed(sys)
  {
    RunKeepsLogged(now, ttl, steps);
    var sys := Exec(Start(now, ttl), steps);
    hide Exec, Start, Parse, Equipped, Credited, Generating;
    if i, j :| 0 <= i < j < |sys.issued| && sys.issued[i] == sys.issued[j] {
      assert Cross(sys, i, j);
    }
    if Crossed(sys) {
      var i, j :| 0 <= i < j < |sys.issued| && Cross(sys, i, j);
      var node, t := NodeOf(sys.issued[i]), Parse(sys.issued[i]).timestamp;
      var a :| Opens(sys, a, sys.issuers[i], node, t);
      var b :| Opens(sys, b, sys.issuers[j], node, t);
      ParseInjective(sys.issued[a], sys.issued[b]);
      assert a != b;
    }
  }

  // ---------------------------------------------------------------- two runs that repeat an id

  /** A process whose scan returned nothing takes the first node when its key is gone. */
  lemma TakesFirst(sys: System, p: int)
    requires p !in sys.procs && !Alive(sys, Node(0, 0))
    ensures Exec(sys, [Scan(p, {}), Try(p)]) ==
      sys.(keys := sys.keys[Node(0, 0) := sys.now + sys.ttl],
           procs := sys.procs[p := Holding(Node(0, 0), sys.now, Gen(0, 0, 0, -1), false)])
  {
    assert [Scan(p, {}), Try(p)][..1] == [Scan(p, {})];
    assert [Scan(p, {})][..0] == [];
    assert Exec(sys, [Scan(p, {})]) == sys.(procs := sys.procs[p := Acquiring({}, 0)]);
    assert NodeAt(0) == Node(0, 0);
  }

  lemma ExecTick(sys: System, seconds: nat)
    ensures Exec(sys, [Tick(seconds)]) == sys.(now := sys.now + seconds)
  {
    assert [Tick(seconds)][..0] == [];
  }

  lemma BothIssue(sys: System, gen: Gen, reading: int)
    requires Holds(sys, 1) && Holds(sys, 2) && sys.procs[1].node == sys.procs[2].node
    requires sys.procs[1].gen == gen && sys.procs[2].gen == gen && gen.last < reading && sys.issued == []
    ensures var sys' := Exec(sys, [GenerateIds(1, [reading]), GenerateIds(2, [reading])]);
      && Holds(sys', 1) && Holds(sys', 2) && sys'.procs[1].node == sys'.procs[2].node
      && |sys'.issued| == 2 && sys'.issued[0] == sys'.issued[1]
  {
    hide Compose, And;
    var steps := [GenerateIds(1, [reading]), GenerateIds(2, [reading])];
    assert steps[..1] == [steps[0]] && steps[..1][..0] == [];
    assert Exec(sys, steps[..1]) == Apply(sys, steps[0]);
  }

  /** A silent holder, a second process that started scanning before: both end up with node (0, 0)
      and issue the same id for the same clock reading. */
  lemma MissedHeartbeatDuplicates(now: int, ttl: int, reading: int)
    requires 0 < ttl && reading >= 0
    ensures
      var steps := [Scan(1, {}), Try(1), Tick(ttl), Scan(2, {}), Try(2),
                    GenerateIds(1, [reading]), GenerateIds(2, [reading])];
      var sys := Exec(Start(now, ttl), steps);
      && Holds(sys, 1) && Holds(sys, 2) && sys.procs[1].node == sys.procs[2].node
      && |sys.issued| == 2 && sys.issued[0] == sys.issued[1]
  {
    var steps := [Scan(1, {}), Try(1), Tick(ttl), Scan(2, {}), Try(2),
                  GenerateIds(1, [reading]), GenerateIds(2, [reading])];
    var gen := Gen(0, 0, 0, -1);
    var s0 := Start(now, ttl);
    var node := Node(0, 0);
    var s3 := System(now + ttl, ttl, map[node := now + ttl], map[1 := Holding(node, now, gen, false)], map[], [], []);
    var s5 := s3.(keys := s3.keys[node := now + ttl + ttl],
                  procs := s3.procs[2 := Holding(node, now + ttl, gen, false)]);
    hide Apply, Exec, TryNext, Issue, Compose;
    var s2 := s3.(now := now);
    TakesFirst(s0, 1);
    assert Exec(s0, [Scan(1, {}), Try(1)]) == s2;
    ExecTick(s2, ttl);
    TakesFirst(s3, 2);
    assert Exec(s3, [Scan(2, {}), Try(2)]) == s5;
    BothIssue(s5, gen, reading);
    var (a, b, c) := ([Scan(1, {}), Try(1)], [Tick(ttl)], [Scan(2, {}), Try(2)]);
    var d := [GenerateIds(1, [reading]), GenerateIds(2, [reading])];
    assert steps == a + (b + (c + d));
    ExecAppend(s0, a, b + (c + d));
    ExecAppend(s2, b, c + d);
    ExecAppend(s3, c, d);
    assert Exec(s0, steps) == Exec(s5, d);
  }

  lemma FirstIssue(sys: System, p: int, reading: int)
    requires Holds(sys, p) && sys.procs[p].gen == Gen(0, 0, 0, -1) && reading >= 0
    ensures Exec(sys, [GenerateIds(p, [reading])]) ==
      sys.(procs := sys.procs[p := sys.procs[p].(gen := Gen(0, 0, 0, reading), started := true)],
           used := sys.used[sys.procs[p].node := reading],
           issued := sys.issued + [Compose(reading, 0, 0, 0)],
           issuers := sys.issuers + [p])
  {
    hide Compose, And;
    assert [GenerateIds(p, [reading])][..0] == [];
  }

  lemma IssueAndRelease(s2: System, s4: System, reading: int)
    requires s2.procs == map[1 := Holding(Node(0, 0), s2.now, Gen(0, 0, 0, -1), false)] && reading >= 0
    requires s2.keys == map[Node(0, 0) := s2.now + s2.ttl] && s2.used == map[] && s2.issued == [] && s2.issuers == []
    requires s4 == s2.(keys := map[], procs := map[1 := Stopped],
                       used := map[Node(0, 0) := reading],
                       issued := [Compose(reading, 0, 0, 0)], issuers := [1])
    ensures Exec(s2, [GenerateIds(1, [reading]), Release(1)]) == s4
  {
    hide Compose, Issue, TryNext, Renew;
    FirstIssue(s2, 1, reading);
    var steps := [GenerateIds(1, [reading]), Release(1)];
    assert steps[..1] == [GenerateIds(1, [reading])];
    var s3 := Exec(s2, steps[..1]);
    assert s3.keys - {Node(0, 0)} == map[];
    assert s3.procs[1 := Stopped] == map[1 := Stopped];
    assert Apply(s3, Release(1)) == s4;
  }

  /** A holder that generates an id and releases its node, and a second process that takes the node and generates
      within the same millisecond, issue the same id, with every lease in time. */
  lemma HandoverDuplicates(now: int, ttl: int, reading: int)
    requires 0 < ttl && reading >= 0
    ensures
      var steps := [Scan(1, {}), Try(1), GenerateIds(1, [reading]), Release(1),
                    Scan(2, {}), Try(2), GenerateIds(2, [reading])];
      NoTick(steps) && var sys := Exec(Start(now, ttl), steps); |sys.issued| == 2 && sys.issued[0] == sys.issued[1]
  {
    hide Compose, And;
    var steps := [Scan(1, {}), Try(1), GenerateIds(1, [reading]), Release(1),
                  Scan(2, {}), Try(2), GenerateIds(2, [reading])];
    var gen := Gen(0, 0, 0, -1);
    var gen' := gen.(last := reading);
    var id := Compose(reading, 0, 0, 0);
    var keys := map[Node(0, 0) := now + ttl];
    var used := map[Node(0, 0) := reading];
    var s2 := System(now, ttl, keys, map[1 := Holding(Node(0, 0), now, gen, false)], map[], [], []);
    var s4 := System(now, ttl, map[], map[1 := Stopped], used, [id], [1]);
    var s6 := s4.(keys := keys, procs := s4.procs[2 := Holding(Node(0, 0), now, gen, false)]);
    hide Apply, Exec, TryNext, Issue, Generate;
    TakesFirst(Start(now, ttl), 1);
    IssueAndRelease(s2, s4, reading);
    TakesFirst(s4, 2);
    FirstIssue(s6, 2, reading);
    var (a, b) := ([Scan(1, {}), Try(1)], [GenerateIds(1, [reading]), Release(1)]);
    var (c, d) := ([Scan(2, {}), Try(2)], [GenerateIds(2, [reading])]);
    assert steps == a + (b + (c + d));
    ExecAppend(Start(now, ttl), a, b + (c + d));
    ExecAppend(s2, b, c + d);
    ExecAppend(s4, c, d);
  }
}
