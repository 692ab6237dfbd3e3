/** Lease safety over every interleaving, and what a missed heartbeat costs. */
module NodeLeaseSafety {
  import opened SnowflakeBits
  import opened SnowflakeGenerator
  import opened NodeLease

  // ---------------------------------------------------------------- what a step does

  /** Whose step it is; the clock's has no process. */
  ghost predicate Acts(p: int, step: Step) {
    match step
    case Scan(q, _) => p == q
    case Try(q) => p == q
    case Heartbeat(q) => p == q
    case Release(q) => p == q
    case Crash(q) => p == q
    case GenerateIds(q, _) => p == q
    case Tick(_) => false
  }

  /** A step of `p` leaves the clock, the other processes and the keys of other nodes alone, and stops or
      registers nobody else; ids are only ever appended, and only to the log of `p`. */
  lemma OthersUntouched(sys: System, step: Step, p: int)
    requires Acts(p, step)
    ensures var sys' := Apply(sys, step);
      && sys'.now == sys.now && sys'.ttl == sys.ttl
      && (forall q :: q != p ==> (q in sys'.procs <==> q in sys.procs))
      && (forall q :: q != p && q in sys.procs ==> sys'.procs[q] == sys.procs[q])
      && (forall n :: !(Holds(sys, p) && sys.procs[p].node == n) && !(Holds(sys', p) && sys'.procs[p].node == n) ==>
            (n in sys'.keys <==> n in sys.keys) && (n in sys.keys ==> sys'.keys[n] == sys.keys[n]))
      && ((sys'.issued == sys.issued && sys'.issuers == sys.issuers)
          || (step.GenerateIds? && |sys'.issued| == |sys.issued| + 1 && sys.issued < sys'.issued
              && sys'.issuers == sys.issuers + [p]))
  {
    hide Parse, Compose;
  }

  /** A heartbeat in time moves the lease's end to one whole lifetime from now; one that comes too late does
      nothing.  A release drops the key at once, a crash leaves it to expire; either way the process is out. */
  lemma LeaseSteps(sys: System, p: int)
    requires Holds(sys, p)
    ensures var n := sys.procs[p].node;
      && (var beat := Apply(sys, Heartbeat(p));
          if n in sys.keys && sys.now < sys.keys[n]
          then n in beat.keys && beat.keys[n] == sys.now + sys.ttl && Holds(beat, p) && beat.procs[p].node == n
          else beat == sys)
      && (var gone := Apply(sys, Release(p)); n !in gone.keys && p in gone.procs && gone.procs[p].Stopped?)
      && (var dead := Apply(sys, Crash(p)); dead.keys == sys.keys && p in dead.procs && dead.procs[p].Stopped?)
  {}

  // ---------------------------------------------------------------- one step

  lemma TryKeepsInv(sys: System, p: int)
    requires Inv(sys) && p in sys.procs && sys.procs[p].Acquiring?
    ensures Inv(TryNext(sys, p))
  {
    var sys' := TryNext(sys, p);
    forall q | Holds(sys', q) && q != p ensures Holds(sys, q) && sys'.procs[q] == sys.procs[q] {}
    hide Recorded, Topped, Equipped;
    TryKeepsLease(sys, p);
    assert Equipped(sys') by { TryKeepsGenerators(sys, p); }
    assert Recorded(sys') && Topped(sys') by { TryKeepsGenerators(sys, p); }
  }

  lemma TryKeepsLease(sys: System, p: int)
    requires 0 < sys.ttl && Leased(sys) && Exclusive(sys) && p in sys.procs && sys.procs[p].Acquiring?
    ensures Leased(TryNext(sys, p)) && Exclusive(TryNext(sys, p))
  {
    hide NodeAt;
    var sys' := TryNext(sys, p);
    forall q | Holds(sys, q) ensures Alive(sys, sys.procs[q].node) {}
    forall q | Holds(sys', q) && q != p ensures Holds(sys, q) && sys'.procs[q] == sys.procs[q] {}
  }

  lemma TryKeepsGenerators(sys: System, p: int)
    requires Equipped(sys) && Recorded(sys) && Topped(sys) && p in sys.procs && sys.procs[p].Acquiring?
    ensures var sys' := TryNext(sys, p); Equipped(sys') && Recorded(sys') && Topped(sys')
  {
    hide Parse;
    var sys' := TryNext(sys, p);
    forall q | Holds(sys', q) && q != p ensures Holds(sys, q) && sys'.procs[q] == sys.procs[q] {}
  }

  lemma RenewKeepsInv(sys: System, p: int)
    requires Inv(sys) && Holds(sys, p)
    ensures Inv(Renew(sys, p))
  {
    hide Parse, Compose;
    var sys' := Renew(sys, p);
    forall q | Holds(sys', q) && q != p
      ensures Holds(sys, q) && sys'.procs[q] == sys.procs[q] && sys.procs[q].node != sys.procs[p].node {}
  }

  /** A holder that stops leaves the others as they are; only its own key may go. */
  lemma StopKeepsInv(sys: System, p: int, keys: map<Node, int>)
    requires Inv(sys) && p in sys.procs
    requires keys == sys.keys || (Holds(sys, p) && keys == sys.keys - {sys.procs[p].node})
    ensures Inv(sys.(keys := keys, procs := sys.procs[p := Stopped]))
  {
    hide Parse, Compose;
    var sys' := sys.(keys := keys, procs := sys.procs[p := Stopped]);
    forall q | Holds(sys', q)
      ensures q != p && Holds(sys, q) && sys'.procs[q] == sys.procs[q]
      ensures Holds(sys, p) ==> sys.procs[q].node != sys.procs[p].node {}
  }

  lemma ScanKeepsInv(sys: System, p: int, seen: set<Node>)
    requires Inv(sys) && p !in sys.procs
    ensures Inv(sys.(procs := sys.procs[p := Acquiring(seen, 0)]))
  {
    hide Parse, Compose;
    var sys' := sys.(procs := sys.procs[p := Acquiring(seen, 0)]);
    forall q | Holds(sys', q) ensures Holds(sys, q) && sys'.procs[q] == sys.procs[q] {}
  }

  /** The id about to be issued is none of those issued so far, and is above those of its node. */
  lemma NewIdIsNew(sys: System, p: int, readings: seq<int>)
    requires Inv(sys) && Holds(sys, p) && ClockPassed(sys, p, readings)
    requires Generate(sys.procs[p].gen, readings).0.Id?
    ensures var (out, gen, _) := Generate(sys.procs[p].gen, readings);
      && out.id !in sys.issued && out.id == gen.Top()
      && NodeOf(out.id) == sys.procs[p].node && Parse(out.id).timestamp == gen.last
      && gen.Valid() && gen.dc == sys.procs[p].gen.dc && gen.worker == sys.procs[p].gen.worker
      && (forall id :: id in sys.issued && NodeOf(id) == sys.procs[p].node ==>
           id <= out.id && Parse(id).timestamp <= gen.last)
  {
    var proc := sys.procs[p];
    GenerateAdvances(proc.gen, readings);
    GenerateReads(proc.gen, readings);
    var (out, gen, _) := Generate(proc.gen, readings);
    hide Generate, Compose, Leased, Exclusive;
    forall id | id in sys.issued && NodeOf(id) == proc.node
      ensures id < out.id && Parse(id).timestamp <= gen.last
    {
      assert Parse(id).timestamp <= sys.used[proc.node];
      if proc.started {
        assert id <= proc.gen.Top();
      } else {
        assert Parse(id).timestamp < gen.last;
        LaterIsGreater(id, out.id);
      }
    }
  }

  /** Ids of one node are ordered by their timestamps. */
  lemma LaterIsGreater(id: int, id': int)
    requires NodeOf(id) == NodeOf(id') && Parse(id).timestamp < Parse(id').timestamp
    ensures id < id'
  {
    Widths();
  }

  lemma IssueKeepsInv(sys: System, p: int, readings: seq<int>)
    requires Inv(sys) && Holds(sys, p) && ClockPassed(sys, p, readings)
    ensures Inv(Issue(sys, p, readings))
  {
    if Generate(sys.procs[p].gen, readings).0.Id? {
      NewIdIsNew(sys, p, readings);
      var proc := sys.procs[p];
      var (out, gen, _) := Generate(proc.gen, readings);
      IssuedKeepsInv(sys, p, out.id, gen);
    }
  }

  lemma IssuedKeepsInv(sys: System, p: int, id: int, gen: Gen)
    requires Inv(sys) && Holds(sys, p)
    requires id !in sys.issued && id == gen.Top() && NodeOf(id) == sys.procs[p].node && Parse(id).timestamp == gen.last
    requires gen.Valid() && gen.dc == sys.procs[p].gen.dc && gen.worker == sys.procs[p].gen.worker
    requires forall x :: x in sys.issued && NodeOf(x) == sys.procs[p].node ==> x <= id && Parse(x).timestamp <= gen.last
    ensures Inv(sys.(procs := sys.procs[p := sys.procs[p].(gen := gen, started := true)],
                     used := sys.used[sys.procs[p].node := gen.last],
                     issued := sys.issued + [id], issuers := sys.issuers + [p]))
  {
    hide Parse, Compose;
    var sys' := sys.(procs := sys.procs[p := sys.procs[p].(gen := gen, started := true)],
                     used := sys.used[sys.procs[p].node := gen.last],
                     issued := sys.issued + [id], issuers := sys.issuers + [p]);
    forall q | Holds(sys', q)
      ensures Holds(sys, q) && sys'.procs[q].node == sys.procs[q].node && sys'.procs[q].renewed == sys.procs[q].renewed
      ensures q != p ==> sys'.procs[q] == sys.procs[q] && sys.procs[q].node != sys.procs[p].node {}
    assert Leased(sys') && Exclusive(sys') && Equipped(sys');
    hide Leased, Exclusive, Equipped;
    assert Recorded(sys');
    assert Topped(sys');
  }

  lemma StepKeepsInv(sys: System, step: Step)
    requires Inv(sys) && Allowed(sys, step)
    ensures Inv(Apply(sys, step))
  {
    match step
    case Scan(p, seen) =>
      if p !in sys.procs {
        ScanKeepsInv(sys, p, seen);
        hide Inv;
      }
    case Try(p) =>
      if p in sys.procs && sys.procs[p].Acquiring? { hide Inv; TryKeepsInv(sys, p); }
    case Heartbeat(p) =>
      if Holds(sys, p) { hide Inv; RenewKeepsInv(sys, p); }
    case Release(p) =>
      if Holds(sys, p) { hide Inv; StopKeepsInv(sys, p, sys.keys - {sys.procs[p].node}); }
    case Crash(p) =>
      if p in sys.procs { StopKeepsInv(sys, p, sys.keys); assert sys == sys.(keys := sys.keys); }
    case GenerateIds(p, readings) =>
      if Holds(sys, p) { hide Inv; IssueKeepsInv(sys, p, readings); }
    case Tick(seconds) => TickKeepsInv(sys, seconds);
  }

  lemma TickKeepsInv(sys: System, seconds: nat)
    requires Inv(sys) && Timely(sys, seconds)
    ensures Inv(sys.(now := sys.now + seconds))
  {
    hide Parse, Compose;
    var sys' := sys.(now := sys.now + seconds);
    forall q ensures Holds(sys', q) <==> Holds(sys, q) {}
  }

  // ---------------------------------------------------------------- runs

  function Exec(sys: System, steps: seq<Step>): System {
    if steps == [] then sys else Apply(Exec(sys, steps[..|steps| - 1]), steps[|steps| - 1])
  }

  /** Every step of the run is allowed where it happens. */
  ghost predicate AllowedRun(sys: System, steps: seq<Step>) {
    forall i :: 0 <= i < |steps| ==> Allowed(Exec(sys, steps[..i]), steps[i])
  }

  function Start(now: int, ttl: int): System {
    System(now, ttl, map[], map[], map[], [], [])
  }

  lemma {:induction false} RunKeepsInv(sys: System, steps: seq<Step>)
    requires Inv(sys) && AllowedRun(sys, steps)
    ensures Inv(Exec(sys, steps))
    decreases |steps|
  {
    hide Inv, Apply, Allowed;
    if steps != [] {
      var most := steps[..|steps| - 1];
      forall i | 0 <= i < |most| ensures Allowed(Exec(sys, most[..i]), most[i]) {
        assert most[..i] == steps[..i];
      }
      RunKeepsInv(sys, most);
      StepKeepsInv(Exec(sys, most), steps[|steps| - 1]);
    }
  }

  /** Whatever the scans returned and however the steps interleave, while no holder misses its lease
      no two processes hold the same node, and no id is ever issued twice. */
  lemma {:induction false} LeaseSafety(now: int, ttl: int, steps: seq<Step>)
    requires 0 < ttl && AllowedRun(Start(now, ttl), steps)
    ensures var sys := Exec(Start(now, ttl), steps);
      && (forall p, q :: Holds(sys, p) && Holds(sys, q) && p != q ==> sys.procs[p].node != sys.procs[q].node)
      && (forall i, j :: 0 <= i < j < |sys.issued| ==> sys.issued[i] != sys.issued[j])
  {
    assert Inv(Start(now, ttl));
    hide Exec, AllowedRun, Leased, Equipped, Topped, Start;
    RunKeepsInv(Start(now, ttl), steps);
  }
}
