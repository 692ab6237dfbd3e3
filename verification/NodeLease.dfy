/** The lease protocol for (datacenter, worker) nodes, and ids generated under it. */
module NodeLease {
  import opened SnowflakeBits
  import opened SnowflakeGenerator

  datatype Node = Node(dc: int, worker: int)

  const NODES: nat := 1024

  /** Nodes in the order in which they are tried. */
  function NodeAt(cursor: int): Node {
    Node(cursor / 32, cursor % 32)
  }

  /** `started`: an id has been generated under the lease. */
  datatype Process =
    | Acquiring(seen: set<Node>, cursor: nat)
    | Exhausted
    | Holding(node: Node, renewed: int, gen: Gen, started: bool)
    | Stopped

  /** `keys`: the expiry of each node key.  `used`: the latest timestamp issued on a node.
      `issuers`: which process issued each id. */
  datatype System = System(
    now: int, ttl: int,
    keys: map<Node, int>,
    procs: map<int, Process>,
    used: map<Node, int>,
    issued: seq<int>,
    issuers: seq<int>)

  predicate Alive(sys: System, n: Node) {
    n in sys.keys && sys.now < sys.keys[n]
  }

  predicate Holds(sys: System, p: int) {
    p in sys.procs && sys.procs[p].Holding?
  }

  datatype Step =
    | Scan(p: int, seen: set<Node>)     // whatever the scan returned
    | Try(p: int)
    | Heartbeat(p: int)
    | Release(p: int)
    | Crash(p: int)
    | GenerateIds(p: int, readings: seq<int>)
    | Tick(seconds: nat)

  /** One look at the node under the cursor: skipped if seen, else SET NX EX. */
  function TryNext(sys: System, p: int): System
    requires p in sys.procs && sys.procs[p].Acquiring?
  {
    var proc := sys.procs[p];
    if proc.cursor >= NODES then sys.(procs := sys.procs[p := Exhausted])
    else
      var n := NodeAt(proc.cursor);
      if n in proc.seen || Alive(sys, n)
      then sys.(procs := sys.procs[p := Acquiring(proc.seen, proc.cursor + 1)])
      else sys.(keys := sys.keys[n := sys.now + sys.ttl],
                procs := sys.procs[p := Holding(n, sys.now, Gen(n.dc, n.worker, 0, -1), false)])
  }

  /** EXPIRE: no effect when the key is gone, and the caller does not look. */
  function Renew(sys: System, p: int): System
    requires Holds(sys, p)
  {
    var n := sys.procs[p].node;
    if Alive(sys, n)
    then sys.(keys := sys.keys[n := sys.now + sys.ttl], procs := sys.procs[p := sys.procs[p].(renewed := sys.now)])
    else sys
  }

  /** A call that is refused, or still waiting for the clock, leaves everything as it is. */
  function Issue(sys: System, p: int, readings: seq<int>): System
    requires Holds(sys, p)
  {
    var proc := sys.procs[p];
    var (out, gen, rest) := Generate(proc.gen, readings);
    if out.Id? then
      sys.(procs := sys.procs[p := proc.(gen := gen, started := true)],
           used := sys.used[proc.node := gen.last],
           issued := sys.issued + [out.id],
           issuers := sys.issuers + [p])
    else sys
  }

  function Apply(sys: System, step: Step): System {
    match step
    case Scan(p, seen) =>
      if p in sys.procs then sys else sys.(procs := sys.procs[p := Acquiring(seen, 0)])
    case Try(p) =>
      if p in sys.procs && sys.procs[p].Acquiring? then TryNext(sys, p) else sys
    case Heartbeat(p) =>
      if Holds(sys, p) then Renew(sys, p) else sys
    case Release(p) =>
      if Holds(sys, p) then sys.(keys := sys.keys - {sys.procs[p].node}, procs := sys.procs[p := Stopped]) else sys
    case Crash(p) =>
      if p in sys.procs then sys.(procs := sys.procs[p := Stopped]) else sys
    case GenerateIds(p, readings) =>
      if Holds(sys, p) then Issue(sys, p, readings) else sys
    case Tick(seconds) => sys.(now := sys.now + seconds)
  }

  // ---------------------------------------------------------------- assumptions

  /** No holder's lease runs out while the clock advances: heartbeats keep up. */
  ghost predicate Timely(sys: System, seconds: nat) {
    forall p :: Holds(sys, p) ==> sys.now + seconds < sys.procs[p].renewed + sys.ttl
  }

  /** When a node changes hands, the clock of the new holder has passed the last timestamp issued on it. */
  ghost predicate ClockPassed(sys: System, p: int, readings: seq<int>) {
    Holds(sys, p) && !sys.procs[p].started && sys.procs[p].node in sys.used ==>
      forall t :: t in readings ==> t > sys.used[sys.procs[p].node]
  }

  ghost predicate Allowed(sys: System, step: Step) {
    match step
    case Tick(seconds) => Timely(sys, seconds)
    case GenerateIds(p, readings) => ClockPassed(sys, p, readings)
    case _ => true
  }

  // ---------------------------------------------------------------- the invariant

  /** Every holder's key exists, for as long as its last renewal says. */
  ghost predicate Leased(sys: System) {
    forall p :: Holds(sys, p) ==>
      && sys.procs[p].node in sys.keys
      && sys.keys[sys.procs[p].node] == sys.procs[p].renewed + sys.ttl
      && sys.now < sys.procs[p].renewed + sys.ttl
  }

  /** No two processes hold the same node. */
  ghost predicate Exclusive(sys: System) {
    forall p, q :: Holds(sys, p) && Holds(sys, q) && sys.procs[p].node == sys.procs[q].node ==> p == q
  }

  ghost predicate Equipped(sys: System) {
    forall p :: Holds(sys, p) ==>
      var proc := sys.procs[p];
      proc.gen.Valid() && proc.gen.dc == proc.node.dc && proc.gen.worker == proc.node.worker
  }

  function NodeOf(id: int): Node {
    Node(Parse(id).dc, Parse(id).worker)
  }

  /** Issued ids are distinct, and no later than the latest timestamp recorded for their node. */
  ghost predicate Recorded(sys: System) {
    && (forall i, j :: 0 <= i < j < |sys.issued| ==> sys.issued[i] != sys.issued[j])
    && (forall id :: id in sys.issued ==> NodeOf(id) in sys.used && Parse(id).timestamp <= sys.used[NodeOf(id)])
  }

  /** A holder that has generated ids is at the latest timestamp and at or above all ids of its node. */
  ghost predicate Topped(sys: System) {
    && (forall p :: Holds(sys, p) && sys.procs[p].started ==>
          sys.procs[p].node in sys.used && sys.used[sys.procs[p].node] == sys.procs[p].gen.last)
    && forall p, id :: Holds(sys, p) && sys.procs[p].started && id in sys.issued && NodeOf(id) == sys.procs[p].node ==>
      id <= sys.procs[p].gen.Top()
  }

  ghost predicate Inv(sys: System) {
    0 < sys.ttl && Leased(sys) && Exclusive(sys) && Equipped(sys) && Recorded(sys) && Topped(sys)
  }
}
