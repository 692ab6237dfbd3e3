/** The node manager as it runs: nested loops over the nodes, then a lease that is renewed and released. */
module NodeManager {
  import opened NodeLease

  datatype Acquired = Taken(node: Node) | NoneFree

  /** The node under `cursor` can be taken: not in the scan, and its key is absent. */
  predicate Free(sys: System, seen: set<Node>, cursor: nat) {
    NodeAt(cursor) !in seen && !Alive(sys, NodeAt(cursor))
  }

  /** `c` is the first node from `start` on that can be taken. */
  ghost predicate FirstFree(sys: System, seen: set<Node>, start: nat, c: nat) {
    start <= c < NODES && Free(sys, seen, c) && forall b: nat :: start <= b < c ==> !Free(sys, seen, b)
  }

  ghost predicate AllBusy(sys: System, seen: set<Node>, start: nat) {
    forall c: nat :: start <= c < NODES ==> !Free(sys, seen, c)
  }

  /** Tries nodes one after another until one is taken or none is left. */
  function Acquire(sys: System, p: int): (r: System)
    requires p in sys.procs && sys.procs[p].Acquiring? && sys.procs[p].cursor <= NODES
    ensures p in r.procs && (r.procs[p].Holding? || r.procs[p].Exhausted?)
    decreases NODES - sys.procs[p].cursor
  {
    var sys' := TryNext(sys, p);
    if sys'.procs[p].Acquiring? then Acquire(sys', p) else sys'
  }

  /** Uninterrupted, the protocol takes the first free node in row-major order, and gives up only when none is free. */
  lemma {:induction false} AcquireTakesFirstFree(sys: System, p: int)
    requires p in sys.procs && sys.procs[p].Acquiring? && sys.procs[p].cursor <= NODES
    ensures var sys' := Acquire(sys, p);
      var (seen, start) := (sys.procs[p].seen, sys.procs[p].cursor);
      && (sys'.procs[p].Exhausted? <==> AllBusy(sys, seen, start))
      && (sys'.procs[p].Holding? ==> exists c: nat :: FirstFree(sys, seen, start, c) && sys'.procs[p].node == NodeAt(c))
    decreases NODES - sys.procs[p].cursor
  {
    hide NodeAt;
    var (seen, start) := (sys.procs[p].seen, sys.procs[p].cursor);
    var (sys', sys1) := (Acquire(sys, p), TryNext(sys, p));
    if sys1.procs[p].Acquiring? {
      AcquireTakesFirstFree(sys1, p);
      assert sys1.procs[p] == Acquiring(seen, start + 1);
      SkipStart(sys, sys1, seen, start);
      if sys'.procs[p].Holding? {
        var c: nat :| FirstFree(sys1, seen, start + 1, c) && sys'.procs[p].node == NodeAt(c);
        assert FirstFree(sys, seen, start, c);
      }
    } else if start < NODES {
      assert FirstFree(sys, seen, start, start);
    }
  }

  lemma SkipStart(sys: System, sys1: System, seen: set<Node>, start: nat)
    requires !Free(sys, seen, start) && sys1.keys == sys.keys && sys1.now == sys.now
    ensures AllBusy(sys, seen, start) <==> AllBusy(sys1, seen, start + 1)
    ensures forall c: nat :: FirstFree(sys1, seen, start + 1, c) ==> FirstFree(sys, seen, start, c)
  {
    hide NodeAt;
    forall c: nat ensures Free(sys1, seen, c) <==> Free(sys, seen, c) {}
    if AllBusy(sys1, seen, start + 1) {
      forall c: nat | start <= c < NODES ensures !Free(sys, seen, c) {
        assert c == start || !Free(sys1, seen, c);
      }
    }
    hide Free;
    forall c: nat | FirstFree(sys1, seen, start + 1, c) ensures FirstFree(sys, seen, start, c) {
      forall b: nat | start <= b < c ensures !Free(sys, seen, b) {
        assert b == start || !Free(sys1, seen, b);
      }
    }
  }

  class NodeStore {
    const ttl: int
    var keys: map<Node, int>
    var now: int

    constructor (now: int, ttl: int)
      ensures this.now == now && this.ttl == ttl && keys == map[]
    {
      this.now, this.ttl, keys := now, ttl, map[];
    }

    predicate Exists(n: Node)
      reads this
    {
      n in keys && now < keys[n]
    }

    /** SET NX EX. */
    method Register(n: Node) returns (ok: bool)
      modifies this`keys
      ensures ok == !old(Exists(n))
      ensures keys == if ok then old(keys)[n := now + ttl] else old(keys)
    {
      ok := !(n in keys && now < keys[n]);
      if ok { keys := keys[n := now + ttl]; }
    }

    /** The first free node, datacenter by datacenter, worker by worker. */
    method AcquireNodeId(occupied: set<Node>) returns (r: Acquired)
      modifies this`keys
      ensures r.NoneFree? <==> forall d, w :: 0 <= d < 32 && 0 <= w < 32 ==>
        Node(d, w) in occupied || old(Exists(Node(d, w)))
      ensures r.NoneFree? ==> keys == old(keys)
      ensures r.Taken? ==>
        && keys == old(keys)[r.node := now + ttl]
        && 0 <= r.node.dc < 32 && 0 <= r.node.worker < 32 && r.node !in occupied && !old(Exists(r.node))
        && forall d, w :: 0 <= d < 32 && 0 <= w < 32 && (d < r.node.dc || (d == r.node.dc && w < r.node.worker)) ==>
             Node(d, w) in occupied || old(Exists(Node(d, w)))
    {
      for d := 0 to 32
        invariant keys == old(keys)
        invariant forall d', w :: 0 <= d' < d && 0 <= w < 32 ==> Node(d', w) in occupied || old(Exists(Node(d', w)))
      {
        for w := 0 to 32
          invariant keys == old(keys)
          invariant forall w' :: 0 <= w' < w ==> Node(d, w') in occupied || old(Exists(Node(d, w')))
        {
          if Node(d, w) !in occupied {
            var ok := Register(Node(d, w));
            if ok { return Taken(Node(d, w)); }
          }
        }
      }
      r := NoneFree;
    }

    /** EXPIRE of the key, if it still exists: a lease that has run out is not revived, no other lease changes,
        and any holder of the node in the protocol is left with the same keys. */
    method Heartbeat(n: Node)
      modifies this`keys
      ensures 0 < ttl ==> forall m :: Exists(m) <==> old(Exists(m))
      ensures forall sys: System, p: int ::
        sys.keys == old(keys) && sys.now == now && sys.ttl == ttl && Holds(sys, p) && sys.procs[p].node == n ==>
          Apply(sys, Step.Heartbeat(p)).keys == keys
      ensures keys == if old(Exists(n)) then old(keys)[n := now + ttl] else old(keys)
    {
      if n in keys && now < keys[n] { keys := keys[n := now + ttl]; }
    }

    method Release(n: Node)
      modifies this`keys
      ensures keys == old(keys) - {n}
    {
      keys := keys - {n};
    }
  }

  /** The loops of the manager and the steps of the protocol pick the same node. */
  lemma SameNodeTaken(sys: System, p: int, seen: set<Node>, r: Acquired)
    requires p in sys.procs && sys.procs[p] == Acquiring(seen, 0)
    requires r.NoneFree? <==> forall d, w :: 0 <= d < 32 && 0 <= w < 32 ==> Node(d, w) in seen || Alive(sys, Node(d, w))
    requires r.Taken? ==>
      && 0 <= r.node.dc < 32 && 0 <= r.node.worker < 32 && r.node !in seen && !Alive(sys, r.node)
      && forall d, w :: 0 <= d < 32 && 0 <= w < 32 && (d < r.node.dc || (d == r.node.dc && w < r.node.worker)) ==>
           Node(d, w) in seen || Alive(sys, Node(d, w))
    ensures var sys' := Acquire(sys, p);
      if r.Taken? then sys'.procs[p].Holding? && sys'.procs[p].node == r.node else sys'.procs[p].Exhausted?
  {
    AcquireTakesFirstFree(sys, p);
    if r.Taken? {
      var k: nat := r.node.dc * 32 + r.node.worker;
      assert NodeAt(k) == r.node && Free(sys, seen, k);
      forall c: nat | FirstFree(sys, seen, 0, c) ensures c == k {
        assert NodeAt(c) == Node(c / 32, c % 32);
      }
    } else {
      forall c: nat | c < NODES ensures !Free(sys, seen, c) {
        assert NodeAt(c) == Node(c / 32, c % 32);
      }
      assert AllBusy(sys, seen, 0);
    }
  }
}
