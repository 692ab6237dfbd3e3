/** The batch consumer as a function of what happens whenever it is suspended. */
module QueueModel {
  type Item = int

  /** What the rest of the program does while the consumer waits: a producer puts an item, the stop
      signal is set, the dequeue timeout expires, the handler returns or raises. */
  datatype Event = Put(item: Item) | SetStop | Expire | HandlerDone(ok: bool)

  /** `stoppable`: a stop signal was passed. */
  datatype Config = Config(maxItems: int, timeout: int, stoppable: bool)

  datatype Batch = Batch(items: seq<Item>, ok: bool)

  /** `enqueued` is everything ever put; `unfinished` counts items without a `task_done`. */
  datatype Queue = Queue(items: seq<Item>, unfinished: int, stop: bool, enqueued: seq<Item>)

  /** `Exited`: the consumer returned.  `Waiting`: it is still suspended, or spins, with `inFlight` in hand. */
  datatype Outcome =
    | Exited(queue: Queue, handled: seq<Batch>)
    | Waiting(queue: Queue, handled: seq<Batch>, inFlight: seq<Item>)

  function Absorb(q: Queue, e: Event): Queue {
    match e
    case Put(x) => q.(items := q.items + [x], unfinished := q.unfinished + 1, enqueued := q.enqueued + [x])
    case SetStop => q.(stop := true)
    case _ => q
  }

  predicate Stopped(cfg: Config, q: Queue) {
    cfg.stoppable && q.stop
  }

  datatype Collected =
    | Items(items: seq<Item>, queue: Queue, rest: seq<Event>)
    | Suspended(items: seq<Item>, queue: Queue)

  /** The collector: takes what is there, up to the maximum; suspends only on an empty queue with no stop signal. */
  function Collect(cfg: Config, q: Queue, items: seq<Item>, script: seq<Event>): (c: Collected)
    ensures c.Items? ==> |c.rest| <= |script|
    decreases |script|, |q.items|
  {
    if |items| >= cfg.maxItems then Items(items, q, script)
    else if q.items != [] then Collect(cfg, q.(items := q.items[1..]), items + [q.items[0]], script)
    else if Stopped(cfg, q) then Items(items, q, script)
    else if script == [] then Suspended(items, q)
    else if script[0].Expire? then Items(items, q, script[1..])
    else Collect(cfg, Absorb(q, script[0]), items, script[1..])
  }

  /** A timeout that is not positive cancels the collector before it starts. */
  function Dequeue(cfg: Config, q: Queue, script: seq<Event>): (c: Collected)
    ensures c.Items? ==> |c.rest| <= |script|
  {
    if cfg.timeout > 0 then Collect(cfg, q, [], script)
    else if script == [] then Items([], q, [])
    else Items([], Absorb(q, script[0]), script[1..])
  }

  datatype HandlerRun = Returned(ok: bool, queue: Queue, rest: seq<Event>) | Running(queue: Queue)

  /** The handler at work: producers go on until it returns or raises. */
  function RunHandler(q: Queue, script: seq<Event>): (r: HandlerRun)
    ensures r.Returned? ==> |r.rest| < |script|
    decreases |script|
  {
    if script == [] then Running(q)
    else if script[0].HandlerDone? then Returned(script[0].ok, q, script[1..])
    else RunHandler(Absorb(q, script[0]), script[1..])
  }

  /** The loop, from its top. */
  function Consume(cfg: Config, q: Queue, handled: seq<Batch>, script: seq<Event>): Outcome
    decreases |script|
  {
    match Dequeue(cfg, q, script)
    case Suspended(items, q') => Waiting(q', handled, items)
    case Items(items, q', rest) =>
      if items == [] then
        if Stopped(cfg, q') then Exited(q', handled)
        else if |rest| < |script| then Consume(cfg, q', handled, rest)
        else Waiting(q', handled, [])
      else
        match RunHandler(q', rest)
        case Running(q'') => Waiting(q'', handled, items)
        case Returned(ok, q'', rest') =>
          Consume(cfg, q''.(unfinished := q''.unfinished - |items|), handled + [Batch(items, ok)], rest')
  }
}

/** Conservation and draining. */
module QueueTheorems {
  import opened QueueModel

  function Contents(handled: seq<Batch>): seq<Item> {
    if handled == [] then [] else Contents(handled[..|handled| - 1]) + handled[|handled| - 1].items
  }

  /** Handled batches, then the items in hand, then the queue: that is everything put, in order; and the
      unfinished count is what is in hand or queued. */
  ghost predicate Conserved(q: Queue, handled: seq<Batch>, inFlight: seq<Item>) {
    Contents(handled) + inFlight + q.items == q.enqueued && q.unfinished == |inFlight| + |q.items|
  }

  /** No batch is empty or too large. */
  ghost predicate Sized(cfg: Config, handled: seq<Batch>) {
    forall i :: 0 <= i < |handled| ==> 1 <= |handled[i].items| <= cfg.maxItems
  }

  lemma AbsorbConserves(q: Queue, handled: seq<Batch>, inFlight: seq<Item>, e: Event)
    requires Conserved(q, handled, inFlight)
    ensures Conserved(Absorb(q, e), handled, inFlight)
  {
    hide Contents;
    if e.Put? {
      assert Contents(handled) + inFlight + (q.items + [e.item]) == (Contents(handled) + inFlight + q.items) + [e.item];
    }
  }

  lemma {:induction false} CollectConserves(cfg: Config, q: Queue, handled: seq<Batch>, items: seq<Item>,
      script: seq<Event>)
    requires Conserved(q, handled, items) && (|items| <= cfg.maxItems || items == [])
    ensures var c := Collect(cfg, q, items, script);
      Conserved(c.queue, handled, c.items) && (|c.items| <= cfg.maxItems || c.items == [])
    decreases |script|, |q.items|
  {
    if |items| >= cfg.maxItems {
    } else if q.items != [] {
      assert items + q.items == (items + [q.items[0]]) + q.items[1..];
      assert Contents(handled) + items + q.items == Contents(handled) + (items + q.items);
      assert Contents(handled) + ((items + [q.items[0]]) + q.items[1..]) ==
          Contents(handled) + (items + [q.items[0]]) + q.items[1..];
      hide Contents;
      CollectConserves(cfg, q.(items := q.items[1..]), handled, items + [q.items[0]], script);
    } else if !Stopped(cfg, q) && script != [] && !script[0].Expire? {
      AbsorbConserves(q, handled, items, script[0]);
      hide Conserved;
      CollectConserves(cfg, Absorb(q, script[0]), handled, items, script[1..]);
    }
  }

  lemma {:induction false} HandlerConserves(q: Queue, handled: seq<Batch>, items: seq<Item>, script: seq<Event>)
    requires Conserved(q, handled, items)
    ensures Conserved(RunHandler(q, script).queue, handled, items)
    decreases |script|
  {
    if script != [] && !script[0].HandlerDone? {
      AbsorbConserves(q, handled, items, script[0]);
      hide Conserved;
      HandlerConserves(Absorb(q, script[0]), handled, items, script[1..]);
    }
  }

  lemma DequeueConserves(cfg: Config, q: Queue, handled: seq<Batch>, script: seq<Event>)
    requires Conserved(q, handled, [])
    ensures var c := Dequeue(cfg, q, script);
      Conserved(c.queue, handled, c.items) && (|c.items| <= cfg.maxItems || c.items == [])
  {
    CollectConserves(cfg, q, handled, [], script);
    if script != [] { AbsorbConserves(q, handled, [], script[0]); }
    hide Conserved, Collect;
  }

  /** The consumer had to stop collecting: nothing is queued, and it was told to stop or its time was up. */
  ghost predicate RanDry(cfg: Config, q: Queue, script: seq<Event>, rest: seq<Event>) {
    && q.items == []
    && ((cfg.stoppable && q.stop) || exists i :: 0 <= i < |script| && script[i] == Expire && rest == script[i + 1..])
  }

  /** A batch that is returned is full, unless the queue was empty at a stop or a timeout. */
  lemma {:induction false} CollectsFull(cfg: Config, q: Queue, items: seq<Item>, script: seq<Event>)
    ensures var c := Collect(cfg, q, items, script);
      && (c.Items? ==> |c.items| >= cfg.maxItems || RanDry(cfg, c.queue, script, c.rest))
      && (c.Suspended? ==> |c.items| < cfg.maxItems && c.queue.items == [] && !(cfg.stoppable && c.queue.stop))
    decreases |script|, |q.items|
  {
    var c := Collect(cfg, q, items, script);
    if |items| >= cfg.maxItems {
    } else if q.items != [] {
      CollectsFull(cfg, q.(items := q.items[1..]), items + [q.items[0]], script);
    } else if !Stopped(cfg, q) && script != [] {
      if script[0].Expire? {
        assert script[0] == Expire && c.rest == script[0 + 1..];
      } else {
        CollectsFull(cfg, Absorb(q, script[0]), items, script[1..]);
        if c.Items? && |c.items| < cfg.maxItems && !Stopped(cfg, c.queue) {
          var i :| 0 <= i < |script[1..]| && script[1..][i] == Expire && c.rest == script[1..][i + 1..];
          assert script[i + 1] == Expire && c.rest == script[(i + 1) + 1..];
        }
      }
    }
  }

  /** The stop signal is set afterwards exactly when it was set before or came in the meantime. */
  lemma {:induction false} StopIsSeen(cfg: Config, q: Queue, items: seq<Item>, script: seq<Event>)
    ensures var c := Collect(cfg, q, items, script);
      c.queue.stop <==> q.stop || SetStop in script[..|script| - if c.Items? then |c.rest| else 0]
    decreases |script|, |q.items|
  {
    var c := Collect(cfg, q, items, script);
    var left := if c.Items? then |c.rest| else 0;
    if |items| >= cfg.maxItems {
      assert script[..0] == [];
    } else if q.items != [] {
      StopIsSeen(cfg, q.(items := q.items[1..]), items + [q.items[0]], script);
    } else if Stopped(cfg, q) {
      assert script[..0] == [];
    } else if script != [] {
      if script[0].Expire? {
        assert script[..1] == [Expire];
      } else {
        StopIsSeen(cfg, Absorb(q, script[0]), items, script[1..]);
        assert script[..|script| - left] == [script[0]] + script[1..][..|script[1..]| - left];
      }
    }
  }

  /** With a positive timeout every batch dequeued is full, unless the queue was empty at a stop or a timeout. */
  lemma DequeuesFull(cfg: Config, q: Queue, script: seq<Event>)
    requires cfg.timeout > 0
    ensures var c := Dequeue(cfg, q, script);
      c.Items? ==> |c.items| >= cfg.maxItems || RanDry(cfg, c.queue, script, c.rest)
  {
    CollectsFull(cfg, q, [], script);
  }

  lemma FinishBatch(cfg: Config, q: Queue, handled: seq<Batch>, items: seq<Item>, ok: bool)
    requires Conserved(q, handled, items) && Sized(cfg, handled) && 1 <= |items| <= cfg.maxItems
    ensures Conserved(q.(unfinished := q.unfinished - |items|), handled + [Batch(items, ok)], [])
    ensures Sized(cfg, handled + [Batch(items, ok)])
  {
    assert (handled + [Batch(items, ok)])[..|handled|] == handled;
    assert Contents(handled + [Batch(items, ok)]) == Contents(handled) + items;
  }

  function InFlight(out: Outcome): seq<Item> {
    if out.Waiting? then out.inFlight else []
  }

  /** Whatever producers, timeouts, failing handlers and the stop signal do: nothing is lost, duplicated or
      reordered, the unfinished count is right, and no batch exceeds the maximum. */
  lemma {:induction false} NothingIsLost(cfg: Config, q: Queue, handled: seq<Batch>, script: seq<Event>)
    requires Conserved(q, handled, []) && Sized(cfg, handled)
    ensures var out := Consume(cfg, q, handled, script);
      Conserved(out.queue, out.handled, InFlight(out)) && Sized(cfg, out.handled) &&
      (InFlight(out) != [] ==> |InFlight(out)| <= cfg.maxItems)
    decreases |script|
  {
    DequeueConserves(cfg, q, handled, script);
    var c := Dequeue(cfg, q, script);
    hide Dequeue, Conserved, Absorb, Contents, Sized;
    if c.Items? {
      if c.items == [] {
        if !Stopped(cfg, c.queue) && |c.rest| < |script| { NothingIsLost(cfg, c.queue, handled, c.rest); }
      } else {
        HandlerConserves(c.queue, handled, c.items, c.rest);
        var r := RunHandler(c.queue, c.rest);
        hide RunHandler;
        if r.Returned? {
          FinishBatch(cfg, r.queue, handled, c.items, r.ok);
          var queue := r.queue.(unfinished := r.queue.unfinished - |c.items|);
          NothingIsLost(cfg, queue, handled + [Batch(c.items, r.ok)], r.rest);
        }
      }
    }
  }

  // ---------------------------------------------------------------- draining

  /** Nobody puts anything; handlers just finish, well or badly. */
  ghost predicate Calm(script: seq<Event>) {
    forall i :: 0 <= i < |script| ==> script[i].HandlerDone?
  }

  /** How many batches of at most `max` items hold `n` items. */
  function Batches(n: int, max: int): nat
    requires max > 0
    decreases if n < 0 then 0 else n
  {
    if n <= 0 then 0 else 1 + Batches(n - max, max)
  }

  /** That is `n / max`, rounded up. */
  lemma {:induction false} BatchesRoundUp(n: nat, max: int)
    requires max > 0
    ensures (Batches(n, max) - 1) * max < n || n == 0
    ensures n <= Batches(n, max) * max
  {
    if n > max {
      BatchesRoundUp(n - max, max);
      var b := Batches(n - max, max);
      assert Batches(n, max) == b + 1;
      assert (b + 1) * max == b * max + max;
      assert (b - 1) * max == b * max - max;
    } else if n > 0 {
      assert Batches(n - max, max) == 0;
    }
  }

  lemma {:induction false} CollectUnderStop(cfg: Config, q: Queue, items: seq<Item>, script: seq<Event>, k: nat)
    requires Stopped(cfg, q) && |items| + k == cfg.maxItems
    ensures var n := if k < |q.items| then k else |q.items|;
      Collect(cfg, q, items, script) == Items(items + q.items[..n], q.(items := q.items[n..]), script)
    decreases k
  {
    if k > 0 && q.items != [] {
      CollectUnderStop(cfg, q.(items := q.items[1..]), items + [q.items[0]], script, k - 1);
      var n := if k < |q.items| then k else |q.items|;
      assert items + [q.items[0]] + q.items[1..][..n - 1] == items + q.items[..n];
      assert q.items[1..][n - 1..] == q.items[n..];
    } else if k > 0 {
      assert items + q.items[..0] == items && q.items[0..] == q.items;
    } else {
      assert items + q.items[..0] == items && q.items[0..] == q.items;
    }
  }

  /** With the stop signal set and no producers, the consumer makes exactly as many handler calls as the queue
      needs, and exits with the queue empty, whether or not handlers fail. */
  lemma {:induction false} DrainsUnderStop(cfg: Config, q: Queue, handled: seq<Batch>, script: seq<Event>)
    requires Stopped(cfg, q) && cfg.maxItems > 0 && cfg.timeout > 0 && Calm(script)
    requires |script| >= Batches(|q.items|, cfg.maxItems)
    ensures var out := Consume(cfg, q, handled, script);
      && out.Exited? && out.queue.items == [] && out.queue.unfinished == q.unfinished - |q.items|
      && |out.handled| == |handled| + Batches(|q.items|, cfg.maxItems) && handled <= out.handled
    decreases |script|
  {
    var max := cfg.maxItems;
    CollectUnderStop(cfg, q, [], script, max);
    if q.items != [] {
      var n := if max < |q.items| then max else |q.items|;
      assert Batches(|q.items|, max) == 1 + Batches(|q.items| - n, max);
      assert [] + q.items[..n] == q.items[..n];
      var q' := q.(items := q.items[n..], unfinished := q.unfinished - n);
      var handled' := handled + [Batch(q.items[..n], script[0].ok)];
      hide Collect, Batches;
      assert Consume(cfg, q, handled, script) == Consume(cfg, q', handled', script[1..]);
      hide Consume;
      DrainsUnderStop(cfg, q', handled', script[1..]);
    }
  }

  /** With the stop signal set at the top of the loop, the consumer drains the queue exactly when the queue is
      empty already, or the batch size and the timeout are both positive. */
  lemma DrainsIff(cfg: Config, q: Queue, script: seq<Event>)
    requires Stopped(cfg, q) && Calm(script)
    requires cfg.maxItems > 0 ==> |script| >= Batches(|q.items|, cfg.maxItems)
    ensures var out := Consume(cfg, q, [], script);
      out.Exited? && (out.queue.items == [] <==> q.items == [] || (cfg.maxItems > 0 && cfg.timeout > 0))
  {
    if cfg.maxItems > 0 && cfg.timeout > 0 {
      DrainsUnderStop(cfg, q, [], script);
    }
  }

  lemma {:induction false} CollectEmptyHanded(cfg: Config, q: Queue, items: seq<Item>, script: seq<Event>)
    requires cfg.maxItems > 0
    ensures var c := Collect(cfg, q, items, script);
      && |c.items| >= |items|
      && (c.Items? && c.items == [] ==> c.queue.items == [])
    decreases |script|, |q.items|
  {
    if |items| >= cfg.maxItems {
    } else if q.items != [] {
      CollectEmptyHanded(cfg, q.(items := q.items[1..]), items + [q.items[0]], script);
    } else if !Stopped(cfg, q) && script != [] && !script[0].Expire? {
      CollectEmptyHanded(cfg, Absorb(q, script[0]), items, script[1..]);
    }
  }

  /** Whatever happens along the way, a consumer with a positive batch size and timeout only exits after a stop
      signal and with nothing left: all that was put has been handled. */
  lemma {:induction false} ExitsEmpty(cfg: Config, q: Queue, handled: seq<Batch>, script: seq<Event>)
    requires cfg.maxItems > 0 && cfg.timeout > 0
    ensures var out := Consume(cfg, q, handled, script);
      out.Exited? ==> cfg.stoppable && out.queue.stop && out.queue.items == []
    decreases |script|
  {
    CollectEmptyHanded(cfg, q, [], script);
    var c := Dequeue(cfg, q, script);
    hide Dequeue;
    if c.Items? {
      if c.items == [] {
        if !Stopped(cfg, c.queue) && |c.rest| < |script| { ExitsEmpty(cfg, c.queue, handled, c.rest); }
      } else {
        var r := RunHandler(c.queue, c.rest);
        hide RunHandler;
        if r.Returned? {
          var queue := r.queue.(unfinished := r.queue.unfinished - |c.items|);
          ExitsEmpty(cfg, queue, handled + [Batch(c.items, r.ok)], r.rest);
        }
      }
    }
  }

  /** On exit everything ever put has been handled, in order, and is accounted for. */
  lemma AllHandledOnExit(cfg: Config, script: seq<Event>)
    requires cfg.maxItems > 0 && cfg.timeout > 0
    ensures var out := Consume(cfg, Queue([], 0, false, []), [], script);
      out.Exited? ==> Contents(out.handled) == out.queue.enqueued && out.queue.unfinished == 0
  {
    var q := Queue([], 0, false, []);
    NothingIsLost(cfg, q, [], script);
    ExitsEmpty(cfg, q, [], script);
    var out := Consume(cfg, q, [], script);
    hide Consume, Contents;
    assert out.Exited? ==> Contents(out.handled) + [] + [] == Contents(out.handled);
  }
}
