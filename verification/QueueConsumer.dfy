/** The consumer as it runs: a queue object shared with producers, two nested loops, no return until told to stop. */
module QueueConsumer {
  import opened QueueModel

  /** `asyncio.Queue` with the stop signal, and what the rest of the program will do to them. */
  class SharedQueue {
    var items: seq<Item>
    var unfinished: int
    var stop: bool
    ghost var enqueued: seq<Item>
    var script: seq<Event>

    constructor (script: seq<Event>)
      ensures items == [] && unfinished == 0 && !stop && enqueued == [] && this.script == script
    {
      items, unfinished, stop, enqueued, this.script := [], 0, false, [], script;
    }

    ghost function State(): Queue
      reads this
    {
      Queue(items, unfinished, stop, enqueued)
    }

    method GetNowait() returns (item: Item)
      requires items != []
      modifies this`items
      ensures item == old(items)[0] && items == old(items)[1..]
    {
      item := items[0];
      items := items[1..];
    }

    method TaskDone()
      modifies this`unfinished
      ensures unfinished == old(unfinished) - 1
    {
      unfinished := unfinished - 1;
    }

    /** Yields to the rest of the program for one event. */
    method Suspend() returns (e: Event)
      requires script != []
      modifies this
      ensures e == old(script)[0] && script == old(script)[1..] && State() == Absorb(old(State()), e)
    {
      e := script[0];
      script := script[1..];
      match e {
        case Put(x) =>
          items := items + [x];
          unfinished := unfinished + 1;
          enqueued := enqueued + [x];
        case SetStop => stop := true;
        case _ =>
      }
    }
  }

  /** One batch; `done` is false when the consumer is still suspended. */
  method BatchDequeue(queue: SharedQueue, cfg: Config) returns (done: bool, items: seq<Item>)
    modifies queue
    ensures var c := Dequeue(cfg, old(queue.State()), old(queue.script));
      && done == c.Items? && items == c.items && queue.State() == c.queue
      && (done ==> queue.script == c.rest)
  {
    items := [];
    if cfg.timeout <= 0 {
      if queue.script != [] { var _ := queue.Suspend(); }
      return true, items;
    }
    ghost var whole := Collect(cfg, queue.State(), [], queue.script);
    while |items| < cfg.maxItems
      invariant Collect(cfg, queue.State(), items, queue.script) == whole
      decreases |queue.script|, |queue.items|
    {
      if queue.items == [] {
        if cfg.stoppable && queue.stop { return true, items; }
        if queue.script == [] { return false, items; }
        var e := queue.Suspend();
        if e == Expire { return true, items; }
      } else {
        var item := queue.GetNowait();
        items := items + [item];
      }
    }
    done := true;
  }

  /** Runs the handler; `done` is false while it has not returned. */
  method AwaitHandler(queue: SharedQueue) returns (done: bool, ok: bool)
    modifies queue
    ensures var r := RunHandler(old(queue.State()), old(queue.script));
      && done == r.Returned? && queue.State() == r.queue
      && (done ==> ok == r.ok && queue.script == r.rest)
  {
    ghost var whole := RunHandler(queue.State(), queue.script);
    while queue.script != []
      invariant RunHandler(queue.State(), queue.script) == whole
      decreases |queue.script|
    {
      var e := queue.Suspend();
      if e.HandlerDone? { return true, e.ok; }
    }
    done, ok := false, false;
  }

  /** Consumes batches until stopped; `inFlight` is what it holds if it is still at work when the script ends. */
  method BatchConsume(queue: SharedQueue, cfg: Config) returns (exited: bool, handled: seq<Batch>, inFlight: seq<Item>)
    modifies queue
    ensures Consume(cfg, old(queue.State()), [], old(queue.script)) ==
            if exited then Exited(queue.State(), handled) else Waiting(queue.State(), handled, inFlight)
  {
    hide Dequeue, RunHandler, Absorb;
    handled, inFlight := [], [];
    ghost var whole := Consume(cfg, queue.State(), [], queue.script);
    while true
      invariant Consume(cfg, queue.State(), handled, queue.script) == whole
      invariant inFlight == []
      decreases |queue.script|
    {
      var left := |queue.script|;
      var done, items := BatchDequeue(queue, cfg);
      if !done { return false, handled, items; }
      if items == [] {
        if cfg.stoppable && queue.stop { return true, handled, []; }
        if |queue.script| == left { return false, handled, []; }
        continue;
      }
      var returned, ok := AwaitHandler(queue);
      if !returned { return false, handled, items; }
      handled := handled + [Batch(items, ok)];
      ghost var (before, rest) := (queue.State(), queue.script);
      for i := 0 to |items|
        invariant queue.State() == before.(unfinished := before.unfinished - i) && queue.script == rest
      {
        queue.TaskDone();
      }
    }
    exited := false;
  }
}
