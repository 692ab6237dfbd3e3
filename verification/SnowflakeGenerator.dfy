/** Generating ids from any sequence of clock readings. */
module SnowflakeGenerator {
  import opened SnowflakeBits

  const CLOCK_BACKWARD_TOLERANCE_MS := 10000

  /** A generator that has been given its node. */
  datatype Gen = Gen(dc: int, worker: int, sequence: int, last: int) {
    predicate Valid() { Fits(dc, worker, sequence) }

    /** The id the generator would have composed last. */
    function Top(): int { Compose(last, dc, worker, sequence) }
  }

  /** `Blocked`: the clock never gets far enough. */
  datatype Outcome = Id(id: int) | ClockBackwards(back: int) | Blocked

  /** Reads the clock until it is past `last`: the reading and what is left, or nothing. */
  function TillNext(readings: seq<int>, last: int): (r: (seq<int>, seq<int>))
    ensures r.0 != [] ==> |r.0| == 1 && r.0[0] > last && r.0[0] in readings && |r.1| < |readings|
    ensures forall t :: t in r.1 ==> t in readings
  {
    if readings == [] then ([], [])
    else if readings[0] > last then ([readings[0]], readings[1..])
    else TillNext(readings[1..], last)
  }

  function Emit(g: Gen, timestamp: int, sequence: int, rest: seq<int>): (Outcome, Gen, seq<int>) {
    var g' := g.(sequence := sequence, last := timestamp);
    (Id(Compose(timestamp, g.dc, g.worker, sequence)), g', rest)
  }

  /** One call: the outcome, the generator after it, and the readings not yet consumed. */
  function Generate(g: Gen, readings: seq<int>): (Outcome, Gen, seq<int>) {
    if readings == [] then (Blocked, g, [])
    else
      var (first, rest) := (readings[0], readings[1..]);
      if first < g.last then
        if g.last - first <= CLOCK_BACKWARD_TOLERANCE_MS then
          var (next, rest') := TillNext(rest, g.last);
          if next == [] then (Blocked, g, []) else Emit(g, next[0], 0, rest')
        else (ClockBackwards(g.last - first), g, rest)
      else if first == g.last then
        var sequence := And(g.sequence + 1, SEQUENCE_MASK);
        if sequence == 0 then
          var (next, rest') := TillNext(rest, g.last);
          if next == [] then (Blocked, g.(sequence := 0), []) else Emit(g, next[0], 0, rest')
        else Emit(g, first, sequence, rest)
      else Emit(g, first, 0, rest)
  }

  lemma NextSequence(g: Gen)
    requires g.Valid()
    ensures And(g.sequence + 1, SEQUENCE_MASK) == if g.sequence == SEQUENCE_MASK then 0 else g.sequence + 1
  {
    hide And, Pow2;
    Widths();
    MaskIsRemainder(g.sequence + 1, 12);
  }

  /** Every emitted id is above the last one, belongs to the node, and carries the generator's fields;
      a call that is refused for the clock changes nothing. */
  lemma GenerateAdvances(g: Gen, readings: seq<int>)
    requires g.Valid()
    ensures var (out, g', rest) := Generate(g, readings);
      && g'.Valid() && g'.dc == g.dc && g'.worker == g.worker
      && (out.Id? ==> out.id == g'.Top() && g.Top() < out.id && g'.last >= g.last &&
                      Parse(out.id) == Info(g'.last, g.dc, g.worker, g'.sequence))
      && (out.ClockBackwards? ==> g' == g && out.back > CLOCK_BACKWARD_TOLERANCE_MS)
  {
    NextSequence(g);
    GenerateMoves(g, readings);
    var g' := Generate(g, readings).1;
    hide Generate, And, Compose, Parse;
    if Generate(g, readings).0.Id? { Ahead(g, g'); }
  }

  /** The fields after a call: a later timestamp, or the same one with the next sequence number. */
  lemma GenerateMoves(g: Gen, readings: seq<int>)
    requires 0 <= g.sequence <= SEQUENCE_MASK
    requires And(g.sequence + 1, SEQUENCE_MASK) == if g.sequence == SEQUENCE_MASK then 0 else g.sequence + 1
    ensures var (out, g', rest) := Generate(g, readings);
      && g'.dc == g.dc && g'.worker == g.worker && 0 <= g'.sequence <= SEQUENCE_MASK
      && (out.Id? ==> out.id == g'.Top())
      && (out.Id? ==> g'.last > g.last || (g'.last == g.last && g'.sequence == g.sequence + 1))
      && (out.ClockBackwards? ==> g' == g && out.back > CLOCK_BACKWARD_TOLERANCE_MS)
  {
    hide And, Compose;
  }

  /** Readings are consumed in order, and an emitted timestamp is one of them. */
  lemma GenerateReads(g: Gen, readings: seq<int>)
    ensures var (out, g', rest) := Generate(g, readings);
      && (forall t :: t in rest ==> t in readings)
      && (out.Id? ==> g'.last in readings)
  {
    hide And, Compose;
    if readings != [] { assert forall t :: t in readings[1..] ==> t in readings; }
  }

  lemma Ahead(g: Gen, g': Gen)
    requires g.Valid() && g'.Valid() && g'.dc == g.dc && g'.worker == g.worker
    requires g'.last > g.last || (g'.last == g.last && g'.sequence > g.sequence)
    ensures g.Top() < g'.Top() && Parse(g'.Top()) == Info(g'.last, g.dc, g.worker, g'.sequence)
  {
    ComposeMonotone(g.last, g.sequence, g'.last, g'.sequence, g.dc, g.worker);
    ParseUndoesCompose(g'.last, g.dc, g.worker, g'.sequence);
  }

  /** A call is refused for the clock exactly when the first reading is behind by more than the tolerance. */
  lemma RefusedIff(g: Gen, readings: seq<int>)
    requires readings != []
    ensures Generate(g, readings).0.ClockBackwards? <==> readings[0] < g.last - CLOCK_BACKWARD_TOLERANCE_MS
    ensures Generate(g, readings).0.ClockBackwards? ==>
      Generate(g, readings) == (ClockBackwards(g.last - readings[0]), g, readings[1..])
  {
    hide Compose, And;
  }

  // ---------------------------------------------------------------- which reading and which number

  /** The reading `k` is the first one from `start` on that lies past `last`. */
  predicate FirstPast(readings: seq<int>, start: nat, last: int, k: nat) {
    start <= k < |readings| && readings[k] > last && forall j :: start <= j < k ==> readings[j] <= last
  }

  lemma {:induction false} TillNextIsFirst(readings: seq<int>, start: nat, last: int)
    requires start <= |readings|
    ensures var (next, rest) := TillNext(readings[start..], last);
      if next == [] then rest == [] && forall j :: start <= j < |readings| ==> readings[j] <= last
      else exists k: nat :: FirstPast(readings, start, last, k) && next == [readings[k]] && rest == readings[k + 1..]
    decreases |readings| - start
  {
    if start < |readings| {
      assert readings[start..][1..] == readings[start + 1..];
      if readings[start] > last {
        assert FirstPast(readings, start, last, start);
      } else {
        TillNextIsFirst(readings, start + 1, last);
        var next := TillNext(readings[start + 1..], last).0;
        if next != [] {
          var k: nat :| FirstPast(readings, start + 1, last, k) && next == [readings[k]] &&
            TillNext(readings[start + 1..], last).1 == readings[k + 1..];
          assert FirstPast(readings, start, last, k);
        }
      }
    }
  }

  /** The id of a timestamp and number on the generator's node, with the generator at them and the readings left. */
  predicate Emits(g: Gen, timestamp: int, sequence: int, rest: seq<int>, result: (Outcome, Gen, seq<int>)) {
    result == (Id(Compose(timestamp, g.dc, g.worker, sequence)), Gen(g.dc, g.worker, sequence, timestamp), rest)
  }

  /** The call has to wait: the clock is back within tolerance, or the numbers of the millisecond are used up. */
  predicate Waits(g: Gen, first: int) {
    g.last - 10000 <= first < g.last || (first == g.last && g.sequence == 4095)
  }

  /** What a call does, case by case: a later reading starts at number zero, the same one takes the next number,
      and a call that has to wait takes the first later reading, with number zero. */
  lemma GenerateCases(g: Gen, readings: seq<int>)
    requires g.Valid() && readings != []
    ensures readings[0] > g.last ==> Emits(g, readings[0], 0, readings[1..], Generate(g, readings))
    ensures readings[0] == g.last && g.sequence < 4095 ==>
      Emits(g, readings[0], g.sequence + 1, readings[1..], Generate(g, readings))
    ensures forall k: nat :: Waits(g, readings[0]) && FirstPast(readings, 1, g.last, k) ==>
      Emits(g, readings[k], 0, readings[k + 1..], Generate(g, readings))
  {
    NextSequence(g);
    hide Compose, And, TillNext;
    forall k: nat | Waits(g, readings[0]) && FirstPast(readings, 1, g.last, k)
      ensures Emits(g, readings[k], 0, readings[k + 1..], Generate(g, readings))
    {
      WaitedFor(readings, g.last, k);
    }
  }

  lemma WaitedFor(readings: seq<int>, last: int, k: nat)
    requires FirstPast(readings, 1, last, k)
    ensures TillNext(readings[1..], last) == ([readings[k]], readings[k + 1..])
  {
    TillNextIsFirst(readings, 1, last);
    hide TillNext;
  }

  /** A call does not come back exactly when the clock shows nothing, or has to be waited for and never gets past
      the last timestamp; it has then seen all readings. */
  lemma BlocksIff(g: Gen, readings: seq<int>)
    requires g.Valid()
    ensures Generate(g, readings).0.Blocked? <==>
      readings == [] || (Waits(g, readings[0]) && forall j :: 1 <= j < |readings| ==> readings[j] <= g.last)
    ensures Generate(g, readings).0.Blocked? ==> Generate(g, readings).2 == []
  {
    NextSequence(g);
    if readings != [] { TillNextIsFirst(readings, 1, g.last); }
    hide Compose, And, TillNext;
  }

  // ---------------------------------------------------------------- runs

  /** The ids of `calls` calls in a row, with the generator and the readings left after them. */
  function Run(g: Gen, readings: seq<int>, calls: nat): (seq<int>, Gen, seq<int>) {
    if calls == 0 then ([], g, readings)
    else
      var (ids, g1, rest1) := Run(g, readings, calls - 1);
      var (out, g', rest') := Generate(g1, rest1);
      (if out.Id? then ids + [out.id] else ids, g', rest')
  }

  ghost predicate Increasing(ids: seq<int>) {
    forall i, j :: 0 <= i < j < |ids| ==> ids[i] < ids[j]
  }

  /** Whatever the clock does, the ids of a run increase strictly, and all lie above what came before. */
  lemma {:induction false} IdsIncrease(g: Gen, readings: seq<int>, calls: nat)
    requires g.Valid()
    ensures var (ids, g', rest) := Run(g, readings, calls);
      && Increasing(ids)
      && (forall i :: 0 <= i < |ids| ==> g.Top() < ids[i])
      && g'.Valid() && g'.dc == g.dc && g'.worker == g.worker
      && (rest != [] ==> g.Top() <= g'.Top() && forall i :: 0 <= i < |ids| ==> ids[i] <= g'.Top())
  {
    if calls > 0 {
      IdsIncrease(g, readings, calls - 1);
      var (ids, g1, rest1) := Run(g, readings, calls - 1);
      GenerateAdvances(g1, rest1);
      if rest1 != [] { BlockedConsumesAll(g1, rest1); }
      hide Generate, Compose, Parse, Fits;
    }
  }

  lemma BlockedConsumesAll(g: Gen, readings: seq<int>)
    ensures Generate(g, readings).0.Blocked? ==> Generate(g, readings).2 == []
  {
    hide Compose, And;
  }

  /** The id parses to the node of the generator and a timestamp among the readings, and is composed of them. */
  ghost predicate OfNode(g: Gen, readings: seq<int>, id: int) {
    var info := Parse(id);
    && info.dc == g.dc && info.worker == g.worker && info.timestamp in readings
    && Fits(g.dc, g.worker, info.sequence)
    && id == Compose(info.timestamp, g.dc, g.worker, info.sequence)
  }

  /** Every id of a run is an id of the node, at a time the clock showed. */
  lemma {:induction false} IdsOfNode(g: Gen, readings: seq<int>, calls: nat, id: int)
    requires g.Valid() && id in Run(g, readings, calls).0
    ensures OfNode(g, readings, id)
  {
    hide Compose, Parse, Fits;
    if calls > 0 {
      IdsIncrease(g, readings, calls - 1);
      RunReadings(g, readings, calls - 1);
      var (ids, g1, rest1) := Run(g, readings, calls - 1);
      EmittedOfNode(g1, rest1);
      hide Generate, OfNode;
      if id in ids {
        IdsOfNode(g, readings, calls - 1, id);
      } else {
        SameNode(g, readings, g1, rest1, id);
      }
    }
  }

  lemma EmittedOfNode(g: Gen, readings: seq<int>)
    requires g.Valid()
    ensures Generate(g, readings).0.Id? ==> OfNode(g, readings, Generate(g, readings).0.id)
  {
    GenerateAdvances(g, readings);
    GenerateReads(g, readings);
    hide Generate, Parse, Compose;
  }

  lemma SameNode(g: Gen, readings: seq<int>, g1: Gen, rest1: seq<int>, id: int)
    requires OfNode(g1, rest1, id) && g1.dc == g.dc && g1.worker == g.worker && forall t :: t in rest1 ==> t in readings
    ensures OfNode(g, readings, id)
  {
    hide Parse, Compose, Fits;
  }

  lemma {:induction false} RunReadings(g: Gen, readings: seq<int>, calls: nat)
    requires g.Valid()
    ensures var (ids, g', rest) := Run(g, readings, calls);
      g'.Valid() && forall t :: t in rest ==> t in readings
  {
    hide Compose;
    if calls > 0 {
      RunReadings(g, readings, calls - 1);
      var (ids, g1, rest1) := Run(g, readings, calls - 1);
      GenerateAdvances(g1, rest1);
      GenerateReads(g1, rest1);
      hide Generate;
    }
  }

  /** At most 4096 ids of a run share a millisecond. */
  lemma {:induction false} AtMost4096PerMillisecond(g: Gen, readings: seq<int>, calls: nat, t: int)
    requires g.Valid()
    ensures |set id | id in Run(g, readings, calls).0 && Parse(id).timestamp == t| <= 4096
  {
    hide Run, Parse, Compose;
    var ids := Run(g, readings, calls).0;
    var same := set id | id in ids && Parse(id).timestamp == t;
    forall id | id in same
      ensures 0 <= Parse(id).sequence < 4096 && id == Compose(t, g.dc, g.worker, Parse(id).sequence)
    {
      IdsOfNode(g, readings, calls, id);
    }
    BoundedBySequence(same, t, g, 4096);
  }

  /** Distinct ids of one millisecond and node have distinct sequence numbers. */
  lemma {:induction false} BoundedBySequence(ids: set<int>, t: int, g: Gen, n: nat)
    requires forall id :: id in ids ==>
      0 <= Parse(id).sequence < n && id == Compose(t, g.dc, g.worker, Parse(id).sequence)
    ensures |ids| <= n
    decreases n
  {
    hide Parse, Compose;
    if n == 0 {
      forall id ensures id !in ids { assert id in ids ==> 0 <= Parse(id).sequence < n; }
      assert ids == {};
    } else {
      var last := Compose(t, g.dc, g.worker, n - 1);
      BoundedBySequence(ids - {last}, t, g, n - 1);
    }
  }

  /** Generators of different nodes never produce the same id, whatever their clocks show. */
  lemma NodesNeverCollide(g: Gen, readings: seq<int>, calls: nat, h: Gen, readings': seq<int>, calls': nat, id: int)
    requires g.Valid() && h.Valid()
    requires id in Run(g, readings, calls).0 && id in Run(h, readings', calls').0
    ensures g.dc == h.dc && g.worker == h.worker
  {
    IdsOfNode(g, readings, calls, id);
    IdsOfNode(h, readings', calls', id);
  }

  /** All ids of a run are positive 63-bit numbers exactly when the clock showed only times within 41 bits
      of the epoch for them. */
  lemma RunFitsSixtyThreeBits(g: Gen, readings: seq<int>, calls: nat, id: int)
    requires g.Valid() && id in Run(g, readings, calls).0
    ensures 0 <= id < 0x8000_0000_0000_0000 <==> 0 <= Parse(id).timestamp - EPOCH < 0x200_0000_0000
  {
    IdsOfNode(g, readings, calls, id);
    FitsSixtyThreeBits(Parse(id).timestamp, g.dc, g.worker, Parse(id).sequence);
  }
}
