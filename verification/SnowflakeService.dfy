/** The generator as it runs: a clock that is read, and fields that are updated in place. */
module SnowflakeService {
  import opened SnowflakeBits
  import opened SnowflakeGenerator

  /** The clock: the readings it has yet to show. */
  class Clock {
    var readings: seq<int>

    constructor (readings: seq<int>)
      ensures this.readings == readings
    {
      this.readings := readings;
    }

    method CurrentMs() returns (ms: int)
      requires readings != []
      modifies this
      ensures ms == old(readings)[0] && readings == old(readings)[1..]
    {
      ms := readings[0];
      readings := readings[1..];
    }
  }

  class Snowflake {
    const clock: Clock
    var datacenterId: int
    var workerId: int
    var sequence: int
    var lastTimestamp: int

    constructor (clock: Clock, datacenterId: int, workerId: int)
      ensures this.clock == clock && State() == Gen(datacenterId, workerId, 0, -1)
    {
      this.clock := clock;
      this.datacenterId, this.workerId, sequence, lastTimestamp := datacenterId, workerId, 0, -1;
    }

    function State(): Gen
      reads this
    {
      Gen(datacenterId, workerId, sequence, lastTimestamp)
    }

    /** Waits for a reading past `last`; fails when the clock shows none. */
    method TillNextMs(last: int) returns (ok: bool, ts: int)
      modifies clock
      ensures var (next, rest) := TillNext(old(clock.readings), last);
        ok == (next != []) && (ok ==> ts == next[0]) && clock.readings == rest
    {
      if clock.readings == [] { return false, 0; }
      ts := clock.CurrentMs();
      while ts <= last
        invariant TillNext(old(clock.readings), last) ==
          if ts > last then ([ts], clock.readings) else TillNext(clock.readings, last)
        decreases |clock.readings|
      {
        if clock.readings == [] { return false, 0; }
        ts := clock.CurrentMs();
      }
      ok := true;
    }

    method Generate() returns (out: Outcome)
      modifies this`sequence, this`lastTimestamp, clock
      ensures (out, State(), clock.readings) == SnowflakeGenerator.Generate(old(State()), old(clock.readings))
    {
      hide TillNext, And, Or, Shl;
      if clock.readings == [] { return Blocked; }
      var timestamp := clock.CurrentMs();
      if timestamp < lastTimestamp {
        var backMs := lastTimestamp - timestamp;
        if backMs <= CLOCK_BACKWARD_TOLERANCE_MS {
          var ok;
          TillNextEmpty(clock.readings, lastTimestamp);
          ok, timestamp := TillNextMs(lastTimestamp);
          if !ok { return Blocked; }
        } else {
          return ClockBackwards(backMs);
        }
      }
      if timestamp == lastTimestamp {
        sequence := And(sequence + 1, SEQUENCE_MASK);
        if sequence == 0 {
          var ok;
          TillNextEmpty(clock.readings, lastTimestamp);
          ok, timestamp := TillNextMs(lastTimestamp);
          if !ok { return Blocked; }
        }
      } else {
        sequence := 0;
      }
      lastTimestamp := timestamp;
      return Id(Or(Or(Or(Shl(timestamp - EPOCH, TIMESTAMP_LEFT_SHIFT), Shl(datacenterId, DATACENTER_ID_SHIFT)),
                      Shl(workerId, WORKER_ID_SHIFT)),
                   sequence));
    }
  }

  lemma {:induction false} TillNextEmpty(readings: seq<int>, last: int)
    ensures TillNext(readings, last).0 == [] ==> TillNext(readings, last).1 == []
  {
    if readings != [] { TillNextEmpty(readings[1..], last); }
  }
}
