/** The bit layout of a snowflake id, with the shifts and masks of unbounded two's complement integers. */
module SnowflakeBits {
  const EPOCH := 1262275200000
  const WORKER_ID_SHIFT: nat := 12
  const DATACENTER_ID_SHIFT: nat := 17
  const TIMESTAMP_LEFT_SHIFT: nat := 22
  const SEQUENCE_MASK := 4095
  const MAX_WORKER_ID := 31
  const MAX_DATACENTER_ID := 31

  // ---------------------------------------------------------------- bitwise operations

  function Pow2(k: nat): (p: nat)
    ensures p > 0
  {
    if k == 0 then 1 else 2 * Pow2(k - 1)
  }

  /** `x << k` */
  function Shl(x: int, k: nat): int { x * Pow2(k) }

  /** `x >> k`, rounding down */
  function Shr(x: int, k: nat): int { x / Pow2(k) }

  /** Distance from the two fixed points 0 and -1 of halving. */
  function Depth(x: int): nat {
    if x < 0 then -x - 1 else x
  }

  /** `a | b` */
  function Or(a: int, b: int): int
    decreases Depth(a) + Depth(b)
  {
    if Depth(a) == 0 && Depth(b) == 0 then (if a == 0 then b else -1)
    else 2 * Or(a / 2, b / 2) + (if a % 2 == 1 || b % 2 == 1 then 1 else 0)
  }

  /** `a & b` */
  function And(a: int, b: int): int
    decreases Depth(a) + Depth(b)
  {
    if Depth(a) == 0 && Depth(b) == 0 then (if a == 0 then 0 else b)
    else 2 * And(a / 2, b / 2) + (if a % 2 == 1 && b % 2 == 1 then 1 else 0)
  }

  /** Joining a number without its low `k` bits and a number of `k` bits is addition. */
  lemma {:induction false} OrAdds(h: int, low: int, k: nat)
    requires 0 <= low < Pow2(k)
    ensures Or(Shl(h, k), low) == Shl(h, k) + low
  {
    if k == 0 {
      OrZero(h);
    } else {
      var half := Pow2(k - 1);
      assert Shl(h, k) == 2 * (h * half);
      assert Shl(h, k) / 2 == Shl(h, k - 1) && Shl(h, k) % 2 == 0;
      OrAdds(h, low / 2, k - 1);
      if Depth(Shl(h, k)) == 0 && Depth(low) == 0 {
        assert low == 0;
      }
    }
  }

  lemma {:induction false} OrZero(a: int)
    ensures Or(a, 0) == a
    decreases Depth(a)
  {
    if Depth(a) != 0 { OrZero(a / 2); }
  }

  /** Masking with `k` ones is the remainder by 2^k. */
  lemma {:induction false} MaskIsRemainder(a: int, k: nat)
    ensures And(a, Pow2(k) - 1) == a % Pow2(k)
    decreases k
  {
    if k == 0 {
      AndZero(a);
    } else {
      var half := Pow2(k - 1);
      assert (Pow2(k) - 1) / 2 == half - 1 && (Pow2(k) - 1) % 2 == 1;
      MaskIsRemainder(a / 2, k - 1);
      HalvesRemainder(a, half);
    }
  }

  lemma {:induction false} AndZero(a: int)
    ensures And(a, 0) == 0
    decreases Depth(a)
  {
    if Depth(a) != 0 { AndZero(a / 2); }
  }

  lemma HalvesRemainder(a: int, half: nat)
    requires half > 0
    ensures 2 * ((a / 2) % half) + a % 2 == a % (2 * half)
  {
    var q := (a / 2) / half;
    var r := 2 * ((a / 2) % half) + a % 2;
    assert a == 2 * half * q + r;
    RemainderUnique(a, 2 * half, q, r);
  }

  lemma RemainderUnique(a: int, m: int, q: int, r: int)
    requires m > 0 && a == m * q + r && 0 <= r < m
    ensures a % m == r && a / m == q
  {
    MultipleApart(m, q, a / m, r, a % m);
  }

  /** Two ways to write a number as a multiple of `m` and a remainder are the same. */
  lemma MultipleApart(m: int, q: int, q': int, r: int, r': int)
    requires m > 0 && m * q + r == m * q' + r' && 0 <= r < m && 0 <= r' < m
    ensures q == q' && r == r'
  {
    MultipleGrows(m, q - q');
    assert m * (q - q') == m * q - m * q';
  }

  lemma MultipleGrows(m: int, d: int)
    requires m > 0
    ensures d > 0 ==> m * d >= m
    ensures d < 0 ==> m * d <= -m
  {
    assert d > 0 ==> m * d >= m * 1;
    assert d < 0 ==> m * d <= m * -1;
  }

  // ---------------------------------------------------------------- ids

  /** The id of a timestamp, node and sequence number, as the generator composes it. */
  function Compose(timestamp: int, dc: int, worker: int, sequence: int): int {
    Or(Or(Or(Shl(timestamp - EPOCH, TIMESTAMP_LEFT_SHIFT), Shl(dc, DATACENTER_ID_SHIFT)),
          Shl(worker, WORKER_ID_SHIFT)),
       sequence)
  }

  datatype Info = Info(timestamp: int, dc: int, worker: int, sequence: int)

  function Parse(id: int): Info {
    Info(Shr(id, TIMESTAMP_LEFT_SHIFT) + EPOCH,
         And(Shr(id, DATACENTER_ID_SHIFT), MAX_DATACENTER_ID),
         And(Shr(id, WORKER_ID_SHIFT), MAX_WORKER_ID),
         And(id, SEQUENCE_MASK))
  }

  /** The fields are within their widths. */
  predicate Fits(dc: int, worker: int, sequence: int) {
    0 <= dc <= MAX_DATACENTER_ID && 0 <= worker <= MAX_WORKER_ID && 0 <= sequence <= SEQUENCE_MASK
  }

  lemma Widths()
    ensures Pow2(5) == 32 && Pow2(12) == 4096 && Pow2(17) == 131072 && Pow2(22) == 4194304
  {
    assert Pow2(4) == 16;
    assert Pow2(8) == 256;
    assert Pow2(12) == 4096;
    assert Pow2(16) == 65536;
    assert Pow2(20) == 1048576;
  }

  /** The bitwise composition is a mixed radix number, whatever the sign of the timestamp. */
  lemma ComposeIsSum(timestamp: int, dc: int, worker: int, sequence: int)
    requires Fits(dc, worker, sequence)
    ensures Compose(timestamp, dc, worker, sequence) ==
            (timestamp - EPOCH) * 4194304 + dc * 131072 + worker * 4096 + sequence
  {
    Widths();
    var t := timestamp - EPOCH;
    OrAdds(t, dc * 131072, 22);
    OrAdds(t * 32 + dc, worker * 4096, 17);
    OrAdds((t * 32 + dc) * 32 + worker, sequence, 12);
  }

  /** Parsing an id gives back what it was composed of. */
  lemma ParseUndoesCompose(timestamp: int, dc: int, worker: int, sequence: int)
    requires Fits(dc, worker, sequence)
    ensures Parse(Compose(timestamp, dc, worker, sequence)) == Info(timestamp, dc, worker, sequence)
  {
    ComposeIsSum(timestamp, dc, worker, sequence);
    Widths();
    var id := Compose(timestamp, dc, worker, sequence);
    hide Compose, And, Or, Pow2;
    var t := timestamp - EPOCH;
    RemainderUnique(id, 4194304, t, dc * 131072 + worker * 4096 + sequence);
    RemainderUnique(id, 131072, t * 32 + dc, worker * 4096 + sequence);
    RemainderUnique(id, 4096, (t * 32 + dc) * 32 + worker, sequence);
    RemainderUnique(t * 32 + dc, 32, t, dc);
    RemainderUnique((t * 32 + dc) * 32 + worker, 32, t * 32 + dc, worker);
    MaskIsRemainder(id / 131072, 5);
    MaskIsRemainder(id / 4096, 5);
    MaskIsRemainder(id, 12);
  }

  /** An id is a non-negative 63-bit number exactly when the milliseconds since the epoch fit 41 bits. */
  lemma FitsSixtyThreeBits(timestamp: int, dc: int, worker: int, sequence: int)
    requires Fits(dc, worker, sequence)
    ensures 0 <= Compose(timestamp, dc, worker, sequence) < 0x8000_0000_0000_0000 <==>
            0 <= timestamp - EPOCH < 0x200_0000_0000
  {
    ComposeIsSum(timestamp, dc, worker, sequence);
  }

  /** On one node, ids are ordered by timestamp, then by sequence number. */
  lemma ComposeMonotone(t: int, s: int, t': int, s': int, dc: int, worker: int)
    requires Fits(dc, worker, s) && Fits(dc, worker, s')
    ensures Compose(t, dc, worker, s) < Compose(t', dc, worker, s') <==> t < t' || (t == t' && s < s')
  {
    ComposeIsSum(t, dc, worker, s);
    ComposeIsSum(t', dc, worker, s');
  }

  // ---------------------------------------------------------------- an id is its parts

  lemma Layers(a: int)
    ensures a / 131072 == a / 4096 / 32 && a / 4194304 == a / 131072 / 32
  {
    var q := a / 4096;
    RemainderUnique(a, 131072, q / 32, 4096 * (q % 32) + a % 4096);
    var q' := a / 131072;
    RemainderUnique(a, 4194304, q' / 32, 131072 * (q' % 32) + a % 131072);
  }

  lemma PartsDetermine(a: int, b: int)
    requires a / 4194304 == b / 4194304 && a / 131072 % 32 == b / 131072 % 32
    requires a / 4096 % 32 == b / 4096 % 32 && a % 4096 == b % 4096
    ensures a == b
  {
    Layers(a);
    Layers(b);
    assert a / 131072 == b / 131072;
    assert a / 4096 == b / 4096;
  }

  lemma ParseParts(id: int)
    ensures Parse(id) == Info(id / 4194304 + EPOCH, id / 131072 % 32, id / 4096 % 32, id % 4096)
  {
    Widths();
    MaskIsRemainder(id, 12);
    MaskIsRemainder(Shr(id, 12), 5);
    MaskIsRemainder(Shr(id, 17), 5);
    hide And, Pow2;
  }

  lemma ParseInjective(id: int, id': int)
    requires Parse(id) == Parse(id')
    ensures id == id'
  {
    hide Parse;
    ParseParts(id);
    ParseParts(id');
    PartsDetermine(id, id');
  }
}
