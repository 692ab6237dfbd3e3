/** The client's batched commands compute what one command over all keys would. */
module RedisBatches {
  import opened Wrappers
  import opened Collections
  import opened TimedMaps

  datatype Batched<+T> = Values(value: T) | BadBatchSize

  function Min(a: int, b: int): int { if a < b then a else b }

  /** One command's worth of keys, from position `i`. */
  function Chunk<K>(keys: seq<K>, i: nat, batchSize: int): (chunk: seq<K>)
    requires i <= |keys| && 0 < batchSize
  {
    keys[i..Min(i + batchSize, |keys|)]
  }

  function GetAll<K, V>(m: map<K, Timed<V>>, now: int, keys: seq<K>): seq<Option<V>> {
    seq(|keys|, i requires 0 <= i < |keys| => Get(m, keys[i], now))
  }

  function MembersAll<K, V>(m: map<K, Timed<set<V>>>, now: int, keys: seq<K>): seq<set<V>> {
    seq(|keys|, i requires 0 <= i < |keys| => Members(m, keys[i], now))
  }

  /** MGET chunk by chunk. */
  method MGetBatched<K(==), V>(m: map<K, Timed<V>>, now: int, keys: seq<K>, batchSize: int)
    returns (r: Batched<seq<Option<V>>>)
    ensures r == if batchSize <= 0 then BadBatchSize else Values(GetAll(m, now, keys))
  {
    if batchSize <= 0 { return BadBatchSize; }
    var values: seq<Option<V>> := [];
    var index := 0;
    while index < |keys|
      invariant 0 <= index
      invariant values == GetAll(m, now, keys[..Min(index, |keys|)])
    {
      values := values + GetAll(m, now, Chunk(keys, index, batchSize));
      index := index + batchSize;
    }
    assert keys[..Min(index, |keys|)] == keys;
    return Values(values);
  }

  /** SMEMBERS of many sets, one pipeline per chunk. */
  method SMembersMany<K(==), V>(m: map<K, Timed<set<V>>>, now: int, keys: seq<K>, batchSize: int)
    returns (r: Batched<seq<set<V>>>)
    ensures r == if batchSize <= 0 then BadBatchSize else Values(MembersAll(m, now, keys))
  {
    if batchSize <= 0 { return BadBatchSize; }
    var members: seq<set<V>> := [];
    var index := 0;
    while index < |keys|
      invariant 0 <= index
      invariant members == MembersAll(m, now, keys[..Min(index, |keys|)])
    {
      members := members + MembersAll(m, now, Chunk(keys, index, batchSize));
      index := index + batchSize;
    }
    assert keys[..Min(index, |keys|)] == keys;
    return Values(members);
  }

  lemma ChunkElements<V(!new)>(xs: seq<V>, i: nat, batchSize: int)
    requires i <= |xs| && 0 < batchSize
    ensures Elements(xs[..Min(i + batchSize, |xs|)]) == Elements(xs[..i]) + Elements(Chunk(xs, i, batchSize))
  {
    assert xs[..Min(i + batchSize, |xs|)] == xs[..i] + Chunk(xs, i, batchSize);
  }

  /** Removing two groups one after the other removes their union. */
  lemma RemoveTwice<K, V>(m: map<K, Timed<set<V>>>, k: K, now: int, xs: set<V>, ys: set<V>)
    ensures RemoveMembers(RemoveMembers(m, k, now, xs), k, now, ys) == RemoveMembers(m, k, now, xs + ys)
  {
    if Live(m, k, now) && !(m[k].value <= xs) {
      assert m[k].value - xs - ys == m[k].value - (xs + ys);
      assert m[k].value - xs <= ys <==> m[k].value <= xs + ys;
      assert m[k := Timed(m[k].value - xs, m[k].expires)] - {k} == m - {k};
    } else if Live(m, k, now) {
      assert m[k].value <= xs + ys;
    }
  }

  /** SREM chunk by chunk. */
  method RemoveMembersBatched<K(==), V(==, !new)>(m: map<K, Timed<set<V>>>, k: K, now: int, ordered: seq<V>,
      batchSize: int)
    returns (m': map<K, Timed<set<V>>>)
    requires 0 < batchSize
    ensures m' == if ordered == [] then m else RemoveMembers(m, k, now, Elements(ordered))
  {
    m' := m;
    var index := 0;
    while index < |ordered|
      invariant 0 <= index
      invariant ordered == [] ==> index == 0
      invariant m' == if index == 0 then m else RemoveMembers(m, k, now, Elements(ordered[..Min(index, |ordered|)]))
    {
      var chunk := Chunk(ordered, index, batchSize);
      RemoveTwice(m, k, now, Elements(ordered[..index]), Elements(chunk));
      ChunkElements(ordered, index, batchSize);
      m' := RemoveMembers(m', k, now, Elements(chunk));
      index := index + batchSize;
    }
    assert index != 0 || ordered == [];
    assert ordered[..Min(index, |ordered|)] == ordered;
  }

  /** `list(s)`: the elements of a set, each once, in some order. */
  method Listed<V(==, !new)>(s: set<V>) returns (ordered: seq<V>)
    ensures Elements(ordered) == s && |ordered| == |s|
  {
    ordered := [];
    var rest := s;
    while rest != {}
      invariant Elements(ordered) + rest == s && Elements(ordered) !! rest
      invariant |ordered| + |rest| == |s|
      decreases |rest|
    {
      var x :| x in rest;
      ordered := ordered + [x];
      rest := rest - {x};
    }
  }
}
