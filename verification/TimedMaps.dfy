/** Redis values with an expiry.  A key whose deadline has passed reads as absent. */
module TimedMaps {
  import opened Wrappers

  datatype Timed<+T> = Timed(value: T, expires: int)

  /** The key exists and its deadline lies ahead. */
  predicate Live<K, V>(m: map<K, Timed<V>>, k: K, now: int) {
    k in m && now < m[k].expires
  }

  /** GET. */
  function Get<K, V>(m: map<K, Timed<V>>, k: K, now: int): Option<V> {
    if Live(m, k, now) then Some(m[k].value) else None
  }

  /** SMEMBERS: a missing or expired set is empty. */
  function Members<K, V>(m: map<K, Timed<set<V>>>, k: K, now: int): set<V> {
    if Live(m, k, now) then m[k].value else {}
  }

  /** SADD followed by EXPIRE: an expired set starts afresh. */
  function AddMembers<K, V(==)>(m: map<K, Timed<set<V>>>, k: K, now: int, xs: set<V>, expires: int)
    : map<K, Timed<set<V>>>
  {
    m[k := Timed(Members(m, k, now) + xs, expires)]
  }

  /** SREM: the deadline stays, and a set that becomes empty disappears. */
  function RemoveMembers<K(==), V(==)>(m: map<K, Timed<set<V>>>, k: K, now: int, xs: set<V>): map<K, Timed<set<V>>> {
    if !Live(m, k, now) then m
    else if m[k].value <= xs then m - {k}
    else m[k := Timed(m[k].value - xs, m[k].expires)]
  }

  /** EXPIRE: no effect on a missing key. */
  function Expire<K(==), V>(m: map<K, Timed<V>>, k: K, now: int, expires: int): map<K, Timed<V>> {
    if Live(m, k, now) then m[k := Timed(m[k].value, expires)] else m
  }

  lemma RemovedMembers<K, V>(m: map<K, Timed<set<V>>>, k: K, now: int, xs: set<V>, j: K)
    ensures var m' := RemoveMembers(m, k, now, xs);
      && Members(m', j, now) == Members(m, j, now) - (if j == k then xs else {})
      && (j in m' ==> j in m && m'[j].expires == m[j].expires)
      && (Live(m, j, now) ==> (j in m' <==> Members(m', j, now) != {} || (j != k && m[j].value == {})))
  {
    if Live(m, k, now) && !(m[k].value <= xs) {
      var x :| x in m[k].value && x !in xs;
      assert x in m[k].value - xs;
    }
  }
}
