/** Types shared by every module: keys, instants and the usual wrappers. */
module Prelude {

  const TWO_TO_THE_64: int := 0x1_0000_0000_0000_0000

  /** Stands for `uint64`, the cache's only key type; unbounded, since no code computes with keys. */
  type Key = nat

  /** Instants are exact abstract values; only their order and differences matter. */
  type Time = int

  datatype Option<+T> = None | Some(value: T)

  datatype Result<+T, +E> = Ok(value: T) | Err(error: E)

  function Restrict<V>(m: map<Key, V>, keys: set<Key>): (r: map<Key, V>)
    ensures r.Keys == m.Keys * keys
    ensures forall k :: k in r ==> r[k] == m[k]
  {
    map k | k in m && k in keys :: m[k]
  }

  /** Subsets are no larger, and equally large subsets are equal. */
  lemma SubsetSize<T>(a: set<T>, b: set<T>)
    requires a <= b
    ensures |a| <= |b|
    ensures |a| == |b| ==> a == b
  {
    assert b == a + (b - a);
    assert |b| == |a| + |b - a|;
  }
}
