/** A value that may be missing, and small functions used all over. */
module Options {
  datatype Option<+T> = None | Some(value: T)

  function Lookup<K, V>(m: map<K, V>, k: K): Option<V> {
    if k in m then Some(m[k]) else None
  }

  function Elements<T(==)>(s: seq<T>): set<T> { set x | x in s }

  function Max(a: int, b: int): int { if a > b then a else b }
}
