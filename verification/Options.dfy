/** A value that may be absent. */
module Options {
  datatype Option<+T> = None | Some(value: T) {
    function GetOr(other: T): T { if Some? then value else other }
  }

  /** A dictionary's `get`. */
  function Get<K, V>(m: map<K, V>, k: K): Option<V> { if k in m then Some(m[k]) else None }
}
