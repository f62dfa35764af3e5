/** The optional-value datatype shared by the menu model. */
module Wrappers {

  /** `None` stands for a missing value. */
  datatype Option<+T> = None | Some(value: T)

  /** Looks up a key of a map, giving `None` when the key is missing. */
  function Get<K, V>(m: map<K, V>, k: K): (r: Option<V>)
    ensures r.Some? <==> k in m
    ensures r.Some? ==> r.value == m[k]
  {
    if k in m then Some(m[k]) else None
  }
}
