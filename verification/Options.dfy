/** The optional value, and looking a key up in a map. */
module Options {
  datatype Option<+T> = None | Some(value: T)

  function Lookup<K, V>(m: map<K, V>, k: K, otherwise: V): V {
    if k in m then m[k] else otherwise
  }
}
