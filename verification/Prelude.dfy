/** Types shared by every component. */
module Prelude {

  datatype Option<+T> = None | Some(value: T)

  /** A checksum is only ever compared, hashed and used as a dictionary key. */
  datatype Checksum = Checksum(hex: string)

  /** Dictionary lookup with a default, the `d.get(k, default)` of the source. */
  function GetOr<K, V>(m: map<K, V>, k: K, default: V): V {
    if k in m then m[k] else default
  }

  /** A tally with one count of `k` gone. */
  function Fewer<K>(m: map<K, nat>, k: K): map<K, nat> {
    if k !in m then m else if m[k] <= 1 then m - {k} else m[k := m[k] - 1]
  }
}
