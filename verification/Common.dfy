/** Types shared by every module: options, byte strings, the clock and currency codes. */
module Common {
  datatype Option<+T> = None | Some(value: T)

  type byte = n: int | 0 <= n < 256

  /** A Go string or byte slice. */
  type Bytes = seq<byte>

  /** Microseconds, the resolution of a PostgreSQL timestamptz. */
  type Time = int

  const SECOND: Time := 1_000_000
  const MINUTE: Time := 60 * SECOND

  /** The tables' CHECK on currency codes: ^[A-Z]{3}$ */
  predicate CurrencyCheck(currency: string) {
    |currency| == 3 && forall c :: c in currency ==> 'A' <= c <= 'Z'
  }

  function Lookup<K, V>(m: map<K, V>, k: K): Option<V> {
    if k in m then Some(m[k]) else None
  }
}
