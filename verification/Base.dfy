/** Types shared by every component, and what an entry costs. */
module Base {
  type byte = x: int | 0 <= x < 256
  type Bytes = seq<byte>
  type Key = Bytes

  datatype Option<+T> = None | Some(value: T)

  /** A cached item as the index and the queues see it: `id` is the identity of the
      allocation, and an entry never changes once built. */
  datatype Entry = Entry(id: nat, key: Key, value: Bytes, hash: nat)

  const ENTRY_OVERHEAD := 128

  /** What an entry is charged for: its bytes and a fixed overhead. */
  function CostOf(k: Key, v: Bytes): nat {
    |k| + |v| + ENTRY_OVERHEAD
  }

  predicate FitsIn(e: (Key, Bytes), per: nat) {
    CostOf(e.0, e.1) <= per
  }
}
