/** Small shared definitions. */
module Prelude {

  datatype Option<+T> = None | Some(value: T)

  /** Rust's `i64`. */
  type I64 = x: int | -0x8000_0000_0000_0000 <= x < 0x8000_0000_0000_0000

  predicate InI64(x: int) {
    -0x8000_0000_0000_0000 <= x < 0x8000_0000_0000_0000
  }

  type Byte = x: int | 0 <= x < 256

  function Max(a: nat, b: nat): nat {
    if a < b then b else a
  }

  /** `Instant::elapsed`, which saturates. */
  function Elapsed(now: nat, since: nat): nat {
    if since <= now then now - since else 0
  }
}
