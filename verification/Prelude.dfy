/** Small types shared by the whole project. */
module Prelude {

  datatype Option<+T> = None | Some(value: T)

  datatype Result<+T, +E> = Ok(value: T) | Err(error: E)

  type byte = b: int | 0 <= b < 256

  const U64_SIZE: int := 0x1_0000_0000_0000_0000

  /** An unsigned 64-bit integer. */
  type u64 = x: int | 0 <= x < U64_SIZE

  /** Unsigned 64-bit successor with wrap-around, as a release build computes it. */
  function WrappingSucc(x: u64): u64 {
    (x + 1) % U64_SIZE
  }

  lemma Associate<T>(x: seq<T>, y: seq<T>, z: seq<T>)
    ensures x + (y + z) == x + y + z
  {
  }
}
