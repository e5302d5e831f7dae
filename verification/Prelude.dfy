/** The C types and casts the library relies on. */
module Prelude {

  datatype Option<+T> = None | Some(value: T)

  newtype byte = x: int | 0 <= x < 256

  type Bytes = seq<byte>

  const TWO_31: int := 0x8000_0000
  const TWO_32: int := 0x1_0000_0000
  const TWO_64: int := 0x1_0000_0000_0000_0000

  /** A reading of `lws_now_secs`: an `unsigned long` of 64 bits. */
  type Secs = t: int | 0 <= t < TWO_64

  /** `(unsigned int) n` for a `long long` n. */
  function ToUint32(n: int): nat {
    n % TWO_32
  }

  /** `(int) n` for a `long long` n, two's complement. */
  function ToInt32(n: int): int {
    var u := n % TWO_32;
    if u < TWO_31 then u else u - TWO_32
  }

  /** `a - b` on `unsigned long`: wraps around when the clock went back. */
  function SubUlong(a: Secs, b: Secs): Secs {
    (a - b) % TWO_64
  }

  /** Some pieces of text, one after the other. */
  function Concat(parts: seq<Bytes>): Bytes {
    if parts == [] then [] else parts[0] + Concat(parts[1..])
  }
}
