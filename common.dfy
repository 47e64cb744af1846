/** Shared vocabulary of the driver model: bytes, optional values and results. */
module Common {

  /** A Rust `u8`: bit operations are those of an 8-bit vector. */
  type byte = bv8

  datatype Option<+T> = None | Some(value: T)

  /** The `Result<T, E>` of the Rust driver. */
  datatype Result<+T, +E> = Ok(value: T) | Err(error: E)

  /** Bit `k` of `b` is one. */
  predicate BitSet(b: byte, k: nat)
    requires k < 8
  {
    (b >> k) & 1 == 1
  }

  /** A value below 256 survives the trip through a byte. */
  lemma ByteRoundTrip(x: int)
    requires 0 <= x < 256
    ensures (x as byte) as int == x
  {
    if x < 128 {
      if x < 64 {} else {}
    } else {
      if x < 192 {} else {}
    }
  }

  /** A byte survives the trip through its value. */
  lemma ValueRoundTrip(b: byte)
    ensures (b as int) as byte == b
  {
  }

  /** The order of bytes is the order of their values. */
  lemma ByteOrder(a: byte, b: byte)
    requires a <= b
    ensures a as int <= b as int
  {
  }

  /** `n` zero bytes: the contents of a freshly zeroed buffer. */
  function Zeros(n: nat): (z: seq<byte>)
    ensures |z| == n
    ensures forall i :: 0 <= i < n ==> z[i] == 0
  {
    seq(n, _ => 0)
  }
}
