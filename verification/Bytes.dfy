/** Byte strings and zero padding. */
module Bytes {
  type Byte = bv8

  function Zeros(n: nat): (z: seq<Byte>)
    ensures |z| == n && forall i :: 0 <= i < n ==> z[i] == 0
  {
    seq(n, _ => 0)
  }

  lemma ZerosConcat(a: nat, b: nat)
    ensures Zeros(a) + Zeros(b) == Zeros(a + b)
  {
  }

  /** `data` with zeros up to `to` bytes. */
  function PadTo(data: seq<Byte>, to: nat): (p: seq<Byte>)
    ensures |p| == if |data| < to then to else |data|
  {
    data + Zeros(if |data| < to then to - |data| else 0)
  }

  /** Fixed-size buffer used to feed padding. */
  const ZERO_PAD_CHUNK := 8192
}
