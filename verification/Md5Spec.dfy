/** MD5 as RFC 1321 defines it, over any block function: pad the message to
    whole blocks and fold them into the state. */
module Md5Spec {
  import opened Bytes

  const BLOCK := 64

  /** 2^64: message lengths are stored modulo this. */
  const WRAP: nat := 0x1_0000_0000_0000_0000

  datatype Hash<!S, !D> = Hash(init: S, compress: (S, seq<Byte>) -> S, output: S -> D)

  /** The k low-order bytes of n, least significant first. */
  function LittleEndian(n: nat, k: nat): (s: seq<Byte>)
    ensures |s| == k
  {
    if k == 0 then [] else [(n % 256) as Byte] + LittleEndian(n / 256, k - 1)
  }

  /** Sections 3.1 and 3.2: a one bit, zeros up to 56 bytes of a block, then the low 64 bits of the bit length. */
  function Padding(len: nat): (p: seq<Byte>)
    ensures |p| == 9 + (55 - len) % 64 && (len + |p|) % 64 == 0
  {
    WholeBlocks(len);
    [0x80] + Zeros((55 - len) % 64) + LittleEndian(8 * len % WRAP, 8)
  }

  lemma WholeBlocks(len: nat)
    ensures (len + 9 + (55 - len) % 64) % 64 == 0
  {
  }

  function Padded(msg: seq<Byte>): (p: seq<Byte>)
    ensures |p| % 64 == 0 && |p| == |msg| + 9 + (55 - |msg|) % 64
  {
    msg + Padding(|msg|)
  }

  function BlockAt(msg: seq<Byte>, i: nat): (b: seq<Byte>)
    requires 64 * i + 64 <= |msg|
    ensures |b| == 64
  {
    msg[64 * i..64 * i + 64]
  }

  /** The state after the first n blocks. */
  function Folded<S, D>(H: Hash<S, D>, s: S, msg: seq<Byte>, n: nat): S
    requires 64 * n <= |msg|
  {
    if n == 0 then s else H.compress(Folded(H, s, msg, n - 1), BlockAt(msg, n - 1))
  }

  function Digest<S, D>(H: Hash<S, D>, msg: seq<Byte>): D {
    H.output(Folded(H, H.init, Padded(msg), |Padded(msg)| / 64))
  }

  // Folding.

  lemma {:induction false} FoldedPrefix<S, D>(H: Hash<S, D>, s: S, a: seq<Byte>, b: seq<Byte>, n: nat)
    requires 64 * n <= |a| && 64 * n <= |b| && a[..64 * n] == b[..64 * n]
    ensures Folded(H, s, a, n) == Folded(H, s, b, n)
  {
    if n > 0 {
      assert a[..64 * (n - 1)] == a[..64 * n][..64 * (n - 1)];
      assert b[..64 * (n - 1)] == b[..64 * n][..64 * (n - 1)];
      FoldedPrefix(H, s, a, b, n - 1);
      assert BlockAt(a, n - 1) == a[..64 * n][64 * (n - 1)..];
      assert BlockAt(b, n - 1) == b[..64 * n][64 * (n - 1)..];
    }
  }

  /** Folding on from block n is folding the rest from the state there. */
  lemma {:induction false} FoldedOn<S, D>(H: Hash<S, D>, s: S, msg: seq<Byte>, n: nat, k: nat)
    requires 64 * (n + k) <= |msg|
    ensures Folded(H, s, msg, n + k) == Folded(H, Folded(H, s, msg, n), msg[64 * n..], k)
  {
    if k > 0 {
      FoldedOn(H, s, msg, n, k - 1);
      assert BlockAt(msg, n + k - 1) == BlockAt(msg[64 * n..], k - 1);
    }
  }

  ghost predicate SameBlocks<S(!new), D>(H: Hash<S, D>, K: Hash<S, D>) {
    forall s: S, b: seq<Byte> :: H.compress(s, b) == K.compress(s, b)
  }

  lemma {:induction false} FoldedSame<S(!new), D>(H: Hash<S, D>, K: Hash<S, D>, s: S, msg: seq<Byte>, n: nat)
    requires 64 * n <= |msg| && SameBlocks(H, K)
    ensures Folded(H, s, msg, n) == Folded(K, s, msg, n)
  {
    if n > 0 { FoldedSame(H, K, s, msg, n - 1); }
  }
}
