/** Streaming MD5: bytes arrive in any pieces, one chain at a time or two together. */
module Md5Stream {
  import opened Bytes
  import opened Md5Spec

  /** Bytes handed to the block function at a time: 64 << 20. */
  const CHUNK := 0x400_0000

  /** The state holds the whole blocks of `msg` and `rest` the bytes after them. */
  ghost predicate Absorbs<S(!new), D>(H: Hash<S, D>, s: S, rest: seq<Byte>, msg: seq<Byte>) {
    && |rest| == |msg| % 64 && rest == msg[|msg| - |rest|..]
    && s == Folded(H, H.init, msg, |msg| / 64)
  }

  ghost predicate Follows<S(!new), D>(H: Hash<S, D>, s: S, rest: seq<Byte>, length: nat, msg: seq<Byte>) {
    Absorbs(H, s, rest, msg) && length == |msg| % WRAP
  }

  lemma AbsorbShort<S(!new), D>(H: Hash<S, D>, s: S, rest: seq<Byte>, msg: seq<Byte>, d: seq<Byte>)
    requires Absorbs(H, s, rest, msg) && |rest| + |d| < 64
    ensures Absorbs(H, s, rest + d, msg + d)
  {
    FoldedPrefix(H, H.init, msg, msg + d, |msg| / 64);
  }

  /** Bytes that complete the buffered block and some more whole ones. */
  lemma AbsorbWhole<S(!new), D>(H: Hash<S, D>, s: S, rest: seq<Byte>, msg: seq<Byte>, d: seq<Byte>, n: nat)
    requires Absorbs(H, s, rest, msg) && |rest| + |d| == 64 * n
    ensures Absorbs(H, Folded(H, s, rest + d, n), [], msg + d)
  {
    var m, k := msg + d, |msg| / 64;
    FoldedPrefix(H, H.init, msg, m, k);
    FoldedOn(H, H.init, m, k, n);
    assert m[64 * k..] == rest + d;
  }

  lemma AbsorbAll<S(!new), D>(H: Hash<S, D>, s: S, msg: seq<Byte>, data: seq<Byte>, blocks: seq<Byte>, rest: seq<Byte>,
                              n: nat)
    requires Absorbs(H, s, [], msg) && |blocks| == 64 * n && |rest| < 64 && data == blocks + rest
    ensures Absorbs(H, Folded(H, s, blocks, n), rest, msg + data)
  {
    assert [] + blocks == blocks && [] + rest == rest && msg + blocks + rest == msg + data;
    AbsorbWhole(H, s, [], msg, blocks, n);
    AbsorbShort(H, Folded(H, s, blocks, n), [], msg + blocks, rest);
  }

  lemma AbsorbPadding<S(!new), D>(H: Hash<S, D>, s: S, rest: seq<Byte>, msg: seq<Byte>, n: nat)
    requires Absorbs(H, s, rest, msg) && |rest| + |Padding(|msg|)| == 64 * n
    ensures H.output(Folded(H, s, rest + Padding(|msg|), n)) == Digest(H, msg)
  {
    AbsorbWhole(H, s, rest, msg, Padding(|msg|), n);
  }

  method FoldChunk<S(!new), D>(H: Hash<S, D>, s: S, chunk: seq<Byte>, n: nat) returns (out: S)
    requires |chunk| == 64 * n
    ensures out == Folded(H, s, chunk, n)
  {
    out := s;
    for i := 0 to n
      invariant out == Folded(H, s, chunk, i)
    {
      out := H.compress(out, BlockAt(chunk, i));
    }
  }

  lemma FoldedChunk<S(!new), D>(H: Hash<S, D>, s: S, data: seq<Byte>, a: nat, n: nat)
    requires 64 * (a + n) <= |data|
    ensures Folded(H, s, data, a + n) == Folded(H, Folded(H, s, data, a), data[64 * a..64 * (a + n)], n)
  {
    FoldedOn(H, s, data, a, n);
    assert data[64 * a..][..64 * n] == data[64 * a..64 * (a + n)];
    FoldedPrefix(H, Folded(H, s, data, a), data[64 * a..], data[64 * a..64 * (a + n)], n);
  }

  /** blocks: fold whole blocks into the state, a chunk at a time. */
  method FoldAll<S(!new), D>(H: Hash<S, D>, s: S, data: seq<Byte>, ghost n: nat) returns (out: S)
    requires |data| == 64 * n
    ensures out == Folded(H, s, data, n)
  {
    out := s;
    var at := 0;
    while 64 * at < |data|
      invariant 0 <= 64 * at <= |data| && out == Folded(H, s, data, at)
    {
      var k := if 64 * at + CHUNK < |data| then CHUNK / 64 else |data| / 64 - at;
      FoldedChunk(H, s, data, at, k);
      out := FoldChunk(H, out, data[64 * at..64 * (at + k)], k);
      at := at + k;
    }
  }

  /** compress_pair: two chains over equally many blocks, block by block. */
  method FoldPair<S(!new), D>(H: Hash<S, D>, K: Hash<S, D>, s: S, t: S, x: seq<Byte>, y: seq<Byte>, n: nat)
    returns (s': S, t': S)
    requires |x| == |y| == 64 * n
    ensures s' == Folded(H, s, x, n) && t' == Folded(K, t, y, n)
  {
    s', t' := s, t;
    for i := 0 to n
      invariant s' == Folded(H, s, x, i) && t' == Folded(K, t, y, i)
    {
      s', t' := H.compress(s', BlockAt(x, i)), K.compress(t', BlockAt(y, i));
    }
  }

  method CopyInto(buffer: array<Byte>, at: nat, bytes: seq<Byte>)
    requires at + |bytes| <= buffer.Length
    modifies buffer
    ensures buffer[..at + |bytes|] == old(buffer[..at]) + bytes
  {
    forall i | 0 <= i < |bytes| { buffer[at + i] := bytes[i]; }
  }

  class Md5<S(!new), D(!new)> {
    const H: Hash<S, D>
    const buffer: array<Byte>
    var state: S
    var buffered: nat
    var length: nat
    /** Every byte fed so far. */
    ghost var fed: seq<Byte>

    ghost predicate Valid()
      reads this, buffer
    {
      buffer.Length == 64 && buffered < 64 && Follows(H, state, buffer[..buffered], length, fed)
    }

    constructor (hash: Hash<S, D>)
      ensures Valid() && fed == [] && H == hash && fresh(this) && fresh(buffer)
    {
      H := hash;
      buffer := new Byte[64](_ => 0);
      state, buffered, length, fed := hash.init, 0, 0, [];
    }

    /** Top up a partly filled buffer; when it fills, fold it. */
    method Fill(data: seq<Byte>, ghost seen: seq<Byte>) returns (take: nat)
      requires buffer.Length == 64 && 0 < buffered < 64 && Absorbs(H, state, buffer[..buffered], seen)
      modifies this`state, this`buffered, buffer
      ensures buffered < 64 && take <= |data|
      ensures buffered > 0 ==> take == |data|
      ensures Absorbs(H, state, buffer[..buffered], seen + data[..take])
    {
      take := if 64 - buffered < |data| then 64 - buffered else |data|;
      ghost var had := buffer[..buffered];
      CopyInto(buffer, buffered, data[..take]);
      buffered := buffered + take;
      if buffered < 64 {
        AbsorbShort(H, state, had, seen, data[..take]);
      } else {
        assert buffer[..] == had + data[..take];
        AbsorbWhole(H, state, had, seen, data[..take], 1);
        state := FoldAll(H, state, buffer[..], 1);
        buffered := 0;
      }
    }

    /** With an empty buffer: fold the whole blocks, keep what is left over. */
    method TakeBlocks(data: seq<Byte>, ghost seen: seq<Byte>)
      requires buffer.Length == 64 && Absorbs(H, state, [], seen)
      modifies this`state, this`buffered, buffer
      ensures buffered < 64 && Absorbs(H, state, buffer[..buffered], seen + data)
    {
      var n := |data| / 64;
      var blocks, rest := data[..64 * n], data[64 * n..];
      AbsorbAll(H, state, seen, data, blocks, rest, n);
      state := FoldAll(H, state, blocks, n);
      CopyInto(buffer, 0, rest);
      buffered := |rest|;
      assert buffer[..buffered] == rest;
    }

    /** The byte count wraps at 64 bits. */
    method Count(data: seq<Byte>)
      requires length == |fed| % WRAP
      modifies this`length, this`fed
      ensures fed == old(fed) + data && length == |fed| % WRAP
    {
      Lengths(|fed|, |data|);
      length := (length + |data|) % WRAP;
      fed := fed + data;
    }

    method Absorb(data: seq<Byte>, ghost seen: seq<Byte>)
      requires buffer.Length == 64 && buffered < 64 && Absorbs(H, state, buffer[..buffered], seen)
      modifies this`state, this`buffered, buffer
      ensures buffered < 64 && Absorbs(H, state, buffer[..buffered], seen + data)
    {
      var take := 0;
      assert seen + data[..0] == seen;
      if buffered > 0 {
        take := Fill(data, seen);
        if buffered > 0 {
          assert data[..take] == data;
          return;
        }
      }
      assert buffer[..0] == [];
      TakeBlocks(data[take..], seen + data[..take]);
      Rejoin(seen, data, take);
    }

    /** However the bytes are cut up, the state is that of all of them in order. */
    method Update(data: seq<Byte>)
      requires Valid()
      modifies this, buffer
      ensures Valid() && fed == old(fed) + data
    {
      Count(data);
      Absorb(data, old(fed));
    }

    ghost predicate Apart(other: Md5<S, D>) {
      this != other && buffer != other.buffer
    }

    /** Fill for two chains buffered to the same depth. */
    method FillPair(other: Md5<S, D>, data: seq<Byte>, ghost seen: seq<Byte>, ghost seen': seq<Byte>)
      returns (take: nat)
      requires Apart(other) && buffer.Length == other.buffer.Length == 64 && 0 < buffered == other.buffered < 64
      requires Absorbs(H, state, buffer[..buffered], seen) &&
               Absorbs(other.H, other.state, other.buffer[..buffered], seen')
      modifies this`state, this`buffered, buffer, other`state, other`buffered, other.buffer
      ensures buffered == other.buffered < 64 && take <= |data|
      ensures buffered > 0 ==> take == |data|
      ensures Absorbs(H, state, buffer[..buffered], seen + data[..take])
      ensures Absorbs(other.H, other.state, other.buffer[..buffered], seen' + data[..take])
    {
      take := if 64 - buffered < |data| then 64 - buffered else |data|;
      ghost var had, had' := buffer[..buffered], other.buffer[..buffered];
      CopyInto(buffer, buffered, data[..take]);
      CopyInto(other.buffer, buffered, data[..take]);
      buffered, other.buffered := buffered + take, buffered + take;
      if buffered < 64 {
        AbsorbShort(H, state, had, seen, data[..take]);
        AbsorbShort(other.H, other.state, had', seen', data[..take]);
      } else {
        assert buffer[..] == had + data[..take] && other.buffer[..] == had' + data[..take];
        AbsorbWhole(H, state, had, seen, data[..take], 1);
        AbsorbWhole(other.H, other.state, had', seen', data[..take], 1);
        state, other.state := FoldPair(H, other.H, state, other.state, buffer[..], other.buffer[..], 1);
        buffered, other.buffered := 0, 0;
      }
    }

    /** TakeBlocks for two chains with empty buffers. */
    method TakePair(other: Md5<S, D>, data: seq<Byte>, ghost seen: seq<Byte>, ghost seen': seq<Byte>)
      requires Apart(other) && buffer.Length == other.buffer.Length == 64
      requires Absorbs(H, state, [], seen) && Absorbs(other.H, other.state, [], seen')
      modifies this`state, this`buffered, buffer, other`state, other`buffered, other.buffer
      ensures buffered == other.buffered < 64
      ensures Absorbs(H, state, buffer[..buffered], seen + data)
      ensures Absorbs(other.H, other.state, other.buffer[..buffered], seen' + data)
    {
      var n := |data| / 64;
      var blocks, rest := data[..64 * n], data[64 * n..];
      AbsorbAll(H, state, seen, data, blocks, rest, n);
      AbsorbAll(other.H, other.state, seen', data, blocks, rest, n);
      state, other.state := FoldPair(H, other.H, state, other.state, blocks, blocks, n);
      CopyInto(buffer, 0, rest);
      CopyInto(other.buffer, 0, rest);
      buffered, other.buffered := |rest|, |rest|;
      assert buffer[..buffered] == rest && other.buffer[..buffered] == rest;
    }

    method AbsorbPair(other: Md5<S, D>, data: seq<Byte>, ghost seen: seq<Byte>, ghost seen': seq<Byte>)
      requires Apart(other) && buffer.Length == other.buffer.Length == 64 && buffered == other.buffered < 64
      requires Absorbs(H, state, buffer[..buffered], seen) &&
               Absorbs(other.H, other.state, other.buffer[..buffered], seen')
      modifies this`state, this`buffered, buffer, other`state, other`buffered, other.buffer
      ensures buffered == other.buffered < 64
      ensures Absorbs(H, state, buffer[..buffered], seen + data)
      ensures Absorbs(other.H, other.state, other.buffer[..buffered], seen' + data)
    {
      var take := 0;
      assert seen + data[..0] == seen && seen' + data[..0] == seen';
      if buffered > 0 {
        take := FillPair(other, data, seen, seen');
        if buffered > 0 {
          assert data[..take] == data;
          return;
        }
      }
      assert buffer[..0] == [] && other.buffer[..0] == [];
      TakePair(other, data[take..], seen + data[..take], seen' + data[..take]);
      Rejoin(seen, data, take);
      Rejoin(seen', data, take);
    }

    method UpdateTogether(other: Md5<S, D>, data: seq<Byte>)
      requires Apart(other) && Valid() && other.Valid() && buffered == other.buffered
      modifies this, buffer, other, other.buffer
      ensures Valid() && fed == old(fed) + data
      ensures other.Valid() && other.fed == old(other.fed) + data
    {
      Count(data);
      other.Count(data);
      AbsorbPair(other, data, old(fed), old(other.fed));
    }

    /** Feeding two chains together is feeding each alone. */
    method UpdatePair(other: Md5<S, D>, data: seq<Byte>)
      requires Apart(other) && Valid() && other.Valid()
      modifies this, buffer, other, other.buffer
      ensures Valid() && fed == old(fed) + data
      ensures other.Valid() && other.fed == old(other.fed) + data
    {
      if buffered != other.buffered {
        Update(data);
        other.Update(data);
      } else {
        UpdateTogether(other, data);
      }
    }

    /** The RFC digest of every byte fed, the bit length taken modulo 2^64. */
    method Finalize() returns (digest: D)
      requires Valid()
      ensures digest == Digest(H, fed)
    {
      var bits := 8 * length % WRAP;
      var len := if buffered < 56 then 64 else 128;
      var tail := buffer[..buffered] + [0x80] + Zeros(len - 9 - buffered) + LittleEndian(bits, 8);
      TailIs(buffer[..buffered], |fed|, len);
      BitLength(|fed|);
      AbsorbPadding(H, state, buffer[..buffered], fed, len / 64);
      var s := FoldAll(H, state, tail, len / 64);
      digest := H.output(s);
    }
  }

  lemma Rejoin(seen: seq<Byte>, data: seq<Byte>, take: nat)
    requires take <= |data|
    ensures seen + data[..take] + data[take..] == seen + data
  {
  }

  lemma Lengths(a: nat, b: nat)
    ensures (a % WRAP + b) % WRAP == (a + b) % WRAP
  {
  }

  lemma BitLength(a: nat)
    ensures 8 * (a % WRAP) % WRAP == 8 * a % WRAP
  {
    var q, r := a / WRAP, a % WRAP;
    assert 8 * a == 8 * r + (8 * q) * WRAP;
    Turns(8 * r, 8 * q);
  }

  lemma {:induction false} Turns(x: nat, k: nat)
    ensures (x + k * WRAP) % WRAP == x % WRAP
    decreases k
  {
    if k > 0 { Turns(x + WRAP, k - 1); }
  }

  lemma ZeroRun(n: nat)
    ensures (55 - n) % 64 == if n % 64 < 56 then 55 - n % 64 else 119 - n % 64
  {
  }

  /** The last one or two blocks are what was buffered and the padding. */
  lemma TailIs(rest: seq<Byte>, n: nat, len: nat)
    requires |rest| == n % 64 && len == if |rest| < 56 then 64 else 128
    ensures rest + [0x80] + Zeros(len - 9 - |rest|) + LittleEndian(8 * n % WRAP, 8) == rest + Padding(n)
    ensures |rest| + |Padding(n)| == len
  {
    ZeroRun(n);
  }
}
