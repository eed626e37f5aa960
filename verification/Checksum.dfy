/** Streaming slice and file checksums: CRC-32 and MD5 of the same bytes. */
module Checksum {
  import opened Options
  import opened Bytes
  import opened Words
  import opened Crc
  import opened Md5Spec
  import opened Md5Block
  import opened Md5Stream

  type Chain = Md5<Regs, seq<Byte>>

  class FileHashState {
    const md5: Chain
    var bytesFed: nat

    ghost predicate Valid()
      reads this, md5, md5.buffer
    {
      md5.H == MD5 && md5.Valid() && bytesFed == |md5.fed|
    }

    constructor ()
      ensures Valid() && md5.fed == [] && fresh(this) && fresh(md5) && fresh(md5.buffer)
    {
      md5 := new Md5(MD5);
      bytesFed := 0;
    }

    method Update(data: seq<Byte>)
      requires Valid()
      modifies this, md5, md5.buffer
      ensures Valid() && md5.fed == old(md5.fed) + data
    {
      md5.Update(data);
      bytesFed := bytesFed + |data|;
    }

    method Finalize() returns (digest: seq<Byte>)
      requires Valid()
      ensures digest == Digest(MD5, md5.fed)
    {
      digest := md5.Finalize();
    }
  }

  class SliceChecksumState {
    const md5: Chain
    var crc: Word
    var bytesFed: nat

    ghost predicate Valid()
      reads this, md5, md5.buffer
    {
      md5.H == MD5 && md5.Valid() && bytesFed == |md5.fed| && crc == Feed(Ones(), md5.fed)
    }

    constructor ()
      ensures Valid() && md5.fed == [] && fresh(this) && fresh(md5) && fresh(md5.buffer)
    {
      md5 := new Md5(MD5);
      crc := Ones();
      bytesFed := 0;
    }

    method Update(data: seq<Byte>)
      requires Valid()
      modifies this, md5, md5.buffer
      ensures Valid() && md5.fed == old(md5.fed) + data
    {
      FeedConcat(Ones(), md5.fed, data);
      crc := Feed(crc, data);
      md5.Update(data);
      bytesFed := bytesFed + |data|;
    }

    /** The file's chain and the slice's see the same bytes. */
    method UpdateWithFileHash(file: FileHashState, data: seq<Byte>)
      requires Valid() && file.Valid() && md5.Apart(file.md5)
      modifies this, md5, md5.buffer, file, file.md5, file.md5.buffer
      ensures Valid() && md5.fed == old(md5.fed) + data
      ensures file.Valid() && file.md5.fed == old(file.md5.fed) + data
    {
      FeedConcat(Ones(), md5.fed, data);
      crc := Feed(crc, data);
      md5.UpdatePair(file.md5, data);
      bytesFed := bytesFed + |data|;
      file.bytesFed := file.bytesFed + |data|;
    }

    /** Feed n zero bytes, a chunk at a time. */
    method Pad(n: nat)
      requires Valid()
      modifies this, md5, md5.buffer
      ensures Valid() && md5.fed == old(md5.fed) + Zeros(n)
    {
      var remaining := n;
      ghost var seen := md5.fed;
      assert seen + Zeros(0) == seen;
      while remaining > 0
        invariant 0 <= remaining <= n && Valid() && md5.fed == seen + Zeros(n - remaining)
      {
        var take := if remaining < ZERO_PAD_CHUNK then remaining else ZERO_PAD_CHUNK;
        MoreZeros(seen, n - remaining, take);
        Update(Zeros(take));
        remaining := remaining - take;
      }
    }

    /** The checksums of everything fed, zero-padded to `padTo` when that is longer. */
    method Finalize(padTo: Option<nat>) returns (crc32: Word, digest: seq<Byte>)
      requires Valid()
      modifies this, md5, md5.buffer
      ensures var msg := if padTo.Some? then PadTo(old(md5.fed), padTo.value) else old(md5.fed);
              crc32 == Crc32(msg) && digest == Digest(MD5, msg)
    {
      assert md5.fed + Zeros(0) == md5.fed;
      if padTo.Some? && padTo.value > bytesFed {
        Pad(padTo.value - bytesFed);
      }
      crc32 := Xor(crc, Ones());
      digest := md5.Finalize();
    }
  }

  lemma MoreZeros(seen: seq<Byte>, a: nat, b: nat)
    ensures seen + Zeros(a) + Zeros(b) == seen + Zeros(a + b)
  {
    ZerosConcat(a, b);
  }
}
