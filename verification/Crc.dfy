/** CRC-32 (reflected polynomial 0xEDB88320), joining and splitting checksums of
    concatenated data, and the file checksum implied by its slice checksums. */
module Crc {
  import opened Options
  import opened Arithmetic
  import opened Bytes
  import opened Words
  import opened BitMatrices

  function Nibble(n: bv8): (s: seq<bool>)
    ensures |s| == 4
  {
    [n & 1 != 0, n & 2 != 0, n & 4 != 0, n & 8 != 0]
  }

  /** 0xEDB88320, least significant digit first. */
  function Poly(): Word {
    Nibble(0x0) + Nibble(0x2) + Nibble(0x3) + Nibble(0x8) + Nibble(0x8) + Nibble(0xB) + Nibble(0xD) + Nibble(0xE)
  }

  /** A byte in the low eight bits. */
  function Widen(b: Byte): Word { Nibble(b) + Nibble(b >> 4) + seq(24, _ => false) }

  /** One step of the shift register. */
  function ShiftOut(c: Word): Word {
    if c[0] then Xor(Half(c), Poly()) else Half(c)
  }

  function Shifts(c: Word, k: nat): Word {
    if k == 0 then c else ShiftOut(Shifts(c, k - 1))
  }

  /** The register after the bytes of `data`. */
  function Feed(c: Word, data: seq<Byte>): Word {
    if |data| == 0 then c else Shifts(Xor(Feed(c, data[..|data| - 1]), Widen(data[|data| - 1])), 8)
  }

  function Crc32(data: seq<Byte>): Word { Xor(Feed(Ones(), data), Ones()) }

  lemma {:induction false} FeedConcat(c: Word, a: seq<Byte>, b: seq<Byte>)
    ensures Feed(c, a + b) == Feed(Feed(c, a), b)
  {
    if |b| == 0 {
      assert a + b == a;
    } else {
      assert (a + b)[..|a + b| - 1] == a + b[..|b| - 1];
      FeedConcat(c, a, b[..|b| - 1]);
    }
  }

  // The register is linear.

  lemma ShiftOutXor(a: Word, b: Word)
    ensures ShiftOut(Xor(a, b)) == Xor(ShiftOut(a), ShiftOut(b))
  {
    var P := Poly();
    assert Half(Xor(a, b)) == Xor(Half(a), Half(b));
    XorLaws(Half(a), P, Half(b));
    XorLaws(Half(a), Half(b), P);
    XorLaws(Xor(Half(a), Half(b)), P, P);
  }

  lemma {:induction false} ShiftsXor(a: Word, b: Word, k: nat)
    ensures Shifts(Xor(a, b), k) == Xor(Shifts(a, k), Shifts(b, k))
  {
    if k > 0 {
      ShiftsXor(a, b, k - 1);
      ShiftOutXor(Shifts(a, k - 1), Shifts(b, k - 1));
    }
  }

  lemma {:induction false} ShiftsAdd(c: Word, i: nat, j: nat)
    ensures Shifts(Shifts(c, j), i) == Shifts(c, j + i)
  {
    if i > 0 { ShiftsAdd(c, i - 1, j); }
  }

  /** A difference in the register before `data` comes out shifted past it. */
  lemma {:induction false} FeedXor(c: Word, d: Word, data: seq<Byte>)
    ensures Feed(Xor(c, d), data) == Xor(Feed(c, data), Shifts(d, 8 * |data|))
  {
    if |data| > 0 {
      var rest, last := data[..|data| - 1], Widen(data[|data| - 1]);
      FeedXor(c, d, rest);
      var f, s := Feed(c, rest), Shifts(d, 8 * |rest|);
      XorLaws(f, s, last);
      ShiftsXor(Xor(f, last), s, 8);
      ShiftsAdd(d, 8, 8 * |rest|);
    }
  }

  /** crc(a b) == shift(crc(a), |b| bytes) ^ crc(b). */
  lemma CrcConcat(a: seq<Byte>, b: seq<Byte>)
    ensures Crc32(a + b) == Xor(Shifts(Crc32(a), 8 * |b|), Crc32(b))
  {
    var fa, one := Feed(Ones(), a), Ones();
    FeedConcat(one, a, b);
    XorLaws(fa, one, one);
    XorLaws(fa, Zero(), one);
    XorLaws(one, Crc32(a), one);
    assert Xor(one, Crc32(a)) == fa;
    FeedXor(one, Crc32(a), b);
    var fb, s := Feed(one, b), Shifts(Crc32(a), 8 * |b|);
    XorLaws(fb, s, one);
    XorLaws(s, Xor(fb, one), one);
  }

  // Operators that shift the register past a run of zero bytes.

  /** Output word for each bit of the register, one shift on. */
  function OneShift(): Columns { [Poly()] + seq(31, n requires 0 <= n < 31 => OneHot(n)) }

  lemma {:induction false} SumOneShift(c: Word, n: nat, i: nat)
    requires n < 32 && i < 32
    ensures Sum(OneShift(), c, n + 1)[i] == ((i < n && Half(c)[i]) != (c[0] && Poly()[i]))
  {
    if n > 0 {
      SumOneShift(c, n - 1, i);
      assert OneShift()[n] == OneHot(n - 1) && Half(c)[n - 1] == c[n];
    } else {
      assert Sum(OneShift(), c, 0) == Zero();
      assert Sum(OneShift(), c, 1) == if c[0] then Xor(Zero(), OneShift()[0]) else Zero();
    }
  }

  lemma OneShiftImage(c: Word)
    ensures Image(OneShift(), c) == ShiftOut(c)
  {
    forall i | 0 <= i < 32 ensures Image(OneShift(), c)[i] == ShiftOut(c)[i] {
      SumOneShift(c, 31, i);
    }
  }

  /** The matrix shifts every register k times. */
  ghost predicate Advances(mat: Columns, k: nat) {
    forall c: Word :: Image(mat, c) == Shifts(c, k)
  }

  lemma AdvancesCompose(A: Columns, B: Columns, i: nat, j: nat)
    requires Advances(A, i) && Advances(B, j)
    ensures Advances(Compose(A, B), j + i)
  {
    forall c: Word ensures Image(Compose(A, B), c) == Shifts(c, j + i) {
      ImageCompose(A, B, c);
      ShiftsAdd(c, i, j);
    }
  }

  method OneByte() returns (op: Columns)
    ensures Advances(op, 8)
  {
    op := OneShift();
    forall c: Word ensures Image(op, c) == Shifts(c, 1) {
      OneShiftImage(c);
      assert Shifts(c, 0) == c;
    }
    ghost var k := 1;
    for i := 0 to 3
      invariant Advances(op, k) && k == [1, 2, 4, 8][i]
    {
      var square := Multiply(op, op);
      AdvancesCompose(op, op, k, k);
      op, k := square, k + k;
    }
  }

  lemma Halve(remaining: nat, step: nat)
    ensures remaining % 2 == 1 ==> remaining * step == step + (remaining / 2) * (step + step)
    ensures remaining % 2 == 0 ==> remaining * step == (remaining / 2) * (step + step)
  {
    var q := remaining / 2;
    assert remaining == 2 * q + remaining % 2;
    assert (2 * q) * step == q * (step + step);
    if remaining % 2 == 1 {
      assert (2 * q + 1) * step == (2 * q) * step + step;
    }
  }

  /** Crc32CombineOp::new: the operator for len2 bytes by repeated squaring; none for no bytes. */
  method CombineOp(len2: nat) returns (op: Option<Columns>)
    ensures op == None <==> len2 == 0
    ensures op.Some? ==> Advances(op.value, 8 * len2)
  {
    if len2 == 0 {
      return None;
    }
    var power := OneByte();
    var combined := IdentityColumns32();
    forall c: Word ensures Image(combined, c) == Shifts(c, 0) { ImageIdentity(c); }
    var remaining := len2;
    ghost var done, step := 0, 8;
    while remaining > 0
      invariant Advances(combined, done) && (remaining > 0 ==> Advances(power, step))
      invariant remaining >= 0 && done + remaining * step == 8 * len2
    {
      Halve(remaining, step);
      if remaining % 2 == 1 {
        var next := Multiply(power, combined);
        AdvancesCompose(power, combined, step, done);
        combined, done := next, done + step;
      }
      remaining := remaining / 2;
      if remaining > 0 {
        var square := Multiply(power, power);
        AdvancesCompose(power, power, step, step);
        power := square;
      }
      step := step + step;
    }
    return Some(combined);
  }

  // The shift register loses nothing.

  lemma ShiftOutZero(c: Word)
    requires ShiftOut(c) == Zero()
    ensures c == Zero()
  {
    assert Poly()[31];
    assert !ShiftOut(c)[31];
    assert !c[0];
    assert Half(c) == Zero();
    forall i | 0 <= i < 32 ensures c[i] == Zero()[i] {
      assert i > 0 ==> c[i] == Half(c)[i - 1] && !Zero()[i - 1];
    }
    assert c == Zero();
  }

  lemma {:induction false} ShiftsZero(c: Word, k: nat)
    requires Shifts(c, k) == Zero()
    ensures c == Zero()
  {
    if k > 0 {
      ShiftOutZero(Shifts(c, k - 1));
      ShiftsZero(c, k - 1);
    }
  }

  /** Crc32UncombineOp::new: never missing for a suffix of at least one byte. */
  method UncombineOp(len2: nat) returns (inverse: Option<Columns>)
    ensures inverse == None <==> len2 == 0
    ensures inverse.Some? ==> forall c: Word ::
              Image(inverse.value, Shifts(c, 8 * len2)) == c && Shifts(Image(inverse.value, c), 8 * len2) == c
  {
    var op := CombineOp(len2);
    if op == None {
      return None;
    }
    inverse := Invert(op.value);
    if inverse == None {
      ghost var v: Word :| v != Zero() && Image(op.value, v) == Zero();
      ShiftsZero(v, 8 * len2);
    }
    if inverse.Some? {
      assert Undoes(inverse.value, op.value);
      forall c: Word ensures Image(inverse.value, Shifts(c, 8 * len2)) == c &&
        Shifts(Image(inverse.value, c), 8 * len2) == c {
        assert Image(op.value, c) == Shifts(c, 8 * len2);
        assert Image(op.value, Image(inverse.value, c)) == Shifts(Image(inverse.value, c), 8 * len2);
      }
    }
  }

  /** The checksum of prefix and suffix together from the two apart. */
  ghost function Joined(crc1: Word, crc2: Word, len2: nat): Word {
    if len2 == 0 then crc1 else Xor(Shifts(crc1, 8 * len2), crc2)
  }

  lemma JoinedConcat(a: seq<Byte>, b: seq<Byte>)
    ensures Joined(Crc32(a), Crc32(b), |b|) == Crc32(a + b)
  {
    if |b| == 0 {
      assert a + b == a;
    } else {
      CrcConcat(a, b);
    }
  }

  /** Different prefix checksums never join to the same one. */
  lemma JoinedInjective(c: Word, d: Word, crc2: Word, len2: nat)
    requires Joined(c, crc2, len2) == Joined(d, crc2, len2)
    ensures c == d
  {
    if len2 > 0 {
      var s, t := Shifts(c, 8 * len2), Shifts(d, 8 * len2);
      XorLaws(s, crc2, crc2);
      XorLaws(t, crc2, crc2);
      XorLaws(s, t, t);
      XorLaws(t, t, t);
      ShiftsXor(c, d, 8 * len2);
      ShiftsZero(Xor(c, d), 8 * len2);
      XorLaws(c, d, d);
      XorLaws(d, d, d);
    }
  }

  /** crc32_combine. */
  method Combine(crc1: Word, crc2: Word, len2: nat) returns (crc: Word)
    ensures crc == Joined(crc1, crc2, len2)
  {
    var op := CombineOp(len2);
    if op.Some? {
      crc := MatVec(op.value, crc1);
      crc := Xor(crc, crc2);
    } else {
      crc := crc1;
    }
  }

  /** crc32_uncombine: the one prefix checksum that joins with crc2 to `combined`. */
  method Uncombine(combined: Word, crc2: Word, len2: nat) returns (crc: Word)
    ensures Joined(crc, crc2, len2) == combined
    ensures forall c: Word :: Joined(c, crc2, len2) == combined ==> c == crc
  {
    var inverse := UncombineOp(len2);
    if inverse.Some? {
      crc := MatVec(inverse.value, Xor(combined, crc2));
      XorLaws(combined, crc2, crc2);
      XorLaws(combined, Zero(), Zero());
    } else {
      crc := combined;
    }
    forall c: Word | Joined(c, crc2, len2) == combined ensures c == crc {
      JoinedInjective(c, crc, crc2, len2);
    }
  }

  // Padding and files.

  /** Feed n zero bytes to the register, a chunk at a time. */
  method FeedZeros(c: Word, n: nat) returns (out: Word)
    ensures out == Feed(c, Zeros(n))
  {
    out := c;
    var remaining := n;
    ghost var done := 0;
    while remaining > 0
      invariant remaining >= 0 && done >= 0 && done + remaining == n && out == Feed(c, Zeros(done))
    {
      var chunk := if remaining < ZERO_PAD_CHUNK then remaining else ZERO_PAD_CHUNK;
      FeedMoreZeros(c, done, chunk);
      out := Feed(out, Zeros(chunk));
      remaining, done := remaining - chunk, done + chunk;
    }
  }

  lemma FeedMoreZeros(c: Word, a: nat, b: nat)
    ensures Feed(Feed(c, Zeros(a)), Zeros(b)) == Feed(c, Zeros(a + b))
  {
    FeedConcat(c, Zeros(a), Zeros(b));
    ZerosConcat(a, b);
  }

  /** crc32_padded. */
  method Padded(data: seq<Byte>, padTo: nat) returns (crc: Word)
    ensures crc == Crc32(PadTo(data, padTo))
  {
    var c := Feed(Ones(), data);
    var n := if |data| < padTo then padTo - |data| else 0;
    FeedConcat(Ones(), data, Zeros(n));
    c := FeedZeros(c, n);
    crc := Xor(c, Ones());
  }

  const MAX_SLICES := 0xFFFF_FFFF

  /** crc is the checksum of the slice of `file` at `from`, padded to a full slice. */
  ghost predicate SliceCrc(crc: Word, file: seq<Byte>, from: nat, size: nat) {
    from <= |file| && crc == Crc32(PadTo(file[from..if from + size < |file| then from + size else |file|], size))
  }

  /** The checksums are those of the slices of `file`. */
  ghost predicate Describes(checksums: seq<Word>, file: seq<Byte>, size: nat) {
    forall i {:trigger checksums[i]} :: 0 <= i < |checksums| ==> SliceCrc(checksums[i], file, i * size, size)
  }

  /** The metadata is consistent: a description, a slice size, and one checksum for each slice. */
  predicate Consistent(length: Option<nat>, size: nat, checksums: Option<seq<Word>>) {
    && length.Some? && size > 0
    && if length.value == 0 then checksums == None || checksums.value == []
       else checksums.Some? && |checksums.value| == DivCeil(length.value, size) <= MAX_SLICES
  }

  lemma SliceBounds(length: nat, size: nat, count: nat, i: nat)
    requires size > 0 && length > 0 && count == DivCeil(length, size) && i < count
    ensures i * size + size == (i + 1) * size
    ensures i + 1 < count ==> i * size + size < length
    ensures i + 1 == count ==>
              i * size < length && length == i * size + (if length % size != 0 then length % size else size)
  {
    DivCeilCovers(length, size);
    if i + 1 < count {
      MulMonotone(i + 2, count, size);
    } else {
      var r := length - i * size;
      if r < size {
        Quotient(length, size, i);
      } else {
        Quotient(length, size, i + 1);
      }
      assert length == length / size * size + length % size;
    }
  }

  /** The checksum of a slice without its padding. */
  method Unpadded(crc: Word, sliceLen: nat, size: nat) returns (out: Word)
    requires sliceLen <= size
    ensures forall data: seq<Byte> :: |data| == sliceLen && crc == Crc32(PadTo(data, size)) ==> out == Crc32(data)
  {
    var padding := Padded([], size - sliceLen);
    out := Uncombine(crc, padding, size - sliceLen);
    forall data: seq<Byte> | |data| == sliceLen && crc == Crc32(PadTo(data, size)) ensures out == Crc32(data) {
      var z := Zeros(size - sliceLen);
      assert PadTo([], size - sliceLen) == z;
      assert PadTo(data, size) == data + z;
      JoinedConcat(data, z);
    }
  }

  /** crc is the checksum of the first `upto` bytes of every file the checksums describe. */
  ghost predicate SumsTo(crc: Word, checksums: seq<Word>, len: nat, size: nat, upto: nat) {
    forall file: seq<Byte> {:trigger Describes(checksums, file, size)} ::
      |file| == len && Describes(checksums, file, size) ==> upto <= len && crc == Crc32(file[..upto])
  }

  /** ... and of the `sliceLen` bytes from `from` on. */
  ghost predicate SliceSums(crc: Word, checksums: seq<Word>, len: nat, size: nat, from: nat, sliceLen: nat) {
    forall file: seq<Byte> {:trigger Describes(checksums, file, size)} ::
      |file| == len && Describes(checksums, file, size) ==>
        from + sliceLen <= len && crc == Crc32(file[from..from + sliceLen])
  }

  /** The checksum of slice i, which starts at `from`, without the padding of a short one. */
  method SliceCrc32(checksums: seq<Word>, i: nat, ghost from: nat, sliceLen: nat, size: nat, ghost len: nat)
    returns (crc: Word)
    requires i < |checksums| && from == i * size && from + sliceLen <= len && sliceLen <= size
    requires sliceLen < size ==> from + sliceLen == len
    ensures SliceSums(crc, checksums, len, size, from, sliceLen)
  {
    crc := checksums[i];
    if sliceLen != size {
      crc := Unpadded(crc, sliceLen, size);
    }
    forall file: seq<Byte> | |file| == len && Describes(checksums, file, size)
      ensures crc == Crc32(file[from..from + sliceLen]) {
      SliceAt(checksums, i, from, sliceLen, size, file);
    }
  }

  /** Joining the prefix before `from` with the slice there gives the prefix after it. */
  lemma SumsNext(prefix: Word, crc: Word, checksums: seq<Word>, len: nat, size: nat, from: nat, sliceLen: nat)
    requires SumsTo(prefix, checksums, len, size, from) && SliceSums(crc, checksums, len, size, from, sliceLen)
    ensures SumsTo(Joined(prefix, crc, sliceLen), checksums, len, size, from + sliceLen)
  {
    forall file: seq<Byte> | |file| == len && Describes(checksums, file, size)
      ensures from + sliceLen <= len && Joined(prefix, crc, sliceLen) == Crc32(file[..from + sliceLen])
    {
      JoinedConcat(file[..from], file[from..from + sliceLen]);
      assert file[..from] + file[from..from + sliceLen] == file[..from + sliceLen];
    }
  }

  lemma SliceAt(checksums: seq<Word>, i: nat, from: nat, sliceLen: nat, size: nat, file: seq<Byte>)
    requires Describes(checksums, file, size) && i < |checksums| && from == i * size && from + sliceLen <= |file| &&
             sliceLen <= size
    requires sliceLen < size ==> from + sliceLen == |file|
    ensures checksums[i] == Crc32(PadTo(file[from..from + sliceLen], size))
    ensures sliceLen == size ==> PadTo(file[from..from + sliceLen], size) == file[from..from + sliceLen]
  {
    assert SliceCrc(checksums[i], file, from, size);
  }

  lemma FirstSlice(crc: Word, checksums: seq<Word>, len: nat, size: nat, sliceLen: nat)
    requires SliceSums(crc, checksums, len, size, 0, sliceLen)
    ensures SumsTo(crc, checksums, len, size, sliceLen)
  {
    assert forall file: seq<Byte> :: sliceLen <= |file| ==> file[0..0 + sliceLen] == file[..sliceLen];
  }

  /** Bytes of slice i that are the file's own. */
  function SliceLength(len: nat, size: nat, count: nat, i: nat): (n: nat)
    requires size > 0 && len > 0 && count == DivCeil(len, size) && i < count
    ensures 0 < n <= size && i * size + n <= len
    ensures n < size ==> i * size + n == len
    ensures i * size + n == if i + 1 < count then (i + 1) * size else len
  {
    SliceBounds(len, size, count, i);
    if i + 1 == count && len % size != 0 then len % size else size
  }

  method FoldSlices(checksums: seq<Word>, len: nat, size: nat) returns (crc: Word)
    requires len > 0 && size > 0 && |checksums| == DivCeil(len, size)
    ensures SumsTo(crc, checksums, len, size, len)
  {
    var count := |checksums|;
    DivCeilCovers(len, size);
    var fileCrc: Option<Word> := None;
    ghost var from := 0;
    for i := 0 to count
      invariant (fileCrc == None <==> i == 0) && from == if i < count then i * size else len
      invariant fileCrc.Some? ==> SumsTo(fileCrc.value, checksums, len, size, from)
    {
      var sliceLen := SliceLength(len, size, count, i);
      var sliceCrc := SliceCrc32(checksums, i, from, sliceLen, size, len);
      if fileCrc.Some? {
        SumsNext(fileCrc.value, sliceCrc, checksums, len, size, from, sliceLen);
        sliceCrc := Combine(fileCrc.value, sliceCrc, sliceLen);
      } else {
        FirstSlice(sliceCrc, checksums, len, size, sliceLen);
      }
      fileCrc, from := Some(sliceCrc), from + sliceLen;
    }
    crc := fileCrc.value;
  }

  /** A file the metadata describes. */
  ghost predicate FileOf(file: seq<Byte>, len: nat, size: nat, checksums: Option<seq<Word>>) {
    |file| == len && (checksums.Some? ==> Describes(checksums.value, file, size))
  }

  /** expected_file_crc32: no value for inconsistent metadata, otherwise the checksum of any file it describes. */
  method ExpectedFileCrc32(length: Option<nat>, size: nat, checksums: Option<seq<Word>>) returns (crc: Option<Word>)
    ensures crc.Some? <==> Consistent(length, size, checksums)
    ensures crc.Some? ==> forall file: seq<Byte> :: FileOf(file, length.value, size, checksums) ==>
            crc.value == Crc32(file)
  {
    if length == None || size == 0 {
      return None;
    }
    if length.value == 0 {
      if checksums.Some? && checksums.value != [] {
        return None;
      }
      return Some(Crc32([]));
    }
    var count := DivCeil(length.value, size);
    if count > MAX_SLICES || checksums == None || |checksums.value| != count {
      return None;
    }
    var value := FoldSlices(checksums.value, length.value, size);
    forall file: seq<Byte> | FileOf(file, length.value, size, checksums) ensures value == Crc32(file) {
      assert file[..length.value] == file;
    }
    return Some(value);
  }
}
