/** What the CRC-32 model computes: the remainder of the message polynomial on long
    division by the generator, and the published check value. */
module CrcValues {
  import opened Bytes
  import opened Words
  import opened Crc

  // Long division of polynomials over GF(2), written highest power first.

  /** The powers of x in the generator. */
  const POWERS: set<nat> := {32, 26, 23, 22, 16, 12, 11, 10, 8, 7, 5, 4, 2, 1, 0}

  function Generator(): (g: seq<bool>)
    ensures |g| == 33 && forall i :: 0 <= i < 33 ==> g[i] == ((32 - i) in POWERS)
  {
    seq(33, i requires 0 <= i < 33 => (32 - i) in POWERS)
  }

  /** a with b subtracted from its highest powers. */
  function Less(a: seq<bool>, b: seq<bool>): (d: seq<bool>)
    requires |b| <= |a|
    ensures |d| == |a| && forall i :: 0 <= i < |a| ==> d[i] == (a[i] != (i < |b| && b[i]))
  {
    seq(|a|, i requires 0 <= i < |a| => a[i] != (i < |b| && b[i]))
  }

  /** Schoolbook division: clear the highest power with the divisor and go on with the rest. */
  function Remainder(a: seq<bool>, g: seq<bool>): (r: seq<bool>)
    requires |g| > 0
    ensures |r| == if |a| < |g| then |a| else |g| - 1
    decreases |a|
  {
    if |a| < |g| then a else Remainder((if a[0] then Less(a, g) else a)[1..], g)
  }

  lemma GeneratorIs()
    ensures [true] + Poly() == Generator()
  {
    forall i | 0 <= i < 32 ensures Poly()[i] == Generator()[i + 1] { PolyAt(i); }
  }

  lemma PolyAt(i: nat)
    requires i < 32
    ensures Poly()[i] == ((31 - i) in POWERS)
  {
    if i < 4 { assert i == 0 || i == 1 || i == 2 || i == 3; }
    else if i < 8 { assert i == 4 || i == 5 || i == 6 || i == 7; }
    else if i < 12 { assert i == 8 || i == 9 || i == 10 || i == 11; }
    else if i < 16 { assert i == 12 || i == 13 || i == 14 || i == 15; }
    else if i < 20 { assert i == 16 || i == 17 || i == 18 || i == 19; }
    else if i < 24 { assert i == 20 || i == 21 || i == 22 || i == 23; }
    else if i < 28 { assert i == 24 || i == 25 || i == 26 || i == 27; }
    else if i < 32 { assert i == 28 || i == 29 || i == 30 || i == 31; }
  }

  /** A byte's bits as they are sent, least significant first. */
  function BitsOf(b: Byte): (s: seq<bool>)
    ensures |s| == 8
  {
    [b & 0x01 != 0, b & 0x02 != 0, b & 0x04 != 0, b & 0x08 != 0,
     b & 0x10 != 0, b & 0x20 != 0, b & 0x40 != 0, b & 0x80 != 0]
  }

  function MessageBits(data: seq<Byte>): (s: seq<bool>)
    ensures |s| == 8 * |data|
  {
    if |data| == 0 then [] else MessageBits(data[..|data| - 1]) + BitsOf(data[|data| - 1])
  }

  // The register, one bit at a time.

  function TakeBit(c: Word, b: bool): Word { ShiftOut(c[0 := c[0] != b]) }

  function TakeBits(c: Word, bits: seq<bool>): Word
    decreases |bits|
  {
    if |bits| == 0 then c else TakeBits(TakeBit(c, bits[0]), bits[1..])
  }

  /** A register that has taken some bits holds the remainder of what it began with, those bits and 32 zeros. */
  lemma {:induction false} TakenIsRemainder(c: Word, bits: seq<bool>, a: seq<bool>)
    requires a == Less(bits + Zero(), c)
    ensures TakeBits(c, bits) == Remainder(a, Generator())
    decreases |bits|
  {
    if |bits| == 0 {
      assert bits + Zero() == Zero();
      assert a == c;
    } else {
      GeneratorIs();
      var rest := (if a[0] then Less(a, Generator()) else a)[1..];
      var next := TakeBit(c, bits[0]);
      assert (bits + Zero())[1..] == bits[1..] + Zero();
      forall i | 0 <= i < |rest| ensures rest[i] == Less(bits[1..] + Zero(), next)[i] {
        DivideOnce(c, bits, a, rest, next, i);
      }
      TakenIsRemainder(next, bits[1..], rest);
    }
  }

  lemma DivideOnce(c: Word, bits: seq<bool>, a: seq<bool>, rest: seq<bool>, next: Word, i: nat)
    requires |bits| > 0 && a == Less(bits + Zero(), c) && next == TakeBit(c, bits[0]) && [true] + Poly() == Generator()
    requires rest == (if a[0] then Less(a, Generator()) else a)[1..] && i < |rest|
    ensures rest[i] == ((bits[1..] + Zero())[i] != (i < 32 && next[i]))
  {
    assert a[0] == (bits[0] != c[0]);
    assert (bits + Zero())[i + 1] == (bits[1..] + Zero())[i];
    if i < 32 {
      assert Generator()[i + 1] == Poly()[i];
      assert next[i] == ((i < 31 && c[i + 1]) != (a[0] && Poly()[i]));
    }
  }

  lemma {:induction false} TakeConcat(c: Word, a: seq<bool>, b: seq<bool>)
    ensures TakeBits(c, a + b) == TakeBits(TakeBits(c, a), b)
    decreases |a|
  {
    if |a| == 0 {
      assert a + b == b;
    } else {
      assert (a + b)[1..] == a[1..] + b;
      TakeConcat(TakeBit(c, a[0]), a[1..], b);
    }
  }

  lemma {:induction false} ShiftFirst(c: Word, k: nat, next: nat)
    requires next == k + 1
    ensures Shifts(c, next) == Shifts(ShiftOut(c), k)
  {
    if k > 0 {
      ShiftFirst(c, k - 1, k);
    }
  }

  /** Adding k bits at once and shifting k times is taking the bits one by one. */
  lemma {:induction false} BitsTogether(c: Word, w: Word, k: nat)
    requires k <= 32 && forall i :: k <= i < 32 ==> !w[i]
    ensures Shifts(Xor(c, w), k) == TakeBits(c, w[..k])
    decreases k
  {
    if k == 0 {
      assert Xor(c, w) == c;
    } else {
      var one := c[0 := c[0] != w[0]];
      var rest := w[0 := false];
      assert Xor(c, w) == Xor(one, rest);
      ShiftOutXor(one, rest);
      ShiftFirst(Xor(c, w), k - 1, k);
      BitsTogether(ShiftOut(one), Half(rest), k - 1);
      assert Half(rest)[..k - 1] == w[..k][1..];
    }
  }

  lemma WidenIs(b: Byte)
    ensures Widen(b)[..8] == BitsOf(b) && forall i :: 8 <= i < 32 ==> !Widen(b)[i]
  {
    assert (b >> 4) & 1 != 0 <==> b & 0x10 != 0;
    assert (b >> 4) & 2 != 0 <==> b & 0x20 != 0;
    assert (b >> 4) & 4 != 0 <==> b & 0x40 != 0;
    assert (b >> 4) & 8 != 0 <==> b & 0x80 != 0;
  }

  lemma {:induction false} FeedTakes(c: Word, data: seq<Byte>)
    ensures Feed(c, data) == TakeBits(c, MessageBits(data))
  {
    if |data| > 0 {
      var most, last := data[..|data| - 1], data[|data| - 1];
      FeedTakes(c, most);
      WidenIs(last);
      BitsTogether(Feed(c, most), Widen(last), 8);
      TakeConcat(c, MessageBits(most), BitsOf(last));
    }
  }

  /** CRC-32 by its definition: with the message's first 32 bits inverted, 32 zeros after it, and the remainder's bits
      inverted. The register's bit i, least significant first, is the coefficient of x^(31 - i). */
  lemma CrcIsRemainder(data: seq<Byte>, a: seq<bool>, i: nat)
    requires |a| == 8 * |data| + 32 && i < 32
    requires forall k :: 0 <= k < |a| ==> a[k] == ((k < 8 * |data| && MessageBits(data)[k]) != (k < 32))
    ensures Crc32(data)[i] == !Remainder(a, Generator())[i]
  {
    FeedTakes(Ones(), data);
    assert a == Less(MessageBits(data) + Zero(), Ones());
    TakenIsRemainder(Ones(), MessageBits(data), a);
  }

  /** With nothing inverted the register is data(x) * x^32 modulo the generator. */
  lemma FeedIsRemainder(data: seq<Byte>)
    ensures Feed(Zero(), data) == Remainder(MessageBits(data) + Zero(), Generator())
  {
    FeedTakes(Zero(), data);
    assert MessageBits(data) + Zero() == Less(MessageBits(data) + Zero(), Zero());
    TakenIsRemainder(Zero(), MessageBits(data), MessageBits(data) + Zero());
  }

  // The published check value.

  function Bit(x: bv32, i: nat): bool
    requires i < 32
  {
    (x >> i) & 1 == 1
  }

  function WordOf(x: bv32): (w: Word)
    ensures forall i :: 0 <= i < 32 ==> w[i] == Bit(x, i)
  {
    seq(32, i requires 0 <= i < 32 => Bit(x, i))
  }

  /** The source's own register step, on the constant it names. */
  function Step(x: bv32): bv32 { if x & 1 == 1 then (x >> 1) ^ 0xEDB8_8320 else x >> 1 }

  lemma BitXor(x: bv32, y: bv32, i: nat)
    requires i < 32
    ensures Bit(x ^ y, i) == (Bit(x, i) != Bit(y, i))
  {
    assert (x ^ y) >> i == (x >> i) ^ (y >> i);
    LowXor(x >> i, y >> i);
  }

  lemma LowXor(u: bv32, v: bv32)
    ensures ((u ^ v) & 1 == 1) == ((u & 1 == 1) != (v & 1 == 1))
  {
  }

  lemma BitHalf(x: bv32, i: nat)
    requires i < 32
    ensures Bit(x >> 1, i) == (i < 31 && Bit(x, i + 1))
  {
    if i < 4 { assert i == 0 || i == 1 || i == 2 || i == 3; }
    else if i < 8 { assert i == 4 || i == 5 || i == 6 || i == 7; }
    else if i < 12 { assert i == 8 || i == 9 || i == 10 || i == 11; }
    else if i < 16 { assert i == 12 || i == 13 || i == 14 || i == 15; }
    else if i < 20 { assert i == 16 || i == 17 || i == 18 || i == 19; }
    else if i < 24 { assert i == 20 || i == 21 || i == 22 || i == 23; }
    else if i < 28 { assert i == 24 || i == 25 || i == 26 || i == 27; }
    else if i < 32 { assert i == 28 || i == 29 || i == 30 || i == 31; }
  }

  lemma BitPoly(i: nat)
    requires i < 32
    ensures Bit(0xEDB8_8320, i) == Poly()[i]
  {
    if i < 4 { assert i == 0 || i == 1 || i == 2 || i == 3; }
    else if i < 8 { assert i == 4 || i == 5 || i == 6 || i == 7; }
    else if i < 12 { assert i == 8 || i == 9 || i == 10 || i == 11; }
    else if i < 16 { assert i == 12 || i == 13 || i == 14 || i == 15; }
    else if i < 20 { assert i == 16 || i == 17 || i == 18 || i == 19; }
    else if i < 24 { assert i == 20 || i == 21 || i == 22 || i == 23; }
    else if i < 28 { assert i == 24 || i == 25 || i == 26 || i == 27; }
    else if i < 32 { assert i == 28 || i == 29 || i == 30 || i == 31; }
  }

  lemma BitByte(b: Byte, i: nat)
    requires i < 32
    ensures Bit(b as bv32, i) == Widen(b)[i]
  {
    if i < 4 { assert i == 0 || i == 1 || i == 2 || i == 3; }
    else if i < 8 { assert i == 4 || i == 5 || i == 6 || i == 7; }
    else if i < 12 { assert i == 8 || i == 9 || i == 10 || i == 11; }
    else if i < 16 { assert i == 12 || i == 13 || i == 14 || i == 15; }
    else if i < 20 { assert i == 16 || i == 17 || i == 18 || i == 19; }
    else if i < 24 { assert i == 20 || i == 21 || i == 22 || i == 23; }
    else if i < 28 { assert i == 24 || i == 25 || i == 26 || i == 27; }
    else if i < 32 { assert i == 28 || i == 29 || i == 30 || i == 31; }
  }

  lemma XorIs(x: bv32, y: bv32)
    ensures Xor(WordOf(x), WordOf(y)) == WordOf(x ^ y)
  {
    forall i | 0 <= i < 32 ensures Xor(WordOf(x), WordOf(y))[i] == WordOf(x ^ y)[i] { BitXor(x, y, i); }
  }

  lemma HalfIs(x: bv32)
    ensures Half(WordOf(x)) == WordOf(x >> 1)
  {
    forall i | 0 <= i < 32 ensures Half(WordOf(x))[i] == WordOf(x >> 1)[i] { BitHalf(x, i); }
  }

  lemma PolyIs()
    ensures Poly() == WordOf(0xEDB8_8320)
  {
    forall i | 0 <= i < 32 ensures Poly()[i] == WordOf(0xEDB8_8320)[i] { BitPoly(i); }
  }

  lemma ByteIs(b: Byte)
    ensures Widen(b) == WordOf(b as bv32)
  {
    forall i | 0 <= i < 32 ensures Widen(b)[i] == WordOf(b as bv32)[i] { BitByte(b, i); }
  }

  lemma OnesAre()
    ensures Ones() == WordOf(0xFFFF_FFFF)
  {
    forall i | 0 <= i < 32 ensures Ones()[i] == WordOf(0xFFFF_FFFF)[i] { BitOnes(i); }
  }

  lemma BitOnes(i: nat)
    requires i < 32
    ensures Bit(0xFFFF_FFFF, i)
  {
    if i < 4 { assert i == 0 || i == 1 || i == 2 || i == 3; }
    else if i < 8 { assert i == 4 || i == 5 || i == 6 || i == 7; }
    else if i < 12 { assert i == 8 || i == 9 || i == 10 || i == 11; }
    else if i < 16 { assert i == 12 || i == 13 || i == 14 || i == 15; }
    else if i < 20 { assert i == 16 || i == 17 || i == 18 || i == 19; }
    else if i < 24 { assert i == 20 || i == 21 || i == 22 || i == 23; }
    else if i < 28 { assert i == 24 || i == 25 || i == 26 || i == 27; }
    else if i < 32 { assert i == 28 || i == 29 || i == 30 || i == 31; }
  }

  lemma LowBit(x: bv32)
    ensures WordOf(x)[0] == (x & 1 == 1)
  {
    assert x >> 0 == x;
  }

  /** The source's step on a machine word is the model's on its bits. */
  lemma StepIs(x: bv32)
    ensures ShiftOut(WordOf(x)) == WordOf(Step(x))
  {
    LowBit(x);
    HalfIs(x);
    PolyIs();
    XorIs(x >> 1, 0xEDB8_8320);
  }

  predicate Leads(x: bv32, y: bv32) { Step(Step(Step(Step(x)))) == y }

  lemma FourSteps(x: bv32, y: bv32)
    requires Leads(x, y)
    ensures Shifts(WordOf(x), 4) == WordOf(y)
  {
    var a, b, c := Step(x), Step(Step(x)), Step(Step(Step(x)));
    StepIs(x);
    StepIs(a);
    StepIs(b);
    StepIs(c);
    assert Shifts(WordOf(x), 1) == WordOf(a);
    assert Shifts(WordOf(x), 2) == WordOf(b);
    assert Shifts(WordOf(x), 3) == WordOf(c);
  }

  lemma {:induction false} ShiftMore(c: Word, j: nat, k: nat, n: nat)
    requires n == j + k
    ensures Shifts(c, n) == Shifts(Shifts(c, j), k)
  {
    if k > 0 {
      ShiftMore(c, j, k - 1, n - 1);
    }
  }

  lemma ByteIn(x: bv32, b: Byte, w: bv32)
    requires w == x ^ b as bv32
    ensures Xor(WordOf(x), Widen(b)) == WordOf(w)
  {
    ByteIs(b);
    XorIs(x, b as bv32);
  }

  /** The ASCII digits 1 to 9. */
  const DIGITS: seq<Byte> := [0x31, 0x32, 0x33, 0x34, 0x35, 0x36, 0x37, 0x38, 0x39]

  /** Taking byte b moves the register from x to z. */
  predicate Moves(x: Word, b: Byte, z: Word) { Shifts(Xor(x, Widen(b)), 8) == z }

  lemma Halves(x: Word, b: Byte, w: Word, y: Word, z: Word)
    requires Xor(x, Widen(b)) == w && Shifts(w, 4) == y && Shifts(y, 4) == z
    ensures Moves(x, b, z)
  {
    ShiftMore(w, 4, 4, 8);
  }

  lemma Digit1()
    ensures Moves(WordOf(0xFFFF_FFFF), 0x31, WordOf(0x7C23_1048))
  {
    ByteIn(0xFFFF_FFFF, 0x31, 0xFFFF_FFCE);
    FourSteps(0xFFFF_FFCE, 0xAFF5_1D84);
    FourSteps(0xAFF5_1D84, 0x7C23_1048);
    Halves(WordOf(0xFFFF_FFFF), 0x31, WordOf(0xFFFF_FFCE), WordOf(0xAFF5_1D84), WordOf(0x7C23_1048));
  }

  lemma Digit2()
    ensures Moves(WordOf(0x7C23_1048), 0x32, WordOf(0xB0AC_BB32))
  {
    ByteIn(0x7C23_1048, 0x32, 0x7C23_107A);
    FourSteps(0x7C23_107A, 0xD114_92EF);
    FourSteps(0xD114_92EF, 0xB0AC_BB32);
    Halves(WordOf(0x7C23_1048), 0x32, WordOf(0x7C23_107A), WordOf(0xD114_92EF), WordOf(0xB0AC_BB32));
  }

  lemma Digit3()
    ensures Moves(WordOf(0xB0AC_BB32), 0x33, WordOf(0x77B7_9C2D))
  {
    ByteIn(0xB0AC_BB32, 0x33, 0xB0AC_BB01);
    FourSteps(0xB0AC_BB01, 0x16BD_DBD4);
    FourSteps(0x16BD_DBD4, 0x77B7_9C2D);
    Halves(WordOf(0xB0AC_BB32), 0x33, WordOf(0xB0AC_BB01), WordOf(0x16BD_DBD4), WordOf(0x77B7_9C2D));
  }

  lemma Digit4()
    ensures Moves(WordOf(0x77B7_9C2D), 0x34, WordOf(0x641C_1F5C))
  {
    ByteIn(0x77B7_9C2D, 0x34, 0x77B7_9C19);
    FourSteps(0x77B7_9C19, 0xF774_EA85);
    FourSteps(0xF774_EA85, 0x641C_1F5C);
    Halves(WordOf(0x77B7_9C2D), 0x34, WordOf(0x77B7_9C19), WordOf(0xF774_EA85), WordOf(0x641C_1F5C));
  }

  lemma Digit5()
    ensures Moves(WordOf(0x641C_1F5C), 0x35, WordOf(0x340A_C5E3))
  {
    ByteIn(0x641C_1F5C, 0x35, 0x641C_1F69);
    FourSteps(0x641C_1F69, 0xF64E_52B2);
    FourSteps(0xF64E_52B2, 0x340A_C5E3);
    Halves(WordOf(0x641C_1F5C), 0x35, WordOf(0x641C_1F69), WordOf(0xF64E_52B2), WordOf(0x340A_C5E3));
  }

  lemma Digit6()
    ensures Moves(WordOf(0x340A_C5E3), 0x36, WordOf(0xF68D_2C9E))
  {
    ByteIn(0x340A_C5E3, 0x36, 0x340A_C5D5);
    FourSteps(0x340A_C5D5, 0x682B_FDA9);
    FourSteps(0x682B_FDA9, 0xF68D_2C9E);
    Halves(WordOf(0x340A_C5E3), 0x36, WordOf(0x340A_C5D5), WordOf(0x682B_FDA9), WordOf(0xF68D_2C9E));
  }

  lemma Digit7()
    ensures Moves(WordOf(0xF68D_2C9E), 0x37, WordOf(0xAFFC_9660))
  {
    ByteIn(0xF68D_2C9E, 0x37, 0xF68D_2CA9);
    FourSteps(0xF68D_2CA9, 0xFF67_418E);
    FourSteps(0xFF67_418E, 0xAFFC_9660);
    Halves(WordOf(0xF68D_2C9E), 0x37, WordOf(0xF68D_2CA9), WordOf(0xFF67_418E), WordOf(0xAFFC_9660));
  }

  lemma Digit8()
    ensures Moves(WordOf(0xAFFC_9660), 0x38, WordOf(0x651F_2550))
  {
    ByteIn(0xAFFC_9660, 0x38, 0xAFFC_9658);
    FourSteps(0xAFFC_9658, 0xE747_4A45);
    FourSteps(0xE747_4A45, 0x651F_2550);
    Halves(WordOf(0xAFFC_9660), 0x38, WordOf(0xAFFC_9658), WordOf(0xE747_4A45), WordOf(0x651F_2550));
  }

  lemma Digit9()
    ensures Moves(WordOf(0x651F_2550), 0x39, WordOf(0x340B_C6D9))
  {
    ByteIn(0x651F_2550, 0x39, 0x651F_2569);
    FourSteps(0x651F_2569, 0xF65E_6112);
    FourSteps(0xF65E_6112, 0x340B_C6D9);
    Halves(WordOf(0x651F_2550), 0x39, WordOf(0x651F_2569), WordOf(0xF65E_6112), WordOf(0x340B_C6D9));
  }

  lemma Fed(n: nat, next: nat, x: Word, z: Word)
    requires n < 9 && next == n + 1 && Feed(Ones(), DIGITS[..n]) == x && Moves(x, DIGITS[n], z)
    ensures Feed(Ones(), DIGITS[..next]) == z
  {
    assert DIGITS[..next][..n] == DIGITS[..n];
  }

  lemma Check1()
    ensures Feed(Ones(), DIGITS[..1]) == WordOf(0x7C23_1048)
  {
    OnesAre();
    Digit1();
    Fed(0, 1, WordOf(0xFFFF_FFFF), WordOf(0x7C23_1048));
  }

  lemma Check2()
    ensures Feed(Ones(), DIGITS[..2]) == WordOf(0xB0AC_BB32)
  {
    Check1();
    Digit2();
    Fed(1, 2, WordOf(0x7C23_1048), WordOf(0xB0AC_BB32));
  }

  lemma Check3()
    ensures Feed(Ones(), DIGITS[..3]) == WordOf(0x77B7_9C2D)
  {
    Check2();
    Digit3();
    Fed(2, 3, WordOf(0xB0AC_BB32), WordOf(0x77B7_9C2D));
  }

  lemma Check4()
    ensures Feed(Ones(), DIGITS[..4]) == WordOf(0x641C_1F5C)
  {
    Check3();
    Digit4();
    Fed(3, 4, WordOf(0x77B7_9C2D), WordOf(0x641C_1F5C));
  }

  lemma Check5()
    ensures Feed(Ones(), DIGITS[..5]) == WordOf(0x340A_C5E3)
  {
    Check4();
    Digit5();
    Fed(4, 5, WordOf(0x641C_1F5C), WordOf(0x340A_C5E3));
  }

  lemma Check6()
    ensures Feed(Ones(), DIGITS[..6]) == WordOf(0xF68D_2C9E)
  {
    Check5();
    Digit6();
    Fed(5, 6, WordOf(0x340A_C5E3), WordOf(0xF68D_2C9E));
  }

  lemma Check7()
    ensures Feed(Ones(), DIGITS[..7]) == WordOf(0xAFFC_9660)
  {
    Check6();
    Digit7();
    Fed(6, 7, WordOf(0xF68D_2C9E), WordOf(0xAFFC_9660));
  }

  lemma Check8()
    ensures Feed(Ones(), DIGITS[..8]) == WordOf(0x651F_2550)
  {
    Check7();
    Digit8();
    Fed(7, 8, WordOf(0xAFFC_9660), WordOf(0x651F_2550));
  }

  lemma Check9()
    ensures Feed(Ones(), DIGITS[..9]) == WordOf(0x340B_C6D9)
  {
    Check8();
    Digit9();
    Fed(8, 9, WordOf(0x651F_2550), WordOf(0x340B_C6D9));
  }

  /** The checksum of the nine digits is 0xCBF43926. */
  lemma CheckValue()
    ensures Crc32(DIGITS) == WordOf(0xCBF4_3926)
  {
    Check9();
    assert DIGITS[..9] == DIGITS;
    OnesAre();
    XorIs(0x340B_C6D9, 0xFFFF_FFFF);
  }
}
