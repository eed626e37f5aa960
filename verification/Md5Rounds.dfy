/** One step of MD5 as RFC 1321 states it, and the forms each vector
    instruction set computes instead. */
module Md5Rounds {

  type W = bv32

  datatype Isa = Scalar | Neon | Sse2 | Avx2 | Simd128

  datatype Mix = F | G | H | I

  function Plus(x: W, y: W): W { x + y }

  function Minus(x: W, y: W): W { x - y }

  function LessOne(x: W): W { x - 1 }

  function Negated(x: W): W { 0 - x }

  // Section 3.4 of RFC 1321.

  function Auxiliary(mix: Mix, x: W, y: W, z: W): W {
    match mix
    case F => (x & y) | (!x & z)
    case G => (x & z) | (y & !z)
    case H => x ^ y ^ z
    case I => y ^ (x | !z)
  }

  predicate Amount(s: W) { 0 < s < 32 }

  function RotateLeft(v: W, s: W): W
    requires Amount(s)
  {
    (v << s) | (v >> (32 - s))
  }

  /** a = b + ((a + aux(b, c, d) + m + k) <<< s). */
  function RfcStep(mix: Mix, a: W, b: W, c: W, d: W, m: W, k: W, s: W): W
    requires Amount(s)
  {
    Plus(b, RotateLeft(Plus(Plus(Plus(a, Auxiliary(mix, b, c, d)), m), k), s))
  }

  // What the instruction sets compute.

  /** The round constant, with the -1 that the AVX2 form of I leaves over. */
  function Splat(isa: Isa, mix: Mix, k: W): W {
    if isa == Avx2 && mix == I then LessOne(k) else k
  }

  function Select(m: W, x: W, y: W): W { (m & x) | (!m & y) }

  function AndNot(x: W, y: W): W { !x & y }

  /** The auxiliary function of b, c, d in the instruction set's own form. */
  function Mixed(isa: Isa, mix: Mix, b: W, c: W, d: W): W {
    match mix
    case F => if isa == Neon || isa == Simd128 then Select(b, c, d) else if isa == Scalar then (b & c) | (!b & d)
      else ((c ^ d) & b) ^ d
    case G => if isa == Neon || isa == Simd128 then Select(d, b, c) else (d & b) | (!d & c)
    case H => if isa == Scalar then b ^ c ^ d else (c ^ d) ^ b
    case I => if isa == Sse2 then c ^ (b | AndNot(d, 0xFFFF_FFFF)) else c ^ (b | !d)
  }

  /** a with the auxiliary function accumulated: added, except where x86 splits the add or subtracts a complement. */
  function Accumulate(isa: Isa, mix: Mix, a: W, b: W, c: W, d: W): W {
    if (isa == Sse2 || isa == Avx2) && mix == G then Plus(Plus(a, AndNot(d, c)), d & b)
    else if isa == Avx2 && mix == I then Minus(a, c ^ AndNot(b, d))
    else Plus(a, Mixed(isa, mix, b, c, d))
  }

  /** Shift right by n and insert under the top n bits of `into`. */
  function ShiftRightInsert(into: W, v: W, n: W): W
    requires n <= 32
  {
    (into & !(0xFFFF_FFFF >> n)) | (v >> n)
  }

  /** Reverse the two halfwords. */
  function SwapHalves(v: W): W { ((v & 0xFFFF) << 16) | (v >> 16) }

  /** Bytes 2, 3, 0, 1. */
  function ShuffleBytes(v: W): W {
    ((v >> 16) & 0xFF) | (((v >> 24) & 0xFF) << 8) | ((v & 0xFF) << 16) | (((v >> 8) & 0xFF) << 24)
  }

  function Rotl(isa: Isa, v: W, s: W, rs: W): W
    requires Amount(s) && rs == 32 - s
  {
    if isa == Scalar then RotateLeft(v, s)
    else if s == 16 && (isa == Neon || isa == Sse2) then SwapHalves(v)
    else if s == 16 && isa == Avx2 then ShuffleBytes(v)
    else if isa == Neon then ShiftRightInsert(v << s, v, rs)
    else (v << s) | (v >> rs)
  }

  function IsaStep(isa: Isa, mix: Mix, a: W, b: W, c: W, d: W, m: W, k: W, s: W, rs: W): W
    requires Amount(s) && rs == 32 - s
  {
    Plus(b, Rotl(isa, Accumulate(isa, mix, Plus(a, Plus(Splat(isa, mix, k), m)), b, c, d), s, rs))
  }

  // The auxiliary functions.

  lemma XorSelect(b: W, c: W, d: W)
    ensures ((c ^ d) & b) ^ d == (b & c) | (!b & d)
  {
  }

  lemma SelectG(b: W, c: W, d: W)
    ensures (d & b) | (!d & c) == (b & d) | (c & !d)
  {
  }

  lemma XorOrder(b: W, c: W, d: W)
    ensures (c ^ d) ^ b == b ^ c ^ d
  {
  }

  lemma AllOnes(b: W, c: W, d: W)
    ensures c ^ (b | AndNot(d, 0xFFFF_FFFF)) == c ^ (b | !d)
  {
  }

  lemma MixedF(isa: Isa, b: W, c: W, d: W)
    ensures Mixed(isa, F, b, c, d) == Auxiliary(F, b, c, d)
  {
    XorSelect(b, c, d);
  }

  lemma MixedG(isa: Isa, b: W, c: W, d: W)
    ensures Mixed(isa, G, b, c, d) == Auxiliary(G, b, c, d)
  {
    SelectG(b, c, d);
  }

  lemma MixedH(isa: Isa, b: W, c: W, d: W)
    ensures Mixed(isa, H, b, c, d) == Auxiliary(H, b, c, d)
  {
    XorOrder(b, c, d);
  }

  lemma MixedI(isa: Isa, b: W, c: W, d: W)
    ensures Mixed(isa, I, b, c, d) == Auxiliary(I, b, c, d)
  {
    AllOnes(b, c, d);
  }

  lemma MixedIsAuxiliary(isa: Isa, mix: Mix, b: W, c: W, d: W)
    ensures Mixed(isa, mix, b, c, d) == Auxiliary(mix, b, c, d)
  {
    match mix
    case F => MixedF(isa, b, c, d);
    case G => MixedG(isa, b, c, d);
    case H => MixedH(isa, b, c, d);
    case I => MixedI(isa, b, c, d);
  }

  // The sums.

  /** Terms with no bit in common add as they or. */
  lemma DisjointAdd(b: W, c: W, d: W)
    ensures AndNot(d, c) + (d & b) == Auxiliary(G, b, c, d)
  {
  }

  /** ~y is -y - 1. */
  lemma Complement(b: W, c: W, d: W)
    ensures Auxiliary(I, b, c, d) == LessOne(Negated(c ^ AndNot(b, d)))
  {
    ComplementOut(b, c, d);
    MinusComplement(c ^ (b | !d), c ^ AndNot(b, d));
  }

  lemma ComplementOut(b: W, c: W, d: W)
    ensures c ^ (b | !d) == !(c ^ AndNot(b, d))
  {
  }

  lemma MinusComplement(x: W, y: W)
    requires x == !y
    ensures x == LessOne(Negated(y))
  {
    assert !y == (0 - y) - 1;
    assert LessOne(0 - y) == (0 - y) - 1;
  }

  lemma PlusOrder(a: W, k: W, m: W, x: W)
    ensures Plus(Plus(a, Plus(k, m)), x) == Plus(Plus(Plus(a, x), m), k)
  {
    assert Plus(a, k + m) == a + (k + m);
    assert Plus((a + x), m) == (a + x) + m;
    assert Plus(a + (k + m), x) == Plus((a + x) + m, k);
  }

  lemma PlusSplit(t: W, p: W, q: W, x: W)
    requires x == p + q
    ensures Plus(Plus(t, p), q) == Plus(t, x)
  {
    assert Plus(t + p, q) == Plus(t, p + q);
  }

  lemma PlusLessOne(a: W, k: W, m: W)
    ensures Plus(a, Plus(LessOne(k), m)) == LessOne(Plus(a, Plus(k, m)))
  {
    assert Plus(k - 1, m) == (k - 1) + m;
    assert Plus(a, k + m) == a + (k + m);
    assert Plus(a, (k - 1) + m) == LessOne(a + (k + m));
  }

  lemma LessOneMinus(t: W, y: W)
    ensures Minus(LessOne(t), y) == Plus(t, LessOne(Negated(y)))
  {
    MinusAsPlus(t, y);
    LessOneNegated(y);
  }

  lemma MinusAsPlus(t: W, y: W)
    ensures Minus(t - 1, y) == Plus(t, (0 - y) - 1)
  {
  }

  lemma LessOneNegated(y: W)
    ensures LessOne(Negated(y)) == (0 - y) - 1
  {
    assert LessOne(0 - y) == (0 - y) - 1;
  }

  lemma PlusComplement(a: W, k: W, m: W, y: W)
    ensures Minus(Plus(a, Plus(LessOne(k), m)), y) == Plus(Plus(a, Plus(k, m)), LessOne(Negated(y)))
  {
    PlusLessOne(a, k, m);
    LessOneMinus(Plus(a, Plus(k, m)), y);
  }

  lemma SumSplit(isa: Isa, t: W, b: W, c: W, d: W)
    requires isa == Sse2 || isa == Avx2
    ensures Accumulate(isa, G, t, b, c, d) == Plus(t, Auxiliary(G, b, c, d))
  {
    DisjointAdd(b, c, d);
    PlusSplit(t, AndNot(d, c), d & b, Auxiliary(G, b, c, d));
  }

  lemma SumComplement(a: W, b: W, c: W, d: W, m: W, k: W)
    ensures Accumulate(Avx2, I, Plus(a, Plus(Splat(Avx2, I, k), m)), b, c, d) ==
            Plus(Plus(a, Plus(k, m)), Auxiliary(I, b, c, d))
  {
    Complement(b, c, d);
    PlusComplement(a, k, m, c ^ AndNot(b, d));
  }

  lemma SumMixed(isa: Isa, mix: Mix, t: W, b: W, c: W, d: W)
    requires !((isa == Sse2 || isa == Avx2) && mix == G) && !(isa == Avx2 && mix == I)
    ensures Accumulate(isa, mix, t, b, c, d) == Plus(t, Auxiliary(mix, b, c, d))
  {
    MixedIsAuxiliary(isa, mix, b, c, d);
  }

  /** Whatever form it takes, the sum before the rotate is the RFC's. */
  lemma AccumulateIsSum(isa: Isa, mix: Mix, a: W, b: W, c: W, d: W, m: W, k: W)
    ensures Accumulate(isa, mix, Plus(a, Plus(Splat(isa, mix, k), m)), b, c, d) ==
            Plus(Plus(Plus(a, Auxiliary(mix, b, c, d)), m), k)
  {
    PlusOrder(a, k, m, Auxiliary(mix, b, c, d));
    if isa == Avx2 && mix == I {
      SumComplement(a, b, c, d, m, k);
    } else {
      var t := Plus(a, Plus(k, m));
      if (isa == Sse2 || isa == Avx2) && mix == G {
        SumSplit(isa, t, b, c, d);
      } else {
        SumMixed(isa, mix, t, b, c, d);
      }
    }
  }

  // The rotates.

  lemma InsertOver(v: W, s: W)
    requires Amount(s)
    ensures ((v << s) & !(0xFFFF_FFFF >> (32 - s))) | (v >> (32 - s)) == (v << s) | (v >> (32 - s))
  {
  }

  lemma InsertRotates(v: W, s: W)
    requires Amount(s)
    ensures ShiftRightInsert(v << s, v, 32 - s) == RotateLeft(v, s)
  {
    InsertOver(v, s);
  }

  lemma SwapRotates(v: W)
    ensures SwapHalves(v) == RotateLeft(v, 16) && ShuffleBytes(v) == RotateLeft(v, 16)
  {
  }

  lemma RotlIsRotate(isa: Isa, v: W, s: W, rs: W)
    requires Amount(s) && rs == 32 - s
    ensures Rotl(isa, v, s, rs) == RotateLeft(v, s)
  {
    if isa != Scalar && s == 16 { SwapRotates(v); }
    if isa == Neon { InsertRotates(v, s); }
  }

  /** Every instruction set's step is the RFC's, for all state words, message words and constants. */
  lemma StepIsRfc(isa: Isa, mix: Mix, a: W, b: W, c: W, d: W, m: W, k: W, s: W, rs: W)
    requires Amount(s) && rs == 32 - s
    ensures IsaStep(isa, mix, a, b, c, d, m, k, s, rs) == RfcStep(mix, a, b, c, d, m, k, s)
  {
    AccumulateIsSum(isa, mix, a, b, c, d, m, k);
    RotlIsRotate(isa, Plus(Plus(Plus(a, Auxiliary(mix, b, c, d)), m), k), s, rs);
  }
}
