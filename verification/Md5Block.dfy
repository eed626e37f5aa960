/** The MD5 block function: the unrolled schedule against RFC 1321's, and the
    vector registers that run one state in each lane. */
module Md5Block {
  import opened Bytes
  import opened Md5Spec
  import opened Md5Rounds

  /** One unrolled step: its mix, message word, constant, and the rotate left and right amounts. */
  datatype Row = Row(mix: Mix, index: nat, k: W, s: W, rs: W)

  function Round1(): (rows: seq<Row>)
    ensures |rows| == 16
  {
    [Row(F, 0, 0xD76A_A478, 7, 25), Row(F, 1, 0xE8C7_B756, 12, 20),
     Row(F, 2, 0x2420_70DB, 17, 15), Row(F, 3, 0xC1BD_CEEE, 22, 10),
     Row(F, 4, 0xF57C_0FAF, 7, 25), Row(F, 5, 0x4787_C62A, 12, 20),
     Row(F, 6, 0xA830_4613, 17, 15), Row(F, 7, 0xFD46_9501, 22, 10),
     Row(F, 8, 0x6980_98D8, 7, 25), Row(F, 9, 0x8B44_F7AF, 12, 20),
     Row(F, 10, 0xFFFF_5BB1, 17, 15), Row(F, 11, 0x895C_D7BE, 22, 10),
     Row(F, 12, 0x6B90_1122, 7, 25), Row(F, 13, 0xFD98_7193, 12, 20),
     Row(F, 14, 0xA679_438E, 17, 15), Row(F, 15, 0x49B4_0821, 22, 10)]
  }

  function Round2(): (rows: seq<Row>)
    ensures |rows| == 16
  {
    [Row(G, 1, 0xF61E_2562, 5, 27), Row(G, 6, 0xC040_B340, 9, 23),
     Row(G, 11, 0x265E_5A51, 14, 18), Row(G, 0, 0xE9B6_C7AA, 20, 12),
     Row(G, 5, 0xD62F_105D, 5, 27), Row(G, 10, 0x0244_1453, 9, 23),
     Row(G, 15, 0xD8A1_E681, 14, 18), Row(G, 4, 0xE7D3_FBC8, 20, 12),
     Row(G, 9, 0x21E1_CDE6, 5, 27), Row(G, 14, 0xC337_07D6, 9, 23),
     Row(G, 3, 0xF4D5_0D87, 14, 18), Row(G, 8, 0x455A_14ED, 20, 12),
     Row(G, 13, 0xA9E3_E905, 5, 27), Row(G, 2, 0xFCEF_A3F8, 9, 23),
     Row(G, 7, 0x676F_02D9, 14, 18), Row(G, 12, 0x8D2A_4C8A, 20, 12)]
  }

  function Round3(): (rows: seq<Row>)
    ensures |rows| == 16
  {
    [Row(H, 5, 0xFFFA_3942, 4, 28), Row(H, 8, 0x8771_F681, 11, 21),
     Row(H, 11, 0x6D9D_6122, 16, 16), Row(H, 14, 0xFDE5_380C, 23, 9),
     Row(H, 1, 0xA4BE_EA44, 4, 28), Row(H, 4, 0x4BDE_CFA9, 11, 21),
     Row(H, 7, 0xF6BB_4B60, 16, 16), Row(H, 10, 0xBEBF_BC70, 23, 9),
     Row(H, 13, 0x289B_7EC6, 4, 28), Row(H, 0, 0xEAA1_27FA, 11, 21),
     Row(H, 3, 0xD4EF_3085, 16, 16), Row(H, 6, 0x0488_1D05, 23, 9),
     Row(H, 9, 0xD9D4_D039, 4, 28), Row(H, 12, 0xE6DB_99E5, 11, 21),
     Row(H, 15, 0x1FA2_7CF8, 16, 16), Row(H, 2, 0xC4AC_5665, 23, 9)]
  }

  function Round4(): (rows: seq<Row>)
    ensures |rows| == 16
  {
    [Row(I, 0, 0xF429_2244, 6, 26), Row(I, 7, 0x432A_FF97, 10, 22),
     Row(I, 14, 0xAB94_23A7, 15, 17), Row(I, 5, 0xFC93_A039, 21, 11),
     Row(I, 12, 0x655B_59C3, 6, 26), Row(I, 3, 0x8F0C_CC92, 10, 22),
     Row(I, 10, 0xFFEF_F47D, 15, 17), Row(I, 1, 0x8584_5DD1, 21, 11),
     Row(I, 8, 0x6FA8_7E4F, 6, 26), Row(I, 15, 0xFE2C_E6E0, 10, 22),
     Row(I, 6, 0xA301_4314, 15, 17), Row(I, 13, 0x4E08_11A1, 21, 11),
     Row(I, 4, 0xF753_7E82, 6, 26), Row(I, 11, 0xBD3A_F235, 10, 22),
     Row(I, 2, 0x2AD7_D2BB, 15, 17), Row(I, 9, 0xEB86_D391, 21, 11)]
  }

  function Schedule(i: nat): Row
    requires i < 64
  {
    if i < 16 then Round1()[i] else if i < 32 then Round2()[i - 16] else if i < 48 then Round3()[i - 32]
      else Round4()[i - 48]
  }

  // Section 3.4 of RFC 1321: which function, word and shift step i uses.

  function RfcMix(i: nat): Mix { if i < 16 then F else if i < 32 then G else if i < 48 then H else I }

  function RfcIndex(i: nat): (index: nat)
    ensures index < 16
  {
    if i < 16 then i else if i < 32 then (5 * i + 1) % 16 else if i < 48 then (3 * i + 5) % 16 else 7 * i % 16
  }

  function RfcShift(i: nat): W {
    var j := i % 4;
    if i < 16 then (if j == 0 then 7 else if j == 1 then 12 else if j == 2 then 17 else 22)
    else if i < 32 then (if j == 0 then 5 else if j == 1 then 9 else if j == 2 then 14 else 20)
    else if i < 48 then (if j == 0 then 4 else if j == 1 then 11 else if j == 2 then 16 else 23)
    else (if j == 0 then 6 else if j == 1 then 10 else if j == 2 then 15 else 21)
  }

  // The integer part of 2^32 times the sine of i + 1 radians, its sign dropped.

  function Sines1(): (t: seq<W>)
    ensures |t| == 16
  {
    [0xD76A_A478, 0xE8C7_B756, 0x2420_70DB, 0xC1BD_CEEE,
     0xF57C_0FAF, 0x4787_C62A, 0xA830_4613, 0xFD46_9501,
     0x6980_98D8, 0x8B44_F7AF, 0xFFFF_5BB1, 0x895C_D7BE,
     0x6B90_1122, 0xFD98_7193, 0xA679_438E, 0x49B4_0821]
  }

  function Sines2(): (t: seq<W>)
    ensures |t| == 16
  {
    [0xF61E_2562, 0xC040_B340, 0x265E_5A51, 0xE9B6_C7AA,
     0xD62F_105D, 0x0244_1453, 0xD8A1_E681, 0xE7D3_FBC8,
     0x21E1_CDE6, 0xC337_07D6, 0xF4D5_0D87, 0x455A_14ED,
     0xA9E3_E905, 0xFCEF_A3F8, 0x676F_02D9, 0x8D2A_4C8A]
  }

  function Sines3(): (t: seq<W>)
    ensures |t| == 16
  {
    [0xFFFA_3942, 0x8771_F681, 0x6D9D_6122, 0xFDE5_380C,
     0xA4BE_EA44, 0x4BDE_CFA9, 0xF6BB_4B60, 0xBEBF_BC70,
     0x289B_7EC6, 0xEAA1_27FA, 0xD4EF_3085, 0x0488_1D05,
     0xD9D4_D039, 0xE6DB_99E5, 0x1FA2_7CF8, 0xC4AC_5665]
  }

  function Sines4(): (t: seq<W>)
    ensures |t| == 16
  {
    [0xF429_2244, 0x432A_FF97, 0xAB94_23A7, 0xFC93_A039,
     0x655B_59C3, 0x8F0C_CC92, 0xFFEF_F47D, 0x8584_5DD1,
     0x6FA8_7E4F, 0xFE2C_E6E0, 0xA301_4314, 0x4E08_11A1,
     0xF753_7E82, 0xBD3A_F235, 0x2AD7_D2BB, 0xEB86_D391]
  }

  function RfcConstant(i: nat): W
    requires i < 64
  {
    if i < 16 then Sines1()[i] else if i < 32 then Sines2()[i - 16]
    else if i < 48 then Sines3()[i - 32] else Sines4()[i - 48]
  }

  predicate FollowsRfc(row: Row, i: nat)
    requires i < 64
  {
    row.k == RfcConstant(i) && row.mix == RfcMix(i) && row.index == RfcIndex(i) && row.s == RfcShift(i) &&
      Amount(row.s) && row.rs == 32 - row.s
  }

  lemma Round1FollowsRfc(j: nat)
    requires j < 16
    ensures FollowsRfc(Round1()[j], 0 + j)
  {
    if j < 8 {
      if j < 4 {
        assert j == 0 || j == 1 || j == 2 || j == 3;
      } else {
        assert j == 4 || j == 5 || j == 6 || j == 7;
      }
    } else if j < 12 {
      assert j == 8 || j == 9 || j == 10 || j == 11;
    } else {
      assert j == 12 || j == 13 || j == 14 || j == 15;
    }
  }

  lemma Round2FollowsRfc(j: nat)
    requires j < 16
    ensures FollowsRfc(Round2()[j], 16 + j)
  {
    if j < 8 {
      if j < 4 {
        assert j == 0 || j == 1 || j == 2 || j == 3;
      } else {
        assert j == 4 || j == 5 || j == 6 || j == 7;
      }
    } else if j < 12 {
      assert j == 8 || j == 9 || j == 10 || j == 11;
    } else {
      assert j == 12 || j == 13 || j == 14 || j == 15;
    }
  }

  lemma Round3FollowsRfc(j: nat)
    requires j < 16
    ensures FollowsRfc(Round3()[j], 32 + j)
  {
    if j < 8 {
      if j < 4 {
        assert j == 0 || j == 1 || j == 2 || j == 3;
      } else {
        assert j == 4 || j == 5 || j == 6 || j == 7;
      }
    } else if j < 12 {
      assert j == 8 || j == 9 || j == 10 || j == 11;
    } else {
      assert j == 12 || j == 13 || j == 14 || j == 15;
    }
  }

  lemma Round4FollowsRfc(j: nat)
    requires j < 16
    ensures FollowsRfc(Round4()[j], 48 + j)
  {
    if j < 8 {
      if j < 4 {
        assert j == 0 || j == 1 || j == 2 || j == 3;
      } else {
        assert j == 4 || j == 5 || j == 6 || j == 7;
      }
    } else if j < 12 {
      assert j == 8 || j == 9 || j == 10 || j == 11;
    } else {
      assert j == 12 || j == 13 || j == 14 || j == 15;
    }
  }

  /** The unrolled schedule is the RFC's, step by step. */
  lemma ScheduleFollowsRfc(i: nat)
    requires i < 64
    ensures FollowsRfc(Schedule(i), i)
  {
    if i < 16 {
      Round1FollowsRfc(i);
    } else if i < 32 {
      Round2FollowsRfc(i - 16);
    } else if i < 48 {
      Round3FollowsRfc(i - 32);
    } else {
      Round4FollowsRfc(i - 48);
    }
  }

  // The block function.

  datatype Quad<T> = Quad(a: T, b: T, c: T, d: T)

  type Regs = Quad<W>

  /** The registers as step i names them: it updates a, d, c, b in turn. */
  function Turned<T>(r: Quad<T>, i: nat): Quad<T> {
    if i % 4 == 0 then r else if i % 4 == 1 then Quad(r.d, r.a, r.b, r.c)
    else if i % 4 == 2 then Quad(r.c, r.d, r.a, r.b) else Quad(r.b, r.c, r.d, r.a)
  }

  function Store<T>(r: Quad<T>, i: nat, v: T): Quad<T> {
    if i % 4 == 0 then r.(a := v) else if i % 4 == 1 then r.(d := v)
    else if i % 4 == 2 then r.(c := v) else r.(b := v)
  }

  lemma RowUsable(i: nat)
    requires i < 64
    ensures var row := Schedule(i); row.index < 16 && Amount(row.s) && row.rs == 32 - row.s
  {
    ScheduleFollowsRfc(i);
  }

  lemma RfcAmount(i: nat)
    requires i < 64
    ensures Amount(RfcShift(i))
  {
    ScheduleFollowsRfc(i);
  }

  /** The registers after the first n steps, in the RFC's own form. */
  function RfcRounds(r: Regs, m: seq<W>, n: nat): Regs
    requires |m| == 16 && n <= 64
  {
    if n == 0 then r
    else
      RfcAmount(n - 1);
      var p := RfcRounds(r, m, n - 1);
      var t := Turned(p, n - 1);
      Store(p, n - 1, RfcStep(RfcMix(n - 1), t.a, t.b, t.c, t.d, m[RfcIndex(n - 1)], RfcConstant(n - 1),
                              RfcShift(n - 1)))
  }

  /** ... and as the unrolled schedule runs them on an instruction set. */
  function IsaRounds(isa: Isa, r: Regs, m: seq<W>, n: nat): Regs
    requires |m| == 16 && n <= 64
  {
    if n == 0 then r
    else
      ScheduleFollowsRfc(n - 1);
      var row := Schedule(n - 1);
      Stepped(isa, row, IsaRounds(isa, r, m, n - 1), n - 1, m[row.index])
  }

  function Stepped(isa: Isa, row: Row, p: Regs, i: nat, m: W): Regs
    requires Amount(row.s) && row.rs == 32 - row.s
  {
    var t := Turned(p, i);
    Store(p, i, IsaStep(isa, row.mix, t.a, t.b, t.c, t.d, m, row.k, row.s, row.rs))
  }

  lemma {:induction false} IsaRoundsAreRfc(isa: Isa, r: Regs, m: seq<W>, n: nat)
    requires |m| == 16 && n <= 64
    ensures IsaRounds(isa, r, m, n) == RfcRounds(r, m, n)
  {
    if n > 0 {
      IsaRoundsAreRfc(isa, r, m, n - 1);
      ScheduleFollowsRfc(n - 1);
      var row, t := Schedule(n - 1), Turned(RfcRounds(r, m, n - 1), n - 1);
      StepIsRfc(isa, row.mix, t.a, t.b, t.c, t.d, m[row.index], row.k, row.s, row.rs);
    }
  }

  function AddRegs(x: Regs, y: Regs): Regs { Quad(Plus(x.a, y.a), Plus(x.b, y.b), Plus(x.c, y.c), Plus(x.d, y.d)) }

  /** Four bytes, least significant first. */
  function LoadWord(b: seq<Byte>, at: nat): W
    requires at + 4 <= |b|
  {
    (b[at] as W) | ((b[at + 1] as W) << 8) | ((b[at + 2] as W) << 16) | ((b[at + 3] as W) << 24)
  }

  function BlockWords(b: seq<Byte>): (m: seq<W>)
    requires |b| == 64
    ensures |m| == 16
  {
    seq(16, i requires 0 <= i < 16 => LoadWord(b, 4 * i))
  }

  function RfcCompress(r: Regs, b: seq<Byte>): Regs {
    if |b| == 64 then AddRegs(RfcRounds(r, BlockWords(b), 64), r) else r
  }

  function IsaCompress(isa: Isa, r: Regs, b: seq<Byte>): Regs {
    if |b| == 64 then AddRegs(IsaRounds(isa, r, BlockWords(b), 64), r) else r
  }

  function StoreWord(w: W): seq<Byte> {
    [(w & 0xFF) as Byte, ((w >> 8) & 0xFF) as Byte, ((w >> 16) & 0xFF) as Byte, (w >> 24) as Byte]
  }

  function Output(r: Regs): seq<Byte> { StoreWord(r.a) + StoreWord(r.b) + StoreWord(r.c) + StoreWord(r.d) }

  const INIT: Regs := Quad(0x6745_2301, 0xEFCD_AB89, 0x98BA_DCFE, 0x1032_5476)

  const MD5: Hash<Regs, seq<Byte>> := Hash(INIT, (r, b) => RfcCompress(r, b), r => Output(r))

  function Kernel(isa: Isa): Hash<Regs, seq<Byte>> {
    Hash(INIT, (r, b) => IsaCompress(isa, r, b), r => Output(r))
  }

  lemma CompressIsRfc(isa: Isa, r: Regs, b: seq<Byte>)
    ensures IsaCompress(isa, r, b) == RfcCompress(r, b)
  {
    if |b| == 64 { IsaRoundsAreRfc(isa, r, BlockWords(b), 64); }
  }

  /** Every instruction set computes MD5. */
  lemma KernelIsMd5(isa: Isa, msg: seq<Byte>)
    ensures Digest(Kernel(isa), msg) == Digest(MD5, msg)
  {
    forall r: Regs, b: seq<Byte> ensures Kernel(isa).compress(r, b) == MD5.compress(r, b) {
      CompressIsRfc(isa, r, b);
    }
    FoldedSame(Kernel(isa), MD5, INIT, Padded(msg), |Padded(msg)| / 64);
  }

  // Vector registers: a word of each lane.

  /** unpacklo / zip1 on 32-bit elements, then on pairs of them. */
  function Low<T>(x: seq<T>, y: seq<T>): seq<T>
    requires |x| == |y| == 4
  {
    [x[0], y[0], x[1], y[1]]
  }

  function High<T>(x: seq<T>, y: seq<T>): seq<T>
    requires |x| == |y| == 4
  {
    [x[2], y[2], x[3], y[3]]
  }

  function LowPairs<T>(x: seq<T>, y: seq<T>): seq<T>
    requires |x| == |y| == 4
  {
    [x[0], x[1], y[0], y[1]]
  }

  function HighPairs<T>(x: seq<T>, y: seq<T>): seq<T>
    requires |x| == |y| == 4
  {
    [x[2], x[3], y[2], y[3]]
  }

  /** The four-lane load of four words from each lane. */
  function Load4<T>(r0: seq<T>, r1: seq<T>, r2: seq<T>, r3: seq<T>): seq<seq<T>>
    requires |r0| == |r1| == |r2| == |r3| == 4
  {
    var t0, t1, t2, t3 := Low(r0, r1), High(r0, r1), Low(r2, r3), High(r2, r3);
    [LowPairs(t0, t2), HighPairs(t0, t2), LowPairs(t1, t3), HighPairs(t1, t3)]
  }

  /** Word w of lane l lands in element l of vector w. */
  lemma Load4Transposes<T>(r0: seq<T>, r1: seq<T>, r2: seq<T>, r3: seq<T>, w: nat)
    requires |r0| == |r1| == |r2| == |r3| == 4 && w < 4
    ensures Load4(r0, r1, r2, r3)[w] == [r0[w], r1[w], r2[w], r3[w]]
  {
  }

  /** AVX2 unpacks within each 128-bit half; permute2x128 then joins the low or the high halves. */
  function Load8<T>(r: seq<seq<T>>): seq<seq<T>>
    requires |r| == 8 && forall l :: 0 <= l < 8 ==> |r[l]| == 8
  {
    var low, high := Load4(r[0][..4], r[1][..4], r[2][..4], r[3][..4]),
      Load4(r[0][4..], r[1][4..], r[2][4..], r[3][4..]);
    var low', high' := Load4(r[4][..4], r[5][..4], r[6][..4], r[7][..4]),
      Load4(r[4][4..], r[5][4..], r[6][4..], r[7][4..]);
    [low[0] + low'[0], low[1] + low'[1], low[2] + low'[2], low[3] + low'[3],
     high[0] + high'[0], high[1] + high'[1], high[2] + high'[2], high[3] + high'[3]]
  }

  lemma Load8Transposes<T>(r: seq<seq<T>>, w: nat, l: nat)
    requires |r| == 8 && (forall l :: 0 <= l < 8 ==> |r[l]| == 8) && w < 8 && l < 8
    ensures |Load8(r)[w]| == 8 && Load8(r)[w][l] == r[l][w]
  {
    var v := w % 4;
    Load4Transposes(r[0][..4], r[1][..4], r[2][..4], r[3][..4], v);
    Load4Transposes(r[0][4..], r[1][4..], r[2][4..], r[3][4..], v);
    Load4Transposes(r[4][..4], r[5][..4], r[6][..4], r[7][..4], v);
    Load4Transposes(r[4][4..], r[5][4..], r[6][4..], r[7][4..], v);
  }

  function Lanes(isa: Isa): nat { if isa == Scalar then 1 else if isa == Avx2 then 8 else 4 }

  predicate BlockRows(isa: Isa, rows: seq<seq<W>>) {
    |rows| == Lanes(isa) && forall l :: 0 <= l < |rows| ==> |rows[l]| == 16
  }

  function Group4(rows: seq<seq<W>>, g: nat): (m: seq<seq<W>>)
    ensures |m| == 4
    requires |rows| == 4 && g + 4 <= 16 && forall l :: 0 <= l < 4 ==> |rows[l]| == 16
  {
    Load4(rows[0][g..g + 4], rows[1][g..g + 4], rows[2][g..g + 4], rows[3][g..g + 4])
  }

  function Group8(rows: seq<seq<W>>, g: nat): (m: seq<seq<W>>)
    ensures |m| == 8
    requires |rows| == 8 && g + 8 <= 16 && forall l :: 0 <= l < 8 ==> |rows[l]| == 16
  {
    Load8(seq(8, l requires 0 <= l < 8 => rows[l][g..g + 8]))
  }

  lemma Group4At(rows: seq<seq<W>>, g: nat, w: nat, l: nat)
    requires |rows| == 4 && g + 4 <= 16 && (forall l :: 0 <= l < 4 ==> |rows[l]| == 16) && w < 4 && l < 4
    ensures |Group4(rows, g)[w]| == 4 && Group4(rows, g)[w][l] == rows[l][g + w]
  {
    Load4Transposes(rows[0][g..g + 4], rows[1][g..g + 4], rows[2][g..g + 4], rows[3][g..g + 4], w);
  }

  lemma Group8At(rows: seq<seq<W>>, g: nat, w: nat, l: nat)
    requires |rows| == 8 && g + 8 <= 16 && (forall l :: 0 <= l < 8 ==> |rows[l]| == 16) && w < 8 && l < 8
    ensures |Group8(rows, g)[w]| == 8 && Group8(rows, g)[w][l] == rows[l][g + w]
  {
    var r := seq(8, l requires 0 <= l < 8 => rows[l][g..g + 8]);
    Load8Transposes(r, w, l);
  }

  /** The sixteen message vectors, loaded and transposed a group of words at a time. */
  function LoadBlocks(isa: Isa, rows: seq<seq<W>>): (m: seq<seq<W>>)
    requires BlockRows(isa, rows)
    ensures |m| == 16
  {
    if isa == Scalar then seq(16, w requires 0 <= w < 16 => [rows[0][w]])
    else if isa == Avx2 then Group8(rows, 0) + Group8(rows, 8)
    else Group4(rows, 0) + Group4(rows, 4) + Group4(rows, 8) + Group4(rows, 12)
  }

  lemma LoadNarrow(isa: Isa, rows: seq<seq<W>>, w: nat, l: nat)
    requires BlockRows(isa, rows) && w < 16 && l < Lanes(isa) == 4
    ensures |LoadBlocks(isa, rows)[w]| == 4 && LoadBlocks(isa, rows)[w][l] == rows[l][w]
  {
    if w < 4 { Group4At(rows, 0, w, l); }
    else if w < 8 { Group4At(rows, 4, w - 4, l); }
    else if w < 12 { Group4At(rows, 8, w - 8, l); }
    else { Group4At(rows, 12, w - 12, l); }
  }

  lemma LoadWide(rows: seq<seq<W>>, w: nat, l: nat)
    requires BlockRows(Avx2, rows) && w < 16 && l < 8
    ensures |LoadBlocks(Avx2, rows)[w]| == 8 && LoadBlocks(Avx2, rows)[w][l] == rows[l][w]
  {
    if w < 8 { Group8At(rows, 0, w, l); } else { Group8At(rows, 8, w - 8, l); }
  }

  lemma LoadTransposes(isa: Isa, rows: seq<seq<W>>, w: nat, l: nat)
    requires BlockRows(isa, rows) && w < 16 && l < Lanes(isa)
    ensures |LoadBlocks(isa, rows)[w]| == Lanes(isa) && LoadBlocks(isa, rows)[w][l] == rows[l][w]
  {
    if isa == Avx2 {
      LoadWide(rows, w, l);
    } else if isa != Scalar {
      LoadNarrow(isa, rows, w, l);
    }
  }

  ghost predicate Wide(r: Quad<seq<W>>, n: nat) { |r.a| == |r.b| == |r.c| == |r.d| == n }

  function Lane(r: Quad<seq<W>>, l: nat): Regs
    requires l < |r.a| && l < |r.b| && l < |r.c| && l < |r.d|
  {
    Quad(r.a[l], r.b[l], r.c[l], r.d[l])
  }

  ghost predicate Vectors(m: seq<seq<W>>, lanes: nat) { |m| == 16 && forall w :: 0 <= w < 16 ==> |m[w]| == lanes }

  function LaneWords(m: seq<seq<W>>, l: nat): (s: seq<W>)
    requires |m| == 16 && forall w :: 0 <= w < 16 ==> l < |m[w]|
    ensures |s| == 16
  {
    seq(16, w requires 0 <= w < 16 => m[w][l])
  }

  /** One step on every lane. */
  function VectorStep(isa: Isa, row: Row, t: Quad<seq<W>>, m: seq<W>, lanes: nat): (v: seq<W>)
    requires Wide(t, lanes) && |m| == lanes && Amount(row.s) && row.rs == 32 - row.s
    ensures |v| == lanes
    ensures forall l :: 0 <= l < lanes ==>
            v[l] == IsaStep(isa, row.mix, t.a[l], t.b[l], t.c[l], t.d[l], m[l], row.k, row.s, row.rs)
  {
    seq(lanes, l requires 0 <= l < lanes => IsaStep(isa, row.mix, t.a[l], t.b[l], t.c[l], t.d[l], m[l], row.k, row.s,
                                                    row.rs))
  }

  function VectorRounds(isa: Isa, r: Quad<seq<W>>, m: seq<seq<W>>, lanes: nat, n: nat): (q: Quad<seq<W>>)
    requires Wide(r, lanes) && Vectors(m, lanes) && n <= 64
    ensures Wide(q, lanes)
  {
    if n == 0 then r
    else
      RowUsable(n - 1);
      var row := Schedule(n - 1);
      VectorStepped(isa, row, VectorRounds(isa, r, m, lanes, n - 1), n - 1, m[row.index], lanes)
  }

  function VectorStepped(isa: Isa, row: Row, p: Quad<seq<W>>, i: nat, m: seq<W>, lanes: nat): (q: Quad<seq<W>>)
    requires Wide(p, lanes) && |m| == lanes && Amount(row.s) && row.rs == 32 - row.s
    ensures Wide(q, lanes)
  {
    Store(p, i, VectorStep(isa, row, Turned(p, i), m, lanes))
  }

  lemma VectorSteppedLane(isa: Isa, row: Row, p: Quad<seq<W>>, i: nat, m: seq<W>, lanes: nat, l: nat)
    requires Wide(p, lanes) && |m| == lanes && Amount(row.s) && row.rs == 32 - row.s && l < lanes
    ensures Lane(VectorStepped(isa, row, p, i, m, lanes), l) == Stepped(isa, row, Lane(p, l), i, m[l])
  {
    StoreLane(p, i, VectorStep(isa, row, Turned(p, i), m, lanes), lanes, l);
  }

  lemma StoreLane(p: Quad<seq<W>>, i: nat, v: seq<W>, lanes: nat, l: nat)
    requires Wide(p, lanes) && |v| == lanes && l < lanes
    ensures Wide(Turned(p, i), lanes) && Lane(Turned(p, i), l) == Turned(Lane(p, l), i)
    ensures Wide(Store(p, i, v), lanes) && Lane(Store(p, i, v), l) == Store(Lane(p, l), i, v[l])
  {
  }

  /** One more step of both, on the same row of the schedule. */
  lemma RoundsNext(isa: Isa, r: Quad<seq<W>>, m: seq<seq<W>>, lanes: nat, n: nat, l: nat) returns (row: Row)
    requires Wide(r, lanes) && Vectors(m, lanes) && n < 64 && l < lanes
    ensures row.index < 16 && Amount(row.s) && row.rs == 32 - row.s
    ensures VectorRounds(isa, r, m, lanes, n + 1) == VectorStepped(isa, row, VectorRounds(isa, r, m, lanes, n), n,
                                                                   m[row.index], lanes)
    ensures IsaRounds(isa, Lane(r, l), LaneWords(m, l), n + 1) ==
            Stepped(isa, row, IsaRounds(isa, Lane(r, l), LaneWords(m, l), n), n, m[row.index][l])
  {
    RowUsable(n);
    row := Schedule(n);
    assert LaneWords(m, l)[row.index] == m[row.index][l];
  }

  /** Lanes do not touch each other. */
  lemma {:induction false} VectorRoundsLane(isa: Isa, r: Quad<seq<W>>, m: seq<seq<W>>, lanes: nat, n: nat, l: nat)
    requires Wide(r, lanes) && Vectors(m, lanes) && n <= 64 && l < lanes
    ensures Lane(VectorRounds(isa, r, m, lanes, n), l) == IsaRounds(isa, Lane(r, l), LaneWords(m, l), n)
  {
    if n > 0 {
      VectorRoundsLane(isa, r, m, lanes, n - 1, l);
      var row := RoundsNext(isa, r, m, lanes, n - 1, l);
      VectorSteppedLane(isa, row, VectorRounds(isa, r, m, lanes, n - 1), n - 1, m[row.index], lanes, l);
    }
  }

  /** A loaded vector kernel step in lane l is the scalar rounds on lane l's block. */
  lemma KernelLane(isa: Isa, r: Quad<seq<W>>, blocks: seq<seq<Byte>>, rows: seq<seq<W>>, l: nat)
    requires Wide(r, Lanes(isa)) && |blocks| == |rows| == Lanes(isa) && l < Lanes(isa)
    requires BlockRows(isa, rows) && forall k :: 0 <= k < Lanes(isa) ==>
             |blocks[k]| == 64 && rows[k] == BlockWords(blocks[k])
    ensures Vectors(LoadBlocks(isa, rows), Lanes(isa))
    ensures Lane(VectorRounds(isa, r, LoadBlocks(isa, rows), Lanes(isa), 64), l) ==
            RfcRounds(Lane(r, l), BlockWords(blocks[l]), 64)
  {
    var m := LoadBlocks(isa, rows);
    forall w | 0 <= w < 16 ensures |m[w]| == Lanes(isa) && m[w][l] == rows[l][w] { LoadTransposes(isa, rows, w, l); }
    assert LaneWords(m, l) == rows[l];
    VectorRoundsLane(isa, r, m, Lanes(isa), 64, l);
    IsaRoundsAreRfc(isa, Lane(r, l), BlockWords(blocks[l]), 64);
  }
}
