/** What the MD5 model computes, in numbers: byte order of words and lengths, the starting
    registers, and a digest of the RFC's own test suite. */
module Md5Values {
  import Arithmetic
  import opened Bytes
  import opened Md5Spec
  import opened Md5Rounds
  import opened Md5Block

  // Byte order.

  function Power256(i: nat): (p: nat)
    ensures p > 0
  {
    if i == 0 then 1 else 256 * Power256(i - 1)
  }

  lemma DivideTwice(n: nat, p: nat)
    requires p > 0
    ensures n / 256 / p == n / (256 * p)
  {
    var q, r := n / 256 / p, n / 256 % p;
    assert n / 256 == q * p + r;
    var s := n % 256;
    assert n == 256 * (q * p + r) + s == q * (256 * p) + (256 * r + s);
    assert 256 * r + s < 256 * p;
    Arithmetic.Quotient(n, 256 * p, q);
  }

  lemma Undivided(n: nat)
    ensures n / Power256(0) == n
  {
  }

  lemma {:induction false} LittleEndianAt(n: nat, k: nat, i: nat)
    requires i < k
    ensures LittleEndian(n, k)[i] == (n / Power256(i) % 256) as Byte
  {
    if i == 0 {
      assert LittleEndian(n, k)[0] == (n % 256) as Byte;
      Undivided(n);
    } else {
      assert LittleEndian(n, k)[i] == LittleEndian(n / 256, k - 1)[i - 1];
      LittleEndianAt(n / 256, k - 1, i - 1);
      DivideTwice(n, Power256(i - 1));
    }
  }

  /** The last eight bytes of a padded message are its length in bits, least significant first. */
  lemma LengthBytes(msg: seq<Byte>, i: nat)
    requires i < 8
    ensures Padded(msg)[|Padded(msg)| - 8 + i] == (8 * |msg| % WRAP / Power256(i) % 256) as Byte
  {
    LittleEndianAt(8 * |msg| % WRAP, 8, i);
  }

  /** What comes before it: the message, a one bit, and zeros. */
  lemma PaddingBytes(msg: seq<Byte>, j: nat)
    requires j < |Padded(msg)| - 8
    ensures Padded(msg)[j] == if j < |msg| then msg[j] else if j == |msg| then 0x80 else 0
  {
  }

  /** A word read from four bytes has the first as its least significant. */
  lemma LoadWordValue(b: seq<Byte>, at: nat)
    requires at + 4 <= |b|
    ensures LoadWord(b, at) as nat ==
            b[at] as nat + 256 * (b[at + 1] as nat) + 65536 * (b[at + 2] as nat) + 16777216 * (b[at + 3] as nat)
  {
    FourBytes(b[at], b[at + 1], b[at + 2], b[at + 3]);
  }

  lemma FourBytes(a: Byte, b: Byte, c: Byte, d: Byte)
    ensures ((a as W) | ((b as W) << 8) | ((c as W) << 16) | ((d as W) << 24)) as nat ==
            a as nat + 256 * (b as nat) + 65536 * (c as nat) + 16777216 * (d as nat)
  {
  }

  /** A word is written so that reading it gives it back. */
  lemma StoreWordValue(w: W)
    ensures |StoreWord(w)| == 4 && LoadWord(StoreWord(w), 0) == w
  {
    Rejoined(w);
  }

  lemma Rejoined(w: W)
    ensures (((w & 0xFF) as Byte) as W) | (((((w >> 8) & 0xFF) as Byte) as W) << 8) |
            (((((w >> 16) & 0xFF) as Byte) as W) << 16) | ((((w >> 24) as Byte) as W) << 24) == w
  {
  }

  /** Section 3.3 of RFC 1321: the registers begin as 01 23 45 67, 89 ab cd ef and so on, low byte first. */
  lemma InitBytes()
    ensures Output(INIT) ==
            [0x01, 0x23, 0x45, 0x67, 0x89, 0xAB, 0xCD, 0xEF, 0xFE, 0xDC, 0xBA, 0x98, 0x76, 0x54, 0x32, 0x10]
  {
  }

  // Four steps at a time. What a step computes is drawn on only where a proof asks for it with Shown.

  ghost predicate Shown(n: nat) { true }

  /** Step i makes x of the registers as it names them. */
  ghost predicate StepMakes(m: seq<W>, i: nat, a: W, b: W, c: W, d: W, x: W)
    requires |m| == 16 && i < 64
  {
    RfcAmount(i);
    forall z: nat {:trigger Shown(z)} :: Shown(z) ==>
      x == RfcStep(RfcMix(i), a, b, c, d, m[RfcIndex(i)], RfcConstant(i), RfcShift(i))
  }

  /** The registers are p after n steps. */
  ghost predicate After(r: Regs, m: seq<W>, n: nat, p: Regs)
    requires |m| == 16 && n <= 64
  {
    forall z: nat {:trigger Shown(z)} :: Shown(z) ==> RfcRounds(r, m, n) == p
  }

  lemma OneStep(r: Regs, m: seq<W>, i: nat, p: Regs, t: Regs, x: W)
    requires |m| == 16 && i < 64 && After(r, m, i, p) && t == Turned(p, i) && StepMakes(m, i, t.a, t.b, t.c, t.d, x)
    ensures After(r, m, i + 1, Store(p, i, x))
  {
    assert Shown(i);
  }

  /** Section 3.4's pattern [ABCD] [DABC] [CDAB] [BCDA]: each register is overwritten once. */
  lemma FourSteps(r: Regs, m: seq<W>, n: nat, p: Regs, x0: W, x1: W, x2: W, x3: W)
    requires |m| == 16 && n % 4 == 0 && n + 4 <= 64 && After(r, m, n, p)
    requires StepMakes(m, n, p.a, p.b, p.c, p.d, x0) && StepMakes(m, n + 1, p.d, x0, p.b, p.c, x1)
    requires StepMakes(m, n + 2, p.c, x1, x0, p.b, x2) && StepMakes(m, n + 3, p.b, x2, x1, x0, x3)
    ensures After(r, m, n + 4, Quad(x0, x3, x2, x1))
  {
    TurnsFour(n, p, x0, x1, x2, x3);
    var q := p.(a := x0);
    OneStep(r, m, n, p, p, x0);
    OneStep(r, m, n + 1, q, Quad(p.d, x0, p.b, p.c), x1);
    OneStep(r, m, n + 2, q.(d := x1), Quad(p.c, x1, x0, p.b), x2);
    OneStep(r, m, n + 3, q.(d := x1, c := x2), Quad(p.b, x2, x1, x0), x3);
  }

  lemma TurnsFour<T>(n: nat, p: Quad<T>, x0: T, x1: T, x2: T, x3: T)
    requires n % 4 == 0
    ensures var q := p.(a := x0);
            && Turned(p, n) == p && Store(p, n, x0) == q
            && Turned(q, n + 1) == Quad(p.d, x0, p.b, p.c) && Store(q, n + 1, x1) == q.(d := x1)
            && Turned(q.(d := x1), n + 2) == Quad(p.c, x1, x0, p.b)
            && Store(q.(d := x1), n + 2, x2) == q.(d := x1, c := x2)
            && Turned(q.(d := x1, c := x2), n + 3) == Quad(p.b, x2, x1, x0)
            && Store(q.(d := x1, c := x2), n + 3, x3) == Quad(x0, x3, x2, x1)
  {
  }

  // Section A.5 of RFC 1321: MD5 ("abc") = 900150983cd24fb0d6963f7d28e17f72.

  const ABC: seq<Byte> := [0x61, 0x62, 0x63]

  function AbcWord(j: nat): W { if j == 0 then 0x8063_6261 else if j == 14 then 0x18 else 0 }

  function AbcWords(): (m: seq<W>)
    ensures |m| == 16 && forall j :: 0 <= j < 16 ==> m[j] == AbcWord(j)
  {
    seq(16, j requires 0 <= j < 16 => AbcWord(j))
  }

  /** Step i's function, message word, constant and shift. */
  ghost predicate Uses(i: nat, mix: Mix, w: W, k: W, s: W)
    requires i < 64
  {
    forall z: nat {:trigger Shown(z)} :: Shown(z) ==>
      RfcMix(i) == mix && AbcWord(RfcIndex(i)) == w && RfcConstant(i) == k && RfcShift(i) == s
  }

  lemma Makes(i: nat, mix: Mix, a: W, b: W, c: W, d: W, w: W, k: W, s: W, x: W)
    requires i < 64 && Uses(i, mix, w, k, s) && Amount(s) && RfcStep(mix, a, b, c, d, w, k, s) == x
    ensures StepMakes(AbcWords(), i, a, b, c, d, x)
  {
    assert Shown(i);
  }

  ghost predicate AbcAfter(n: nat, a: W, b: W, c: W, d: W)
    requires n <= 64
  {
    After(INIT, AbcWords(), n, Quad(a, b, c, d))
  }

  lemma AbcUses00()
    ensures Uses(0, F, 0x8063_6261, 0xD76A_A478, 7)
    ensures Uses(1, F, 0, 0xE8C7_B756, 12)
  {
  }

  lemma AbcUses02()
    ensures Uses(2, F, 0, 0x2420_70DB, 17)
    ensures Uses(3, F, 0, 0xC1BD_CEEE, 22)
  {
  }

  lemma AbcUses04()
    ensures Uses(4, F, 0, 0xF57C_0FAF, 7)
    ensures Uses(5, F, 0, 0x4787_C62A, 12)
  {
  }

  lemma AbcUses06()
    ensures Uses(6, F, 0, 0xA830_4613, 17)
    ensures Uses(7, F, 0, 0xFD46_9501, 22)
  {
  }

  lemma AbcUses08()
    ensures Uses(8, F, 0, 0x6980_98D8, 7)
    ensures Uses(9, F, 0, 0x8B44_F7AF, 12)
  {
  }

  lemma AbcUses10()
    ensures Uses(10, F, 0, 0xFFFF_5BB1, 17)
    ensures Uses(11, F, 0, 0x895C_D7BE, 22)
  {
  }

  lemma AbcUses12()
    ensures Uses(12, F, 0, 0x6B90_1122, 7)
    ensures Uses(13, F, 0, 0xFD98_7193, 12)
  {
  }

  lemma AbcUses14()
    ensures Uses(14, F, 0x18, 0xA679_438E, 17)
    ensures Uses(15, F, 0, 0x49B4_0821, 22)
  {
  }

  lemma AbcUses16()
    ensures Uses(16, G, 0, 0xF61E_2562, 5)
    ensures Uses(17, G, 0, 0xC040_B340, 9)
  {
  }

  lemma AbcUses18()
    ensures Uses(18, G, 0, 0x265E_5A51, 14)
    ensures Uses(19, G, 0x8063_6261, 0xE9B6_C7AA, 20)
  {
  }

  lemma AbcUses20()
    ensures Uses(20, G, 0, 0xD62F_105D, 5)
    ensures Uses(21, G, 0, 0x0244_1453, 9)
  {
  }

  lemma AbcUses22()
    ensures Uses(22, G, 0, 0xD8A1_E681, 14)
    ensures Uses(23, G, 0, 0xE7D3_FBC8, 20)
  {
  }

  lemma AbcUses24()
    ensures Uses(24, G, 0, 0x21E1_CDE6, 5)
    ensures Uses(25, G, 0x18, 0xC337_07D6, 9)
  {
  }

  lemma AbcUses26()
    ensures Uses(26, G, 0, 0xF4D5_0D87, 14)
    ensures Uses(27, G, 0, 0x455A_14ED, 20)
  {
  }

  lemma AbcUses28()
    ensures Uses(28, G, 0, 0xA9E3_E905, 5)
    ensures Uses(29, G, 0, 0xFCEF_A3F8, 9)
  {
  }

  lemma AbcUses30()
    ensures Uses(30, G, 0, 0x676F_02D9, 14)
    ensures Uses(31, G, 0, 0x8D2A_4C8A, 20)
  {
  }

  lemma AbcUses32()
    ensures Uses(32, H, 0, 0xFFFA_3942, 4)
    ensures Uses(33, H, 0, 0x8771_F681, 11)
  {
  }

  lemma AbcUses34()
    ensures Uses(34, H, 0, 0x6D9D_6122, 16)
    ensures Uses(35, H, 0x18, 0xFDE5_380C, 23)
  {
  }

  lemma AbcUses36()
    ensures Uses(36, H, 0, 0xA4BE_EA44, 4)
    ensures Uses(37, H, 0, 0x4BDE_CFA9, 11)
  {
  }

  lemma AbcUses38()
    ensures Uses(38, H, 0, 0xF6BB_4B60, 16)
    ensures Uses(39, H, 0, 0xBEBF_BC70, 23)
  {
  }

  lemma AbcUses40()
    ensures Uses(40, H, 0, 0x289B_7EC6, 4)
    ensures Uses(41, H, 0x8063_6261, 0xEAA1_27FA, 11)
  {
  }

  lemma AbcUses42()
    ensures Uses(42, H, 0, 0xD4EF_3085, 16)
    ensures Uses(43, H, 0, 0x0488_1D05, 23)
  {
  }

  lemma AbcUses44()
    ensures Uses(44, H, 0, 0xD9D4_D039, 4)
    ensures Uses(45, H, 0, 0xE6DB_99E5, 11)
  {
  }

  lemma AbcUses46()
    ensures Uses(46, H, 0, 0x1FA2_7CF8, 16)
    ensures Uses(47, H, 0, 0xC4AC_5665, 23)
  {
  }

  lemma AbcUses48()
    ensures Uses(48, I, 0x8063_6261, 0xF429_2244, 6)
    ensures Uses(49, I, 0, 0x432A_FF97, 10)
  {
  }

  lemma AbcUses50()
    ensures Uses(50, I, 0x18, 0xAB94_23A7, 15)
    ensures Uses(51, I, 0, 0xFC93_A039, 21)
  {
  }

  lemma AbcUses52()
    ensures Uses(52, I, 0, 0x655B_59C3, 6)
    ensures Uses(53, I, 0, 0x8F0C_CC92, 10)
  {
  }

  lemma AbcUses54()
    ensures Uses(54, I, 0, 0xFFEF_F47D, 15)
    ensures Uses(55, I, 0, 0x8584_5DD1, 21)
  {
  }

  lemma AbcUses56()
    ensures Uses(56, I, 0, 0x6FA8_7E4F, 6)
    ensures Uses(57, I, 0, 0xFE2C_E6E0, 10)
  {
  }

  lemma AbcUses58()
    ensures Uses(58, I, 0, 0xA301_4314, 15)
    ensures Uses(59, I, 0, 0x4E08_11A1, 21)
  {
  }

  lemma AbcUses60()
    ensures Uses(60, I, 0, 0xF753_7E82, 6)
    ensures Uses(61, I, 0, 0xBD3A_F235, 10)
  {
  }

  lemma AbcUses62()
    ensures Uses(62, I, 0, 0x2AD7_D2BB, 15)
    ensures Uses(63, I, 0, 0xEB86_D391, 21)
  {
  }

  lemma Abc04()
    ensures AbcAfter(4, 0xD6D1_17B4, 0x7AD9_56F2, 0x2F6F_BD72, 0x344A_8432)
  {
    AbcUses00();
    AbcUses02();
    Makes(0, F, 0x6745_2301, 0xEFCD_AB89, 0x98BA_DCFE, 0x1032_5476, 0x8063_6261, 0xD76A_A478, 7, 0xD6D1_17B4);
    Makes(1, F, 0x1032_5476, 0xD6D1_17B4, 0xEFCD_AB89, 0x98BA_DCFE, 0, 0xE8C7_B756, 12, 0x344A_8432);
    Makes(2, F, 0x98BA_DCFE, 0x344A_8432, 0xD6D1_17B4, 0xEFCD_AB89, 0, 0x2420_70DB, 17, 0x2F6F_BD72);
    Makes(3, F, 0xEFCD_AB89, 0x2F6F_BD72, 0x344A_8432, 0xD6D1_17B4, 0, 0xC1BD_CEEE, 22, 0x7AD9_56F2);
    FourSteps(INIT, AbcWords(), 0, Quad(0x6745_2301, 0xEFCD_AB89, 0x98BA_DCFE, 0x1032_5476),
              0xD6D1_17B4, 0x344A_8432, 0x2F6F_BD72, 0x7AD9_56F2);
  }

  lemma Abc08()
    ensures AbcAfter(8, 0xC737_41EF, 0x928D_99F6, 0x207D_C67B, 0x8BAC_3051)
  {
    Abc04();
    AbcUses04();
    AbcUses06();
    Makes(4, F, 0xD6D1_17B4, 0x7AD9_56F2, 0x2F6F_BD72, 0x344A_8432, 0, 0xF57C_0FAF, 7, 0xC737_41EF);
    Makes(5, F, 0x344A_8432, 0xC737_41EF, 0x7AD9_56F2, 0x2F6F_BD72, 0, 0x4787_C62A, 12, 0x8BAC_3051);
    Makes(6, F, 0x2F6F_BD72, 0x8BAC_3051, 0xC737_41EF, 0x7AD9_56F2, 0, 0xA830_4613, 17, 0x207D_C67B);
    Makes(7, F, 0x7AD9_56F2, 0x207D_C67B, 0x8BAC_3051, 0xC737_41EF, 0, 0xFD46_9501, 22, 0x928D_99F6);
    FourSteps(INIT, AbcWords(), 4, Quad(0xD6D1_17B4, 0x7AD9_56F2, 0x2F6F_BD72, 0x344A_8432),
              0xC737_41EF, 0x8BAC_3051, 0x207D_C67B, 0x928D_99F6);
  }

  lemma Abc12()
    ensures AbcAfter(12, 0x854B_3712, 0x5ED4_9596, 0x3020_401C, 0x74E2_F284)
  {
    Abc08();
    AbcUses08();
    AbcUses10();
    Makes(8, F, 0xC737_41EF, 0x928D_99F6, 0x207D_C67B, 0x8BAC_3051, 0, 0x6980_98D8, 7, 0x854B_3712);
    Makes(9, F, 0x8BAC_3051, 0x854B_3712, 0x928D_99F6, 0x207D_C67B, 0, 0x8B44_F7AF, 12, 0x74E2_F284);
    Makes(10, F, 0x207D_C67B, 0x74E2_F284, 0x854B_3712, 0x928D_99F6, 0, 0xFFFF_5BB1, 17, 0x3020_401C);
    Makes(11, F, 0x928D_99F6, 0x3020_401C, 0x74E2_F284, 0x854B_3712, 0, 0x895C_D7BE, 22, 0x5ED4_9596);
    FourSteps(INIT, AbcWords(), 8, Quad(0xC737_41EF, 0x928D_99F6, 0x207D_C67B, 0x8BAC_3051),
              0x854B_3712, 0x74E2_F284, 0x3020_401C, 0x5ED4_9596);
  }

  lemma Abc16()
    ensures AbcAfter(16, 0xDDA9_B9A6, 0x72AF_F2E0, 0xE396_856B, 0xA105_1895)
  {
    Abc12();
    AbcUses12();
    AbcUses14();
    Makes(12, F, 0x854B_3712, 0x5ED4_9596, 0x3020_401C, 0x74E2_F284, 0, 0x6B90_1122, 7, 0xDDA9_B9A6);
    Makes(13, F, 0x74E2_F284, 0xDDA9_B9A6, 0x5ED4_9596, 0x3020_401C, 0, 0xFD98_7193, 12, 0xA105_1895);
    Makes(14, F, 0x3020_401C, 0xA105_1895, 0xDDA9_B9A6, 0x5ED4_9596, 0x18, 0xA679_438E, 17, 0xE396_856B);
    Makes(15, F, 0x5ED4_9596, 0xE396_856B, 0xA105_1895, 0xDDA9_B9A6, 0, 0x49B4_0821, 22, 0x72AF_F2E0);
    FourSteps(INIT, AbcWords(), 12, Quad(0x854B_3712, 0x5ED4_9596, 0x3020_401C, 0x74E2_F284),
              0xDDA9_B9A6, 0xA105_1895, 0xE396_856B, 0x72AF_F2E0);
  }

  lemma Abc20()
    ensures AbcAfter(20, 0x3E9E_9126, 0xB5B2_04E4, 0xE25E_1652, 0x4A1D_804E)
  {
    Abc16();
    AbcUses16();
    AbcUses18();
    Makes(16, G, 0xDDA9_B9A6, 0x72AF_F2E0, 0xE396_856B, 0xA105_1895, 0, 0xF61E_2562, 5, 0x3E9E_9126);
    Makes(17, G, 0xA105_1895, 0x3E9E_9126, 0x72AF_F2E0, 0xE396_856B, 0, 0xC040_B340, 9, 0x4A1D_804E);
    Makes(18, G, 0xE396_856B, 0x4A1D_804E, 0x3E9E_9126, 0x72AF_F2E0, 0, 0x265E_5A51, 14, 0xE25E_1652);
    Makes(19, G, 0x72AF_F2E0, 0xE25E_1652, 0x4A1D_804E, 0x3E9E_9126, 0x8063_6261, 0xE9B6_C7AA, 20, 0xB5B2_04E4);
    FourSteps(INIT, AbcWords(), 16, Quad(0xDDA9_B9A6, 0x72AF_F2E0, 0xE396_856B, 0xA105_1895),
              0x3E9E_9126, 0x4A1D_804E, 0xE25E_1652, 0xB5B2_04E4);
  }

  lemma Abc24()
    ensures AbcAfter(24, 0x59A8_FFDA, 0x4709_2C07, 0xABFC_7920, 0x6D00_2F1E)
  {
    Abc20();
    AbcUses20();
    AbcUses22();
    Makes(20, G, 0x3E9E_9126, 0xB5B2_04E4, 0xE25E_1652, 0x4A1D_804E, 0, 0xD62F_105D, 5, 0x59A8_FFDA);
    Makes(21, G, 0x4A1D_804E, 0x59A8_FFDA, 0xB5B2_04E4, 0xE25E_1652, 0, 0x0244_1453, 9, 0x6D00_2F1E);
    Makes(22, G, 0xE25E_1652, 0x6D00_2F1E, 0x59A8_FFDA, 0xB5B2_04E4, 0, 0xD8A1_E681, 14, 0xABFC_7920);
    Makes(23, G, 0xB5B2_04E4, 0xABFC_7920, 0x6D00_2F1E, 0x59A8_FFDA, 0, 0xE7D3_FBC8, 20, 0x4709_2C07);
    FourSteps(INIT, AbcWords(), 20, Quad(0x3E9E_9126, 0xB5B2_04E4, 0xE25E_1652, 0x4A1D_804E),
              0x59A8_FFDA, 0x6D00_2F1E, 0xABFC_7920, 0x4709_2C07);
  }

  lemma Abc28()
    ensures AbcAfter(28, 0xB7F2_68CF, 0x786A_CB8F, 0xFE16_23B1, 0x0938_8EFF)
  {
    Abc24();
    AbcUses24();
    AbcUses26();
    Makes(24, G, 0x59A8_FFDA, 0x4709_2C07, 0xABFC_7920, 0x6D00_2F1E, 0, 0x21E1_CDE6, 5, 0xB7F2_68CF);
    Makes(25, G, 0x6D00_2F1E, 0xB7F2_68CF, 0x4709_2C07, 0xABFC_7920, 0x18, 0xC337_07D6, 9, 0x0938_8EFF);
    Makes(26, G, 0xABFC_7920, 0x0938_8EFF, 0xB7F2_68CF, 0x4709_2C07, 0, 0xF4D5_0D87, 14, 0xFE16_23B1);
    Makes(27, G, 0x4709_2C07, 0xFE16_23B1, 0x0938_8EFF, 0xB7F2_68CF, 0, 0x455A_14ED, 20, 0x786A_CB8F);
    FourSteps(INIT, AbcWords(), 24, Quad(0x59A8_FFDA, 0x4709_2C07, 0xABFC_7920, 0x6D00_2F1E),
              0xB7F2_68CF, 0x0938_8EFF, 0xFE16_23B1, 0x786A_CB8F);
  }

  lemma Abc32()
    ensures AbcAfter(32, 0x790A_77FB, 0x7263_42D3, 0xA628_84AA, 0x9F47_E4F8)
  {
    Abc28();
    AbcUses28();
    AbcUses30();
    Makes(28, G, 0xB7F2_68CF, 0x786A_CB8F, 0xFE16_23B1, 0x0938_8EFF, 0, 0xA9E3_E905, 5, 0x790A_77FB);
    Makes(29, G, 0x0938_8EFF, 0x790A_77FB, 0x786A_CB8F, 0xFE16_23B1, 0, 0xFCEF_A3F8, 9, 0x9F47_E4F8);
    Makes(30, G, 0xFE16_23B1, 0x9F47_E4F8, 0x790A_77FB, 0x786A_CB8F, 0, 0x676F_02D9, 14, 0xA628_84AA);
    Makes(31, G, 0x786A_CB8F, 0xA628_84AA, 0x9F47_E4F8, 0x790A_77FB, 0, 0x8D2A_4C8A, 20, 0x7263_42D3);
    FourSteps(INIT, AbcWords(), 28, Quad(0xB7F2_68CF, 0x786A_CB8F, 0xFE16_23B1, 0x0938_8EFF),
              0x790A_77FB, 0x9F47_E4F8, 0xA628_84AA, 0x7263_42D3);
  }

  lemma Abc36()
    ensures AbcAfter(36, 0xB370_7EBF, 0x3B08_75C7, 0x8D21_2FF5, 0x6012_7B2E)
  {
    Abc32();
    AbcUses32();
    AbcUses34();
    Makes(32, H, 0x790A_77FB, 0x7263_42D3, 0xA628_84AA, 0x9F47_E4F8, 0, 0xFFFA_3942, 4, 0xB370_7EBF);
    Makes(33, H, 0x9F47_E4F8, 0xB370_7EBF, 0x7263_42D3, 0xA628_84AA, 0, 0x8771_F681, 11, 0x6012_7B2E);
    Makes(34, H, 0xA628_84AA, 0x6012_7B2E, 0xB370_7EBF, 0x7263_42D3, 0, 0x6D9D_6122, 16, 0x8D21_2FF5);
    Makes(35, H, 0x7263_42D3, 0x8D21_2FF5, 0x6012_7B2E, 0xB370_7EBF, 0x18, 0xFDE5_380C, 23, 0x3B08_75C7);
    FourSteps(INIT, AbcWords(), 32, Quad(0x790A_77FB, 0x7263_42D3, 0xA628_84AA, 0x9F47_E4F8),
              0xB370_7EBF, 0x6012_7B2E, 0x8D21_2FF5, 0x3B08_75C7);
  }

  lemma Abc40()
    ensures AbcAfter(40, 0x21B1_17B9, 0x5A2F_5EA5, 0x3575_227E, 0x6E74_29D5)
  {
    Abc36();
    AbcUses36();
    AbcUses38();
    Makes(36, H, 0xB370_7EBF, 0x3B08_75C7, 0x8D21_2FF5, 0x6012_7B2E, 0, 0xA4BE_EA44, 4, 0x21B1_17B9);
    Makes(37, H, 0x6012_7B2E, 0x21B1_17B9, 0x3B08_75C7, 0x8D21_2FF5, 0, 0x4BDE_CFA9, 11, 0x6E74_29D5);
    Makes(38, H, 0x8D21_2FF5, 0x6E74_29D5, 0x21B1_17B9, 0x3B08_75C7, 0, 0xF6BB_4B60, 16, 0x3575_227E);
    Makes(39, H, 0x3B08_75C7, 0x3575_227E, 0x6E74_29D5, 0x21B1_17B9, 0, 0xBEBF_BC70, 23, 0x5A2F_5EA5);
    FourSteps(INIT, AbcWords(), 36, Quad(0xB370_7EBF, 0x3B08_75C7, 0x8D21_2FF5, 0x6012_7B2E),
              0x21B1_17B9, 0x6E74_29D5, 0x3575_227E, 0x5A2F_5EA5);
  }

  lemma Abc44()
    ensures AbcAfter(44, 0x11DE_1779, 0x4C61_24F4, 0x31C4_65CA, 0xFADC_AA38)
  {
    Abc40();
    AbcUses40();
    AbcUses42();
    Makes(40, H, 0x21B1_17B9, 0x5A2F_5EA5, 0x3575_227E, 0x6E74_29D5, 0, 0x289B_7EC6, 4, 0x11DE_1779);
    Makes(41, H, 0x6E74_29D5, 0x11DE_1779, 0x5A2F_5EA5, 0x3575_227E, 0x8063_6261, 0xEAA1_27FA, 11, 0xFADC_AA38);
    Makes(42, H, 0x3575_227E, 0xFADC_AA38, 0x11DE_1779, 0x5A2F_5EA5, 0, 0xD4EF_3085, 16, 0x31C4_65CA);
    Makes(43, H, 0x5A2F_5EA5, 0x31C4_65CA, 0xFADC_AA38, 0x11DE_1779, 0, 0x0488_1D05, 23, 0x4C61_24F4);
    FourSteps(INIT, AbcWords(), 40, Quad(0x21B1_17B9, 0x5A2F_5EA5, 0x3575_227E, 0x6E74_29D5),
              0x11DE_1779, 0xFADC_AA38, 0x31C4_65CA, 0x4C61_24F4);
  }

  lemma Abc48()
    ensures AbcAfter(48, 0x7F2E_507B, 0x7BEB_9700, 0x8FAE_6399, 0x99D9_679D)
  {
    Abc44();
    AbcUses44();
    AbcUses46();
    Makes(44, H, 0x11DE_1779, 0x4C61_24F4, 0x31C4_65CA, 0xFADC_AA38, 0, 0xD9D4_D039, 4, 0x7F2E_507B);
    Makes(45, H, 0xFADC_AA38, 0x7F2E_507B, 0x4C61_24F4, 0x31C4_65CA, 0, 0xE6DB_99E5, 11, 0x99D9_679D);
    Makes(46, H, 0x31C4_65CA, 0x99D9_679D, 0x7F2E_507B, 0x4C61_24F4, 0, 0x1FA2_7CF8, 16, 0x8FAE_6399);
    Makes(47, H, 0x4C61_24F4, 0x8FAE_6399, 0x99D9_679D, 0x7F2E_507B, 0, 0xC4AC_5665, 23, 0x7BEB_9700);
    FourSteps(INIT, AbcWords(), 44, Quad(0x11DE_1779, 0x4C61_24F4, 0x31C4_65CA, 0xFADC_AA38),
              0x7F2E_507B, 0x99D9_679D, 0x8FAE_6399, 0x7BEB_9700);
  }

  lemma Abc52()
    ensures AbcAfter(52, 0x7B20_1DF8, 0x8BF0_25C4, 0xB298_CEFD, 0xF4E8_E96E)
  {
    Abc48();
    AbcUses48();
    AbcUses50();
    Makes(48, I, 0x7F2E_507B, 0x7BEB_9700, 0x8FAE_6399, 0x99D9_679D, 0x8063_6261, 0xF429_2244, 6, 0x7B20_1DF8);
    Makes(49, I, 0x99D9_679D, 0x7B20_1DF8, 0x7BEB_9700, 0x8FAE_6399, 0, 0x432A_FF97, 10, 0xF4E8_E96E);
    Makes(50, I, 0x8FAE_6399, 0xF4E8_E96E, 0x7B20_1DF8, 0x7BEB_9700, 0x18, 0xAB94_23A7, 15, 0xB298_CEFD);
    Makes(51, I, 0x7BEB_9700, 0xB298_CEFD, 0xF4E8_E96E, 0x7B20_1DF8, 0, 0xFC93_A039, 21, 0x8BF0_25C4);
    FourSteps(INIT, AbcWords(), 48, Quad(0x7F2E_507B, 0x7BEB_9700, 0x8FAE_6399, 0x99D9_679D),
              0x7B20_1DF8, 0xF4E8_E96E, 0xB298_CEFD, 0x8BF0_25C4);
  }

  lemma Abc56()
    ensures AbcAfter(56, 0x06CC_5E8A, 0x3BFA_2C27, 0x7D63_2DD0, 0x5B0D_97AA)
  {
    Abc52();
    AbcUses52();
    AbcUses54();
    Makes(52, I, 0x7B20_1DF8, 0x8BF0_25C4, 0xB298_CEFD, 0xF4E8_E96E, 0, 0x655B_59C3, 6, 0x06CC_5E8A);
    Makes(53, I, 0xF4E8_E96E, 0x06CC_5E8A, 0x8BF0_25C4, 0xB298_CEFD, 0, 0x8F0C_CC92, 10, 0x5B0D_97AA);
    Makes(54, I, 0xB298_CEFD, 0x5B0D_97AA, 0x06CC_5E8A, 0x8BF0_25C4, 0, 0xFFEF_F47D, 15, 0x7D63_2DD0);
    Makes(55, I, 0x8BF0_25C4, 0x7D63_2DD0, 0x5B0D_97AA, 0x06CC_5E8A, 0, 0x8584_5DD1, 21, 0x3BFA_2C27);
    FourSteps(INIT, AbcWords(), 52, Quad(0x7B20_1DF8, 0x8BF0_25C4, 0xB298_CEFD, 0xF4E8_E96E),
              0x06CC_5E8A, 0x5B0D_97AA, 0x7D63_2DD0, 0x3BFA_2C27);
  }

  lemma Abc60()
    ensures AbcAfter(60, 0x7F81_CC35, 0x7327_D604, 0x4F9D_BE3F, 0x0944_54AB)
  {
    Abc56();
    AbcUses56();
    AbcUses58();
    Makes(56, I, 0x06CC_5E8A, 0x3BFA_2C27, 0x7D63_2DD0, 0x5B0D_97AA, 0, 0x6FA8_7E4F, 6, 0x7F81_CC35);
    Makes(57, I, 0x5B0D_97AA, 0x7F81_CC35, 0x3BFA_2C27, 0x7D63_2DD0, 0, 0xFE2C_E6E0, 10, 0x0944_54AB);
    Makes(58, I, 0x7D63_2DD0, 0x0944_54AB, 0x7F81_CC35, 0x3BFA_2C27, 0, 0xA301_4314, 15, 0x4F9D_BE3F);
    Makes(59, I, 0x3BFA_2C27, 0x4F9D_BE3F, 0x0944_54AB, 0x7F81_CC35, 0, 0x4E08_11A1, 21, 0x7327_D604);
    FourSteps(INIT, AbcWords(), 56, Quad(0x06CC_5E8A, 0x3BFA_2C27, 0x7D63_2DD0, 0x5B0D_97AA),
              0x7F81_CC35, 0x0944_54AB, 0x4F9D_BE3F, 0x7327_D604);
  }

  lemma Abc64()
    ensures AbcAfter(64, 0x310A_DE8F, 0xC082_26B3, 0xE484_B9D8, 0x624D_8CB2)
  {
    Abc60();
    AbcUses60();
    AbcUses62();
    Makes(60, I, 0x7F81_CC35, 0x7327_D604, 0x4F9D_BE3F, 0x0944_54AB, 0, 0xF753_7E82, 6, 0x310A_DE8F);
    Makes(61, I, 0x0944_54AB, 0x310A_DE8F, 0x7327_D604, 0x4F9D_BE3F, 0, 0xBD3A_F235, 10, 0x624D_8CB2);
    Makes(62, I, 0x4F9D_BE3F, 0x624D_8CB2, 0x310A_DE8F, 0x7327_D604, 0, 0x2AD7_D2BB, 15, 0xE484_B9D8);
    Makes(63, I, 0x7327_D604, 0xE484_B9D8, 0x624D_8CB2, 0x310A_DE8F, 0, 0xEB86_D391, 21, 0xC082_26B3);
    FourSteps(INIT, AbcWords(), 60, Quad(0x7F81_CC35, 0x7327_D604, 0x4F9D_BE3F, 0x0944_54AB),
              0x310A_DE8F, 0x624D_8CB2, 0xE484_B9D8, 0xC082_26B3);
  }

  // The padded message and the digest.

  lemma LengthAt(msg: seq<Byte>, i: nat)
    requires i < 8
    ensures Padded(msg)[|Padded(msg)| - 8 + i] == LittleEndian(8 * |msg| % WRAP, 8)[i]
  {
  }

  lemma {:induction false} LittleEndianZero(k: nat)
    ensures forall j :: 0 <= j < k ==> LittleEndian(0, k)[j] == 0
  {
    if k > 0 { LittleEndianZero(k - 1); }
  }

  lemma LengthOf24(n: nat, i: nat)
    requires n == 24 && i < 8
    ensures LittleEndian(n, 8)[i] == if i == 0 then 0x18 else 0
  {
    assert n % 256 == 24 && n / 256 == 0;
    LittleEndianZero(7);
    assert LittleEndian(n, 8) == [n as Byte] + LittleEndian(0, 7);
  }

  lemma PaddedAt(msg: seq<Byte>, j: nat)
    requires |msg| == 3 && j < 64
    ensures |Padded(msg)| == 64
    ensures Padded(msg)[j] == if j < 3 then msg[j] else if j == 3 then 0x80 else if j == 56 then 0x18 else 0
  {
    PaddedLength(msg);
    if j < 56 {
      PaddingBytes(msg, j);
    } else {
      LengthAt(msg, j - 56);
      LengthOf24(8 * |msg| % WRAP, j - 56);
    }
  }

  lemma PaddedLength(msg: seq<Byte>)
    requires |msg| == 3
    ensures |Padded(msg)| == 64 && 8 * |msg| % WRAP == 24
  {
    assert |Padding(|msg|)| == 61;
    Remainder(24, WRAP);
  }

  lemma Remainder(n: nat, d: nat)
    requires n < d
    ensures n % d == n
  {
  }

  lemma WordOf(b: seq<Byte>, j: nat)
    requires |b| == 64 && j < 16 && forall k :: 0 <= k < 64 ==>
               b[k] == if k == 0 then 0x61 else if k == 1 then 0x62 else if k == 2 then 0x63 else if k == 3 then 0x80
                       else if k == 56 then 0x18 else 0
    ensures BlockWords(b)[j] == AbcWord(j)
  {
    if j == 0 {
      JoinFour(0x61, 0x62, 0x63, 0x80);
    } else if j == 14 {
      JoinFour(0x18, 0, 0, 0);
    } else {
      JoinFour(0, 0, 0, 0);
    }
  }

  lemma JoinFour(a: Byte, b: Byte, c: Byte, d: Byte)
    ensures LoadWord([a, b, c, d], 0) == (a as W) | ((b as W) << 8) | ((c as W) << 16) | ((d as W) << 24)
  {
  }

  lemma AbcBlock(msg: seq<Byte>)
    requires msg == ABC
    ensures |Padded(msg)| == 64 && BlockWords(Padded(msg)) == AbcWords()
  {
    forall k | 0 <= k < 64 ensures |Padded(msg)| == 64 && Padded(msg)[k] ==
      if k == 0 then 0x61 else if k == 1 then 0x62 else if k == 2 then 0x63 else if k == 3 then 0x80
      else if k == 56 then 0x18 else 0
    {
      PaddedAt(msg, k);
    }
    assert |Padded(msg)| == 64 by { PaddedAt(msg, 0); }
    forall j | 0 <= j < 16 ensures BlockWords(Padded(msg))[j] == AbcWord(j) { WordOf(Padded(msg), j); }
  }

  lemma Compressed(b: seq<Byte>, m: seq<W>, n: nat, p: Regs)
    requires |b| == 64 && BlockWords(b) == m && n == 64 && After(INIT, m, n, p)
    ensures RfcCompress(INIT, b) == AddRegs(p, INIT)
  {
    assert Shown(n);
  }

  lemma OneBlock(msg: seq<Byte>, r: Regs)
    requires |Padded(msg)| == 64 && RfcCompress(INIT, Padded(msg)) == r
    ensures Digest(MD5, msg) == Output(r)
  {
    var P := Padded(msg);
    assert BlockAt(P, 0) == P;
    assert Folded(MD5, INIT, P, 0) == INIT;
    assert Folded(MD5, INIT, P, 1) == MD5.compress(INIT, P);
  }

  lemma AbcRegisters(p: Regs)
    requires p == Quad(0x310A_DE8F, 0xC082_26B3, 0xE484_B9D8, 0x624D_8CB2)
    ensures Output(AddRegs(p, INIT)) ==
            [0x90, 0x01, 0x50, 0x98, 0x3C, 0xD2, 0x4F, 0xB0, 0xD6, 0x96, 0x3F, 0x7D, 0x28, 0xE1, 0x7F, 0x72]
  {
    assert AddRegs(p, INIT) == Quad(0x9850_0190, 0xB04F_D23C, 0x7D3F_96D6, 0x727F_E128);
  }

  lemma AbcDigest()
    ensures Digest(MD5, ABC) ==
            [0x90, 0x01, 0x50, 0x98, 0x3C, 0xD2, 0x4F, 0xB0, 0xD6, 0x96, 0x3F, 0x7D, 0x28, 0xE1, 0x7F, 0x72]
  {
    var p := Quad(0x310A_DE8F, 0xC082_26B3, 0xE484_B9D8, 0x624D_8CB2);
    Abc64();
    AbcBlock(ABC);
    Compressed(Padded(ABC), AbcWords(), 64, p);
    OneBlock(ABC, AddRegs(p, INIT));
    AbcRegisters(p);
  }
}
