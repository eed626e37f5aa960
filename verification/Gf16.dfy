/** GF(2^16) over the polynomial 0x1100B, as logarithm tables to the base 2: the
    tables are those of a field, because 2 has order 65535. */
module Gf16 {
  import opened Fields
  import opened Arithmetic
  import opened Divisors

  type Elem = bv16

  const ORDER: nat := 65535

  function Plus(a: Elem, b: Elem): Elem { a ^ b }

  /** Times x, reduced by 0x1100B. */
  function Double(v: Elem): Elem { Plus(Shifted(v), Carry(v)) }

  function Shifted(v: Elem): Elem { v << 1 }

  function Carry(v: Elem): Elem { if v & 0x8000 != 0 then 0x100B else 0 }

  function Doubled(k: nat, v: Elem): Elem {
    if k == 0 then v else Double(Doubled(k - 1, v))
  }

  /** 2^k. */
  function Exp(k: nat): Elem { Doubled(k, 1) }

  // Doubling is linear and loses nothing.

  lemma ShiftedPlus(a: Elem, b: Elem)
    ensures Shifted(Plus(a, b)) == Plus(Shifted(a), Shifted(b))
  {
    assert Shifted(a ^ b) == Plus(a << 1, b << 1);
  }

  lemma CarryXor(a: Elem, b: Elem)
    ensures Carry(a ^ b) == Carry(a) ^ Carry(b)
  {
  }

  lemma CarryPlus(a: Elem, b: Elem)
    ensures Carry(Plus(a, b)) == Plus(Carry(a), Carry(b))
  {
    CarryXor(a, b);
    assert Plus(a, b) == a ^ b;
  }

  lemma PlusFour(x: Elem, y: Elem, p: Elem, q: Elem)
    ensures Plus(Plus(x, y), Plus(p, q)) == Plus(Plus(x, p), Plus(y, q))
  {
    assert Plus(x ^ y, p ^ q) == Plus(x ^ p, y ^ q);
  }

  lemma DoublePlus(a: Elem, b: Elem)
    ensures Double(Plus(a, b)) == Plus(Double(a), Double(b))
  {
    ShiftedPlus(a, b);
    CarryPlus(a, b);
    PlusFour(Shifted(a), Shifted(b), Carry(a), Carry(b));
  }

  lemma DoubleZero(a: Elem)
    ensures Double(a) == 0 <==> a == 0
  {
  }

  lemma PlusSame(a: Elem, b: Elem)
    ensures Plus(a, b) == 0 <==> a == b
  {
  }

  lemma {:induction false} DoubledPlus(k: nat, a: Elem, b: Elem)
    ensures Doubled(k, Plus(a, b)) == Plus(Doubled(k, a), Doubled(k, b))
  {
    if k > 0 {
      DoubledPlus(k - 1, a, b);
      DoublePlus(Doubled(k - 1, a), Doubled(k - 1, b));
    }
  }

  lemma {:induction false} DoubledZero(k: nat, a: Elem)
    ensures Doubled(k, a) == 0 <==> a == 0
  {
    if k > 0 {
      DoubledZero(k - 1, a);
      DoubleZero(Doubled(k - 1, a));
    }
  }

  lemma DoubledInjective(k: nat, a: Elem, b: Elem)
    requires Doubled(k, a) == Doubled(k, b)
    ensures a == b
  {
    DoubledPlus(k, a, b);
    PlusSame(Doubled(k, a), Doubled(k, b));
    DoubledZero(k, Plus(a, b));
    PlusSame(a, b);
  }

  lemma {:induction false} DoubledAdd(i: nat, j: nat, v: Elem)
    ensures Doubled(i, Doubled(j, v)) == Doubled(i + j, v)
  {
    if i > 0 { DoubledAdd(i - 1, j, v); }
  }

  // Products by shifting and adding, to compute particular powers.

  function Four(v: Elem): Elem { Double(Double(Double(Double(v)))) }

  function Pick(b: Elem, m: Elem, v: Elem): Elem { if b & m != 0 then v else 0 }

  /** a times the low four bits of b. */
  function ByNibble(a: Elem, b: Elem): Elem {
    Plus(Plus(Pick(b, 1, a), Pick(b, 2, Double(a))), Plus(Pick(b, 4, Double(Double(a))),
                                                          Pick(b, 8, Double(Double(Double(a))))))
  }

  function Times(a: Elem, b: Elem): Elem {
    Plus(ByNibble(a, b), Four(Plus(ByNibble(a, b >> 4), Four(Plus(ByNibble(a, b >> 8), Four(ByNibble(a, b >> 12)))))))
  }

  function Nibble(b: Elem): Elem { b & 15 }

  lemma ByNibbles(b: Elem)
    ensures b == Plus(Nibble(b), Four(Plus(Nibble(b >> 4), Four(Plus(Nibble(b >> 8), Four(Nibble(b >> 12)))))))
  {
  }

  lemma NibbleBits(b: Elem)
    ensures Nibble(b) == Plus(Plus(Pick(b, 1, 1), Pick(b, 2, 2)), Plus(Pick(b, 4, 4), Pick(b, 8, 8)))
  {
  }

  lemma DoubledPick(k: nat, b: Elem, m: Elem, v: Elem)
    ensures Doubled(k, Pick(b, m, v)) == Pick(b, m, Doubled(k, v))
  {
    DoubledZero(k, 0);
  }

  lemma DoubledDouble(k: nat, v: Elem)
    ensures Doubled(k, Double(v)) == Double(Doubled(k, v))
  {
    DoubledAdd(k, 1, v);
    assert Doubled(1, v) == Double(Doubled(0, v));
  }

  lemma DoubledFour(k: nat, v: Elem)
    ensures Doubled(k, Four(v)) == Four(Doubled(k, v))
  {
    DoubledDouble(k, v);
    DoubledDouble(k, Double(v));
    DoubledDouble(k, Double(Double(v)));
    DoubledDouble(k, Double(Double(Double(v))));
  }

  lemma SmallPowers(k: nat)
    ensures Doubled(k, 2) == Double(Exp(k)) && Doubled(k, 4) == Double(Double(Exp(k))) &&
            Doubled(k, 8) == Double(Double(Double(Exp(k))))
  {
    assert Double(1) == 2 && Double(2) == 4 && Double(4) == 8;
    DoubledDouble(k, 1);
    DoubledDouble(k, 2);
    DoubledDouble(k, 4);
  }

  lemma DoubledNibble(k: nat, b: Elem)
    ensures Doubled(k, Nibble(b)) == ByNibble(Exp(k), b)
  {
    NibbleBits(b);
    SmallPowers(k);
    DoubledPlus(k, Plus(Pick(b, 1, 1), Pick(b, 2, 2)), Plus(Pick(b, 4, 4), Pick(b, 8, 8)));
    DoubledPlus(k, Pick(b, 1, 1), Pick(b, 2, 2));
    DoubledPlus(k, Pick(b, 4, 4), Pick(b, 8, 8));
    DoubledPick(k, b, 1, 1);
    DoubledPick(k, b, 2, 2);
    DoubledPick(k, b, 4, 4);
    DoubledPick(k, b, 8, 8);
  }

  lemma DoubledHorner(k: nat, x: Elem, y: Elem)
    ensures Doubled(k, Plus(x, Four(y))) == Plus(Doubled(k, x), Four(Doubled(k, y)))
  {
    DoubledPlus(k, x, Four(y));
    DoubledFour(k, y);
  }

  /** Doubling b k times is multiplying it by 2^k. */
  lemma DoubledIsTimes(k: nat, b: Elem)
    ensures Doubled(k, b) == Times(Exp(k), b)
  {
    var n0, n1, n2, n3 := Nibble(b), Nibble(b >> 4), Nibble(b >> 8), Nibble(b >> 12);
    ByNibbles(b);
    DoubledHorner(k, n0, Plus(n1, Four(Plus(n2, Four(n3)))));
    DoubledHorner(k, n1, Plus(n2, Four(n3)));
    DoubledHorner(k, n2, n3);
    DoubledNibble(k, b);
    DoubledNibble(k, b >> 4);
    DoubledNibble(k, b >> 8);
    DoubledNibble(k, b >> 12);
  }

  lemma ExpSum(i: nat, j: nat, c: Elem, d: Elem, n: nat)
    requires Exp(i) == c && Exp(j) == d && n == i + j
    ensures Exp(n) == Times(c, d)
  {
    DoubledAdd(i, j, 1);
    DoubledIsTimes(i, d);
  }

  // Particular powers, computed.

  lemma Power(i: nat, j: nat, c: Elem, d: Elem, p: Elem, n: nat)
    requires Exp(i) == c && Exp(j) == d && Times(c, d) == p && n == i + j
    ensures Exp(n) == p
  {
    ExpSum(i, j, c, d, n);
  }

  lemma FirstPowers()
    ensures Exp(3) == 0x8
    ensures Exp(5) == 0x20
    ensures Exp(15) == 0x8000
  {
    assert Exp(0) == 1;
    assert Exp(1) == Double(Doubled(0, 1));
    assert Exp(1) == 2;
    Power(1, 1, 0x2, 0x2, 0x4, 2);
    Power(2, 1, 0x4, 0x2, 0x8, 3);
    Power(3, 2, 0x8, 0x4, 0x20, 5);
    Power(5, 5, 0x20, 0x20, 0x400, 10);
    Power(10, 5, 0x400, 0x20, 0x8000, 15);
  }

  lemma Power255()
    ensures Exp(240) == 0x6B65
    ensures Exp(255) == 0x8D92
  {
    FirstPowers();
    Power(15, 15, 0x8000, 0x8000, 0x8EFA, 30);
    Power(30, 30, 0x8EFA, 0x8EFA, 0xC9C5, 60);
    Power(60, 60, 0xC9C5, 0xC9C5, 0x27B7, 120);
    Power(120, 120, 0x27B7, 0x27B7, 0x6B65, 240);
    Power(15, 240, 0x8000, 0x6B65, 0x8D92, 255);
  }

  lemma Power3855()
    ensures Exp(3855) == 0x4D78
  {
    FirstPowers();
    Power255();
    Power(240, 240, 0x6B65, 0x6B65, 0xC38D, 480);
    Power(480, 480, 0xC38D, 0xC38D, 0x3537, 960);
    Power(960, 960, 0x3537, 0x3537, 0x70F2, 1920);
    Power(1920, 1920, 0x70F2, 0x70F2, 0x8BE8, 3840);
    Power(15, 3840, 0x8000, 0x8BE8, 0x4D78, 3855);
  }

  lemma Power51()
    ensures Exp(51) == 0x41BE
  {
    FirstPowers();
    Power(3, 3, 0x8, 0x8, 0x40, 6);
    Power(6, 6, 0x40, 0x40, 0x1000, 12);
    Power(12, 12, 0x1000, 0x1000, 0x1BBB, 24);
    Power(24, 24, 0x1BBB, 0x1BBB, 0x4C35, 48);
    Power(3, 48, 0x8, 0x4C35, 0x41BE, 51);
  }

  lemma Power13107()
    ensures Exp(13107) == 0x1CE8
  {
    Power51();
    Power(51, 51, 0x41BE, 0x41BE, 0xFEE4, 102);
    Power(102, 102, 0xFEE4, 0xFEE4, 0x167D, 204);
    Power(204, 204, 0x167D, 0x167D, 0x5E7D, 408);
    Power(408, 408, 0x5E7D, 0x5E7D, 0xB72A, 816);
    Power(816, 816, 0xB72A, 0xB72A, 0xBF75, 1632);
    Power(1632, 1632, 0xBF75, 0xBF75, 0xECCC, 3264);
    Power(3264, 3264, 0xECCC, 0xECCC, 0x49AA, 6528);
    Power(6528, 6528, 0x49AA, 0x49AA, 0xBD18, 13056);
    Power(51, 13056, 0x41BE, 0xBD18, 0x1CE8, 13107);
  }

  lemma Power85()
    ensures Exp(85) == 0x1539
  {
    FirstPowers();
    Power(5, 5, 0x20, 0x20, 0x400, 10);
    Power(10, 10, 0x400, 0x400, 0x10BB, 20);
    Power(20, 20, 0x10BB, 0x10BB, 0x5EFE, 40);
    Power(40, 40, 0x5EFE, 0x5EFE, 0xF72F, 80);
    Power(5, 80, 0x20, 0xF72F, 0x1539, 85);
  }

  lemma Power21845()
    ensures Exp(21845) == 0x15E
  {
    Power85();
    Power(85, 85, 0x1539, 0x1539, 0x1E4A, 170);
    Power(170, 170, 0x1E4A, 0x1E4A, 0x1984, 340);
    Power(340, 340, 0x1984, 0x1984, 0x94C, 680);
    Power(680, 680, 0x94C, 0x94C, 0x42B7, 1360);
    Power(1360, 1360, 0x42B7, 0x42B7, 0xAE82, 2720);
    Power(2720, 2720, 0xAE82, 0xAE82, 0xB269, 5440);
    Power(5440, 5440, 0xB269, 0xB269, 0xAFC0, 10880);
    Power(10880, 10880, 0xAFC0, 0xAFC0, 0xB266, 21760);
    Power(85, 21760, 0x1539, 0xB266, 0x15E, 21845);
  }

  lemma Power65535()
    ensures Exp(65535) == 0x1
  {
    Power255();
    Power(255, 255, 0x8D92, 0x8D92, 0x8DA2, 510);
    Power(510, 510, 0x8DA2, 0x8DA2, 0x88A2, 1020);
    Power(1020, 1020, 0x88A2, 0x88A2, 0x8812, 2040);
    Power(2040, 2040, 0x8812, 0x8812, 0xCD12, 4080);
    Power(4080, 4080, 0xCD12, 0xCD12, 0x6619, 8160);
    Power(8160, 8160, 0x6619, 0x6619, 0x9481, 16320);
    Power(16320, 16320, 0x9481, 0x9481, 0xC5FB, 32640);
    Power(32640, 32640, 0xC5FB, 0xC5FB, 0x70B4, 65280);
    Power(255, 65280, 0x8D92, 0x70B4, 0x1, 65535);
  }

  // 2 has order 65535.

  lemma {:induction false} PeriodTimes(m: nat, q: nat, v: Elem)
    requires Exp(m) == 1
    ensures Doubled(Multiple(q, m), v) == v
  {
    if q > 0 {
      PeriodTimes(m, q - 1, v);
      assert Multiple(q, m) == m + Multiple(q - 1, m);
      DoubledAdd(m, Multiple(q - 1, m), v);
      PeriodFixes(m, v);
    }
  }

  /** If 2^m is one, doubling m times changes nothing. */
  lemma PeriodFixes(m: nat, v: Elem)
    requires Exp(m) == 1
    ensures Doubled(m, v) == v
  {
    DoubledIsTimes(m, v);
    DoubledIsTimes(0, v);
  }

  lemma {:induction false} LeastPeriod(k: nat, from: nat) returns (m: nat)
    requires 0 < from <= k && Exp(k) == 1 && forall j: nat :: 0 < j < from ==> Exp(j) != 1
    ensures 0 < m <= k && Exp(m) == 1 && forall j: nat :: 0 < j < m ==> Exp(j) != 1
    decreases k - from
  {
    if Exp(from) == 1 { m := from; } else { m := LeastPeriod(k, from + 1); }
  }

  lemma PeriodDivides(m: nat, n: nat) returns (q: nat)
    requires m > 0 && Exp(m) == 1 && Exp(n) == 1 && forall j: nat :: 0 < j < m ==> Exp(j) != 1
    ensures Multiple(q, m) == n
  {
    q := n / m;
    var r := n % m;
    assert n == r + Multiple(q, m);
    DoubledAdd(r, Multiple(q, m), 1);
    PeriodTimes(m, q, 1);
    assert Exp(r) == 1;
  }

  lemma NotInPart(m: nat, q: nat, p: nat, part: nat)
    requires m > 0 && Exp(m) == 1 && p > 0 && part * p == 65535 && Multiple(q, m) == 65535 && Exp(part) != 1
    ensures q % p != 0
  {
    if q % p == 0 {
      var k := q / p;
      assert q == k * p;
      assert (k * p) * m == (k * m) * p;
      SameFactor(k * m, part, p);
      assert Multiple(k, m) == part;
      PeriodTimes(m, k, 1);
    }
  }

  lemma SameFactor(a: nat, b: nat, p: nat)
    requires p > 0 && a * p == b * p
    ensures a == b
  {
    Quotient(a * p, p, a);
    Quotient(b * p, p, b);
  }

  lemma OrderIs(k: nat)
    requires 0 < k < ORDER
    ensures Exp(k) != 1
  {
    if Exp(k) == 1 {
      var m := LeastPeriod(k, 1);
      Power65535();
      var q := PeriodDivides(m, 65535);
      Power21845();
      Power13107();
      Power3855();
      Power255();
      NotInPart(m, q, 3, 21845);
      NotInPart(m, q, 5, 13107);
      NotInPart(m, q, 17, 3855);
      NotInPart(m, q, 257, 255);
      assert Multiple(m, q) == 65535;
      FourPrimes(m, q);
    }
  }

  lemma ExpInjective(i: nat, j: nat)
    requires i < ORDER && j < ORDER && Exp(i) == Exp(j)
    ensures i == j
  {
    if i < j {
      ExpApart(i, j);
    } else if j < i {
      ExpApart(j, i);
    }
  }

  lemma ExpApart(i: nat, j: nat)
    requires i < j < ORDER
    ensures Exp(i) != Exp(j)
  {
    if Exp(i) == Exp(j) {
      DoubledAdd(i, j - i, 1);
      DoubledInjective(i, 1, Exp(j - i));
      OrderIs(j - i);
    }
  }

  // Every nonzero element is a power of 2.

  function Number(v: Elem): (n: nat)
    ensures n < 65536
  {
    v as nat
  }

  lemma NumberInjective(v: Elem, w: Elem)
    requires Number(v) == Number(w)
    ensures v == w
  {
    assert (v as nat) as bv16 == v && (w as nat) as bv16 == w;
  }

  ghost function FirstPowersTo(n: nat): set<nat> { set k | 0 <= k < n :: Number(Exp(k)) }

  ghost function Upto(n: nat): set<nat> { if n == 0 then {} else Upto(n - 1) + {n} }

  lemma {:induction false} UptoSize(n: nat)
    ensures |Upto(n)| == n && forall i :: i in Upto(n) <==> 0 < i <= n
  {
    if n > 0 { UptoSize(n - 1); }
  }

  lemma {:induction false} PowersSize(n: nat)
    requires n <= ORDER
    ensures |FirstPowersTo(n)| == n
  {
    if n > 0 {
      PowersSize(n - 1);
      forall k | 0 <= k < n - 1 ensures Number(Exp(k)) != Number(Exp(n - 1)) {
        if Number(Exp(k)) == Number(Exp(n - 1)) {
          NumberInjective(Exp(k), Exp(n - 1));
          ExpInjective(k, n - 1);
        }
      }
      assert FirstPowersTo(n) == FirstPowersTo(n - 1) + {Number(Exp(n - 1))};
    }
  }

  lemma Filled(A: set<nat>, B: set<nat>)
    requires A <= B && |A| == |B|
    ensures A == B
  {
    assert B == A + (B - A);
    assert |B - A| == 0;
  }

  lemma EveryElementIsAPower(v: Elem) returns (k: nat)
    requires v != 0
    ensures k < ORDER && Exp(k) == v
  {
    PowersSize(ORDER);
    UptoSize(ORDER);
    forall n | n in FirstPowersTo(ORDER) ensures n in Upto(ORDER) {
      var j: nat :| j < ORDER && n == Number(Exp(j));
      DoubledZero(j, 1);
      if n == 0 { NumberInjective(Exp(j), 0); }
    }
    Filled(FirstPowersTo(ORDER), Upto(ORDER));
    if Number(v) == 0 { NumberInjective(v, 0); }
    assert Number(v) in FirstPowersTo(ORDER);
    k :| 0 <= k < ORDER && Number(Exp(k)) == Number(v);
    NumberInjective(Exp(k), v);
  }

  // The field.

  ghost predicate IsLog(v: Elem, k: nat) { k < ORDER && Exp(k) == v }

  lemma HasLog(v: Elem)
    requires v != 0
    ensures exists k: nat :: IsLog(v, k)
  {
    var k := EveryElementIsAPower(v);
    assert IsLog(v, k);
  }

  /** The logarithm of a nonzero element. */
  ghost function Log(v: Elem): (k: nat)
    requires v != 0
    ensures IsLog(v, k)
  {
    HasLog(v);
    var k: nat :| IsLog(v, k);
    k
  }

  lemma LogIs(v: Elem, k: nat)
    requires IsLog(v, k)
    ensures v != 0 && Log(v) == k
  {
    DoubledZero(k, 1);
    ExpInjective(Log(v), k);
  }

  /** One subtraction brings a sum of two logarithms back into range. */
  function Reduced(s: nat): nat { if s >= ORDER then s - ORDER else s }

  /** mul. */
  ghost function Product(a: Elem, b: Elem): Elem {
    if a == 0 || b == 0 then 0 else Exp(Reduced(Log(a) + Log(b)))
  }

  /** inv. */
  ghost function Inverse(a: Elem): Elem {
    if a == 0 then 0 else Exp(ORDER - Log(a))
  }

  lemma ExpReduced(s: nat, v: Elem)
    ensures Doubled(Reduced(s), v) == Doubled(s, v)
  {
    if s >= ORDER {
      Power65535();
      PeriodFixes(ORDER, v);
      DoubledAdd(s - ORDER, ORDER, v);
    }
  }

  lemma LogOfExp(s: nat)
    requires s < 2 * ORDER
    ensures Exp(s) != 0 && Log(Exp(s)) == Reduced(s)
  {
    ExpReduced(s, 1);
    LogIs(Exp(s), Reduced(s));
  }

  /** Multiplying by a is doubling as often as its logarithm says. */
  lemma ProductIsDoubled(a: Elem, b: Elem)
    requires a != 0
    ensures Product(a, b) == Doubled(Log(a), b)
  {
    if b == 0 {
      DoubledZero(Log(a), 0);
    } else {
      ExpReduced(Log(a) + Log(b), 1);
      DoubledAdd(Log(a), Log(b), 1);
    }
  }

  lemma ProductComm(a: Elem, b: Elem)
    ensures Product(a, b) == Product(b, a)
  {
  }

  lemma ProductNonzero(a: Elem, b: Elem)
    requires a != 0 && b != 0
    ensures Product(a, b) != 0 && Log(Product(a, b)) == Reduced(Log(a) + Log(b))
  {
    LogOfExp(Reduced(Log(a) + Log(b)));
  }

  lemma ProductAssoc(a: Elem, b: Elem, c: Elem)
    ensures Product(Product(a, b), c) == Product(a, Product(b, c))
  {
    if a != 0 && b != 0 {
      ProductNonzero(a, b);
      ProductIsDoubled(Product(a, b), c);
      ExpReduced(Log(a) + Log(b), c);
      DoubledAdd(Log(a), Log(b), c);
      ProductIsDoubled(b, c);
      ProductIsDoubled(a, Product(b, c));
    }
  }

  lemma ProductOverPlus(a: Elem, b: Elem, c: Elem)
    ensures Product(a, Plus(b, c)) == Plus(Product(a, b), Product(a, c))
  {
    if a == 0 {
      PlusSame(0, 0);
    } else {
      ProductIsDoubled(a, b);
      ProductIsDoubled(a, c);
      ProductIsDoubled(a, Plus(b, c));
      DoubledPlus(Log(a), b, c);
    }
  }

  lemma ProductOne(a: Elem)
    ensures Product(a, 1) == a
  {
    if a != 0 { ProductIsDoubled(a, 1); }
  }

  lemma ProductInverse(a: Elem)
    requires a != 0
    ensures Product(a, Inverse(a)) == 1
  {
    ProductIsDoubled(a, Inverse(a));
    DoubledAdd(Log(a), ORDER - Log(a), 1);
    Power65535();
  }

  lemma PlusLaws(a: Elem, b: Elem, c: Elem)
    ensures Plus(a, 0) == a && Plus(a, a) == 0 && Plus(a, b) == Plus(b, a) && Plus(Plus(a, b), c) == Plus(a, Plus(b, c))
  {
    PlusSame(a, a);
    PlusAssoc(a, b, c);
    PlusComm(a, b);
    PlusNothing(a);
  }

  lemma PlusAssoc(a: Elem, b: Elem, c: Elem)
    ensures Plus(Plus(a, b), c) == Plus(a, Plus(b, c))
  {
    assert Plus(a ^ b, c) == Plus(a, b ^ c);
  }

  lemma PlusComm(a: Elem, b: Elem)
    ensures Plus(a, b) == Plus(b, a)
  {
  }

  lemma PlusNothing(a: Elem)
    ensures Plus(a, 0) == a
  {
  }

  /** The arithmetic of gf.rs. */
  ghost function GF16(): Field<Elem> {
    Field(0, 1, (a, b) => Plus(a, b), (a, b) => Product(a, b), a => Inverse(a))
  }

  lemma GF16Laws(a: Elem, b: Elem, c: Elem)
    ensures GF16().LawsOf(a, b, c)
  {
    PlusLaws(a, b, c);
    ProductOne(a);
    ProductComm(a, b);
    ProductAssoc(a, b, c);
    ProductOverPlus(a, b, c);
    if a != 0 { ProductInverse(a); }
  }

  /** It is a field of characteristic two. */
  lemma GF16Lawful()
    ensures GF16().Lawful()
  {
    forall a: Elem, b: Elem, c: Elem ensures GF16().LawsOf(a, b, c) { GF16Laws(a, b, c); }
  }
}
