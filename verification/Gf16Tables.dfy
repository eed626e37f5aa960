/** The logarithm tables of GF(2^16), arithmetic by looking them up, and the
    constants PAR2 gives to input slices. */
module Gf16Tables {
  import opened Arithmetic
  import opened Divisors
  import opened Fields
  import opened Gf16
  import opened Vandermonde
  import opened Polynomials
  import opened Inversion
  import opened Repair
  import opened Totient

  /** The loop's value held in 32 bits. */
  function Wide(v: Elem): bv32 { v as bv32 }

  function WideDouble(w: bv32): bv32 {
    var s := w << 1;
    if s & 0x1_0000 != 0 then s ^ 0x1_100B else s
  }

  lemma OverflowBit(v: Elem)
    ensures ((v as bv32) << 1) & 0x1_0000 != 0 <==> v & 0x8000 != 0
  {
  }

  lemma NoOverflow(v: Elem)
    requires v & 0x8000 == 0
    ensures (v as bv32) << 1 == (v << 1) as bv32
  {
  }

  lemma Overflow(v: Elem)
    requires v & 0x8000 != 0
    ensures ((v as bv32) << 1) ^ 0x1_100B == ((v << 1) ^ 0x100B) as bv32
  {
  }

  lemma DoubleIs(v: Elem)
    ensures Double(v) == if v & 0x8000 != 0 then (v << 1) ^ 0x100B else v << 1
  {
    if v & 0x8000 == 0 {
      assert Plus(v << 1, 0) == v << 1;
    } else {
      assert Plus(v << 1, 0x100B) == (v << 1) ^ 0x100B;
    }
  }

  /** The shift and conditional subtraction on 32 bits is doubling in the field. */
  lemma WideDoubles(v: Elem)
    ensures WideDouble(Wide(v)) == Wide(Double(v))
  {
    OverflowBit(v);
    DoubleIs(v);
    if v & 0x8000 == 0 { NoOverflow(v); } else { Overflow(v); }
  }

  lemma Narrows(v: Elem)
    ensures Wide(v) < 0x1_0000 && Wide(v) as Elem == v
  {
  }

  /** The first n powers are in both tables. */
  ghost predicate Entered(log: seq<nat>, antilog: seq<Elem>, n: nat) {
    && |log| == |antilog| == 65536 && n <= ORDER
    && forall k: nat {:trigger Exp(k)} :: k < n ==> antilog[k] == Exp(k) && log[Number(Exp(k))] == k
  }

  ghost predicate Tables(log: seq<nat>, antilog: seq<Elem>) {
    Entered(log, antilog, ORDER) && antilog[ORDER] == 1
  }

  lemma EnterNext(log: seq<nat>, antilog: seq<Elem>, i: nat)
    requires Entered(log, antilog, i) && i < ORDER
    ensures Entered(log[Number(Exp(i)) := i], antilog[i := Exp(i)], i + 1)
  {
    forall k: nat | k < i ensures Number(Exp(k)) != Number(Exp(i)) {
      if Number(Exp(k)) == Number(Exp(i)) {
        NumberInjective(Exp(k), Exp(i));
        ExpInjective(k, i);
      }
    }
  }

  /** Building the tables: no power is met twice, so every nonzero element gets its logarithm. */
  method BuildTables() returns (log: array<nat>, antilog: array<Elem>)
    ensures fresh(log) && fresh(antilog) && Tables(log[..], antilog[..])
  {
    log, antilog := new nat[65536](_ => 0), new Elem[65536](_ => 0);
    var val: bv32 := 1;
    for i := 0 to ORDER
      invariant val == Wide(Exp(i)) && Entered(log[..], antilog[..], i)
    {
      Narrows(Exp(i));
      EnterNext(log[..], antilog[..], i);
      WideDoubles(Exp(i));
      var v := val as Elem;
      antilog[i] := v;
      log[Number(v)] := i;
      val := WideDouble(val);
    }
    assert Exp(0) == 1;
    antilog[ORDER] := antilog[0];
  }

  lemma Looked(log: seq<nat>, antilog: seq<Elem>, v: Elem)
    requires Tables(log, antilog) && v != 0
    ensures log[Number(v)] == Log(v)
  {
    assert Exp(Log(v)) == v;
  }

  method Mul(log: array<nat>, antilog: array<Elem>, a: Elem, b: Elem) returns (c: Elem)
    requires Tables(log[..], antilog[..])
    ensures c == Fields.Mul(GF16(), a, b)
  {
    if a == 0 || b == 0 {
      return 0;
    }
    Looked(log[..], antilog[..], a);
    Looked(log[..], antilog[..], b);
    var sum := log[Number(a)] + log[Number(b)];
    if sum >= ORDER {
      sum := sum - ORDER;
    }
    assert antilog[sum] == Exp(sum);
    return antilog[sum];
  }

  method Inv(log: array<nat>, antilog: array<Elem>, a: Elem) returns (c: Elem)
    requires Tables(log[..], antilog[..]) && a != 0
    ensures c == Fields.Inv(GF16(), a) && Fields.Mul(GF16(), a, c) == 1
  {
    Looked(log[..], antilog[..], a);
    ProductInverse(a);
    var at := ORDER - log[Number(a)];
    Power65535();
    assert at < ORDER ==> antilog[at] == Exp(at);
    return antilog[at];
  }

  lemma ExpMod(n: nat)
    ensures Exp(n % ORDER) == Exp(n)
  {
    Power65535();
    PeriodTimes(ORDER, n / ORDER, 1);
    DoubledAdd(n % ORDER, Multiple(n / ORDER, ORDER), 1);
    assert n == n % ORDER + Multiple(n / ORDER, ORDER);
  }

  lemma {:induction false} PowIsExp(a: Elem, e: nat)
    requires a != 0
    ensures Fields.Pow(GF16(), a, e) == Exp(Log(a) * e)
  {
    if e > 0 {
      PowIsExp(a, e - 1);
      ProductIsDoubled(a, Exp(Log(a) * (e - 1)));
      DoubledAdd(Log(a), Log(a) * (e - 1), 1);
      assert Log(a) * e == Log(a) + Log(a) * (e - 1);
    }
  }

  lemma ZeroPow(e: nat)
    requires e > 0
    ensures Fields.Pow(GF16(), 0, e) == 0
  {
  }

  /** pow: by one product of logarithms, with 0^0 == 1. */
  method Pow(log: array<nat>, antilog: array<Elem>, base: Elem, exp: nat) returns (c: Elem)
    requires Tables(log[..], antilog[..])
    ensures c == Fields.Pow(GF16(), base, exp)
  {
    if exp == 0 {
      return 1;
    }
    if base == 0 {
      ZeroPow(exp);
      return 0;
    }
    Looked(log[..], antilog[..], base);
    PowIsExp(base, exp);
    ExpMod(Log(base) * exp);
    var at := (log[Number(base)] * exp) % ORDER;
    assert antilog[at] == Exp(at);
    return antilog[at];
  }

  // The constants of the input slices.

  /** The powers of 2 below 2^n whose exponents share no factor with 65535, in order. */
  ghost function Chosen(n: nat): seq<Elem> {
    if n <= 1 then [] else Chosen(n - 1) + if HasSuborderFactor(n - 1) then [] else [Exp(n - 1)]
  }

  lemma {:induction false} ChosenCount(n: nat)
    ensures |Chosen(n)| == Count(Coprime(), n)
  {
    if n > 1 {
      ChosenCount(n - 1);
    } else if n == 1 {
      assert HasSuborderFactor(0);
    }
  }

  /** There are as many constants as slices a set may have. */
  lemma Enough()
    ensures |Chosen(ORDER)| == 32768
  {
    ChosenCount(ORDER);
    Shares65535();
  }

  /** input_slice_constants, for any count of slices a set may have. */
  method InputSliceConstants(log: array<nat>, antilog: array<Elem>, count: nat)
    returns (constants: seq<Elem>, ghost upto: nat)
    requires Tables(log[..], antilog[..]) && count <= 32768
    ensures |constants| == count && upto <= ORDER && constants == Chosen(upto)
  {
    Enough();
    constants := [];
    var exp := 1;
    while |constants| < count
      invariant 1 <= exp <= ORDER && constants == Chosen(exp) && |constants| <= count
      decreases ORDER - exp
    {
      assert exp < ORDER;
      assert antilog[exp] == Exp(exp);
      if !HasSuborderFactor(exp) {
        constants := constants + [antilog[exp]];
      }
      exp := exp + 1;
    }
    upto := exp;
  }

  lemma {:induction false} ChosenFrom(n: nat, i: nat) returns (e: nat)
    requires i < |Chosen(n)| && n <= ORDER
    ensures 0 < e < n && !HasSuborderFactor(e) && Chosen(n)[i] == Exp(e) && |Chosen(e)| == i
  {
    if i == |Chosen(n - 1)| { e := n - 1; } else { e := ChosenFrom(n - 1, i); }
  }

  /** The constants are distinct and nonzero. */
  lemma ConstantsDistinct(n: nat, i: nat, j: nat)
    requires i < j < |Chosen(n)| && n <= ORDER
    ensures Chosen(n)[i] != Chosen(n)[j] && Chosen(n)[i] != 0 && Chosen(n)[j] != 0
  {
    var d := ChosenFrom(n, i);
    var e := ChosenFrom(n, j);
    DoubledZero(d, 1);
    DoubledZero(e, 1);
    if Exp(d) == Exp(e) { ExpInjective(d, e); }
  }

  /** Each has order exactly 65535: its k-th power is one just when 65535 divides k. */
  lemma ConstantOrder(e: nat, k: nat)
    requires 0 < e < ORDER && !HasSuborderFactor(e)
    ensures Fields.Pow(GF16(), Exp(e), k) == 1 <==> k % 65535 == 0
  {
    DoubledZero(e, 1);
    LogIs(Exp(e), e);
    PowIsExp(Exp(e), k);
    ExpMod(e * k);
    if Exp(e * k % ORDER) == 1 {
      if e * k % ORDER > 0 { OrderIs(e * k % ORDER); }
      ShareNoFactor(e, k);
    }
    if k % 65535 == 0 {
      var q := k / 65535;
      assert e * k == (e * q) * 65535;
      MultipleOf(e * q, 65535);
      assert Exp(0) == 1;
    }
  }

  lemma ShareNoFactor(e: nat, k: nat)
    requires !HasSuborderFactor(e) && e * k % 65535 == 0
    ensures k % 65535 == 0
  {
    SmallPrimes();
    Prime257();
    SplitOff(3, e, k);
    SplitOff(5, e, k);
    SplitOff(17, e, k);
    SplitOff(257, e, k);
    AllFour(k);
  }

  lemma SplitOff(p: nat, e: nat, k: nat)
    requires Prime(p) && 65535 % p == 0 && e * k % 65535 == 0 && e % p != 0
    ensures k % p == 0
  {
    var q, r := e * k / 65535, 65535 / p;
    assert e * k == q * 65535 && 65535 == r * p;
    assert Multiple(q * r, p) == e * k;
    PrimeSplits(p, e, k);
    DividesMod(p, e);
    DividesMod(p, k);
  }

  /** With these constants every selection of consecutive exponents can be solved. */
  lemma ConsecutiveAlwaysSolvable(n: nat, missing: seq<nat>, exponents: seq<nat>)
    requires n <= ORDER && Within(missing, |Chosen(n)|) && Distinct(missing) && |exponents| == |missing| &&
             Consecutive(exponents)
    ensures forall k: nat :: !FirstDependent(GF16(), PowerRows(GF16(), Chosen(n), missing, exponents), |missing|, k)
  {
    GF16Lawful();
    var c := Vandermonde.Pick(Chosen(n), missing);
    forall i, j | 0 <= i < j < |c| ensures c[i] != c[j] {
      if missing[i] < missing[j] { ConstantsDistinct(n, missing[i], missing[j]); }
        else { ConstantsDistinct(n, missing[j], missing[i]); }
    }
    forall i | 0 <= i < |c| ensures c[i] != 0 {
      var e := ChosenFrom(n, missing[i]);
      DoubledZero(e, 1);
    }
    RunAlwaysBuilds(GF16(), Chosen(n), missing, exponents);
  }
}
