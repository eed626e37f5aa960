/** The faster first stage of the closed-form solve: a correlation cut into segments of
    128 rows, each pair of segments a cyclic convolution of length 255. */
module Convolution {
  import opened Arithmetic
  import opened Fields
  import opened Linear
  import opened Locators
  import opened Sums
  import opened Residues
  import opened Dft
  import opened Totient

  const BLOCK: nat := 128
  const CONV: nat := 255

  // Sums of powers of a root of unity.

  /** z is a root of unity of order exactly 255. */
  ghost predicate Primitive<F(!new)>(K: Field<F>, z: F) {
    Pow(K, z, CONV) == K.one && forall d: nat :: 0 < d < CONV ==> Pow(K, z, d) != K.one
  }

  ghost function PowersOf<F(!new)>(K: Field<F>, y: F): nat -> F { (k: nat) => Pow(K, y, k) }

  /** (y + 1) (1 + y + ... + y^(n - 1)) == y^n + 1 */
  lemma {:induction false} Geometric<F(!new)>(K: Field<F>, y: F, n: nat)
    requires K.Lawful()
    ensures Mul(K, Add(K, y, K.one), Sum(K, PowersOf(K, y), n)) == Add(K, Pow(K, y, n), K.one)
  {
    var c := Add(K, y, K.one);
    if n == 0 {
      MulZero(K, c);
      AddSelf(K, K.one);
    } else {
      Geometric(K, y, n - 1);
      var p := Pow(K, y, n - 1);
      Distribute(K, c, Sum(K, PowersOf(K, y), n - 1), p);
      // c p == y p + p, and p cancels against the sum so far.
      MulComm(K, c, p);
      Distribute(K, p, y, K.one);
      MulComm(K, p, y);
      MulOne(K, p);
      AddComm(K, p, K.one);
      AddComm(K, Mul(K, y, p), p);
      AddAssoc(K, K.one, p, Add(K, p, Mul(K, y, p)));
      AddTwice(K, p, Mul(K, y, p));
      AddComm(K, K.one, Mul(K, y, p));
    }
  }

  lemma {:induction false} OnesSum<F(!new)>(K: Field<F>, n: nat)
    requires K.Lawful()
    ensures Sum(K, PowersOf(K, K.one), n) == if n % 2 == 1 then K.one else K.zero
  {
    if n > 0 {
      OnesSum(K, n - 1);
      OnePow(K, n - 1);
      AddSelf(K, K.one);
      AddZero(K, K.one);
    }
  }

  /** The powers of z^d add up to one when 255 divides d and to zero otherwise. */
  lemma Orthogonal<F(!new)>(K: Field<F>, z: F, d: nat)
    requires K.Lawful() && Primitive(K, z)
    ensures Sum(K, PowersOf(K, Pow(K, z, d)), CONV) == if d % CONV == 0 then K.one else K.zero
  {
    var y := Pow(K, z, d);
    PowMod(K, z, CONV, d);
    if d % CONV == 0 {
      OnesSum(K, CONV);
    } else {
      Geometric(K, y, CONV);
      PowTimes(K, z, d, CONV);
      PowTimes(K, z, CONV, d);
      OnePow(K, d);
      assert d * CONV == CONV * d;
      AddSelf(K, K.one);
      AddToZero(K, y, K.one);
      MulToZero(K, Add(K, y, K.one), Sum(K, PowersOf(K, y), CONV));
    }
  }

  // Taking a transform back, shifted.

  ghost function Spread<F(!new)>(K: Field<F>, z: F, y: nat -> F, k: nat): nat -> F {
    (u: nat) => Mul(K, y(u), Pow(K, z, Times(k, u)))
  }

  /** Point k of the transform of the 255 values y. */
  ghost function Spectrum<F(!new)>(K: Field<F>, z: F, y: nat -> F): nat -> F {
    (k: nat) => Sum(K, Spread(K, z, y, k), CONV)
  }

  ghost function Shifted<F(!new)>(K: Field<F>, z: F, y: nat -> F, s: nat): nat -> F {
    (k: nat) => Mul(K, Spectrum(K, z, y)(k), Pow(K, z, Times(k, s)))
  }

  ghost function Both2<F(!new)>(K: Field<F>, z: F, y: nat -> F, s: nat): (nat, nat) -> F {
    (k: nat, u: nat) => Mul(K, y(u), Pow(K, z, Times(k, u + s)))
  }

  /** Multiplying the spectrum by z^(k s) and summing picks out the value at -s. */
  lemma TakenBack<F(!new)>(K: Field<F>, z: F, y: nat -> F, s: nat, at: nat)
    requires K.Lawful() && Primitive(K, z) && at < CONV && (at + s) % CONV == 0
    ensures Sum(K, Shifted(K, z, y, s), CONV) == y(at)
  {
    var f := Both2(K, z, y, s);
    forall k: nat | k < CONV ensures Shifted(K, z, y, s)(k) == Inner(K, f, CONV)(k) {
      ShiftIn(K, z, y, s, k);
    }
    SumSame(K, Shifted(K, z, y, s), Inner(K, f, CONV), CONV);
    SumSwap(K, f, CONV, CONV);
    forall u: nat | u < CONV ensures Outer(K, f, CONV)(u) == if u == at then y(u) else K.zero {
      OuterIs(K, z, y, s, u);
      OneShift(u, at, s);
    }
    SumOne(K, Outer(K, f, CONV), CONV, at);
  }

  lemma BothIs<F(!new)>(K: Field<F>, z: F, y: nat -> F, s: nat, k: nat, u: nat)
    requires K.Lawful()
    ensures Both2(K, z, y, s)(k, u) == Mul(K, y(u), Mul(K, Pow(K, z, Times(k, u)), Pow(K, z, Times(k, s))))
  {
    TimesOver(k, u, s);
    PowSplit(K, z, Times(k, u + s), Times(k, u), Times(k, s));
    BothAt(K, z, y, s, k, u, Times(k, u + s));
  }

  lemma BothAt<F(!new)>(K: Field<F>, z: F, y: nat -> F, s: nat, k: nat, u: nat, e: nat)
    requires e == Times(k, u + s)
    ensures Both2(K, z, y, s)(k, u) == Mul(K, y(u), Pow(K, z, e))
  {
  }

  lemma PowSplit<F(!new)>(K: Field<F>, z: F, e: nat, a: nat, b: nat)
    requires K.Lawful() && e == a + b
    ensures Pow(K, z, e) == Mul(K, Pow(K, z, a), Pow(K, z, b))
  {
    PowAdd(K, z, a, b);
  }

  lemma TimesOver(k: nat, u: nat, s: nat)
    ensures Times(k, u + s) == Times(k, u) + Times(k, s)
  {
  }

  lemma ShiftIn<F(!new)>(K: Field<F>, z: F, y: nat -> F, s: nat, k: nat)
    requires K.Lawful()
    ensures Shifted(K, z, y, s)(k) == Inner(K, Both2(K, z, y, s), CONV)(k)
  {
    var c, row := Pow(K, z, Times(k, s)), (u: nat) => Both2(K, z, y, s)(k, u);
    forall u: nat | u < CONV ensures row(u) == Mul(K, c, Spread(K, z, y, k)(u)) {
      BothIs(K, z, y, s, k, u);
      MulAssoc(K, y(u), Pow(K, z, Times(k, u)), c);
      MulComm(K, c, Spread(K, z, y, k)(u));
    }
    SumTimes(K, c, Spread(K, z, y, k), row, CONV);
    MulComm(K, c, Spectrum(K, z, y)(k));
  }

  lemma OuterIs<F(!new)>(K: Field<F>, z: F, y: nat -> F, s: nat, u: nat)
    requires K.Lawful() && Primitive(K, z)
    ensures Outer(K, Both2(K, z, y, s), CONV)(u) == if (u + s) % CONV == 0 then y(u) else K.zero
  {
    var col, powers := (k: nat) => Both2(K, z, y, s)(k, u), PowersOf(K, Pow(K, z, u + s));
    forall k: nat | k < CONV ensures col(k) == Mul(K, y(u), powers(k)) {
      PowerOf(K, z, u + s, k);
      BothAt(K, z, y, s, k, u, Times(k, u + s));
    }
    SumTimes(K, y(u), powers, col, CONV);
    Orthogonal(K, z, u + s);
    MulOne(K, y(u));
    MulZero(K, y(u));
  }

  lemma OneShift(u: nat, at: nat, s: nat)
    requires u < CONV && at < CONV && (at + s) % CONV == 0
    ensures (u + s) % CONV == 0 <==> u == at
  {
    if (u + s) % CONV == 0 {
      var a, b := (at + s) / CONV, (u + s) / CONV;
      assert at + s == a * CONV && u + s == b * CONV;
    }
  }

  // The blocked correlation.

  /** The locator window of a pair of segments whose numbers add up to s, reversed. */
  ghost function Window<F(!new)>(K: Field<F>, p: seq<F>, s: nat): nat -> F {
    (u: nat) => if u < CONV && BLOCK * s + CONV - u < |p| then p[BLOCK * s + CONV - u] else K.zero
  }

  ghost function Segment(): nat -> nat { (r: nat) => r / BLOCK }

  ghost function RowTerm<F(!new)>(K: Field<F>, z: F, S: Vector<F>, k: nat): nat -> F {
    (r: nat) => if r < |S| then Mul(K, S[r], Pow(K, z, Times(k, r % BLOCK))) else K.zero
  }

  /** Point k of the spectrum of segment j, the rows past its end taken as zero. */
  ghost function SegmentPoint<F(!new)>(K: Field<F>, z: F, S: Vector<F>, j: nat, k: nat): F {
    Sum(K, Only(K, Segment(), j, RowTerm(K, z, S, k)), |S|)
  }

  function Segments(m: nat): nat { DivCeil(m, BLOCK) }

  /** The locator runs out of windows, so output segment i pairs with only so many input segments. */
  function PairsFor(i: nat, m: nat): nat { if i <= Segments(m) then Segments(m) - i else 0 }

  /** The product of one input segment's spectrum with its window's. */
  ghost function PairPoint<F(!new)>(K: Field<F>, z: F, p: seq<F>, S: Vector<F>, i: nat, j: nat, k: nat): F {
    Mul(K, Spectrum(K, z, Window(K, p, i + j))(k), SegmentPoint(K, z, S, j, k))
  }

  /** What output segment i accumulates at point k. */
  ghost function Accumulated<F(!new)>(K: Field<F>, z: F, p: seq<F>, S: Vector<F>, i: nat, k: nat): F {
    Sum(K, (j: nat) => PairPoint(K, z, p, S, i, j, k), PairsFor(i, |S|))
  }

  /** Row t of output segment i, read from the convolution at 254 - t. */
  ghost function BlockedRow<F(!new)>(K: Field<F>, z: F, p: seq<F>, S: Vector<F>, i: nat, t: nat): F {
    Sum(K, (k: nat) => Mul(K, Accumulated(K, z, p, S, i, k), Pow(K, z, Times(k, t + 1))), CONV)
  }

  /** The share of input row r in row t of output segment i, when r is in segment j. */
  ghost function ShareOf<F(!new)>(K: Field<F>, p: seq<F>, S: Vector<F>, i: nat, j: nat, t: nat): nat -> F {
    (r: nat) => if r < |S| && t + r % BLOCK < CONV then Mul(K, S[r], Window(K, p, i + j)(254 - t - r % BLOCK))
      else K.zero
  }

  ghost function PairTerm<F(!new)>(K: Field<F>, z: F, p: seq<F>, S: Vector<F>, i: nat, j: nat, t: nat)
    : (nat, nat) -> F
  {
    (k: nat, r: nat) => Mul(K, Shifted(K, z, Window(K, p, i + j), t + 1)(k),
                            Only(K, Segment(), j, RowTerm(K, z, S, k))(r))
  }

  lemma PairTermAt<F(!new)>(K: Field<F>, z: F, p: seq<F>, S: Vector<F>, i: nat, j: nat, t: nat, k: nat, r: nat)
    ensures PairTerm(K, z, p, S, i, j, t)(k, r) ==
            Mul(K, Shifted(K, z, Window(K, p, i + j), t + 1)(k), Only(K, Segment(), j, RowTerm(K, z, S, k))(r))
  {
  }

  lemma PairRow<F(!new)>(K: Field<F>, z: F, p: seq<F>, S: Vector<F>, i: nat, j: nat, t: nat, k: nat)
    requires K.Lawful()
    ensures Mul(K, PairPoint(K, z, p, S, i, j, k), Pow(K, z, Times(k, t + 1))) ==
            Inner(K, PairTerm(K, z, p, S, i, j, t), |S|)(k)
  {
    var y, b, x := Spectrum(K, z, Window(K, p, i + j))(k), Pow(K, z, Times(k, t + 1)), SegmentPoint(K, z, S, j, k);
    var row := (r: nat) => PairTerm(K, z, p, S, i, j, t)(k, r);
    assert Shifted(K, z, Window(K, p, i + j), t + 1)(k) == Mul(K, y, b);
    forall r: nat | r < |S| ensures row(r) == Mul(K, Mul(K, y, b), Only(K, Segment(), j, RowTerm(K, z, S, k))(r)) {
      PairTermAt(K, z, p, S, i, j, t, k, r);
    }
    SumTimes(K, Mul(K, y, b), Only(K, Segment(), j, RowTerm(K, z, S, k)), row, |S|);
    MulAssoc(K, y, x, b);
    MulComm(K, x, b);
    MulAssoc(K, y, b, x);
  }

  /** Input row r's share comes back from the spectra whole. */
  lemma PairColumn<F(!new)>(K: Field<F>, z: F, p: seq<F>, S: Vector<F>, i: nat, j: nat, t: nat, r: nat)
    requires K.Lawful() && Primitive(K, z) && t < BLOCK && r < |S|
    ensures Outer(K, PairTerm(K, z, p, S, i, j, t), CONV)(r) == Only(K, Segment(), j, ShareOf(K, p, S, i, j, t))(r)
  {
    var a, y := r % BLOCK, Window(K, p, i + j);
    var col := (k: nat) => PairTerm(K, z, p, S, i, j, t)(k, r);
    if Segment()(r) != j {
      forall k: nat | k < CONV ensures col(k) == K.zero {
        PairTermAt(K, z, p, S, i, j, t, k, r);
        MulZero(K, Shifted(K, z, y, t + 1)(k));
      }
      SumZero(K, col, CONV);
    } else {
      forall k: nat | k < CONV ensures col(k) == Mul(K, S[r], Shifted(K, z, y, t + 1 + a)(k)) {
        PairTermAt(K, z, p, S, i, j, t, k, r);
        PairEntry(K, z, y, S[r], k, t + 1, a);
        RowTermAt(K, z, S, j, k, r, a);
      }
      SumTimes(K, S[r], Shifted(K, z, y, t + 1 + a), col, CONV);
      TakenBack(K, z, y, t + 1 + a, 254 - t - a);
    }
  }

  lemma RowTermAt<F(!new)>(K: Field<F>, z: F, S: Vector<F>, j: nat, k: nat, r: nat, a: nat)
    requires r < |S| && Segment()(r) == j && a == r % BLOCK
    ensures Only(K, Segment(), j, RowTerm(K, z, S, k))(r) == Mul(K, S[r], Pow(K, z, Times(k, a)))
  {
  }

  lemma PairEntry<F(!new)>(K: Field<F>, z: F, y: nat -> F, x: F, k: nat, b: nat, a: nat)
    requires K.Lawful()
    ensures Mul(K, Shifted(K, z, y, b)(k), Mul(K, x, Pow(K, z, Times(k, a)))) == Mul(K, x, Shifted(K, z, y, b + a)(k))
  {
    TimesOver(k, b, a);
    PowSplit(K, z, Times(k, b + a), Times(k, b), Times(k, a));
    FourFactors(K, Spectrum(K, z, y)(k), Pow(K, z, Times(k, b)), x, Pow(K, z, Times(k, a)));
  }

  lemma FourFactors<F(!new)>(K: Field<F>, s: F, u: F, x: F, v: F)
    requires K.Lawful()
    ensures Mul(K, Mul(K, s, u), Mul(K, x, v)) == Mul(K, x, Mul(K, s, Mul(K, u, v)))
  {
    MulComm(K, x, v);
    MulAssoc(K, Mul(K, s, u), v, x);
    MulAssoc(K, s, u, v);
    MulComm(K, Mul(K, s, Mul(K, u, v)), x);
  }

  /** One pair of segments, through the spectra. */
  lemma PairSum<F(!new)>(K: Field<F>, z: F, p: seq<F>, S: Vector<F>, i: nat, j: nat, t: nat)
    requires K.Lawful() && Primitive(K, z) && t < BLOCK
    ensures Sum(K, (k: nat) => Mul(K, PairPoint(K, z, p, S, i, j, k), Pow(K, z, Times(k, t + 1))), CONV) ==
            Sum(K, Only(K, Segment(), j, ShareOf(K, p, S, i, j, t)), |S|)
  {
    var f := PairTerm(K, z, p, S, i, j, t);
    var g := (k: nat) => Mul(K, PairPoint(K, z, p, S, i, j, k), Pow(K, z, Times(k, t + 1)));
    forall k: nat | k < CONV ensures g(k) == Inner(K, f, |S|)(k) { PairRow(K, z, p, S, i, j, t, k); }
    SumSame(K, g, Inner(K, f, |S|), CONV);
    SumSwap(K, f, CONV, |S|);
    forall r: nat | r < |S| ensures Outer(K, f, CONV)(r) == Only(K, Segment(), j, ShareOf(K, p, S, i, j, t))(r) {
      PairColumn(K, z, p, S, i, j, t, r);
    }
    SumSame(K, Outer(K, f, CONV), Only(K, Segment(), j, ShareOf(K, p, S, i, j, t)), |S|);
  }

  // All the segments.

  ghost function Crossed<F(!new)>(K: Field<F>, z: F, p: seq<F>, S: Vector<F>, i: nat, t: nat): (nat, nat) -> F {
    (k: nat, j: nat) => Mul(K, PairPoint(K, z, p, S, i, j, k), Pow(K, z, Times(k, t + 1)))
  }

  lemma CrossedAt<F(!new)>(K: Field<F>, z: F, p: seq<F>, S: Vector<F>, i: nat, t: nat, k: nat, j: nat)
    ensures Crossed(K, z, p, S, i, t)(k, j) == Mul(K, PairPoint(K, z, p, S, i, j, k), Pow(K, z, Times(k, t + 1)))
  {
  }

  ghost function PairShare<F(!new)>(K: Field<F>, p: seq<F>, S: Vector<F>, i: nat, t: nat): nat -> F {
    (j: nat) => Sum(K, Only(K, Segment(), j, ShareOf(K, p, S, i, j, t)), |S|)
  }

  lemma CrossedRow<F(!new)>(K: Field<F>, z: F, p: seq<F>, S: Vector<F>, i: nat, t: nat, k: nat, n: nat)
    requires K.Lawful()
    ensures Mul(K, Sum(K, (j: nat) => PairPoint(K, z, p, S, i, j, k), n), Pow(K, z, Times(k, t + 1))) ==
            Inner(K, Crossed(K, z, p, S, i, t), n)(k)
  {
    var b, f := Pow(K, z, Times(k, t + 1)), (j: nat) => PairPoint(K, z, p, S, i, j, k);
    var row := (j: nat) => Crossed(K, z, p, S, i, t)(k, j);
    forall j: nat | j < n ensures row(j) == Mul(K, b, f(j)) {
      CrossedAt(K, z, p, S, i, t, k, j);
      MulComm(K, f(j), b);
    }
    SumTimes(K, b, f, row, n);
    MulComm(K, b, Sum(K, f, n));
  }

  lemma CrossedColumn<F(!new)>(K: Field<F>, z: F, p: seq<F>, S: Vector<F>, i: nat, t: nat, j: nat)
    requires K.Lawful() && Primitive(K, z) && t < BLOCK
    ensures Outer(K, Crossed(K, z, p, S, i, t), CONV)(j) == PairShare(K, p, S, i, t)(j)
  {
    var col := (k: nat) => Crossed(K, z, p, S, i, t)(k, j);
    var g := (k: nat) => Mul(K, PairPoint(K, z, p, S, i, j, k), Pow(K, z, Times(k, t + 1)));
    forall k: nat | k < CONV ensures col(k) == g(k) { CrossedAt(K, z, p, S, i, t, k, j); }
    SumSame(K, col, g, CONV);
    PairSum(K, z, p, S, i, j, t);
  }

  /** A blocked row is the sum of its pairs of segments. */
  lemma BlockedIsPairs<F(!new)>(K: Field<F>, z: F, p: seq<F>, S: Vector<F>, i: nat, t: nat, n: nat)
    requires K.Lawful() && Primitive(K, z) && t < BLOCK && i + n == Segments(|S|)
    ensures BlockedRow(K, z, p, S, i, t) == Sum(K, PairShare(K, p, S, i, t), n)
  {
    var f := Crossed(K, z, p, S, i, t);
    var g := (k: nat) => Mul(K, Accumulated(K, z, p, S, i, k), Pow(K, z, Times(k, t + 1)));
    forall k: nat | k < CONV ensures g(k) == Inner(K, f, n)(k) { CrossedRow(K, z, p, S, i, t, k, n); }
    SumSame(K, g, Inner(K, f, n), CONV);
    SumSwap(K, f, CONV, n);
    forall j: nat | j < n
      ensures Outer(K, f, CONV)(j) == PairShare(K, p, S, i, t)(j) { CrossedColumn(K, z, p, S, i, t, j); }
    SumSame(K, Outer(K, f, CONV), PairShare(K, p, S, i, t), n);
  }

  /** Row at of the correlation, term by term. */
  ghost function Direct<F(!new)>(K: Field<F>, p: seq<F>, S: Vector<F>, at: nat): nat -> F {
    (r: nat) => if r < |S| then Mul(K, if r + at + 1 < |p| then p[r + at + 1] else K.zero, S[r]) else K.zero
  }

  lemma ShareIsDirect<F(!new)>(K: Field<F>, p: seq<F>, S: Vector<F>, i: nat, t: nat, r: nat)
    requires K.Lawful() && t < BLOCK && r < |S|
    ensures ShareOf(K, p, S, i, r / BLOCK, t)(r) == Direct(K, p, S, BLOCK * i + t)(r)
  {
    var a, j := r % BLOCK, r / BLOCK;
    assert BLOCK * (i + j) + CONV - (254 - t - a) == r + (BLOCK * i + t) + 1;
    MulComm(K, S[r], Window(K, p, i + j)(254 - t - a));
  }

  /** Past the last window nothing is left to add. */
  lemma {:induction false} SumStops<F(!new)>(K: Field<F>, f: nat -> F, n: nat, m: nat)
    requires K.Lawful() && n <= m && forall j: nat :: n <= j < m ==> f(j) == K.zero
    ensures Sum(K, f, m) == Sum(K, f, n)
  {
    if n < m {
      SumStops(K, f, n, m - 1);
      AddZero(K, Sum(K, f, m - 1));
    }
  }

  lemma EmptyWindow<F(!new)>(K: Field<F>, p: seq<F>, S: Vector<F>, i: nat, t: nat, j: nat)
    requires K.Lawful() && |p| == |S| + 1 && i + j >= Segments(|S|)
    ensures PairShare(K, p, S, i, t)(j) == K.zero
  {
    DivCeilCovers(|S|, BLOCK);
    MulMonotone(Segments(|S|), i + j, BLOCK);
    forall r: nat | r < |S| ensures Only(K, Segment(), j, ShareOf(K, p, S, i, j, t))(r) == K.zero {
      MulZero(K, S[r]);
    }
    SumZero(K, Only(K, Segment(), j, ShareOf(K, p, S, i, j, t)), |S|);
  }

  lemma PairIsGroup<F(!new)>(K: Field<F>, p: seq<F>, S: Vector<F>, i: nat, t: nat, j: nat)
    requires K.Lawful() && t < BLOCK
    ensures PairShare(K, p, S, i, t)(j) == Group(K, Segment(), Direct(K, p, S, BLOCK * i + t), |S|)(j)
  {
    var d := Direct(K, p, S, BLOCK * i + t);
    forall r: nat | r < |S| ensures Only(K, Segment(), j, ShareOf(K, p, S, i, j, t))(r) == Only(K, Segment(), j, d)(r) {
      ShareIsDirect(K, p, S, i, t, r);
    }
    SumSame(K, Only(K, Segment(), j, ShareOf(K, p, S, i, j, t)), Only(K, Segment(), j, d), |S|);
  }

  /** All the pairs of an output segment together are the direct sum. */
  lemma PairsAreDirect<F(!new)>(K: Field<F>, p: seq<F>, S: Vector<F>, i: nat, t: nat, n: nat)
    requires K.Lawful() && t < BLOCK && n == Segments(|S|)
    ensures Sum(K, PairShare(K, p, S, i, t), n) == Sum(K, Direct(K, p, S, BLOCK * i + t), |S|)
  {
    var m, d := |S|, Direct(K, p, S, BLOCK * i + t);
    forall j: nat | j < n
      ensures PairShare(K, p, S, i, t)(j) == Group(K, Segment(), d, m)(j) { PairIsGroup(K, p, S, i, t, j); }
    SumSame(K, PairShare(K, p, S, i, t), Group(K, Segment(), d, m), n);
    forall r: nat | r < m ensures Segment()(r) < n { InSegment(m, r, n); }
    Grouped(K, Segment(), d, m, n);
  }

  lemma InSegment(m: nat, r: nat, n: nat)
    requires r < m && n == Segments(m)
    ensures r / BLOCK < n
  {
    DivCeilCovers(m, BLOCK);
    QuotientTimes(r, BLOCK);
  }

  lemma DirectIsStage1<F(!new)>(K: Field<F>, p: seq<F>, S: Vector<F>, at: nat)
    requires K.Lawful() && |p| == |S| + 1 && at < |S|
    ensures Sum(K, Direct(K, p, S, at), |S|) == Stage1(K, p, S)[at]
  {
    SumIsDot(K, Direct(K, p, S, at), Hankel(K, p, |S|)[at], S, |S|);
  }

  lemma BlockedIsAllPairs<F(!new)>(K: Field<F>, z: F, p: seq<F>, S: Vector<F>, i: nat, t: nat, n: nat)
    requires K.Lawful() && Primitive(K, z) && t < BLOCK && |p| == |S| + 1 && i <= n == Segments(|S|)
    ensures BlockedRow(K, z, p, S, i, t) == Sum(K, PairShare(K, p, S, i, t), n)
  {
    BlockedIsPairs(K, z, p, S, i, t, n - i);
    forall j: nat | n - i <= j < n ensures PairShare(K, p, S, i, t)(j) == K.zero { EmptyWindow(K, p, S, i, t, j); }
    SumStops(K, PairShare(K, p, S, i, t), n - i, n);
  }

  lemma SegmentOf(i: nat, t: nat, m: nat)
    requires t < BLOCK && BLOCK * i + t < m
    ensures i < Segments(m)
  {
    InSegment(m, BLOCK * i + t, Segments(m));
    Quotient(BLOCK * i + t, BLOCK, i);
  }

  /** The blocked convolutions compute the first stage, row by row. */
  lemma BlockedIsStage1<F(!new)>(K: Field<F>, z: F, p: seq<F>, S: Vector<F>, i: nat, t: nat, at: nat)
    requires K.Lawful() && Primitive(K, z) && t < BLOCK && |p| == |S| + 1 && at == BLOCK * i + t < |S|
    ensures BlockedRow(K, z, p, S, i, t) == Stage1(K, p, S)[at]
  {
    SegmentOf(i, t, |S|);
    BlockedIsAllPairs(K, z, p, S, i, t, Segments(|S|));
    PairsAreDirect(K, p, S, i, t, Segments(|S|));
    DirectIsStage1(K, p, S, at);
  }
}
