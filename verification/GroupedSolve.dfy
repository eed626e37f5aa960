/** The faster second stage of the closed-form solve: powers of a constant split over the
    two coprime factors of 65535, so that unknowns share the work of one of them. */
module GroupedSolve {
  import opened Arithmetic
  import opened Fields
  import opened Linear
  import opened Locators
  import opened Sums
  import opened Residues
  import opened Dft
  import opened Totient

  /** The exponents read from the two tables for constant 2^k and row t. */
  function SmallIndex(k: nat, t: nat): nat { Times(InSmall(k), t % 255) % 255 }

  function LargeIndex(k: nat, j: nat): nat { Times(InLarge(k), j) % 257 }

  /** c times x modulo m, added to a multiple of m. */
  lemma Reduced(c: nat, x: nat, y: nat, m: nat, e: nat)
    requires m > 0 && Same(Times(c, x), e, m) && y % m == 0
    ensures Same(Times(c, x % m) + y, e, m)
  {
    SameMod(x, m);
    SameTimes(x % m, x, c, m);
    assert Times(c, x % m) + y == y / m * m + Times(c, x % m);
    SameRemainder(m, y / m, Times(c, x % m));
  }

  lemma IndicesSplit(k: nat, t: nat)
    ensures Same(Times(257, SmallIndex(k, t)) + Times(255, LargeIndex(k, t % 257)), Times(k, t), 65535)
  {
    var a, b := Times(257, SmallIndex(k, t)), Times(255, LargeIndex(k, t % 257));
    SmallIs255(k);
    SameMod(t, 255);
    Term(257, HALF, InSmall(k), t % 255, k, t, 255);
    NoTerm(255, LargeIndex(k, t % 257), 255);
    Reduced(257, Times(InSmall(k), t % 255), b, 255, Times(k, t));
    LargeIs(k);
    SameMod(t, 257);
    Term(255, HALF, InLarge(k), t % 257, k, t, 257);
    NoTerm(257, SmallIndex(k, t), 257);
    Reduced(255, Times(InLarge(k), t % 257), a, 257, Times(k, t));
    Same65535(a + b, Times(k, t));
  }

  lemma SmallIs255(k: nat)
    ensures Same(InSmall(k), Times(HALF, k), 255)
  {
    SameMod(Times(HALF, k % 255), 255);
    SameMod(k, 255);
    SameTimes(k % 255, k, HALF, 255);
  }

  /** Row t, weighted by the factor every unknown with the same k mod 255 shares. */
  ghost function Weighted<F(!new)>(K: Field<F>, w: F, k: nat, T: Vector<F>): nat -> F {
    (t: nat) => if t < |T| then Mul(K, Pow(K, Pow(K, w, 257), SmallIndex(k, t)), T[t]) else K.zero
  }

  ghost function Mod257(): nat -> nat { (t: nat) => t % 257 }

  /** Bucket j: the weighted rows t == j modulo 257. */
  ghost function BucketRow<F(!new)>(K: Field<F>, w: F, k: nat, T: Vector<F>, j: nat): F {
    Sum(K, Only(K, Mod257(), j, Weighted(K, w, k, T)), |T|)
  }

  ghost function Beta<F(!new)>(K: Field<F>, w: F, k: nat): nat -> F {
    (j: nat) => Pow(K, Pow(K, w, 255), LargeIndex(k, j))
  }

  /** evaluate_grouped for one unknown: one fold over the 257 buckets, the scale in every factor. */
  ghost function Evaluated<F(!new)>(K: Field<F>, w: F, k: nat, scale: F, T: Vector<F>): F {
    Sum(K, (j: nat) => Mul(K, Mul(K, scale, Beta(K, w, k)(j)), BucketRow(K, w, k, T, j)), 257)
  }

  ghost function PowerTerm<F(!new)>(K: Field<F>, w: F, k: nat, T: Vector<F>): nat -> F {
    (t: nat) => if t < |T| then Mul(K, Pow(K, Pow(K, w, k), t), T[t]) else K.zero
  }

  lemma PowerTermIs<F(!new)>(K: Field<F>, w: F, k: nat, T: Vector<F>, t: nat)
    requires K.Lawful() && Pow(K, w, 65535) == K.one && t < |T|
    ensures PowerTerm(K, w, k, T)(t) == Mul(K, Beta(K, w, k)(t % 257), Weighted(K, w, k, T)(t))
  {
    var a, b := SmallIndex(k, t), LargeIndex(k, t % 257);
    PowTimes(K, w, 257, a);
    PowTimes(K, w, 255, b);
    MulAssoc(K, Pow(K, w, Times(255, b)), Pow(K, w, Times(257, a)), T[t]);
    PowAdd(K, w, Times(255, b), Times(257, a));
    IndicesSplit(k, t);
    PowSame(K, w, 65535, Times(255, b) + Times(257, a), Times(k, t));
    PowTimes(K, w, k, t);
  }

  /** The grouped evaluation is the direct one. */
  lemma GroupedIsDirect<F(!new)>(K: Field<F>, w: F, k: nat, scale: F, T: Vector<F>)
    requires K.Lawful() && Pow(K, w, 65535) == K.one
    ensures Evaluated(K, w, k, scale, T) == Mul(K, scale, Dot(K, Ladder(K, Pow(K, w, k), |T|), T, |T|))
  {
    var n, f := |T|, PowerTerm(K, w, k, T);
    forall t: nat | t < n
      ensures Mod257()(t) < 257 && f(t) == Mul(K, Beta(K, w, k)(Mod257()(t)), Weighted(K, w, k, T)(t)) {
      PowerTermIs(K, w, k, T, t);
    }
    Stage(K, Mod257(), Beta(K, w, k), f, Weighted(K, w, k, T), n, 257);
    SumIsDot(K, f, Ladder(K, Pow(K, w, k), n), T, n);
    var scaled := (j: nat) => Mul(K, Mul(K, scale, Beta(K, w, k)(j)), BucketRow(K, w, k, T, j));
    var plain := Staged(K, Mod257(), Beta(K, w, k), Weighted(K, w, k, T), n);
    forall j: nat | j < 257 ensures scaled(j) == Mul(K, scale, plain(j)) {
      MulAssoc(K, scale, Beta(K, w, k)(j), BucketRow(K, w, k, T, j));
    }
    SumTimes(K, scale, plain, scaled, 257);
  }

  lemma GroupedIsStage2<F(!new)>(K: Field<F>, w: F, k: nat, p: seq<F>, e: nat, T: Vector<F>)
    requires K.Lawful() && Pow(K, w, 65535) == K.one
    ensures Evaluated(K, w, k, Scale(K, p, Pow(K, w, k), e), T) == Stage2(K, p, Pow(K, w, k), e, T)
  {
    GroupedIsDirect(K, w, k, Scale(K, p, Pow(K, w, k), e), T);
  }
}
