/** The length-255 transform as three short ones: the radices 3, 5 and 17 are coprime, so
    residues re-index it with no factors between the stages. */
module PrimeFactor {
  import opened Arithmetic
  import opened Fields
  import opened Linear
  import opened Sums
  import opened Residues
  import opened Dft
  import opened Convolution
  import opened Totient

  /** The weight of a radix is one modulo it and zero modulo the other two. */
  const W3: nat := 85
  const W5: nat := 51
  const W17: nat := 120

  /** natural_index. */
  function Natural(a: nat, b: nat, c: nat): (k: nat)
    ensures k < 255
  {
    (W3 * a + W5 * b + W17 * c) % 255
  }

  lemma NaturalIs(a: nat, b: nat, c: nat)
    requires a < 3 && b < 5 && c < 17
    ensures var k := Natural(a, b, c); k % 3 == a && k % 5 == b && k % 17 == c
  {
    var n := W3 * a + W5 * b + W17 * c;
    LeavesOnly(n, 85, 3, 28 * a + 17 * b + 40 * c, a);
    LeavesOnly(n, 51, 5, 17 * a + 10 * b + 24 * c, b);
    LeavesOnly(n, 15, 17, 5 * a + 3 * b + 7 * c, c);
  }

  lemma LeavesOnly(n: nat, k: nat, m: nat, q: nat, r: nat)
    requires m > 0 && k > 0 && k * m == 255 && n == q * m + r && r < m
    ensures n % 255 % m == r
  {
    SameModMultiple(n, k, m);
    RemainderIs(n, m, q, r);
  }

  /** Coordinates determine the index. */
  lemma NaturalUnique(k: nat)
    requires k < 255
    ensures Natural(k % 3, k % 5, k % 17) == k
  {
    var n := Natural(k % 3, k % 5, k % 17);
    NaturalIs(k % 3, k % 5, k % 17);
    Same255(n, k);
    SameSmall(n, k);
  }

  lemma SameSmall(n: nat, k: nat)
    requires n < 255 && k < 255 && Same(n, k, 255)
    ensures n == k
  {
  }

  /** An exponent of the root, as one product for each radix. */
  function Parts(e: nat, n: nat): nat {
    Times(W3, Times(e % 3, n % 3)) + Times(W5, Times(e % 5, n % 5)) + Times(W17, Times(e % 17, n % 17))
  }

  lemma FirstOfThree(a: nat, b: nat, c: nat, x: nat, m: nat)
    requires m > 0 && Same(a, x, m) && b % m == 0 && c % m == 0
    ensures Same(a + b + c, x, m)
  {
    AddMultiple(a, b, x, m);
    AddMultiple(a + b, c, x, m);
  }

  lemma PartsIs(e: nat, n: nat)
    ensures Same(Parts(e, n), Times(e, n), 255)
  {
    var x, y, z := Times(W3, Times(e % 3, n % 3)), Times(W5, Times(e % 5, n % 5)), Times(W17, Times(e % 17, n % 17));
    SameMod(e, 3);
    SameMod(n, 3);
    Term(W3, 1, e % 3, n % 3, e, n, 3);
    NoTerm(W5, Times(e % 5, n % 5), 3);
    NoTerm(W17, Times(e % 17, n % 17), 3);
    FirstOfThree(x, y, z, Times(e, n), 3);
    SameMod(e, 5);
    SameMod(n, 5);
    Term(W5, 1, e % 5, n % 5, e, n, 5);
    NoTerm(W3, Times(e % 3, n % 3), 5);
    NoTerm(W17, Times(e % 17, n % 17), 5);
    FirstOfThree(y, x, z, Times(e, n), 5);
    SameMod(e, 17);
    SameMod(n, 17);
    Term(W17, 1, e % 17, n % 17, e, n, 17);
    NoTerm(W3, Times(e % 3, n % 3), 17);
    NoTerm(W5, Times(e % 5, n % 5), 17);
    FirstOfThree(z, x, y, Times(e, n), 17);
    Same255(x + y + z, Times(e, n));
  }

  /** An entry of a radix's matrix, its exponent reduced. */
  ghost function Entry<F(!new)>(K: Field<F>, z: F, weight: nat, k: nat, n: nat): F {
    Pow(K, z, Times(weight, Times(k, n)) % 255)
  }

  /** ... and of its inverse's, the exponent negated. */
  function Negated(e: nat): nat { if e % 255 == 0 then 0 else 255 - e % 255 }

  ghost function InverseEntry<F(!new)>(K: Field<F>, z: F, weight: nat, k: nat, n: nat): F {
    Pow(K, z, Negated(Times(weight, Times(k, n))))
  }

  lemma EntryIs<F(!new)>(K: Field<F>, z: F, weight: nat, k: nat, n: nat)
    requires K.Lawful() && Pow(K, z, 255) == K.one
    ensures Entry(K, z, weight, k, n) == Pow(K, z, Times(weight, Times(k, n)))
  {
    PowMod(K, z, 255, Times(weight, Times(k, n)));
  }

  lemma ThreePowers<F(!new)>(K: Field<F>, z: F, a: nat, b: nat, c: nat, x: F)
    requires K.Lawful()
    ensures Mul(K, Pow(K, z, a), Mul(K, Pow(K, z, b), Mul(K, Pow(K, z, c), x))) == Mul(K, Pow(K, z, a + b + c), x)
  {
    MulAssoc(K, Pow(K, z, b), Pow(K, z, c), x);
    PowAdd(K, z, b, c);
    MulAssoc(K, Pow(K, z, a), Pow(K, z, b + c), x);
    PowAdd(K, z, a, b + c);
  }

  lemma EntriesMultiply<F(!new)>(K: Field<F>, z: F, k: nat, n: nat, x: F)
    requires K.Lawful() && Pow(K, z, 255) == K.one
    ensures Mul(K, Entry(K, z, W3, k % 3, n % 3), Mul(K, Entry(K, z, W5, k % 5, n % 5),
                                                      Mul(K, Entry(K, z, W17, k % 17, n % 17), x))) ==
            Mul(K, Pow(K, z, Times(k, n)), x)
  {
    EntryIs(K, z, W3, k % 3, n % 3);
    EntryIs(K, z, W5, k % 5, n % 5);
    EntryIs(K, z, W17, k % 17, n % 17);
    ThreePowers(K, z, Times(W3, Times(k % 3, n % 3)), Times(W5, Times(k % 5, n % 5)), Times(W17, Times(k % 17, n % 17)),
                x);
    PartsIs(k, n);
    PowSame(K, z, 255, Parts(k, n), Times(k, n));
  }

  /** Exponents that cancel the same thing are the same. */
  lemma SameNegated(p: nat, q: nat, x: nat, y: nat)
    requires (p + x) % 255 == 0 && (q + y) % 255 == 0 && Same(x, y, 255)
    ensures Same(p, q, 255)
  {
  }

  lemma NegatedIs(a: nat, b: nat, c: nat)
    ensures (Negated(a) + Negated(b) + Negated(c) + (a + b + c)) % 255 == 0
  {
    assert (Negated(a) + a) % 255 == 0 && (Negated(b) + b) % 255 == 0 && (Negated(c) + c) % 255 == 0;
  }

  lemma Cancels(k: nat, v: nat, s: nat)
    requires v + s == 255
    ensures (Times(k, s) + Times(v, k)) % 255 == 0
  {
    assert Times(k, s) + Times(v, k) == k * 255;
    MultipleOf(k, 255);
  }

  lemma InversesMultiply<F(!new)>(K: Field<F>, z: F, v: nat, s: nat, k: nat, x: F)
    requires K.Lawful() && Pow(K, z, 255) == K.one && v + s == 255
    ensures Mul(K, InverseEntry(K, z, W17, v % 17, k % 17), Mul(K, InverseEntry(K, z, W5, v % 5, k % 5),
              Mul(K, InverseEntry(K, z, W3, v % 3, k % 3), x))) == Mul(K, Pow(K, z, Times(k, s)), x)
  {
    var a, b, c := Times(W3, Times(v % 3, k % 3)), Times(W5, Times(v % 5, k % 5)), Times(W17, Times(v % 17, k % 17));
    ThreePowers(K, z, Negated(c), Negated(b), Negated(a), x);
    PartsIs(v, k);
    NegatedIs(a, b, c);
    Cancels(k, v, s);
    SameNegated(Negated(a) + Negated(b) + Negated(c), Times(k, s), a + b + c, Times(v, k));
    PowSame(K, z, 255, Negated(c) + Negated(b) + Negated(a), Times(k, s));
  }

  // Two stages over a sum.

  ghost function Nested<F(!new)>(K: Field<F>, keyA: nat -> nat, cA: nat -> F, keyB: nat -> nat, cB: nat -> F,
                                 g: nat -> F,
                                 n: nat, qB: nat): nat -> F {
    (a: nat) => Mul(K, cA(a), Sum(K, Staged(K, keyB, cB, Only(K, keyA, a, g), n), qB))
  }

  lemma TwoStages<F(!new)>(K: Field<F>, keyA: nat -> nat, cA: nat -> F, qA: nat, keyB: nat -> nat, cB: nat -> F,
                           qB: nat,
                           f: nat -> F, g: nat -> F, n: nat)
    requires K.Lawful()
    requires forall i: nat :: i < n ==>
             keyA(i) < qA && keyB(i) < qB && f(i) == Mul(K, cA(keyA(i)), Mul(K, cB(keyB(i)), g(i)))
    ensures Sum(K, f, n) == Sum(K, Nested(K, keyA, cA, keyB, cB, g, n, qB), qA)
  {
    var h := (i: nat) => Mul(K, cB(keyB(i)), g(i));
    Stage(K, keyA, cA, f, h, n, qA);
    forall a: nat | a < qA ensures Staged(K, keyA, cA, h, n)(a) == Nested(K, keyA, cA, keyB, cB, g, n, qB)(a) {
      StageWithin(K, keyA, a, keyB, cB, h, g, n);
      Stage(K, keyB, cB, Only(K, keyA, a, h), Only(K, keyA, a, g), n, qB);
    }
    SumSame(K, Staged(K, keyA, cA, h, n), Nested(K, keyA, cA, keyB, cB, g, n, qB), qA);
  }

  // Forward: a segment's rows into its spectrum.

  ghost function RowMod(m: nat): nat -> nat
    requires m > 0
  {
    (r: nat) => r % BLOCK % m
  }

  ghost function Entries<F(!new)>(K: Field<F>, z: F, weight: nat, k: nat): nat -> F { (a: nat) =>
        Entry(K, z, weight, k, a) }

  /** Row r with its length-17 factor, in segment j only. */
  ghost function Radix17<F(!new)>(K: Field<F>, z: F, S: Vector<F>, j: nat, k: nat): nat -> F {
    (r: nat) => if r < |S| && r / BLOCK == j then Mul(K, Entry(K, z, W17, k, r % BLOCK % 17), S[r]) else K.zero
  }

  /** The three stages, at coordinates (k3, k5, k17): fold each class of rows, then along 5, then along 3. */
  ghost function Network<F(!new)>(K: Field<F>, z: F, S: Vector<F>, j: nat, k3: nat, k5: nat, k17: nat): F {
    Sum(K, Nested(K, RowMod(3), Entries(K, z, W3, k3), RowMod(5), Entries(K, z, W5, k5), Radix17(K, z, S, j, k17), |S|,
                  5), 3)
  }

  lemma RowFactors<F(!new)>(K: Field<F>, z: F, S: Vector<F>, j: nat, k: nat, r: nat)
    requires K.Lawful() && Pow(K, z, 255) == K.one && r < |S|
    ensures Only(K, Segment(), j, RowTerm(K, z, S, k))(r) ==
            Mul(K, Entries(K, z, W3, k % 3)(RowMod(3)(r)),
                Mul(K, Entries(K, z, W5, k % 5)(RowMod(5)(r)), Radix17(K, z, S, j, k % 17)(r)))
  {
    var n := r % BLOCK;
    if r / BLOCK == j {
      RowTermAt(K, z, S, j, k, r, n);
      EntriesMultiply(K, z, k, n, S[r]);
      MulComm(K, S[r], Pow(K, z, Times(k, n)));
    } else {
      MulZero(K, Entries(K, z, W5, k % 5)(RowMod(5)(r)));
      MulZero(K, Entries(K, z, W3, k % 3)(RowMod(3)(r)));
    }
  }

  /** The network gives every point of the segment's spectrum. */
  lemma NetworkIsSpectrum<F(!new)>(K: Field<F>, z: F, S: Vector<F>, j: nat, k3: nat, k5: nat, k17: nat)
    requires K.Lawful() && Pow(K, z, 255) == K.one && k3 < 3 && k5 < 5 && k17 < 17
    ensures Network(K, z, S, j, k3, k5, k17) == SegmentPoint(K, z, S, j, Natural(k3, k5, k17))
  {
    var k := Natural(k3, k5, k17);
    NaturalIs(k3, k5, k17);
    var f, g := Only(K, Segment(), j, RowTerm(K, z, S, k)), Radix17(K, z, S, j, k17);
    forall r: nat | r < |S|
      ensures RowMod(3)(r) < 3 && RowMod(5)(r) < 5
      ensures f(r) == Mul(K, Entries(K, z, W3, k3)(RowMod(3)(r)), Mul(K, Entries(K, z, W5, k5)(RowMod(5)(r)), g(r)))
    {
      RowFactors(K, z, S, j, k, r);
    }
    TwoStages(K, RowMod(3), Entries(K, z, W3, k3), 3, RowMod(5), Entries(K, z, W5, k5), 5, f, g, |S|);
  }

  // Back: the accumulated spectrum into one row.

  ghost function Mod(m: nat): nat -> nat
    requires m > 0
  {
    (k: nat) => k % m
  }

  ghost function InverseEntries<F(!new)>(K: Field<F>, z: F, weight: nat, k: nat): nat -> F {
    (a: nat) => InverseEntry(K, z, weight, k, a)
  }

  ghost function Along3<F(!new)>(K: Field<F>, z: F, acc: nat -> F, v: nat, b: nat, c: nat): F {
    Sum(K, (a: nat) => Mul(K, InverseEntry(K, z, W3, v % 3, a), acc(Natural(a, b, c))), 3)
  }

  ghost function Along5<F(!new)>(K: Field<F>, z: F, acc: nat -> F, v: nat, c: nat): F {
    Sum(K, (b: nat) => Mul(K, InverseEntry(K, z, W5, v % 5, b), Along3(K, z, acc, v, b, c)), 5)
  }

  /** The inverse network, read at v only. */
  ghost function InverseNetwork<F(!new)>(K: Field<F>, z: F, acc: nat -> F, v: nat): F {
    Sum(K, (c: nat) => Mul(K, InverseEntry(K, z, W17, v % 17, c), Along5(K, z, acc, v, c)), 17)
  }

  /** One point has the three residues. */
  lemma OnePoint<F(!new)>(K: Field<F>, acc: nat -> F, a: nat, b: nat, c: nat)
    requires K.Lawful() && a < 3 && b < 5 && c < 17
    ensures Sum(K, Only(K, Mod(3), a, Only(K, Mod(5), b, Only(K, Mod(17), c, acc))), 255) == acc(Natural(a, b, c))
  {
    var f, at := Only(K, Mod(3), a, Only(K, Mod(5), b, Only(K, Mod(17), c, acc))), Natural(a, b, c);
    NaturalIs(a, b, c);
    forall k: nat | k < 255 && k != at ensures f(k) == K.zero {
      NaturalUnique(k);
    }
    SumOne(K, f, 255, at);
  }

  ghost function With3<F(!new)>(K: Field<F>, z: F, acc: nat -> F, v: nat): nat -> F {
    (k: nat) => Mul(K, InverseEntry(K, z, W3, v % 3, k % 3), acc(k))
  }

  /** The points with these two residues. */
  ghost function At<F(!new)>(K: Field<F>, b: nat, c: nat, f: nat -> F): nat -> F {
    Only(K, Mod(5), b, Only(K, Mod(17), c, f))
  }

  lemma AtFactors<F(!new)>(K: Field<F>, z: F, acc: nat -> F, v: nat, b: nat, c: nat, k: nat)
    requires K.Lawful()
    ensures At(K, b, c, With3(K, z, acc, v))(k) == Mul(K, InverseEntries(K, z, W3, v % 3)(Mod(3)(k)),
                                                       At(K, b, c, acc)(k))
  {
    MulZero(K, InverseEntries(K, z, W3, v % 3)(Mod(3)(k)));
  }

  lemma Along3Is<F(!new)>(K: Field<F>, z: F, acc: nat -> F, v: nat, b: nat, c: nat)
    requires K.Lawful() && b < 5 && c < 17
    ensures Along3(K, z, acc, v, b, c) == Sum(K, At(K, b, c, With3(K, z, acc, v)), 255)
  {
    var e, f, g := InverseEntries(K, z, W3, v % 3), At(K, b, c, With3(K, z, acc, v)), At(K, b, c, acc);
    forall k: nat | k < 255 ensures Mod(3)(k) < 3 && f(k) == Mul(K, e(Mod(3)(k)), g(k)) {
      AtFactors(K, z, acc, v, b, c, k);
    }
    Stage(K, Mod(3), e, f, g, 255, 3);
    var row := (a: nat) => Mul(K, InverseEntry(K, z, W3, v % 3, a), acc(Natural(a, b, c)));
    forall a: nat | a < 3 ensures row(a) == Staged(K, Mod(3), e, g, 255)(a) {
      OnePoint(K, acc, a, b, c);
    }
    SumSame(K, row, Staged(K, Mod(3), e, g, 255), 3);
  }

  lemma Along5Is<F(!new)>(K: Field<F>, z: F, acc: nat -> F, v: nat, c: nat)
    requires K.Lawful() && c < 17
    ensures Along5(K, z, acc, v, c) ==
            Sum(K, Staged(K, Mod(5), InverseEntries(K, z, W5, v % 5), Only(K, Mod(17), c, With3(K, z, acc, v)), 255), 5)
  {
    var row := (b: nat) => Mul(K, InverseEntry(K, z, W5, v % 5, b), Along3(K, z, acc, v, b, c));
    var staged := Staged(K, Mod(5), InverseEntries(K, z, W5, v % 5), Only(K, Mod(17), c, With3(K, z, acc, v)), 255);
    forall b: nat | b < 5 ensures row(b) == staged(b) {
      Along3Is(K, z, acc, v, b, c);
    }
    SumSame(K, row, staged, 5);
  }

  /** The inverse network is the inverse transform. */
  lemma InverseNetworkIs<F(!new)>(K: Field<F>, z: F, acc: nat -> F, v: nat, s: nat)
    requires K.Lawful() && Pow(K, z, 255) == K.one && v + s == 255
    ensures InverseNetwork(K, z, acc, v) == Sum(K, (k: nat) => Mul(K, acc(k), Pow(K, z, Times(k, s))), 255)
  {
    var f, g := (k: nat) => Mul(K, acc(k), Pow(K, z, Times(k, s))), With3(K, z, acc, v);
    var e17, e5 := InverseEntries(K, z, W17, v % 17), InverseEntries(K, z, W5, v % 5);
    forall k: nat | k < 255
      ensures Mod(17)(k) < 17 && Mod(5)(k) < 5 && f(k) == Mul(K, e17(Mod(17)(k)), Mul(K, e5(Mod(5)(k)), g(k))) {
      InversesMultiply(K, z, v, s, k, acc(k));
      MulComm(K, acc(k), Pow(K, z, Times(k, s)));
    }
    TwoStages(K, Mod(17), e17, 17, Mod(5), e5, 5, f, g, 255);
    var row := (c: nat) => Mul(K, InverseEntry(K, z, W17, v % 17, c), Along5(K, z, acc, v, c));
    forall c: nat | c < 17 ensures row(c) == Nested(K, Mod(17), e17, Mod(5), e5, g, 255, 5)(c) {
      Along5Is(K, z, acc, v, c);
    }
    SumSame(K, row, Nested(K, Mod(17), e17, Mod(5), e5, g, 255, 5), 17);
  }
}
