/** The pruned transform of recovery rows: sources are grouped by the residues of their
    exponents modulo 257, 3, 5 and 17, and each output is put together from the groups. */
module Dft {
  import opened Arithmetic
  import opened Fields
  import opened Linear
  import opened Sums
  import opened Residues
  import opened TransformArm

  /** Source i's exponent modulo m. */
  ghost function Residue(slots: seq<nat>, m: nat): nat -> nat
    requires m > 0
  {
    (i: nat) => if i < |slots| then slots[i] % m else 0
  }

  /** The powers of w that a stage multiplies by: (w^step)^(g * a). */
  ghost function Root<F(!new)>(K: Field<F>, w: F, step: nat, g: nat, a: nat): F {
    Pow(K, Pow(K, w, step), Times(g, a))
  }

  lemma RootIs<F(!new)>(K: Field<F>, w: F, step: nat, g: nat, a: nat)
    requires K.Lawful()
    ensures Root(K, w, step, g, a) == Pow(K, w, Times(step, Times(g, a)))
  {
    PowTimes(K, w, step, Times(g, a));
  }

  /** A group of terms with a common factor each: factor once for the group. */
  ghost function Staged<F(!new)>(K: Field<F>, key: nat -> nat, c: nat -> F, g: nat -> F, n: nat): nat -> F {
    (j: nat) => Mul(K, c(j), Sum(K, Only(K, key, j, g), n))
  }

  lemma Stage<F(!new)>(K: Field<F>, key: nat -> nat, c: nat -> F, f: nat -> F, g: nat -> F, n: nat, q: nat)
    requires K.Lawful() && forall i: nat :: i < n ==> key(i) < q && f(i) == Mul(K, c(key(i)), g(i))
    ensures Sum(K, f, n) == Sum(K, Staged(K, key, c, g, n), q)
  {
    Grouped(K, key, f, n, q);
    forall j: nat | j < q ensures Group(K, key, f, n)(j) == Staged(K, key, c, g, n)(j) {
      forall i: nat | i < n ensures Only(K, key, j, f)(i) == Mul(K, c(j), Only(K, key, j, g)(i)) {
        MulZero(K, c(j));
      }
      SumTimes(K, c(j), Only(K, key, j, g), Only(K, key, j, f), n);
    }
    SumSame(K, Group(K, key, f, n), Staged(K, key, c, g, n), q);
  }

  /** Restricting both sides to a group keeps a common factor. */
  lemma StageWithin<F(!new)>(K: Field<F>, within: nat -> nat, v: nat, key: nat -> nat, c: nat -> F, f: nat -> F,
                             g: nat -> F, n: nat)
    requires K.Lawful() && forall i: nat :: i < n ==> f(i) == Mul(K, c(key(i)), g(i))
    ensures forall i: nat :: i < n ==> Only(K, within, v, f)(i) == Mul(K, c(key(i)), Only(K, within, v, g)(i))
  {
    forall i: nat | i < n ensures Only(K, within, v, f)(i) == Mul(K, c(key(i)), Only(K, within, v, g)(i)) {
      MulZero(K, c(key(i)));
    }
  }

  /** One output exponent e, over sources x with exponents `slots`. */
  datatype Job<!F(!new)> = Job(w: F, slots: seq<nat>, x: seq<F>, e: nat) {

    ghost predicate Valid(K: Field<F>) {
      K.Lawful() && Pow(K, w, 65535) == K.one && |slots| == |x|
    }

    function P(): nat { InSmall(e) }

    ghost function Factor257(K: Field<F>): nat -> F { (v: nat) => Root(K, w, 255, InLarge(e), v) }
    ghost function Factor3(K: Field<F>): nat -> F { (a: nat) => Root(K, w, 21845, P() % 3, a) }
    ghost function Factor5(K: Field<F>): nat -> F { (a: nat) => Root(K, w, 13107, P() % 5, a) }
    ghost function Factor17(K: Field<F>): nat -> F { (a: nat) => Root(K, w, 3855, In17(P()), a) }

    // A source's term, one factor at a time.

    ghost function Source(K: Field<F>): nat -> F {
      (i: nat) => if i < |x| then x[i] else K.zero
    }

    ghost function Term17(K: Field<F>): nat -> F {
      (i: nat) => Mul(K, Factor17(K)(Residue(slots, 17)(i)), Source(K)(i))
    }

    ghost function Term5(K: Field<F>): nat -> F {
      (i: nat) => Mul(K, Factor5(K)(Residue(slots, 5)(i)), Term17(K)(i))
    }

    ghost function Term3(K: Field<F>): nat -> F {
      (i: nat) => Mul(K, Factor3(K)(Residue(slots, 3)(i)), Term5(K)(i))
    }

    ghost function Term257(K: Field<F>): nat -> F {
      (i: nat) => Mul(K, Factor257(K)(Residue(slots, 257)(i)), Term3(K)(i))
    }

    /** The sources of one line: (L mod 257, L mod 3, L mod 5). */
    ghost predicate InLine(v: nat, a: nat, b: nat, i: nat) {
      i < |slots| && slots[i] % 257 == v && slots[i] % 3 == a && slots[i] % 5 == b
    }

    ghost predicate LiveLine(v: nat, a: nat, b: nat) { exists i: nat :: InLine(v, a, b, i) }

    /** Stage 1: fold the sources of a line with the length-17 factors. */
    ghost function Line(K: Field<F>, v: nat, a: nat, b: nat): F {
      Sum(K, Only(K, Residue(slots, 5), b, Only(K, Residue(slots, 3), a, Only(K, Residue(slots, 257), v, Term17(K)))),
          |slots|)
    }

    /** Stage 2: the live lines of one u3, with the length-5 factors. */
    ghost function Middle(K: Field<F>, v: nat, a: nat): F {
      Sum(K, (b: nat) => if LiveLine(v, a, b) then Mul(K, Factor5(K)(b), Line(K, v, a, b)) else K.zero, 5)
    }

    ghost predicate LiveMiddle(v: nat, a: nat) { exists b: nat :: b < 5 && LiveLine(v, a, b) }

    /** Stage 3: with the length-3 factors, one bucket's result. */
    ghost function Bucket(K: Field<F>, v: nat): F {
      Sum(K, (a: nat) => if LiveMiddle(v, a) then Mul(K, Factor3(K)(a), Middle(K, v, a)) else K.zero, 3)
    }

    ghost predicate LiveBucket(v: nat) { exists a: nat :: a < 3 && LiveMiddle(v, a) }

    /** The live buckets folded into the output row. */
    ghost function Output(K: Field<F>): F {
      Sum(K, (v: nat) => if LiveBucket(v) then Mul(K, Factor257(K)(v), Bucket(K, v)) else K.zero, 257)
    }

    /** The definition: the sum of x * (w^L)^e. */
    ghost function Definition(K: Field<F>): nat -> F {
      (i: nat) => if i < |slots| && i < |x| then Mul(K, Pow(K, Pow(K, w, slots[i]), e), x[i]) else K.zero
    }
  }

  lemma DeadLine<F(!new)>(K: Field<F>, J: Job<F>, v: nat, a: nat, b: nat)
    requires J.Valid(K) && !J.LiveLine(v, a, b)
    ensures J.Line(K, v, a, b) == K.zero
  {
    var f := Only(K, Residue(J.slots, 5), b, Only(K, Residue(J.slots, 3), a,
                                                  Only(K, Residue(J.slots, 257), v, J.Term17(K))));
    forall i: nat | i < |J.slots| ensures f(i) == K.zero {
      assert !J.InLine(v, a, b, i);
    }
    SumZero(K, f, |J.slots|);
  }

  /** The terms of one u3 of a bucket, before or after their length-5 factors. */
  ghost function Held<F(!new)>(K: Field<F>, J: Job<F>, v: nat, a: nat, f: nat -> F): nat -> F {
    Only(K, Residue(J.slots, 3), a, Only(K, Residue(J.slots, 257), v, f))
  }

  lemma HeldTerms<F(!new)>(K: Field<F>, J: Job<F>, v: nat, a: nat, i: nat)
    requires J.Valid(K)
    ensures Held(K, J, v, a, J.Term5(K))(i) == Mul(K, J.Factor5(K)(Residue(J.slots, 5)(i)),
                                                   Held(K, J, v, a, J.Term17(K))(i))
  {
    MulZero(K, J.Factor5(K)(Residue(J.slots, 5)(i)));
  }

  lemma LineIs<F(!new)>(K: Field<F>, J: Job<F>, v: nat, a: nat, b: nat)
    requires J.Valid(K)
    ensures (if J.LiveLine(v, a, b) then Mul(K, J.Factor5(K)(b), J.Line(K, v, a, b)) else K.zero) ==
            Staged(K, Residue(J.slots, 5), J.Factor5(K), Held(K, J, v, a, J.Term17(K)), |J.slots|)(b)
  {
    if !J.LiveLine(v, a, b) {
      DeadLine(K, J, v, a, b);
      MulZero(K, J.Factor5(K)(b));
    }
  }

  /** Leaving dead lines out changes nothing. */
  lemma MiddleIs<F(!new)>(K: Field<F>, J: Job<F>, v: nat, a: nat)
    requires J.Valid(K)
    ensures J.Middle(K, v, a) == Sum(K, Held(K, J, v, a, J.Term5(K)), |J.slots|)
  {
    var n, key, g := |J.slots|, Residue(J.slots, 5), Held(K, J, v, a, J.Term17(K));
    forall i: nat | i < n
      ensures key(i) < 5 && Held(K, J, v, a, J.Term5(K))(i) == Mul(K, J.Factor5(K)(key(i)), g(i))
    {
      HeldTerms(K, J, v, a, i);
    }
    Stage(K, key, J.Factor5(K), Held(K, J, v, a, J.Term5(K)), g, n, 5);
    var live := (b: nat) => if J.LiveLine(v, a, b) then Mul(K, J.Factor5(K)(b), J.Line(K, v, a, b)) else K.zero;
    forall b: nat | b < 5 ensures live(b) == Staged(K, key, J.Factor5(K), g, n)(b) {
      LineIs(K, J, v, a, b);
    }
    SumSame(K, live, Staged(K, key, J.Factor5(K), g, n), 5);
  }

  lemma DeadMiddle<F(!new)>(K: Field<F>, J: Job<F>, v: nat, a: nat)
    requires J.Valid(K) && !J.LiveMiddle(v, a)
    ensures J.Middle(K, v, a) == K.zero
  {
    SumZero(K, (b: nat) => if J.LiveLine(v, a, b) then Mul(K, J.Factor5(K)(b), J.Line(K, v, a, b)) else K.zero, 5);
  }

  lemma BucketIs<F(!new)>(K: Field<F>, J: Job<F>, v: nat)
    requires J.Valid(K)
    ensures J.Bucket(K, v) == Sum(K, Only(K, Residue(J.slots, 257), v, J.Term3(K)), |J.slots|)
  {
    var n, key := |J.slots|, Residue(J.slots, 3);
    var g := Only(K, Residue(J.slots, 257), v, J.Term5(K));
    StageWithin(K, Residue(J.slots, 257), v, key, J.Factor3(K), J.Term3(K), J.Term5(K), n);
    Stage(K, key, J.Factor3(K), Only(K, Residue(J.slots, 257), v, J.Term3(K)), g, n, 3);
    var live := (a: nat) => if J.LiveMiddle(v, a) then Mul(K, J.Factor3(K)(a), J.Middle(K, v, a)) else K.zero;
    forall a: nat | a < 3 ensures live(a) == Staged(K, key, J.Factor3(K), g, n)(a) {
      MiddleIs(K, J, v, a);
      if !J.LiveMiddle(v, a) {
        DeadMiddle(K, J, v, a);
        MulZero(K, J.Factor3(K)(a));
      }
    }
    SumSame(K, live, Staged(K, key, J.Factor3(K), g, n), 3);
  }

  lemma DeadBucket<F(!new)>(K: Field<F>, J: Job<F>, v: nat)
    requires J.Valid(K) && !J.LiveBucket(v)
    ensures J.Bucket(K, v) == K.zero
  {
    SumZero(K, (a: nat) => if J.LiveMiddle(v, a) then Mul(K, J.Factor3(K)(a), J.Middle(K, v, a)) else K.zero, 3);
  }

  lemma OutputIs<F(!new)>(K: Field<F>, J: Job<F>)
    requires J.Valid(K)
    ensures J.Output(K) == Sum(K, J.Term257(K), |J.slots|)
  {
    var n, key := |J.slots|, Residue(J.slots, 257);
    Stage(K, key, J.Factor257(K), J.Term257(K), J.Term3(K), n, 257);
    var live := (v: nat) => if J.LiveBucket(v) then Mul(K, J.Factor257(K)(v), J.Bucket(K, v)) else K.zero;
    forall v: nat | v < 257 ensures live(v) == Staged(K, key, J.Factor257(K), J.Term3(K), n)(v) {
      BucketIs(K, J, v);
      if !J.LiveBucket(v) {
        DeadBucket(K, J, v);
        MulZero(K, J.Factor257(K)(v));
      }
    }
    SumSame(K, live, Staged(K, key, J.Factor257(K), J.Term3(K), n), 257);
  }

  lemma PowerOf<F(!new)>(K: Field<F>, w: F, l: nat, e: nat)
    requires K.Lawful()
    ensures Pow(K, Pow(K, w, l), e) == Pow(K, w, Times(e, l))
  {
    PowTimes(K, w, l, e);
    assert l * e == Times(e, l);
  }

  /** The four factors of a source multiply to its own power. */
  lemma FactorsMultiply<F(!new)>(K: Field<F>, w: F, e: nat, l: nat, x: F)
    requires K.Lawful() && Pow(K, w, 65535) == K.one
    ensures var p := InSmall(e);
            Mul(K, Root(K, w, 255, InLarge(e), l % 257), Mul(K, Root(K, w, 21845, p % 3, l % 3),
              Mul(K, Root(K, w, 13107, p % 5, l % 5), Mul(K, Root(K, w, 3855, In17(p), l % 17), x)))) ==
            Mul(K, Pow(K, Pow(K, w, l), e), x)
  {
    var p := InSmall(e);
    var a, b, c, d := Times(255, Times(InLarge(e), l % 257)), Times(21845, Times(p % 3, l % 3)),
                      Times(13107, Times(p % 5, l % 5)), Times(3855, Times(In17(p), l % 17));
    RootIs(K, w, 255, InLarge(e), l % 257);
    RootIs(K, w, 21845, p % 3, l % 3);
    RootIs(K, w, 13107, p % 5, l % 5);
    RootIs(K, w, 3855, In17(p), l % 17);
    FourPowers(K, w, a, b, c, d, x);
    SplitIs(e, l);
    PowSame(K, w, 65535, Split(e, l), Times(e, l));
    PowerOf(K, w, l, e);
  }

  lemma FourPowers<F(!new)>(K: Field<F>, w: F, a: nat, b: nat, c: nat, d: nat, x: F)
    requires K.Lawful()
    ensures Mul(K, Pow(K, w, a), Mul(K, Pow(K, w, b), Mul(K, Pow(K, w, c), Mul(K, Pow(K, w, d), x)))) ==
            Mul(K, Pow(K, w, a + (b + (c + d))), x)
  {
    MulAssoc(K, Pow(K, w, c), Pow(K, w, d), x);
    PowAdd(K, w, c, d);
    MulAssoc(K, Pow(K, w, b), Pow(K, w, c + d), x);
    PowAdd(K, w, b, c + d);
    MulAssoc(K, Pow(K, w, a), Pow(K, w, b + (c + d)), x);
    PowAdd(K, w, a, b + (c + d));
  }

  lemma TermIs<F(!new)>(K: Field<F>, J: Job<F>, i: nat)
    requires J.Valid(K) && i < |J.slots|
    ensures J.Term257(K)(i) == J.Definition(K)(i)
  {
    var l := J.slots[i];
    FactorsMultiply(K, J.w, J.e, l, J.x[i]);
    assert Residue(J.slots, 257)(i) == l % 257 && Residue(J.slots, 3)(i) == l % 3;
    assert Residue(J.slots, 5)(i) == l % 5 && Residue(J.slots, 17)(i) == l % 17;
    assert J.Factor17(K)(l % 17) == Root(K, J.w, 3855, In17(InSmall(J.e)), l % 17);
    assert J.Term17(K)(i) == Mul(K, J.Factor17(K)(l % 17), J.x[i]);
  }

  /** The transform computes the dense sum of x * (w^L)^e, whatever the exponents and however often they repeat. */
  lemma DftIsPowerSum<F(!new)>(K: Field<F>, J: Job<F>)
    requires J.Valid(K)
    ensures J.Output(K) == Sum(K, J.Definition(K), |J.slots|)
  {
    OutputIs(K, J);
    forall i: nat | i < |J.slots| ensures J.Term257(K)(i) == J.Definition(K)(i) {
      TermIs(K, J, i);
    }
    SumSame(K, J.Term257(K), J.Definition(K), |J.slots|);
  }

  lemma {:induction false} SumIsDot<F(!new)>(K: Field<F>, f: nat -> F, r: Vector<F>, v: Vector<F>, n: nat)
    requires n <= |r| && n <= |v| && forall i: nat :: i < n ==> f(i) == Mul(K, r[i], v[i])
    ensures Sum(K, f, n) == Dot(K, r, v, n)
  {
    if n > 0 { SumIsDot(K, f, r, v, n - 1); }
  }

  /** ... which is what the arm asks of each row of its range. */
  lemma DftMeetsContract<F(!new)>(K: Field<F>, w: F, slots: seq<nat>, sources: Vector<F>, constants: seq<F>,
                                  buf: Vector<F>, lowest: nat, q: nat)
    requires K.Lawful() && Pow(K, w, 65535) == K.one && |slots| == |sources| == |constants| && q < |buf|
    requires forall i :: 0 <= i < |constants| ==> constants[i] == Pow(K, w, slots[i])
    ensures Transformed(K, buf, sources, constants, lowest)[q] ==
            Add(K, buf[q], Job(w, slots, sources, lowest + q).Output(K))
  {
    var J := Job(w, slots, sources, lowest + q);
    DftIsPowerSum(K, J);
    SumIsDot(K, J.Definition(K), Powers(K, constants, lowest + q), sources, |constants|);
  }
}
