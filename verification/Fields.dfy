/** Fields of characteristic two: what the repair algebra needs of GF(2^16) and
    what the checksum algebra needs of GF(2). */
module Fields {

  datatype Field<!F(!new)> = Field(zero: F, one: F, add: (F, F) -> F, mul: (F, F) -> F, inv: F -> F) {

    /** Every law of the field holds of every triple of elements. The law named
        by `Named` is drawn on only where a proof names the elements it wants. */
    ghost predicate Lawful() {
      one != zero &&
      forall a: F, b: F, c: F {:trigger Named(a, b, c)} :: LawsOf(a, b, c)
    }

    ghost predicate LawsOf(a: F, b: F, c: F) {
      && add(a, zero) == a
      && add(a, a) == zero
      && add(a, b) == add(b, a)
      && add(add(a, b), c) == add(a, add(b, c))
      && mul(a, one) == a
      && mul(a, b) == mul(b, a)
      && mul(mul(a, b), c) == mul(a, mul(b, c))
      && mul(a, add(b, c)) == add(mul(a, b), mul(a, c))
      && (a != zero ==> mul(a, inv(a)) == one)
    }
  }

  ghost predicate Named<F(!new)>(a: F, b: F, c: F) { true }

  function Add<F(!new)>(K: Field<F>, a: F, b: F): F { K.add(a, b) }

  function Mul<F(!new)>(K: Field<F>, a: F, b: F): F { K.mul(a, b) }

  function Inv<F(!new)>(K: Field<F>, a: F): F { K.inv(a) }

  /** Powers, with x^0 == 1 for every x as PAR2 has it. */
  function Pow<F(!new)>(K: Field<F>, a: F, e: nat): F {
    if e == 0 then K.one else Mul(K, a, Pow(K, a, e - 1))
  }

  lemma AddZero<F(!new)>(K: Field<F>, a: F)
    requires K.Lawful()
    ensures Add(K, a, K.zero) == a && Add(K, K.zero, a) == a
  {
    assert Named(a, K.zero, a);
  }

  lemma AddSelf<F(!new)>(K: Field<F>, a: F)
    requires K.Lawful()
    ensures Add(K, a, a) == K.zero
  {
    assert Named(a, a, a);
  }

  lemma AddComm<F(!new)>(K: Field<F>, a: F, b: F)
    requires K.Lawful()
    ensures Add(K, a, b) == Add(K, b, a)
  {
    assert Named(a, b, b);
  }

  lemma AddAssoc<F(!new)>(K: Field<F>, a: F, b: F, c: F)
    requires K.Lawful()
    ensures Add(K, Add(K, a, b), c) == Add(K, a, Add(K, b, c))
  {
    assert Named(a, b, c);
  }

  lemma MulOne<F(!new)>(K: Field<F>, a: F)
    requires K.Lawful()
    ensures Mul(K, a, K.one) == a && Mul(K, K.one, a) == a
  {
    assert Named(a, K.one, a);
  }

  lemma MulComm<F(!new)>(K: Field<F>, a: F, b: F)
    requires K.Lawful()
    ensures Mul(K, a, b) == Mul(K, b, a)
  {
    assert Named(a, b, b);
  }

  lemma MulAssoc<F(!new)>(K: Field<F>, a: F, b: F, c: F)
    requires K.Lawful()
    ensures Mul(K, Mul(K, a, b), c) == Mul(K, a, Mul(K, b, c))
  {
    assert Named(a, b, c);
  }

  lemma Distribute<F(!new)>(K: Field<F>, a: F, b: F, c: F)
    requires K.Lawful()
    ensures Mul(K, a, Add(K, b, c)) == Add(K, Mul(K, a, b), Mul(K, a, c))
  {
    assert Named(a, b, c);
  }

  lemma MulInv<F(!new)>(K: Field<F>, a: F)
    requires K.Lawful() && a != K.zero
    ensures Mul(K, a, Inv(K, a)) == K.one && Mul(K, Inv(K, a), a) == K.one
  {
    assert Named(a, K.inv(a), a);
  }

  /** Addition cancels: it is its own inverse. */
  lemma AddTwice<F(!new)>(K: Field<F>, a: F, b: F)
    requires K.Lawful()
    ensures Add(K, Add(K, a, b), b) == a && Add(K, a, Add(K, a, b)) == b
  {
    AddAssoc(K, a, b, b);
    AddSelf(K, b);
    AddZero(K, a);
    AddAssoc(K, a, a, b);
    AddSelf(K, a);
    AddZero(K, b);
  }

  lemma AddToZero<F(!new)>(K: Field<F>, a: F, b: F)
    requires K.Lawful()
    ensures Add(K, a, b) == K.zero <==> a == b
  {
    AddTwice(K, a, b);
    AddSelf(K, b);
    AddZero(K, b);
  }

  /** (a + b) + (c + d) == (a + c) + (b + d) */
  lemma AddMiddle<F(!new)>(K: Field<F>, a: F, b: F, c: F, d: F)
    requires K.Lawful()
    ensures Add(K, Add(K, a, b), Add(K, c, d)) == Add(K, Add(K, a, c), Add(K, b, d))
  {
    AddAssoc(K, a, b, Add(K, c, d));
    AddAssoc(K, b, c, d);
    AddComm(K, b, c);
    AddAssoc(K, c, b, d);
    AddAssoc(K, a, c, Add(K, b, d));
  }

  lemma MulZero<F(!new)>(K: Field<F>, a: F)
    requires K.Lawful()
    ensures Mul(K, a, K.zero) == K.zero && Mul(K, K.zero, a) == K.zero
  {
    Distribute(K, a, K.zero, K.zero);
    AddZero(K, K.zero);
    AddSelf(K, Mul(K, a, K.zero));
    MulComm(K, a, K.zero);
  }

  lemma MulToZero<F(!new)>(K: Field<F>, a: F, b: F)
    requires K.Lawful() && a != K.zero
    ensures Mul(K, a, b) == K.zero <==> b == K.zero
  {
    MulZero(K, a);
    if Mul(K, a, b) == K.zero {
      MulAssoc(K, Inv(K, a), a, b);
      MulInv(K, a);
      MulOne(K, b);
      MulZero(K, Inv(K, a));
    }
  }

  lemma InvNonZero<F(!new)>(K: Field<F>, a: F)
    requires K.Lawful() && a != K.zero
    ensures Inv(K, a) != K.zero
  {
    MulInv(K, a);
    MulZero(K, a);
  }
}
