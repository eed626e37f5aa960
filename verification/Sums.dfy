/** Sums over index ranges, regrouped and exchanged, and powers of a root of unity. */
module Sums {
  import opened Arithmetic
  import opened Fields

  ghost function Sum<F(!new)>(K: Field<F>, f: nat -> F, n: nat): F {
    if n == 0 then K.zero else Add(K, Sum(K, f, n - 1), f(n - 1))
  }

  lemma {:induction false} SumSame<F(!new)>(K: Field<F>, f: nat -> F, g: nat -> F, n: nat)
    requires forall i: nat :: i < n ==> f(i) == g(i)
    ensures Sum(K, f, n) == Sum(K, g, n)
  {
    if n > 0 { SumSame(K, f, g, n - 1); }
  }

  lemma {:induction false} SumZero<F(!new)>(K: Field<F>, f: nat -> F, n: nat)
    requires K.Lawful() && forall i: nat :: i < n ==> f(i) == K.zero
    ensures Sum(K, f, n) == K.zero
  {
    if n > 0 {
      SumZero(K, f, n - 1);
      AddZero(K, K.zero);
    }
  }

  lemma {:induction false} SumPlus<F(!new)>(K: Field<F>, f: nat -> F, g: nat -> F, h: nat -> F, n: nat)
    requires K.Lawful() && forall i: nat :: i < n ==> h(i) == Add(K, f(i), g(i))
    ensures Sum(K, h, n) == Add(K, Sum(K, f, n), Sum(K, g, n))
  {
    if n == 0 {
      AddZero(K, K.zero);
    } else {
      SumPlus(K, f, g, h, n - 1);
      AddMiddle(K, Sum(K, f, n - 1), Sum(K, g, n - 1), f(n - 1), g(n - 1));
    }
  }

  lemma {:induction false} SumTimes<F(!new)>(K: Field<F>, c: F, f: nat -> F, g: nat -> F, n: nat)
    requires K.Lawful() && forall i: nat :: i < n ==> g(i) == Mul(K, c, f(i))
    ensures Sum(K, g, n) == Mul(K, c, Sum(K, f, n))
  {
    if n == 0 {
      MulZero(K, c);
    } else {
      SumTimes(K, c, f, g, n - 1);
      Distribute(K, c, Sum(K, f, n - 1), f(n - 1));
    }
  }

  /** Only term j can be other than zero. */
  lemma {:induction false} SumOne<F(!new)>(K: Field<F>, f: nat -> F, n: nat, j: nat)
    requires K.Lawful() && j < n && forall i: nat :: i < n && i != j ==> f(i) == K.zero
    ensures Sum(K, f, n) == f(j)
  {
    AddZero(K, f(j));
    if j == n - 1 {
      SumZero(K, f, n - 1);
    } else {
      SumOne(K, f, n - 1, j);
    }
  }

  /** The terms whose key is j. */
  ghost function Only<F(!new)>(K: Field<F>, key: nat -> nat, j: nat, f: nat -> F): nat -> F {
    (i: nat) => if key(i) == j then f(i) else K.zero
  }

  /** The sum of the terms whose key is j. */
  ghost function Group<F(!new)>(K: Field<F>, key: nat -> nat, f: nat -> F, n: nat): nat -> F {
    (j: nat) => Sum(K, Only(K, key, j, f), n)
  }

  /** A sum is the sum of its groups. */
  lemma {:induction false} Grouped<F(!new)>(K: Field<F>, key: nat -> nat, f: nat -> F, n: nat, q: nat)
    requires K.Lawful() && forall i: nat :: i < n ==> key(i) < q
    ensures Sum(K, f, n) == Sum(K, Group(K, key, f, n), q)
  {
    if n == 0 {
      SumZero(K, Group(K, key, f, 0), q);
    } else {
      Grouped(K, key, f, n - 1, q);
      var last := (j: nat) => Only(K, key, j, f)(n - 1);
      SumPlus(K, Group(K, key, f, n - 1), last, Group(K, key, f, n), q);
      SumOne(K, last, q, key(n - 1));
    }
  }

  ghost function Inner<F(!new)>(K: Field<F>, f: (nat, nat) -> F, m: nat): nat -> F {
    (i: nat) => Sum(K, (j: nat) => f(i, j), m)
  }

  ghost function Outer<F(!new)>(K: Field<F>, f: (nat, nat) -> F, n: nat): nat -> F {
    (j: nat) => Sum(K, (i: nat) => f(i, j), n)
  }

  /** Sums exchange. */
  lemma {:induction false} SumSwap<F(!new)>(K: Field<F>, f: (nat, nat) -> F, n: nat, m: nat)
    requires K.Lawful()
    ensures Sum(K, Inner(K, f, m), n) == Sum(K, Outer(K, f, n), m)
  {
    if n == 0 {
      SumZero(K, Outer(K, f, 0), m);
    } else {
      SumSwap(K, f, n - 1, m);
      SumPlus(K, Outer(K, f, n - 1), (j: nat) => f(n - 1, j), Outer(K, f, n), m);
    }
  }

  // Powers.

  lemma {:induction false} PowAdd<F(!new)>(K: Field<F>, w: F, a: nat, b: nat)
    requires K.Lawful()
    ensures Pow(K, w, a + b) == Mul(K, Pow(K, w, a), Pow(K, w, b))
  {
    if a == 0 {
      MulOne(K, Pow(K, w, b));
    } else {
      PowAdd(K, w, a - 1, b);
      MulAssoc(K, w, Pow(K, w, a - 1), Pow(K, w, b));
    }
  }

  lemma {:induction false} PowTimes<F(!new)>(K: Field<F>, w: F, a: nat, b: nat)
    requires K.Lawful()
    ensures Pow(K, Pow(K, w, a), b) == Pow(K, w, a * b)
  {
    if b > 0 {
      PowTimes(K, w, a, b - 1);
      PowAdd(K, w, a, a * (b - 1));
      assert a * b == a + a * (b - 1);
    } else {
      assert a * b == 0;
    }
  }

  lemma {:induction false} OnePow<F(!new)>(K: Field<F>, b: nat)
    requires K.Lawful()
    ensures Pow(K, K.one, b) == K.one
  {
    if b > 0 {
      OnePow(K, b - 1);
      MulOne(K, K.one);
    }
  }

  /** Powers of an n-th root of unity depend on the exponent modulo n. */
  lemma PowMod<F(!new)>(K: Field<F>, w: F, n: nat, a: nat)
    requires K.Lawful() && n > 0 && Pow(K, w, n) == K.one
    ensures Pow(K, w, a) == Pow(K, w, a % n)
  {
    var q, r := a / n, a % n;
    assert a == n * q + r;
    PowAdd(K, w, n * q, r);
    PowTimes(K, w, n, q);
    OnePow(K, q);
    MulOne(K, Pow(K, w, r));
  }

  lemma PowSame<F(!new)>(K: Field<F>, w: F, n: nat, a: nat, b: nat)
    requires K.Lawful() && n > 0 && Pow(K, w, n) == K.one && a % n == b % n
    ensures Pow(K, w, a) == Pow(K, w, b)
  {
    PowMod(K, w, n, a);
    PowMod(K, w, n, b);
  }
}
