/** Prime divisors of products. */
module Divisors {
  import opened Arithmetic

  ghost predicate Divides(d: nat, n: nat)
    requires d > 0
  {
    exists q: nat :: Multiple(q, d) == n
  }

  function Multiple(q: nat, d: nat): nat { q * d }

  ghost predicate Prime(p: nat) {
    p > 1 && forall a: nat, b: nat {:trigger Multiple(a, b)} :: Multiple(a, b) == p ==> a == 1 || b == 1
  }

  lemma DividesTimes(d: nat, a: nat, k: nat)
    requires d > 0 && Divides(d, a)
    ensures Divides(d, k * a)
  {
    var x: nat :| Multiple(x, d) == a;
    assert k * (x * d) == (k * x) * d;
    assert Multiple(k * x, d) == k * a;
  }

  lemma DividesRest(d: nat, a: nat, b: nat)
    requires d > 0 && Divides(d, a + b) && Divides(d, a)
    ensures Divides(d, b)
  {
    var x: nat :| Multiple(x, d) == a;
    var y: nat :| Multiple(y, d) == a + b;
    if y < x { MulMonotone(y + 1, x, d); }
    assert (y - x) * d == y * d - x * d;
    assert Multiple(y - x, d) == b;
  }

  /** The least positive s for which p divides s * b divides every other. */
  lemma {:induction false} LeastMultiplier(p: nat, b: nat, from: nat, s: nat) returns (m: nat)
    requires p > 0 && 0 < from <= s && Divides(p, s * b)
    requires forall t: nat :: 0 < t < from ==> !Divides(p, t * b)
    ensures 0 < m <= s && Divides(p, m * b) && forall t: nat :: 0 < t < m ==> !Divides(p, t * b)
    decreases s - from
  {
    if Divides(p, from * b) {
      m := from;
    } else {
      m := LeastMultiplier(p, b, from + 1, s);
    }
  }

  lemma LeastDivides(p: nat, b: nat, m: nat, a: nat)
    requires p > 0 && m > 0 && Divides(p, m * b) && (forall t: nat :: 0 < t < m ==> !Divides(p, t * b)) &&
             Divides(p, a * b)
    ensures Divides(m, a)
  {
    var q, r := a / m, a % m;
    assert a == q * m + r;
    DividesTimes(p, m * b, q);
    assert a * b == q * (m * b) + r * b;
    DividesRest(p, q * (m * b), r * b);
    assert Multiple(q, m) == a;
  }

  /** A prime that divides a product divides a factor. */
  lemma PrimeSplits(p: nat, a: nat, b: nat)
    requires Prime(p) && Divides(p, a * b)
    ensures Divides(p, a) || Divides(p, b)
  {
    if a == 0 {
      assert Multiple(0, p) == a;
    } else {
      var m := LeastMultiplier(p, b, 1, a);
      assert Multiple(b, p) == p * b;
      LeastDivides(p, b, m, p);
      LeastDivides(p, b, m, a);
      var q: nat :| Multiple(q, m) == p;
      if m == 1 {
        assert 1 * b == b;
      } else {
        assert q == 1 && m == p;
      }
    }
  }

  // 65535 = 3 * 5 * 17 * 257.

  lemma SmallPrimes()
    ensures Prime(3) && Prime(5) && Prime(17)
  {
    forall a: nat, b: nat | Multiple(a, b) == 3 || Multiple(a, b) == 5 || Multiple(a, b) == 17
      ensures a == 1 || b == 1 {
      NoFactor(a, b, Multiple(a, b));
    }
  }

  lemma Prime257()
    ensures Prime(257)
  {
    forall a: nat, b: nat | Multiple(a, b) == 257 ensures a == 1 || b == 1 {
      NoFactor(a, b, 257);
    }
  }

  lemma NoFactor(a: nat, b: nat, p: nat)
    requires Multiple(a, b) == p && (p == 3 || p == 5 || p == 17 || p == 257)
    ensures a == 1 || b == 1
  {
    if a <= 16 {
      SmallFactor(a, b, p);
    } else {
      if b > 16 { MulMonotone(17, b, a); }
      SmallFactor(b, a, p);
    }
  }

  lemma SmallFactor(a: nat, b: nat, p: nat)
    requires Multiple(a, b) == p && a <= 16 && (p == 3 || p == 5 || p == 17 || p == 257)
    ensures a == 1 || b == 1
  {
    if a <= 4 {
      assert a == 0 || a == 1 || a == 2 || a == 3 || a == 4;
    } else if a <= 8 {
      assert a == 5 || a == 6 || a == 7 || a == 8;
    } else if a <= 12 {
      assert a == 9 || a == 10 || a == 11 || a == 12;
    }
  }

  lemma DividesMod(d: nat, n: nat)
    requires d > 0
    ensures Divides(d, n) <==> n % d == 0
  {
    if Divides(d, n) {
      var q: nat :| Multiple(q, d) == n;
      MultipleOf(q, d);
    } else {
      assert Multiple(n / d, d) + n % d == n;
    }
  }

  /** No divisor of 65535 but 1 escapes all four primes. */
  lemma FourPrimes(m: nat, q: nat)
    requires Multiple(m, q) == 65535 && q % 3 != 0 && q % 5 != 0 && q % 17 != 0 && q % 257 != 0
    ensures q == 1
  {
    SmallPrimes();
    Prime257();
    OtherFactor(3, m, q);
    OtherFactor(5, m, q);
    OtherFactor(17, m, q);
    OtherFactor(257, m, q);
    AllFour(m);
    if q > 1 { MulMonotone(2, q, m); }
  }

  lemma OtherFactor(p: nat, m: nat, q: nat)
    requires Prime(p) && 65535 % p == 0 && Multiple(m, q) == 65535 && q % p != 0
    ensures m % p == 0
  {
    DividesMod(p, 65535);
    PrimeSplits(p, m, q);
    DividesMod(p, m);
    DividesMod(p, q);
  }

  /** Divisible by two numbers with u * a == v * b + 1, so by their product. */
  lemma Both(n: nat, a: nat, b: nat, u: nat, v: nat)
    requires a > 0 && b > 0 && u * a == v * b + 1 && n % a == 0 && n % b == 0
    ensures a * b > 0 && n % (a * b) == 0
  {
    var x, y, d := n / a, n / b, a * b;
    assert n == x * a && n == y * b;
    MulMonotone(1, a, b);
    var p, q := y * u, x * v;
    calc {
      n;
      n * (u * a) - n * (v * b);
      { Regroup(y, b, u, a); Regroup(x, a, v, b); }
      p * d - q * d;
    }
    assert n == (p - q) * d;
    MultipleOf(p - q, d);
  }

  lemma Regroup(y: nat, b: nat, u: nat, a: nat)
    ensures (y * b) * (u * a) == (y * u) * (a * b)
  {
    calc {
      (y * b) * (u * a);
      y * (b * (u * a));
      y * (u * (a * b));
      (y * u) * (a * b);
    }
  }

  lemma AllFour(n: nat)
    requires n % 3 == 0 && n % 5 == 0 && n % 17 == 0 && n % 257 == 0
    ensures n % 65535 == 0
  {
    Both(n, 3, 5, 2, 1);
    Both(n, 15, 17, 8, 7);
    Both(n, 255, 257, 128, 127);
  }
}
