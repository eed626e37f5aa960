/** How many exponents below 65535 share no factor with it: sieving out one prime at a
    time, each leaves its share of what was left. */
module Totient {
  import opened Arithmetic
  import opened Divisors

  /** Numbers below n that f accepts. */
  function Count(f: nat -> bool, n: nat): nat {
    if n == 0 then 0 else Count(f, n - 1) + if f(n - 1) then 1 else 0
  }

  function Without(f: nat -> bool, p: nat): nat -> bool
    requires p > 0
  {
    (e: nat) => f(e) && e % p != 0
  }

  /** f does not change from e to e + d, nor from k to p * k. */
  ghost predicate Repeats(f: nat -> bool, d: nat, e: nat) { f(d + e) == f(e) }
  ghost predicate Scales(f: nat -> bool, p: nat, k: nat) { f(p * k) == f(k) }

  ghost predicate Periodic(f: nat -> bool, d: nat) { forall e: nat :: Repeats(f, d, e) }
  ghost predicate Scalable(f: nat -> bool, p: nat) { forall k: nat :: Scales(f, p, k) }

  lemma {:induction false} OnePeriodMore(f: nat -> bool, d: nat, m: nat)
    requires Periodic(f, d)
    ensures Count(f, d + m) == Count(f, d) + Count(f, m)
  {
    if m > 0 {
      OnePeriodMore(f, d, m - 1);
      assert Repeats(f, d, m - 1);
    }
  }

  lemma {:induction false} Periods(f: nat -> bool, d: nat, k: nat)
    requires Periodic(f, d)
    ensures Count(f, k * d) == k * Count(f, d)
  {
    if k > 0 {
      Periods(f, d, k - 1);
      assert k * d == d + (k - 1) * d && k * Count(f, d) == Count(f, d) + (k - 1) * Count(f, d);
      OnePeriodMore(f, d, (k - 1) * d);
    }
  }

  lemma RemainderIs(n: nat, d: nat, q: nat, r: nat)
    requires d > 0 && n == q * d + r && r < d
    ensures n % d == r
  {
    Quotient(n, d, q);
    assert n == n / d * d + n % d;
  }

  lemma SameRemainder(d: nat, q: nat, m: nat)
    requires d > 0
    ensures (q * d + m) % d == m % d
  {
    assert q * d + m == (q + m / d) * d + m % d;
    RemainderIs(q * d + m, d, q + m / d, m % d);
  }

  /** Between multiples of p nothing is sieved out. */
  lemma {:induction false} Between(f: nat -> bool, p: nat, k: nat, j: nat)
    requires p > 1 && 1 <= j <= p && Scalable(f, p)
    ensures Count(f, p * k + j) - Count(Without(f, p), p * k + j) ==
            Count(f, p * k) - Count(Without(f, p), p * k) + if f(k) then 1 else 0
  {
    if j > 1 {
      Between(f, p, k, j - 1);
      RemainderIs(p * k + (j - 1), p, k, j - 1);
    } else {
      assert Scales(f, p, k);
      RemainderIs(p * k, p, k, 0);
    }
  }

  /** What is sieved out below p * k is what was left below k. */
  lemma {:induction false} SievedOut(f: nat -> bool, p: nat, k: nat)
    requires p > 1 && Scalable(f, p)
    ensures Count(f, p * k) - Count(Without(f, p), p * k) == Count(f, k)
  {
    if k > 0 {
      SievedOut(f, p, k - 1);
      Between(f, p, k - 1, p);
      assert p * k == p * (k - 1) + p;
    }
  }

  lemma Sieve(f: nat -> bool, p: nat, d: nat)
    requires p > 1 && Periodic(f, d) && Scalable(f, p)
    ensures Count(Without(f, p), p * d) == (p - 1) * Count(f, d)
  {
    SievedOut(f, p, d);
    Periods(f, d, p);
    assert p * Count(f, d) == (p - 1) * Count(f, d) + Count(f, d);
  }

  lemma StillPeriodic(f: nat -> bool, p: nat, d: nat)
    requires p > 0 && Periodic(f, d)
    ensures Periodic(Without(f, p), p * d)
  {
    forall e: nat ensures Repeats(Without(f, p), p * d, e) {
      ManyRepeats(f, d, p, e);
      SameRemainder(p, d, e);
    }
  }

  lemma {:induction false} ManyRepeats(f: nat -> bool, d: nat, k: nat, e: nat)
    requires Periodic(f, d)
    ensures f(k * d + e) == f(e)
  {
    if k > 0 {
      ManyRepeats(f, d, k - 1, e);
      assert Repeats(f, d, (k - 1) * d + e);
      assert k * d + e == d + ((k - 1) * d + e);
    }
  }

  lemma StillScalable(f: nat -> bool, p: nat, q: nat)
    requires Prime(p) && q % p != 0 && Scalable(f, q)
    ensures Scalable(Without(f, p), q)
  {
    forall k: nat ensures Scales(Without(f, p), q, k) {
      assert Scales(f, q, k);
      DividesMod(p, k);
      DividesMod(p, q);
      DividesMod(p, q * k);
      if Divides(p, k) { DividesTimes(p, k, q); }
      if Divides(p, q * k) { PrimeSplits(p, q, k); }
    }
  }

  predicate HasSuborderFactor(e: nat) { e % 3 == 0 || e % 5 == 0 || e % 17 == 0 || e % 257 == 0 }

  function Coprime(): nat -> bool { (e: nat) => !HasSuborderFactor(e) }

  function Any(): nat -> bool { (e: nat) => true }

  lemma AnyCounts()
    ensures Count(Any(), 1) == 1 && Periodic(Any(), 1) && forall p: nat :: Scalable(Any(), p)
  {
    forall e: nat ensures Repeats(Any(), 1, e) {}
    forall p: nat, k: nat ensures Scales(Any(), p, k) {}
  }

  lemma {:induction false} SameCount(f: nat -> bool, n: nat)
    requires forall e: nat :: f(e) == !HasSuborderFactor(e)
    ensures Count(f, n) == Count(Coprime(), n)
  {
    if n > 0 { SameCount(f, n - 1); }
  }

  /** The sieve by 3, 5, 17 and 257 leaves 2 * 4 * 16 * 256. */
  lemma Shares65535()
    ensures Count(Coprime(), 65535) == 32768
  {
    SmallPrimes();
    Prime257();
    AnyCounts();
    var f3 := Without(Any(), 3);
    Sieve(Any(), 3, 1);
    StillPeriodic(Any(), 3, 1);
    StillScalable(Any(), 3, 5);
    StillScalable(Any(), 3, 17);
    StillScalable(Any(), 3, 257);
    var f15 := Without(f3, 5);
    Sieve(f3, 5, 3);
    StillPeriodic(f3, 5, 3);
    StillScalable(f3, 5, 17);
    StillScalable(f3, 5, 257);
    var f255 := Without(f15, 17);
    Sieve(f15, 17, 15);
    StillPeriodic(f15, 17, 15);
    StillScalable(f15, 17, 257);
    Sieve(f255, 257, 255);
    SameCount(Without(f255, 257), 65535);
  }
}
