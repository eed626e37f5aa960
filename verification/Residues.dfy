/** Residues modulo the factors of 65535, and the index maps that split a product of
    exponents into one product for each factor. */
module Residues {
  import opened Arithmetic
  import opened Divisors
  import opened Totient

  /** a and b leave the same remainder. */
  predicate Same(a: int, b: int, m: nat)
    requires m > 0
  {
    a % m == b % m
  }

  lemma Spread(q: nat, m: nat, r: nat, c: nat)
    ensures (q * m + r) * c == (q * c) * m + r * c
  {
  }

  lemma SpreadSame(q: nat, p: nat, m: nat, r: nat, c: nat)
    requires m > 0
    ensures Same((q * m + r) * c, (p * m + r) * c, m)
  {
    Spread(q, m, r, c);
    Spread(p, m, r, c);
    SameRemainder(m, q * c, r * c);
    SameRemainder(m, p * c, r * c);
  }

  lemma SameTimes(a: nat, b: nat, c: nat, m: nat)
    requires m > 0 && Same(a, b, m)
    ensures Same(a * c, b * c, m)
  {
    assert a == a / m * m + a % m && b == b / m * m + b % m;
    SpreadSame(a / m, b / m, m, a % m, c);
  }

  lemma SameProduct(a: nat, b: nat, c: nat, d: nat, m: nat)
    requires m > 0 && Same(a, b, m) && Same(c, d, m)
    ensures Same(a * c, b * d, m)
  {
    SameTimes(a, b, c, m);
    SameTimes(c, d, b, m);
    assert c * b == b * c && d * b == b * d;
  }

  lemma SameMod(a: nat, m: nat)
    requires m > 0
    ensures Same(a % m, a, m)
  {
    assert a == a / m * m + a % m;
    SameRemainder(m, a / m, a % m);
    SameRemainder(m, 0, a % m);
  }

  /** Reducing modulo a multiple of m first makes no difference. */
  lemma SameModMultiple(a: nat, k: nat, m: nat)
    requires m > 0 && k > 0
    ensures k * m > 0 && Same(a % (k * m), a, m)
  {
    MulMonotone(1, k, m);
    var n := k * m;
    assert a == a / n * n + a % n;
    assert a / n * n == (a / n * k) * m;
    SameRemainder(m, a / n * k, a % n);
  }

  /** Same for two moduli whose product is n, with u * a == v * b + 1. */
  lemma SameBoth(x: nat, y: nat, a: nat, b: nat, u: nat, v: nat)
    requires a > 0 && b > 0 && u * a == v * b + 1 && Same(x, y, a) && Same(x, y, b)
    ensures a * b > 0 && Same(x, y, a * b)
  {
    if x >= y {
      Apart(x, y, a);
      Apart(x, y, b);
      Both(x - y, a, b, u, v);
      Together(x, y, a * b);
    } else {
      Apart(y, x, a);
      Apart(y, x, b);
      Both(y - x, a, b, u, v);
      Together(y, x, a * b);
    }
  }

  lemma NotNegative(q: int, m: nat)
    requires m > 0 && q * m >= 0
    ensures q >= 0
  {
  }

  lemma Apart(x: nat, y: nat, m: nat)
    requires m > 0 && Same(x, y, m) && x >= y
    ensures (x - y) % m == 0
  {
    var q := x / m - y / m;
    assert x - y == q * m by {
      assert x == x / m * m + x % m && y == y / m * m + y % m;
    }
    NotNegative(q, m);
    MultipleOf(q, m);
  }

  lemma Together(x: nat, y: nat, m: nat)
    requires m > 0 && x >= y && (x - y) % m == 0
    ensures Same(x, y, m)
  {
    assert x == (x - y) / m * m + y;
    SameRemainder(m, (x - y) / m, y);
  }

  lemma Same255(x: nat, y: nat)
    requires Same(x, y, 3) && Same(x, y, 5) && Same(x, y, 17)
    ensures Same(x, y, 255)
  {
    SameBoth(x, y, 3, 5, 2, 1);
    SameBoth(x, y, 15, 17, 8, 7);
  }

  lemma Same65535(x: nat, y: nat)
    requires Same(x, y, 255) && Same(x, y, 257)
    ensures Same(x, y, 65535)
  {
    SameBoth(x, y, 255, 257, 128, 127);
  }

  function Times(a: nat, b: nat): nat { a * b }

  /** c * g * u is e * l when g is e times an inverse of c and u is l. */
  lemma Term(c: nat, k: nat, g: nat, u: nat, e: nat, l: nat, m: nat)
    requires m > 1 && Same(g, Times(k, e), m) && Same(u, l, m) && Times(c, k) % m == 1
    ensures Same(Times(c, Times(g, u)), Times(e, l), m)
  {
    SameProduct(g, Times(k, e), u, l, m);
    SameTimes(Times(g, u), Times(Times(k, e), l), c, m);
    Rearranged(c, k, e, l);
    RemainderIs(1, m, 0, 1);
    SameTimes(Times(c, k), 1, Times(e, l), m);
  }

  lemma Rearranged(c: nat, k: nat, e: nat, l: nat)
    ensures Times(Times(Times(k, e), l), c) == Times(Times(c, k), Times(e, l))
  {
    calc {
      k * e * l * c;
      k * (e * l) * c;
      (c * k) * (e * l);
    }
  }

  lemma NoTerm(c: nat, x: nat, m: nat)
    requires m > 0 && c % m == 0
    ensures c * x % m == 0
  {
    assert c == c / m * m;
    assert c * x == (c / m * x) * m;
    MultipleOf(c / m * x, m);
  }

  lemma AddMultiple(a: nat, b: nat, x: nat, m: nat)
    requires m > 0 && Same(a, x, m) && b % m == 0
    ensures Same(a + b, x, m)
  {
    assert b == b / m * m;
    SameRemainder(m, b / m, a);
  }

  /** Only the first term counts modulo m. */
  lemma FirstOfFour(a: nat, b: nat, c: nat, d: nat, x: nat, m: nat)
    requires m > 0 && Same(a, x, m) && b % m == 0 && c % m == 0 && d % m == 0
    ensures Same(a + b + c + d, x, m)
  {
    AddMultiple(a, b, x, m);
    AddMultiple(a + b, c, x, m);
    AddMultiple(a + b + c, d, x, m);
  }

  // The coordinates of an output exponent.

  const HALF: nat := 128

  function InSmall(e: nat): (p: nat)
    ensures p < 255
  {
    Times(HALF, e % 255) % 255
  }

  function InLarge(e: nat): (q: nat)
    ensures q < 257
  {
    Times(HALF, e % 257) % 257
  }

  function In17(p: nat): (g: nat)
    ensures g < 17
  {
    Times(8, p % 17) % 17
  }

  lemma LargeIs(e: nat)
    ensures Same(InLarge(e), Times(HALF, e), 257)
  {
    SameMod(Times(HALF, e % 257), 257);
    SameMod(e, 257);
    SameTimes(e % 257, e, HALF, 257);
  }

  lemma SmallIs(e: nat, k: nat, m: nat)
    requires k > 0 && m > 0 && k * m == 255
    ensures Same(InSmall(e), Times(HALF, e), m)
  {
    SameModMultiple(Times(HALF, e % 255), k, m);
    SameModMultiple(e, k, m);
    SameTimes(e % 255, e, HALF, m);
  }

  /** The product of two exponents modulo 65535, as one product for each of its factors. */
  function Split(e: nat, l: nat): nat {
    var p := InSmall(e);
    Times(255, Times(InLarge(e), l % 257)) +
    (Times(21845, Times(p % 3, l % 3)) + (Times(13107, Times(p % 5, l % 5)) + Times(3855, Times(In17(p), l % 17))))
  }

  lemma Split257(e: nat, l: nat)
    ensures Same(Split(e, l), Times(e, l), 257)
  {
    var p := InSmall(e);
    LargeIs(e);
    SameMod(l, 257);
    Term(255, HALF, InLarge(e), l % 257, e, l, 257);
    NoTerm(3855, Times(In17(p), l % 17), 257);
    NoTerm(13107, Times(p % 5, l % 5), 257);
    NoTerm(21845, Times(p % 3, l % 3), 257);
    FirstOfFour(Times(255, Times(InLarge(e), l % 257)), Times(3855, Times(In17(p), l % 17)),
                Times(13107, Times(p % 5, l % 5)), Times(21845, Times(p % 3, l % 3)), Times(e, l), 257);
  }

  lemma Split17(e: nat, l: nat)
    ensures Same(Split(e, l), Times(e, l), 17)
  {
    var p := InSmall(e);
    SmallIs(e, 15, 17);
    SameMod(Times(8, p % 17), 17);
    SameMod(p, 17);
    SameTimes(p % 17, p, 8, 17);
    SameTimes(p, Times(HALF, e), 8, 17);
    assert Times(Times(HALF, e), 8) == Times(1024, e);
    SameMod(l, 17);
    Term(3855, 1024, In17(p), l % 17, e, l, 17);
    NoTerm(255, Times(InLarge(e), l % 257), 17);
    NoTerm(13107, Times(p % 5, l % 5), 17);
    NoTerm(21845, Times(p % 3, l % 3), 17);
    FirstOfFour(Times(3855, Times(In17(p), l % 17)), Times(255, Times(InLarge(e), l % 257)),
                Times(13107, Times(p % 5, l % 5)), Times(21845, Times(p % 3, l % 3)), Times(e, l), 17);
  }

  lemma Split5(e: nat, l: nat)
    ensures Same(Split(e, l), Times(e, l), 5)
  {
    var p := InSmall(e);
    SmallIs(e, 51, 5);
    SameMod(p, 5);
    SameMod(l, 5);
    Term(13107, HALF, p % 5, l % 5, e, l, 5);
    NoTerm(255, Times(InLarge(e), l % 257), 5);
    NoTerm(3855, Times(In17(p), l % 17), 5);
    NoTerm(21845, Times(p % 3, l % 3), 5);
    FirstOfFour(Times(13107, Times(p % 5, l % 5)), Times(255, Times(InLarge(e), l % 257)),
                Times(3855, Times(In17(p), l % 17)), Times(21845, Times(p % 3, l % 3)), Times(e, l), 5);
  }

  lemma Split3(e: nat, l: nat)
    ensures Same(Split(e, l), Times(e, l), 3)
  {
    var p := InSmall(e);
    SmallIs(e, 85, 3);
    SameMod(p, 3);
    SameMod(l, 3);
    Term(21845, HALF, p % 3, l % 3, e, l, 3);
    NoTerm(255, Times(InLarge(e), l % 257), 3);
    NoTerm(3855, Times(In17(p), l % 17), 3);
    NoTerm(13107, Times(p % 5, l % 5), 3);
    FirstOfFour(Times(21845, Times(p % 3, l % 3)), Times(255, Times(InLarge(e), l % 257)),
                Times(3855, Times(In17(p), l % 17)), Times(13107, Times(p % 5, l % 5)), Times(e, l), 3);
  }

  lemma SplitIs(e: nat, l: nat)
    ensures Same(Split(e, l), Times(e, l), 65535)
  {
    Split3(e, l);
    Split5(e, l);
    Split17(e, l);
    Same255(Split(e, l), Times(e, l));
    Split257(e, l);
    Same65535(Split(e, l), Times(e, l));
  }
}
