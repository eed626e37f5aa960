/** Quotients and products of sizes. */
module Arithmetic {

  function Min(a: nat, b: nat): nat { if a < b then a else b }

  function Max(a: nat, b: nat): nat { if a < b then b else a }

  function DivCeil(a: nat, b: nat): (q: nat)
    requires b > 0
  {
    (a + b - 1) / b
  }

  function AlignUp(a: nat, b: nat): nat
    requires b > 0
  {
    DivCeil(a, b) * b
  }

  function AlignDown(a: nat, b: nat): nat
    requires b > 0
  {
    a / b * b
  }

  /** The nearest quotient, halves rounded up. */
  function RoundDiv(a: nat, b: nat): nat
    requires b > 0
  {
    (a + b / 2) / b
  }

  lemma QuotientTimes(n: nat, d: nat)
    requires d > 0
    ensures n / d * d <= n < n / d * d + d
  {
    assert n == n / d * d + n % d;
  }

  lemma MulMonotone(a: nat, b: nat, c: nat)
    requires a <= b
    ensures a * c <= b * c
  {
  }

  lemma Quotient(n: nat, d: nat, q: nat)
    requires d > 0 && q * d <= n < q * d + d
    ensures n / d == q
  {
    var p := n / d;
    QuotientTimes(n, d);
    if p < q { MulMonotone(p + 1, q, d); }
    if q < p { MulMonotone(q + 1, p, d); }
  }

  lemma MultipleOf(k: nat, d: nat)
    requires d > 0
    ensures k * d % d == 0
  {
    Quotient(k * d, d, k);
    assert k * d == k * d / d * d + k * d % d;
  }

  /** The ceiling quotient is just enough. */
  lemma DivCeilCovers(n: nat, d: nat)
    requires d > 0
    ensures n <= DivCeil(n, d) * d < n + d
    ensures n > 0 ==> DivCeil(n, d) > 0
  {
    QuotientTimes(n + d - 1, d);
    if DivCeil(n, d) == 0 { assert DivCeil(n, d) * d == 0; }
  }
}
