/** The closed-form solve for consecutive exponents: the polynomial whose roots are
    the missing slices' constants, and how it isolates each missing slice. */
module Locators {
  import opened Fields
  import opened Linear
  import opened Inversion
  import opened Vandermonde
  import opened Polynomials

  /** 1, x, x^2, ... */
  ghost function Ladder<F(!new)>(K: Field<F>, x: F, n: nat): (v: Vector<F>)
    ensures |v| == n && forall i :: 0 <= i < n ==> v[i] == Pow(K, x, i)
  {
    seq(n, i requires 0 <= i => Pow(K, x, i))
  }

  lemma EvalIsDot<F(!new)>(K: Field<F>, p: seq<F>, x: F)
    requires K.Lawful()
    ensures Eval(K, p, x) == Dot(K, p, Ladder(K, x, |p|), |p|)
  {
    ConsecutiveDot(K, p, Ladder(K, x, |p|), x, 0);
    MulOne(K, Eval(K, p, x));
  }

  /** A trailing zero changes no value. */
  lemma EvalPadded<F(!new)>(K: Field<F>, p: seq<F>, x: F)
    requires K.Lawful()
    ensures Eval(K, p + [K.zero], x) == Eval(K, p, x)
  {
    EvalIsDot(K, p, x);
    EvalIsDot(K, p + [K.zero], x);
    var n := |p|;
    DotPrefix(K, p + [K.zero], Ladder(K, x, n + 1), p, Ladder(K, x, n), n);
    MulZero(K, Ladder(K, x, n + 1)[n]);
    AddZero(K, Eval(K, p, x));
  }

  // The locator: z + g over every root g.

  /** p(z) times z + r. */
  ghost function TimesRoot<F(!new)>(K: Field<F>, p: seq<F>, r: F): (q: seq<F>)
    ensures |q| == |p| + 1
    ensures forall j :: 0 <= j <= |p| ==> q[j] == Add(K, ([K.zero] + p)[j], Mul(K, r, (p + [K.zero])[j]))
  {
    seq(|p| + 1, j requires 0 <= j <= |p| => Add(K, ([K.zero] + p)[j], Mul(K, r, (p + [K.zero])[j])))
  }

  lemma EvalTimesRoot<F(!new)>(K: Field<F>, p: seq<F>, r: F, x: F)
    requires K.Lawful()
    ensures Eval(K, TimesRoot(K, p, r), x) == Mul(K, Add(K, x, r), Eval(K, p, x))
  {
    var n, q, s, t := |p| + 1, TimesRoot(K, p, r), [K.zero] + p, p + [K.zero];
    EvalIsDot(K, q, x);
    EvalIsDot(K, s, x);
    EvalIsDot(K, t, x);
    DotAddScaled(K, q, s, r, t, Ladder(K, x, n), n);
    EvalPadded(K, p, x);
    var v := Eval(K, p, x);
    assert s[1..] == p;
    AddZero(K, Mul(K, x, v));
    MulComm(K, Add(K, x, r), v);
    Distribute(K, v, x, r);
    MulComm(K, v, x);
    MulComm(K, v, r);
  }

  ghost function Locator<F(!new)>(K: Field<F>, roots: seq<F>): (p: seq<F>)
    ensures |p| == |roots| + 1
  {
    if roots == [] then [K.one] else TimesRoot(K, Locator(K, roots[..|roots| - 1]), roots[|roots| - 1])
  }

  lemma {:induction false} LocatorMonic<F(!new)>(K: Field<F>, roots: seq<F>)
    requires K.Lawful()
    ensures Locator(K, roots)[|roots|] == K.one
  {
    if roots != [] {
      var n := |roots| - 1;
      LocatorMonic(K, roots[..n]);
      MulZero(K, roots[n]);
      AddZero(K, K.one);
    }
  }

  lemma {:induction false} LocatorVanishes<F(!new)>(K: Field<F>, roots: seq<F>, i: nat)
    requires K.Lawful() && i < |roots|
    ensures Eval(K, Locator(K, roots), roots[i]) == K.zero
  {
    var n := |roots| - 1;
    var p, x := Locator(K, roots[..n]), roots[i];
    EvalTimesRoot(K, p, roots[n], x);
    if i == n {
      AddSelf(K, x);
      MulZero(K, Eval(K, p, x));
    } else {
      LocatorVanishes(K, roots[..n], i);
      MulZero(K, Add(K, x, roots[n]));
    }
  }

  // Its derivative at a root.

  ghost function Derivative<F(!new)>(K: Field<F>, p: seq<F>, x: F): F {
    if |p| <= 1 then K.zero else Add(K, Eval(K, p[1..], x), Mul(K, x, Derivative(K, p[1..], x)))
  }

  /** Even powers differentiate away in characteristic two. */
  lemma DerivativeOdd<F(!new)>(K: Field<F>, p: seq<F>, x: F)
    requires K.Lawful() && |p| >= 2
    ensures Derivative(K, p, x) == Add(K, p[1], Mul(K, Mul(K, x, x), Derivative(K, p[2..], x)))
  {
    var t, u := p[1..], p[2..];
    assert t[1..] == u;
    var e, d := Mul(K, x, Eval(K, u, x)), Derivative(K, u, x);
    MulAssoc(K, x, x, d);
    if |p| == 2 {
      assert Derivative(K, t, x) == K.zero && d == K.zero;
      MulZero(K, x);
      MulZero(K, Mul(K, x, x));
      AddZero(K, Eval(K, t, x));
      AddZero(K, p[1]);
    } else {
      Distribute(K, x, Eval(K, u, x), Mul(K, x, d));
      AddAssoc(K, p[1], e, Add(K, e, Mul(K, x, Mul(K, x, d))));
      AddTwice(K, e, Mul(K, x, Mul(K, x, d)));
    }
  }

  lemma {:induction false} QuotientAtRoot<F(!new)>(K: Field<F>, p: seq<F>, r: F)
    requires K.Lawful()
    ensures Eval(K, Quotient(K, p, r), r) == Derivative(K, p, r)
  {
    if |p| > 1 {
      QuotientAtRoot(K, p[1..], r);
      assert Quotient(K, p, r)[1..] == Quotient(K, p[1..], r);
    }
  }

  lemma {:induction false} QuotientAt<F(!new)>(K: Field<F>, p: seq<F>, r: F, k: nat)
    requires k + 1 < |p|
    ensures Quotient(K, p, r)[k] == Eval(K, p[k + 1..], r)
  {
    if k > 0 {
      QuotientAt(K, p[1..], r, k - 1);
      assert p[1..][k..] == p[k + 1..];
    }
  }

  /** The locator without root c vanishes at every other root. */
  lemma OthersVanish<F(!new)>(K: Field<F>, roots: seq<F>, c: nat, d: nat)
    requires K.Lawful() && Distinct(roots) && c < |roots| && d < |roots| && c != d
    ensures Eval(K, Quotient(K, Locator(K, roots), roots[c]), roots[d]) == K.zero
  {
    var p, q := Locator(K, roots), Quotient(K, Locator(K, roots), roots[c]);
    Division(K, p, roots[c], roots[d]);
    LocatorVanishes(K, roots, c);
    LocatorVanishes(K, roots, d);
    AddZero(K, Mul(K, Add(K, roots[d], roots[c]), Eval(K, q, roots[d])));
    AddToZero(K, roots[d], roots[c]);
    MulToZero(K, Add(K, roots[d], roots[c]), Eval(K, q, roots[d]));
  }

  /** ... so the derivative there is never zero. */
  lemma DerivativeNonZero<F(!new)>(K: Field<F>, roots: seq<F>, c: nat)
    requires K.Lawful() && Distinct(roots) && c < |roots|
    ensures Derivative(K, Locator(K, roots), roots[c]) != K.zero
  {
    var p := Locator(K, roots);
    var q := Quotient(K, p, roots[c]);
    LocatorMonic(K, roots);
    QuotientLeads(K, p, roots[c]);
    TooManyRoots(K, q, roots);
    var i :| 0 <= i < |roots| && Eval(K, q, roots[i]) != K.zero;
    if i != c { OthersVanish(K, roots, c, i); }
    QuotientAtRoot(K, p, roots[c]);
  }

  // Moving a matrix from one side of an inner product to the other.

  ghost function Combined<F(!new)>(K: Field<F>, u: Vector<F>, A: Rows<F>, n: nat, w: nat): (v: Vector<F>)
    requires Shape(A, |A|, w) && n <= |u| && n <= |A|
    ensures |v| == w && forall c :: 0 <= c < w ==> v[c] == Dot(K, u, Column(A, w, c), n)
  {
    seq(w, c requires 0 <= c < w => Dot(K, u, Column(A, w, c), n))
  }

  lemma {:induction false} DotAdjoint<F(!new)>(K: Field<F>, u: Vector<F>, A: Rows<F>, v: Vector<F>, n: nat, w: nat)
    requires K.Lawful() && Shape(A, |A|, w) && n <= |u| && n <= |A| && |v| == w
    ensures Dot(K, u, Apply(K, A, w, v), n) == Dot(K, Combined(K, u, A, n, w), v, w)
  {
    if n == 0 {
      DotVanishes(K, Combined(K, u, A, 0, w), v, w);
    } else {
      var k := n - 1;
      DotAdjoint(K, u, A, v, k, w);
      DotAddScaled(K, Combined(K, u, A, n, w), Combined(K, u, A, k, w), u[k], A[k], v, w);
    }
  }

  // The two stages of the solve.

  /** Row t of stage 1 reads syndrome r with the factor p[r + t + 1]. */
  ghost function Hankel<F(!new)>(K: Field<F>, p: seq<F>, m: nat): (H: Rows<F>)
    requires |p| == m + 1
    ensures Shape(H, m, m)
    ensures forall t, r :: 0 <= t < m && 0 <= r < m ==> H[t][r] == if r + t + 1 <= m then p[r + t + 1] else K.zero
  {
    seq(m, t requires 0 <= t < m => seq(m, r requires 0 <= r < m => if r + t + 1 <= m then p[r + t + 1] else K.zero))
  }

  ghost function Stage1<F(!new)>(K: Field<F>, p: seq<F>, s: Vector<F>): (T: Vector<F>)
    requires |p| == |s| + 1
    ensures |T| == |s|
  {
    Apply(K, Hankel(K, p, |s|), |s|, s)
  }

  /** g^-e / P'(g) */
  ghost function Scale<F(!new)>(K: Field<F>, p: seq<F>, g: F, e: nat): F {
    Mul(K, Inv(K, Derivative(K, p, g)), Inv(K, Pow(K, g, e)))
  }

  ghost function Stage2<F(!new)>(K: Field<F>, p: seq<F>, g: F, e: nat, T: Vector<F>): F {
    Mul(K, Scale(K, p, g, e), Dot(K, Ladder(K, g, |T|), T, |T|))
  }

  ghost function ClosedForm<F(!new)>(K: Field<F>, roots: seq<F>, e: nat, s: Vector<F>): (x: Vector<F>)
    requires |s| == |roots|
    ensures |x| == |roots|
    ensures forall c :: 0 <= c < |roots| ==>
              x[c] == Stage2(K, Locator(K, roots), roots[c], e, Stage1(K, Locator(K, roots), s))
  {
    seq(|roots|, c requires 0 <= c < |roots| => Stage2(K, Locator(K, roots), roots[c], e,
                                                       Stage1(K, Locator(K, roots), s)))
  }

  /** Column r of stage 1 against the powers of g is coefficient r of P(z) / (z + g). */
  lemma HankelColumn<F(!new)>(K: Field<F>, p: seq<F>, g: F, m: nat, r: nat)
    requires K.Lawful() && |p| == m + 1 && r < m
    ensures Dot(K, Ladder(K, g, m), Column(Hankel(K, p, m), m, r), m) == Quotient(K, p, g)[r]
  {
    var tail, col := p[r + 1..], Column(Hankel(K, p, m), m, r);
    QuotientAt(K, p, g, r);
    EvalIsDot(K, tail, g);
    DotComm(K, Ladder(K, g, m), col, m);
    DotTruncate(K, col, Ladder(K, g, m), |tail|, m);
    DotPrefix(K, col, Ladder(K, g, m), tail, Ladder(K, g, |tail|), |tail|);
  }

  lemma StagesWeigh<F(!new)>(K: Field<F>, p: seq<F>, g: F, s: Vector<F>)
    requires K.Lawful() && |p| == |s| + 1
    ensures Dot(K, Ladder(K, g, |s|), Stage1(K, p, s), |s|) == Dot(K, Quotient(K, p, g), s, |s|)
  {
    var m := |s|;
    DotAdjoint(K, Ladder(K, g, m), Hankel(K, p, m), s, m, m);
    forall r | 0 <= r < m ensures Combined(K, Ladder(K, g, m), Hankel(K, p, m), m, m)[r] == Quotient(K, p, g)[r] {
      HankelColumn(K, p, g, m, r);
    }
    assert Combined(K, Ladder(K, g, m), Hankel(K, p, m), m, m) == Quotient(K, p, g);
  }

  /** Row r holds the roots to the power e + r. */
  ghost predicate PowerSums<F(!new)>(K: Field<F>, V: Rows<F>, roots: seq<F>, e: nat) {
    Shape(V, |roots|, |roots|) && forall r, d :: 0 <= r < |roots| && 0 <= d < |roots| ==>
      V[r][d] == Pow(K, roots[d], e + r)
  }

  /** The weights of P(z) / (z + g_c) isolate unknown c. */
  lemma Isolates<F(!new)>(K: Field<F>, V: Rows<F>, roots: seq<F>, e: nat, x: Vector<F>, c: nat)
    requires K.Lawful() && Distinct(roots) && PowerSums(K, V, roots, e) && |x| == |roots| && c < |roots|
    ensures Dot(K, Quotient(K, Locator(K, roots), roots[c]), Apply(K, V, |roots|, x), |roots|) ==
            Mul(K, Mul(K, Pow(K, roots[c], e), Derivative(K, Locator(K, roots), roots[c])), x[c])
  {
    var m, p := |roots|, Locator(K, roots);
    var q := Quotient(K, p, roots[c]);
    DotAdjoint(K, q, V, x, m, m);
    var w := Combined(K, q, V, m, m);
    forall d | 0 <= d < m
      ensures w[d] == Mul(K, Pow(K, roots[d], e), Eval(K, q, roots[d])) && (d != c ==> w[d] == K.zero) {
      ConsecutiveDot(K, q, Column(V, m, d), roots[d], e);
      if d != c {
        OthersVanish(K, roots, c, d);
        MulZero(K, Pow(K, roots[d], e));
      }
    }
    DotSingle(K, w, x, m, c);
    QuotientAtRoot(K, p, roots[c]);
  }

  lemma ScaleCancels<F(!new)>(K: Field<F>, d: F, b: F, x: F)
    requires K.Lawful() && d != K.zero && b != K.zero
    ensures Mul(K, Mul(K, Inv(K, d), Inv(K, b)), Mul(K, Mul(K, b, d), x)) == x
  {
    MulAssoc(K, Mul(K, Inv(K, d), Inv(K, b)), Mul(K, b, d), x);
    MulAssoc(K, Inv(K, d), Inv(K, b), Mul(K, b, d));
    MulAssoc(K, Inv(K, b), b, d);
    MulInv(K, b);
    MulOne(K, d);
    MulInv(K, d);
    MulOne(K, x);
  }

  /** The closed form gives back the unknowns behind any syndromes. */
  lemma ClosedFormSolves<F(!new)>(K: Field<F>, V: Rows<F>, roots: seq<F>, e: nat, x: Vector<F>)
    requires K.Lawful() && Distinct(roots) && K.zero !in roots && PowerSums(K, V, roots, e) && |x| == |roots|
    ensures ClosedForm(K, roots, e, Apply(K, V, |roots|, x)) == x
  {
    var s, p := Apply(K, V, |roots|, x), Locator(K, roots);
    forall c | 0 <= c < |roots| ensures ClosedForm(K, roots, e, s)[c] == x[c] {
      StagesWeigh(K, p, roots[c], s);
      Isolates(K, V, roots, e, x, c);
      DerivativeNonZero(K, roots, c);
      PowNonZero(K, roots[c], e);
      ScaleCancels(K, Derivative(K, p, roots[c]), Pow(K, roots[c], e), x[c]);
    }
  }

  /** ... and so is the product with the explicit inverse, for all syndromes. */
  lemma ClosedFormIsInverse<F(!new)>(K: Field<F>, V: Rows<F>, N: Rows<F>, roots: seq<F>, e: nat, s: Vector<F>)
    requires K.Lawful() && Distinct(roots) && K.zero !in roots && PowerSums(K, V, roots, e) && |s| == |roots|
    requires Shape(N, |roots|, |roots|) && Inverse(K, V, N, |roots|)
    ensures ClosedForm(K, roots, e, s) == Apply(K, N, |roots|, s)
  {
    assert Undone(K, V, N, |roots|, s);
    ClosedFormSolves(K, V, roots, e, Apply(K, N, |roots|, s));
  }
}
