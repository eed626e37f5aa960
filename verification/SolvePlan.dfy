/** Preparing the closed-form solve and running it on a stripe, in its direct form. */
module SolvePlan {
  import opened Arithmetic
  import opened Fields
  import opened Linear
  import opened Polynomials
  import opened Locators
  import opened Folds

  const BATCH_SOURCES: nat := 8

  /** The first |q| places of p hold q and the rest zero. */
  ghost predicate Holds<F(!new)>(K: Field<F>, p: seq<F>, q: seq<F>) {
    |q| <= |p| && forall j :: 0 <= j < |p| ==> p[j] == if j < |q| then q[j] else K.zero
  }

  /** Multiply one root in, from the highest coefficient down, so that each is read before it is overwritten. */
  method TimesRootInPlace<F(!new)>(K: Field<F>, p: array<F>, degree: nat, root: F, ghost q: seq<F>)
    requires K.Lawful() && |q| == degree + 1 < p.Length && Holds(K, p[..], q)
    modifies p
    ensures Holds(K, p[..], TimesRoot(K, q, root))
  {
    var j := degree + 2;
    ghost var up, down := [K.zero] + q, q + [K.zero];
    while j > 0
      invariant 0 <= j <= degree + 2
      invariant forall i :: j <= i <= degree + 1 ==> p[i] == Add(K, up[i], Mul(K, root, down[i]))
      invariant forall i :: 0 <= i < p.Length && (i < j || i > degree + 1) ==> p[i] == if i < |q| then q[i] else K.zero
    {
      j := j - 1;
      var shifted := if j > 0 then p[j - 1] else K.zero;
      p[j] := Add(K, shifted, Mul(K, root, p[j]));
    }
  }

  /** locator_polynomial. */
  method LocatorPolynomial<F(!new)>(K: Field<F>, roots: seq<F>) returns (p: array<F>)
    requires K.Lawful()
    ensures fresh(p) && p[..] == Locator(K, roots)
  {
    p := new F[|roots| + 1](_ => K.zero);
    p[0] := K.one;
    for degree := 0 to |roots|
      invariant Holds(K, p[..], Locator(K, roots[..degree]))
    {
      assert roots[..degree + 1][..degree] == roots[..degree];
      TimesRootInPlace(K, p, degree, roots[degree], Locator(K, roots[..degree]));
    }
    assert roots[..|roots|] == roots;
  }

  /** evaluate_derivative: one Horner pass over the odd coefficients, in the square of the point. */
  method EvaluateDerivative<F(!new)>(K: Field<F>, locator: seq<F>, at: F) returns (d: F)
    requires K.Lawful() && |locator| > 0
    ensures d == Derivative(K, locator, at)
  {
    var square := Mul(K, at, at);
    d := K.zero;
    var index := |locator| - 1;
    if index % 2 == 0 {
      index := index - 1;
    }
    while index >= 0
      invariant -1 <= index < |locator| && index % 2 == 1 && d == Derivative(K, locator[index + 1..], at)
    {
      DerivativeOdd(K, locator[index - 1..], at);
      assert locator[index - 1..][2..] == locator[index + 1..];
      MulComm(K, d, square);
      AddComm(K, Mul(K, d, square), locator[index]);
      d := Add(K, Mul(K, d, square), locator[index]);
      index := index - 2;
    }
    assert locator[0..] == locator;
  }

  /** The scalar g^-e0 / P'(g) of each root. */
  method Scales<F(!new)>(K: Field<F>, locator: seq<F>, roots: seq<F>, first: nat) returns (scale: seq<F>)
    requires K.Lawful() && locator == Locator(K, roots)
    ensures |scale| == |roots| && forall c :: 0 <= c < |roots| ==> scale[c] == Scale(K, locator, roots[c], first)
  {
    scale := [];
    for c := 0 to |roots|
      invariant |scale| == c && forall i :: 0 <= i < c ==> scale[i] == Scale(K, locator, roots[i], first)
    {
      var d := EvaluateDerivative(K, locator, roots[c]);
      scale := scale + [Mul(K, Inv(K, d), Inv(K, Pow(K, roots[c], first)))];
    }
  }

  // One stripe of w words.

  /** Add factor * source over all sources, eight at a time. */
  method Fold<F(!new,==)>(K: Field<F>, factors: seq<F>, sources: Rows<F>, w: nat) returns (out: seq<F>)
    requires K.Lawful() && |factors| <= |sources| && Shape(sources, |sources|, w)
    ensures |out| == w && forall j :: 0 <= j < w ==> out[j] == Dot(K, factors, Column(sources, w, j), |factors|)
  {
    out := Linear.Zeros(K, w);
    var first := 0;
    while first < |factors|
      invariant first <= |factors| && |out| == w
      invariant forall j :: 0 <= j < w ==> out[j] == Dot(K, factors, Column(sources, w, j), first)
    {
      var width := Min(BATCH_SOURCES, |factors| - first);
      out := FoldOne(K, out, factors, sources, first, width, w);
      first := first + width;
    }
  }

  method FoldOne<F(!new,==)>(K: Field<F>, dst: seq<F>, factors: seq<F>, sources: Rows<F>, first: nat, width: nat,
                             w: nat) returns (out: seq<F>)
    requires K.Lawful() && first + width <= |factors| <= |sources| && Shape(sources, |sources|, w) && |dst| == w
    requires forall j :: 0 <= j < w ==> dst[j] == Dot(K, factors, Column(sources, w, j), first)
    ensures |out| == w && forall j :: 0 <= j < w ==> out[j] == Dot(K, factors, Column(sources, w, j), first + width)
  {
    out := dst;
    for lane := 0 to width
      invariant |out| == w && forall j :: 0 <= j < w ==> out[j] == Dot(K, factors, Column(sources, w, j), first + lane)
    {
      var prev, f, source := out, factors[first + lane], sources[first + lane];
      out := seq(w, j requires 0 <= j < w => Add(K, prev[j], Mul(K, f, source[j])));
    }
  }

  /** correlate: row t folds the syndromes with the window p[t + 1..] of the locator. */
  method Correlate<F(!new,==)>(K: Field<F>, locator: seq<F>, syndromes: Rows<F>, w: nat) returns (out: Rows<F>)
    requires K.Lawful() && |locator| == |syndromes| + 1 && Shape(syndromes, |syndromes|, w)
    ensures Shape(out, |syndromes|, w)
    ensures forall j :: 0 <= j < w ==> Column(out, w, j) == Stage1(K, locator, Column(syndromes, w, j))
  {
    out := [];
    for t := 0 to |syndromes|
      invariant Shape(out, t, w)
      invariant forall i, j :: 0 <= i < t && 0 <= j < w ==> out[i][j] == Stage1(K, locator, Column(syndromes, w, j))[i]
    {
      var row := Fold(K, locator[t + 1..], syndromes, w);
      forall j | 0 <= j < w ensures row[j] == Stage1(K, locator, Column(syndromes, w, j))[t] {
        WindowRow(K, locator, Column(syndromes, w, j), t);
      }
      out := out + [row];
    }
  }

  lemma WindowRow<F(!new)>(K: Field<F>, p: seq<F>, s: Vector<F>, t: nat)
    requires K.Lawful() && |p| == |s| + 1 && t < |s|
    ensures Stage1(K, p, s)[t] == Dot(K, p[t + 1..], s, |s| - t)
  {
    var row := Hankel(K, p, |s|)[t];
    DotTruncate(K, row, s, |s| - t, |s|);
    DotPrefix(K, row, s, p[t + 1..], s, |s| - t);
  }

  /** The powers of g times the scale, each got from the last by one product. */
  method PowerLadder<F(!new)>(K: Field<F>, scale: F, g: F, n: nat) returns (factors: seq<F>)
    requires K.Lawful()
    ensures |factors| == n && forall t :: 0 <= t < n ==> factors[t] == Mul(K, scale, Pow(K, g, t))
  {
    factors := [];
    var ladder := scale;
    MulOne(K, scale);
    for t := 0 to n
      invariant |factors| == t && ladder == Mul(K, scale, Pow(K, g, t))
      invariant forall i :: 0 <= i < t ==> factors[i] == Mul(K, scale, Pow(K, g, i))
    {
      factors := factors + [ladder];
      MulAssoc(K, scale, Pow(K, g, t), g);
      MulComm(K, Pow(K, g, t), g);
      ladder := Mul(K, ladder, g);
    }
  }

  /** evaluate_direct, for one unknown. */
  method EvaluateOne<F(!new,==)>(K: Field<F>, ghost p: seq<F>, g: F, ghost e: nat, scale: F, correlation: Rows<F>,
                                 w: nat) returns (out: seq<F>)
    requires K.Lawful() && Shape(correlation, |correlation|, w) && scale == Scale(K, p, g, e)
    ensures |out| == w && forall j :: 0 <= j < w ==> out[j] == Stage2(K, p, g, e, Column(correlation, w, j))
  {
    var factors := PowerLadder(K, scale, g, |correlation|);
    out := Fold(K, factors, correlation, w);
    forall j | 0 <= j < w ensures out[j] == Stage2(K, p, g, e, Column(correlation, w, j)) {
      DotScale(K, factors, scale, Ladder(K, g, |factors|), Column(correlation, w, j), |factors|);
    }
  }

  /** solve_stripe in its direct form: every word of the stripe gets the closed form's answer. */
  method SolveStripe<F(!new,==)>(K: Field<F>, roots: seq<F>, first: nat, syndromes: Rows<F>, w: nat)
    returns (out: Rows<F>)
    requires K.Lawful() && |syndromes| == |roots| && Shape(syndromes, |syndromes|, w)
    ensures Shape(out, |roots|, w)
    ensures forall j :: 0 <= j < w ==> Column(out, w, j) == ClosedForm(K, roots, first, Column(syndromes, w, j))
  {
    var p := LocatorPolynomial(K, roots);
    var locator := p[..];
    var scale := Scales(K, locator, roots, first);
    var correlation := Correlate(K, locator, syndromes, w);
    out := [];
    for c := 0 to |roots|
      invariant Shape(out, c, w)
      invariant forall i, j :: 0 <= i < c && 0 <= j < w ==>
                out[i][j] == ClosedForm(K, roots, first, Column(syndromes, w, j))[i]
    {
      var row := EvaluateOne(K, locator, roots[c], first, scale[c], correlation, w);
      out := out + [row];
    }
  }
}
