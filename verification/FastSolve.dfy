/** The closed-form solve as it runs on large repairs: blocked convolutions through the
    radix network, then the grouped evaluation. */
module FastSolve {
  import opened Arithmetic
  import opened Fields
  import opened Linear
  import opened Inversion
  import opened Polynomials
  import opened Locators
  import opened Sums
  import opened Residues
  import opened Convolution
  import opened PrimeFactor
  import opened GroupedSolve
  import opened Vandermonde
  import opened Dft
  import opened TransformArm
  import opened TransformBand
  import G = Gf16
  import T = Gf16Tables

  /** w generates a group of exactly 65535 elements. */
  ghost predicate Generator<F(!new)>(K: Field<F>, w: F) {
    Pow(K, w, 65535) == K.one && forall d: nat :: 0 < d < 65535 ==> Pow(K, w, d) != K.one
  }

  lemma RootPrimitive<F(!new)>(K: Field<F>, w: F)
    requires K.Lawful() && Generator(K, w)
    ensures Primitive(K, Pow(K, w, 257))
  {
    PowTimes(K, w, 257, 255);
    forall d: nat | 0 < d < CONV ensures Pow(K, Pow(K, w, 257), d) != K.one {
      PowTimes(K, w, 257, d);
    }
  }

  /** Point k of what output segment i accumulates, each input spectrum taken from the radix network. */
  ghost function NetworkPoint<F(!new)>(K: Field<F>, z: F, p: seq<F>, S: Vector<F>, i: nat): nat -> F {
    (k: nat) => Sum(K, NetworkPair(K, z, p, S, i, k), PairsFor(i, |S|))
  }

  ghost function NetworkPair<F(!new)>(K: Field<F>, z: F, p: seq<F>, S: Vector<F>, i: nat, k: nat): nat -> F {
    (j: nat) => Mul(K, Spectrum(K, z, Window(K, p, i + j))(k), Network(K, z, S, j, k % 3, k % 5, k % 17))
  }

  lemma NetworkPairIs<F(!new)>(K: Field<F>, z: F, p: seq<F>, S: Vector<F>, i: nat, k: nat, j: nat)
    requires K.Lawful() && Pow(K, z, 255) == K.one && k < 255
    ensures NetworkPair(K, z, p, S, i, k)(j) == PairPoint(K, z, p, S, i, j, k)
  {
    NaturalUnique(k);
    NetworkIsSpectrum(K, z, S, j, k % 3, k % 5, k % 17);
  }

  /** Row t of output segment i, taken back through the inverse network. */
  ghost function NetworkRow<F(!new)>(K: Field<F>, z: F, p: seq<F>, S: Vector<F>, i: nat, t: nat): F
    requires t < BLOCK
  {
    InverseNetwork(K, z, NetworkPoint(K, z, p, S, i), 254 - t)
  }

  lemma NetworkPointIs<F(!new)>(K: Field<F>, z: F, p: seq<F>, S: Vector<F>, i: nat, k: nat)
    requires K.Lawful() && Pow(K, z, 255) == K.one && k < 255
    ensures NetworkPoint(K, z, p, S, i)(k) == Accumulated(K, z, p, S, i, k)
  {
    var f, g := NetworkPair(K, z, p, S, i, k), (j: nat) => PairPoint(K, z, p, S, i, j, k);
    forall j: nat | j < PairsFor(i, |S|) ensures f(j) == g(j) { NetworkPairIs(K, z, p, S, i, k, j); }
    SumSame(K, f, g, PairsFor(i, |S|));
  }

  lemma NetworkRowIs<F(!new)>(K: Field<F>, z: F, p: seq<F>, S: Vector<F>, i: nat, t: nat)
    requires K.Lawful() && Pow(K, z, 255) == K.one && t < BLOCK
    ensures NetworkRow(K, z, p, S, i, t) == BlockedRow(K, z, p, S, i, t)
  {
    var acc := NetworkPoint(K, z, p, S, i);
    InverseNetworkIs(K, z, acc, 254 - t, t + 1);
    var f := (k: nat) => Mul(K, acc(k), Pow(K, z, Times(k, t + 1)));
    var g := (k: nat) => Mul(K, Accumulated(K, z, p, S, i, k), Pow(K, z, Times(k, t + 1)));
    forall k: nat | k < 255 ensures f(k) == g(k) { NetworkPointIs(K, z, p, S, i, k); }
    SumSame(K, f, g, 255);
  }

  /** Stage 1 through the networks. */
  ghost function Correlated<F(!new)>(K: Field<F>, z: F, p: seq<F>, S: Vector<F>): (C: Vector<F>)
    ensures |C| == |S| && forall at :: 0 <= at < |S| ==> C[at] == NetworkRow(K, z, p, S, at / BLOCK, at % BLOCK)
  {
    seq(|S|, at requires 0 <= at => NetworkRow(K, z, p, S, at / BLOCK, at % BLOCK))
  }

  /** ... is stage 1 as it is defined. */
  lemma CorrelatedIsStage1<F(!new)>(K: Field<F>, z: F, p: seq<F>, S: Vector<F>)
    requires K.Lawful() && Primitive(K, z) && |p| == |S| + 1
    ensures Correlated(K, z, p, S) == Stage1(K, p, S)
  {
    forall at | 0 <= at < |S| ensures Correlated(K, z, p, S)[at] == Stage1(K, p, S)[at] {
      NetworkRowIs(K, z, p, S, at / BLOCK, at % BLOCK);
      BlockedIsStage1(K, z, p, S, at / BLOCK, at % BLOCK, at);
    }
  }

  /** The constants 2^k. */
  ghost function Constants<F(!new)>(K: Field<F>, w: F, logs: seq<nat>): (g: seq<F>)
    ensures |g| == |logs| && forall c :: 0 <= c < |logs| ==> g[c] == Pow(K, w, logs[c])
  {
    seq(|logs|, c requires 0 <= c < |logs| => Pow(K, w, logs[c]))
  }

  /** solve_stripe with both stages transformed, at one word. */
  ghost function FastForm<F(!new)>(K: Field<F>, w: F, logs: seq<nat>, e: nat, S: Vector<F>): (x: Vector<F>)
    requires |S| == |logs|
    ensures |x| == |logs|
    ensures var p := Locator(K, Constants(K, w, logs));
            forall c :: 0 <= c < |logs| ==>
              x[c] == Evaluated(K, w, logs[c], Scale(K, p, Pow(K, w, logs[c]), e), Correlated(K, Pow(K, w, 257), p, S))
  {
    var p := Locator(K, Constants(K, w, logs));
    seq(|logs|, c requires 0 <= c < |logs| =>
      Evaluated(K, w, logs[c], Scale(K, p, Pow(K, w, logs[c]), e), Correlated(K, Pow(K, w, 257), p, S)))
  }

  /** The fast form is the closed form, whatever the syndromes. */
  lemma FastIsClosedForm<F(!new)>(K: Field<F>, w: F, logs: seq<nat>, e: nat, S: Vector<F>)
    requires K.Lawful() && Generator(K, w) && |S| == |logs|
    ensures FastForm(K, w, logs, e, S) == ClosedForm(K, Constants(K, w, logs), e, S)
  {
    var roots := Constants(K, w, logs);
    var p := Locator(K, roots);
    RootPrimitive(K, w);
    CorrelatedIsStage1(K, Pow(K, w, 257), p, S);
    forall c | 0 <= c < |logs| ensures FastForm(K, w, logs, e, S)[c] == ClosedForm(K, roots, e, S)[c] {
      GroupedIsStage2(K, w, logs[c], p, e, Stage1(K, p, S));
    }
  }

  // The arm as it runs: the transform for the syndromes, the fast form for the solve.

  /** The plan's constants are powers of w: of the slots for the present slices, of the logs for the missing. */
  ghost predicate Powered<F(!new)>(K: Field<F>, w: F, P: Plan<F>, slots: seq<nat>, logs: seq<nat>)
    requires P.Valid(K)
  {
    Pick(P.constants, P.available) == Constants(K, w, slots) && Pick(P.constants, P.missing) == Constants(K, w, logs)
  }

  /** Recovery word i with the transform's output for its exponent folded in. */
  ghost function FastSyndromes<F(!new)>(K: Field<F>, w: F, P: Plan<F>, slots: seq<nat>, present: Vector<F>,
                                        r: Vector<F>): (s: Vector<F>)
    requires |r| == |P.exponents|
    ensures |s| == |r| && forall i :: 0 <= i < |r| ==>
            s[i] == Add(K, r[i], Job(w, slots, present, P.exponents[i]).Output(K))
  {
    seq(|r|, i requires 0 <= i < |r| => Add(K, r[i], Job(w, slots, present, P.exponents[i]).Output(K)))
  }

  lemma FastSyndromeIs<F(!new)>(K: Field<F>, w: F, P: Plan<F>, slots: seq<nat>, logs: seq<nat>, present: Vector<F>,
                                r: Vector<F>, i: nat)
    requires P.Valid(K) && Generator(K, w) && Powered(K, w, P, slots, logs) && |present| == |P.available| &&
             i < |r| == |P.exponents|
    ensures FastSyndromes(K, w, P, slots, present, r)[i] == TransformArm.Syndromes(K, P, present, r)[i]
  {
    SyndromeIs(K, P, present, r, i);
    PowersAre(K, P, i, P.exponents[i]);
    FoldedIn(K, w, slots, Pick(P.constants, P.available), present, r[i], P.exponents[i],
             PowerRows(K, P.constants, P.available, P.exponents)[i]);
  }

  lemma FoldedIn<F(!new)>(K: Field<F>, w: F, slots: seq<nat>, constants: seq<F>, present: Vector<F>, r: F, e: nat,
                          row: Vector<F>)
    requires K.Lawful() && Generator(K, w) && constants == Constants(K, w, slots) && |present| == |slots| &&
             row == Powers(K, constants, e)
    ensures Add(K, r, Job(w, slots, present, e).Output(K)) == Add(K, r, Dot(K, row, present, |present|))
  {
    DftMeetsContract(K, w, slots, present, constants, [r], e, 0);
    TransformedAt(K, [r], present, constants, e, 0, row, |present|);
  }

  /** The transform and the fast solve together repair as the explicit inverse does. */
  lemma FastArmIsExact<F(!new)>(K: Field<F>, w: F, P: Plan<F>, slots: seq<nat>, logs: seq<nat>, present: Vector<F>,
                                r: Vector<F>)
    requires P.Valid(K) && Generator(K, w) && Powered(K, w, P, slots, logs) && Serves(K, ClosedSolve, P)
    requires |present| == |P.available| && |r| == |P.exponents|
    ensures FastForm(K, w, logs, P.exponents[0], FastSyndromes(K, w, P, slots, present, r)) ==
            ArmRepair(K, P, present, r)
  {
    var s := TransformArm.Syndromes(K, P, present, r);
    forall i | 0 <= i < |r| ensures FastSyndromes(K, w, P, slots, present, r)[i] == s[i] {
      FastSyndromeIs(K, w, P, slots, logs, present, r, i);
    }
    assert FastSyndromes(K, w, P, slots, present, r) == s;
    FastIsClosedForm(K, w, logs, P.exponents[0], s);
    SolversAgree(K, ClosedSolve, P, present, r);
  }

  /** 2 generates the field's nonzero elements, so the fast form serves PAR2. */
  lemma TwoGenerates()
    ensures G.GF16().Lawful() && Generator(G.GF16(), 2)
  {
    G.GF16Lawful();
    forall d: nat | 0 < d <= 65535 ensures Pow(G.GF16(), 2, d) == G.Exp(d) { PowerOfTwo(d); }
    G.Power65535();
    forall d: nat | 0 < d < 65535 ensures Pow(G.GF16(), 2, d) != 1 { G.OrderIs(d); }
  }

  lemma PowerOfTwo(d: nat)
    ensures Pow(G.GF16(), 2, d) == G.Exp(d)
  {
    assert G.Exp(1) == 2;
    G.LogIs(2, 1);
    T.PowIsExp(2, d);
  }

  // What the stages hold in scratch.

  /** A row of scratch: a row of stage 1's output; a point of an input segment's spectrum, of the output spectrum, or of
      one of the two arenas the network bounces through; a bucket of stage 2. */
  datatype Held = Output(at: nat) | Input(segment: nat, point: nat) | Summed(point: nat) | First(point: nat)
                | Second(point: nat) | Bucket(j: nat)

  /** The rows the stages of an m-row solve use: as many input segments as the first output segment pairs with. Small
      solves run neither transform. */
  predicate Uses(m: nat, h: Held) {
    match h
    case Output(at) => at < m
    case Input(segment, point) => m >= 512 && segment < PairsFor(0, m) && point < CONV
    case Summed(point) => m >= 512 && point < CONV
    case First(point) => m >= 512 && point < CONV
    case Second(point) => m >= 512 && point < CONV
    case Bucket(j) => m >= 512 && j < 257
  }

  /** Where solve_stripe's splits put each. */
  function PlaceOf(m: nat, h: Held): nat {
    match h
    case Output(at) => at
    case Input(segment, point) => m + segment * CONV + point
    case Summed(point) => m + Segments(m) * CONV + point
    case First(point) => m + Segments(m) * CONV + CONV + point
    case Second(point) => m + Segments(m) * CONV + 2 * CONV + point
    case Bucket(j) => m + Segments(m) * CONV + 3 * CONV + j
  }

  lemma ScratchIs(m: nat)
    ensures ScratchRows(ClosedSolve, m) == if m >= 512 then m + Segments(m) * CONV + 3 * CONV + 257 else m
  {
  }

  /** Every row used is inside the scratch that was charged for, and no two are one. */
  lemma ScratchHolds(m: nat, h: Held, h': Held)
    requires Uses(m, h) && Uses(m, h')
    ensures PlaceOf(m, h) < ScratchRows(ClosedSolve, m)
    ensures PlaceOf(m, h) == PlaceOf(m, h') ==> h == h'
  {
    ScratchIs(m);
    if h.Input? { MulMonotone(h.segment + 1, Segments(m), CONV); }
    if h'.Input? { MulMonotone(h'.segment + 1, Segments(m), CONV); }
    if h.Input? && h'.Input? && PlaceOf(m, h) == PlaceOf(m, h') {
      Arithmetic.Quotient(h.segment * CONV + h.point, CONV, h.segment);
      Arithmetic.Quotient(h'.segment * CONV + h'.point, CONV, h'.segment);
    }
  }

  /** ... and no row is charged for that is not used. */
  lemma ScratchUsed(m: nat, n: nat) returns (h: Held)
    requires n < ScratchRows(ClosedSolve, m)
    ensures Uses(m, h) && PlaceOf(m, h) == n
  {
    ScratchIs(m);
    var k := n - m - Segments(m) * CONV;
    if n < m {
      h := Output(n);
    } else if k < 0 {
      var segment := (n - m) / CONV;
      QuotientTimes(n - m, CONV);
      h := Input(segment, (n - m) % CONV);
    } else if k < CONV {
      h := Summed(k);
    } else if k < 2 * CONV {
      h := First(k - CONV);
    } else if k < 3 * CONV {
      h := Second(k - 2 * CONV);
    } else {
      h := Bucket(k - 3 * CONV);
    }
  }
}
