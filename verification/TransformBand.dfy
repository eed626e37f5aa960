/** A band of the transform arm as its workers run it: the stripes it is cut into,
    the solver chosen for it, the memory it takes, and that what comes out is exact. */
module TransformBand {
  import opened Options
  import opened Arithmetic
  import opened Fields
  import opened Linear
  import opened Inversion
  import opened Vandermonde
  import opened Polynomials
  import opened Locators
  import opened Stripes
  import opened TransformArm
  import opened TransformRun
  import G = Geometry

  /** Where the stripes of a band of len words begin and end. */
  function Cuts(len: nat, stripe: nat): (cuts: seq<nat>)
    requires stripe > 0
    ensures |cuts| == DivCeil(len, stripe) + 1 && forall t :: 0 <= t < |cuts| ==> cuts[t] == Min(t * stripe, len)
  {
    seq(DivCeil(len, stripe) + 1, t requires 0 <= t => Min(t * stripe, len))
  }

  lemma CutAt(len: nat, stripe: nat, t: nat)
    requires stripe > 0 && t < DivCeil(len, stripe)
    ensures t * stripe < len && (t + 1 < DivCeil(len, stripe) ==> (t + 1) * stripe < len)
    ensures (t + 1) * stripe == t * stripe + stripe
  {
    DivCeilCovers(len, stripe);
    MulMonotone(t, DivCeil(len, stripe) - 1, stripe);
    if t + 1 < DivCeil(len, stripe) { MulMonotone(t + 1, DivCeil(len, stripe) - 1, stripe); }
  }

  /** Stripes lie end to end over the band, and all but the last are full. */
  lemma CutsTile(len: nat, stripe: nat)
    requires stripe > 0
    ensures var cuts := Cuts(len, stripe);
            && cuts[0] == 0 && cuts[|cuts| - 1] == len
            && (forall t :: 0 <= t < |cuts| - 1 ==> 0 < cuts[t + 1] - cuts[t] <= stripe)
            && (forall t :: 0 <= t < |cuts| - 2 ==> cuts[t + 1] - cuts[t] == stripe)
            && (forall t, u :: 0 <= t <= u < |cuts| ==> cuts[t] <= cuts[u])
  {
    var cuts := Cuts(len, stripe);
    DivCeilCovers(len, stripe);
    forall t | 0 <= t < |cuts| - 1
      ensures 0 < cuts[t + 1] - cuts[t] <= stripe && (t < |cuts| - 2 ==> cuts[t + 1] - cuts[t] == stripe) {
      CutAt(len, stripe, t);
    }
    forall t, u | 0 <= t <= u < |cuts| ensures cuts[t] <= cuts[u] {
      MulMonotone(t, u, stripe);
    }
  }

  // The solver.

  /** The explicit inverse, or the closed form for a run of consecutive exponents. */
  datatype Solver = DenseInverse | ClosedSolve

  /** The closed form was built for this plan: its exponents are consecutive, its constants distinct and not zero. */
  ghost predicate Serves<F(!new)>(K: Field<F>, solver: Solver, P: Plan<F>)
    requires P.Valid(K)
  {
    solver == ClosedSolve ==>
      && |P.exponents| > 0 && Consecutive(P.exponents)
      && Distinct(Pick(P.constants, P.missing)) && K.zero !in Pick(P.constants, P.missing)
  }

  /** What the chosen solver makes of the syndromes. */
  ghost function Solve<F(!new)>(K: Field<F>, solver: Solver, P: Plan<F>, s: Vector<F>): (x: Vector<F>)
    requires P.Valid(K) && |s| == |P.missing| && Serves(K, solver, P)
    ensures |x| == |P.missing|
  {
    match solver
    case DenseInverse => Apply(K, Right(P.repair, |P.available|, |P.missing|), |P.missing|, s)
    case ClosedSolve => ClosedForm(K, Pick(P.constants, P.missing), P.exponents[0], s)
  }

  /** Either solver computes what the other would. */
  lemma SolversAgree<F(!new)>(K: Field<F>, solver: Solver, P: Plan<F>, present: Vector<F>, r: Vector<F>)
    requires P.Valid(K) && Serves(K, solver, P) && |present| == |P.available| && |r| == |P.exponents|
    ensures Solve(K, solver, P, TransformArm.Syndromes(K, P, present, r)) == ArmRepair(K, P, present, r)
  {
    if solver == ClosedSolve {
      var V, N := PowerRows(K, P.constants, P.missing, P.exponents), Right(P.repair, |P.available|, |P.missing|);
      var roots := Pick(P.constants, P.missing);
      forall i, d | 0 <= i < |roots| && 0 <= d < |roots| ensures V[i][d] == Pow(K, roots[d], P.exponents[0] + i) {
        ConsecutiveFrom(P.exponents, i);
      }
      ClosedFormIsInverse(K, V, N, roots, P.exponents[0], TransformArm.Syndromes(K, P, present, r));
    }
  }

  // Memory.

  const DESCRIPTOR: nat := 16
  const CONVOLUTION: nat := 255
  const BUCKETS: nat := 257
  const SEGMENT: nat := 128
  const TRANSFORM_MIN_ROWS: nat := 512

  /** Rows of scratch the solver takes for each stripe. */
  function ScratchRows(solver: Solver, rows: nat): nat {
    match solver
    case DenseInverse => 0
    case ClosedSolve =>
      rows + if rows >= TRANSFORM_MIN_ROWS then (DivCeil(rows, SEGMENT) + 3) * CONVOLUTION + BUCKETS else 0
  }

  /** What a worker holds besides its syndrome rows, for stripes of the given bytes. */
  function WorkerBytes(dftRows: nat, solver: Solver, present: nat, rows: nat, stripe: nat): nat {
    (dftRows + ScratchRows(solver, rows)) * stripe + (present + rows) * DESCRIPTOR
  }

  /** The repair as the memory contract sees it, its sums saturating at the machine word. */
  function ShapeFor(slice: nat, present: nat, rows: nat, rangeLen: nat, planBytes: nat, dftRows: nat, solver: Solver,
                    budget: nat): G.Shape {
    G.Shape(slice, present, rows, rangeLen, planBytes,
            stripe => Min(WorkerBytes(dftRows, solver, present, rows, stripe), G.USIZE - 1), budget)
  }

  /** What the workers make of the recovery words r at position j. */
  ghost function RepairAt<F(!new)>(K: Field<F>, P: Plan<F>, solver: Solver, staging: Rows<F>, len: nat, j: nat,
                                   r: Vector<F>): (x: Vector<F>)
    requires P.Valid(K) && Serves(K, solver, P) && Shape(staging, |P.available|, len)
    ensures |x| == |P.missing|
  {
    if j < len && |r| == |P.missing| then Solve(K, solver, P, TransformArm.Syndromes(K, P, Column(staging, len, j), r))
    else Zeros(K, |P.missing|)
  }

  ghost function ProbeAt<F(!new)>(K: Field<F>, P: Plan<F>, staging: Rows<F>, len: nat, p: nat, j: nat, r: Vector<F>): F
    requires P.Valid(K) && p < |P.missing| && Shape(staging, |P.available|, len)
  {
    if j < len && |r| == |P.missing| then TransformArm.Syndromes(K, P, Column(staging, len, j), r)[p] else K.zero
  }

  /** Scratch for stripes of l words: so many rows of two bytes a word. */
  function Scratch(rows: nat, l: nat): nat { rows * (2 * l) }

  /** The band of len words that the workers of one pass share, in stripes of `stripe` words. */
  ghost function BandFor<F(!new)>(K: Field<F>, P: Plan<F>, solver: Solver, dftRows: nat, staging: Rows<F>,
                                  original: Rows<F>,
                                  p: nat, len: nat, stripe: nat): Band<F>
    requires P.Valid(K) && Serves(K, solver, P) && p < |P.missing| && stripe > 0
    requires Shape(staging, |P.available|, len)
  {
    Band(|P.missing|, Cuts(len, stripe), stripe, original,
         P.rangeLen * (2 * stripe) + (|P.available| + |P.missing|) * DESCRIPTOR,
         l => Scratch(dftRows + ScratchRows(solver, |P.missing|), l),
         (j, r) => RepairAt(K, P, solver, staging, len, j, r),
         (j, r) => ProbeAt(K, P, staging, len, p, j, r))
  }

  lemma ScratchMonotone(rows: nat, l: nat, m: nat)
    requires l <= m
    ensures Scratch(rows, l) <= Scratch(rows, m)
  {
    MulMonotone(2 * l, 2 * m, rows);
  }

  lemma BandForValid<F(!new)>(K: Field<F>, P: Plan<F>, solver: Solver, dftRows: nat, staging: Rows<F>,
                              original: Rows<F>,
                              p: nat, len: nat, stripe: nat)
    requires P.Valid(K) && Serves(K, solver, P) && p < |P.missing| && stripe > 0
    requires Shape(staging, |P.available|, len) && Shape(original, |P.missing|, len)
    ensures var B := BandFor(K, P, solver, dftRows, staging, original, p, len, stripe); B.Valid() && B.Width() == len
  {
    var B := BandFor(K, P, solver, dftRows, staging, original, p, len, stripe);
    CutsTile(len, stripe);
    forall l: nat | l <= stripe ensures B.scratch(l) <= B.scratch(stripe) {
      ScratchMonotone(dftRows + ScratchRows(solver, |P.missing|), l, stripe);
    }
  }

  /** However its workers interleave, a band that ends without a failure holds what the exact transform and the explicit
      inverse would have made of it. */
  lemma BandRunExact<F(!new), Byte>(K: Field<F>, A: Arm<F, Byte>, solver: Solver, dftRows: nat, S: Rows<F>, R: Rows<F>,
                                    p: nat, len: nat, stripe: nat, states: seq<State<F>>, last: State<F>)
    requires A.Valid(K) && Serves(K, solver, A.plan) && p < |A.targets| && stripe > 0
    requires Shape(S, |A.sources|, len) && Shape(R, |A.targets|, len)
    requires Stripes.Run(BandFor(K, A.plan, solver, dftRows, S, R, p, len, stripe), states)
    requires last == states[|states| - 1] && Over(last) && !last.failed && |last.workers| > 0
    ensures ExactOn(K, A, Produced(last.output, last.probe), p, S, R, len)
  {
    var B := BandFor(K, A.plan, solver, dftRows, S, R, p, len, stripe);
    BandForValid(K, A.plan, solver, dftRows, S, R, p, len, stripe);
    RunRepairs(B, states, last);
    forall k | 0 <= k < len
      ensures ExactWord(K, A, p, Column(S, len, k), Column(R, len, k), Column(last.output, len, k), last.probe[k])
    {
      assert Column(last.output, len, k) == B.repair(k, Column(R, len, k));
      WordExact(K, A, solver, S, Column(R, len, k), p, len, k);
    }
  }

  lemma WordExact<F(!new), Byte>(K: Field<F>, A: Arm<F, Byte>, solver: Solver, S: Rows<F>, r: Vector<F>, p: nat,
                                 len: nat, k: nat)
    requires A.Valid(K) && Serves(K, solver, A.plan) && p < |A.targets| && Shape(S, |A.sources|, len) &&
             |r| == |A.targets| && k < len
    ensures ExactWord(K, A, p, Column(S, len, k), r, RepairAt(K, A.plan, solver, S, len, k, r),
                      ProbeAt(K, A.plan, S, len, p, k, r))
  {
    SolversAgree(K, solver, A.plan, Column(S, len, k), r);
  }

  // An engine made of such bands.

  /** The result is how some run of that many workers over the band ended. */
  ghost predicate EndsIn<F(!new)>(B: Band<F>, workers: nat, states: seq<State<F>>, result: BandResult<F>) {
    && Stripes.Run(B, states) && Over(states[|states| - 1]) && |states[|states| - 1].workers| == workers
    && var last := states[|states| - 1]; result == if last.failed then Broken else Produced(last.output, last.probe)
  }

  ghost predicate FromWorkers<F(!new)>(B: Band<F>, workers: nat, result: BandResult<F>) {
    exists states: seq<State<F>> :: EndsIn(B, workers, states, result)
  }

  /** Whatever band it is given, the engine returns what its workers made of it. */
  ghost predicate WorkerEngine<F(!new), Byte>(K: Field<F>, A: Arm<F, Byte>, solver: Solver, dftRows: nat, words: nat,
                                              workers: nat,
                                              engine: (nat, Rows<F>, Rows<F>) -> BandResult<F>)
    requires A.Valid(K) && Serves(K, solver, A.plan) && words > 0
  {
    forall b: nat, S: Rows<F>, R: Rows<F>, len: nat :: Shape(S, |A.sources|, len) && Shape(R, |A.targets|, len) ==>
      FromWorkers(BandFor(K, A.plan, solver, dftRows, S, R, b % |A.targets|, len, words), workers, engine(b, S, R))
  }

  lemma BandFromWorkers<F(!new), Byte>(K: Field<F>, A: Arm<F, Byte>, solver: Solver, dftRows: nat, words: nat,
                                       workers: nat,
                                       S: Rows<F>, R: Rows<F>, p: nat, len: nat, result: BandResult<F>)
    requires A.Valid(K) && Serves(K, solver, A.plan) && words > 0 && workers > 0 && p < |A.targets|
    requires Shape(S, |A.sources|, len) && Shape(R, |A.targets|, len)
    requires FromWorkers(BandFor(K, A.plan, solver, dftRows, S, R, p, len, words), workers, result)
    ensures result.Produced? ==> ExactOn(K, A, result, p, S, R, len)
  {
    var B := BandFor(K, A.plan, solver, dftRows, S, R, p, len, words);
    var states :| EndsIn(B, workers, states, result);
    if result.Produced? {
      BandRunExact(K, A, solver, dftRows, S, R, p, len, words, states, states[|states| - 1]);
    }
  }

  /** Such an engine is sound, whichever solver it uses. */
  lemma WorkersSound<F(!new), Byte>(K: Field<F>, A: Arm<F, Byte>, solver: Solver, dftRows: nat, words: nat,
                                    workers: nat,
                                    engine: (nat, Rows<F>, Rows<F>) -> BandResult<F>)
    requires A.Valid(K) && Serves(K, solver, A.plan) && words > 0 && workers > 0
    requires WorkerEngine(K, A, solver, dftRows, words, workers, engine)
    ensures SoundEngine(K, A, engine)
  {
    forall b: nat, S: Rows<F>, R: Rows<F>, len: nat | Shape(S, |A.sources|, len) && Shape(R, |A.targets|, len)
      ensures engine(b, S, R).Produced? ==> ExactOn(K, A, engine(b, S, R), b % |A.targets|, S, R, len)
    {
      BandFromWorkers(K, A, solver, dftRows, words, workers, S, R, b % |A.targets|, len, engine(b, S, R));
    }
  }

  // Memory in use.

  /** A worker's allocation is what the geometry counted for it. */
  lemma SameWorker(dftRows: nat, solver: Solver, present: nat, rows: nat, rangeLen: nat, stripe: nat, words: nat)
    requires 2 * words == stripe
    ensures rangeLen * (2 * words) + (present + rows) * DESCRIPTOR +
            Scratch(dftRows + ScratchRows(solver, rows), words) ==
            rangeLen * stripe + WorkerBytes(dftRows, solver, present, rows, stripe)
  {
  }

  /** The arena an admissible geometry charges, for n bytes to a worker. */
  lemma ArenaIs(s: G.Shape, g: G.Geometry, live: nat, n: nat)
    requires G.Admissible(s, g) && n == s.PerWorker(g.stripe) && live <= g.workers * n + n
    ensures s.planBytes + live + g.band * s.PerBandByte() <= g.arenaBytes <= s.budget
  {
    assert n * g.workers == g.workers * n;
  }

  /** At every moment of every run, the plan's tables, the workers' buffers and the band's own stay within the arena
      the geometry charged, and so within the budget. */
  lemma RunWithinArena<F(!new)>(K: Field<F>, P: Plan<F>, solver: Solver, dftRows: nat, S: Rows<F>, R: Rows<F>, p: nat,
                                len: nat,
                                s: G.Shape, g: G.Geometry, words: nat, B: Band<F>, states: seq<State<F>>, i: nat)
    requires P.Valid(K) && Serves(K, solver, P) && p < |P.missing| && Shape(S, |P.available|, len) &&
             0 < 2 * words == g.stripe
    requires s == ShapeFor(s.slice, |P.available|, |P.missing|, P.rangeLen, s.planBytes, dftRows, solver, s.budget)
    requires G.Admissible(s, g) && P.rangeLen > 0
    requires B == BandFor(K, P, solver, dftRows, S, R, p, len, words) && Stripes.Run(B, states)
    requires i < |states| && |states[0].workers| == g.workers
    ensures s.planBytes + LiveBytes(B, states[i], |states[i].workers|) + g.band * s.PerBandByte() <= g.arenaBytes <=
            s.budget
  {
    RunWithinContract(B, states, i);
    SameWorker(dftRows, solver, |P.available|, |P.missing|, P.rangeLen, g.stripe, words);
    Unsaturated(P.rangeLen, g.stripe, WorkerBytes(dftRows, solver, |P.available|, |P.missing|, g.stripe));
    ArenaIs(s, g, LiveBytes(B, states[i], |states[i].workers|), PerWorker(B));
  }

  /** A per-worker sum that stays in the machine word was not cut short. */
  lemma Unsaturated(rangeLen: nat, stripe: nat, n: nat)
    requires rangeLen > 0 && stripe > 0 && rangeLen * stripe + Min(n, G.USIZE - 1) < G.USIZE
    ensures Min(n, G.USIZE - 1) == n
  {
    MulMonotone(1, rangeLen, stripe);
  }
}
