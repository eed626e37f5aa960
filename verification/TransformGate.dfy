/** Whether the transform arm takes a repair at all, and that declining one
    leaves the files alone. */
module TransformGate {
  import opened Options
  import opened Arithmetic
  import opened Fields
  import opened Linear
  import opened Vandermonde
  import opened Polynomials
  import opened TransformArm
  import opened TransformRun
  import opened TransformBand
  import G = Geometry

  const MIN_MISSING: nat := 256
  const FOLD_MARGIN: nat := 4
  const MAX_RANGE_MULTIPLE: nat := 4
  const CONSECUTIVE_SOLVE_MIN_ROWS: nat := 512
  const GROUP_ORDER: nat := 65535
  const U64_MAX: nat := 0xFFFF_FFFF_FFFF_FFFF

  datatype Setting = On | Off

  datatype Reason =
    | ForcedOff | GpuCompiledIn | NoWorkerThreads | BelowFloor | Degenerate | MatrixNotSquare | NoExponents
    | OutsideTransform | TooScattered | PlanRefused | FoldMargin | MemoryLimit

  datatype Decision = Declined(reason: Reason) | Admitted(lowest: nat, rangeLen: nat, solver: Solver,
                                                          geometry: G.Geometry)

  /** A transform plan: the folds of a stripe, the bytes of its tables, and its rows of scratch. */
  datatype Dft = Dft(folds: nat, planBytes: nat, scratchRows: nat)

  /** The repair as the gate sees it. `dft` is None when no transform plan can be built; `distinct` says that the closed
      solve accepts the missing slices' constants. */
  datatype Request = Request(setting: Option<Setting>, gpu: bool, threads: bool, rows: nat, present: nat, slice: nat,
                             matrixRows: nat, matrixCols: nat, exponents: seq<nat>, dft: Option<Dft>, distinct: bool,
                             budget: nat, workers: nat) {

    /** Every size is a machine word. */
    ghost predicate Sized() {
      && slice + G.STRIPE_TARGET < G.USIZE && rows < G.USIZE && present < G.USIZE && budget < G.USIZE
      && (dft.Some? ==> dft.value.planBytes < G.USIZE)
    }

    /** The repair as the memory contract sees it. */
    function Contract(rangeLen: nat, solver: Solver): G.Shape
      requires dft.Some?
    {
      ShapeFor(slice, present, rows, rangeLen, dft.value.planBytes, dft.value.scratchRows, solver, budget)
    }

    /** The closed solve can serve: enough rows, every exponent of the range selected, in order. */
    ghost predicate Closable(rangeLen: nat) {
      rows >= 512 && rangeLen == rows && distinct && Consecutive(exponents)
    }

    /** Some rung of the ladders fits the budget with the solver. */
    ghost predicate Roomy(rangeLen: nat, solver: Solver)
      requires dft.Some?
    {
      G.AnyFits(Contract(rangeLen, solver), G.WorkerLadder(Max(workers, 1)), G.StripeLadder(G.FirstStripe(slice)))
    }

    /** The closed solve is taken when it can serve and fits, and the explicit inverse only when it cannot. */
    ghost predicate Settles(rangeLen: nat, solver: Solver, g: G.Geometry)
      requires dft.Some?
    {
      && G.Admissible(Contract(rangeLen, solver), g) && g.workers <= Max(workers, 1)
      && G.LargestBand(Contract(rangeLen, solver), g)
      && (solver == ClosedSolve <==> Closable(rangeLen) && Roomy(rangeLen, ClosedSolve))
    }
  }

  function Saturated(n: nat): nat { Min(n, U64_MAX) }

  /** The transform and the m x m product beat the dense product by the margin. */
  predicate Worthwhile(folds: nat, rows: nat, present: nat) {
    Saturated(Saturated(folds + Saturated(rows * rows)) * FOLD_MARGIN) <= Saturated(rows * (present + rows))
  }

  /** Four times the transform's folds and the product's do not exceed the dense product's, or those cannot be counted
      in 64 bits. */
  predicate BeatsDense(folds: nat, rows: nat, present: nat) {
    || 4 * (folds + rows * rows) <= rows * (present + rows)
    || rows * (present + rows) >= 0xFFFF_FFFF_FFFF_FFFF
  }

  /** Saturating at each step decides as the exact counts do. */
  lemma WorthwhileIs(folds: nat, rows: nat, present: nat)
    ensures Worthwhile(folds, rows, present) <==> BeatsDense(folds, rows, present)
  {
    SaturatedMargin(folds, rows * rows, rows * (present + rows));
  }

  lemma SaturatedMargin(folds: nat, square: nat, dense: nat)
    ensures Saturated(Saturated(folds + Saturated(square)) * FOLD_MARGIN) <= Saturated(dense) <==>
            4 * (folds + square) <= dense || dense >= 0xFFFF_FFFF_FFFF_FFFF
  {
  }

  /** Fewer folds or more present slices never shut the gate. */
  lemma GateMonotone(folds: nat, folds': nat, rows: nat, present: nat, present': nat)
    requires folds' <= folds && present <= present' && Worthwhile(folds, rows, present)
    ensures Worthwhile(folds', rows, present')
  {
    WorthwhileIs(folds, rows, present);
    WorthwhileIs(folds', rows, present');
    MulMonotone(present + rows, present' + rows, rows);
    assert (present + rows) * rows == rows * (present + rows);
    assert (present' + rows) * rows == rows * (present' + rows);
  }

  /** lowest and rangeLen are the exact extent of the exponents. */
  ghost predicate Extent(exponents: seq<nat>, lowest: nat, rangeLen: nat) {
    && lowest in exponents && rangeLen > 0 && lowest + rangeLen - 1 in exponents
    && forall i :: 0 <= i < |exponents| ==> lowest <= exponents[i] < lowest + rangeLen
  }

  lemma ExtentUnique(exponents: seq<nat>, a: nat, n: nat, b: nat, m: nat)
    requires Extent(exponents, a, n) && Extent(exponents, b, m)
    ensures a == b && n == m
  {
  }

  /** What the arm demands of a repair whose exponents span rangeLen from lowest, by the reason given when it is not
      so. */
  ghost predicate Open(q: Request, lowest: nat, rangeLen: nat, gate: Reason) {
    match gate
    case ForcedOff => q.setting != Some(Off)
    case GpuCompiledIn => !q.gpu
    case NoWorkerThreads => q.threads
    case BelowFloor => q.setting == Some(On) || q.rows >= 256
    case Degenerate => q.rows > 0 && q.present > 0 && q.slice > 0
    case MatrixNotSquare => q.matrixRows == q.rows && q.matrixCols == q.rows
    case NoExponents => |q.exponents| > 0
    case OutsideTransform => lowest + rangeLen <= 65535
    case TooScattered => rangeLen <= 4 * q.rows
    case PlanRefused => q.dft.Some?
    case FoldMargin => q.setting == Some(On) || (q.dft.Some? && BeatsDense(q.dft.value.folds, q.rows, q.present))
    case MemoryLimit =>
      q.dft.Some? && (q.Roomy(rangeLen, DenseInverse) || (q.Closable(rangeLen) && q.Roomy(rangeLen, ClosedSolve)))
  }

  /** The order the gates are asked in. */
  function Rank(gate: Reason): nat {
    match gate
    case ForcedOff => 0
    case GpuCompiledIn => 1
    case NoWorkerThreads => 2
    case BelowFloor => 3
    case Degenerate => 4
    case MatrixNotSquare => 5
    case NoExponents => 6
    case OutsideTransform => 7
    case TooScattered => 8
    case PlanRefused => 9
    case FoldMargin => 10
    case MemoryLimit => 11
  }

  /** Every gate before the k-th is open. */
  ghost predicate OpenBefore(q: Request, lowest: nat, rangeLen: nat, k: nat) {
    forall gate: Reason :: Rank(gate) < k ==> Open(q, lowest, rangeLen, gate)
  }

  ghost predicate AllOpen(q: Request, lowest: nat, rangeLen: nat) { OpenBefore(q, lowest, rangeLen, 12) }

  ghost predicate FirstShut(q: Request, lowest: nat, rangeLen: nat, gate: Reason) {
    !Open(q, lowest, rangeLen, gate) && OpenBefore(q, lowest, rangeLen, Rank(gate))
  }

  /** Declined for the first gate that is shut, whatever range is taken for an empty selection. */
  ghost predicate DeclinedAt(q: Request, gate: Reason) {
    forall lowest: nat, rangeLen: nat :: Extent(q.exponents, lowest, rangeLen) || q.exponents == [] ==>
      FirstShut(q, lowest, rangeLen, gate)
  }

  method Lowest(exponents: seq<nat>) returns (m: nat)
    requires |exponents| > 0
    ensures m in exponents && forall i :: 0 <= i < |exponents| ==> m <= exponents[i]
  {
    m := exponents[0];
    for i := 1 to |exponents|
      invariant m in exponents && forall k :: 0 <= k < i ==> m <= exponents[k]
    {
      if exponents[i] < m { m := exponents[i]; }
    }
  }

  method Highest(exponents: seq<nat>) returns (m: nat)
    requires |exponents| > 0
    ensures m in exponents && forall i :: 0 <= i < |exponents| ==> exponents[i] <= m
  {
    m := exponents[0];
    for i := 1 to |exponents|
      invariant m in exponents && forall k :: 0 <= k < i ==> exponents[k] <= m
    {
      if exponents[i] > m { m := exponents[i]; }
    }
  }

  /** build_for_exponents asks whether each exponent is the first plus its place. */
  method IsRun(exponents: seq<nat>) returns (ok: bool)
    ensures ok <==> Consecutive(exponents)
  {
    for i := 0 to |exponents|
      invariant forall k :: 0 <= k < i ==> exponents[k] == exponents[0] + k
    {
      if exponents[i] != exponents[0] + i {
        if Consecutive(exponents) { ConsecutiveFrom(exponents, i); }
        return false;
      }
    }
    return true;
  }

  method GeometryFor(q: Request, rangeLen: nat, solver: Solver) returns (g: Option<G.Geometry>)
    requires q.dft.Some? && q.Sized() && rangeLen < G.USIZE
    ensures g.Some? <==> q.Roomy(rangeLen, solver)
    ensures g.Some? ==>
              && G.Admissible(q.Contract(rangeLen, solver), g.value) && g.value.workers <= Max(q.workers, 1)
              && G.LargestBand(q.Contract(rangeLen, solver), g.value)
  {
    g := G.PlanGeometry(q.Contract(rangeLen, solver), q.workers);
  }

  /** choose_solver: the closed solve when it can serve and fits, else the explicit inverse if that fits. */
  method ChooseSolver(q: Request, rangeLen: nat) returns (chosen: Option<(Solver, G.Geometry)>)
    requires q.dft.Some? && q.Sized() && rangeLen < G.USIZE
    ensures chosen.Some? ==> q.Settles(rangeLen, chosen.value.0, chosen.value.1)
    ensures chosen.Some? <==>
              q.Roomy(rangeLen, DenseInverse) || (q.Closable(rangeLen) && q.Roomy(rangeLen, ClosedSolve))
  {
    if q.rows >= CONSECUTIVE_SOLVE_MIN_ROWS && rangeLen == q.rows {
      var run := IsRun(q.exponents);
      if run && q.distinct {
        var closed := GeometryFor(q, rangeLen, ClosedSolve);
        if closed.Some? {
          return Some((ClosedSolve, closed.value));
        }
      }
    }
    var dense := GeometryFor(q, rangeLen, DenseInverse);
    return if dense.Some? then Some((DenseInverse, dense.value)) else None;
  }

  /** The gates of try_execute, in order: a repair is admitted exactly when all are open, and declined for the first
      that is shut. */
  method Decide(q: Request) returns (d: Decision)
    requires q.Sized()
    ensures d.Admitted? ==>
              && Extent(q.exponents, d.lowest, d.rangeLen) && AllOpen(q, d.lowest, d.rangeLen)
              && q.dft.Some? && q.Settles(d.rangeLen, d.solver, d.geometry)
    ensures d.Declined? ==> DeclinedAt(q, d.reason)
    ensures d.Admitted? && q.setting != Some(On) ==>
              var dense := q.rows * (q.present + q.rows);
              dense < 0xFFFF_FFFF_FFFF_FFFF ==> 4 * (q.dft.value.folds + q.rows * q.rows) <= dense
    ensures d == Declined(FoldMargin) ==>
              && q.setting != Some(On) && q.dft.Some?
              && 4 * (q.dft.value.folds + q.rows * q.rows) > q.rows * (q.present + q.rows)
  {
    if q.setting == Some(Off) { return Declined(ForcedOff); }
    if q.gpu { return Declined(GpuCompiledIn); }
    if !q.threads { return Declined(NoWorkerThreads); }
    if q.setting != Some(On) && q.rows < MIN_MISSING { return Declined(BelowFloor); }
    if q.rows == 0 || q.present == 0 || q.slice == 0 { return Declined(Degenerate); }
    if q.matrixRows != q.rows || q.matrixCols != q.rows { return Declined(MatrixNotSquare); }
    if |q.exponents| == 0 { return Declined(NoExponents); }
    var lowest := Lowest(q.exponents);
    var highest := Highest(q.exponents);
    var rangeLen := highest - lowest + 1;
    forall a: nat, n: nat | Extent(q.exponents, a, n) ensures a == lowest && n == rangeLen {
      ExtentUnique(q.exponents, a, n, lowest, rangeLen);
    }
    d := DecideRange(q, lowest, rangeLen);
    assert d.Admitted? ==> Open(q, lowest, rangeLen, FoldMargin);
    assert d == Declined(FoldMargin) ==> Open(q, lowest, rangeLen, PlanRefused);
  }

  /** The transform is forced on or beats the dense product by the margin. */
  method MeetsMargin(q: Request) returns (ok: bool)
    requires q.dft.Some?
    ensures ok <==> q.setting == Some(On) || BeatsDense(q.dft.value.folds, q.rows, q.present)
  {
    WorthwhileIs(q.dft.value.folds, q.rows, q.present);
    ok := q.setting == Some(On) || Worthwhile(q.dft.value.folds, q.rows, q.present);
  }

  /** The gates that ask about the exponents' range. */
  method DecideRange(q: Request, lowest: nat, rangeLen: nat) returns (d: Decision)
    requires q.Sized() && OpenBefore(q, lowest, rangeLen, Rank(OutsideTransform))
    ensures d.Admitted? ==>
              && d.lowest == lowest && d.rangeLen == rangeLen && AllOpen(q, lowest, rangeLen)
              && q.dft.Some? && q.Settles(rangeLen, d.solver, d.geometry)
    ensures d.Declined? ==> FirstShut(q, lowest, rangeLen, d.reason)
  {
    if lowest + rangeLen > GROUP_ORDER { return Declined(OutsideTransform); }
    OpenNext(q, lowest, rangeLen, OutsideTransform);
    if rangeLen > Saturated(q.rows * MAX_RANGE_MULTIPLE) { return Declined(TooScattered); }
    OpenNext(q, lowest, rangeLen, TooScattered);
    if q.dft == None { return Declined(PlanRefused); }
    OpenNext(q, lowest, rangeLen, PlanRefused);
    d := DecideCost(q, lowest, rangeLen);
  }

  lemma OpenNext(q: Request, lowest: nat, rangeLen: nat, gate: Reason)
    requires OpenBefore(q, lowest, rangeLen, Rank(gate)) && Open(q, lowest, rangeLen, gate)
    ensures OpenBefore(q, lowest, rangeLen, Rank(gate) + 1)
  {
    forall other: Reason | Rank(other) < Rank(gate) + 1 ensures Open(q, lowest, rangeLen, other) {
      assert Rank(other) == Rank(gate) ==> other == gate;
    }
  }

  /** The gates that ask what the transform costs in time and memory. */
  method DecideCost(q: Request, lowest: nat, rangeLen: nat) returns (d: Decision)
    requires q.Sized() && q.dft.Some? && rangeLen < G.USIZE && OpenBefore(q, lowest, rangeLen, Rank(FoldMargin))
    ensures d.Admitted? ==>
              && d.lowest == lowest && d.rangeLen == rangeLen && AllOpen(q, lowest, rangeLen)
              && q.Settles(rangeLen, d.solver, d.geometry)
    ensures d.Declined? ==> FirstShut(q, lowest, rangeLen, d.reason)
  {
    var enough := MeetsMargin(q);
    if !enough { return Declined(FoldMargin); }
    OpenNext(q, lowest, rangeLen, FoldMargin);
    var chosen := ChooseSolver(q, rangeLen);
    if chosen == None { return Declined(MemoryLimit); }
    OpenNext(q, lowest, rangeLen, MemoryLimit);
    return Admitted(lowest, rangeLen, chosen.value.0, chosen.value.1);
  }

  /** The arm over the range and band the gate settled on. */
  ghost function Over<F(!new), Byte>(A: Arm<F, Byte>, d: Decision): Arm<F, Byte>
    requires d.Admitted?
  {
    A.(plan := A.plan.(lowest := d.lowest, rangeLen := d.rangeLen), band := d.geometry.band / 2)
  }

  lemma OverValid<F(!new), Byte>(K: Field<F>, A: Arm<F, Byte>, d: Decision)
    requires A.Valid(K) && d.Admitted? && Extent(A.plan.exponents, d.lowest, d.rangeLen) && d.geometry.band >= 2
    ensures Over(A, d).Valid(K)
  {
  }

  /** A band is a whole number of words, and a slice takes as many passes counted in words as in bytes. */
  lemma InWords(s: G.Shape, g: G.Geometry, words: nat)
    requires G.Admissible(s, g) && s.slice == 2 * words
    ensures g.band >= 2 && g.stripe >= 2 && 2 * (g.stripe / 2) == g.stripe && DivCeil(words, g.band / 2) == g.passes
  {
    BandInWords(g.band, g.stripe, g.passes, words);
  }

  lemma BandInWords(band: nat, stripe: nat, passes: nat, words: nat)
    requires stripe > 0 && stripe % 64 == 0 && band >= stripe && band % stripe == 0
    requires 2 * words <= passes * band < 2 * words + band
    ensures band >= 2 && stripe >= 2 && 2 * (stripe / 2) == stripe && DivCeil(words, band / 2) == passes
  {
    var k, m := stripe / 64, band / stripe;
    G.Multiple(band, stripe);
    TimesEven(m, k);
    HalfPasses(words, band / 2, passes);
  }

  lemma TimesEven(m: nat, k: nat)
    ensures m * (64 * k) == 2 * (m * (32 * k))
  {
  }

  lemma HalfPasses(words: nat, half: nat, passes: nat)
    requires half > 0 && 2 * words <= passes * (2 * half) < 2 * words + 2 * half
    ensures DivCeil(words, half) == passes
  {
    assert passes * (2 * half) == 2 * (passes * half);
    Arithmetic.Quotient(words + half - 1, half, passes);
  }

  /** The gate sees the arm's own repair. */
  ghost predicate Describes<F(!new), Byte>(K: Field<F>, q: Request, A: Arm<F, Byte>)
    requires A.Valid(K)
  {
    && q.Sized() && q.exponents == A.plan.exponents && q.rows == |A.targets| && q.present == |A.sources| &&
       q.slice == 2 * A.words
    && (q.distinct ==> var c := Pick(A.plan.constants, A.plan.missing); Distinct(c) && K.zero !in c)
  }

  datatype Attempt = NotTaken(reason: Reason) | Taken(outcome: Outcome)

  /** The arm taken is the one the gate admitted, and its solver can serve it. */
  ghost predicate Admits<F(!new), Byte>(K: Field<F>, A: Arm<F, Byte>, q: Request, d: Decision, arm: Arm<F, Byte>) {
    && d.Admitted? && Extent(q.exponents, d.lowest, d.rangeLen) && AllOpen(q, d.lowest, d.rangeLen)
    && q.dft.Some? && q.Settles(d.rangeLen, d.solver, d.geometry)
    && arm == Over(A, d) && arm.Valid(K) && Serves(K, d.solver, arm.plan) && d.geometry.stripe >= 2
  }

  lemma AdmitsServes<F(!new), Byte>(K: Field<F>, A: Arm<F, Byte>, q: Request, d: Decision)
    requires A.Valid(K) && Describes(K, q, A) && d.Admitted? && Extent(q.exponents, d.lowest, d.rangeLen)
    requires AllOpen(q, d.lowest, d.rangeLen) && q.dft.Some? && q.Settles(d.rangeLen, d.solver, d.geometry)
    ensures Admits(K, A, q, d, Over(A, d)) && DivCeil(A.words, d.geometry.band / 2) == d.geometry.passes
  {
    InWords(q.Contract(d.rangeLen, d.solver), d.geometry, A.words);
    OverValid(K, A, d);
  }

  /** try_execute: declined with every byte untouched, or run over the range, the band and the solver the gate settled
      on, in exactly the passes of its geometry. Worked by stripe workers, it never disagrees with its probes, and
      all it writes is the dense result. */
  method TryExecute<F(!new,==), Byte(==)>(K: Field<F>, store: FileStore<Byte>, A: Arm<F, Byte>, q: Request,
                                          engines: Decision -> (nat, Rows<F>, Rows<F>) -> BandResult<F>)
    returns (attempt: Attempt, ghost d: Decision, ghost arm: Arm<F, Byte>, ghost bands: nat, ghost repaired: Rows<F>)
    requires A.Valid(K) && Describes(K, q, A) && forall d: Decision :: Shaped(A, engines(d))
    modifies store
    ensures attempt.NotTaken? ==>
            store.cells == old(store.cells) && store.writes == old(store.writes) && DeclinedAt(q, attempt.reason)
    ensures attempt.Taken? ==>
              && Admits(K, A, q, d, arm)
              && |repaired| <= arm.words && Linear.Shape(repaired, |repaired|, |arm.targets|)
              && AllSettled(arm, old(store.cells), store.cells, old(store.writes), store.writes, repaired)
              && AllBalanced(K, arm, old(store.cells), repaired, bands) &&
                 StoreBalances(K, arm, store.cells, |repaired|, bands)
              && (attempt.outcome == Executed <==> |repaired| == arm.words)
              && (attempt.outcome == Executed ==> bands == d.geometry.passes)
              && (WorkerEngine(K, arm, d.solver, q.dft.value.scratchRows, d.geometry.stripe / 2, d.geometry.workers,
                               engines(d)) ==>
                    attempt.outcome != Diverged && AllDense(K, arm, old(store.cells), repaired))
  {
    arm, bands, repaired := A, 0, [];
    var decision := Decide(q);
    d := decision;
    if decision.Declined? {
      return NotTaken(decision.reason), d, arm, bands, repaired;
    }
    AdmitsServes(K, A, q, d);
    var over := A.(plan := A.plan.(lowest := decision.lowest, rangeLen := decision.rangeLen),
                   band := decision.geometry.band / 2);
    arm := over;
    if WorkerEngine(K, arm, d.solver, q.dft.value.scratchRows, d.geometry.stripe / 2, d.geometry.workers, engines(d)) {
      WorkersSound(K, arm, d.solver, q.dft.value.scratchRows, d.geometry.stripe / 2, d.geometry.workers, engines(d));
    }
    var outcome;
    outcome, bands, repaired := Run(K, store, over, engines(decision));
    attempt := Taken(outcome);
  }
}
