/** The memory contract of the transform arm: workers, stripe and band within a budget. */
module Geometry {
  import opened Options
  import opened Arithmetic

  const USIZE: nat := 0x1_0000_0000_0000_0000
  const ALIGN: nat := 64
  const STRIPE_TARGET: nat := 16384
  const STRIPE_FLOOR: nat := 256
  const MIN_BAND: nat := 2048
  const MAX_PASSES: nat := 256

  datatype Geometry = Geometry(band: nat, stripe: nat, passes: nat, workers: nat, arenaBytes: nat)

  /** The shape of a repair, and the bytes a worker needs besides its syndrome rows. */
  datatype Shape = Shape(slice: nat, present: nat, rows: nat, rangeLen: nat, planBytes: nat, perWorkerBytes: nat -> nat,
                         budget: nat) {

    /** Every size is a machine word, and the slice leaves room to round up. */
    ghost predicate Valid() {
      && slice + STRIPE_TARGET < USIZE && present < USIZE && rows < USIZE && rangeLen < USIZE && planBytes < USIZE &&
         budget < USIZE
      && forall stripe :: perWorkerBytes(stripe) < USIZE
    }

    function PerWorker(stripe: nat): nat { rangeLen * stripe + perWorkerBytes(stripe) }

    function PerBandByte(): nat { present + rows + 2 }

    /** What the arm charges against the budget. */
    function Arena(workers: nat, stripe: nat, band: nat): nat {
      planBytes + (PerWorker(stripe) * workers + PerWorker(stripe)) + band * PerBandByte()
    }
  }

  /** What the budget buys in whole stripes, and no more than the slice needs. */
  function Bought(s: Shape, workers: nat, stripe: nat): nat
    requires stripe > 0 && s.PerWorker(stripe) * workers + s.PerWorker(stripe) <= s.budget - s.planBytes
  {
    var bandBudget := s.budget - s.planBytes - (s.PerWorker(stripe) * workers + s.PerWorker(stripe));
    Min(AlignDown(bandBudget / s.PerBandByte(), stripe), AlignUp(s.slice, stripe))
  }

  /** The band the budget buys at this worker count and stripe, when it buys an admissible one. */
  function Fit(s: Shape, workers: nat, stripe: nat): Option<Geometry>
    requires stripe > 0
  {
    if s.budget < s.planBytes || s.PerBandByte() >= USIZE then None
    else
      var perWorker := s.PerWorker(stripe);
      var total := perWorker * workers + perWorker;
      if s.rangeLen * stripe >= USIZE || perWorker >= USIZE || perWorker * workers >= USIZE || total >= USIZE then None
      else if s.budget - s.planBytes < total then None
      else
        var band := Bought(s, workers, stripe);
        if band < stripe || band < Min(MIN_BAND, s.slice) || DivCeil(s.slice, band) > MAX_PASSES then None
        else Some(Geometry(band, stripe, DivCeil(s.slice, band), workers, s.Arena(workers, stripe, band)))
  }

  /** The stripes tried, from the largest down. */
  function StripeLadder(stripe: nat): (ladder: seq<nat>)
    requires stripe > 0 && stripe % ALIGN == 0
    ensures |ladder| > 0 && ladder[0] == stripe
    ensures forall i :: 0 <= i < |ladder| ==> ladder[i] > 0 && ladder[i] % ALIGN == 0
  {
    if stripe <= STRIPE_FLOOR then [stripe] else [stripe] + StripeLadder(NextStripe(stripe))
  }

  /** The least whole number of cache lines that is half of `stripe` and not below the floor. */
  predicate Halved(stripe: nat, next: nat) {
    && next % 64 == 0 && 256 <= next < stripe <= 2 * next
    && (next > 256 ==> 2 * (next - 64) < stripe)
  }

  function NextStripe(stripe: nat): (next: nat)
    requires stripe > STRIPE_FLOOR && stripe % ALIGN == 0
    ensures 0 < next < stripe && next % ALIGN == 0 && Halved(stripe, next)
  {
    Max(AlignUp(stripe / 2, ALIGN), STRIPE_FLOOR)
  }

  function FirstStripe(slice: nat): (stripe: nat)
    ensures 0 < stripe <= STRIPE_TARGET && stripe % ALIGN == 0
    ensures slice >= 16384 ==> stripe == 16384
    ensures 0 < slice < 16384 ==> slice <= stripe < slice + 64
    ensures slice == 0 ==> stripe == 64
  {
    Max(Min(STRIPE_TARGET, AlignUp(slice, ALIGN)) / ALIGN, 1) * ALIGN
  }

  /** The worker counts tried, halving. */
  function WorkerLadder(workers: nat): (ladder: seq<nat>)
    requires workers > 0
    ensures |ladder| > 0 && ladder[0] == workers
    ensures forall i :: 0 <= i < |ladder| ==> 0 < ladder[i] <= workers
  {
    if workers == 1 then [1] else [workers] + WorkerLadder(Max(workers / 2, 1))
  }

  /** Each stripe tried is half the one before, down to the floor. */
  lemma {:induction false} StripesHalve(stripe: nat)
    requires stripe > 0 && stripe % ALIGN == 0
    ensures var L := StripeLadder(stripe);
            L[|L| - 1] <= 256 && forall i :: 0 < i < |L| ==> Halved(L[i - 1], L[i])
    decreases stripe
  {
    if stripe > STRIPE_FLOOR {
      StripesHalve(NextStripe(stripe));
      assert forall i :: 0 < i < |StripeLadder(stripe)| ==>
               StripeLadder(stripe)[i] == StripeLadder(NextStripe(stripe))[i - 1];
    }
  }

  /** Each worker count tried is half the one before, rounded down, and the last is one worker. */
  lemma {:induction false} WorkersHalve(workers: nat)
    requires workers > 0
    ensures var L := WorkerLadder(workers);
            L[|L| - 1] == 1 && forall i :: 0 < i < |L| ==> 2 * L[i] <= L[i - 1] <= 2 * L[i] + 1
    decreases workers
  {
    if workers > 1 {
      WorkersHalve(Max(workers / 2, 1));
      assert forall i :: 0 < i < |WorkerLadder(workers)| ==>
               WorkerLadder(workers)[i] == WorkerLadder(Max(workers / 2, 1))[i - 1];
    }
  }

  // What a fit is worth.

  /** A fit keeps every promise of the contract. */
  ghost predicate Admissible(s: Shape, g: Geometry) {
    && g.stripe > 0 && g.stripe % ALIGN == 0
    && g.band >= g.stripe && g.band % g.stripe == 0 && g.band >= Min(MIN_BAND, s.slice)
    && g.passes <= MAX_PASSES && s.slice <= g.passes * g.band < s.slice + g.band
    && g.workers > 0 && s.PerWorker(g.stripe) < USIZE
    && g.arenaBytes == s.Arena(g.workers, g.stripe, g.band) <= s.budget
  }

  lemma FitAdmissible(s: Shape, workers: nat, stripe: nat)
    requires s.Valid() && workers > 0 && stripe > 0 && stripe % ALIGN == 0 && Fit(s, workers, stripe).Some?
    ensures Admissible(s, Fit(s, workers, stripe).value)
    ensures Fit(s, workers, stripe).value.workers == workers && Fit(s, workers, stripe).value.stripe == stripe
  {
    var perWorker, perByte := s.PerWorker(stripe), s.PerBandByte();
    var total := perWorker * workers + perWorker;
    var bandBudget := s.budget - s.planBytes - total;
    var g := Fit(s, workers, stripe).value;
    var bought := bandBudget / perByte;
    MultipleOf(bought / stripe, stripe);
    MultipleOf(DivCeil(s.slice, stripe), stripe);
    DivCeilCovers(s.slice, g.band);
    QuotientTimes(bought, stripe);
    MulMonotone(g.band, bought, perByte);
    QuotientTimes(bandBudget, perByte);
  }

  /** Band b at this worker count and stripe keeps the contract: whole stripes, no longer than the slice needs, not
      too short and not too many passes, and within the budget every worker's arena and a spare one, and b bytes of
      each present slice, each output row and two probe rows. */
  ghost predicate Affordable(s: Shape, workers: nat, stripe: nat, b: nat)
    requires stripe > 0
  {
    && b % stripe == 0 && stripe <= b < s.slice + stripe
    && (b >= 2048 || b >= s.slice) && s.slice <= 256 * b
    && s.planBytes + (workers + 1) * (s.rangeLen * stripe + s.perWorkerBytes(stripe)) + b * (s.present + s.rows + 2)
       <= s.budget
  }

  ghost predicate AnyBand(s: Shape, workers: nat, stripe: nat)
    requires stripe > 0
  {
    exists b: nat :: Affordable(s, workers, stripe, b)
  }

  /** The budget line is what the arm charges. */
  lemma ArenaIs(s: Shape, workers: nat, stripe: nat, b: nat)
    ensures s.Arena(workers, stripe, b) ==
            s.planBytes + (workers + 1) * (s.rangeLen * stripe + s.perWorkerBytes(stripe)) +
            b * (s.present + s.rows + 2)
  {
    var p := s.PerWorker(stripe);
    assert (workers + 1) * p == p * workers + p;
  }

  /** No checked sum or product of an affordable band overflows. */
  lemma NoOverflow(s: Shape, workers: nat, stripe: nat, b: nat)
    requires s.Valid() && stripe > 0 && Affordable(s, workers, stripe, b)
    ensures s.PerBandByte() <= b * s.PerBandByte() && s.rangeLen * stripe <= s.PerWorker(stripe)
    ensures s.PerWorker(stripe) + s.PerWorker(stripe) * workers + b * s.PerBandByte() <= s.budget - s.planBytes
  {
    ArenaIs(s, workers, stripe, b);
    MulMonotone(1, b, s.PerBandByte());
  }

  lemma Multiple(b: nat, d: nat)
    requires d > 0 && b % d == 0
    ensures b / d * d == b
  {
    assert b == b / d * d + b % d;
  }

  lemma LessTimes(q: nat, p: nat, d: nat)
    requires q * d < p * d + d
    ensures q <= p
  {
    if q > p {
      MulMonotone(p + 1, q, d);
    }
  }

  lemma QuotientAtLeast(q: nat, n: nat, d: nat)
    requires d > 0 && q * d <= n
    ensures q <= n / d
  {
    QuotientTimes(n, d);
    LessTimes(q, n / d, d);
  }

  /** A multiple of d that is at most n is at most n aligned down. */
  lemma DownIsLargest(b: nat, n: nat, d: nat)
    requires d > 0 && b % d == 0 && b <= n
    ensures b <= AlignDown(n, d)
  {
    Multiple(b, d);
    QuotientAtLeast(b / d, n, d);
    MulMonotone(b / d, n / d, d);
  }

  /** A multiple of d less than one step over n is at most n aligned up. */
  lemma UpIsLargest(b: nat, n: nat, d: nat)
    requires d > 0 && b % d == 0 && b < n + d
    ensures b <= AlignUp(n, d)
  {
    DivCeilCovers(n, d);
    Multiple(b, d);
    LessTimes(b / d, DivCeil(n, d), d);
    MulMonotone(b / d, DivCeil(n, d), d);
  }

  lemma FewPasses(slice: nat, band: nat, passes: nat)
    requires band > 0
    ensures DivCeil(slice, band) <= passes <==> slice <= passes * band
  {
    DivCeilCovers(slice, band);
    if DivCeil(slice, band) <= passes {
      MulMonotone(DivCeil(slice, band), passes, band);
    } else {
      MulMonotone(passes + 1, DivCeil(slice, band), band);
    }
  }

  lemma BoughtIsLargest(s: Shape, workers: nat, stripe: nat, b: nat)
    requires s.Valid() && stripe > 0 && Affordable(s, workers, stripe, b)
    ensures s.PerWorker(stripe) * workers + s.PerWorker(stripe) <= s.budget - s.planBytes
    ensures b <= Bought(s, workers, stripe)
  {
    NoOverflow(s, workers, stripe, b);
    var bandBudget := s.budget - s.planBytes - (s.PerWorker(stripe) * workers + s.PerWorker(stripe));
    QuotientAtLeast(b, bandBudget, s.PerBandByte());
    DownIsLargest(b, bandBudget / s.PerBandByte(), stripe);
    UpIsLargest(b, s.slice, stripe);
  }

  lemma FitIsBought(s: Shape, workers: nat, stripe: nat, perWorker: nat, shared: nat, band: nat)
    requires s.Valid() && stripe > 0 && s.PerBandByte() < USIZE && s.rangeLen * stripe < USIZE
    requires perWorker == s.PerWorker(stripe) < USIZE && shared == perWorker * workers < USIZE
    requires shared + perWorker < USIZE && shared + perWorker <= s.budget - s.planBytes
    requires band == Bought(s, workers, stripe) && band >= stripe && band >= Min(MIN_BAND, s.slice)
    requires DivCeil(s.slice, band) <= MAX_PASSES
    ensures Fit(s, workers, stripe).Some? && Fit(s, workers, stripe).value.band == band
  {
  }

  /** Whatever band the contract allows, the fit is at least as large. */
  lemma FitIsLargest(s: Shape, workers: nat, stripe: nat, b: nat)
    requires s.Valid() && stripe > 0 && Affordable(s, workers, stripe, b)
    ensures Fit(s, workers, stripe).Some? && b <= Fit(s, workers, stripe).value.band
  {
    BoughtIsLargest(s, workers, stripe, b);
    NoOverflow(s, workers, stripe, b);
    var band := Bought(s, workers, stripe);
    FewPasses(s.slice, band, MAX_PASSES);
    FitIsBought(s, workers, stripe, s.PerWorker(stripe), s.PerWorker(stripe) * workers, band);
  }

  lemma FitAffordable(s: Shape, workers: nat, stripe: nat)
    requires s.Valid() && workers > 0 && stripe > 0 && stripe % ALIGN == 0 && Fit(s, workers, stripe).Some?
    ensures Affordable(s, workers, stripe, Fit(s, workers, stripe).value.band)
  {
    FitAdmissible(s, workers, stripe);
    ArenaIs(s, workers, stripe, Fit(s, workers, stripe).value.band);
    DivCeilCovers(s.slice, stripe);
    FewPasses(s.slice, Fit(s, workers, stripe).value.band, MAX_PASSES);
  }

  /** A rung fits exactly when the contract allows some band there. */
  lemma FitsWhenAny(s: Shape, workers: nat, stripe: nat)
    requires s.Valid() && workers > 0 && stripe > 0 && stripe % ALIGN == 0
    ensures Fit(s, workers, stripe).Some? <==> AnyBand(s, workers, stripe)
  {
    if Fit(s, workers, stripe).Some? {
      FitAffordable(s, workers, stripe);
    }
    if AnyBand(s, workers, stripe) {
      var b: nat :| Affordable(s, workers, stripe, b);
      FitIsLargest(s, workers, stripe, b);
    }
  }

  /** No larger band would do with the same workers and stripe. */
  ghost predicate LargestBand(s: Shape, g: Geometry) {
    && g.stripe > 0 && Affordable(s, g.workers, g.stripe, g.band)
    && forall b: nat :: Affordable(s, g.workers, g.stripe, b) ==> b <= g.band
  }

  lemma FitHasLargest(s: Shape, workers: nat, stripe: nat)
    requires s.Valid() && workers > 0 && stripe > 0 && stripe % ALIGN == 0 && Fit(s, workers, stripe).Some?
    ensures LargestBand(s, Fit(s, workers, stripe).value)
  {
    FitAffordable(s, workers, stripe);
    forall b: nat | Affordable(s, workers, stripe, b) ensures b <= Fit(s, workers, stripe).value.band {
      FitIsLargest(s, workers, stripe, b);
    }
  }

  /** Some rung of the ladders can hold a band. */
  ghost predicate AnyFits(s: Shape, W: seq<nat>, S: seq<nat>)
    requires forall j :: 0 <= j < |S| ==> S[j] > 0
  {
    exists i, j :: 0 <= i < |W| && 0 <= j < |S| && AnyBand(s, W[i], S[j])
  }

  /** The answer is the first rung, in order, that can hold a band; none when no rung can. */
  ghost predicate FirstRung(s: Shape, W: seq<nat>, S: seq<nat>, g: Option<Geometry>)
    requires forall j :: 0 <= j < |S| ==> S[j] > 0
  {
    match g
    case None => !AnyFits(s, W, S)
    case Some(h) => exists i, j :: 0 <= i < |W| && 0 <= j < |S| && h.workers == W[i] && h.stripe == S[j] &&
                      forall i', j' :: 0 <= i' < |W| && 0 <= j' < |S| && (i' < i || (i' == i && j' < j)) ==>
                        !AnyBand(s, W[i'], S[j'])
  }

  /** The same by Fit. */
  ghost predicate FirstFit(s: Shape, W: seq<nat>, S: seq<nat>, g: Option<Geometry>)
    requires forall j :: 0 <= j < |S| ==> S[j] > 0
  {
    match g
    case None => forall i, j :: 0 <= i < |W| && 0 <= j < |S| ==> Fit(s, W[i], S[j]) == None
    case Some(_) => exists i, j :: 0 <= i < |W| && 0 <= j < |S| && g == Fit(s, W[i], S[j]) &&
                      forall i', j' :: 0 <= i' < |W| && 0 <= j' < |S| && (i' < i || (i' == i && j' < j)) ==>
                        Fit(s, W[i'], S[j']) == None
  }

  lemma FirstFitIsRung(s: Shape, W: seq<nat>, S: seq<nat>, g: Option<Geometry>)
    requires s.Valid() && (forall i :: 0 <= i < |W| ==> W[i] > 0)
    requires forall j :: 0 <= j < |S| ==> S[j] > 0 && S[j] % ALIGN == 0
    requires FirstFit(s, W, S, g)
    ensures FirstRung(s, W, S, g)
  {
    forall i, j | 0 <= i < |W| && 0 <= j < |S|
      ensures Fit(s, W[i], S[j]).Some? <==> AnyBand(s, W[i], S[j])
      ensures Fit(s, W[i], S[j]).Some? ==>
                Fit(s, W[i], S[j]).value.workers == W[i] && Fit(s, W[i], S[j]).value.stripe == S[j]
    {
      FitsWhenAny(s, W[i], S[j]);
    }
  }

  /** Search the ladders for the first fit: the most workers, then the longest stripe, then the largest band. */
  method PlanGeometry(s: Shape, maxWorkers: nat) returns (g: Option<Geometry>)
    requires s.Valid()
    ensures g.Some? ==> Admissible(s, g.value) && LargestBand(s, g.value) && g.value.workers <= Max(maxWorkers, 1)
    ensures FirstRung(s, WorkerLadder(Max(maxWorkers, 1)), StripeLadder(FirstStripe(s.slice)), g)
  {
    g := SearchLadders(s, maxWorkers);
    ghost var W, S := WorkerLadder(Max(maxWorkers, 1)), StripeLadder(FirstStripe(s.slice));
    FirstFitIsRung(s, W, S, g);
    if g.Some? {
      ghost var i, j :| 0 <= i < |W| && 0 <= j < |S| && g == Fit(s, W[i], S[j]);
      FitAdmissible(s, W[i], S[j]);
      FitHasLargest(s, W[i], S[j]);
    }
  }

  method SearchLadders(s: Shape, maxWorkers: nat) returns (g: Option<Geometry>)
    requires s.Valid()
    ensures FirstFit(s, WorkerLadder(Max(maxWorkers, 1)), StripeLadder(FirstStripe(s.slice)), g)
  {
    ghost var W, S := WorkerLadder(Max(maxWorkers, 1)), StripeLadder(FirstStripe(s.slice));
    if s.budget < s.planBytes { return None; }
    if s.PerBandByte() >= USIZE { return None; }
    var workers := Max(maxWorkers, 1);
    ghost var i := 0;
    while true
      invariant workers > 0 && 0 <= i < |W| && WorkerLadder(workers) == W[i..]
      invariant forall i', j' :: 0 <= i' < i && 0 <= j' < |S| ==> Fit(s, W[i'], S[j']) == None
      decreases workers
    {
      var stripe := FirstStripe(s.slice);
      ghost var j := 0;
      while true
        invariant stripe > 0 && stripe % ALIGN == 0 && 0 <= j < |S| && StripeLadder(stripe) == S[j..]
        invariant forall j' :: 0 <= j' < j ==> Fit(s, W[i], S[j']) == None
        decreases stripe
      {
        assert S[j] == S[j..][0] && W[i] == W[i..][0];
        g := Fit(s, workers, stripe);
        if g.Some? {
          return;
        }
        if stripe <= STRIPE_FLOOR {
          assert |S[j..]| == 1;
          break;
        }
        assert S[j + 1..] == S[j..][1..];
        stripe := NextStripe(stripe);
        j := j + 1;
      }
      if workers == 1 {
        assert |W[i..]| == 1;
        return None;
      }
      assert W[i + 1..] == W[i..][1..];
      workers := Max(workers / 2, 1);
      i := i + 1;
    }
  }
}
