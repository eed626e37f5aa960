/** One band of the transform arm: workers that claim stripes off a shared counter
    and overwrite the recovery rows in place with the repaired ones. */
module Stripes {
  import opened Linear

  /** What does not change while a band is worked on. Stripe t is the positions
      bounds[t] up to bounds[t + 1]. `repair` is what the transform and the solve
      make of the recovery words at one position, `syndrome` the probe word there. A
      worker holds `fixedBytes` throughout and `scratch(l)` for each arena of length l. */
  datatype Band<!F(!new)> = Band(rows: nat, bounds: seq<nat>, full: nat, original: Rows<F>, fixedBytes: nat,
                                 scratch: nat -> nat,
                           repair: (nat, Vector<F>) -> Vector<F>, syndrome: (nat, Vector<F>) -> F) {

    function Stripes(): nat
      requires |bounds| > 0
    {
      |bounds| - 1
    }

    function Width(): nat
      requires |bounds| > 0
    {
      bounds[|bounds| - 1]
    }

    function Len(t: nat): nat
      requires t + 1 < |bounds|
    {
      if bounds[t] <= bounds[t + 1] then bounds[t + 1] - bounds[t] else 0
    }

    /** Stripes lie end to end; every one but the last has the full length. */
    ghost predicate Valid() {
      && |bounds| > 0 && bounds[0] == 0
      && Shape(original, rows, Width())
      && (forall t :: 0 <= t < Stripes() ==> 0 < Len(t) <= full)
      && (forall t :: 0 <= t < Stripes() - 1 ==> Len(t) == full)
      && (forall t, u :: 0 <= t <= u < |bounds| ==> bounds[t] <= bounds[u])
      && (forall j: nat, v: Vector<F> :: |repair(j, v)| == rows)
      && (forall l :: 0 <= l <= full ==> scratch(l) <= scratch(full))
    }

    /** What the transform and the solve make of the loaded rows of stripe t. */
    ghost function Results(t: nat, loaded: Rows<F>): (R: Rows<F>)
      requires Valid() && t < Stripes() && Shape(loaded, rows, Len(t))
      ensures Shape(R, rows, Len(t))
      ensures forall r, k :: 0 <= r < rows && 0 <= k < Len(t) ==>
              R[r][k] == repair(bounds[t] + k, Column(loaded, Len(t), k))[r]
    {
      seq(rows, r requires 0 <= r < rows =>
        seq(Len(t), k requires 0 <= k < Len(t) => repair(bounds[t] + k, Column(loaded, Len(t), k))[r]))
    }

    ghost function Syndromes(t: nat, loaded: Rows<F>): (p: Vector<F>)
      requires Valid() && t < Stripes() && Shape(loaded, rows, Len(t))
      ensures |p| == Len(t) && forall k :: 0 <= k < Len(t) ==>
              p[k] == syndrome(bounds[t] + k, Column(loaded, Len(t), k))
    {
      seq(Len(t), k requires 0 <= k < Len(t) => syndrome(bounds[t] + k, Column(loaded, Len(t), k)))
    }

    /** Row r of A, in stripe t. */
    ghost function Part(A: Rows<F>, r: nat, t: nat): Vector<F>
      requires Valid() && t < Stripes() && Shape(A, rows, Width()) && r < rows
    {
      A[r][bounds[t]..bounds[t + 1]]
    }

    /** The repaired rows. */
    ghost function Expected(): (E: Rows<F>)
      requires Valid()
      ensures Shape(E, rows, Width())
      ensures forall r, j :: 0 <= r < rows && 0 <= j < Width() ==> E[r][j] == repair(j, Column(original, Width(), j))[r]
    {
      seq(rows, r requires 0 <= r < rows => seq(Width(), j requires 0 <= j < Width() =>
                                                repair(j, Column(original, Width(), j))[r]))
    }

    ghost function ExpectedProbe(): (p: Vector<F>)
      requires Valid()
      ensures |p| == Width() && forall j :: 0 <= j < Width() ==> p[j] == syndrome(j, Column(original, Width(), j))
    {
      seq(Width(), j requires 0 <= j < Width() => syndrome(j, Column(original, Width(), j)))
    }
  }

  datatype Phase<F> =
    | Ready
    | Claimed(stripe: nat)
    | Loading(stripe: nat, loaded: Rows<F>)
    | Writing(stripe: nat, results: Rows<F>, next: nat)
    | Exited
  {
    predicate Busy() {
      Claimed? || Loading? || Writing?
    }

    predicate On(t: nat) {
      Busy() && stripe == t
    }
  }

  /** `held` is the stripe lengths of the scratch arenas the worker has allocated. */
  datatype Worker<F> = Worker(phase: Phase<F>, held: seq<nat>)

  /** `claimedBy`, `written` and `finished` record the past: who claimed each stripe,
      how many of its rows have been overwritten, and the stripes done, in order. */
  datatype State<F> = State(next: nat, failed: bool, workers: seq<Worker<F>>, output: Rows<F>, probe: Vector<F>,
                            claimedBy: seq<nat>, written: seq<nat>, finished: seq<nat>)

  ghost predicate Init<F(!new)>(B: Band<F>, s: State<F>) {
    && B.Valid()
    && s.next == 0 && !s.failed && s.output == B.original && |s.probe| == B.Width()
    && (forall w :: 0 <= w < |s.workers| ==> s.workers[w] == Worker(Ready, [B.full]))
    && s.claimedBy == [] && s.finished == [] && s.written == seq(B.Stripes(), _ => 0)
  }

  function SetPhase<F>(s: State<F>, w: nat, p: Phase<F>): State<F>
    requires w < |s.workers|
  {
    s.(workers := s.workers[w := s.workers[w].(phase := p)])
  }

  /** Take the next stripe off the counter, or leave when there is none or a worker has failed. */
  ghost predicate Claim<F(!new)>(B: Band<F>, s: State<F>, s': State<F>, w: nat)
    requires B.Valid() && w < |s.workers|
  {
    && s.workers[w].phase == Ready
    && s' == if s.next >= B.Stripes() then SetPhase(s, w, Exited).(next := s.next + 1)
             else if s.failed then SetPhase(s, w, Exited).(next := s.next + 1, claimedBy := s.claimedBy + [w])
             else SetPhase(s, w, Claimed(s.next)).(next := s.next + 1, claimedBy := s.claimedBy + [w])
  }

  /** A short stripe gets its own scratch, and only then gives the full-length one back. */
  ghost predicate Reallocate<F(!new)>(B: Band<F>, s: State<F>, s': State<F>, w: nat)
    requires B.Valid() && w < |s.workers|
  {
    var k := s.workers[w];
    && k.phase.Claimed? && k.phase.stripe < B.Stripes()
    && k.held != [B.Len(k.phase.stripe)]
    && var held := if k.held == [B.full] then [B.full, B.Len(k.phase.stripe)] else [B.Len(k.phase.stripe)];
       s' == s.(workers := s.workers[w := k.(held := held)])
  }

  ghost predicate Start<F(!new)>(B: Band<F>, s: State<F>, s': State<F>, w: nat)
    requires B.Valid() && w < |s.workers|
  {
    var k := s.workers[w];
    && k.phase.Claimed? && k.phase.stripe < B.Stripes()
    && k.held == [B.Len(k.phase.stripe)]
    && s' == SetPhase(s, w, Loading(k.phase.stripe, []))
  }

  /** Copy one recovery row's stripe out of the shared rows. */
  ghost predicate LoadRow<F(!new)>(B: Band<F>, s: State<F>, s': State<F>, w: nat)
    requires B.Valid() && w < |s.workers| && Shape(s.output, B.rows, B.Width())
  {
    var p := s.workers[w].phase;
    && p.Loading? && p.stripe < B.Stripes() && |p.loaded| < B.rows
    && s' == SetPhase(s, w, p.(loaded := p.loaded + [B.Part(s.output, |p.loaded|, p.stripe)]))
  }

  /** Transform the loaded rows, keep the probe row, and work out the repaired rows. */
  ghost predicate Compute<F(!new)>(B: Band<F>, s: State<F>, s': State<F>, w: nat)
    requires B.Valid() && w < |s.workers| && |s.probe| == B.Width()
  {
    var p := s.workers[w].phase;
    && p.Loading? && p.stripe < B.Stripes() && Shape(p.loaded, B.rows, B.Len(p.stripe))
    && s' == SetPhase(s, w, Writing(p.stripe, B.Results(p.stripe, p.loaded), 0))
             .(probe := Overwrite(s.probe, B.bounds[p.stripe], B.Syndromes(p.stripe, p.loaded)))
  }

  function Overwrite<F>(row: Vector<F>, lo: nat, part: Vector<F>): (u: Vector<F>)
    requires lo + |part| <= |row|
    ensures |u| == |row|
  {
    row[..lo] + part + row[lo + |part|..]
  }

  /** Overwrite one row's stripe with its repaired words. */
  ghost predicate WriteRow<F(!new)>(B: Band<F>, s: State<F>, s': State<F>, w: nat)
    requires B.Valid() && w < |s.workers| && Shape(s.output, B.rows, B.Width()) && |s.written| == B.Stripes()
  {
    var p := s.workers[w].phase;
    && p.Writing? && p.stripe < B.Stripes() && p.next < B.rows && Shape(p.results, B.rows, B.Len(p.stripe))
    && s' == SetPhase(s, w, p.(next := p.next + 1))
             .(output := s.output[p.next := Overwrite(s.output[p.next], B.bounds[p.stripe], p.results[p.next])],
               written := s.written[p.stripe := p.next + 1])
  }

  ghost predicate Finish<F(!new)>(B: Band<F>, s: State<F>, s': State<F>, w: nat)
    requires w < |s.workers|
  {
    var p := s.workers[w].phase;
    p.Writing? && p.next == B.rows && s' == SetPhase(s, w, Ready).(finished := s.finished + [p.stripe])
  }

  /** The transform or the solver reported an error. */
  ghost predicate Fail<F(!new)>(s: State<F>, s': State<F>, w: nat)
    requires w < |s.workers|
  {
    var p := s.workers[w].phase;
    (p.Loading? || p.Writing?) && s' == SetPhase(s, w, Exited).(failed := true)
  }

  /** The rows, the probe row and the counts have the band's sizes. */
  ghost predicate Sized<F(!new)>(B: Band<F>, s: State<F>) {
    B.Valid() && Shape(s.output, B.rows, B.Width()) && |s.probe| == B.Width() && |s.written| == B.Stripes()
  }

  ghost predicate Next<F(!new)>(B: Band<F>, s: State<F>, s': State<F>, w: nat)
    requires Sized(B, s) && w < |s.workers|
  {
    || Claim(B, s, s', w) || Reallocate(B, s, s', w) || Start(B, s, s', w) || LoadRow(B, s, s', w)
    || Compute(B, s, s', w) || WriteRow(B, s, s', w) || Finish(B, s, s', w) || Fail(s, s', w)
  }

  // What every step keeps.

  ghost predicate Inv<F(!new)>(B: Band<F>, s: State<F>) {
    && Sized(B, s)
    && |s.claimedBy| == (if s.next < B.Stripes() then s.next else B.Stripes())
    && (forall t :: 0 <= t < |s.claimedBy| ==> s.claimedBy[t] < |s.workers|)
    && (forall w :: 0 <= w < |s.workers| ==> WorkerInv(B, s, w))
    && (forall t :: 0 <= t < B.Stripes() ==> StripeInv(B, s, t))
    && (forall i, j :: 0 <= i < j < |s.finished| ==> s.finished[i] != s.finished[j])
    && (forall i :: 0 <= i < |s.finished| ==> s.finished[i] < |s.claimedBy|)
  }

  /** A worker is on a stripe it claimed, has loaded only original words of it, and
      holds other than a full-length arena only if it claimed the last stripe. */
  ghost predicate WorkerInv<F(!new)>(B: Band<F>, s: State<F>, w: nat)
    requires B.Valid() && w < |s.workers| && |s.written| == B.Stripes() && |s.claimedBy| <= B.Stripes()
  {
    var p := s.workers[w].phase;
    && (p.Busy() ==> p.stripe < |s.claimedBy| && s.claimedBy[p.stripe] == w && p.stripe !in s.finished &&
                      forall t :: p.stripe < t < |s.claimedBy| ==> s.claimedBy[t] != w)
    && (p.Claimed? || p.Loading? ==> s.written[p.stripe] == 0)
    && (p.Loading? ==> |p.loaded| <= B.rows && forall r :: 0 <= r < |p.loaded| ==>
        p.loaded[r] == B.Part(B.original, r, p.stripe))
    && (p.Writing? ==> p.next == s.written[p.stripe] <= B.rows && Shape(p.results, B.rows, B.Len(p.stripe)) &&
                       forall r :: 0 <= r < B.rows ==> p.results[r] == B.Part(B.Expected(), r, p.stripe))
    && (p.Exited? && !s.failed ==> s.next >= B.Stripes())
    && (s.workers[w].held != [B.full] ==>
          && B.Stripes() > 0 && |s.claimedBy| == B.Stripes() && s.claimedBy[B.Stripes() - 1] == w
          && var last := B.Len(B.Stripes() - 1); s.workers[w].held == [B.full, last] || s.workers[w].held == [last])
  }

  /** A stripe's overwritten rows are repaired and its other rows are original; without
      a failure a claimed stripe is finished or still with the worker that claimed it. */
  ghost predicate StripeInv<F(!new)>(B: Band<F>, s: State<F>, t: nat)
    requires B.Valid() && t < B.Stripes() && Shape(s.output, B.rows, B.Width()) && |s.probe| == B.Width()
    requires |s.written| == B.Stripes() && |s.claimedBy| <= B.Stripes()
    requires forall u :: 0 <= u < |s.claimedBy| ==> s.claimedBy[u] < |s.workers|
  {
    && s.written[t] <= B.rows
    && (t >= |s.claimedBy| ==> s.written[t] == 0)
    && (t in s.finished ==> s.written[t] == B.rows)
    && (forall r :: 0 <= r < B.rows ==>
          B.Part(s.output, r, t) == B.Part(if r < s.written[t] then B.Expected() else B.original, r, t))
    && (t in s.finished || (t < |s.claimedBy| && s.workers[s.claimedBy[t]].phase.Writing? &&
                            s.workers[s.claimedBy[t]].phase.On(t)) ==>
          s.probe[B.bounds[t]..B.bounds[t + 1]] == B.ExpectedProbe()[B.bounds[t]..B.bounds[t + 1]])
    && (t < |s.claimedBy| && !s.failed ==> t in s.finished || s.workers[s.claimedBy[t]].phase.On(t))
  }

  lemma InitInv<F(!new)>(B: Band<F>, s: State<F>)
    requires Init(B, s)
    ensures Inv(B, s)
  {
  }

  /** Loading original words makes the results the repaired words. */
  lemma ResultsExpected<F(!new)>(B: Band<F>, t: nat, loaded: Rows<F>)
    requires B.Valid() && t < B.Stripes() && Shape(loaded, B.rows, B.Len(t))
    requires forall r :: 0 <= r < B.rows ==> loaded[r] == B.Part(B.original, r, t)
    ensures forall r :: 0 <= r < B.rows ==> B.Results(t, loaded)[r] == B.Part(B.Expected(), r, t)
    ensures B.Syndromes(t, loaded) == B.ExpectedProbe()[B.bounds[t]..B.bounds[t + 1]]
  {
    var lo := B.bounds[t];
    forall k | 0 <= k < B.Len(t) ensures Column(loaded, B.Len(t), k) == Column(B.original, B.Width(), lo + k) {
      assert forall r :: 0 <= r < B.rows ==> loaded[r][k] == B.Part(B.original, r, t)[k];
    }
  }

  /** Overwriting stripe t of a row changes that stripe and no other. */
  lemma OverwriteParts<F(!new)>(B: Band<F>, row: Vector<F>, t: nat, part: Vector<F>, u: nat)
    requires B.Valid() && t < B.Stripes() && u < B.Stripes() && |row| == B.Width() && |part| == B.Len(t)
    ensures B.bounds[t] + |part| == B.bounds[t + 1] <= B.Width()
    ensures Overwrite(row, B.bounds[t], part)[B.bounds[u]..B.bounds[u + 1]] ==
            if u == t then part else row[B.bounds[u]..B.bounds[u + 1]]
  {
    assert B.bounds[t + 1] <= B.bounds[|B.bounds| - 1];
    assert B.bounds[u + 1] <= B.bounds[|B.bounds| - 1];
    if u < t { assert B.bounds[u + 1] <= B.bounds[t]; }
    if t < u { assert B.bounds[t + 1] <= B.bounds[u]; }
  }

  lemma ClaimWorker<F(!new)>(B: Band<F>, s: State<F>, s': State<F>, w: nat, v: nat)
    requires Inv(B, s) && w < |s.workers| && Claim(B, s, s', w) && v < |s.workers|
    ensures WorkerInv(B, s', v)
  {
    assert s.next < B.Stripes() ==> StripeInv(B, s, s.next);
    assert WorkerInv(B, s, v);
  }

  lemma ClaimStripe<F(!new)>(B: Band<F>, s: State<F>, s': State<F>, w: nat, t: nat)
    requires Inv(B, s) && w < |s.workers| && Claim(B, s, s', w) && t < B.Stripes()
    ensures |s'.probe| == B.Width() && StripeInv(B, s', t)
  {
    assert StripeInv(B, s, t);
  }

  lemma ClaimKeeps<F(!new)>(B: Band<F>, s: State<F>, s': State<F>, w: nat)
    requires Inv(B, s) && w < |s.workers| && Claim(B, s, s', w)
    ensures Inv(B, s')
  {
    forall v | 0 <= v < |s'.workers| ensures WorkerInv(B, s', v) {
      ClaimWorker(B, s, s', w, v);
    }
    forall t | 0 <= t < B.Stripes() ensures StripeInv(B, s', t) {
      ClaimStripe(B, s, s', w, t);
    }
  }

  lemma ReallocateWorker<F(!new)>(B: Band<F>, s: State<F>, s': State<F>, w: nat, v: nat)
    requires Inv(B, s) && w < |s.workers| && (Reallocate(B, s, s', w) || Start(B, s, s', w)) && v < |s.workers|
    ensures WorkerInv(B, s', v)
  {
    var p := s.workers[w].phase;
    assert WorkerInv(B, s, w);
    assert p.stripe < B.Stripes() - 1 ==> B.Len(p.stripe) == B.full && s.workers[w].held == [B.full];
    assert WorkerInv(B, s, v);
  }

  lemma ReallocateStripe<F(!new)>(B: Band<F>, s: State<F>, s': State<F>, w: nat, t: nat)
    requires Inv(B, s) && w < |s.workers| && (Reallocate(B, s, s', w) || Start(B, s, s', w)) && t < B.Stripes()
    ensures |s'.probe| == B.Width() && StripeInv(B, s', t)
  {
    assert WorkerInv(B, s, w);
    assert StripeInv(B, s, t);
  }

  lemma ReallocateKeeps<F(!new)>(B: Band<F>, s: State<F>, s': State<F>, w: nat)
    requires Inv(B, s) && w < |s.workers| && (Reallocate(B, s, s', w) || Start(B, s, s', w))
    ensures Inv(B, s')
  {
    forall v | 0 <= v < |s'.workers| ensures WorkerInv(B, s', v) {
      ReallocateWorker(B, s, s', w, v);
    }
    forall t | 0 <= t < B.Stripes() ensures StripeInv(B, s', t) {
      ReallocateStripe(B, s, s', w, t);
    }
  }

  lemma LoadRowKeeps<F(!new)>(B: Band<F>, s: State<F>, s': State<F>, w: nat)
    requires Inv(B, s) && w < |s.workers| && LoadRow(B, s, s', w)
    ensures Inv(B, s')
  {
    forall v | 0 <= v < |s'.workers| ensures WorkerInv(B, s', v) {
      assert WorkerInv(B, s, v);
      assert StripeInv(B, s, s.workers[w].phase.stripe);
    }
    forall t | 0 <= t < B.Stripes() ensures StripeInv(B, s', t) {
      assert StripeInv(B, s, t);
    }
  }

  lemma ComputeWorker<F(!new)>(B: Band<F>, s: State<F>, s': State<F>, w: nat, v: nat)
    requires Inv(B, s) && w < |s.workers| && Compute(B, s, s', w) && v < |s.workers|
    ensures WorkerInv(B, s', v)
  {
    assert WorkerInv(B, s, w);
    ResultsExpected(B, s.workers[w].phase.stripe, s.workers[w].phase.loaded);
    assert WorkerInv(B, s, v);
  }

  lemma ComputeStripe<F(!new)>(B: Band<F>, s: State<F>, s': State<F>, w: nat, t: nat)
    requires Inv(B, s) && w < |s.workers| && Compute(B, s, s', w) && t < B.Stripes()
    ensures |s'.probe| == B.Width() && StripeInv(B, s', t)
  {
    var p := s.workers[w].phase;
    assert WorkerInv(B, s, w);
    ResultsExpected(B, p.stripe, p.loaded);
    OverwriteParts(B, s.probe, p.stripe, B.Syndromes(p.stripe, p.loaded), t);
    assert StripeInv(B, s, t);
  }

  lemma ComputeKeeps<F(!new)>(B: Band<F>, s: State<F>, s': State<F>, w: nat)
    requires Inv(B, s) && w < |s.workers| && Compute(B, s, s', w)
    ensures Inv(B, s')
  {
    var p := s.workers[w].phase;
    OverwriteParts(B, s.probe, p.stripe, B.Syndromes(p.stripe, p.loaded), 0);
    forall v | 0 <= v < |s'.workers| ensures WorkerInv(B, s', v) {
      ComputeWorker(B, s, s', w, v);
    }
    forall t | 0 <= t < B.Stripes() ensures StripeInv(B, s', t) {
      ComputeStripe(B, s, s', w, t);
    }
  }

  lemma WriteRowKeeps<F(!new)>(B: Band<F>, s: State<F>, s': State<F>, w: nat)
    requires Inv(B, s) && w < |s.workers| && WriteRow(B, s, s', w)
    ensures Inv(B, s')
  {
    var p := s.workers[w].phase;
    assert WorkerInv(B, s, w);
    forall v | 0 <= v < |s'.workers| ensures WorkerInv(B, s', v) {
      assert WorkerInv(B, s, v);
      assert v != w ==> !s.workers[v].phase.On(p.stripe);
    }
    forall t | 0 <= t < B.Stripes() ensures StripeInv(B, s', t) {
      WriteRowStripe(B, s, s', w, t);
    }
  }

  /** Row r of stripe t after the write. */
  lemma WriteRowPart<F(!new)>(B: Band<F>, s: State<F>, s': State<F>, w: nat, t: nat, r: nat)
    requires Inv(B, s) && w < |s.workers| && WriteRow(B, s, s', w) && t < B.Stripes() && r < B.rows &&
             Shape(s'.output, B.rows, B.Width())
    ensures B.Part(s'.output, r, t) == B.Part(if r < s'.written[t] then B.Expected() else B.original, r, t)
  {
    var p := s.workers[w].phase;
    assert WorkerInv(B, s, w) && StripeInv(B, s, t);
    OverwriteParts(B, s.output[p.next], p.stripe, p.results[p.next], t);
    if r == p.next && t == p.stripe {
      assert B.Part(s'.output, r, t) == p.results[r] == B.Part(B.Expected(), r, t);
      assert r < s'.written[t];
    } else {
      assert B.Part(s'.output, r, t) == B.Part(s.output, r, t);
      assert r < s'.written[t] <==> r < s.written[t];
    }
  }

  lemma WriteRowStripe<F(!new)>(B: Band<F>, s: State<F>, s': State<F>, w: nat, t: nat)
    requires Inv(B, s) && w < |s.workers| && WriteRow(B, s, s', w) && t < B.Stripes()
    ensures Shape(s'.output, B.rows, B.Width()) && StripeInv(B, s', t)
  {
    var p := s.workers[w].phase;
    assert WorkerInv(B, s, w) && StripeInv(B, s, t);
    OverwriteParts(B, s.output[p.next], p.stripe, p.results[p.next], t);
    forall r | 0 <= r < B.rows
      ensures B.Part(s'.output, r, t) == B.Part(if r < s'.written[t] then B.Expected() else B.original, r, t)
    {
      WriteRowPart(B, s, s', w, t, r);
    }
  }

  lemma FinishKeeps<F(!new)>(B: Band<F>, s: State<F>, s': State<F>, w: nat)
    requires Inv(B, s) && w < |s.workers| && Finish(B, s, s', w)
    ensures Inv(B, s')
  {
    assert WorkerInv(B, s, w);
    forall v | 0 <= v < |s'.workers| ensures WorkerInv(B, s', v) {
      assert WorkerInv(B, s, v);
    }
    forall t | 0 <= t < B.Stripes() ensures StripeInv(B, s', t) {
      assert StripeInv(B, s, t);
    }
  }

  lemma FailKeeps<F(!new)>(B: Band<F>, s: State<F>, s': State<F>, w: nat)
    requires Inv(B, s) && w < |s.workers| && Fail(s, s', w)
    ensures Inv(B, s')
  {
    forall v | 0 <= v < |s'.workers| ensures WorkerInv(B, s', v) {
      assert WorkerInv(B, s, v);
    }
    forall t | 0 <= t < B.Stripes() ensures StripeInv(B, s', t) {
      assert StripeInv(B, s, t);
    }
  }

  lemma NextInv<F(!new)>(B: Band<F>, s: State<F>, s': State<F>, w: nat)
    requires Inv(B, s) && w < |s.workers| && Next(B, s, s', w)
    ensures Inv(B, s')
  {
    if Claim(B, s, s', w) { ClaimKeeps(B, s, s', w); }
    else if Reallocate(B, s, s', w) || Start(B, s, s', w) { ReallocateKeeps(B, s, s', w); }
    else if LoadRow(B, s, s', w) { LoadRowKeeps(B, s, s', w); }
    else if Compute(B, s, s', w) { ComputeKeeps(B, s, s', w); }
    else if WriteRow(B, s, s', w) { WriteRowKeeps(B, s, s', w); }
    else if Finish(B, s, s', w) { FinishKeeps(B, s, s', w); }
    else { FailKeeps(B, s, s', w); }
  }

  ghost predicate Over<F>(s: State<F>) {
    forall w :: 0 <= w < |s.workers| ==> s.workers[w].phase == Exited
  }

  /** While a worker is left, some worker can take a step. */
  lemma NotStuck<F(!new)>(B: Band<F>, s: State<F>) returns (w: nat, s': State<F>)
    requires Inv(B, s) && !Over(s)
    ensures w < |s.workers| && Next(B, s, s', w)
  {
    w :| 0 <= w < |s.workers| && s.workers[w].phase != Exited;
    assert WorkerInv(B, s, w);
    s' := StepOf(B, s, w);
  }

  ghost function StepOf<F(!new)>(B: Band<F>, s: State<F>, w: nat): (s': State<F>)
    requires Sized(B, s) && w < |s.workers| && |s.claimedBy| <= B.Stripes() && WorkerInv(B, s, w) &&
             s.workers[w].phase != Exited
    ensures Next(B, s, s', w)
  {
    var k := s.workers[w];
    match k.phase
    case Ready =>
      if s.next >= B.Stripes() then SetPhase(s, w, Exited).(next := s.next + 1)
      else if s.failed then SetPhase(s, w, Exited).(next := s.next + 1, claimedBy := s.claimedBy + [w])
      else SetPhase(s, w, Claimed(s.next)).(next := s.next + 1, claimedBy := s.claimedBy + [w])
    case Claimed(t) =>
      if k.held == [B.Len(t)] then SetPhase(s, w, Loading(t, []))
      else s.(workers := s.workers[w := k.(held := if k.held == [B.full] then [B.full, B.Len(t)] else [B.Len(t)])])
    case Loading(t, loaded) =>
      if |loaded| < B.rows then SetPhase(s, w, Loading(t, loaded + [B.Part(s.output, |loaded|, t)]))
      else LoadedWhole(B, t, loaded);
           SetPhase(s, w, Writing(t, B.Results(t, loaded), 0)).(probe := Overwrite(s.probe, B.bounds[t],
                 B.Syndromes(t, loaded)))
    case Writing(t, results, next) =>
      if next < B.rows then
        SetPhase(s, w, Writing(t, results, next + 1))
        .(output := s.output[next := Overwrite(s.output[next], B.bounds[t], results[next])],
          written := s.written[t := next + 1])
      else SetPhase(s, w, Ready).(finished := s.finished + [t])
    case Exited => s
  }

  lemma LoadedWhole<F(!new)>(B: Band<F>, t: nat, loaded: Rows<F>)
    requires B.Valid() && t < B.Stripes() && |loaded| == B.rows
    requires forall r :: 0 <= r < |loaded| ==> loaded[r] == B.Part(B.original, r, t)
    ensures Shape(loaded, B.rows, B.Len(t)) && B.bounds[t] + B.Len(t) == B.bounds[t + 1] <= B.Width()
  {
  }

  // Whole runs.

  /** states[0] is initial and each state follows from the one before by a step of some worker. */
  ghost predicate Run<F(!new)>(B: Band<F>, states: seq<State<F>>) {
    && |states| > 0 && Init(B, states[0])
    && forall i :: 0 < i < |states| ==> Follows(B, states[i - 1], states[i])
  }

  ghost predicate Follows<F(!new)>(B: Band<F>, s: State<F>, s': State<F>) {
    Sized(B, s) && exists w :: 0 <= w < |s.workers| && Next(B, s, s', w)
  }

  lemma {:induction false} RunInv<F(!new)>(B: Band<F>, states: seq<State<F>>, i: nat)
    requires Run(B, states) && i < |states|
    ensures Inv(B, states[i]) && |states[i].workers| == |states[0].workers|
  {
    if i == 0 {
      InitInv(B, states[0]);
    } else {
      RunInv(B, states, i - 1);
      assert Follows(B, states[i - 1], states[i]);
      var w :| 0 <= w < |states[i - 1].workers| && Next(B, states[i - 1], states[i], w);
      NextInv(B, states[i - 1], states[i], w);
    }
  }

  /** However the workers interleave, a run that ends without a failure has processed every
      stripe exactly once and left the repaired rows and the probe row, whole. */
  lemma RunRepairs<F(!new)>(B: Band<F>, states: seq<State<F>>, last: State<F>)
    requires Run(B, states) && last == states[|states| - 1] && Over(last) && !last.failed && |last.workers| > 0
    ensures last.output == B.Expected() && last.probe == B.ExpectedProbe()
    ensures forall t: nat :: multiset(last.finished)[t] == if t < B.Stripes() then 1 else 0
  {
    RunInv(B, states, |states| - 1);
    assert WorkerInv(B, last, 0);
    forall t: nat | t < B.Stripes() ensures t in last.finished {
      assert StripeInv(B, last, t);
    }
    PartsMakeRows(B, last);
    forall t: nat ensures multiset(last.finished)[t] == if t < B.Stripes() then 1 else 0 {
      OccursOnce(last.finished, t);
    }
  }

  lemma PartsMakeRows<F(!new)>(B: Band<F>, s: State<F>)
    requires Inv(B, s) && forall t: nat :: t < B.Stripes() ==> t in s.finished
    ensures s.output == B.Expected() && s.probe == B.ExpectedProbe()
  {
    forall j | 0 <= j < B.Width() ensures s.probe[j] == B.ExpectedProbe()[j] {
      var t := FindStripe(B, j);
      assert StripeInv(B, s, t);
      var k := j - B.bounds[t];
      assert s.probe[B.bounds[t]..B.bounds[t + 1]][k] == B.ExpectedProbe()[B.bounds[t]..B.bounds[t + 1]][k];
    }
    forall r | 0 <= r < B.rows ensures s.output[r] == B.Expected()[r] {
      forall j | 0 <= j < B.Width() ensures s.output[r][j] == B.Expected()[r][j] {
        var t := FindStripe(B, j);
        assert StripeInv(B, s, t);
        assert B.Part(s.output, r, t)[j - B.bounds[t]] == B.Part(B.Expected(), r, t)[j - B.bounds[t]];
      }
    }
  }

  /** The stripe position j lies in. */
  lemma FindStripe<F(!new)>(B: Band<F>, j: nat) returns (t: nat)
    requires B.Valid() && j < B.Width()
    ensures t < B.Stripes() && B.bounds[t] <= j < B.bounds[t + 1]
  {
    t := 0;
    while B.bounds[t + 1] <= j
      invariant t < B.Stripes() && B.bounds[t] <= j
      decreases B.Stripes() - t
    {
      t := t + 1;
    }
  }

  lemma {:induction false} OccursOnce(s: seq<nat>, t: nat)
    requires forall i, j :: 0 <= i < j < |s| ==> s[i] != s[j]
    ensures multiset(s)[t] == if t in s then 1 else 0
    decreases |s|
  {
    if s != [] {
      OccursOnce(s[1..], t);
      assert s == [s[0]] + s[1..];
    }
  }

  // Memory.

  function ArenaBytes<F(!new)>(B: Band<F>, held: seq<nat>): nat {
    if held == [] then 0 else B.scratch(held[0]) + ArenaBytes(B, held[1..])
  }

  /** What the first n workers have allocated. */
  function LiveBytes<F(!new)>(B: Band<F>, s: State<F>, n: nat): nat
    requires n <= |s.workers|
  {
    if n == 0 then 0 else LiveBytes(B, s, n - 1) + B.fixedBytes + ArenaBytes(B, s.workers[n - 1].held)
  }

  function PerWorker<F(!new)>(B: Band<F>): nat {
    B.fixedBytes + B.scratch(B.full)
  }

  /** The spare arena the contract sets aside, once the worker that claimed the last stripe is among the first n. */
  ghost function Spare<F(!new)>(B: Band<F>, s: State<F>, n: nat): nat
    requires B.Valid()
  {
    if 0 < B.Stripes() == |s.claimedBy| && s.claimedBy[B.Stripes() - 1] < n then B.scratch(B.full) else 0
  }

  lemma HeldBound<F(!new)>(B: Band<F>, s: State<F>, w: nat)
    requires Inv(B, s) && w < |s.workers|
    ensures ArenaBytes(B, s.workers[w].held) + Spare(B, s, w) <= B.scratch(B.full) + Spare(B, s, w + 1)
  {
    assert WorkerInv(B, s, w);
    var held := s.workers[w].held;
    if held == [B.full] {
      assert held[1..] == [];
    } else if |held| == 1 {
      assert held[1..] == [];
    } else {
      assert held == [B.full, B.Len(B.Stripes() - 1)];
      assert B.scratch(B.Len(B.Stripes() - 1)) <= B.scratch(B.full);
      assert held[1..] == [held[1]] && held[1..][1..] == [];
      assert ArenaBytes(B, held[1..]) == B.scratch(held[1]);
    }
  }

  lemma OneMore(n: nat, p: nat)
    requires n > 0
    ensures n * p == (n - 1) * p + p
  {
  }

  lemma {:induction false} LiveBound<F(!new)>(B: Band<F>, s: State<F>, n: nat)
    requires Inv(B, s) && n <= |s.workers|
    ensures LiveBytes(B, s, n) <= n * PerWorker(B) + Spare(B, s, n)
  {
    if n > 0 {
      LiveBound(B, s, n - 1);
      HeldBound(B, s, n - 1);
      OneMore(n, PerWorker(B));
    }
  }

  /** In every reachable state the workers together hold no more than one per-worker
      allocation each and one to spare. */
  lemma RunWithinContract<F(!new)>(B: Band<F>, states: seq<State<F>>, i: nat)
    requires Run(B, states) && i < |states|
    ensures LiveBytes(B, states[i], |states[i].workers|) <= |states[0].workers| * PerWorker(B) + PerWorker(B)
  {
    RunInv(B, states, i);
    LiveBound(B, states[i], |states[i].workers|);
  }
}
