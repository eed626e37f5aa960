/** The workers of a band always finish: no interleaving goes on for ever, and none gets stuck. */
module Completion {
  import opened Linear
  import opened Stripes

  /** Steps one stripe can take. */
  function StripeSteps<F(!new)>(B: Band<F>): nat { 2 * B.rows + 6 }

  /** Steps a worker can still take on the stripe it has, and one to leave. */
  function WorkLeft<F(!new)>(B: Band<F>, k: Worker<F>): int {
    match k.phase
    case Exited => 0
    case Ready => 1
    case Claimed(t) =>
      2 * B.rows + 4 + (if |k.held| == 2 then 1 else if t + 1 < |B.bounds| && k.held == [B.Len(t)] then 0 else 2)
    case Loading(_, loaded) => 2 * B.rows - |loaded| + 3
    case Writing(_, _, next) => B.rows - next + 2
  }

  function AllWorkLeft<F(!new)>(B: Band<F>, workers: seq<Worker<F>>): int {
    if workers == [] then 0 else AllWorkLeft(B, workers[..|workers| - 1]) + WorkLeft(B, workers[|workers| - 1])
  }

  lemma {:induction false} OneWorker<F(!new)>(B: Band<F>, workers: seq<Worker<F>>, w: nat, k: Worker<F>)
    requires w < |workers|
    ensures AllWorkLeft(B, workers[w := k]) == AllWorkLeft(B, workers) + WorkLeft(B, k) - WorkLeft(B, workers[w])
  {
    var n := |workers| - 1;
    if w < n {
      OneWorker(B, workers[..n], w, k);
      assert workers[w := k][..n] == workers[..n][w := k];
    } else {
      assert workers[w := k][..n] == workers[..n];
    }
  }

  function Unclaimed<F(!new)>(B: Band<F>, s: State<F>): nat
    requires |B.bounds| > 0
  {
    if s.next < B.Stripes() then B.Stripes() - s.next else 0
  }

  /** An upper bound on the steps still to come. */
  function StepsLeft<F(!new)>(B: Band<F>, s: State<F>): int
    requires |B.bounds| > 0
  {
    Unclaimed(B, s) * StripeSteps(B) + AllWorkLeft(B, s.workers)
  }

  lemma {:induction false} WorkNotNegative<F(!new)>(B: Band<F>, s: State<F>, n: nat)
    requires Inv(B, s) && n <= |s.workers|
    ensures AllWorkLeft(B, s.workers[..n]) >= 0
  {
    if n > 0 {
      WorkNotNegative(B, s, n - 1);
      assert WorkerInv(B, s, n - 1);
      assert s.workers[..n][..n - 1] == s.workers[..n - 1];
    }
  }

  lemma StepsNotNegative<F(!new)>(B: Band<F>, s: State<F>)
    requires Inv(B, s)
    ensures StepsLeft(B, s) >= 0
  {
    WorkNotNegative(B, s, |s.workers|);
    assert s.workers[..|s.workers|] == s.workers;
  }

  lemma WorkerBusy<F(!new)>(B: Band<F>, s: State<F>, w: nat)
    requires Inv(B, s) && w < |s.workers|
    ensures WorkLeft(B, s.workers[w]) > 0 || s.workers[w].phase == Exited
  {
    assert WorkerInv(B, s, w);
  }

  /** One worker has changed, and has less to do unless it has claimed a stripe. */
  ghost predicate Shorter<F(!new)>(B: Band<F>, s: State<F>, s': State<F>, w: nat)
    requires |B.bounds| > 0 && w < |s.workers|
  {
    && |s'.workers| == |s.workers| && s'.workers == s.workers[w := s'.workers[w]] && s.next <= s'.next <= s.next + 1
    && WorkLeft(B, s'.workers[w]) < WorkLeft(B, s.workers[w]) + if s.next < s'.next &&
       s.next < B.Stripes() then StripeSteps(B) else 0
  }

  lemma ClaimShortens<F(!new)>(B: Band<F>, s: State<F>, s': State<F>, w: nat)
    requires Sized(B, s) && w < |s.workers| && (Claim(B, s, s', w) || Finish(B, s, s', w))
    ensures Shorter(B, s, s', w)
  {
  }

  lemma LoadShortens<F(!new)>(B: Band<F>, s: State<F>, s': State<F>, w: nat)
    requires Sized(B, s) && w < |s.workers| && (Reallocate(B, s, s', w) || Start(B, s, s', w) || LoadRow(B, s, s', w))
    ensures Shorter(B, s, s', w)
  {
  }

  lemma WriteShortens<F(!new)>(B: Band<F>, s: State<F>, s': State<F>, w: nat)
    requires Sized(B, s) && w < |s.workers| && (Compute(B, s, s', w) || WriteRow(B, s, s', w))
    ensures Shorter(B, s, s', w)
  {
  }

  lemma StepShape<F(!new)>(B: Band<F>, s: State<F>, s': State<F>, w: nat)
    requires Inv(B, s) && w < |s.workers| && Next(B, s, s', w)
    ensures Shorter(B, s, s', w)
  {
    if Claim(B, s, s', w) || Finish(B, s, s', w) { ClaimShortens(B, s, s', w); }
    else if Reallocate(B, s, s', w) || Start(B, s, s', w) || LoadRow(B, s, s', w) { LoadShortens(B, s, s', w); }
    else if Compute(B, s, s', w) || WriteRow(B, s, s', w) { WriteShortens(B, s, s', w); }
    else { WorkerBusy(B, s, w); }
  }

  lemma Product(a: nat, b: nat, c: nat)
    requires a == b + 1
    ensures a * c == b * c + c
  {
  }

  lemma StepShortens<F(!new)>(B: Band<F>, s: State<F>, s': State<F>, w: nat)
    requires Inv(B, s) && w < |s.workers| && Next(B, s, s', w)
    ensures StepsLeft(B, s') < StepsLeft(B, s)
  {
    StepShape(B, s, s', w);
    OneWorker(B, s.workers, w, s'.workers[w]);
    if s'.next == s.next + 1 && s.next < B.Stripes() {
      Product(Unclaimed(B, s), Unclaimed(B, s'), StripeSteps(B));
    }
  }

  lemma {:induction false} AllReady<F(!new)>(B: Band<F>, workers: seq<Worker<F>>)
    requires forall w :: 0 <= w < |workers| ==> workers[w].phase == Ready
    ensures AllWorkLeft(B, workers) == |workers|
  {
    if workers != [] { AllReady(B, workers[..|workers| - 1]); }
  }

  /** However the workers interleave, a run takes no more than so many steps for each stripe and one for each worker. */
  lemma {:induction false} RunBounded<F(!new)>(B: Band<F>, states: seq<State<F>>, i: nat)
    requires Run(B, states) && i < |states|
    ensures i + StepsLeft(B, states[i]) <= B.Stripes() * StripeSteps(B) + |states[0].workers|
    ensures i <= B.Stripes() * StripeSteps(B) + |states[0].workers|
  {
    RunInv(B, states, i);
    StepsNotNegative(B, states[i]);
    if i == 0 {
      AllReady(B, states[0].workers);
    } else {
      RunBounded(B, states, i - 1);
      RunInv(B, states, i - 1);
      assert Follows(B, states[i - 1], states[i]);
      var w :| 0 <= w < |states[i - 1].workers| && Next(B, states[i - 1], states[i], w);
      StepShortens(B, states[i - 1], states[i], w);
    }
  }

  /** Every run, wherever it has got to, can be carried on until all workers have left. */
  lemma {:induction false} RunCompletes<F(!new)>(B: Band<F>, states: seq<State<F>>) returns (all: seq<State<F>>)
    requires Run(B, states)
    ensures Run(B, all) && |all| >= |states| && all[..|states|] == states && Over(all[|all| - 1])
    decreases StepsLeft(B, states[|states| - 1]) + 1
  {
    var last := states[|states| - 1];
    RunInv(B, states, |states| - 1);
    StepsNotNegative(B, last);
    if Over(last) {
      return states;
    }
    var w, next := NotStuck(B, last);
    StepShortens(B, last, next, w);
    assert Follows(B, last, next);
    var longer := states + [next];
    assert Run(B, longer) by {
      forall i | 0 < i < |longer| ensures Follows(B, longer[i - 1], longer[i]) {
        if i < |states| { assert Follows(B, states[i - 1], states[i]); }
      }
    }
    all := RunCompletes(B, longer);
    assert all[..|states|] == all[..|longer|][..|states|] == states;
  }
}
