/** Adding factor times source over many sources, a batch of them at a time. */
module Folds {
  import opened Fields
  import opened Linear

  const SOLVE_BATCH: nat := 16

  /** One more term, left out when its factor is zero. */
  lemma TermTaken<F(!new)>(K: Field<F>, dst: F, out: F, done: F, batch: F, factor: F, source: F)
    requires K.Lawful() && Add(K, out, batch) == Add(K, dst, done)
    ensures Add(K, out, Add(K, batch, Mul(K, factor, source))) == Add(K, dst, Add(K, done, Mul(K, factor, source)))
    ensures factor == K.zero ==> Add(K, out, batch) == Add(K, dst, Add(K, done, Mul(K, factor, source)))
  {
    var t := Mul(K, factor, source);
    AddAssoc(K, dst, done, t);
    AddAssoc(K, out, batch, t);
    MulZero(K, source);
    AddZero(K, Add(K, out, batch));
  }

  /** Add to each word the sum of factor * source, a batch of nonzero factors at a time. */
  method DenseRow<F(!new,==)>(K: Field<F>, dst: seq<F>, factors: seq<F>, sources: Rows<F>) returns (out: seq<F>)
    requires K.Lawful() && |factors| == |sources| && Shape(sources, |sources|, |dst|)
    ensures |out| == |dst|
    ensures forall j :: 0 <= j < |dst| ==>
            out[j] == Add(K, dst[j], Dot(K, factors, Column(sources, |dst|, j), |factors|))
  {
    out := dst;
    var batch: seq<nat> := [];
    forall j | 0 <= j < |dst| ensures Add(K, out[j], BatchSum(K, batch, factors, sources, |dst|, j)) == dst[j] {
      AddZero(K, dst[j]);
    }
    for i := 0 to |factors|
      invariant |out| == |dst| && |batch| < SOLVE_BATCH && forall b :: 0 <= b < |batch| ==> batch[b] < i
      invariant forall j :: 0 <= j < |dst| ==>
                  Add(K, out[j], BatchSum(K, batch, factors, sources, |dst|, j)) ==
                  Add(K, dst[j], Dot(K, factors, Column(sources, |dst|, j), i))
    {
      ghost var before := batch;
      if factors[i] != K.zero {
        batch := batch + [i];
        assert batch[..|batch| - 1] == before;
      }
      forall j | 0 <= j < |dst|
        ensures Add(K, out[j], BatchSum(K, batch, factors, sources, |dst|, j)) ==
                Add(K, dst[j], Dot(K, factors, Column(sources, |dst|, j), i + 1))
      {
        TermTaken(K, dst[j], out[j], Dot(K, factors, Column(sources, |dst|, j), i),
                  BatchSum(K, before, factors, sources, |dst|, j),
                  factors[i], sources[i][j]);
      }
      if |batch| == SOLVE_BATCH {
        out := FlushBatch(K, out, batch, factors, sources);
        batch := [];
        forall j | 0 <= j < |dst| ensures Add(K, out[j], K.zero) == out[j] {
          AddZero(K, out[j]);
        }
      }
    }
    if batch != [] {
      out := FlushBatch(K, out, batch, factors, sources);
    } else {
      forall j | 0 <= j < |dst| ensures Add(K, out[j], K.zero) == out[j] {
        AddZero(K, out[j]);
      }
    }
  }

  /** The sum over the batch of factor * source at position j. */
  ghost function BatchSum<F(!new)>(K: Field<F>, batch: seq<nat>, factors: seq<F>, sources: Rows<F>, width: nat,
                                   j: nat): F
    requires |factors| == |sources| && Shape(sources, |sources|, width) && j < width
    requires forall b :: 0 <= b < |batch| ==> batch[b] < |factors|
  {
    if batch == [] then K.zero
    else
      var i := batch[|batch| - 1];
      Add(K, BatchSum(K, batch[..|batch| - 1], factors, sources, width, j), Mul(K, factors[i], sources[i][j]))
  }

  method FlushBatch<F(!new,==)>(K: Field<F>, dst: seq<F>, batch: seq<nat>, factors: seq<F>, sources: Rows<F>)
    returns (out: seq<F>)
    requires K.Lawful() && |factors| == |sources| && Shape(sources, |sources|, |dst|)
    requires forall b :: 0 <= b < |batch| ==> batch[b] < |factors|
    ensures |out| == |dst|
    ensures forall j :: 0 <= j < |dst| ==> out[j] == Add(K, dst[j], BatchSum(K, batch, factors, sources, |dst|, j))
  {
    out := dst;
    forall j | 0 <= j < |dst| ensures Add(K, dst[j], K.zero) == dst[j] {
      AddZero(K, dst[j]);
    }
    for b := 0 to |batch|
      invariant |out| == |dst|
      invariant forall j :: 0 <= j < |dst| ==>
                out[j] == Add(K, dst[j], BatchSum(K, batch[..b], factors, sources, |dst|, j))
    {
      var i := batch[b];
      var prev := out;
      out := seq(|prev|, j requires 0 <= j < |prev| => Add(K, prev[j], Mul(K, factors[i], sources[i][j])));
      assert batch[..b + 1][..b] == batch[..b];
      forall j | 0 <= j < |dst|
        ensures out[j] == Add(K, dst[j], BatchSum(K, batch[..b + 1], factors, sources, |dst|, j)) {
        AddAssoc(K, dst[j], BatchSum(K, batch[..b], factors, sources, |dst|, j), Mul(K, factors[i], sources[i][j]));
      }
    }
    assert batch[..|batch|] == batch;
  }
}
