/** The transform arm against the dense path: syndromes, then the solve, word by word. */
module TransformArm {
  import opened Fields
  import opened Linear
  import opened Elimination
  import opened Inversion
  import opened Vandermonde
  import opened Repair
  import opened Stripes

  /** Where each selected exponent's row sits in the covering range that starts at `lowest`. */
  function Positions(exponents: seq<nat>, lowest: nat): (p: seq<nat>)
    requires forall i :: 0 <= i < |exponents| ==> lowest <= exponents[i]
    ensures |p| == |exponents| && forall i :: 0 <= i < |p| ==> p[i] == exponents[i] - lowest
  {
    seq(|exponents|, i requires 0 <= i < |exponents| && lowest <= exponents[i] => exponents[i] - lowest)
  }

  /** The recovery words copied to their rows of a zeroed range, in order. */
  ghost function Placed<F(!new)>(K: Field<F>, r: Vector<F>, positions: seq<nat>, rangeLen: nat,
                                 n: nat): (buf: Vector<F>)
    requires n <= |positions| == |r| && forall i :: 0 <= i < |positions| ==> positions[i] < rangeLen
    ensures |buf| == rangeLen
  {
    if n == 0 then Zeros(K, rangeLen) else Placed(K, r, positions, rangeLen, n - 1)[positions[n - 1] := r[n - 1]]
  }

  /** The transform's contract: row q of the range gains the sum of source_i * c_i^(lowest + q). */
  ghost function Transformed<F(!new)>(K: Field<F>, buf: Vector<F>, sources: Vector<F>, constants: seq<F>,
                                      lowest: nat): (out: Vector<F>)
    requires |sources| == |constants|
    ensures |out| == |buf|
    ensures forall q :: 0 <= q < |buf| ==>
              out[q] == Add(K, buf[q], Dot(K, Powers(K, constants, lowest + q), sources, |constants|))
  {
    seq(|buf|, q requires 0 <= q < |buf| => Add(K, buf[q],
                                                Dot(K, Powers(K, constants, lowest + q), sources, |constants|)))
  }

  ghost function Powers<F(!new)>(K: Field<F>, constants: seq<F>, e: nat): (p: Vector<F>)
    ensures |p| == |constants| && forall i :: 0 <= i < |p| ==> p[i] == Pow(K, constants[i], e)
  {
    seq(|constants|, i requires 0 <= i < |constants| => Pow(K, constants[i], e))
  }

  /** What repairs one set: which slices, which exponents, and the matrix block A^-1. */
  datatype Plan<F(!new)> = Plan(constants: seq<F>, available: seq<nat>, missing: seq<nat>, exponents: seq<nat>,
                          lowest: nat, rangeLen: nat, repair: Rows<F>) {
    /** The exponents are distinct and the range covers them. */
    ghost predicate Selects() {
      && |exponents| == |missing| && Within(available, |constants|) && Within(missing, |constants|)
      && (forall i :: 0 <= i < |exponents| ==> lowest <= exponents[i] < lowest + rangeLen)
      && (forall i, j :: 0 <= i < j < |exponents| ==> exponents[i] != exponents[j])
    }

    ghost predicate Valid(K: Field<F>) {
      && K.Lawful() && Selects()
      && IsRepairMatrix(K, repair, constants, available, missing, exponents)
    }
  }

  lemma {:induction false} PlacedAt<F(!new)>(K: Field<F>, r: Vector<F>, positions: seq<nat>, rangeLen: nat, n: nat,
                                             i: nat)
    requires n <= |positions| == |r| && i < n
    requires forall k :: 0 <= k < |positions| ==> positions[k] < rangeLen
    requires forall k, l :: 0 <= k < l < |positions| ==> positions[k] != positions[l]
    ensures Placed(K, r, positions, rangeLen, n)[positions[i]] == r[i]
  {
    if i < n - 1 { PlacedAt(K, r, positions, rangeLen, n - 1, i); }
  }

  /** The words the solve reads: each selected exponent's row after the transform. */
  ghost function Syndromes<F(!new)>(K: Field<F>, P: Plan<F>, present: Vector<F>, r: Vector<F>): (s: Vector<F>)
    requires P.Selects() && |present| == |P.available| && |r| == |P.exponents|
    ensures |s| == |P.exponents|
  {
    var positions := Positions(P.exponents, P.lowest);
    var out := Transformed(K, Placed(K, r, positions, P.rangeLen, |r|), present, Pick(P.constants, P.available),
                           P.lowest);
    seq(|r|, i requires 0 <= i < |r| => out[positions[i]])
  }

  lemma PowersAre<F(!new)>(K: Field<F>, P: Plan<F>, i: nat, e: nat)
    requires P.Selects() && i < |P.exponents| && e == P.exponents[i]
    ensures Powers(K, Pick(P.constants, P.available), e) == PowerRows(K, P.constants, P.available, P.exponents)[i]
  {
  }

  /** A syndrome is the recovery word with the present slices' share removed. */
  lemma SyndromeIs<F(!new)>(K: Field<F>, P: Plan<F>, present: Vector<F>, r: Vector<F>, i: nat)
    requires P.Selects() && |present| == |P.available| && |r| == |P.exponents| && i < |r|
    ensures Syndromes(K, P, present, r)[i] ==
            Add(K, r[i], Dot(K, PowerRows(K, P.constants, P.available, P.exponents)[i], present, |P.available|))
  {
    var positions := Positions(P.exponents, P.lowest);
    var c, q := Pick(P.constants, P.available), positions[i];
    var buf := Placed(K, r, positions, P.rangeLen, |r|);
    PlacedAt(K, r, positions, P.rangeLen, |r|, i);
    assert Syndromes(K, P, present, r)[i] == Transformed(K, buf, present, c, P.lowest)[q];
    PowersAre(K, P, i, P.lowest + q);
    TransformedAt(K, buf, present, c, P.lowest, q, PowerRows(K, P.constants, P.available, P.exponents)[i],
                  |P.available|);
  }

  lemma TransformedAt<F(!new)>(K: Field<F>, buf: Vector<F>, sources: Vector<F>, constants: seq<F>, lowest: nat, q: nat,
                               row: Vector<F>, n: nat)
    requires |sources| == |constants| == n && q < |buf| && row == Powers(K, constants, lowest + q)
    ensures Transformed(K, buf, sources, constants, lowest)[q] == Add(K, buf[q], Dot(K, row, sources, n))
  {
  }

  /** [P | I] applied to present and recovery words is the syndromes. */
  lemma SyndromesAreProduct<F(!new)>(K: Field<F>, P: Plan<F>, present: Vector<F>, r: Vector<F>)
    requires K.Lawful() && P.Selects() && |present| == |P.available| && |r| == |P.exponents|
    ensures Apply(K, Augment(PowerRows(K, P.constants, P.available, P.exponents), Identity(K, |P.missing|)),
                  |P.available| + |P.missing|, present + r) == Syndromes(K, P, present, r)
  {
    var V := PowerRows(K, P.constants, P.available, P.exponents);
    var a, n := |P.available|, |P.missing|;
    forall i | 0 <= i < n
      ensures Dot(K, Augment(V, Identity(K, n))[i], present + r, a + n) == Syndromes(K, P, present, r)[i]
    {
      SyndromeIs(K, P, present, r, i);
      DotWithUnit(K, V[i], present, r, a, n, i);
      AddComm(K, r[i], Dot(K, V[i], present, a));
    }
  }

  /** What the arm writes at one position with the explicit inverse. */
  ghost function ArmRepair<F(!new)>(K: Field<F>, P: Plan<F>, present: Vector<F>, r: Vector<F>): (x: Vector<F>)
    requires P.Valid(K) && |present| == |P.available| && |r| == |P.exponents|
    ensures |x| == |P.missing|
  {
    Apply(K, Right(P.repair, |P.available|, |P.missing|), |P.missing|, Syndromes(K, P, present, r))
  }

  /** Syndromes then solve gives exactly the dense product. */
  lemma ArmIsDense<F(!new)>(K: Field<F>, P: Plan<F>, present: Vector<F>, r: Vector<F>)
    requires P.Valid(K) && |present| == |P.available| && |r| == |P.exponents|
    ensures ArmRepair(K, P, present, r) == Apply(K, P.repair, |P.available| + |P.missing|, present + r)
  {
    var n, w := |P.missing|, |P.available| + |P.missing|;
    var S, D := PowerRows(K, P.constants, P.missing, P.exponents), Right(P.repair, |P.available|, |P.missing|);
    var R := Augment(PowerRows(K, P.constants, P.available, P.exponents), Identity(K, |P.missing|));
    assert SolvesAt(K, S, P.repair, R, n, w, present + r);
    assert Undone(K, S, D, n, Apply(K, P.repair, w, present + r));
    SyndromesAreProduct(K, P, present, r);
  }

  // A band whose workers run the exact transform and the explicit inverse.

  /** Band B works on positions of the set `data`, whose recovery rows it starts from. */
  ghost predicate Exact<F(!new)>(K: Field<F>, P: Plan<F>, B: Band<F>, staging: Rows<F>)
    requires P.Valid(K)
  {
    && B.Valid() && B.rows == |P.missing| && Shape(staging, |P.available|, B.Width())
    && forall j, r: Vector<F> {:trigger B.repair(j, r)} :: 0 <= j < B.Width() && |r| == B.rows ==>
         B.repair(j, r) == ArmRepair(K, P, Column(staging, B.Width(), j), r)
  }

  /** The whole band against the dense product [A^-1 P | A^-1] * [present; R]. */
  lemma BandIsDense<F(!new)>(K: Field<F>, P: Plan<F>, B: Band<F>, staging: Rows<F>, states: seq<State<F>>,
                             last: State<F>)
    requires P.Valid(K) && Exact(K, P, B, staging)
    requires Run(B, states) && last == states[|states| - 1] && Over(last) && !last.failed && |last.workers| > 0
    ensures Shape(last.output, |P.missing|, B.Width())
    ensures forall j :: 0 <= j < B.Width() ==>
              Column(last.output, B.Width(), j) ==
              Apply(K, P.repair, |P.available| + |P.missing|,
                    Column(staging, B.Width(), j) + Column(B.original, B.Width(), j))
  {
    RunRepairs(B, states, last);
    forall j | 0 <= j < B.Width()
      ensures Column(last.output, B.Width(), j) ==
              Apply(K, P.repair, |P.available| + |P.missing|,
                    Column(staging, B.Width(), j) + Column(B.original, B.Width(), j))
    {
      var present, r := Column(staging, B.Width(), j), Column(B.original, B.Width(), j);
      ArmIsDense(K, P, present, r);
      assert Column(last.output, B.Width(), j) == B.repair(j, r);
    }
  }

  /** Started from true recovery words, the band ends holding the missing slices. */
  lemma BandRestores<F(!new)>(K: Field<F>, P: Plan<F>, B: Band<F>, staging: Rows<F>, states: seq<State<F>>,
                              last: State<F>,
                              j: nat, data: seq<F>)
    requires P.Valid(K) && Exact(K, P, B, staging) && Partition(P.available, P.missing, |P.constants|)
    requires Run(B, states) && last == states[|states| - 1] && Over(last) && !last.failed && |last.workers| > 0
    requires j < B.Width() && |data| == |P.constants| && Column(staging, B.Width(), j) == Pick(data, P.available)
    requires Column(B.original, B.Width(), j) == RecoveryWords(K, P.constants, data, P.exponents)
    ensures Shape(last.output, |P.missing|, B.Width()) && Column(last.output, B.Width(), j) == Pick(data, P.missing)
  {
    BandIsDense(K, P, B, staging, states, last);
    assert RepairInput(K, P.constants, data, P.available, P.exponents) ==
           Column(staging, B.Width(), j) + Column(B.original, B.Width(), j);
  }
}
