/** The repair matrix, end to end. */
module Repair {
  import opened Fields
  import opened Linear
  import opened Elimination
  import opened Inversion
  import opened Matrices
  import opened Vandermonde
  import opened Polynomials

  datatype BuildOutcome = Built | CountMismatch | DependentRow(badRow: nat)

  method ExtractColumns<F(!new,==)>(K: Field<F>, m: Matrix<F>, start: nat, len: nat) returns (part: Matrix<F>)
    requires start + len == m.data.Length1
    ensures fresh(part) && fresh(part.data) && part.Is(m.data.Length0, len)
    ensures part.Value() == Right(m.Value(), start, len)
  {
    part := new Matrix<F>.Filled(m.data.Length0, len, K.zero);
    for r := 0 to m.data.Length0
      invariant forall i, c :: 0 <= i < r && 0 <= c < len ==> part.data[i, c] == m.data[i, start + c]
    {
      for k := 0 to len
        invariant forall i, c :: 0 <= i < r && 0 <= c < len ==> part.data[i, c] == m.data[i, start + c]
        invariant forall c :: 0 <= c < k ==> part.data[r, c] == m.data[r, start + c]
      {
        part.data[r, k] := m.data[r, start + k];
      }
    }
    assert forall r :: 0 <= r < m.data.Length0 ==> part.Value()[r] == Right(m.Value(), start, len)[r];
  }

  /** S N == R: the rows N undo S on R's columns, so N is S^-1 R. */
  ghost predicate SolvesFor<F(!new)>(K: Field<F>, S: Rows<F>, N: Rows<F>, R: Rows<F>, n: nat, w: nat)
    requires Shape(S, n, n) && Shape(N, n, w) && Shape(R, n, w)
  {
    forall y: Vector<F> {:trigger SolvesAt(K, S, N, R, n, w, y)} | |y| == w :: SolvesAt(K, S, N, R, n, w, y)
  }

  ghost predicate SolvesAt<F(!new)>(K: Field<F>, S: Rows<F>, N: Rows<F>, R: Rows<F>, n: nat, w: nat, y: Vector<F>)
    requires Shape(S, n, n) && Shape(N, n, w) && Shape(R, n, w) && |y| == w
  {
    Apply(K, S, n, Apply(K, N, w, y)) == Apply(K, R, w, y)
  }

  lemma SolvedSolvesFor<F(!new)>(K: Field<F>, S: Rows<F>, R: Rows<F>, B: Rows<F>, n: nat, w: nat)
    requires K.Lawful() && Shape(S, n, n) && Shape(R, n, w) && Solved(K, Augment(S, R), B, n + w)
    ensures SolvesFor(K, S, Right(B, n, w), R, n, w)
  {
    forall y: Vector<F> | |y| == w ensures SolvesAt(K, S, Right(B, n, w), R, n, w, y) {
      SolvedReads(K, S, R, B, n, w, Apply(K, Right(B, n, w), w, y), y);
    }
  }

  /** `repair` is [A^-1 P | A^-1]: it gives back the missing slices, solves A X == [P | I],
      and ends in the inverse of the missing block A. */
  ghost predicate IsRepairMatrix<F(!new)>(K: Field<F>, repair: Rows<F>, constants: seq<F>, available: seq<nat>,
                                          missing: seq<nat>, exponents: seq<nat>)
    requires |exponents| == |missing| && Within(available, |constants|) && Within(missing, |constants|)
  {
    && Shape(repair, |missing|, |available| + |missing|)
    && Repairs(K, repair, constants, available, missing, exponents)
    && SolvesFor(K, PowerRows(K, constants, missing, exponents), repair,
                 Augment(PowerRows(K, constants, available, exponents), Identity(K, |missing|)), |missing|,
                   |available| + |missing|)
    && Inverse(K, PowerRows(K, constants, missing, exponents), Right(repair, |available|, |missing|), |missing|)
  }

  lemma ReducedRepairs<F(!new)>(K: Field<F>, B: Rows<F>, constants: seq<F>, available: seq<nat>, missing: seq<nat>,
                                exponents: seq<nat>)
    requires K.Lawful() && |exponents| == |missing| && Within(available, |constants|) && Within(missing, |constants|)
    requires Solved(K, Augment(PowerRows(K, constants, missing, exponents),
                               Augment(PowerRows(K, constants, available, exponents), Identity(K, |missing|))),
                    B, |missing| + (|available| + |missing|))
    ensures IsRepairMatrix(K, Right(B, |missing|, |available| + |missing|), constants, available, missing, exponents)
  {
    SolvedRepairs(K, B, constants, available, missing, exponents);
    SolvedSolvesFor(K, PowerRows(K, constants, missing, exponents),
                    Augment(PowerRows(K, constants, available, exponents), Identity(K, |missing|)), B, |missing|,
                      |available| + |missing|);
    SolvedDecodes(K, PowerRows(K, constants, missing, exponents), PowerRows(K, constants, available, exponents),
                  B, |missing|, |available|);
  }

  lemma ReducedRepairsFor<F(!new)>(K: Field<F>, A: Rows<F>, L: Rows<F>, N: Rows<F>, w: nat, constants: seq<F>,
                                   available: seq<nat>, missing: seq<nat>, exponents: seq<nat>)
    requires K.Lawful() && |exponents| == |missing| && Within(available, |constants|) && Within(missing, |constants|)
    requires A == Augment(PowerRows(K, constants, missing, exponents),
                          Augment(PowerRows(K, constants, available, exponents), Identity(K, |missing|)))
    requires Shape(L, |missing|, |missing|) && Shape(N, |missing|, |available| + |missing|)
    requires w == |missing| + (|available| + |missing|) && Shape(A, |A|, w) && Solved(K, A, Augment(L, N), w)
    ensures IsRepairMatrix(K, N, constants, available, missing, exponents)
  {
    ReducedRepairs(K, Augment(L, N), constants, available, missing, exponents);
    RightOfAugment(L, N, |missing|, |available| + |missing|);
  }

  method ReduceSystem<F(!new,==)>(K: Field<F>, sub: Matrix<F>, rhs: Matrix<F>, group: nat, orders: seq<seq<nat>>,
                                  ghost n: nat, ghost w: nat)
    returns (out: BuildOutcome)
    requires K.Lawful() && sub.Is(n, n) && rhs.Is(n, w) && sub.data != rhs.data && group > 0 && |orders| == n
    requires forall c :: 0 <= c < n ==> Schedule(orders[c], BatchCount(n, group))
    modifies sub.data, rhs.data
    ensures out != CountMismatch
    ensures forall k: nat :: out == DependentRow(k) <==> FirstDependent(K, old(sub.Value()), n, k)
    ensures out == Built ==> Solved(K, old(Augment(sub.Value(), rhs.Value())), Augment(sub.Value(), rhs.Value()), n + w)
  {
    ghost var S, R := sub.Value(), rhs.Value();
    var res := EliminateUnpivoted(K, sub, rhs, group, orders, n, w);
    forall k: nat ensures Unpivoted(K, Augment(S, R), n + w, 0) == Singular(k) <==> FirstDependent(K, S, n, k) {
      UnpivotedFailsAt(K, S, R, n, w, k);
    }
    UnpivotedSolves(K, Augment(S, R), n + w, 0);
    out := if res.NoPivot? then DependentRow(res.badRow) else Built;
  }

  /** Fill and reduce the system of one selection. */
  method SolveSystem<F(!new,==)>(K: Field<F>, available: seq<nat>, missing: seq<nat>, exponents: seq<nat>,
                                 constants: seq<F>, group: nat,
                                 orders: seq<seq<nat>>, sub: Matrix<F>, repair: Matrix<F>, ghost a: nat, ghost n: nat)
    returns (out: BuildOutcome)
    requires K.Lawful() && Within(available, |constants|) && Within(missing, |constants|)
    requires a == |available| && n == |missing| == |exponents| && group > 0 && |orders| == n
    requires forall c :: 0 <= c < n ==> Schedule(orders[c], BatchCount(n, group))
    requires sub.Is(n, n) && repair.Is(n, a + n) && sub.data != repair.data
    requires forall r, c :: 0 <= r < repair.data.Length0 && 0 <= c < repair.data.Length1 ==> repair.data[r, c] == K.zero
    modifies sub.data, repair.data
    ensures out != CountMismatch
    ensures forall k: nat :: out == DependentRow(k) <==>
            FirstDependent(K, PowerRows(K, constants, missing, exponents), n, k)
    ensures out == Built ==> IsRepairMatrix(K, repair.Value(), constants, available, missing, exponents)
  {
    FillVandermondeRows(K, sub, repair, available, missing, exponents, constants);
    ghost var A := Augment(sub.Value(), repair.Value());
    out := ReduceSystem(K, sub, repair, group, orders, n, a + n);
    if out == Built {
      ReducedRepairsFor(K, A, sub.Value(), repair.Value(), n + (a + n), constants, available, missing, exponents);
    }
  }

  /** Build the repair matrix [A^-1 P | A^-1] and its decode block A^-1. */
  method BuildRepairMatrix<F(!new,==)>(K: Field<F>, available: seq<nat>, missing: seq<nat>, exponents: seq<nat>,
                                       constants: seq<F>, group: nat, orders: seq<seq<nat>>)
    returns (out: BuildOutcome, repair: Matrix<F>, decode: Matrix<F>)
    requires K.Lawful() && Within(available, |constants|) && Within(missing, |constants|)
    requires group > 0 && |orders| == |missing|
    requires forall c :: 0 <= c < |orders| ==> Schedule(orders[c], BatchCount(|missing|, group))
    ensures out == CountMismatch <==> |exponents| != |missing|
    ensures |exponents| == |missing| ==> forall k: nat :: out == DependentRow(k) <==>
              FirstDependent(K, PowerRows(K, constants, missing, exponents), |missing|, k)
    ensures out == Built ==>
              && IsRepairMatrix(K, repair.Value(), constants, available, missing, exponents)
              && decode.Value() == Right(repair.Value(), |available|, |missing|)
  {
    var a, n := |available|, |missing|;
    repair := new Matrix<F>.Filled(n, a + n, K.zero);
    decode := new Matrix<F>.Filled(n, n, K.zero);
    if |exponents| != n {
      out := CountMismatch;
      return;
    }
    var sub := new Matrix<F>.Filled(n, n, K.zero);
    out := SolveSystem(K, available, missing, exponents, constants, group, orders, sub, repair, a, n);
    if out == Built {
      decode := ExtractColumns(K, repair, a, n);
    }
  }

  /** A run of consecutive exponents and distinct nonzero constants always builds. */
  lemma RunAlwaysBuilds<F(!new)>(K: Field<F>, constants: seq<F>, missing: seq<nat>, exponents: seq<nat>)
    requires K.Lawful() && Within(missing, |constants|) && |exponents| == |missing| && Consecutive(exponents)
    requires Distinct(Pick(constants, missing)) && K.zero !in Pick(constants, missing)
    ensures forall k: nat :: !FirstDependent(K, PowerRows(K, constants, missing, exponents), |missing|, k)
  {
    forall k: nat | k < |missing|
      ensures !DependsOnAbove(K, PowerRows(K, constants, missing, exponents), |missing|, k) {
      RunIndependent(K, constants, missing, exponents, k);
    }
  }
}
