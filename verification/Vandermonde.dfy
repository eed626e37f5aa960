/** Building the repair matrix from Vandermonde rows and what it repairs. */
module Vandermonde {
  import opened Fields
  import opened Linear
  import opened Elimination
  import opened Inversion
  import opened Matrices

  /** Rows c^e over the chosen slices: entry (i, j) is the constant of slice indices[j] to the exponents[i]. */
  ghost function PowerRows<F(!new)>(K: Field<F>, constants: seq<F>, indices: seq<nat>,
                                    exponents: seq<nat>): (V: Rows<F>)
    requires forall j :: 0 <= j < |indices| ==> indices[j] < |constants|
    ensures Shape(V, |exponents|, |indices|)
    ensures forall i, j :: 0 <= i < |exponents| && 0 <= j < |indices| ==>
              V[i][j] == Pow(K, constants[indices[j]], exponents[i])
  {
    seq(|exponents|, i requires 0 <= i < |exponents| =>
      seq(|indices|, j requires 0 <= j < |indices| && indices[j] < |constants| =>
          Pow(K, constants[indices[j]], exponents[i])))
  }

  ghost predicate Within(indices: seq<nat>, n: nat) {
    forall j :: 0 <= j < |indices| ==> indices[j] < n
  }

  /** Fill row i of columns 0..|indices| with powers: by one multiplication per entry when
      the exponent continues a run, by powering otherwise. */
  method FillRow<F(!new,==)>(K: Field<F>, m: Matrix<F>, indices: seq<nat>, constants: seq<F>, exponents: seq<nat>,
                             i: nat)
    requires K.Lawful() && Within(indices, |constants|) && i < |exponents|
    requires m.data.Length0 == |exponents| && |indices| <= m.data.Length1
    requires i > 0 ==> forall j :: 0 <= j < |indices| ==>
             m.data[i - 1, j] == Pow(K, constants[indices[j]], exponents[i - 1])
    modifies m.data
    ensures forall j :: 0 <= j < |indices| ==> m.data[i, j] == Pow(K, constants[indices[j]], exponents[i])
    ensures forall r, c :: 0 <= r < m.data.Length0 && 0 <= c < m.data.Length1 && (r != i || c >= |indices|) ==>
              m.data[r, c] == old(m.data[r, c])
  {
    var sequential := i > 0 && exponents[i - 1] + 1 == exponents[i];
    for k := 0 to |indices|
      invariant forall j :: 0 <= j < k ==> m.data[i, j] == Pow(K, constants[indices[j]], exponents[i])
      invariant forall r, c :: 0 <= r < m.data.Length0 && 0 <= c < m.data.Length1 && (r != i || c >= k) ==>
                  m.data[r, c] == old(m.data[r, c])
    {
      var c := constants[indices[k]];
      if sequential {
        MulComm(K, m.data[i - 1, k], c);
        m.data[i, k] := Mul(K, m.data[i - 1, k], c);
      } else {
        m.data[i, k] := Pow(K, c, exponents[i]);
      }
    }
  }

  method FillVandermondeRows<F(!new,==)>(K: Field<F>, sub: Matrix<F>, rep: Matrix<F>,
                                         available: seq<nat>, missing: seq<nat>, exponents: seq<nat>, constants: seq<F>)
    requires K.Lawful() && sub.data != rep.data && Within(available, |constants|) && Within(missing, |constants|)
    requires |exponents| == |missing| && sub.Is(|missing|, |missing|) && rep.Is(|missing|, |available| + |missing|)
    requires forall r, c :: 0 <= r < rep.data.Length0 && 0 <= c < rep.data.Length1 ==> rep.data[r, c] == K.zero
    modifies sub.data, rep.data
    ensures sub.Value() == PowerRows(K, constants, missing, exponents)
    ensures rep.Value() == Augment(PowerRows(K, constants, available, exponents), Identity(K, |missing|))
  {
    var a, n := |available|, |missing|;
    for i := 0 to n
      invariant forall r, j :: 0 <= r < i && 0 <= j < n ==>
                sub.data[r, j] == Pow(K, constants[missing[j]], exponents[r])
      invariant forall r, j :: 0 <= r < i && 0 <= j < a ==>
                rep.data[r, j] == Pow(K, constants[available[j]], exponents[r])
      invariant forall r, j :: 0 <= r < n && a <= j < a + n ==>
                  rep.data[r, j] == if r < i && j == a + r then K.one else K.zero
    {
      FillRow(K, sub, missing, constants, exponents, i);
      FillRow(K, rep, available, constants, exponents, i);
      rep.data[i, a + i] := K.one;
    }
    assert forall r :: 0 <= r < n ==> sub.Value()[r] == PowerRows(K, constants, missing, exponents)[r];
    ghost var P := Augment(PowerRows(K, constants, available, exponents), Identity(K, n));
    assert forall r :: 0 <= r < n ==> rep.Value()[r] == P[r];
  }

  // What a recovery slice holds, and how it splits over present and missing slices.

  /** The word of the recovery slice with exponent e: the sum over every slice of data[i] * constants[i]^e. */
  ghost function RecoveryWord<F(!new)>(K: Field<F>, constants: seq<F>, data: seq<F>, e: nat): F
    requires |data| == |constants|
  {
    SumOver(K, Terms(K, constants, data, e), Range(|data|))
  }

  ghost function Terms<F(!new)>(K: Field<F>, constants: seq<F>, data: seq<F>, e: nat): (t: seq<F>)
    requires |data| == |constants|
    ensures |t| == |data| && forall i :: 0 <= i < |t| ==> t[i] == Mul(K, Pow(K, constants[i], e), data[i])
  {
    seq(|data|, i requires 0 <= i < |data| => Mul(K, Pow(K, constants[i], e), data[i]))
  }

  ghost function Range(n: nat): (s: seq<nat>)
    ensures |s| == n && forall i :: 0 <= i < n ==> s[i] == i
  {
    seq(n, i => i)
  }

  ghost function SumOver<F(!new)>(K: Field<F>, t: seq<F>, indices: seq<nat>): F
    requires Within(indices, |t|)
  {
    if indices == [] then K.zero
    else Add(K, SumOver(K, t, indices[..|indices| - 1]), t[indices[|indices| - 1]])
  }

  ghost function Pick<F>(data: seq<F>, indices: seq<nat>): (v: seq<F>)
    requires Within(indices, |data|)
    ensures |v| == |indices| && forall j :: 0 <= j < |indices| ==> v[j] == data[indices[j]]
  {
    seq(|indices|, j requires 0 <= j < |indices| && indices[j] < |data| => data[indices[j]])
  }

  /** `available` and `missing` list every slice below n exactly once between them. */
  ghost predicate Partition(available: seq<nat>, missing: seq<nat>, n: nat) {
    multiset(available + missing) == multiset(Range(n))
  }

  lemma {:induction false} SumOverAppend<F(!new)>(K: Field<F>, t: seq<F>, a: seq<nat>, b: seq<nat>)
    requires K.Lawful() && Within(a, |t|) && Within(b, |t|)
    ensures SumOver(K, t, a + b) == Add(K, SumOver(K, t, a), SumOver(K, t, b))
  {
    if b == [] {
      assert a + b == a;
      AddZero(K, SumOver(K, t, a));
    } else {
      var b' := b[..|b| - 1];
      SumOverAppend(K, t, a, b');
      assert (a + b)[..|a + b| - 1] == a + b';
      AddAssoc(K, SumOver(K, t, a), SumOver(K, t, b'), t[b[|b| - 1]]);
    }
  }

  /** Where b holds a's last element, and what is left of both without it. */
  lemma FindLast(a: seq<nat>, b: seq<nat>) returns (k: nat)
    requires a != [] && multiset(a) == multiset(b)
    ensures k < |b| && b[k] == a[|a| - 1] && b == b[..k] + [b[k]] + b[k + 1..]
    ensures multiset(a[..|a| - 1]) == multiset(b[..k] + b[k + 1..])
  {
    var last, a' := a[|a| - 1], a[..|a| - 1];
    assert a == a' + [last];
    assert last in multiset(b);
    k :| 0 <= k < |b| && b[k] == last;
    assert b == b[..k] + [last] + b[k + 1..];
    assert multiset(a') == multiset(a) - multiset{last};
    assert multiset(b[..k] + b[k + 1..]) == multiset(b) - multiset{last};
  }

  lemma SumOverMiddle<F(!new)>(K: Field<F>, t: seq<F>, lo: seq<nat>, x: nat, hi: seq<nat>)
    requires K.Lawful() && Within(lo, |t|) && x < |t| && Within(hi, |t|)
    ensures Within(lo + [x] + hi, |t|) && Within(lo + hi, |t|)
    ensures SumOver(K, t, lo + [x] + hi) == Add(K, SumOver(K, t, lo + hi), t[x])
  {
    SumOverAppend(K, t, lo + [x], hi);
    SumOverAppend(K, t, lo, hi);
    assert (lo + [x])[..|lo|] == lo;
    var l, h := SumOver(K, t, lo), SumOver(K, t, hi);
    AddAssoc(K, l, t[x], h);
    AddComm(K, t[x], h);
    AddAssoc(K, l, h, t[x]);
  }

  /** The sum does not depend on the order of its terms. */
  lemma {:induction false} SumOverPermutes<F(!new)>(K: Field<F>, t: seq<F>, a: seq<nat>, b: seq<nat>)
    requires K.Lawful() && Within(a, |t|) && Within(b, |t|) && multiset(a) == multiset(b)
    ensures SumOver(K, t, a) == SumOver(K, t, b)
    decreases |a|
  {
    if a == [] {
      assert |multiset(b)| == 0;
    } else {
      var k := FindLast(a, b);
      SumOverPermutes(K, t, a[..|a| - 1], b[..k] + b[k + 1..]);
      SumOverMiddle(K, t, b[..k], b[k], b[k + 1..]);
    }
  }

  lemma {:induction false} DotIsSumOver<F(!new)>(
    K: Field<F>, constants: seq<F>, data: seq<F>, indices: seq<nat>, exponents: seq<nat>, i: nat)
    requires |data| == |constants| && Within(indices, |data|) && i < |exponents|
    ensures Dot(K, PowerRows(K, constants, indices, exponents)[i], Pick(data, indices), |indices|) ==
            SumOver(K, Terms(K, constants, data, exponents[i]), indices)
    decreases |indices|
  {
    if indices != [] {
      var m := |indices| - 1;
      var shorter := indices[..m];
      DotIsSumOver(K, constants, data, shorter, exponents, i);
      DotPrefix(K, PowerRows(K, constants, indices, exponents)[i], Pick(data, indices),
                PowerRows(K, constants, shorter, exponents)[i], Pick(data, shorter), m);
    }
  }

  /** A recovery word is the present slices' share plus the missing slices' share. */
  lemma RecoverySplits<F(!new)>(K: Field<F>, constants: seq<F>, data: seq<F>, available: seq<nat>, missing: seq<nat>,
                                exponents: seq<nat>, i: nat)
    requires K.Lawful() && |data| == |constants| && i < |exponents|
    requires Partition(available, missing, |data|) && Within(available, |data|) && Within(missing, |data|)
    ensures RecoveryWord(K, constants, data, exponents[i]) ==
            Add(K, Dot(K, PowerRows(K, constants, available, exponents)[i], Pick(data, available), |available|),
                Dot(K, PowerRows(K, constants, missing, exponents)[i], Pick(data, missing), |missing|))
  {
    var t := Terms(K, constants, data, exponents[i]);
    SumOverPermutes(K, t, Range(|data|), available + missing);
    SumOverAppend(K, t, available, missing);
    DotIsSumOver(K, constants, data, available, exponents, i);
    DotIsSumOver(K, constants, data, missing, exponents, i);
  }

  // The repair matrix.

  /** What repair is given at one word position: the present slices, then the recovery slices. */
  ghost function RepairInput<F(!new)>(K: Field<F>, constants: seq<F>, data: seq<F>, available: seq<nat>,
                                      exponents: seq<nat>)
    : (y: Vector<F>)
    requires |data| == |constants| && Within(available, |data|)
    ensures |y| == |available| + |exponents|
  {
    Pick(data, available) + RecoveryWords(K, constants, data, exponents)
  }

  ghost function RecoveryWords<F(!new)>(K: Field<F>, constants: seq<F>, data: seq<F>,
                                        exponents: seq<nat>): (y: Vector<F>)
    requires |data| == |constants|
    ensures |y| == |exponents| && forall i :: 0 <= i < |y| ==> y[i] == RecoveryWord(K, constants, data, exponents[i])
  {
    seq(|exponents|, i requires 0 <= i < |exponents| => RecoveryWord(K, constants, data, exponents[i]))
  }

  /** `repair` gives back the missing slices of every data set whose slices `available` and `missing` partition. */
  ghost predicate Repairs<F(!new)>(K: Field<F>, repair: Rows<F>, constants: seq<F>, available: seq<nat>,
                                   missing: seq<nat>, exponents: seq<nat>)
    requires Within(available, |constants|) && Within(missing, |constants|) && |exponents| == |missing|
    requires Shape(repair, |missing|, |available| + |missing|)
  {
    Partition(available, missing, |constants|) ==>
      forall data: seq<F> {:trigger RepairInput(K, constants, data, available, exponents)} | |data| == |constants| ::
        Apply(K, repair, |available| + |missing|, RepairInput(K, constants, data, available, exponents)) ==
          Pick(data, missing)
  }

  lemma DotWithUnit<F(!new)>(K: Field<F>, p: Vector<F>, x: Vector<F>, y: Vector<F>, a: nat, n: nat, i: nat)
    requires K.Lawful() && |p| == |x| == a && |y| == n && i < n
    ensures Dot(K, p + Unit(K, n, i), x + y, a + n) == Add(K, Dot(K, p, x, a), y[i])
  {
    var e := Unit(K, n, i);
    DotAppend(K, p, e, x, y, n);
    DotComm(K, e, y, n);
    DotUnit(K, y, n, i);
  }

  lemma InputLeavesMissingShareAt<F(!new)>(K: Field<F>, p: Vector<F>, x: Vector<F>, y: Vector<F>, a: nat, n: nat,
                                           i: nat, share: F)
    requires K.Lawful() && |p| == |x| == a && |y| == n && i < n && y[i] == Add(K, Dot(K, p, x, a), share)
    ensures Dot(K, p + Unit(K, n, i), x + y, a + n) == share
  {
    DotWithUnit(K, p, x, y, a, n, i);
    AddTwice(K, Dot(K, p, x, a), share);
  }

  /** [P | I] applied to present and recovery words leaves the missing slices' share. */
  lemma InputLeavesMissingShare<F(!new)>(K: Field<F>, constants: seq<F>, data: seq<F>, available: seq<nat>,
                                         missing: seq<nat>, exponents: seq<nat>)
    requires K.Lawful() && |data| == |constants| && |exponents| == |missing|
    requires Partition(available, missing, |data|) && Within(available, |data|) && Within(missing, |data|)
    ensures var n := |missing|;
            Apply(K, Augment(PowerRows(K, constants, available, exponents), Identity(K, n)), |available| + n,
                  RepairInput(K, constants, data, available, exponents)) ==
            Apply(K, PowerRows(K, constants, missing, exponents), n, Pick(data, missing))
  {
    var n := |missing|;
    forall i | 0 <= i < n
      ensures Dot(K, Augment(PowerRows(K, constants, available, exponents), Identity(K, n))[i],
                  RepairInput(K, constants, data, available, exponents), |available| + n) ==
              Dot(K, PowerRows(K, constants, missing, exponents)[i], Pick(data, missing), n)
    {
      RecoverySplits(K, constants, data, available, missing, exponents, i);
      InputLeavesMissingShareAt(K, PowerRows(K, constants, available, exponents)[i], Pick(data, available),
                                RecoveryWords(K, constants, data, exponents), |available|, n, i,
                                Dot(K, PowerRows(K, constants, missing, exponents)[i], Pick(data, missing), n));
    }
  }

  lemma SolvedRepairsOne<F(!new)>(K: Field<F>, B: Rows<F>, constants: seq<F>, data: seq<F>, available: seq<nat>,
                                  missing: seq<nat>, exponents: seq<nat>)
    requires K.Lawful() && |data| == |constants| && |exponents| == |missing|
    requires Partition(available, missing, |data|) && Within(available, |data|) && Within(missing, |data|)
    requires Solved(K, Augment(PowerRows(K, constants, missing, exponents),
                               Augment(PowerRows(K, constants, available, exponents), Identity(K, |missing|))),
                    B, |missing| + (|available| + |missing|))
    ensures Apply(K, Right(B, |missing|, |available| + |missing|), |available| + |missing|,
                  RepairInput(K, constants, data, available, exponents)) == Pick(data, missing)
  {
    InputLeavesMissingShare(K, constants, data, available, missing, exponents);
    SolvedReads(K, PowerRows(K, constants, missing, exponents),
                Augment(PowerRows(K, constants, available, exponents), Identity(K, |missing|)), B,
                |missing|, |available| + |missing|, Pick(data, missing),
                  RepairInput(K, constants, data, available, exponents));
  }

  lemma SolvedRepairs<F(!new)>(K: Field<F>, B: Rows<F>, constants: seq<F>, available: seq<nat>, missing: seq<nat>,
                               exponents: seq<nat>)
    requires K.Lawful() && |exponents| == |missing| && Within(available, |constants|) && Within(missing, |constants|)
    requires Solved(K, Augment(PowerRows(K, constants, missing, exponents),
                               Augment(PowerRows(K, constants, available, exponents), Identity(K, |missing|))),
                    B, |missing| + (|available| + |missing|))
    ensures Repairs(K, Right(B, |missing|, |available| + |missing|), constants, available, missing, exponents)
  {
    if Partition(available, missing, |constants|) {
      forall data: seq<F> | |data| == |constants|
        ensures Apply(K, Right(B, |missing|, |available| + |missing|), |available| + |missing|,
                      RepairInput(K, constants, data, available, exponents)) == Pick(data, missing)
      {
        SolvedRepairsOne(K, B, constants, data, available, missing, exponents);
      }
    }
  }

  /** The last n columns of the repair matrix invert the missing block. */
  lemma SolvedDecodes<F(!new)>(K: Field<F>, S: Rows<F>, P: Rows<F>, B: Rows<F>, n: nat, a: nat)
    requires K.Lawful() && Shape(S, n, n) && Shape(P, n, a)
    requires Solved(K, Augment(S, Augment(P, Identity(K, n))), B, n + (a + n))
    ensures Inverse(K, S, Right(Right(B, n, a + n), a, n), n)
  {
    var D := Right(Right(B, n, a + n), a, n);
    forall x: Vector<F> | |x| == n ensures Undone(K, S, D, n, x) {
      var z := Apply(K, S, n, x);
      ReadsPadded(K, S, P, B, n, a, x, z);
      ReadsPadded(K, S, P, B, n, a, Apply(K, D, n, x), x);
    }
  }

  /** With nothing present, S x == z exactly when the decode block sends z to x. */
  lemma ReadsPadded<F(!new)>(K: Field<F>, S: Rows<F>, P: Rows<F>, B: Rows<F>, n: nat, a: nat, x: Vector<F>,
                             z: Vector<F>)
    requires K.Lawful() && Shape(S, n, n) && Shape(P, n, a) && |x| == n && |z| == n
    requires Solved(K, Augment(S, Augment(P, Identity(K, n))), B, n + (a + n))
    ensures Apply(K, S, n, x) == z <==> x == Apply(K, Right(Right(B, n, a + n), a, n), n, z)
  {
    var I, N := Identity(K, n), Right(B, n, a + n);
    var y := Zeros(K, a) + z;
    assert Apply(K, Augment(P, I), a + n, y) == z by {
      PaddedInput(K, P, I, n, a, z);
      IdentityColumns(K, n);
      ApplyIdentity(K, I, n, z);
    }
    assert Apply(K, N, a + n, y) == Apply(K, Right(N, a, n), n, z) by {
      Rejoin(N, a, n);
      PaddedInput(K, Left(N, a, n), Right(N, a, n), n, a, z);
    }
    SolvedReads(K, S, Augment(P, I), B, n, a + n, x, y);
  }

  lemma PaddedInput<F(!new)>(K: Field<F>, P: Rows<F>, D: Rows<F>, n: nat, a: nat, z: Vector<F>)
    requires K.Lawful() && Shape(P, n, a) && Shape(D, n, n) && |z| == n
    ensures Apply(K, Augment(P, D), a + n, Zeros(K, a) + z) == Apply(K, D, n, z)
  {
    forall r | 0 <= r < n ensures Dot(K, Augment(P, D)[r], Zeros(K, a) + z, a + n) == Dot(K, D[r], z, n) {
      DotAppend(K, P[r], D[r], Zeros(K, a), z, n);
      DotVanishes(K, P[r], Zeros(K, a), a);
      AddZero(K, Dot(K, D[r], z, n));
    }
  }
}
