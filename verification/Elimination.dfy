/** Gauss-Jordan elimination of an augmented matrix [M | R], as a function on
    rows, and what its outcome says about M. */
module Elimination {
  import opened Fields
  import opened Linear

  datatype Reduction<F> = Reduced(rows: Rows<F>) | Singular(badRow: nat)

  function ScaleRow<F(!new)>(K: Field<F>, row: Vector<F>, f: F): (t: Vector<F>)
    ensures |t| == |row| && forall j :: 0 <= j < |row| ==> t[j] == Mul(K, row[j], f)
  {
    seq(|row|, j requires 0 <= j < |row| => Mul(K, row[j], f))
  }

  function AddScaled<F(!new)>(K: Field<F>, t: Vector<F>, f: F, p: Vector<F>): (u: Vector<F>)
    requires |t| == |p|
    ensures |u| == |t| && forall j :: 0 <= j < |t| ==> u[j] == Add(K, t[j], Mul(K, f, p[j]))
  {
    seq(|t|, j requires 0 <= j < |t| => Add(K, t[j], Mul(K, f, p[j])))
  }

  /** Row `col` scaled to a leading one. */
  function PivotRow<F(!new)>(K: Field<F>, A: Rows<F>, w: nat, col: nat): (p: Vector<F>)
    requires Shape(A, |A|, w) && col < |A| && col < w
    ensures |p| == w
  {
    ScaleRow(K, A[col], Inv(K, A[col][col]))
  }

  /** One elimination step: scale the pivot row, clear its column elsewhere. */
  function Clear<F(!new)>(K: Field<F>, A: Rows<F>, w: nat, col: nat): (B: Rows<F>)
    requires Shape(A, |A|, w) && col < |A| && col < w
    ensures Shape(B, |A|, w)
    ensures B[col] == PivotRow(K, A, w, col)
    ensures forall r :: 0 <= r < |A| && r != col ==> B[r] == AddScaled(K, A[r], A[r][col], PivotRow(K, A, w, col))
  {
    var p := PivotRow(K, A, w, col);
    seq(|A|, r requires 0 <= r < |A| => if r == col then p else AddScaled(K, A[r], A[r][col], p))
  }

  function Swap<T>(A: seq<T>, i: nat, j: nat): (B: seq<T>)
    requires i < |A| && j < |A|
    ensures |B| == |A| && B[i] == A[j] && B[j] == A[i]
    ensures forall r :: 0 <= r < |A| && r != i && r != j ==> B[r] == A[r]
  {
    A[i := A[j]][j := A[i]]
  }

  /** The first row at or below `from` with a nonzero entry in column `col`; |A| when there is none. */
  function FindPivot<F(!new,==)>(K: Field<F>, A: Rows<F>, w: nat, col: nat, from: nat): (p: nat)
    requires Shape(A, |A|, w) && col < w && from <= |A|
    ensures from <= p <= |A|
    ensures forall r :: from <= r < p ==> A[r][col] == K.zero
    ensures p < |A| ==> A[p][col] != K.zero
    decreases |A| - from
  {
    if from == |A| || A[from][col] != K.zero then from
    else FindPivot(K, A, w, col, from + 1)
  }

  /** Elimination with pivoting from column `col` on; `origins` says which input row each row came from. */
  function Pivoted<F(!new,==)>(K: Field<F>, A: Rows<F>, w: nat, origins: seq<nat>, col: nat): (res: Reduction<F>)
    requires Shape(A, |A|, w) && col <= |A| <= w && |origins| == |A|
    decreases |A| - col
  {
    if col == |A| then Reduced(A)
    else
      var p := FindPivot(K, A, w, col, col);
      if p == |A| then Singular(origins[col])
      else Pivoted(K, Clear(K, Swap(A, col, p), w, col), w, Swap(origins, col, p), col + 1)
  }

  /** Elimination that takes the diagonal as it finds it. */
  function Unpivoted<F(!new,==)>(K: Field<F>, A: Rows<F>, w: nat, col: nat): (res: Reduction<F>)
    requires Shape(A, |A|, w) && col <= |A| <= w
    decreases |A| - col
  {
    if col == |A| then Reduced(A)
    else if A[col][col] == K.zero then Singular(col)
    else Unpivoted(K, Clear(K, A, w, col), w, col + 1)
  }

  // One step keeps the solutions and makes one more unit column.

  ghost predicate UnitColumns<F(!new)>(K: Field<F>, A: Rows<F>, w: nat, k: nat)
    requires Shape(A, |A|, w) && k <= w
  {
    forall r, c :: 0 <= r < |A| && 0 <= c < k ==> A[r][c] == if r == c then K.one else K.zero
  }

  lemma ClearDot<F(!new)>(K: Field<F>, A: Rows<F>, w: nat, col: nat, z: Vector<F>, r: nat)
    requires K.Lawful() && Shape(A, |A|, w) && col < |A| && col < w && |z| == w && r < |A|
    ensures var p := Dot(K, Clear(K, A, w, col)[col], z, w);
            p == Mul(K, Inv(K, A[col][col]), Dot(K, A[col], z, w)) &&
            (r != col ==> Dot(K, Clear(K, A, w, col)[r], z, w) == Add(K, Dot(K, A[r], z, w), Mul(K, A[r][col], p)))
  {
    var B := Clear(K, A, w, col);
    forall j | 0 <= j < w ensures B[col][j] == Mul(K, Inv(K, A[col][col]), A[col][j]) {
      MulComm(K, Inv(K, A[col][col]), A[col][j]);
    }
    DotScale(K, B[col], Inv(K, A[col][col]), A[col], z, w);
    if r != col {
      DotAddScaled(K, B[r], A[r], A[r][col], B[col], z, w);
    }
  }

  lemma ClearKernel<F(!new)>(K: Field<F>, A: Rows<F>, w: nat, col: nat)
    requires K.Lawful() && Shape(A, |A|, w) && col < |A| && col < w && A[col][col] != K.zero
    ensures SameKernel(K, A, Clear(K, A, w, col), w)
  {
    var B := Clear(K, A, w, col);
    InvNonZero(K, A[col][col]);
    forall z: Vector<F> | |z| == w ensures Kernel(K, A, w, z) <==> Kernel(K, B, w, z) {
      ClearDot(K, A, w, col, z, col);
      MulToZero(K, Inv(K, A[col][col]), Dot(K, A[col], z, w));
      if Dot(K, B[col], z, w) == K.zero {
        forall r | 0 <= r < |A| ensures Dot(K, A[r], z, w) == K.zero <==> Dot(K, B[r], z, w) == K.zero {
          ClearDot(K, A, w, col, z, r);
          MulZero(K, A[r][col]);
          AddZero(K, Dot(K, A[r], z, w));
        }
      }
    }
  }

  lemma SwapKernel<F(!new)>(K: Field<F>, A: Rows<F>, w: nat, i: nat, j: nat)
    requires Shape(A, |A|, w) && i < |A| && j < |A|
    ensures SameKernel(K, A, Swap(A, i, j), w)
  {
    var B := Swap(A, i, j);
    forall z: Vector<F> | |z| == w ensures Kernel(K, A, w, z) <==> Kernel(K, B, w, z) {
      assert Swap(B, i, j) == A;
    }
  }

  /** A column of which the pivot row holds nothing is untouched. */
  lemma ClearKeepsColumn<F(!new)>(K: Field<F>, A: Rows<F>, w: nat, col: nat, c: nat)
    requires K.Lawful() && Shape(A, |A|, w) && col < |A| && col < w && c < w && A[col][c] == K.zero
    ensures forall r :: 0 <= r < |A| ==> Clear(K, A, w, col)[r][c] == A[r][c]
  {
    MulZero(K, Inv(K, A[col][col]));
    forall r | 0 <= r < |A| ensures Clear(K, A, w, col)[r][c] == A[r][c] {
      MulZero(K, A[r][col]);
      AddZero(K, A[r][c]);
    }
  }

  lemma ClearUnitColumns<F(!new)>(K: Field<F>, A: Rows<F>, w: nat, col: nat)
    requires K.Lawful() && Shape(A, |A|, w) && col < |A| <= w && A[col][col] != K.zero
    requires UnitColumns(K, A, w, col)
    ensures UnitColumns(K, Clear(K, A, w, col), w, col + 1)
  {
    var B := Clear(K, A, w, col);
    forall r, c | 0 <= r < |A| && 0 <= c <= col ensures B[r][c] == if r == c then K.one else K.zero {
      if c < col {
        ClearKeepsColumn(K, A, w, col, c);
      } else {
        MulInv(K, A[col][col]);
        MulOne(K, A[r][col]);
        AddSelf(K, A[r][col]);
      }
    }
  }

  lemma SwapUnitColumns<F(!new)>(K: Field<F>, A: Rows<F>, w: nat, k: nat, p: nat)
    requires Shape(A, |A|, w) && k <= p < |A| <= w && UnitColumns(K, A, w, k)
    ensures UnitColumns(K, Swap(A, k, p), w, k)
  {
  }

  /** B is A fully reduced: the same solutions, and the identity on the left. */
  ghost predicate Solved<F(!new)>(K: Field<F>, A: Rows<F>, B: Rows<F>, w: nat)
    requires Shape(A, |A|, w) && |A| <= w
  {
    Shape(B, |A|, w) && SameKernel(K, A, B, w) && UnitColumns(K, B, w, |A|)
  }

  lemma SolvedThrough<F(!new)>(K: Field<F>, A: Rows<F>, B: Rows<F>, C: Rows<F>, w: nat)
    requires Shape(A, |A|, w) && |A| <= w && Shape(B, |A|, w) && SameKernel(K, A, B, w) && Solved(K, B, C, w)
    ensures Solved(K, A, C, w)
  {
  }

  lemma {:induction false} UnpivotedSolves<F(!new)>(K: Field<F>, A: Rows<F>, w: nat, col: nat)
    requires K.Lawful() && Shape(A, |A|, w) && col <= |A| <= w && UnitColumns(K, A, w, col)
    ensures Unpivoted(K, A, w, col).Reduced? ==> Solved(K, A, Unpivoted(K, A, w, col).rows, w)
    decreases |A| - col
  {
    if col < |A| && A[col][col] != K.zero {
      var B := Clear(K, A, w, col);
      ClearUnitColumns(K, A, w, col);
      UnpivotedSolves(K, B, w, col + 1);
      var res := Unpivoted(K, B, w, col + 1);
      if res.Reduced? {
        ClearKernel(K, A, w, col);
        SolvedThrough(K, A, B, res.rows, w);
      }
    }
  }

  // Solutions with a one in column k and nothing to its right.

  /** The entries of column k above the diagonal, then a one. */
  function NullVector<F(!new)>(K: Field<F>, A: Rows<F>, w: nat, k: nat): (v: Vector<F>)
    requires Shape(A, |A|, w) && k < |A| && k < w
    ensures |v| == w
    ensures forall j :: 0 <= j < w ==> v[j] == if j < k then A[j][k] else if j == k then K.one else K.zero
  {
    seq(w, j requires 0 <= j < w => if j < k then A[j][k] else if j == k then K.one else K.zero)
  }

  /** It solves the reduced rows, and meets every other row in that row's entry of column k. */
  lemma NullVectorDot<F(!new)>(K: Field<F>, A: Rows<F>, w: nat, k: nat, r: nat)
    requires K.Lawful() && Shape(A, |A|, w) && k < |A| && k < w && UnitColumns(K, A, w, k) && r < |A|
    ensures Dot(K, A[r], NullVector(K, A, w, k), w) == if r < k then K.zero else A[r][k]
  {
    var v := NullVector(K, A, w, k);
    DotTruncate(K, A[r], v, k + 1, w);
    MulOne(K, A[r][k]);
    if r < k {
      DotSingle(K, A[r], v, k, r);
      MulOne(K, v[r]);
      AddSelf(K, A[r][k]);
    } else {
      DotVanishes(K, A[r], v, k);
      AddZero(K, A[r][k]);
    }
  }

  ghost predicate HasNullVector<F(!new)>(K: Field<F>, A: Rows<F>, w: nat)
    requires Shape(A, |A|, w) && |A| <= w
  {
    exists v: Vector<F> {:trigger Kernel(K, A, w, v)} :: |v| == w && Kernel(K, A, w, v) &&
                           (exists c :: 0 <= c < |A| && v[c] != K.zero) &&
                           forall j :: |A| <= j < w ==> v[j] == K.zero
  }

  lemma NullVectorThrough<F(!new)>(K: Field<F>, A: Rows<F>, B: Rows<F>, w: nat)
    requires Shape(A, |A|, w) && |A| <= w && Shape(B, |A|, w) && SameKernel(K, A, B, w)
    ensures HasNullVector(K, A, w) <==> HasNullVector(K, B, w)
  {
  }

  lemma NoPivot<F(!new)>(K: Field<F>, A: Rows<F>, w: nat, col: nat)
    requires K.Lawful() && Shape(A, |A|, w) && col < |A| <= w && UnitColumns(K, A, w, col)
    requires forall r :: col <= r < |A| ==> A[r][col] == K.zero
    ensures HasNullVector(K, A, w)
  {
    var v := NullVector(K, A, w, col);
    forall r | 0 <= r < |A| ensures Dot(K, A[r], v, w) == K.zero {
      NullVectorDot(K, A, w, col, r);
    }
    assert Kernel(K, A, w, v) && v[col] != K.zero;
  }

  lemma PivotStep<F(!new)>(K: Field<F>, A: Rows<F>, w: nat, col: nat, p: nat)
    requires K.Lawful() && Shape(A, |A|, w) && col <= p < |A| <= w && UnitColumns(K, A, w, col)
    requires A[p][col] != K.zero
    ensures var B := Clear(K, Swap(A, col, p), w, col);
            SameKernel(K, A, B, w) && UnitColumns(K, B, w, col + 1)
  {
    var S := Swap(A, col, p);
    SwapUnitColumns(K, A, w, col, p);
    ClearUnitColumns(K, S, w, col);
    SwapKernel(K, A, w, col, p);
    ClearKernel(K, S, w, col);
  }

  /** Pivoted elimination reduces A, or A has a nonzero solution that only uses the left block. */
  lemma {:induction false} PivotedSolves<F(!new)>(K: Field<F>, A: Rows<F>, w: nat, origins: seq<nat>, col: nat)
    requires K.Lawful() && Shape(A, |A|, w) && col <= |A| <= w && |origins| == |A| && UnitColumns(K, A, w, col)
    ensures var res := Pivoted(K, A, w, origins, col);
            if res.Reduced? then Solved(K, A, res.rows, w) else HasNullVector(K, A, w)
    decreases |A| - col
  {
    if col < |A| {
      var p := FindPivot(K, A, w, col, col);
      if p == |A| {
        NoPivot(K, A, w, col);
      } else {
        var B := Clear(K, Swap(A, col, p), w, col);
        var o := Swap(origins, col, p);
        PivotStep(K, A, w, col, p);
        PivotedSolves(K, B, w, o, col + 1);
        if Pivoted(K, B, w, o, col + 1).Reduced? {
          SolvedThrough(K, A, B, Pivoted(K, B, w, o, col + 1).rows, w);
        } else {
          NullVectorThrough(K, A, B, w);
        }
      }
    }
  }
}
