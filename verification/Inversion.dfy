/** What elimination says about the matrix it is given: inverses, solutions of
    M x = R y, and the first row that depends on the rows above it. */
module Inversion {
  import opened Fields
  import opened Linear
  import opened Elimination

  function Augment<F>(M: Rows<F>, R: Rows<F>): (A: Rows<F>)
    requires |M| == |R|
    ensures |A| == |M| && forall r :: 0 <= r < |M| ==> A[r] == M[r] + R[r]
  {
    seq(|M|, r requires 0 <= r < |M| => M[r] + R[r])
  }

  function Identity<F(!new)>(K: Field<F>, n: nat): (I: Rows<F>)
    ensures Shape(I, n, n) && forall r :: 0 <= r < n ==> I[r] == Unit(K, n, r)
  {
    seq(n, r requires 0 <= r < n => Unit(K, n, r))
  }

  function Right<F>(A: Rows<F>, n: nat, w: nat): (R: Rows<F>)
    requires Shape(A, |A|, n + w)
    ensures Shape(R, |A|, w)
    ensures forall r, c :: 0 <= r < |A| && 0 <= c < w ==> R[r][c] == A[r][n + c]
  {
    seq(|A|, r requires 0 <= r < |A| => A[r][n..])
  }

  function Left<F>(A: Rows<F>, n: nat, w: nat): (L: Rows<F>)
    requires Shape(A, |A|, n + w)
    ensures Shape(L, |A|, n)
    ensures forall r, c :: 0 <= r < |A| && 0 <= c < n ==> L[r][c] == A[r][c]
  {
    seq(|A|, r requires 0 <= r < |A| => A[r][..n])
  }

  lemma Rejoin<F>(A: Rows<F>, n: nat, w: nat)
    requires Shape(A, |A|, n + w)
    ensures Augment(Left(A, n, w), Right(A, n, w)) == A
  {
    forall r | 0 <= r < |A| ensures Augment(Left(A, n, w), Right(A, n, w))[r] == A[r] {
    }
  }

  lemma RightOfAugment<F>(L: Rows<F>, R: Rows<F>, n: nat, w: nat)
    requires Shape(L, |R|, n) && Shape(R, |R|, w)
    ensures Right(Augment(L, R), n, w) == R
  {
    forall r | 0 <= r < |R| ensures Right(Augment(L, R), n, w)[r] == R[r] {
    }
  }

  /** N undoes M on every vector, from either side. */
  ghost predicate Inverse<F(!new)>(K: Field<F>, M: Rows<F>, N: Rows<F>, n: nat)
    requires Shape(M, n, n) && Shape(N, n, n)
  {
    forall x: Vector<F> {:trigger Undone(K, M, N, n, x)} | |x| == n :: Undone(K, M, N, n, x)
  }

  ghost predicate Undone<F(!new)>(K: Field<F>, M: Rows<F>, N: Rows<F>, n: nat, x: Vector<F>)
    requires Shape(M, n, n) && Shape(N, n, n) && |x| == n
  {
    Apply(K, N, n, Apply(K, M, n, x)) == x && Apply(K, M, n, Apply(K, N, n, x)) == x
  }

  ghost predicate Invertible<F(!new)>(K: Field<F>, M: Rows<F>, n: nat)
    requires Shape(M, n, n)
  {
    exists N: Rows<F> :: Shape(N, n, n) && Inverse(K, M, N, n)
  }

  /** x + y solves [M | R] exactly when M x == R y. */
  lemma KernelOfAugment<F(!new)>(K: Field<F>, M: Rows<F>, R: Rows<F>, n: nat, w: nat, x: Vector<F>, y: Vector<F>)
    requires K.Lawful() && Shape(M, |M|, n) && Shape(R, |M|, w) && |x| == n && |y| == w
    ensures Kernel(K, Augment(M, R), n + w, x + y) <==> Apply(K, M, n, x) == Apply(K, R, w, y)
  {
    forall r | 0 <= r < |M|
      ensures Dot(K, Augment(M, R)[r], x + y, n + w) == K.zero <==> Apply(K, M, n, x)[r] == Apply(K, R, w, y)[r]
    {
      DotAppend(K, M[r], R[r], x, y, w);
      AddToZero(K, Dot(K, M[r], x, n), Dot(K, R[r], y, w));
    }
  }

  lemma ApplyIdentity<F(!new)>(K: Field<F>, I: Rows<F>, n: nat, x: Vector<F>)
    requires K.Lawful() && Shape(I, n, n) && UnitColumns(K, I, n, n) && |x| == n
    ensures Apply(K, I, n, x) == x
  {
    forall r | 0 <= r < n ensures Dot(K, I[r], x, n) == x[r] {
      DotSingle(K, I[r], x, n, r);
      MulOne(K, x[r]);
    }
  }

  /** A reduced system has exactly one solution x for each y, and reads it off the right block. */
  lemma SolvedReads<F(!new)>(
    K: Field<F>, M: Rows<F>, R: Rows<F>, B: Rows<F>, n: nat, w: nat, x: Vector<F>, y: Vector<F>)
    requires K.Lawful() && Shape(M, n, n) && Shape(R, n, w) && |x| == n && |y| == w
    requires Solved(K, Augment(M, R), B, n + w)
    ensures Apply(K, M, n, x) == Apply(K, R, w, y) <==> x == Apply(K, Right(B, n, w), w, y)
  {
    var L := Left(B, n, w);
    Rejoin(B, n, w);
    assert UnitColumns(K, L, n, n);
    KernelOfAugment(K, M, R, n, w, x, y);
    KernelOfAugment(K, L, Right(B, n, w), n, w, x, y);
    ApplyIdentity(K, L, n, x);
  }

  /** The right block is the product of the inverse with R: M * R' == R, column by column. */
  lemma SolvedProduct<F(!new)>(K: Field<F>, M: Rows<F>, R: Rows<F>, B: Rows<F>, n: nat, w: nat, c: nat)
    requires K.Lawful() && Shape(M, n, n) && Shape(R, n, w) && c < w
    requires Solved(K, Augment(M, R), B, n + w)
    ensures Apply(K, M, n, Column(Right(B, n, w), w, c)) == Column(R, w, c)
  {
    var e := Unit(K, w, c);
    ApplyUnit(K, R, w, c);
    ApplyUnit(K, Right(B, n, w), w, c);
    SolvedReads(K, M, R, B, n, w, Column(Right(B, n, w), w, c), e);
  }

  lemma IdentityColumns<F(!new)>(K: Field<F>, n: nat)
    ensures UnitColumns(K, Identity(K, n), n, n)
  {
  }

  lemma SolvedInverse<F(!new)>(K: Field<F>, M: Rows<F>, B: Rows<F>, n: nat)
    requires K.Lawful() && Shape(M, n, n) && Solved(K, Augment(M, Identity(K, n)), B, n + n)
    ensures Inverse(K, M, Right(B, n, n), n)
  {
    var I, N := Identity(K, n), Right(B, n, n);
    IdentityColumns(K, n);
    forall x: Vector<F> | |x| == n ensures Undone(K, M, N, n, x) {
      ApplyIdentity(K, I, n, Apply(K, M, n, x));
      SolvedReads(K, M, I, B, n, n, x, Apply(K, M, n, x));
      ApplyIdentity(K, I, n, x);
      SolvedReads(K, M, I, B, n, n, Apply(K, N, n, x), x);
    }
  }

  /** A nonzero solution of [M | R] that uses the left block only is a nonzero vector M sends to zero. */
  lemma NullVectorOfAugment<F(!new)>(K: Field<F>, M: Rows<F>, R: Rows<F>, n: nat, w: nat) returns (x: Vector<F>)
    requires K.Lawful() && Shape(M, n, n) && Shape(R, n, w) && HasNullVector(K, Augment(M, R), n + w)
    ensures |x| == n && x != Zeros(K, n) && Apply(K, M, n, x) == Zeros(K, n)
  {
    var v: Vector<F> :| |v| == n + w && Kernel(K, Augment(M, R), n + w, v) &&
                        (exists c :: 0 <= c < n && v[c] != K.zero) &&
                        forall j :: n <= j < n + w ==> v[j] == K.zero;
    x := v[..n];
    assert v == x + Zeros(K, w);
    KernelOfAugment(K, M, R, n, w, x, Zeros(K, w));
    ApplyZero(K, R, w);
    assert exists c :: 0 <= c < n && x[c] != K.zero;
  }

  lemma NotInvertible<F(!new)>(K: Field<F>, M: Rows<F>, n: nat, x: Vector<F>)
    requires K.Lawful() && Shape(M, n, n) && |x| == n && x != Zeros(K, n) && Apply(K, M, n, x) == Zeros(K, n)
    ensures !Invertible(K, M, n)
  {
    forall N: Rows<F> | Shape(N, n, n) ensures !Inverse(K, M, N, n) {
      ApplyZero(K, N, n);
      assert !Undone(K, M, N, n, x);
    }
  }

  /** Pivoted elimination of [M | R] succeeds exactly when M is invertible. */
  lemma PivotedExact<F(!new)>(K: Field<F>, M: Rows<F>, R: Rows<F>, n: nat, w: nat, origins: seq<nat>)
    requires K.Lawful() && Shape(M, n, n) && Shape(R, n, w) && |origins| == n
    ensures Pivoted(K, Augment(M, R), n + w, origins, 0).Reduced? <==> Invertible(K, M, n)
  {
    var A := Augment(M, R);
    PivotedSolves(K, A, n + w, origins, 0);
    var res := Pivoted(K, A, n + w, origins, 0);
    if !res.Reduced? {
      var x := NullVectorOfAugment(K, M, R, n, w);
      NotInvertible(K, M, n, x);
    } else {
      var I := Augment(M, Identity(K, n));
      PivotedSolves(K, I, n + n, origins, 0);
      PivotedSameOutcome(K, A, I, n + w, n + n, origins, 0);
      SolvedInverse(K, M, Pivoted(K, I, n + n, origins, 0).rows, n);
    }
  }

  /** Eliminating [M | I] leaves M's inverse ... */
  lemma PivotedInverse<F(!new)>(K: Field<F>, M: Rows<F>, n: nat, origins: seq<nat>, B: Rows<F>)
    requires K.Lawful() && Shape(M, n, n) && |origins| == n
    requires Pivoted(K, Augment(M, Identity(K, n)), n + n, origins, 0) == Reduced(B)
    ensures Shape(B, n, n + n) && Inverse(K, M, Right(B, n, n), n)
  {
    PivotedSolves(K, Augment(M, Identity(K, n)), n + n, origins, 0);
    SolvedInverse(K, M, B, n);
  }

  /** ... or M sends some nonzero vector to zero. */
  lemma PivotedNull<F(!new)>(K: Field<F>, M: Rows<F>, n: nat, origins: seq<nat>) returns (x: Vector<F>)
    requires K.Lawful() && Shape(M, n, n) && |origins| == n
    requires Pivoted(K, Augment(M, Identity(K, n)), n + n, origins, 0).Singular?
    ensures |x| == n && x != Zeros(K, n) && Apply(K, M, n, x) == Zeros(K, n)
  {
    PivotedSolves(K, Augment(M, Identity(K, n)), n + n, origins, 0);
    x := NullVectorOfAugment(K, M, Identity(K, n), n, n);
  }

  // The outcome depends on the left block alone.

  ghost predicate SameLeft<F>(A: Rows<F>, B: Rows<F>, w: nat, u: nat) {
    && Shape(A, |A|, w) && Shape(B, |A|, u) && |A| <= w && |A| <= u
    && forall r, c :: 0 <= r < |A| && 0 <= c < |A| ==> A[r][c] == B[r][c]
  }

  lemma ClearSameLeft<F(!new)>(K: Field<F>, A: Rows<F>, B: Rows<F>, w: nat, u: nat, col: nat)
    requires SameLeft(A, B, w, u) && col < |A|
    ensures SameLeft(Clear(K, A, w, col), Clear(K, B, u, col), w, u)
  {
  }

  lemma {:induction false} FindPivotSameLeft<F(!new)>(
    K: Field<F>, A: Rows<F>, B: Rows<F>, w: nat, u: nat, col: nat, from: nat)
    requires SameLeft(A, B, w, u) && col < |A| && from <= |A|
    ensures FindPivot(K, A, w, col, from) == FindPivot(K, B, u, col, from)
    decreases |A| - from
  {
    if from < |A| { FindPivotSameLeft(K, A, B, w, u, col, from + 1); }
  }

  lemma {:induction false} PivotedSameOutcome<F(!new)>(
    K: Field<F>, A: Rows<F>, B: Rows<F>, w: nat, u: nat, origins: seq<nat>, col: nat)
    requires SameLeft(A, B, w, u) && |origins| == |A| && col <= |A|
    ensures Pivoted(K, A, w, origins, col).Reduced? <==> Pivoted(K, B, u, origins, col).Reduced?
    decreases |A| - col
  {
    if col < |A| {
      FindPivotSameLeft(K, A, B, w, u, col, col);
      var p := FindPivot(K, A, w, col, col);
      if p < |A| {
        ClearSameLeft(K, Swap(A, col, p), Swap(B, col, p), w, u, col);
        PivotedSameOutcome(K, Clear(K, Swap(A, col, p), w, col), Clear(K, Swap(B, col, p), u, col), w, u,
                           Swap(origins, col, p), col + 1);
      }
    }
  }

  /** Two full reductions of one system are the same rows. */
  lemma SolvedUnique<F(!new)>(K: Field<F>, M: Rows<F>, R: Rows<F>, B: Rows<F>, C: Rows<F>, n: nat, w: nat)
    requires K.Lawful() && Shape(M, n, n) && Shape(R, n, w)
    requires Solved(K, Augment(M, R), B, n + w) && Solved(K, Augment(M, R), C, n + w)
    ensures B == C
  {
    forall r, c | 0 <= r < n && 0 <= c < n + w ensures B[r][c] == C[r][c] {
      if c >= n {
        var e := Unit(K, w, c - n);
        ApplyUnit(K, Right(B, n, w), w, c - n);
        ApplyUnit(K, Right(C, n, w), w, c - n);
        SolvedReads(K, M, R, B, n, w, Column(Right(B, n, w), w, c - n), e);
        SolvedReads(K, M, R, C, n, w, Column(Right(B, n, w), w, c - n), e);
        assert Column(Right(B, n, w), w, c - n)[r] == Column(Right(C, n, w), w, c - n)[r];
      }
    }
    forall r | 0 <= r < n ensures B[r] == C[r] {
    }
  }

  /** Whenever unpivoted elimination succeeds, pivoted elimination gives the same rows. */
  lemma UnpivotedAgrees<F(!new)>(K: Field<F>, M: Rows<F>, R: Rows<F>, n: nat, w: nat, origins: seq<nat>)
    requires K.Lawful() && Shape(M, n, n) && Shape(R, n, w) && |origins| == n
    requires Unpivoted(K, Augment(M, R), n + w, 0).Reduced?
    ensures Pivoted(K, Augment(M, R), n + w, origins, 0) == Unpivoted(K, Augment(M, R), n + w, 0)
  {
    var A := Augment(M, R);
    UnpivotedSolves(K, A, n + w, 0);
    PivotedSolves(K, A, n + w, origins, 0);
    var B := Unpivoted(K, A, n + w, 0).rows;
    SolvedHasNoNullVector(K, M, R, B, n, w);
    SolvedUnique(K, M, R, B, Pivoted(K, A, n + w, origins, 0).rows, n, w);
  }

  lemma SolvedHasNoNullVector<F(!new)>(K: Field<F>, M: Rows<F>, R: Rows<F>, B: Rows<F>, n: nat, w: nat)
    requires K.Lawful() && Shape(M, n, n) && Shape(R, n, w) && Solved(K, Augment(M, R), B, n + w)
    ensures !HasNullVector(K, Augment(M, R), n + w)
  {
    if HasNullVector(K, Augment(M, R), n + w) {
      var x := NullVectorOfAugment(K, M, R, n, w);
      ApplyZero(K, R, w);
      ApplyZero(K, Right(B, n, w), w);
      SolvedReads(K, M, R, B, n, w, x, Zeros(K, w));
      assert false;
    }
  }

  // The row unpivoted elimination fails at.

  /** Over its first k + 1 columns, row k is a combination of the rows above it. */
  ghost predicate DependsOnAbove<F(!new)>(K: Field<F>, M: Rows<F>, n: nat, k: nat)
    requires Shape(M, n, n) && k < n
  {
    exists l: Vector<F> {:trigger CombinesTo(K, M, n, k, l)} :: |l| == k && CombinesTo(K, M, n, k, l)
  }

  ghost predicate CombinesTo<F(!new)>(K: Field<F>, M: Rows<F>, n: nat, k: nat, l: Vector<F>)
    requires Shape(M, n, n) && k < n && |l| == k
  {
    forall c :: 0 <= c <= k ==> M[k][c] == Dot(K, l, Column(M, n, c), k)
  }

  /** A is [M | I] after k unpivoted steps: same solutions, k unit columns on the
      left, and the last n - k columns of the identity still in place on the right. */
  ghost predicate AfterSteps<F(!new)>(K: Field<F>, M: Rows<F>, A: Rows<F>, n: nat, k: nat)
    requires Shape(M, n, n) && k <= n
  {
    TwoSided(K, A, n, k) && SameKernel(K, Augment(M, Identity(K, n)), A, n + n)
  }

  ghost predicate TwoSided<F(!new)>(K: Field<F>, A: Rows<F>, n: nat, k: nat)
    requires k <= n
  {
    && Shape(A, n, n + n)
    && UnitColumns(K, A, n + n, k)
    && forall i :: k <= i < n ==> StillUnit(K, A, n, i)
  }

  ghost predicate StillUnit<F(!new)>(K: Field<F>, A: Rows<F>, n: nat, i: nat)
    requires Shape(A, n, n + n) && i < n
  {
    UnitColumn(K, A, n + n, n + i, i)
  }

  lemma NoStepsYet<F(!new)>(K: Field<F>, M: Rows<F>, n: nat)
    requires Shape(M, n, n)
    ensures AfterSteps(K, M, Augment(M, Identity(K, n)), n, 0)
  {
  }

  lemma OneMoreStep<F(!new)>(K: Field<F>, M: Rows<F>, A: Rows<F>, n: nat, k: nat)
    requires K.Lawful() && Shape(M, n, n) && k < n && AfterSteps(K, M, A, n, k) && A[k][k] != K.zero
    ensures AfterSteps(K, M, Clear(K, A, n + n, k), n, k + 1)
  {
    var B := Clear(K, A, n + n, k);
    ClearUnitColumns(K, A, n + n, k);
    forall i | k < i < n ensures StillUnit(K, B, n, i) {
      assert StillUnit(K, A, n, i);
      ClearKeepsColumn(K, A, n + n, k, n + i);
    }
    ClearKernel(K, A, n + n, k);
  }

  /** Each entry on the left is the right block's row against M's column: A == [T M | T]. */
  lemma LeftIsProduct<F(!new)>(K: Field<F>, M: Rows<F>, A: Rows<F>, n: nat, k: nat, r: nat, c: nat)
    requires K.Lawful() && Shape(M, n, n) && k <= n && AfterSteps(K, M, A, n, k) && r < n && c < n
    ensures A[r][c] == Dot(K, A[r][n..], Column(M, n, c), n)
  {
    var e, m := Unit(K, n, c), Column(M, n, c);
    ApplyUnit(K, M, n, c);
    IdentityColumns(K, n);
    ApplyIdentity(K, Identity(K, n), n, m);
    KernelOfAugment(K, M, Identity(K, n), n, n, e, m);
    assert Kernel(K, A, n + n, e + m);
    assert A[r] == A[r][..n] + A[r][n..];
    DotAppend(K, A[r][..n], A[r][n..], e, m, n);
    DotUnit(K, A[r][..n], n, c);
    AddToZero(K, A[r][c], Dot(K, A[r][n..], m, n));
  }

  lemma ZeroDiagonalDepends<F(!new)>(K: Field<F>, M: Rows<F>, A: Rows<F>, n: nat, k: nat)
    requires K.Lawful() && Shape(M, n, n) && k < n && AfterSteps(K, M, A, n, k) && A[k][k] == K.zero
    ensures DependsOnAbove(K, M, n, k)
  {
    var l := A[k][n..n + k];
    forall c | 0 <= c <= k ensures M[k][c] == Dot(K, l, Column(M, n, c), k) {
      ZeroRowCombines(K, M, A, n, k, c);
    }
    assert CombinesTo(K, M, n, k, l);
  }

  lemma ZeroRowCombines<F(!new)>(K: Field<F>, M: Rows<F>, A: Rows<F>, n: nat, k: nat, c: nat)
    requires K.Lawful() && Shape(M, n, n) && k < n && AfterSteps(K, M, A, n, k) && A[k][k] == K.zero && c <= k
    ensures M[k][c] == Dot(K, A[k][n..n + k], Column(M, n, c), k)
  {
    var t, l, m := A[k][n..], A[k][n..n + k], Column(M, n, c);
    forall i | k <= i < n ensures t[i] == if i == k then K.one else K.zero {
      assert StillUnit(K, A, n, i);
    }
    LeftIsProduct(K, M, A, n, k, k, c);
    DotTruncate(K, t, m, k + 1, n);
    MulOne(K, M[k][c]);
    DotPrefix(K, l, m, t, m, k);
    AddToZero(K, Dot(K, l, m, k), M[k][c]);
  }

  /** Column k from the diagonal down, nothing above it. */
  function BelowDiagonal<F(!new)>(K: Field<F>, A: Rows<F>, n: nat, w: nat, k: nat): (y: Vector<F>)
    requires Shape(A, n, w) && k < w
    ensures |y| == n && forall i :: 0 <= i < n ==> y[i] == if i < k then K.zero else A[i][k]
  {
    seq(n, i requires 0 <= i < n => if i < k then K.zero else A[i][k])
  }

  /** The null vector of column k, completed on the right, solves the reduced system. */
  lemma NullVectorCompletes<F(!new)>(K: Field<F>, A: Rows<F>, n: nat, k: nat, i: nat)
    requires K.Lawful() && k < n && TwoSided(K, A, n, k) && i < n
    ensures Dot(K, A[i], NullVector(K, A, n + n, k)[..n] + BelowDiagonal(K, A, n, n + n, k), n + n) == K.zero
  {
    var v, y, o := NullVector(K, A, n + n, k), BelowDiagonal(K, A, n, n + n, k), Zeros(K, n);
    var x, left, right := v[..n], A[i][..n], A[i][n..];
    NullVectorDot(K, A, n + n, k, i);
    assert A[i] == left + right && v == x + o;
    DotAppend(K, left, right, x, o, n);
    DotVanishes(K, right, o, n);
    AddZero(K, Dot(K, left, x, n));
    DotAppend(K, left, right, x, y, n);
    TailDot(K, A, n, k, i, y);
    AddSelf(K, y[i]);
  }

  /** M's rows above k send the null vector of column k to zero; row k meets it in the diagonal entry. */
  lemma NullVectorOfM<F(!new)>(K: Field<F>, M: Rows<F>, A: Rows<F>, n: nat, k: nat, r: nat)
    requires K.Lawful() && Shape(M, n, n) && k < n && AfterSteps(K, M, A, n, k) && r <= k
    ensures Dot(K, M[r], NullVector(K, A, n + n, k)[..n], n) == if r < k then K.zero else A[k][k]
  {
    var x, y := NullVector(K, A, n + n, k)[..n], BelowDiagonal(K, A, n, n + n, k);
    forall i | 0 <= i < n ensures Dot(K, A[i], x + y, n + n) == K.zero {
      NullVectorCompletes(K, A, n, k, i);
    }
    assert Kernel(K, A, n + n, x + y);
    KernelOfAugment(K, M, Identity(K, n), n, n, x, y);
    IdentityColumns(K, n);
    ApplyIdentity(K, Identity(K, n), n, y);
    assert Apply(K, M, n, x)[r] == y[r];
  }

  /** The right block sends a vector with nothing in its first k entries to itself. */
  lemma TailDot<F(!new)>(K: Field<F>, A: Rows<F>, n: nat, k: nat, i: nat, y: Vector<F>)
    requires K.Lawful() && k < n && TwoSided(K, A, n, k) && i < n
    requires |y| == n && forall j :: 0 <= j < k ==> y[j] == K.zero
    ensures Dot(K, A[i][n..], y, n) == y[i]
  {
    forall j | 0 <= j < n && j != i ensures A[i][n..][j] == K.zero || y[j] == K.zero {
      if j >= k { assert StillUnit(K, A, n, j); }
    }
    DotSingle(K, A[i][n..], y, n, i);
    if i < k {
      MulZero(K, A[i][n..][i]);
    } else {
      assert StillUnit(K, A, n, i);
      MulOne(K, y[i]);
    }
  }

  lemma NonzeroDiagonalIndependent<F(!new)>(K: Field<F>, M: Rows<F>, A: Rows<F>, n: nat, k: nat)
    requires K.Lawful() && Shape(M, n, n) && k < n && AfterSteps(K, M, A, n, k) && A[k][k] != K.zero
    ensures !DependsOnAbove(K, M, n, k)
  {
    var x := NullVector(K, A, n + n, k)[..n];
    NullVectorOfM(K, M, A, n, k, k);
    if l: Vector<F> {:trigger CombinesTo(K, M, n, k, l)} :| |l| == k && CombinesTo(K, M, n, k, l) {
      forall r | 0 <= r <= k ensures Dot(K, M[r], x, k + 1) == Dot(K, M[r], x, n) {
        DotTruncate(K, M[r], x, k + 1, n);
      }
      forall r | 0 <= r < k ensures Dot(K, M[r], x, k + 1) == K.zero {
        NullVectorOfM(K, M, A, n, k, r);
      }
      CombinationVanishes(K, M, n, M[k], l, x, k, k + 1);
      assert false;
    }
  }

  /** A combination of rows that each send x to zero sends x to zero. */
  lemma {:induction false} CombinationVanishes<F(!new)>(
    K: Field<F>, M: Rows<F>, n: nat, t: Vector<F>, l: Vector<F>, x: Vector<F>, k: nat, m: nat)
    requires K.Lawful() && Shape(M, n, n) && k <= n && k <= |l| && m <= n && |x| == n && m <= |t|
    requires forall c :: 0 <= c < m ==> t[c] == Dot(K, l, Column(M, n, c), k)
    requires forall r :: 0 <= r < k ==> Dot(K, M[r], x, m) == K.zero
    ensures Dot(K, t, x, m) == K.zero
    decreases k
  {
    if k == 0 {
      DotVanishes(K, t, x, m);
    } else {
      var s := seq(m, c requires 0 <= c < m => Dot(K, l, Column(M, n, c), k - 1));
      CombinationVanishes(K, M, n, s, l, x, k - 1, m);
      DotAddScaled(K, t, s, l[k - 1], M[k - 1], x, m);
      MulZero(K, l[k - 1]);
      AddZero(K, K.zero);
    }
  }

  ghost predicate FirstDependent<F(!new)>(K: Field<F>, M: Rows<F>, n: nat, k: nat)
    requires Shape(M, n, n)
  {
    k < n && DependsOnAbove(K, M, n, k) && forall j :: 0 <= j < k ==> !DependsOnAbove(K, M, n, j)
  }

  lemma {:induction false} UnpivotedFrom<F(!new)>(
    K: Field<F>, M: Rows<F>, A: Rows<F>, B: Rows<F>, n: nat, w: nat, k: nat)
    requires K.Lawful() && Shape(M, n, n) && k <= n && AfterSteps(K, M, A, n, k)
    requires |B| == n && SameLeft(A, B, n + n, w)
    requires forall j :: 0 <= j < k ==> !DependsOnAbove(K, M, n, j)
    ensures match Unpivoted(K, B, w, k)
            case Reduced(_) => forall j :: 0 <= j < n ==> !DependsOnAbove(K, M, n, j)
            case Singular(bad) => FirstDependent(K, M, n, bad)
    decreases n - k
  {
    if k < n {
      if A[k][k] == K.zero {
        ZeroDiagonalDepends(K, M, A, n, k);
      } else {
        NonzeroDiagonalIndependent(K, M, A, n, k);
        OneMoreStep(K, M, A, n, k);
        ClearSameLeft(K, A, B, n + n, w, k);
        UnpivotedFrom(K, M, Clear(K, A, n + n, k), Clear(K, B, w, k), n, w, k + 1);
      }
    }
  }

  /** Unpivoted elimination fails at row k exactly when k is the first row that
      depends on the rows above it over its leading block. */
  lemma UnpivotedFailsAt<F(!new)>(K: Field<F>, M: Rows<F>, R: Rows<F>, n: nat, w: nat, k: nat)
    requires K.Lawful() && Shape(M, n, n) && Shape(R, n, w)
    ensures Unpivoted(K, Augment(M, R), n + w, 0) == Singular(k) <==> FirstDependent(K, M, n, k)
  {
    NoStepsYet(K, M, n);
    UnpivotedFrom(K, M, Augment(M, Identity(K, n)), Augment(M, R), n, n + w, 0);
  }

  /** Unpivoted elimination succeeds exactly when no row depends on those above it. */
  lemma UnpivotedSucceeds<F(!new)>(K: Field<F>, M: Rows<F>, R: Rows<F>, n: nat, w: nat)
    requires K.Lawful() && Shape(M, n, n) && Shape(R, n, w)
    ensures Unpivoted(K, Augment(M, R), n + w, 0).Reduced? <==> forall k :: 0 <= k < n ==> !DependsOnAbove(K, M, n, k)
  {
    NoStepsYet(K, M, n);
    UnpivotedFrom(K, M, Augment(M, Identity(K, n)), Augment(M, R), n, n + w, 0);
  }
}
