/** Which input row a singular matrix is reported for. */
module SingularRows {
  import opened Fields
  import opened Linear
  import opened Elimination

  /** The rows named first, up to the k-th, all meet z in zero. */
  ghost predicate Annul<F(!new)>(K: Field<F>, A: Rows<F>, w: nat, named: seq<nat>, k: nat, z: Vector<F>)
    requires Shape(A, |A|, w) && |z| == w && k <= |named| && forall i :: 0 <= i < |named| ==> named[i] < |A|
  {
    forall i :: 0 <= i < k ==> Dot(K, A[named[i]], z, w) == K.zero
  }

  ghost predicate Solves<F(!new)>(K: Field<F>, B: Rows<F>, w: nat, k: nat, z: Vector<F>)
    requires Shape(B, |B|, w) && |z| == w && k <= |B|
  {
    forall i :: 0 <= i < k ==> Dot(K, B[i], z, w) == K.zero
  }

  ghost predicate Permutes(o: seq<nat>, n: nat) {
    |o| == n && (forall i :: 0 <= i < n ==> o[i] < n) && forall i, j :: 0 <= i < j < n ==> o[i] != o[j]
  }

  ghost function Naturals(n: nat): (o: seq<nat>)
    ensures Permutes(o, n) && forall i :: 0 <= i < n ==> o[i] == i
  {
    seq(n, i requires 0 <= i => i)
  }

  /** After k steps B's first k rows stand for the input rows used as pivots, and modulo those each other row of B is
      the input row it came from. */
  ghost predicate Tracks<F(!new)>(K: Field<F>, A: Rows<F>, B: Rows<F>, w: nat, o: seq<nat>, k: nat) {
    && Shape(A, |A|, w) && Shape(B, |A|, w) && k <= |A| && Permutes(o, |A|)
    && forall z: Vector<F> {:trigger Annul(K, A, w, o, k, z)} :: |z| == w ==> TracksAt(K, A, B, w, o, k, z)
  }

  ghost predicate TracksAt<F(!new)>(K: Field<F>, A: Rows<F>, B: Rows<F>, w: nat, o: seq<nat>, k: nat, z: Vector<F>)
    requires Shape(A, |A|, w) && Shape(B, |A|, w) && k <= |A| && Permutes(o, |A|) && |z| == w
  {
    && (Annul(K, A, w, o, k, z) <==> Solves(K, B, w, k, z))
    && (Annul(K, A, w, o, k, z) ==> forall r :: k <= r < |A| ==> Dot(K, B[r], z, w) == Dot(K, A[o[r]], z, w))
  }

  lemma SwapTracks<F(!new)>(K: Field<F>, A: Rows<F>, B: Rows<F>, w: nat, o: seq<nat>, k: nat, p: nat)
    requires Tracks(K, A, B, w, o, k) && k <= p < |A|
    ensures Tracks(K, A, Swap(B, k, p), w, Swap(o, k, p), k)
  {
    var o' := Swap(o, k, p);
    forall z: Vector<F> | |z| == w ensures TracksAt(K, A, Swap(B, k, p), w, o', k, z) {
      assert Annul(K, A, w, o', k, z) == Annul(K, A, w, o, k, z) && TracksAt(K, A, B, w, o, k, z);
    }
  }

  lemma ClearTracks<F(!new)>(K: Field<F>, A: Rows<F>, B: Rows<F>, w: nat, o: seq<nat>, k: nat)
    requires K.Lawful() && Tracks(K, A, B, w, o, k) && k < |A| <= w && B[k][k] != K.zero
    ensures Tracks(K, A, Clear(K, B, w, k), w, o, k + 1)
  {
    forall z: Vector<F> | |z| == w ensures TracksAt(K, A, Clear(K, B, w, k), w, o, k + 1, z) {
      assert Annul(K, A, w, o, k, z) ==> TracksAt(K, A, B, w, o, k, z);
      ClearTracksAt(K, A, B, w, o, k, z);
    }
  }

  /** One step meets z in zero in the pivot row when the rows before it did, and then in the same values elsewhere. */
  lemma ClearDots<F(!new)>(K: Field<F>, B: Rows<F>, w: nat, k: nat, z: Vector<F>)
    requires K.Lawful() && Shape(B, |B|, w) && k < |B| <= w && |z| == w && B[k][k] != K.zero
    ensures var C := Clear(K, B, w, k);
            && (Dot(K, C[k], z, w) == K.zero <==> Dot(K, B[k], z, w) == K.zero)
            && (Dot(K, C[k], z, w) == K.zero ==>
                  forall r :: 0 <= r < |B| && r != k ==> Dot(K, C[r], z, w) == Dot(K, B[r], z, w))
  {
    var C := Clear(K, B, w, k);
    InvNonZero(K, B[k][k]);
    ClearDot(K, B, w, k, z, k);
    MulToZero(K, Inv(K, B[k][k]), Dot(K, B[k], z, w));
    if Dot(K, C[k], z, w) == K.zero {
      forall r | 0 <= r < |B| && r != k ensures Dot(K, C[r], z, w) == Dot(K, B[r], z, w) {
        ClearDot(K, B, w, k, z, r);
        MulZero(K, B[r][k]);
        AddZero(K, Dot(K, B[r], z, w));
      }
    }
  }

  lemma ClearTracksAt<F(!new)>(K: Field<F>, A: Rows<F>, B: Rows<F>, w: nat, o: seq<nat>, k: nat, z: Vector<F>)
    requires K.Lawful() && Shape(A, |A|, w) && Shape(B, |A|, w) && k < |A| <= w && Permutes(o, |A|) && |z| == w
    requires TracksAt(K, A, B, w, o, k, z) && B[k][k] != K.zero
    ensures TracksAt(K, A, Clear(K, B, w, k), w, o, k + 1, z)
  {
    var C := Clear(K, B, w, k);
    ClearDots(K, B, w, k, z);
    if Dot(K, C[k], z, w) == K.zero {
      assert Solves(K, C, w, k, z) == Solves(K, B, w, k, z);
    }
    assert Solves(K, C, w, k + 1, z) == (Solves(K, C, w, k, z) && Dot(K, C[k], z, w) == K.zero);
    assert Annul(K, A, w, o, k + 1, z) == (Annul(K, A, w, o, k, z) && Dot(K, A[o[k]], z, w) == K.zero);
  }

  /** z is zero from column k on. */
  ghost predicate ZeroFrom<F(!new)>(K: Field<F>, z: Vector<F>, k: nat) { forall j :: k <= j < |z| ==> z[j] == K.zero }

  /** Row `bad` is not one of those used; over the first |used| + 1 columns it is a combination of them, so that what
      they all annul it annuls; and over the first |used| columns they are independent. */
  ghost predicate Depends<F(!new)>(K: Field<F>, A: Rows<F>, w: nat, used: seq<nat>, bad: nat) {
    && Shape(A, |A|, w) && bad < |A| && |used| < w
    && (forall i :: 0 <= i < |used| ==> used[i] < |A| && used[i] != bad)
    && (forall z: Vector<F> {:trigger Annul(K, A, w, used, |used|, z)} ::
          |z| == w && ZeroFrom(K, z, |used| + 1) && Annul(K, A, w, used, |used|, z) ==>
            Dot(K, A[bad], z, w) == K.zero)
    && (forall z: Vector<F> {:trigger Annul(K, A, w, used, |used|, z)} ::
          |z| == w && ZeroFrom(K, z, |used|) && Annul(K, A, w, used, |used|, z) ==> ZeroFrom(K, z, 0))
  }

  lemma NoPivotDepends<F(!new)>(K: Field<F>, A: Rows<F>, B: Rows<F>, w: nat, o: seq<nat>, k: nat)
    requires K.Lawful() && Tracks(K, A, B, w, o, k) && k < |A| <= w && UnitColumns(K, B, w, k) && B[k][k] == K.zero
    ensures Depends(K, A, w, o[..k], o[k])
  {
    forall z: Vector<F> | |z| == w && ZeroFrom(K, z, k + 1) && Annul(K, A, w, o[..k], k, z)
      ensures Dot(K, A[o[k]], z, w) == K.zero && (ZeroFrom(K, z, k) ==> ZeroFrom(K, z, 0))
    {
      assert Annul(K, A, w, o, k, z) && TracksAt(K, A, B, w, o, k, z);
      DotTruncate(K, B[k], z, k + 1, w);
      DotVanishes(K, B[k], z, k + 1);
      if ZeroFrom(K, z, k) {
        forall j | 0 <= j < k ensures z[j] == K.zero {
          assert Dot(K, B[j], z, w) == K.zero;
          DotTruncate(K, B[j], z, k, w);
          DotSingle(K, B[j], z, k, j);
          MulOne(K, z[j]);
        }
      }
    }
  }

  /** A singular matrix is reported for an input row that depends on the rows already used as pivots. */
  lemma {:induction false} PivotedNames<F(!new)>(K: Field<F>, A: Rows<F>, B: Rows<F>, w: nat, o: seq<nat>, col: nat)
    returns (used: seq<nat>)
    requires K.Lawful() && Tracks(K, A, B, w, o, col) && |A| <= w && UnitColumns(K, B, w, col)
    ensures Pivoted(K, B, w, o, col).Singular? ==> Depends(K, A, w, used, Pivoted(K, B, w, o, col).badRow)
    decreases |A| - col
  {
    used := [];
    if col < |A| {
      var p := FindPivot(K, B, w, col, col);
      if p == |A| {
        NoPivotDepends(K, A, B, w, o, col);
        used := o[..col];
      } else {
        SwapTracks(K, A, B, w, o, col, p);
        ClearTracks(K, A, Swap(B, col, p), w, Swap(o, col, p), col);
        PivotStep(K, B, w, col, p);
        used := PivotedNames(K, A, Clear(K, Swap(B, col, p), w, col), w, Swap(o, col, p), col + 1);
      }
    }
  }

  /** ... whatever the matrix. */
  lemma SingularRow<F(!new)>(K: Field<F>, A: Rows<F>, w: nat, origins: seq<nat>) returns (used: seq<nat>)
    requires K.Lawful() && Shape(A, |A|, w) && |A| <= w && origins == Naturals(|A|)
    ensures Pivoted(K, A, w, origins, 0).Singular? ==> Depends(K, A, w, used, Pivoted(K, A, w, origins, 0).badRow)
  {
    forall z: Vector<F> | |z| == w ensures TracksAt(K, A, A, w, origins, 0, z) {
      assert Annul(K, A, w, origins, 0, z) && Solves(K, A, w, 0, z);
    }
    used := PivotedNames(K, A, A, w, origins, 0);
  }
}
