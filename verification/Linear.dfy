/** Vectors, inner products and homogeneous systems over a characteristic-two field. */
module Linear {
  import opened Fields

  type Vector<F> = seq<F>
  type Rows<F> = seq<seq<F>>

  /** Sum over j < n of r[j] * v[j]. */
  function Dot<F(!new)>(K: Field<F>, r: Vector<F>, v: Vector<F>, n: nat): F
    requires n <= |r| && n <= |v|
  {
    if n == 0 then K.zero
    else Add(K, Dot(K, r, v, n - 1), Mul(K, r[n - 1], v[n - 1]))
  }

  function Zeros<F(!new)>(K: Field<F>, n: nat): (v: Vector<F>)
    ensures |v| == n && forall j :: 0 <= j < n ==> v[j] == K.zero
  {
    seq(n, _ => K.zero)
  }

  function Unit<F(!new)>(K: Field<F>, n: nat, i: nat): (v: Vector<F>)
    ensures |v| == n && forall j :: 0 <= j < n ==> v[j] == if j == i then K.one else K.zero
  {
    seq(n, j => if j == i then K.one else K.zero)
  }

  ghost predicate Shape<F>(A: Rows<F>, n: nat, w: nat) {
    |A| == n && forall r :: 0 <= r < n ==> |A[r]| == w
  }

  /** z is a solution of the homogeneous system A z = 0. */
  ghost predicate Kernel<F(!new)>(K: Field<F>, A: Rows<F>, w: nat, z: Vector<F>)
    requires Shape(A, |A|, w) && |z| == w
  {
    forall r :: 0 <= r < |A| ==> Dot(K, A[r], z, w) == K.zero
  }

  /** A and B have the same solutions. */
  ghost predicate SameKernel<F(!new)>(K: Field<F>, A: Rows<F>, B: Rows<F>, w: nat)
    requires Shape(A, |A|, w) && Shape(B, |B|, w)
  {
    forall z: Vector<F> {:trigger Kernel(K, A, w, z)} {:trigger Kernel(K, B, w, z)} | |z| == w ::
      Kernel(K, A, w, z) <==> Kernel(K, B, w, z)
  }

  /** Column c of A is the unit vector with its one in row i. */
  ghost predicate UnitColumn<F(!new)>(K: Field<F>, A: Rows<F>, w: nat, c: nat, i: nat)
    requires Shape(A, |A|, w) && c < w
  {
    forall r :: 0 <= r < |A| ==> A[r][c] == if r == i then K.one else K.zero
  }

  /** The product of A with the vector v. */
  function Apply<F(!new)>(K: Field<F>, A: Rows<F>, w: nat, v: Vector<F>): (u: Vector<F>)
    requires Shape(A, |A|, w) && |v| == w
    ensures |u| == |A| && forall r :: 0 <= r < |A| ==> u[r] == Dot(K, A[r], v, w)
  {
    seq(|A|, r requires 0 <= r < |A| => Dot(K, A[r], v, w))
  }

  function Column<F>(A: Rows<F>, w: nat, c: nat): (v: Vector<F>)
    requires Shape(A, |A|, w) && c < w
    ensures |v| == |A| && forall r :: 0 <= r < |A| ==> v[r] == A[r][c]
  {
    seq(|A|, r requires 0 <= r < |A| => A[r][c])
  }

  // Inner products.

  lemma {:induction false} DotPrefix<F(!new)>(K: Field<F>, r: Vector<F>, v: Vector<F>, r': Vector<F>, v': Vector<F>,
                                              n: nat)
    requires n <= |r| && n <= |v| && n <= |r'| && n <= |v'|
    requires forall j :: 0 <= j < n ==> r[j] == r'[j] && v[j] == v'[j]
    ensures Dot(K, r, v, n) == Dot(K, r', v', n)
  {
    if n > 0 { DotPrefix(K, r, v, r', v', n - 1); }
  }

  lemma {:induction false} DotVanishes<F(!new)>(K: Field<F>, r: Vector<F>, v: Vector<F>, n: nat)
    requires K.Lawful() && n <= |r| && n <= |v|
    requires forall j :: 0 <= j < n ==> r[j] == K.zero || v[j] == K.zero
    ensures Dot(K, r, v, n) == K.zero
  {
    if n > 0 {
      DotVanishes(K, r, v, n - 1);
      MulZero(K, r[n - 1]);
      MulZero(K, v[n - 1]);
      AddZero(K, K.zero);
    }
  }

  /** Only term i of the sum can be other than zero. */
  lemma {:induction false} DotSingle<F(!new)>(K: Field<F>, r: Vector<F>, v: Vector<F>, n: nat, i: nat)
    requires K.Lawful() && n <= |r| && n <= |v| && i < n
    requires forall j :: 0 <= j < n && j != i ==> r[j] == K.zero || v[j] == K.zero
    ensures Dot(K, r, v, n) == Mul(K, r[i], v[i])
  {
    if i == n - 1 {
      DotVanishes(K, r, v, n - 1);
      AddZero(K, Mul(K, r[i], v[i]));
    } else {
      DotSingle(K, r, v, n - 1, i);
      MulZero(K, r[n - 1]);
      MulZero(K, v[n - 1]);
      AddZero(K, Mul(K, r[i], v[i]));
    }
  }

  /** Terms n and above vanish. */
  lemma {:induction false} DotTruncate<F(!new)>(K: Field<F>, r: Vector<F>, v: Vector<F>, n: nat, w: nat)
    requires K.Lawful() && n <= w <= |r| && w <= |v|
    requires forall j :: n <= j < w ==> r[j] == K.zero || v[j] == K.zero
    ensures Dot(K, r, v, w) == Dot(K, r, v, n)
  {
    if n < w {
      DotTruncate(K, r, v, n, w - 1);
      MulZero(K, r[w - 1]);
      MulZero(K, v[w - 1]);
      AddZero(K, Dot(K, r, v, w - 1));
    }
  }

  lemma {:induction false} DotComm<F(!new)>(K: Field<F>, r: Vector<F>, v: Vector<F>, n: nat)
    requires K.Lawful() && n <= |r| && n <= |v|
    ensures Dot(K, r, v, n) == Dot(K, v, r, n)
  {
    if n > 0 {
      DotComm(K, r, v, n - 1);
      MulComm(K, r[n - 1], v[n - 1]);
    }
  }

  lemma {:induction false} DotAppend<F(!new)>(K: Field<F>, r: Vector<F>, s: Vector<F>, x: Vector<F>, y: Vector<F>,
                                              n: nat)
    requires K.Lawful() && |r| == |x| && n <= |s| && n <= |y|
    ensures Dot(K, r + s, x + y, |r| + n) == Add(K, Dot(K, r, x, |r|), Dot(K, s, y, n))
  {
    if n == 0 {
      DotPrefix(K, r + s, x + y, r, x, |r|);
      AddZero(K, Dot(K, r, x, |r|));
    } else {
      DotAppend(K, r, s, x, y, n - 1);
      AddAssoc(K, Dot(K, r, x, |r|), Dot(K, s, y, n - 1), Mul(K, s[n - 1], y[n - 1]));
    }
  }

  /** The inner product is linear in its first argument: t == r + f * p. */
  lemma {:induction false} DotAddScaled<F(!new)>(
    K: Field<F>, t: Vector<F>, r: Vector<F>, f: F, p: Vector<F>, v: Vector<F>, n: nat)
    requires K.Lawful() && n <= |t| && n <= |r| && n <= |p| && n <= |v|
    requires forall j :: 0 <= j < n ==> t[j] == Add(K, r[j], Mul(K, f, p[j]))
    ensures Dot(K, t, v, n) == Add(K, Dot(K, r, v, n), Mul(K, f, Dot(K, p, v, n)))
  {
    if n == 0 {
      MulZero(K, f);
      AddZero(K, K.zero);
    } else {
      var j := n - 1;
      DotAddScaled(K, t, r, f, p, v, j);
      MulComm(K, t[j], v[j]);
      Distribute(K, v[j], r[j], Mul(K, f, p[j]));
      MulComm(K, v[j], r[j]);
      MulComm(K, v[j], Mul(K, f, p[j]));
      MulAssoc(K, f, p[j], v[j]);
      AddMiddle(K, Dot(K, r, v, j), Mul(K, f, Dot(K, p, v, j)), Mul(K, r[j], v[j]), Mul(K, f, Mul(K, p[j], v[j])));
      Distribute(K, f, Dot(K, p, v, j), Mul(K, p[j], v[j]));
    }
  }

  lemma {:induction false} DotScale<F(!new)>(K: Field<F>, t: Vector<F>, f: F, p: Vector<F>, v: Vector<F>, n: nat)
    requires K.Lawful() && n <= |t| && n <= |p| && n <= |v|
    requires forall j :: 0 <= j < n ==> t[j] == Mul(K, f, p[j])
    ensures Dot(K, t, v, n) == Mul(K, f, Dot(K, p, v, n))
  {
    var o := Zeros(K, n);
    forall j | 0 <= j < n ensures t[j] == Add(K, o[j], Mul(K, f, p[j])) {
      AddZero(K, Mul(K, f, p[j]));
    }
    DotAddScaled(K, t, o, f, p, v, n);
    DotVanishes(K, o, v, n);
    AddZero(K, Mul(K, f, Dot(K, p, v, n)));
  }

  /** A row meets a unit vector in its own entry. */
  lemma DotUnit<F(!new)>(K: Field<F>, r: Vector<F>, n: nat, i: nat)
    requires K.Lawful() && n <= |r| && i < n
    ensures Dot(K, r, Unit(K, n, i), n) == r[i]
  {
    DotSingle(K, r, Unit(K, n, i), n, i);
    MulOne(K, r[i]);
  }

  // Linear systems.

  lemma KernelZero<F(!new)>(K: Field<F>, A: Rows<F>, w: nat)
    requires K.Lawful() && Shape(A, |A|, w)
    ensures Kernel(K, A, w, Zeros(K, w))
  {
    forall r | 0 <= r < |A| ensures Dot(K, A[r], Zeros(K, w), w) == K.zero {
      DotVanishes(K, A[r], Zeros(K, w), w);
    }
  }

  lemma ApplyZero<F(!new)>(K: Field<F>, A: Rows<F>, w: nat)
    requires K.Lawful() && Shape(A, |A|, w)
    ensures Apply(K, A, w, Zeros(K, w)) == Zeros(K, |A|)
  {
    KernelZero(K, A, w);
  }

  /** The columns of A are the images of the unit vectors. */
  lemma ApplyUnit<F(!new)>(K: Field<F>, A: Rows<F>, w: nat, c: nat)
    requires K.Lawful() && Shape(A, |A|, w) && c < w
    ensures Apply(K, A, w, Unit(K, w, c)) == Column(A, w, c)
  {
    forall r | 0 <= r < |A| ensures Apply(K, A, w, Unit(K, w, c))[r] == A[r][c] {
      DotUnit(K, A[r], w, c);
    }
  }
}
