/** 32-bit words as vectors over GF(2), least significant bit first, and the
    32x32 matrices the checksum code keeps as one output word per input bit. */
module Words {
  import opened Fields
  import opened Linear
  import opened Elimination
  import opened Inversion
  import opened Options

  type Word = w: seq<bool> | |w| == 32 witness seq(32, _ => false)

  type Columns = m: seq<Word> | |m| == 32 witness seq(32, _ => seq(32, _ => false))

  const GF2: Field<bool> := Field(false, true, (a, b) => a != b, (a, b) => a && b, a => a)

  lemma GF2Lawful()
    ensures GF2.Lawful()
  {
    forall a: bool, b: bool, c: bool ensures GF2.LawsOf(a, b, c) {
    }
  }

  function Zero(): Word { seq(32, _ => false) }

  function Ones(): Word { seq(32, _ => true) }

  function Xor(a: Word, b: Word): (c: Word)
    ensures forall i :: 0 <= i < 32 ==> c[i] == (a[i] != b[i])
  {
    seq(32, i requires 0 <= i < 32 => a[i] != b[i])
  }

  /** v >> 1. */
  function Half(v: Word): Word { v[1..] + [false] }

  /** 1 << i. */
  function OneHot(i: nat): Word { seq(32, j => j == i) }

  function IdentityColumns32(): Columns { seq(32, i requires 0 <= i < 32 => OneHot(i)) }

  /** Exclusive or of the columns whose bit of v is set, among the first n. */
  function Sum(mat: Columns, v: Word, n: nat): Word
    requires n <= 32
  {
    if n == 0 then Zero()
    else if v[n - 1] then Xor(Sum(mat, v, n - 1), mat[n - 1])
    else Sum(mat, v, n - 1)
  }

  /** The matrix applied to v. */
  function Image(mat: Columns, v: Word): Word { Sum(mat, v, 32) }

  /** crc32_mat_vec: shift the vector out, folding in a column for each set bit. */
  method MatVec(mat: Columns, vec: Word) returns (result: Word)
    ensures result == Image(mat, vec)
  {
    result := Zero();
    var v, i := vec, 0;
    while v != Zero()
      invariant 0 <= i <= 32 && result == Sum(mat, vec, i)
      invariant v == vec[i..] + seq(i, _ => false) && (i == 32 ==> v == Zero())
      decreases 32 - i
    {
      if v[0] {
        result := Xor(result, mat[i]);
      }
      v, i := Half(v), i + 1;
    }
    forall j | i <= j < 32 ensures !vec[j] { assert vec[j] == v[j - i]; }
    SumPast(mat, vec, i, 32);
  }

  lemma {:induction false} SumPast(mat: Columns, v: Word, i: nat, n: nat)
    requires i <= n <= 32 && forall j :: i <= j < n ==> !v[j]
    ensures Sum(mat, v, n) == Sum(mat, v, i)
  {
    if i < n { SumPast(mat, v, i, n - 1); }
  }

  // The image is linear.

  lemma XorLaws(a: Word, b: Word, c: Word)
    ensures Xor(a, Zero()) == a && Xor(Zero(), a) == a && Xor(a, a) == Zero() && Xor(a, b) == Xor(b, a)
    ensures Xor(Xor(a, b), c) == Xor(a, Xor(b, c))
    ensures Xor(Xor(a, b), c) == Xor(Xor(a, c), b)
  {
  }

  lemma {:induction false} SumXor(mat: Columns, a: Word, b: Word, n: nat)
    requires n <= 32
    ensures Sum(mat, Xor(a, b), n) == Xor(Sum(mat, a, n), Sum(mat, b, n))
  {
    if n > 0 {
      SumXor(mat, a, b, n - 1);
      var s, t, m := Sum(mat, a, n - 1), Sum(mat, b, n - 1), mat[n - 1];
      XorLaws(s, m, t);
      XorLaws(s, t, m);
      XorLaws(Xor(s, t), m, m);
    }
  }

  lemma ImageXor(mat: Columns, a: Word, b: Word)
    ensures Image(mat, Xor(a, b)) == Xor(Image(mat, a), Image(mat, b))
  {
    SumXor(mat, a, b, 32);
  }

  lemma ImageZero(mat: Columns)
    ensures Image(mat, Zero()) == Zero()
  {
    SumPast(mat, Zero(), 0, 32);
  }

  lemma {:induction false} SumIdentity(v: Word, n: nat)
    requires n <= 32
    ensures forall i :: 0 <= i < 32 ==> Sum(IdentityColumns32(), v, n)[i] == (i < n && v[i])
  {
    if n > 0 { SumIdentity(v, n - 1); }
  }

  lemma ImageIdentity(v: Word)
    ensures Image(IdentityColumns32(), v) == v
  {
    SumIdentity(v, 32);
  }

  function Compose(A: Columns, B: Columns): Columns { seq(32, n requires 0 <= n < 32 => Image(A, B[n])) }

  lemma {:induction false} SumCompose(A: Columns, B: Columns, v: Word, n: nat)
    requires n <= 32
    ensures Sum(Compose(A, B), v, n) == Image(A, Sum(B, v, n))
  {
    if n == 0 {
      ImageZero(A);
    } else {
      SumCompose(A, B, v, n - 1);
      ImageXor(A, Sum(B, v, n - 1), B[n - 1]);
    }
  }

  lemma ImageCompose(A: Columns, B: Columns, v: Word)
    ensures Image(Compose(A, B), v) == Image(A, Image(B, v))
  {
    SumCompose(A, B, v, 32);
  }

  /** The columns A * B[n], as the squaring and accumulating loops build them. */
  method Multiply(A: Columns, B: Columns) returns (C: Columns)
    ensures C == Compose(A, B)
  {
    var c: seq<Word> := [];
    for n := 0 to 32
      invariant |c| == n && forall k :: 0 <= k < n ==> c[k] == Compose(A, B)[k]
    {
      var w := MatVec(A, B[n]);
      c := c + [w];
    }
    C := c;
    assert C == Compose(A, B);
  }
}
