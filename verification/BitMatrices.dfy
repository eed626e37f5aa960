/** Inverting a 32x32 bit matrix by Gauss-Jordan elimination on machine words,
    as an instance of pivoted elimination over GF(2). */
module BitMatrices {
  import opened Options
  import opened Fields
  import opened Linear
  import opened Elimination
  import opened Inversion
  import opened Words

  /** Row r holds bit r of every column. */
  function RowsOf(mat: Columns): (A: Rows<bool>)
    ensures Shape(A, 32, 32) && forall r, c :: 0 <= r < 32 && 0 <= c < 32 ==> A[r][c] == mat[c][r]
  {
    seq(32, r requires 0 <= r < 32 => seq(32, c requires 0 <= c < 32 => mat[c][r]))
  }

  lemma {:induction false} SumDot(mat: Columns, v: Word, n: nat, r: nat)
    requires n <= 32 && r < 32
    ensures Sum(mat, v, n)[r] == Dot(GF2, RowsOf(mat)[r], v, n)
  {
    if n > 0 { SumDot(mat, v, n - 1, r); }
  }

  lemma ImageApply(mat: Columns, v: Word)
    ensures Image(mat, v) == Apply(GF2, RowsOf(mat), 32, v)
  {
    forall r | 0 <= r < 32 ensures Image(mat, v)[r] == Dot(GF2, RowsOf(mat)[r], v, 32) {
      SumDot(mat, v, 32, r);
    }
  }

  /** N undoes mat, from either side. */
  ghost predicate Undoes(N: Columns, mat: Columns) {
    forall v: Word :: Image(N, Image(mat, v)) == v && Image(mat, Image(N, v)) == v
  }

  /** The rows hold the columns before `column`, and `row` bits of that one. */
  ghost predicate Copied(mat: Columns, rows: seq<Word>, column: nat, row: nat) {
    && |rows| == 32
    && forall r, c :: 0 <= r < 32 && 0 <= c < 32 ==>
       rows[r][c] == ((c < column || (c == column && r < row)) && mat[c][r])
  }

  method Transpose(mat: Columns) returns (rows: array<Word>)
    ensures fresh(rows) && rows.Length == 32 && rows[..] == RowsOf(mat)
  {
    rows := new Word[32](_ => Zero());
    for column := 0 to 32
      invariant Copied(mat, rows[..], column, 0)
    {
      for row := 0 to 32
        invariant Copied(mat, rows[..], column, row)
      {
        if mat[column][row] {
          rows[row] := rows[row][column := true];
        }
      }
    }
    forall r | 0 <= r < 32 ensures rows[r] == RowsOf(mat)[r] {
    }
  }

  method FindSet(left: array<Word>, column: nat) returns (pivot: nat)
    requires left.Length == 32 && column < 32
    ensures pivot == FindPivot(GF2, left[..], 32, column, column)
  {
    pivot := column;
    while pivot < 32 && !left[pivot][column]
      invariant column <= pivot <= 32
      invariant FindPivot(GF2, left[..], 32, column, column) == FindPivot(GF2, left[..], 32, column, pivot)
    {
      pivot := pivot + 1;
    }
  }

  function Cleared(words: seq<Word>, keys: seq<Word>, column: nat, row: nat): Word
    requires |words| == |keys| == 32 && column < 32 && row < 32
  {
    if row != column && keys[row][column] then Xor(words[row], words[column]) else words[row]
  }

  method SwapRows(left: array<Word>, right: array<Word>, column: nat, pivot: nat)
    requires left.Length == right.Length == 32 && left != right && column < 32 && pivot < 32
    modifies left, right
    ensures left[column] == old(left[pivot])
    ensures Augment(left[..], right[..]) == Swap(old(Augment(left[..], right[..])), column, pivot)
  {
    left[column], left[pivot] := left[pivot], left[column];
    right[column], right[pivot] := right[pivot], right[column];
  }

  method ClearColumn(left: array<Word>, right: array<Word>, column: nat)
    requires left.Length == right.Length == 32 && left != right && column < 32 && left[column][column]
    modifies left, right
    ensures Augment(left[..], right[..]) == Clear(GF2, old(Augment(left[..], right[..])), 64, column)
  {
    ghost var L, R := left[..], right[..];
    for row := 0 to 32
      invariant forall k :: 0 <= k < row ==> left[k] == Cleared(L, L, column, k) && right[k] == Cleared(R, L, column, k)
      invariant forall k :: row <= k < 32 ==> left[k] == L[k] && right[k] == R[k]
      invariant left[column] == L[column] && right[column] == R[column]
    {
      if row != column && left[row][column] {
        left[row] := Xor(left[row], left[column]);
        right[row] := Xor(right[row], right[column]);
      }
    }
    forall k | 0 <= k < 32 ensures Augment(left[..], right[..])[k] == Clear(GF2, Augment(L, R), 64, column)[k] {
      ClearedRow(L, R, column, k);
    }
  }

  lemma ClearedRow(L: seq<Word>, R: seq<Word>, column: nat, k: nat)
    requires |L| == |R| == 32 && column < 32 && k < 32 && L[column][column]
    ensures Cleared(L, L, column, k) + Cleared(R, L, column, k) == Clear(GF2, Augment(L, R), 64, column)[k]
  {
    var A := Augment(L, R);
    var p := PivotRow(GF2, A, 64, column);
    assert p == A[column];
  }

  method TransposeBack(right: array<Word>) returns (inverse: Columns)
    requires right.Length == 32
    ensures RowsOf(inverse) == right[..]
  {
    var columns: seq<Word> := [];
    for input := 0 to 32
      invariant |columns| == input && forall c, r :: 0 <= c < input && 0 <= r < 32 ==> columns[c][r] == right[r][c]
    {
      var column := Zero();
      for output := 0 to 32
        invariant forall r :: 0 <= r < 32 ==> column[r] == (r < output && right[r][input])
      {
        if right[output][input] {
          column := column[output := true];
        }
      }
      columns := columns + [column];
    }
    inverse := columns;
    forall r | 0 <= r < 32 ensures RowsOf(inverse)[r] == right[r] {
    }
  }

  /** Some nonzero word is sent to zero: the matrix loses information. */
  ghost predicate Collapses(mat: Columns) {
    exists v: Word :: v != Zero() && Image(mat, v) == Zero()
  }

  /** An inverse is found for every matrix that has one, and none for any other. */
  method Invert(mat: Columns) returns (inverse: Option<Columns>)
    ensures inverse.Some? ==> Undoes(inverse.value, mat)
    ensures inverse == None <==> Collapses(mat)
  {
    var left := Transpose(mat);
    var right := new Word[32](i => OneHot(i));
    ghost var A := Augment(left[..], right[..]);
    ghost var all: seq<nat> := seq(32, i => i);
    ghost var origins := all;
    assert forall r :: 0 <= r < 32 ==> right[r] == Identity(GF2, 32)[r];
    assert right[..] == Identity(GF2, 32);
    for column := 0 to 32
      invariant |origins| == 32
      invariant Pivoted(GF2, Augment(left[..], right[..]), 64, origins, column) == Pivoted(GF2, A, 64, all, 0)
    {
      var pivot := FindSet(left, column);
      SameFind(left[..], right[..], column);
      if pivot == 32 {
        Lost(mat, all);
        return None;
      }
      SwapRows(left, right, column, pivot);
      origins := Swap(origins, column, pivot);
      ClearColumn(left, right, column);
    }
    var columns := TransposeBack(right);
    Found(mat, left[..], right[..], all, columns);
    return Some(columns);
  }

  lemma SameFind(L: seq<Word>, R: seq<Word>, column: nat)
    requires |L| == |R| == 32 && column < 32
    ensures FindPivot(GF2, Augment(L, R), 64, column, column) == FindPivot(GF2, L, 32, column, column)
  {
    FindPivotSameLeft(GF2, Augment(L, R), L, 64, 32, column, column);
  }

  lemma Lost(mat: Columns, all: seq<nat>)
    requires |all| == 32 && Pivoted(GF2, Augment(RowsOf(mat), Identity(GF2, 32)), 64, all, 0).Singular?
    ensures Collapses(mat)
  {
    GF2Lawful();
    var v: Word := PivotedNull(GF2, RowsOf(mat), 32, all);
    ImageApply(mat, v);
    assert Zeros(GF2, 32) == Zero();
  }

  lemma Found(mat: Columns, L: seq<Word>, R: seq<Word>, all: seq<nat>, N: Columns)
    requires |L| == |R| == 32 && |all| == 32 && RowsOf(N) == R
    requires Pivoted(GF2, Augment(RowsOf(mat), Identity(GF2, 32)), 64, all, 0) == Reduced(Augment(L, R))
    ensures Undoes(N, mat) && !Collapses(mat)
  {
    GF2Lawful();
    var B := Augment(L, R);
    PivotedInverse(GF2, RowsOf(mat), 32, all, B);
    RightOfAugment(L, R, 32, 32);
    InverseUndoes(mat, N);
    ImageZero(N);
  }

  lemma InverseUndoes(mat: Columns, N: Columns)
    requires Inverse(GF2, RowsOf(mat), RowsOf(N), 32)
    ensures Undoes(N, mat)
  {
    forall v: Word ensures Image(N, Image(mat, v)) == v && Image(mat, Image(N, v)) == v {
      assert Undone(GF2, RowsOf(mat), RowsOf(N), 32, v);
      ImageApply(mat, v);
      ImageApply(N, Image(mat, v));
      ImageApply(N, v);
      ImageApply(mat, Image(N, v));
    }
  }
}
