/** In-place elimination over matrices, as crates/par2-rs/src/matrix.rs runs it. */
module Matrices {
  import opened Arithmetic
  import opened Fields
  import opened Linear
  import opened Elimination
  import opened Inversion

  class Matrix<F(!new,==)> {
    const data: array2<F>

    constructor Filled(rows: nat, cols: nat, value: F)
      ensures Is(rows, cols) && fresh(data)
      ensures forall r, c :: 0 <= r < rows && 0 <= c < cols ==> data[r, c] == value
    {
      data := new F[rows, cols]((i, j) => value);
    }

    ghost predicate Is(rows: nat, cols: nat) {
      data.Length0 == rows && data.Length1 == cols
    }

    ghost function Row(r: nat): (row: Vector<F>)
      requires r < data.Length0
      reads data
      ensures |row| == data.Length1 && forall c :: 0 <= c < data.Length1 ==> row[c] == data[r, c]
    {
      seq(data.Length1, c requires 0 <= c < data.Length1 reads data => data[r, c])
    }

    /** The matrix as a value. */
    ghost function Value(): (A: Rows<F>)
      reads data
      ensures Shape(A, data.Length0, data.Length1)
      ensures forall r :: 0 <= r < data.Length0 ==> A[r] == Row(r)
    {
      seq(data.Length0, r requires 0 <= r < data.Length0 reads data => Row(r))
    }

    method SwapRows(i: nat, j: nat)
      requires i < data.Length0 && j < data.Length0
      modifies data
      ensures Value() == Swap(old(Value()), i, j)
    {
      for c := 0 to data.Length1
        invariant forall r, k :: 0 <= r < data.Length0 && 0 <= k < data.Length1 ==>
          data[r, k] == old(data[if k < c then if r == i then j else if r == j then i else r else r, k])
      {
        data[i, c], data[j, c] := data[j, c], data[i, c];
      }
      assert forall r :: 0 <= r < data.Length0 ==> Value()[r] == Swap(old(Value()), i, j)[r];
    }

    /** Multiply row r by f from column `from` on. */
    method ScaleRowFrom(K: Field<F>, r: nat, from: nat, f: F)
      requires r < data.Length0 && from <= data.Length1
      modifies data
      ensures Value() == old(Value())[r := old(Row(r))[..from] + ScaleRow(K, old(Row(r))[from..], f)]
    {
      for c := from to data.Length1
        invariant forall i, k :: 0 <= i < data.Length0 && 0 <= k < data.Length1 ==>
          data[i, k] == if i == r && from <= k < c then Mul(K, old(data[i, k]), f) else old(data[i, k])
      {
        data[r, c] := Mul(K, data[r, c], f);
      }
      assert Row(r) == old(Row(r))[..from] + ScaleRow(K, old(Row(r))[from..], f);
      assert forall i :: 0 <= i < data.Length0 && i != r ==> Row(i) == old(Row(i));
    }

    /** Add f times the row `tail` into row r from column `from` on. */
    method AddRowFrom(K: Field<F>, r: nat, from: nat, f: F, tail: Vector<F>)
      requires K.Lawful() && r < data.Length0 && from <= data.Length1 && |tail| == data.Length1 - from
      modifies data
      ensures Value() == old(Value())[r := old(Row(r))[..from] + AddScaled(K, old(Row(r))[from..], f, tail)]
    {
      for c := from to data.Length1
        invariant forall i, k :: 0 <= i < data.Length0 && 0 <= k < data.Length1 ==>
          data[i, k] == if i == r && from <= k < c then Add(K, old(data[i, k]), Mul(K, f, tail[k - from]))
                        else old(data[i, k])
      {
        if f == K.one {
          MulOne(K, tail[c - from]);
          data[r, c] := Add(K, data[r, c], tail[c - from]);
        } else {
          data[r, c] := Add(K, data[r, c], Mul(K, f, tail[c - from]));
        }
      }
      assert Row(r) == old(Row(r))[..from] + AddScaled(K, old(Row(r))[from..], f, tail);
      assert forall i :: 0 <= i < data.Length0 && i != r ==> Row(i) == old(Row(i));
    }

    /** A copy of row r from column `from` on. */
    method CopyRowFrom(r: nat, from: nat) returns (tail: seq<F>)
      requires r < data.Length0 && from <= data.Length1
      ensures tail == Row(r)[from..]
    {
      tail := [];
      for c := from to data.Length1
        invariant tail == Row(r)[from..c]
      {
        tail := tail + [data[r, c]];
      }
    }
  }

  datatype Outcome = Eliminated | NotSquare | RowCountMismatch | OriginCountMismatch | NoPivot(badRow: nat)

  // Rows the elimination loops are part-way through.

  /** A with its pivot row scaled and the rows of `done` cleared. */
  ghost function PartlyCleared<F(!new)>(K: Field<F>, A: Rows<F>, w: nat, col: nat, done: set<nat>): (B: Rows<F>)
    requires Shape(A, |A|, w) && col < |A| && col < w
    ensures Shape(B, |A|, w)
    ensures forall r :: 0 <= r < |A| ==> B[r] == if r == col || r in done then Clear(K, A, w, col)[r] else A[r]
  {
    seq(|A|, r requires 0 <= r < |A| => if r == col || r in done then Clear(K, A, w, col)[r] else A[r])
  }

  /** Where the row already has its leading zeros, scaling the tail scales the row. */
  lemma ScaleTailIsScale<F(!new)>(K: Field<F>, m: Vector<F>, r: Vector<F>, col: nat, f: F)
    requires K.Lawful() && col <= |m| && forall c :: 0 <= c < col ==> m[c] == K.zero
    ensures m[..col] + ScaleRow(K, m[col..], f) + ScaleRow(K, r, f) == ScaleRow(K, m + r, f)
  {
    MulZero(K, f);
  }

  lemma AddTailIsAdd<F(!new)>(K: Field<F>, m: Vector<F>, r: Vector<F>, p: Vector<F>, q: Vector<F>, col: nat, f: F)
    requires K.Lawful() && col <= |m| == |p| && |r| == |q| && forall c :: 0 <= c < col ==> p[c] == K.zero
    ensures m[..col] + AddScaled(K, m[col..], f, p[col..]) + AddScaled(K, r, f, q) == AddScaled(K, m + r, f, p + q)
  {
    MulZero(K, f);
    forall c | 0 <= c < col ensures Add(K, m[c], Mul(K, f, p[c])) == m[c] {
      AddZero(K, m[c]);
    }
  }

  lemma ScaleByOne<F(!new)>(K: Field<F>, row: Vector<F>)
    requires K.Lawful()
    ensures ScaleRow(K, row, Inv(K, K.one)) == row
  {
    MulInv(K, K.one);
    MulOne(K, Inv(K, K.one));
    forall j | 0 <= j < |row| ensures Mul(K, row[j], K.one) == row[j] {
      MulOne(K, row[j]);
    }
  }

  lemma AddNothing<F(!new)>(K: Field<F>, t: Vector<F>, p: Vector<F>)
    requires K.Lawful() && |t| == |p|
    ensures AddScaled(K, t, K.zero, p) == t
  {
    forall j | 0 <= j < |t| ensures Add(K, t[j], Mul(K, K.zero, p[j])) == t[j] {
      MulZero(K, p[j]);
      AddZero(K, t[j]);
    }
  }

  /** Scale the pivot row of [m | rhs] unless its leading entry is already one. */
  method ScalePivot<F(!new,==)>(K: Field<F>, m: Matrix<F>, rhs: Matrix<F>, col: nat, ghost n: nat, ghost w: nat)
    requires K.Lawful() && m.Is(n, n) && rhs.Is(n, w) && m.data != rhs.data && col < n
    requires UnitColumns(K, Augment(m.Value(), rhs.Value()), n + w, col)
    modifies m.data, rhs.data
    ensures Augment(m.Value(), rhs.Value()) == PartlyCleared(K, old(Augment(m.Value(), rhs.Value())), n + w, col, {})
  {
    ghost var A := Augment(m.Value(), rhs.Value());
    ghost var mrow, rrow := m.Row(col), rhs.Row(col);
    forall c | 0 <= c < col ensures mrow[c] == K.zero {
      assert A[col][c] == mrow[c];
    }
    var pivot := m.data[col, col];
    assert A[col][col] == pivot;
    if pivot != K.one {
      var f := Inv(K, pivot);
      m.ScaleRowFrom(K, col, col, f);
      rhs.ScaleRowFrom(K, col, 0, f);
      ScaleTailIsScale(K, mrow, rrow, col, f);
      assert rrow[..0] + ScaleRow(K, rrow[0..], f) == ScaleRow(K, rrow, f);
    } else {
      ScaleByOne(K, A[col]);
    }
    assert Augment(m.Value(), rhs.Value()) == PartlyCleared(K, A, n + w, col, {});
  }

  lemma PivotRowLeads<F(!new)>(K: Field<F>, A: Rows<F>, w: nat, col: nat)
    requires K.Lawful() && Shape(A, |A|, w) && col < |A| <= w && UnitColumns(K, A, w, col)
    ensures forall c :: 0 <= c < col ==> PivotRow(K, A, w, col)[c] == K.zero
  {
    MulZero(K, Inv(K, A[col][col]));
  }

  lemma AugmentUpdate<F>(M: Rows<F>, R: Rows<F>, r: nat, a: Vector<F>, b: Vector<F>)
    requires |M| == |R| && r < |M|
    ensures Augment(M[r := a], R[r := b]) == Augment(M, R)[r := a + b]
  {
  }

  lemma ClearedOneMore<F(!new)>(K: Field<F>, A: Rows<F>, w: nat, col: nat, done: set<nat>, r: nat)
    requires Shape(A, |A|, w) && col < |A| && col < w && r < |A|
    ensures PartlyCleared(K, A, w, col, done)[r := Clear(K, A, w, col)[r]] == PartlyCleared(K, A, w, col, done + {r})
  {
  }

  /** Clear the pivot column in row r, when there is anything to clear. */
  method EliminateRow<F(!new,==)>(K: Field<F>, m: Matrix<F>, rhs: Matrix<F>, col: nat, r: nat,
                                  tail: seq<F>, rhsRow: seq<F>,
                                  ghost A: Rows<F>, ghost p: Vector<F>, ghost n: nat, ghost w: nat,
                                    ghost done: set<nat>)
    requires K.Lawful() && m.Is(n, n) && rhs.Is(n, w) && m.data != rhs.data && col < n && r < n && r != col &&
             r !in done
    requires Shape(A, n, n + w) && p == PivotRow(K, A, n + w, col) && forall c :: 0 <= c < col ==> p[c] == K.zero
    requires Augment(m.Value(), rhs.Value()) == PartlyCleared(K, A, n + w, col, done)
    requires tail == p[col..n] && rhsRow == p[n..]
    modifies m.data, rhs.data
    ensures Augment(m.Value(), rhs.Value()) == PartlyCleared(K, A, n + w, col, done + {r})
  {
    ghost var M, R := m.Value(), rhs.Value();
    assert M[r] + R[r] == A[r] by { assert Augment(M, R)[r] == M[r] + R[r]; }
    var factor := m.data[r, col];
    assert A[r][col] == factor;
    ClearedOneMore(K, A, n + w, col, done, r);
    if factor != K.zero {
      m.AddRowFrom(K, r, col, factor, tail);
      rhs.AddRowFrom(K, r, 0, factor, rhsRow);
      assert p == p[..n] + rhsRow && p[..n][col..] == tail;
      assert R[r][..0] + AddScaled(K, R[r][0..], factor, rhsRow) == AddScaled(K, R[r], factor, rhsRow);
      AddTailIsAdd(K, M[r], R[r], p[..n], rhsRow, col, factor);
      AugmentUpdate(M, R, r, M[r][..col] + AddScaled(K, M[r][col..], factor, tail), AddScaled(K, R[r], factor, rhsRow));
    } else {
      AddNothing(K, A[r], p);
    }
  }

  lemma AllCleared<F(!new)>(K: Field<F>, A: Rows<F>, w: nat, col: nat, done: set<nat>)
    requires Shape(A, |A|, w) && col < |A| && col < w
    requires forall r: nat {:trigger r in done} :: r < |A| && r != col ==> r in done
    ensures PartlyCleared(K, A, w, col, done) == Clear(K, A, w, col)
  {
  }

  /** Copies of the pivot row of [m | rhs], from the diagonal on. */
  method SnapshotPivot<F(!new,==)>(K: Field<F>, m: Matrix<F>, rhs: Matrix<F>, col: nat,
                                   ghost A: Rows<F>, ghost n: nat, ghost w: nat)
    returns (tail: seq<F>, rhsRow: seq<F>)
    requires m.Is(n, n) && rhs.Is(n, w) && col < n && Shape(A, n, n + w)
    requires Augment(m.Value(), rhs.Value()) == PartlyCleared(K, A, n + w, col, {})
    ensures tail == PivotRow(K, A, n + w, col)[col..n] && rhsRow == PivotRow(K, A, n + w, col)[n..]
  {
    tail := m.CopyRowFrom(col, col);
    rhsRow := rhs.CopyRowFrom(col, 0);
    assert Augment(m.Value(), rhs.Value())[col] == m.Row(col) + rhs.Row(col);
  }

  method FindPivotRow<F(!new,==)>(K: Field<F>, m: Matrix<F>, rhs: Matrix<F>, col: nat, ghost n: nat, ghost w: nat)
    returns (p: nat)
    requires m.Is(n, n) && rhs.Is(n, w) && col < n
    ensures p == FindPivot(K, Augment(m.Value(), rhs.Value()), n + w, col, col)
  {
    p := col;
    while p < m.data.Length0 && m.data[p, col] == K.zero
      invariant col <= p <= n
      invariant FindPivot(K, Augment(m.Value(), rhs.Value()), n + w, col, col) ==
                FindPivot(K, Augment(m.Value(), rhs.Value()), n + w, col, p)
    {
      assert Augment(m.Value(), rhs.Value())[p][col] == m.data[p, col];
      p := p + 1;
    }
    assert p < n ==> Augment(m.Value(), rhs.Value())[p][col] == m.data[p, col];
  }

  datatype Batch = Batch(start: nat, end: nat) {
    predicate Has(r: nat) { start <= r < end }
  }

  /** Row r lies in one of the first i batches to run. */
  ghost predicate Claimed(batches: seq<Batch>, i: nat, r: nat)
    requires i <= |batches|
  {
    exists k :: 0 <= k < i && batches[k].Has(r)
  }

  /** Every row below n is in exactly one batch. */
  ghost predicate Tiles(batches: seq<Batch>, n: nat) {
    && (forall i :: 0 <= i < |batches| ==> batches[i].start <= batches[i].end <= n)
    && (forall r: nat | r < n :: Claimed(batches, |batches|, r))
    && (forall i, j, r: nat :: 0 <= i < j < |batches| && batches[i].Has(r) ==> !batches[j].Has(r))
  }

  lemma NextBatch(batches: seq<Batch>, n: nat, i: nat)
    requires Tiles(batches, n) && i < |batches|
    ensures forall r: nat :: batches[i].Has(r) ==> !Claimed(batches, i, r)
    ensures forall r: nat :: Claimed(batches, i + 1, r) <==> Claimed(batches, i, r) || batches[i].Has(r)
  {
  }

  /** Every batch number below `count`, each once, in some order. */
  ghost predicate Schedule(order: seq<nat>, count: nat) {
    && (forall b: nat :: b in order <==> b < count)
    && forall i, j :: 0 <= i < j < |order| ==> order[i] != order[j]
  }

  function BatchCount(n: nat, group: nat): nat
    requires group > 0
  {
    (n + group - 1) / group
  }

  /** Batch number b of rows taken `group` at a time. */
  function NthBatch(n: nat, group: nat, b: nat): Batch {
    var start := b * group;
    Batch(if start < n then start else n, if start + group < n then start + group else n)
  }

  function BatchesInOrder(n: nat, group: nat, order: seq<nat>): seq<Batch> {
    seq(|order|, i requires 0 <= i < |order| => NthBatch(n, group, order[i]))
  }

  lemma DivisionPlaces(r: nat, group: nat, b: nat)
    requires group > 0
    ensures b * group <= r < b * group + group <==> r / group == b
  {
    var q := r / group;
    assert r == q * group + r % group;
    if b < q { MulMonotone(b + 1, q, group); }
    if q < b { MulMonotone(q + 1, b, group); }
  }

  lemma BatchCountBounds(n: nat, group: nat, r: nat)
    requires group > 0 && r < n
    ensures r / group < BatchCount(n, group)
  {
    var count := BatchCount(n, group);
    DivisionPlaces(n + group - 1, group, count);
    DivisionPlaces(r, group, r / group);
    if count <= r / group { MulMonotone(count, r / group, group); }
  }

  lemma BatchOfRow(n: nat, group: nat, b: nat, r: nat)
    requires group > 0 && r < n
    ensures NthBatch(n, group, b).Has(r) <==> r / group == b
  {
    DivisionPlaces(r, group, b);
  }

  /** Running the batches in any order still clears every row once. */
  lemma ScheduleTiles(n: nat, group: nat, order: seq<nat>)
    requires group > 0 && Schedule(order, BatchCount(n, group))
    ensures Tiles(BatchesInOrder(n, group, order), n)
  {
    var batches := BatchesInOrder(n, group, order);
    forall r: nat | r < n ensures Claimed(batches, |batches|, r) {
      BatchOfRow(n, group, r / group, r);
      BatchCountBounds(n, group, r);
      var b := r / group;
      assert b in order;
      var i :| 0 <= i < |order| && order[i] == b;
      assert batches[i].Has(r);
    }
    forall i, j, r: nat | 0 <= i < j < |batches| && batches[i].Has(r) ensures !batches[j].Has(r) {
      BatchOfRow(n, group, order[i], r);
      BatchOfRow(n, group, order[j], r);
    }
  }

  /** Clear the pivot column in the rows of one batch. */
  method EliminateBatch<F(!new,==)>(K: Field<F>, m: Matrix<F>, rhs: Matrix<F>, col: nat, batch: Batch,
                                    tail: seq<F>, rhsRow: seq<F>,
                                    ghost A: Rows<F>, ghost p: Vector<F>, ghost n: nat, ghost w: nat,
                                      ghost done: set<nat>)
    returns (ghost after: set<nat>)
    requires K.Lawful() && m.Is(n, n) && rhs.Is(n, w) && m.data != rhs.data && col < n && batch.start <= batch.end <= n
    requires forall r: nat :: batch.Has(r) ==> r !in done
    requires Shape(A, n, n + w) && p == PivotRow(K, A, n + w, col) && forall c :: 0 <= c < col ==> p[c] == K.zero
    requires Augment(m.Value(), rhs.Value()) == PartlyCleared(K, A, n + w, col, done)
    requires tail == p[col..n] && rhsRow == p[n..]
    modifies m.data, rhs.data
    ensures forall r: nat :: r in after <==> r in done || (batch.Has(r) && r != col)
    ensures Augment(m.Value(), rhs.Value()) == PartlyCleared(K, A, n + w, col, after)
  {
    after := done;
    for r := batch.start to batch.end
      invariant forall i: nat :: i in after <==> i in done || (batch.start <= i < r && i != col)
      invariant Augment(m.Value(), rhs.Value()) == PartlyCleared(K, A, n + w, col, after)
    {
      if r != col {
        assert batch.Has(r);
        EliminateRow(K, m, rhs, col, r, tail, rhsRow, A, p, n, w, after);
        after := after + {r};
      }
    }
  }

  /** Scale the pivot row of [m | rhs] and clear its column elsewhere, batch by batch. */
  method ClearColumn<F(!new,==)>(K: Field<F>, m: Matrix<F>, rhs: Matrix<F>, col: nat, batches: seq<Batch>,
                                 ghost A: Rows<F>, ghost n: nat, ghost w: nat)
    requires K.Lawful() && m.Is(n, n) && rhs.Is(n, w) && m.data != rhs.data && col < n && Tiles(batches, n)
    requires A == Augment(m.Value(), rhs.Value()) && Shape(A, n, n + w) && UnitColumns(K, A, n + w, col)
    modifies m.data, rhs.data
    ensures Augment(m.Value(), rhs.Value()) == Clear(K, A, n + w, col)
  {
    ghost var p := PivotRow(K, A, n + w, col);
    PivotRowLeads(K, A, n + w, col);
    ScalePivot(K, m, rhs, col, n, w);
    var tail, rhsRow := SnapshotPivot(K, m, rhs, col, A, n, w);
    ghost var done: set<nat> := {};
    for i := 0 to |batches|
      invariant forall r: nat :: r in done <==> r != col && Claimed(batches, i, r)
      invariant Augment(m.Value(), rhs.Value()) == PartlyCleared(K, A, n + w, col, done)
    {
      NextBatch(batches, n, i);
      done := EliminateBatch(K, m, rhs, col, batches[i], tail, rhsRow, A, p, n, w, done);
    }
    AllCleared(K, A, n + w, col, done);
  }

  /** Bring row p up to the pivot position. */
  method SwapIntoPlace<F(!new,==)>(m: Matrix<F>, rhs: Matrix<F>, origins: array<nat>, col: nat, p: nat,
                                   ghost n: nat, ghost w: nat)
    requires m.Is(n, n) && rhs.Is(n, w) && m.data != rhs.data && origins.Length == n && col < n && p < n
    modifies m.data, rhs.data, origins
    ensures Augment(m.Value(), rhs.Value()) == Swap(old(Augment(m.Value(), rhs.Value())), col, p)
    ensures origins[..] == Swap(old(origins[..]), col, p)
  {
    if p != col {
      m.SwapRows(col, p);
      rhs.SwapRows(col, p);
      origins[col], origins[p] := origins[p], origins[col];
    }
    assert Augment(m.Value(), rhs.Value()) == Swap(old(Augment(m.Value(), rhs.Value())), col, p);
  }

  method ReduceColumn<F(!new,==)>(K: Field<F>, m: Matrix<F>, rhs: Matrix<F>, origins: array<nat>, col: nat, p: nat,
                                  ghost A: Rows<F>, ghost n: nat, ghost w: nat)
    requires K.Lawful() && m.Is(n, n) && rhs.Is(n, w) && m.data != rhs.data && origins.Length == n && col <= p < n
    requires A == Augment(m.Value(), rhs.Value()) && Shape(A, n, n + w) && UnitColumns(K, A, n + w, col)
    modifies m.data, rhs.data, origins
    ensures Augment(m.Value(), rhs.Value()) == Clear(K, Swap(A, col, p), n + w, col)
    ensures origins[..] == Swap(old(origins[..]), col, p)
  {
    SwapIntoPlace(m, rhs, origins, col, p, n, w);
    SwapUnitColumns(K, A, n + w, col, p);
    var all := [Batch(0, origins.Length)];
    assert forall r: nat | r < n :: all[0].Has(r) && Claimed(all, 1, r);
    ClearColumn(K, m, rhs, col, all, Swap(A, col, p), n, w);
  }

  method EliminatePivoted<F(!new,==)>(K: Field<F>, m: Matrix<F>, rhs: Matrix<F>, origins: array<nat>,
                                      ghost n: nat, ghost w: nat)
    returns (out: Outcome)
    requires K.Lawful() && m.data != rhs.data && m.Is(n, n) && rhs.Is(n, w) && origins.Length == n
    modifies m.data, rhs.data, origins
    ensures match Pivoted(K, old(Augment(m.Value(), rhs.Value())), n + w, old(origins[..]), 0)
            case Reduced(B) => out == Eliminated && Augment(m.Value(), rhs.Value()) == B
            case Singular(bad) => out == NoPivot(bad)
  {
    ghost var A := Augment(m.Value(), rhs.Value());
    ghost var res := Pivoted(K, A, n + w, origins[..], 0);
    for col := 0 to m.data.Length0
      invariant A == Augment(m.Value(), rhs.Value()) && Shape(A, n, n + w) && UnitColumns(K, A, n + w, col)
      invariant res == Pivoted(K, A, n + w, origins[..], col)
    {
      var p := FindPivotRow(K, m, rhs, col, n, w);
      if p == m.data.Length0 { return NoPivot(origins[col]); }
      PivotStep(K, A, n + w, col, p);
      ReduceColumn(K, m, rhs, origins, col, p, A, n, w);
      A := Clear(K, Swap(A, col, p), n + w, col);
    }
    return Eliminated;
  }

  /** Elimination with pivoting; `origins` follows the rows through the swaps. */
  method GaussianEliminateTracked<F(!new,==)>(K: Field<F>, m: Matrix<F>, rhs: Matrix<F>, origins: array<nat>)
    returns (out: Outcome)
    requires K.Lawful() && m.data != rhs.data
    modifies m.data, rhs.data, origins
    ensures m.data.Length1 != m.data.Length0 ==> out == NotSquare
    ensures m.data.Length1 == m.data.Length0 != rhs.data.Length0 ==> out == RowCountMismatch
    ensures m.data.Length1 == m.data.Length0 == rhs.data.Length0 != origins.Length ==> out == OriginCountMismatch
    ensures m.data.Length1 == m.data.Length0 == rhs.data.Length0 == origins.Length ==>
      match Pivoted(K, old(Augment(m.Value(), rhs.Value())), origins.Length + rhs.data.Length1, old(origins[..]), 0)
      case Reduced(B) => out == Eliminated && Augment(m.Value(), rhs.Value()) == B
      case Singular(bad) => out == NoPivot(bad)
  {
    var n := m.data.Length0;
    if m.data.Length1 != n { return NotSquare; }
    if rhs.data.Length0 != n { return RowCountMismatch; }
    if origins.Length != n { return OriginCountMismatch; }
    out := EliminatePivoted(K, m, rhs, origins, n, rhs.data.Length1);
  }

  method IdentityMatrix<F(!new,==)>(K: Field<F>, n: nat) returns (m: Matrix<F>)
    ensures fresh(m) && fresh(m.data) && m.Is(n, n) && m.Value() == Identity(K, n)
  {
    m := new Matrix<F>.Filled(n, n, K.zero);
    for i := 0 to n
      invariant forall r, c :: 0 <= r < n && 0 <= c < n ==> m.data[r, c] == if r == c < i then K.one else K.zero
    {
      m.data[i, i] := K.one;
    }
    assert forall r :: 0 <= r < n ==> m.Value()[r] == Identity(K, n)[r];
  }

  method Clone<F(!new,==)>(K: Field<F>, m: Matrix<F>) returns (copy: Matrix<F>)
    ensures fresh(copy) && fresh(copy.data)
    ensures copy.Is(m.data.Length0, m.data.Length1) && copy.Value() == m.Value()
  {
    copy := new Matrix<F>.Filled(m.data.Length0, m.data.Length1, K.zero);
    forall r, c | 0 <= r < m.data.Length0 && 0 <= c < m.data.Length1 {
      copy.data[r, c] := m.data[r, c];
    }
    assert forall r :: 0 <= r < m.data.Length0 ==> copy.Value()[r] == m.Value()[r];
  }

  method InvertSquare<F(!new,==)>(K: Field<F>, m: Matrix<F>, ghost n: nat) returns (out: Outcome, inv: Matrix<F>)
    requires K.Lawful() && m.Is(n, n)
    ensures out == Eliminated <==> Invertible(K, m.Value(), n)
    ensures out == Eliminated ==> inv.Is(n, n) && Inverse(K, m.Value(), inv.Value(), n)
    ensures out == Eliminated || out.NoPivot?
  {
    var work := Clone(K, m);
    inv := IdentityMatrix(K, m.data.Length0);
    var origins := new nat[m.data.Length0](i => i);
    ghost var M, o := m.Value(), origins[..];
    out := EliminatePivoted(K, work, inv, origins, n, n);
    PivotedExact(K, M, Identity(K, n), n, n, o);
    if out == Eliminated {
      ghost var B := Augment(work.Value(), inv.Value());
      PivotedInverse(K, M, n, o, B);
      assert Right(B, n, n) == inv.Value();
    }
  }

  /** Invert m: the inverse, exactly when there is one. */
  method Invert<F(!new,==)>(K: Field<F>, m: Matrix<F>) returns (out: Outcome, inv: Matrix<F>)
    requires K.Lawful()
    ensures out == NotSquare <==> m.data.Length1 != m.data.Length0
    ensures m.data.Length1 == m.data.Length0 ==> var n := m.data.Length0;
      && (out == Eliminated <==> Invertible(K, m.Value(), n))
      && (out == Eliminated ==> inv.Is(n, n) && Inverse(K, m.Value(), inv.Value(), n))
  {
    if m.data.Length1 != m.data.Length0 {
      inv := IdentityMatrix(K, m.data.Length0);
      out := NotSquare;
    } else {
      out, inv := InvertSquare(K, m, m.data.Length0);
    }
  }

  method EliminateUnpivoted<F(!new,==)>(K: Field<F>, m: Matrix<F>, rhs: Matrix<F>, group: nat, orders: seq<seq<nat>>,
                                        ghost n: nat, ghost w: nat)
    returns (out: Outcome)
    requires K.Lawful() && m.data != rhs.data && m.Is(n, n) && rhs.Is(n, w) && group > 0 && |orders| == n
    requires forall c :: 0 <= c < n ==> Schedule(orders[c], BatchCount(n, group))
    modifies m.data, rhs.data
    ensures match Unpivoted(K, old(Augment(m.Value(), rhs.Value())), n + w, 0)
            case Reduced(B) => out == Eliminated && Augment(m.Value(), rhs.Value()) == B
            case Singular(bad) => out == NoPivot(bad)
  {
    ghost var A := Augment(m.Value(), rhs.Value());
    ghost var res := Unpivoted(K, A, n + w, 0);
    for col := 0 to m.data.Length0
      invariant A == Augment(m.Value(), rhs.Value()) && Shape(A, n, n + w) && UnitColumns(K, A, n + w, col)
      invariant res == Unpivoted(K, A, n + w, col)
    {
      assert A[col][col] == m.data[col, col];
      if m.data[col, col] == K.zero { return NoPivot(col); }
      ScheduleTiles(n, group, orders[col]);
      ClearUnitColumns(K, A, n + w, col);
      ClearColumn(K, m, rhs, col, BatchesInOrder(m.data.Length0, group, orders[col]), A, n, w);
      A := Clear(K, A, n + w, col);
    }
    return Eliminated;
  }

  /** Elimination without pivoting, whatever the batch size and the order the batches run in. */
  method GaussianEliminateVandermonde<F(!new,==)>(K: Field<F>, m: Matrix<F>, rhs: Matrix<F>, group: nat,
                                                  orders: seq<seq<nat>>)
    returns (out: Outcome)
    requires K.Lawful() && m.data != rhs.data && group > 0 && |orders| == m.data.Length0
    requires forall c :: 0 <= c < |orders| ==> Schedule(orders[c], BatchCount(m.data.Length0, group))
    modifies m.data, rhs.data
    ensures m.data.Length1 != m.data.Length0 ==> out == NotSquare
    ensures m.data.Length1 == m.data.Length0 != rhs.data.Length0 ==> out == RowCountMismatch
    ensures m.data.Length1 == m.data.Length0 == rhs.data.Length0 ==>
      match Unpivoted(K, old(Augment(m.Value(), rhs.Value())), m.data.Length0 + rhs.data.Length1, 0)
      case Reduced(B) => out == Eliminated && Augment(m.Value(), rhs.Value()) == B
      case Singular(bad) => out == NoPivot(bad)
  {
    if m.data.Length1 != m.data.Length0 { return NotSquare; }
    if rhs.data.Length0 != m.data.Length0 { return RowCountMismatch; }
    out := EliminateUnpivoted(K, m, rhs, group, orders, m.data.Length0, rhs.data.Length1);
  }
}
