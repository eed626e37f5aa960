/** Elimination a group of columns at a time: the group's rows are reduced against each
    other, and every other row then takes all of them in one pass. */
module Tiled {
  import opened Arithmetic
  import opened Fields
  import opened Linear
  import opened Elimination

  const TILE_GROUP: nat := 8

  /** The rows after j elimination steps from column g on. */
  ghost function Steps<F(!new)>(K: Field<F>, A: Rows<F>, w: nat, g: nat, j: nat): (B: Rows<F>)
    requires Shape(A, |A|, w) && g + j <= |A| <= w
    ensures Shape(B, |A|, w)
  {
    if j == 0 then A else Clear(K, Steps(K, A, w, g, j - 1), w, g + j - 1)
  }

  /** Step i does not meet a zero on the diagonal. */
  ghost predicate Good<F(!new)>(K: Field<F>, A: Rows<F>, w: nat, g: nat, i: nat)
    requires Shape(A, |A|, w) && g + i < |A| <= w
  {
    var B := Steps(K, A, w, g, i);
    B[g + i][g + i] != K.zero
  }

  ghost predicate Runs<F(!new)>(K: Field<F>, A: Rows<F>, w: nat, g: nat, j: nat)
    requires Shape(A, |A|, w) && g + j <= |A| <= w
  {
    forall i {:trigger Good(K, A, w, g, i)} :: 0 <= i < j ==> Good(K, A, w, g, i)
  }

  lemma RunsLess<F(!new)>(K: Field<F>, A: Rows<F>, w: nat, g: nat, j: nat, col: nat)
    requires Shape(A, |A|, w) && col == g + j < |A| <= w && Runs(K, A, w, g, j + 1)
    ensures Runs(K, A, w, g, j) && Steps(K, A, w, g, j)[col][col] != K.zero
    ensures Steps(K, A, w, g, j + 1) == Clear(K, Steps(K, A, w, g, j), w, col)
  {
    forall i | 0 <= i < j ensures Good(K, A, w, g, i) { assert Good(K, A, w, g, i); }
    assert Good(K, A, w, g, j);
  }

  lemma RunsMore<F(!new)>(K: Field<F>, A: Rows<F>, w: nat, g: nat, j: nat, col: nat)
    requires Shape(A, |A|, w) && col == g + j < |A| <= w && Runs(K, A, w, g, j)
    requires Steps(K, A, w, g, j)[col][col] != K.zero
    ensures Runs(K, A, w, g, j + 1) && Steps(K, A, w, g, j + 1) == Clear(K, Steps(K, A, w, g, j), w, col)
  {
    assert Good(K, A, w, g, j);
  }

  lemma UnitNext<F(!new)>(K: Field<F>, B: Rows<F>, C: Rows<F>, w: nat, col: nat)
    requires K.Lawful() && Shape(B, |B|, w) && col < |B| <= w && B[col][col] != K.zero
    requires UnitColumns(K, B, w, col) && C == Clear(K, B, w, col)
    ensures UnitColumns(K, C, w, col + 1)
  {
    ClearUnitColumns(K, B, w, col);
  }

  lemma {:induction false} StepsUnit<F(!new)>(K: Field<F>, A: Rows<F>, w: nat, g: nat, j: nat)
    requires K.Lawful() && Shape(A, |A|, w) && g + j <= |A| <= w && UnitColumns(K, A, w, g) && Runs(K, A, w, g, j)
    ensures UnitColumns(K, Steps(K, A, w, g, j), w, g + j)
  {
    if j > 0 {
      var k := j - 1;
      RunsLess(K, A, w, g, k, g + k);
      StepsUnit(K, A, w, g, k);
      UnitNext(K, Steps(K, A, w, g, k), Steps(K, A, w, g, j), w, g + k);
    }
  }

  // A row with multiples of several others added.

  ghost function Combined<F(!new)>(K: Field<F>, t: Vector<F>, f: Vector<F>, P: Rows<F>, j: nat): (u: Vector<F>)
    requires j <= |f| && j <= |P| && Shape(P, |P|, |t|)
    ensures |u| == |t|
  {
    if j == 0 then t else AddScaled(K, Combined(K, t, f, P, j - 1), f[j - 1], P[j - 1])
  }

  lemma {:induction false} CombinedAt<F(!new)>(K: Field<F>, t: Vector<F>, f: Vector<F>, P: Rows<F>, j: nat, c: nat)
    requires K.Lawful() && j <= |f| && j <= |P| && Shape(P, |P|, |t|) && c < |t|
    ensures Combined(K, t, f, P, j)[c] == Add(K, t[c], Dot(K, f, Column(P, |t|, c), j))
  {
    if j == 0 {
      AddZero(K, t[c]);
    } else {
      CombinedAt(K, t, f, P, j - 1, c);
      AddAssoc(K, t[c], Dot(K, f, Column(P, |t|, c), j - 1), Mul(K, f[j - 1], P[j - 1][c]));
    }
  }

  /** The k rows of the group. */
  ghost function Group<F(!new)>(B: Rows<F>, w: nat, g: nat, k: nat): (P: Rows<F>)
    requires Shape(B, |B|, w) && g + k <= |B|
    ensures Shape(P, k, w) && forall i :: 0 <= i < k ==> P[i] == B[g + i]
  {
    B[g..g + k]
  }

  /** A row's entries in the group's columns. */
  ghost function Entries<F(!new)>(t: Vector<F>, g: nat, k: nat): (f: Vector<F>)
    requires g + k <= |t|
    ensures |f| == k && forall i :: 0 <= i < k ==> f[i] == t[g + i]
  {
    t[g..g + k]
  }

  /** At column c, row s is row r plus the pivot rows P, each times r's entry in its own column. */
  ghost predicate RankAt<F(!new)>(K: Field<F>, r: Vector<F>, s: Vector<F>, P: Rows<F>, g: nat, c: nat)
    requires |r| == |s| && Shape(P, |P|, |r|) && g + |P| <= |r| && c < |r|
  {
    s[c] == Add(K, r[c], Dot(K, Entries(r, g, |P|), Column(P, |r|, c), |P|))
  }

  /** What j steps make of a row outside the group. */
  lemma {:induction false} RankK<F(!new)>(K: Field<F>, A: Rows<F>, w: nat, g: nat, j: nat, t: nat, c: nat)
    requires K.Lawful() && Shape(A, |A|, w) && g + j <= |A| <= w && Runs(K, A, w, g, j)
    requires t < |A| && !(g <= t < g + j) && c < w
    ensures RankAt(K, A[t], Steps(K, A, w, g, j)[t], Group(Steps(K, A, w, g, j), w, g, j), g, c)
  {
    if j == 0 {
      AddZero(K, A[t][c]);
    } else {
      var k, col := j - 1, g + j - 1;
      RunsLess(K, A, w, g, k, col);
      RankK(K, A, w, g, k, t, c);
      RankK(K, A, w, g, k, t, col);
      var B, C := Steps(K, A, w, g, k), Steps(K, A, w, g, j);
      GroupGains(K, B, C, w, g, k, j, col, t);
      RankNext(K, A[t], B[t], C[t], Group(B, w, g, k), Group(C, w, g, j), g, k, j, col, c);
    }
  }

  /** Each earlier pivot row has gained its entry in the new column times the new pivot row. */
  ghost predicate Gained<F(!new)>(K: Field<F>, P: Rows<F>, Q: Rows<F>, w: nat, k: nat, col: nat)
    requires Shape(P, k, w) && Shape(Q, k + 1, w) && col < w
  {
    forall i :: 0 <= i < k ==> Q[i] == AddScaled(K, P[i], P[i][col], Q[k])
  }

  lemma GroupGains<F(!new)>(K: Field<F>, B: Rows<F>, C: Rows<F>, w: nat, g: nat, k: nat, j: nat, col: nat, t: nat)
    requires Shape(B, |B|, w) && j == k + 1 && col == g + k < |B| <= w && C == Clear(K, B, w, col) && t < |B| &&
             t != col
    ensures Gained(K, Group(B, w, g, k), Group(C, w, g, j), w, k, col)
    ensures C[t] == AddScaled(K, B[t], B[t][col], Group(C, w, g, j)[k])
  {
    var P, Q := Group(B, w, g, k), Group(C, w, g, j);
    forall i | 0 <= i < k ensures Q[i] == AddScaled(K, P[i], P[i][col], Q[k]) {
      assert P[i] == B[g + i] && Q[i] == C[g + i] && Q[k] == C[col];
    }
  }

  /** One row: r before the group, s after k of its rows and u after one more. */
  lemma RankNext<F(!new)>(K: Field<F>, r: Vector<F>, s: Vector<F>, u: Vector<F>, P: Rows<F>, Q: Rows<F>,
                          g: nat, k: nat, j: nat, col: nat, c: nat)
    requires K.Lawful() && |r| == |s| == |u| && Shape(P, k, |r|) && Shape(Q, j, |r|) && j == k + 1
    requires col == g + k < |r| && c < |r| && Gained(K, P, Q, |r|, k, col) && u == AddScaled(K, s, s[col], Q[k])
    requires RankAt(K, r, s, P, g, c) && RankAt(K, r, s, P, g, col)
    ensures RankAt(K, r, u, Q, g, c)
  {
    EntriesMore(r, g, k, j, col);
    RankColumn(K, r[c], r[col], s[c], s[col], Entries(r, g, j), Entries(r, g, k), P, Q, |r|, k, col, c);
  }

  lemma EntriesMore<F(!new)>(r: Vector<F>, g: nat, k: nat, j: nat, col: nat)
    requires j == k + 1 && col == g + k < |r|
    ensures var a, b := Entries(r, g, j), Entries(r, g, k);
            a[k] == r[col] && forall i :: 0 <= i < k ==> a[i] == b[i]
  {
  }

  /** Column c of that row. */
  lemma RankColumn<F(!new)>(K: Field<F>, x: F, y: F, sx: F, sy: F, a: Vector<F>, b: Vector<F>,
                            P: Rows<F>, Q: Rows<F>, w: nat, k: nat, col: nat, c: nat)
    requires K.Lawful() && Shape(P, k, w) && Shape(Q, k + 1, w) && col < w && c < w
    requires |a| == k + 1 && |b| == k && a[k] == y && (forall i :: 0 <= i < k ==> a[i] == b[i])
    requires Gained(K, P, Q, w, k, col)
    requires sx == Add(K, x, Dot(K, b, Column(P, w, c), k)) && sy == Add(K, y, Dot(K, b, Column(P, w, col), k))
    ensures Add(K, sx, Mul(K, sy, Q[k][c])) == Add(K, x, Dot(K, a, Column(Q, w, c), k + 1))
  {
    PivotsGain(K, P, Q, w, k, col, c, a);
    RankTerms(K, a, b, Column(P, w, c), Column(P, w, col), k);
    RankSum(K, x, Dot(K, a, Column(P, w, c), k), Q[k][c], y, Dot(K, a, Column(P, w, col), k), sx, sy);
  }

  lemma RankTerms<F(!new)>(K: Field<F>, a: Vector<F>, b: Vector<F>, v: Vector<F>, x: Vector<F>, k: nat)
    requires |a| == k + 1 && |b| == |v| == |x| == k && forall i :: 0 <= i < k ==> a[i] == b[i]
    ensures Dot(K, a, v, k) == Dot(K, b, v, k) && Dot(K, a, x, k) == Dot(K, b, x, k)
  {
    DotPrefix(K, a, v, b, v, k);
    DotPrefix(K, a, x, b, x, k);
  }

  lemma PivotsGain<F(!new)>(K: Field<F>, P: Rows<F>, Q: Rows<F>, w: nat, k: nat, col: nat, c: nat, a: Vector<F>)
    requires K.Lawful() && Shape(P, k, w) && Shape(Q, k + 1, w) && col < w && c < w && |a| == k + 1
    requires Gained(K, P, Q, w, k, col)
    ensures Dot(K, a, Column(Q, w, c), k) ==
            Add(K, Dot(K, a, Column(P, w, c), k), Mul(K, Q[k][c], Dot(K, a, Column(P, w, col), k)))
  {
    var u, v, x, p := Column(Q, w, c), Column(P, w, c), Column(P, w, col), Q[k][c];
    forall i | 0 <= i < k ensures u[i] == Add(K, v[i], Mul(K, p, x[i])) {
      MulComm(K, p, x[i]);
    }
    DotComm(K, a, u, k);
    DotAddScaled(K, u, v, p, x, a, k);
    DotComm(K, v, a, k);
    DotComm(K, x, a, k);
  }

  /** s + p d + a p == ... with b == t + s and e == a + d. */
  lemma RankSum<F(!new)>(K: Field<F>, t: F, s: F, p: F, a: F, d: F, b: F, e: F)
    requires K.Lawful() && b == Add(K, t, s) && e == Add(K, a, d)
    ensures Add(K, b, Mul(K, e, p)) == Add(K, t, Add(K, Add(K, s, Mul(K, p, d)), Mul(K, a, p)))
  {
    MulComm(K, e, p);
    Distribute(K, p, a, d);
    MulComm(K, p, a);
    AddComm(K, Mul(K, a, p), Mul(K, p, d));
    AddAssoc(K, t, s, Add(K, Mul(K, p, d), Mul(K, a, p)));
    AddAssoc(K, s, Mul(K, p, d), Mul(K, a, p));
  }

  /** All the steps of a group reach an outside row in one pass. */
  lemma RankRow<F(!new)>(K: Field<F>, A: Rows<F>, w: nat, g: nat, j: nat, t: nat)
    requires K.Lawful() && Shape(A, |A|, w) && g + j <= |A| <= w && Runs(K, A, w, g, j) && t < |A| && !(g <= t < g + j)
    ensures Steps(K, A, w, g, j)[t] == Combined(K, A[t], Entries(A[t], g, j), Group(Steps(K, A, w, g, j), w, g, j), j)
  {
    var B := Steps(K, A, w, g, j);
    var f, P := Entries(A[t], g, j), Group(B, w, g, j);
    forall c | 0 <= c < w ensures B[t][c] == Combined(K, A[t], f, P, j)[c] {
      RankK(K, A, w, g, j, t, c);
      CombinedAt(K, A[t], f, P, j, c);
    }
  }

  /** Elimination from column g on comes out the same as from column `at` on with the rows B. */
  ghost predicate GoesOn<F(!new)>(K: Field<F>, B: Rows<F>, w: nat, at: nat, res: Reduction<F>)
    requires Shape(B, |B|, w) && at <= |B| <= w
  {
    res == Unpivoted(K, B, w, at)
  }

  lemma GoesOnNext<F(!new)>(K: Field<F>, B: Rows<F>, C: Rows<F>, w: nat, col: nat, next: nat, res: Reduction<F>)
    requires Shape(B, |B|, w) && col < |B| <= w && B[col][col] != K.zero && C == Clear(K, B, w, col) && next == col + 1
    requires GoesOn(K, B, w, col, res)
    ensures GoesOn(K, C, w, next, res)
  {
  }

  lemma {:induction false} UnpivotedOn<F(!new)>(K: Field<F>, A: Rows<F>, w: nat, g: nat, j: nat, at: nat,
                                                res: Reduction<F>)
    requires Shape(A, |A|, w) && g + j == at <= |A| <= w && Runs(K, A, w, g, j) && GoesOn(K, A, w, g, res)
    ensures GoesOn(K, Steps(K, A, w, g, j), w, at, res)
  {
    if j > 0 {
      var k, col := j - 1, at - 1;
      RunsLess(K, A, w, g, k, col);
      UnpivotedOn(K, A, w, g, k, col, res);
      GoesOnNext(K, Steps(K, A, w, g, k), Steps(K, A, w, g, j), w, col, at, res);
    }
  }

  // The loops.

  /** Add f times p from column `from` on. */
  function AddTail<F(!new)>(K: Field<F>, t: Vector<F>, f: F, p: Vector<F>, from: nat): (u: Vector<F>)
    requires |t| == |p|
    ensures |u| == |t| && forall c :: 0 <= c < |t| ==> u[c] == if c < from then t[c] else Add(K, t[c], Mul(K, f, p[c]))
  {
    seq(|t|, c requires 0 <= c < |t| => if c < from then t[c] else Add(K, t[c], Mul(K, f, p[c])))
  }

  ghost predicate ZeroBefore<F(!new)>(K: Field<F>, p: Vector<F>, from: nat) {
    forall c :: 0 <= c < from && c < |p| ==> p[c] == K.zero
  }

  /** Where p begins with zeros, its tail is all there is to add; and a zero factor adds nothing. */
  lemma TailEnough<F(!new)>(K: Field<F>, t: Vector<F>, f: F, p: Vector<F>, from: nat)
    requires K.Lawful() && |t| == |p| && ZeroBefore(K, p, from)
    ensures AddTail(K, t, f, p, from) == AddScaled(K, t, f, p)
    ensures f == K.zero ==> AddScaled(K, t, f, p) == t
  {
    forall c | 0 <= c < |t|
      ensures AddTail(K, t, f, p, from)[c] == AddScaled(K, t, f, p)[c]
      ensures f == K.zero ==> AddScaled(K, t, f, p)[c] == t[c]
    {
      MulZero(K, f);
      MulZero(K, p[c]);
      AddZero(K, t[c]);
    }
  }

  /** Row i of P is zero left of column g, and in the group's columns except its own. */
  ghost predicate Reduced<F(!new)>(K: Field<F>, P: Rows<F>, w: nat, g: nat)
    requires Shape(P, |P|, w) && g + |P| <= w
  {
    && (forall i :: 0 <= i < |P| ==> ZeroBefore(K, P[i], g))
    && forall i, c :: 0 <= i < |P| && g <= c < g + |P| && c != g + i ==> P[i][c] == K.zero
  }

  /** Adding a row leaves alone the columns where it is zero. */
  lemma EntriesStay<F(!new)>(K: Field<F>, t: Vector<F>, f: F, p: Vector<F>, from: nat, upto: nat)
    requires K.Lawful() && |t| == |p| && upto <= |t| && forall c :: from <= c < upto ==> p[c] == K.zero
    ensures forall c :: from <= c < upto ==> AddScaled(K, t, f, p)[c] == t[c]
  {
    forall c | from <= c < upto ensures AddScaled(K, t, f, p)[c] == t[c] {
      MulZero(K, f);
      AddZero(K, t[c]);
    }
  }

  /** Take the reduced pivots one by one, each with the factor the row now has in its column. */
  method Forward<F(!new,==)>(K: Field<F>, row: Vector<F>, P: Rows<F>, g: nat) returns (out: Vector<F>)
    requires K.Lawful() && Shape(P, |P|, |row|) && g + |P| <= |row| && Reduced(K, P, |row|, g)
    ensures out == Combined(K, row, Entries(row, g, |P|), P, |P|)
  {
    out := row;
    for i := 0 to |P|
      invariant out == Combined(K, row, Entries(row, g, |P|), P, i)
      invariant forall c :: g + i <= c < g + |P| ==> out[c] == row[c]
    {
      var factor := out[g + i];
      TailEnough(K, out, factor, P[i], g);
      ghost var before := out;
      if factor != K.zero {
        out := AddTail(K, out, factor, P[i], g);
      }
      assert out == AddScaled(K, before, factor, P[i]);
      EntriesStay(K, before, factor, P[i], g + i + 1, g + |P|);
    }
  }

  /** Take all the reduced pivots at once, the factors read beforehand and the zero ones left out. */
  method RankPass<F(!new,==)>(K: Field<F>, row: Vector<F>, P: Rows<F>, g: nat) returns (out: Vector<F>)
    requires K.Lawful() && Shape(P, |P|, |row|) && g + |P| <= |row| && Reduced(K, P, |row|, g)
    ensures out == Combined(K, row, Entries(row, g, |P|), P, |P|)
  {
    out := row;
    for i := 0 to |P|
      invariant out == Combined(K, row, Entries(row, g, |P|), P, i)
    {
      TailEnough(K, out, row[g + i], P[i], g);
      if row[g + i] != K.zero {
        out := AddTail(K, out, row[g + i], P[i], g);
      }
    }
  }

  /** Clear the new pivot's column from the earlier rows of the group. */
  method Backward<F(!new,==)>(K: Field<F>, P: Rows<F>, row: Vector<F>, col: nat) returns (Q: Rows<F>)
    requires K.Lawful() && Shape(P, |P|, |row|) && col < |row| && ZeroBefore(K, row, col)
    ensures |Q| == |P| && forall i :: 0 <= i < |P| ==> Q[i] == AddScaled(K, P[i], P[i][col], row)
  {
    Q := [];
    for i := 0 to |P|
      invariant |Q| == i && forall h :: 0 <= h < i ==> Q[h] == AddScaled(K, P[h], P[h][col], row)
    {
      var factor := P[i][col];
      TailEnough(K, P[i], factor, row, col);
      Q := Q + [if factor != K.zero then AddTail(K, P[i], factor, row, col) else P[i]];
    }
  }

  lemma ScaleByOne<F(!new)>(K: Field<F>, row: Vector<F>)
    requires K.Lawful()
    ensures ScaleRow(K, row, Inv(K, K.one)) == row
  {
    MulInv(K, K.one);
    MulOne(K, Inv(K, K.one));
    forall c | 0 <= c < |row| ensures ScaleRow(K, row, Inv(K, K.one))[c] == row[c] { MulOne(K, row[c]); }
  }

  /** A pivot of one is left alone. */
  method Normalise<F(!new,==)>(K: Field<F>, row: Vector<F>, col: nat) returns (out: Vector<F>)
    requires K.Lawful() && col < |row|
    ensures out == ScaleRow(K, row, Inv(K, row[col]))
  {
    if row[col] != K.one {
      out := ScaleRow(K, row, Inv(K, row[col]));
    } else {
      ScaleByOne(K, row);
      out := row;
    }
  }

  /** The group's rows after j steps; the others are still to come. */
  ghost predicate Holding<F(!new)>(K: Field<F>, A: Rows<F>, w: nat, g: nat, j: nat, P: Rows<F>)
    requires Shape(A, |A|, w) && g + j <= |A| <= w
  {
    P == Group(Steps(K, A, w, g, j), w, g, j)
  }

  lemma HoldingReduced<F(!new)>(K: Field<F>, A: Rows<F>, w: nat, g: nat, j: nat, P: Rows<F>)
    requires K.Lawful() && Shape(A, |A|, w) && g + j <= |A| <= w && UnitColumns(K, A, w, g) && Runs(K, A, w, g, j)
    requires Holding(K, A, w, g, j, P)
    ensures Shape(P, j, w) && Reduced(K, P, w, g)
  {
    StepsUnit(K, A, w, g, j);
    UnitReduced(K, Steps(K, A, w, g, j), w, g, j, P);
  }

  lemma UnitReduced<F(!new)>(K: Field<F>, B: Rows<F>, w: nat, g: nat, j: nat, P: Rows<F>)
    requires Shape(B, |B|, w) && g + j <= |B| <= w && UnitColumns(K, B, w, g + j) && P == Group(B, w, g, j)
    ensures Shape(P, j, w) && Reduced(K, P, w, g)
  {
    forall i, c | 0 <= i < j && 0 <= c < g + j && c != g + i ensures P[i][c] == K.zero {
      assert P[i][c] == B[g + i][c];
    }
  }

  /** The row the rank-k lemma promises. */
  lemma ForwardRow<F(!new)>(K: Field<F>, A: Rows<F>, w: nat, g: nat, j: nat, col: nat, P: Rows<F>, row: Vector<F>)
    requires K.Lawful() && Shape(A, |A|, w) && g + j == col < |A| <= w && UnitColumns(K, A, w, g) && Runs(K, A, w, g, j)
    requires Holding(K, A, w, g, j, P) && Shape(P, j, w) && row == Combined(K, A[col], Entries(A[col], g, j), P, j)
    ensures row == Steps(K, A, w, g, j)[col] && ZeroBefore(K, row, col)
  {
    RankRow(K, A, w, g, j, col);
    StepsUnit(K, A, w, g, j);
  }

  lemma HoldingNext<F(!new)>(K: Field<F>, A: Rows<F>, w: nat, g: nat, j: nat, col: nat, P: Rows<F>, row: Vector<F>,
                             Q: Rows<F>)
    requires K.Lawful() && Shape(A, |A|, w) && g + j == col < |A| <= w && Runs(K, A, w, g, j) &&
             Holding(K, A, w, g, j, P)
    requires Shape(P, j, w) && |row| == w && Steps(K, A, w, g, j)[col][col] != K.zero
    requires row == PivotRow(K, Steps(K, A, w, g, j), w, col)
    requires |Q| == j && forall i :: 0 <= i < j ==> Q[i] == AddScaled(K, P[i], P[i][col], row)
    ensures Runs(K, A, w, g, j + 1) && Holding(K, A, w, g, j + 1, Q + [row])
  {
    RunsMore(K, A, w, g, j, col);
    NextRows(K, Steps(K, A, w, g, j), Steps(K, A, w, g, j + 1), w, g, j, col, P, row, Q);
  }

  lemma NextRows<F(!new)>(K: Field<F>, B: Rows<F>, C: Rows<F>, w: nat, g: nat, j: nat, col: nat, P: Rows<F>,
                          row: Vector<F>, Q: Rows<F>)
    requires Shape(B, |B|, w) && g + j == col < |B| <= w && C == Clear(K, B, w, col) && P == Group(B, w, g, j)
    requires row == PivotRow(K, B, w, col) && Shape(P, j, w)
    requires |Q| == j && forall i :: 0 <= i < j ==> Q[i] == AddScaled(K, P[i], P[i][col], row)
    ensures Q + [row] == Group(C, w, g, j + 1)
  {
    forall i | 0 <= i < j ensures Q[i] == C[g + i] {
      assert P[i] == B[g + i];
    }
  }

  lemma ScaledZeros<F(!new)>(K: Field<F>, row: Vector<F>, f: F, col: nat)
    requires K.Lawful() && ZeroBefore(K, row, col)
    ensures ZeroBefore(K, ScaleRow(K, row, f), col)
  {
    MulZero(K, f);
  }

  /** One more row of the group, unless it has a zero on the diagonal. */
  method ReduceRow<F(!new,==)>(K: Field<F>, A: Rows<F>, w: nat, g: nat, j: nat, P: Rows<F>)
    returns (ok: bool, Q: Rows<F>)
    requires K.Lawful() && Shape(A, |A|, w) && g + j < |A| <= w && UnitColumns(K, A, w, g)
    requires Runs(K, A, w, g, j) && Holding(K, A, w, g, j, P)
    ensures ok == Good(K, A, w, g, j)
    ensures ok ==> Runs(K, A, w, g, j + 1) && Holding(K, A, w, g, j + 1, Q)
  {
    var col := g + j;
    HoldingReduced(K, A, w, g, j, P);
    var row := Forward(K, A[col], P, g);
    ForwardRow(K, A, w, g, j, col, P, row);
    if row[col] == K.zero {
      return false, P;
    }
    ScaledZeros(K, row, Inv(K, row[col]), col);
    var pivot := Normalise(K, row, col);
    Q := Backward(K, P, pivot, col);
    HoldingNext(K, A, w, g, j, col, P, pivot, Q);
    return true, Q + [pivot];
  }

  /** in_group_reduce: the group's rows reduced against each other, or the first zero on the diagonal. */
  method ReduceGroup<F(!new,==)>(K: Field<F>, A: Rows<F>, w: nat, g: nat, k: nat) returns (ok: bool, P: Rows<F>)
    requires K.Lawful() && Shape(A, |A|, w) && g + k <= |A| <= w && UnitColumns(K, A, w, g)
    ensures |P| <= k && Runs(K, A, w, g, |P|) && Holding(K, A, w, g, |P|, P)
    ensures if ok then |P| == k else |P| < k && !Good(K, A, w, g, |P|)
  {
    P := [];
    for j := 0 to k
      invariant |P| == j && Runs(K, A, w, g, j) && Holding(K, A, w, g, j, P)
    {
      var Q;
      ok, Q := ReduceRow(K, A, w, g, j, P);
      if !ok {
        return;
      }
      P := Q;
    }
    ok := true;
  }

  /** Row t after the whole group. */
  method RowAfter<F(!new,==)>(K: Field<F>, A: Rows<F>, w: nat, g: nat, P: Rows<F>, t: nat) returns (row: Vector<F>)
    requires K.Lawful() && Shape(A, |A|, w) && g + |P| <= |A| <= w && t < |A| && Runs(K, A, w, g, |P|)
    requires Holding(K, A, w, g, |P|, P) && Shape(P, |P|, w) && Reduced(K, P, w, g)
    ensures row == Steps(K, A, w, g, |P|)[t]
  {
    if g <= t < g + |P| {
      row := P[t - g];
    } else {
      RankRow(K, A, w, g, |P|, t);
      row := RankPass(K, A[t], P, g);
    }
  }

  /** apply_rank_k: every row outside the group takes the reduced pivots in one pass. */
  method ApplyRankK<F(!new,==)>(K: Field<F>, A: Rows<F>, w: nat, g: nat, P: Rows<F>) returns (B: Rows<F>)
    requires K.Lawful() && Shape(A, |A|, w) && g + |P| <= |A| <= w && UnitColumns(K, A, w, g)
    requires Runs(K, A, w, g, |P|) && Holding(K, A, w, g, |P|, P)
    ensures B == Steps(K, A, w, g, |P|)
  {
    HoldingReduced(K, A, w, g, |P|, P);
    B := [];
    for t := 0 to |A|
      invariant |B| == t && forall r :: 0 <= r < t ==> B[r] == Steps(K, A, w, g, |P|)[r]
    {
      var row := RowAfter(K, A, w, g, P, t);
      B := B + [row];
    }
  }

  /** invert_augmented_tiled: elimination without pivoting, a group of columns at a time. */
  method InvertTiled<F(!new,==)>(K: Field<F>, A: Rows<F>, w: nat) returns (res: Reduction<F>)
    requires K.Lawful() && Shape(A, |A|, w) && |A| <= w
    ensures res == Unpivoted(K, A, w, 0)
  {
    var B, g := A, 0;
    ghost var expected := Unpivoted(K, A, w, 0);
    while g < |A|
      invariant g <= |A| && Shape(B, |A|, w) && UnitColumns(K, B, w, g) && GoesOn(K, B, w, g, expected)
      decreases |A| - g
    {
      var k := Min(TILE_GROUP, |A| - g);
      var ok, P := ReduceGroup(K, B, w, g, k);
      UnpivotedOn(K, B, w, g, |P|, g + |P|, expected);
      StepsUnit(K, B, w, g, |P|);
      if !ok {
        return Singular(g + |P|);
      }
      B := ApplyRankK(K, B, w, g, P);
      g := g + k;
    }
    res := Elimination.Reduced(B);
  }
}
