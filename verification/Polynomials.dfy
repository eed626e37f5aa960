/** A nonzero polynomial has no more roots than its degree: why repair with a run
    of consecutive exponents never meets a dependent row. */
module Polynomials {
  import opened Fields
  import opened Linear
  import opened Elimination
  import opened Inversion
  import opened Vandermonde

  /** p[0] + p[1] x + p[2] x^2 + ... */
  ghost function Eval<F(!new)>(K: Field<F>, p: seq<F>, x: F): F {
    if p == [] then K.zero else Add(K, p[0], Mul(K, x, Eval(K, p[1..], x)))
  }

  /** The quotient of p by x - r. */
  ghost function Quotient<F(!new)>(K: Field<F>, p: seq<F>, r: F): (q: seq<F>)
    ensures |q| == if p == [] then 0 else |p| - 1
  {
    if |p| <= 1 then [] else [Eval(K, p[1..], r)] + Quotient(K, p[1..], r)
  }

  /** p(x) == p(r) + (x - r) q(x) */
  lemma {:induction false} Division<F(!new)>(K: Field<F>, p: seq<F>, r: F, x: F)
    requires K.Lawful() && p != []
    ensures Eval(K, p, x) == Add(K, Eval(K, p, r), Mul(K, Add(K, x, r), Eval(K, Quotient(K, p, r), x)))
  {
    var t := p[1..];
    if t == [] {
      MulZero(K, x);
      MulZero(K, r);
      MulZero(K, Add(K, x, r));
      AddZero(K, Add(K, p[0], K.zero));
    } else {
      Division(K, t, r, x);
      var d, tr, s := Add(K, x, r), Eval(K, t, r), Eval(K, Quotient(K, t, r), x);
      var q := Quotient(K, p, r);
      assert q[1..] == Quotient(K, t, r);
      // x t(x) == x t(r) + x d s, and d q(x) == d t(r) + d x s.
      Distribute(K, x, tr, Mul(K, d, s));
      Distribute(K, d, tr, Mul(K, x, s));
      MulAssoc(K, x, d, s);
      MulComm(K, x, d);
      MulAssoc(K, d, x, s);
      // r t(r) + d t(r) == x t(r).
      MulComm(K, d, tr);
      Distribute(K, tr, x, r);
      MulComm(K, tr, x);
      MulComm(K, tr, r);
      AddComm(K, Mul(K, x, tr), Mul(K, r, tr));
      AddTwice(K, Mul(K, r, tr), Mul(K, x, tr));
      AddAssoc(K, p[0], Mul(K, r, tr), Add(K, Mul(K, d, tr), Mul(K, d, Mul(K, x, s))));
      AddAssoc(K, Mul(K, r, tr), Mul(K, d, tr), Mul(K, d, Mul(K, x, s)));
    }
  }

  lemma {:induction false} QuotientLeads<F(!new)>(K: Field<F>, p: seq<F>, r: F)
    requires K.Lawful() && |p| >= 2
    ensures Quotient(K, p, r)[|p| - 2] == p[|p| - 1]
  {
    if |p| == 2 {
      assert p[1..][1..] == [];
      MulZero(K, r);
      AddZero(K, p[1]);
      assert Quotient(K, p, r)[0] == Eval(K, p[1..], r) == Add(K, p[1], Mul(K, r, K.zero));
    } else {
      QuotientLeads(K, p[1..], r);
      assert Quotient(K, p, r)[1..] == Quotient(K, p[1..], r);
    }
  }

  ghost predicate Distinct<F>(s: seq<F>) {
    forall i, j :: 0 <= i < j < |s| ==> s[i] != s[j]
  }

  /** No polynomial with leading coefficient one has as many distinct roots as coefficients. */
  lemma {:induction false} TooManyRoots<F(!new)>(K: Field<F>, p: seq<F>, roots: seq<F>)
    requires K.Lawful() && p != [] && p[|p| - 1] == K.one && |roots| == |p| && Distinct(roots)
    ensures exists i :: 0 <= i < |roots| && Eval(K, p, roots[i]) != K.zero
    decreases |p|
  {
    if |p| == 1 {
      MulZero(K, roots[0]);
      AddZero(K, K.one);
      assert Eval(K, p, roots[0]) != K.zero;
    } else if Eval(K, p, roots[0]) == K.zero {
      var r, q := roots[0], Quotient(K, p, roots[0]);
      QuotientLeads(K, p, r);
      TooManyRoots(K, q, roots[1..]);
      var i :| 0 <= i < |roots[1..]| && Eval(K, q, roots[1..][i]) != K.zero;
      var x := roots[i + 1];
      Division(K, p, r, x);
      AddToZero(K, x, r);
      MulToZero(K, Add(K, x, r), Eval(K, q, x));
      AddZero(K, Mul(K, Add(K, x, r), Eval(K, q, x)));
      assert Eval(K, p, x) != K.zero;
    }
  }

  lemma {:induction false} PowNonZero<F(!new)>(K: Field<F>, x: F, e: nat)
    requires K.Lawful() && x != K.zero
    ensures Pow(K, x, e) != K.zero
  {
    if e > 0 {
      PowNonZero(K, x, e - 1);
      MulToZero(K, x, Pow(K, x, e - 1));
    }
  }

  /** A sum of coefficients against consecutive powers is a power times a polynomial value. */
  lemma {:induction false} ConsecutiveDot<F(!new)>(K: Field<F>, p: seq<F>, v: seq<F>, x: F, e: nat)
    requires K.Lawful() && |v| == |p| && forall i :: 0 <= i < |p| ==> v[i] == Pow(K, x, e + i)
    ensures Dot(K, p, v, |p|) == Mul(K, Pow(K, x, e), Eval(K, p, x))
    decreases |p|
  {
    if p == [] {
      MulZero(K, Pow(K, x, e));
    } else {
      var p', v' := p[1..], v[1..];
      forall i | 0 <= i < |p'| ensures v'[i] == Pow(K, x, e + 1 + i) {
        assert v'[i] == v[i + 1];
      }
      ConsecutiveDot(K, p', v', x, e + 1);
      assert p == [p[0]] + p' && v == [v[0]] + v';
      DotAppend(K, [p[0]], p', [v[0]], v', |p'|);
      DotSingle(K, [p[0]], [v[0]], 1, 0);
      var b, t := Pow(K, x, e), Eval(K, p', x);
      MulComm(K, p[0], b);
      MulComm(K, x, b);
      MulAssoc(K, b, x, t);
      Distribute(K, b, p[0], Mul(K, x, t));
    }
  }

  ghost predicate Consecutive(exponents: seq<nat>) {
    forall i :: 0 < i < |exponents| ==> exponents[i] == exponents[i - 1] + 1
  }

  lemma {:induction false} ConsecutiveFrom(exponents: seq<nat>, i: nat)
    requires Consecutive(exponents) && i < |exponents|
    ensures exponents[i] == exponents[0] + i
  {
    if i > 0 { ConsecutiveFrom(exponents, i - 1); }
  }

  /** With consecutive exponents and distinct nonzero constants no row depends on those above it. */
  lemma RunIndependent<F(!new)>(K: Field<F>, constants: seq<F>, missing: seq<nat>, exponents: seq<nat>, k: nat)
    requires K.Lawful() && Within(missing, |constants|) && |exponents| == |missing| && k < |missing|
    requires Consecutive(exponents) && Distinct(Pick(constants, missing)) && K.zero !in Pick(constants, missing)
    ensures !DependsOnAbove(K, PowerRows(K, constants, missing, exponents), |missing|, k)
  {
    var n, S, c := |missing|, PowerRows(K, constants, missing, exponents), Pick(constants, missing);
    forall l: Vector<F> | |l| == k ensures !CombinesTo(K, S, n, k, l) {
      var p := l + [K.one];
      TooManyRoots(K, p, c[..k + 1]);
      var j :| 0 <= j < k + 1 && Eval(K, p, c[..k + 1][j]) != K.zero;
      MonicAtConstant(K, constants, missing, exponents, k, l, j);
      PowNonZero(K, c[j], exponents[0]);
      MulToZero(K, Pow(K, c[j], exponents[0]), Eval(K, p, c[j]));
      AddToZero(K, Dot(K, l, Column(S, n, j), k), S[k][j]);
    }
  }

  lemma MonicAtConstant<F(!new)>(K: Field<F>, constants: seq<F>, missing: seq<nat>, exponents: seq<nat>, k: nat,
                                 l: Vector<F>, j: nat)
    requires K.Lawful() && Within(missing, |constants|) && |exponents| == |missing| && k < |missing| && j <= k &&
             |l| == k
    requires Consecutive(exponents)
    ensures var S := PowerRows(K, constants, missing, exponents);
            Add(K, Dot(K, l, Column(S, |missing|, j), k), S[k][j]) ==
            Mul(K, Pow(K, constants[missing[j]], exponents[0]), Eval(K, l + [K.one], constants[missing[j]]))
  {
    var S, x := PowerRows(K, constants, missing, exponents), constants[missing[j]];
    var v := Column(S, |missing|, j);
    var u := v[..k + 1];
    forall i | 0 <= i <= k ensures u[i] == Pow(K, x, exponents[0] + i) {
      ConsecutiveFrom(exponents, i);
    }
    ConsecutiveDot(K, l + [K.one], u, x, exponents[0]);
    DotPrefix(K, l + [K.one], u, l, v, k);
    MulOne(K, S[k][j]);
  }
}
