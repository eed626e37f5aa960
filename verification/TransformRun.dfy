/** The band loop of the transform arm: read, transform, probe twice, write. */
module TransformRun {
  import opened Options
  import opened Arithmetic
  import opened Fields
  import opened Linear
  import opened Inversion
  import opened Vandermonde
  import opened TransformArm
  import opened Folds

  /** One byte of one file. */
  datatype Cell = Cell(file: nat, at: nat)

  /** A slice's place: the bytes of `file` from `offset`, cut at the file's `end`. */
  datatype Place = Place(file: nat, offset: nat, end: nat) {
    predicate Has(c: Cell, bytes: nat) {
      c.file == file && offset <= c.at < offset + bytes
    }
  }

  /** The files as bytes, and how often each byte has been written. */
  class FileStore<Byte(==)> {
    var cells: map<Cell, Byte>
    ghost var writes: multiset<Cell>

    method WriteRange(place: Place, at: nat, bytes: seq<Byte>)
      modifies this
      ensures forall c: Cell :: c.file == place.file && at <= c.at < at + |bytes| ==>
              c in cells && cells[c] == bytes[c.at - at]
      ensures forall c: Cell :: !(c.file == place.file && at <= c.at < at + |bytes|) ==>
                (c in cells <==> c in old(cells)) && (c in cells ==> cells[c] == old(cells)[c])
      ensures forall c: Cell :: writes[c] ==
                old(writes)[c] + if c.file == place.file && at <= c.at < at + |bytes| then 1 else 0
    {
      for k := 0 to |bytes|
        invariant forall c: Cell :: c.file == place.file && at <= c.at < at + k ==>
                  c in cells && cells[c] == bytes[c.at - at]
        invariant forall c: Cell :: !(c.file == place.file && at <= c.at < at + k) ==>
                    (c in cells <==> c in old(cells)) && (c in cells ==> cells[c] == old(cells)[c])
        invariant forall c: Cell :: writes[c] ==
                    old(writes)[c] + if c.file == place.file && at <= c.at < at + k then 1 else 0
      {
        cells := cells[Cell(place.file, at + k) := bytes[k]];
        writes := writes + multiset{Cell(place.file, at + k)};
      }
    }
  }

  // One repair on the arm.

  /** Lengths are in 16-bit words; files are in bytes. `sources` are the present
      slices' places, `targets` the missing ones', `recovery` the recovery slices. */
  datatype Arm<!F(!new), !Byte> = Arm(plan: Plan<F>, words: nat, band: nat, sources: seq<Place>, targets: seq<Place>,
                                      recovery: Rows<F>, zeroByte: Byte, join: (Byte, Byte) -> F,
                                        split: F -> (Byte, Byte)) {

    /** The lists have the lengths the plan says. */
    ghost predicate Fits() {
      && |sources| == |plan.available| && |targets| == |plan.missing| == |plan.exponents| > 0
      && Within(plan.available, |plan.constants|) && Within(plan.missing, |plan.constants|)
      && band > 0 && Shape(recovery, |targets|, words)
    }

    /** ... and the dense repair matrix has the plan's shape. */
    ghost predicate Ready() {
      Fits() && Shape(plan.repair, |plan.missing|, |plan.available| + |plan.missing|)
    }

    ghost predicate Valid(K: Field<F>) {
      plan.Valid(K) && Ready() && Apart() && SourcesApart() && Lossless()
    }

    /** A word split into bytes joins to itself again. */
    ghost predicate Lossless() {
      forall x: F {:trigger split(x)} :: join(split(x).0, split(x).1) == x
    }

    /** No byte belongs to a present slice and a missing one. */
    ghost predicate SourcesApart() {
      forall i, m, c: Cell :: 0 <= i < |sources| && 0 <= m < |targets| && sources[i].Has(c, 2 * words) ==>
        !targets[m].Has(c, 2 * words)
    }

    /** No byte belongs to two missing slices. */
    ghost predicate Apart() {
      forall m, n, c: Cell :: 0 <= m < n < |targets| && targets[m].Has(c, 2 * words) ==> !targets[n].Has(c, 2 * words)
    }

    /** Byte k of a slice, zero past the end of its file. */
    function ByteAt(cells: map<Cell, Byte>, p: Place, k: nat): Byte {
      var c := Cell(p.file, p.offset + k);
      if c.at < p.end && c in cells then cells[c] else zeroByte
    }

    function WordAt(cells: map<Cell, Byte>, p: Place, q: nat): F {
      join(ByteAt(cells, p, 2 * q), ByteAt(cells, p, 2 * q + 1))
    }

    /** Byte k of a row of words. */
    function ByteOf(row: Vector<F>, k: nat): Byte
      requires k / 2 < |row|
    {
      if k % 2 == 0 then split(row[k / 2]).0 else split(row[k / 2]).1
    }

    /** The present slices' words in one band. */
    function Staged(cells: map<Cell, Byte>, start: nat, len: nat): (S: Rows<F>)
      ensures Shape(S, |sources|, len)
      ensures forall i, k :: 0 <= i < |sources| && 0 <= k < len ==> S[i][k] == WordAt(cells, sources[i], start + k)
    {
      seq(|sources|, i requires 0 <= i < |sources| => seq(len, k requires 0 <= k < len =>
                                                          WordAt(cells, sources[i], start + k)))
    }

    function Recovered(start: nat, len: nat): (R: Rows<F>)
      requires Shape(recovery, |targets|, words) && start + len <= words
      ensures Shape(R, |targets|, len)
      ensures forall r, k :: 0 <= r < |targets| && 0 <= k < len ==> R[r][k] == recovery[r][start + k]
    {
      seq(|targets|, r requires 0 <= r < |targets| => recovery[r][start..start + len])
    }

    /** Cell c is one that repairing the first `words` words of missing slice m writes. */
    predicate Due(m: nat, c: Cell, words: nat)
      requires m < |targets|
    {
      targets[m].Has(c, 2 * words) && c.at < targets[m].end
    }

    /** ... and one that repairing words start up to start + len of it writes. */
    predicate Fresh(m: nat, c: Cell, start: nat, len: nat)
      requires m < |targets|
    {
      Due(m, c, start + len) && targets[m].offset + 2 * start <= c.at
    }
  }

  /** What the transform and the solver make of a band. */
  datatype BandResult<F> = Produced(output: Rows<F>, probe: Vector<F>) | Broken

  datatype Outcome = Executed | Diverged | Failed

  /** Words done after b bands. */
  function WalkedTo(words: nat, band: nat, b: nat): (n: nat)
    ensures n <= words
  {
    if b == 0 then 0
    else
      var n := WalkedTo(words, band, b - 1) + band;
      if n < words then n else words
  }

  /** The factors of exponent e over some slices. */
  function Factors<F(!new)>(K: Field<F>, constants: seq<F>, indices: seq<nat>, e: nat): (f: seq<F>)
    requires Within(indices, |constants|)
    ensures |f| == |indices| && forall i :: 0 <= i < |f| ==> f[i] == Pow(K, constants[indices[i]], e)
  {
    seq(|indices|, i requires 0 <= i < |indices| && indices[i] < |constants| => Pow(K, constants[indices[i]], e))
  }

  /** At one word, the recovery equation of exponent p: recovery plus present plus repaired contributions is zero. */
  ghost predicate Balanced<F(!new), Byte>(K: Field<F>, A: Arm<F, Byte>, p: nat, r: F, present: Vector<F>,
                                          repaired: Vector<F>)
    requires A.Fits() && p < |A.targets| && |present| == |A.sources| && |repaired| == |A.targets|
  {
    Add(K, Add(K, r, Dot(K, Factors(K, A.plan.constants, A.plan.available, A.plan.exponents[p]), present, |present|)),
        Dot(K, Factors(K, A.plan.constants, A.plan.missing, A.plan.exponents[p]), repaired, |repaired|)) == K.zero
  }

  /** The two probes of a band: the transform's own syndrome row against the dense sum, and
      the repaired rows re-encoded at the same exponent against that row. */
  method Probe<F(!new,==), Byte>(K: Field<F>, A: Arm<F, Byte>, p: nat, recoveryRow: Vector<F>, staging: Rows<F>,
                                 output: Rows<F>, seen: Vector<F>)
    returns (ok: bool)
    requires K.Lawful() && A.Fits() && p < |A.targets| && |seen| == |recoveryRow|
    requires Shape(staging, |A.sources|, |recoveryRow|) && Shape(output, |A.targets|, |recoveryRow|)
    ensures ok <==> forall k :: 0 <= k < |recoveryRow| ==>
              ProbesAgree(K, A, p, recoveryRow[k], Column(staging, |recoveryRow|, k), Column(output, |recoveryRow|, k),
                          seen[k])
  {
    var dense := DenseRow(K, recoveryRow, Factors(K, A.plan.constants, A.plan.available, A.plan.exponents[p]), staging);
    var zeros := DenseRow(K, seen, Factors(K, A.plan.constants, A.plan.missing, A.plan.exponents[p]), output);
    ok := dense == seen && forall k :: 0 <= k < |zeros| ==> zeros[k] == K.zero;
    if !ok && dense != seen {
      var k :| 0 <= k < |seen| && dense[k] != seen[k];
      assert !ProbesAgree(K, A, p, recoveryRow[k], Column(staging, |recoveryRow|, k), Column(output, |recoveryRow|, k),
                          seen[k]);
    } else if !ok {
      var k :| 0 <= k < |zeros| && zeros[k] != K.zero;
      assert !ProbesAgree(K, A, p, recoveryRow[k], Column(staging, |recoveryRow|, k), Column(output, |recoveryRow|, k),
                          seen[k]);
    }
  }

  ghost predicate ProbesAgree<F(!new), Byte>(K: Field<F>, A: Arm<F, Byte>, p: nat, r: F, present: Vector<F>,
                                             repaired: Vector<F>, seen: F)
    requires A.Fits() && p < |A.targets| && |present| == |A.sources| && |repaired| == |A.targets|
  {
    && seen == Add(K, r, Dot(K, Factors(K, A.plan.constants, A.plan.available, A.plan.exponents[p]), present,
                             |present|))
    && Add(K, seen, Dot(K, Factors(K, A.plan.constants, A.plan.missing, A.plan.exponents[p]), repaired, |repaired|)) ==
       K.zero
  }

  /** Write words start up to start + len of missing slice n, cut at its file's end. */
  method WriteRow<F(!new), Byte(==)>(store: FileStore<Byte>, A: Arm<F, Byte>, n: nat, start: nat, len: nat,
                                     row: Vector<F>)
    requires n < |A.targets| && |row| == len
    modifies store
    ensures forall c: Cell :: Lookup(store.cells, c) ==
              if A.Fresh(n, c, start, len) then Some(A.ByteOf(row, c.at - A.targets[n].offset - 2 * start))
                else Lookup(old(store.cells), c)
    ensures forall c: Cell :: store.writes[c] == old(store.writes)[c] + if A.Fresh(n, c, start, len) then 1 else 0
  {
    var t := A.targets[n];
    var at := t.offset + 2 * start;
    var remaining := if at < t.end then t.end - at else 0;
    var take := if remaining < 2 * len then remaining else 2 * len;
    if take > 0 {
      store.WriteRange(t, at, seq(take, k requires 0 <= k < take => A.ByteOf(row, k)));
    }
  }

  /** Cell c once the band's first n rows are written. */
  ghost function After<F(!new), Byte>(A: Arm<F, Byte>, output: Rows<F>, start: nat, len: nat, n: nat,
                                      cells: map<Cell, Byte>, c: Cell): Option<Byte>
    requires Shape(output, |A.targets|, len) && n <= |A.targets|
  {
    if n == 0 then Lookup(cells, c)
    else if A.Fresh(n - 1, c, start, len) then Some(A.ByteOf(output[n - 1], c.at - A.targets[n - 1].offset - 2 * start))
    else After(A, output, start, len, n - 1, cells, c)
  }

  ghost function Writes<F(!new), Byte>(A: Arm<F, Byte>, start: nat, len: nat, n: nat, c: Cell): nat
    requires n <= |A.targets|
  {
    if n == 0 then 0 else Writes(A, start, len, n - 1, c) + if A.Fresh(n - 1, c, start, len) then 1 else 0
  }

  /** Write one band of every missing slice. */
  method WriteBand<F(!new), Byte(==)>(store: FileStore<Byte>, A: Arm<F, Byte>, start: nat, len: nat, output: Rows<F>)
    requires Shape(output, |A.targets|, len)
    modifies store
    ensures forall c: Cell :: Lookup(store.cells, c) == After(A, output, start, len, |A.targets|, old(store.cells), c)
    ensures forall c: Cell :: store.writes[c] == old(store.writes)[c] + Writes(A, start, len, |A.targets|, c)
  {
    for n := 0 to |A.targets|
      invariant forall c: Cell :: Lookup(store.cells, c) == After(A, output, start, len, n, old(store.cells), c)
      invariant forall c: Cell :: store.writes[c] == old(store.writes)[c] + Writes(A, start, len, n, c)
    {
      WriteRow(store, A, n, start, len, output[n]);
    }
  }

  /** A cell of missing slice m gets that slice's byte, once. */
  lemma {:induction false} AfterFresh<F(!new), Byte>(A: Arm<F, Byte>, output: Rows<F>, start: nat, len: nat, n: nat,
                                                     cells: map<Cell, Byte>, c: Cell, m: nat)
    requires A.Apart() && start + len <= A.words && Shape(output, |A.targets|, len) && n <= |A.targets| &&
             m < |A.targets| && A.Fresh(m, c, start, len)
    ensures After(A, output, start, len, n, cells, c) ==
            if m < n then Some(A.ByteOf(output[m], c.at - A.targets[m].offset - 2 * start)) else Lookup(cells, c)
    ensures Writes(A, start, len, n, c) == if m < n then 1 else 0
  {
    if n > 0 {
      AfterFresh(A, output, start, len, n - 1, cells, c, m);
      assert A.targets[m].Has(c, 2 * A.words);
      assert A.Fresh(n - 1, c, start, len) ==> A.targets[n - 1].Has(c, 2 * A.words);
    }
  }

  /** A cell no missing slice writes in this band is left alone. */
  lemma {:induction false} AfterSpared<F(!new), Byte>(A: Arm<F, Byte>, output: Rows<F>, start: nat, len: nat, n: nat,
                                                      cells: map<Cell, Byte>, c: Cell)
    requires Shape(output, |A.targets|, len) && n <= |A.targets|
    requires forall m :: 0 <= m < |A.targets| ==> !A.Fresh(m, c, start, len)
    ensures After(A, output, start, len, n, cells, c) == Lookup(cells, c) && Writes(A, start, len, n, c) == 0
  {
    if n > 0 { AfterSpared(A, output, start, len, n - 1, cells, c); }
  }

  // The loop over bands. What is repaired so far is kept word by word: repaired[q][m] is word q of missing slice m.

  ghost function Transposed<F(!new)>(output: Rows<F>, n: nat, len: nat): (C: Rows<F>)
    requires Shape(output, n, len)
    ensures Shape(C, len, n) && forall k :: 0 <= k < len ==> C[k] == Column(output, len, k)
  {
    seq(len, k requires 0 <= k < len => Column(output, len, k))
  }

  ghost function RepairedByte<F(!new), Byte>(A: Arm<F, Byte>, repaired: Rows<F>, m: nat, k: nat): Byte
    requires Shape(repaired, |repaired|, |A.targets|) && m < |A.targets| && k < 2 * |repaired|
  {
    if k % 2 == 0 then A.split(repaired[k / 2][m]).0 else A.split(repaired[k / 2][m]).1
  }

  /** Cell c once the words of `repaired` are written: its slice's byte, written once, or as it was. */
  ghost predicate CellSettled<F(!new), Byte>(A: Arm<F, Byte>, before: map<Cell, Byte>, now: map<Cell, Byte>,
                                             wasWritten: multiset<Cell>, written: multiset<Cell>, repaired: Rows<F>,
                                               c: Cell)
    requires Shape(repaired, |repaired|, |A.targets|)
  {
    && (forall m :: 0 <= m < |A.targets| && A.Due(m, c, |repaired|) ==>
          Lookup(now, c) == Some(RepairedByte(A, repaired, m, c.at - A.targets[m].offset)) &&
            written[c] == wasWritten[c] + 1)
    && ((forall m :: 0 <= m < |A.targets| ==> !A.Due(m, c, |repaired|)) ==>
          Lookup(now, c) == Lookup(before, c) && written[c] == wasWritten[c])
  }

  lemma CellStep<F(!new), Byte>(A: Arm<F, Byte>, before: map<Cell, Byte>, now: map<Cell, Byte>, next: map<Cell, Byte>,
                                wasWritten: multiset<Cell>, written: multiset<Cell>, nextWritten: multiset<Cell>,
                                repaired: Rows<F>, output: Rows<F>, len: nat, R: Rows<F>, c: Cell)
    requires A.Apart() && |repaired| + len <= A.words && Shape(repaired, |repaired|, |A.targets|) &&
             Shape(output, |A.targets|, len)
    requires CellSettled(A, before, now, wasWritten, written, repaired, c)
    requires Lookup(next, c) == After(A, output, |repaired|, len, |A.targets|, now, c)
    requires nextWritten[c] == written[c] + Writes(A, |repaired|, len, |A.targets|, c)
    requires R == repaired + Transposed(output, |A.targets|, len)
    ensures CellSettled(A, before, next, wasWritten, nextWritten, R, c)
  {
    var done := |repaired|;
    if m :| 0 <= m < |A.targets| && A.Fresh(m, c, done, len) {
      AfterFresh(A, output, done, len, |A.targets|, now, c, m);
      DueFresh(A, c, done, len, |R|, m);
      RepairedFresh(A, repaired, output, len, R, m, c.at - A.targets[m].offset);
    } else {
      AfterSpared(A, output, done, len, |A.targets|, now, c);
      forall n | 0 <= n < |A.targets| ensures A.Due(n, c, |R|) <==> A.Due(n, c, done) {
        assert !A.Fresh(n, c, done, len);
      }
    }
  }

  lemma RepairedFresh<F(!new), Byte>(A: Arm<F, Byte>, repaired: Rows<F>, output: Rows<F>, len: nat, R: Rows<F>, m: nat,
                                     k: nat)
    requires Shape(repaired, |repaired|, |A.targets|) && Shape(output, |A.targets|, len) &&
             R == repaired + Transposed(output, |A.targets|, len)
    requires m < |A.targets| && 2 * |repaired| <= k < 2 * (|repaired| + len)
    ensures RepairedByte(A, R, m, k) == A.ByteOf(output[m], k - 2 * |repaired|)
  {
  }

  /** A cell first due in this band is due for that one slice only. */
  lemma DueFresh<F(!new), Byte>(A: Arm<F, Byte>, c: Cell, done: nat, len: nat, upto: nat, m: nat)
    requires A.Apart() && upto == done + len <= A.words && m < |A.targets| && A.Fresh(m, c, done, len)
    ensures forall n :: 0 <= n < |A.targets| ==> !A.Due(n, c, done)
    ensures forall n :: 0 <= n < |A.targets| && n != m ==> !A.Due(n, c, upto)
  {
    assert A.targets[m].Has(c, 2 * A.words);
    forall n | 0 <= n < |A.targets| && n != m ensures !A.Due(n, c, done) && !A.Due(n, c, upto) {
      assert !A.targets[n].Has(c, 2 * A.words);
    }
  }

  /** Every cell is settled. */
  ghost predicate AllSettled<F(!new), Byte>(A: Arm<F, Byte>, before: map<Cell, Byte>, now: map<Cell, Byte>,
                                            wasWritten: multiset<Cell>, written: multiset<Cell>, repaired: Rows<F>)
    requires Shape(repaired, |repaired|, |A.targets|)
  {
    forall c: Cell :: CellSettled(A, before, now, wasWritten, written, repaired, c)
  }

  /** Writing missing slices leaves the present slices' words as they were. */
  lemma StagedUnchanged<F(!new), Byte>(A: Arm<F, Byte>, before: map<Cell, Byte>, now: map<Cell, Byte>,
                                       wasWritten: multiset<Cell>, written: multiset<Cell>, repaired: Rows<F>,
                                         start: nat, len: nat)
    requires A.SourcesApart() && |repaired| <= A.words && start + len <= A.words &&
             Shape(repaired, |repaired|, |A.targets|)
    requires AllSettled(A, before, now, wasWritten, written, repaired)
    ensures A.Staged(now, start, len) == A.Staged(before, start, len)
  {
    var S, T := A.Staged(now, start, len), A.Staged(before, start, len);
    forall i | 0 <= i < |A.sources| ensures S[i] == T[i] {
      forall k | 0 <= k < len ensures S[i][k] == T[i][k] {
        WordUnchanged(A, before, now, wasWritten, written, repaired, i, start + k);
      }
    }
  }

  lemma WordUnchanged<F(!new), Byte>(A: Arm<F, Byte>, before: map<Cell, Byte>, now: map<Cell, Byte>,
                                     wasWritten: multiset<Cell>, written: multiset<Cell>, repaired: Rows<F>, i: nat,
                                       q: nat)
    requires A.SourcesApart() && |repaired| <= A.words && Shape(repaired, |repaired|, |A.targets|) && i < |A.sources| &&
             q < A.words
    requires AllSettled(A, before, now, wasWritten, written, repaired)
    ensures A.WordAt(now, A.sources[i], q) == A.WordAt(before, A.sources[i], q)
  {
    ByteUnchanged(A, before, now, wasWritten, written, repaired, i, 2 * q);
    ByteUnchanged(A, before, now, wasWritten, written, repaired, i, 2 * q + 1);
  }

  lemma ByteUnchanged<F(!new), Byte>(A: Arm<F, Byte>, before: map<Cell, Byte>, now: map<Cell, Byte>,
                                     wasWritten: multiset<Cell>, written: multiset<Cell>, repaired: Rows<F>, i: nat,
                                       k: nat)
    requires A.SourcesApart() && |repaired| <= A.words && Shape(repaired, |repaired|, |A.targets|) && i < |A.sources| &&
             k < 2 * A.words
    requires AllSettled(A, before, now, wasWritten, written, repaired)
    ensures A.ByteAt(now, A.sources[i], k) == A.ByteAt(before, A.sources[i], k)
  {
    var c := Cell(A.sources[i].file, A.sources[i].offset + k);
    assert A.sources[i].Has(c, 2 * A.words);
    assert CellSettled(A, before, now, wasWritten, written, repaired, c);
    assert forall m :: 0 <= m < |A.targets| ==> !A.Due(m, c, |repaired|);
    assert Lookup(now, c) == Lookup(before, c);
  }

  /** What the transform and the solver return has the band's shape; nothing else is asked of it. */
  ghost predicate Shaped<F(!new), Byte>(A: Arm<F, Byte>, engine: (nat, Rows<F>, Rows<F>) -> BandResult<F>) {
    forall b: nat, S: Rows<F>, R: Rows<F>, len: nat :: Shape(S, |A.sources|, len) && Shape(R, |A.targets|, len) ==>
      engine(b, S, R).Produced? ==>
        Shape(engine(b, S, R).output, |A.targets|, len) && |engine(b, S, R).probe| == len
  }

  /** Whatever the engine produces is what the exact transform and the explicit inverse would. */
  ghost predicate SoundEngine<F(!new), Byte>(K: Field<F>, A: Arm<F, Byte>,
                                             engine: (nat, Rows<F>, Rows<F>) -> BandResult<F>)
    requires A.Valid(K)
  {
    forall b: nat, S: Rows<F>, R: Rows<F>, len: nat :: Shape(S, |A.sources|, len) && Shape(R, |A.targets|, len) ==>
      engine(b, S, R).Produced? ==> ExactOn(K, A, engine(b, S, R), b % |A.targets|, S, R, len)
  }

  /** The engine never reports an error. */
  ghost predicate Unfailing<F(!new)>(engine: (nat, Rows<F>, Rows<F>) -> BandResult<F>) {
    forall b: nat, S: Rows<F>, R: Rows<F> :: engine(b, S, R).Produced?
  }

  ghost predicate ExactOn<F(!new), Byte>(K: Field<F>, A: Arm<F, Byte>, result: BandResult<F>, p: nat, S: Rows<F>,
                                         R: Rows<F>, len: nat)
    requires A.Valid(K) && p < |A.targets| && Shape(S, |A.sources|, len) && Shape(R, |A.targets|, len)
  {
    && result.Produced? && Shape(result.output, |A.targets|, len) && |result.probe| == len
    && forall k :: 0 <= k < len ==>
       ExactWord(K, A, p, Column(S, len, k), Column(R, len, k), Column(result.output, len, k), result.probe[k])
  }

  ghost predicate ExactWord<F(!new), Byte>(K: Field<F>, A: Arm<F, Byte>, p: nat, present: Vector<F>, r: Vector<F>,
                                           x: Vector<F>, seen: F)
    requires A.Valid(K) && p < |A.targets| && |present| == |A.sources| && |r| == |A.targets|
  {
    x == ArmRepair(K, A.plan, present, r) && seen == Syndromes(K, A.plan, present, r)[p]
  }

  lemma ExactAgrees<F(!new), Byte>(K: Field<F>, A: Arm<F, Byte>, p: nat, present: Vector<F>, r: Vector<F>)
    requires A.Valid(K) && p < |A.targets| && |present| == |A.sources| && |r| == |A.targets|
    ensures ProbesAgree(K, A, p, r[p], present, ArmRepair(K, A.plan, present, r), Syndromes(K, A.plan, present, r)[p])
  {
    var P := A.plan;
    var S, D := PowerRows(K, P.constants, P.missing, P.exponents), Right(P.repair, |P.available|, |P.missing|);
    var syn := Syndromes(K, P, present, r);
    SyndromeIs(K, P, present, r, p);
    assert Factors(K, P.constants, P.available, P.exponents[p]) ==
      PowerRows(K, P.constants, P.available, P.exponents)[p];
    assert Factors(K, P.constants, P.missing, P.exponents[p]) == S[p];
    assert Undone(K, S, D, |P.missing|, syn);
    assert Apply(K, S, |P.missing|, ArmRepair(K, P, present, r))[p] == syn[p];
    AddSelf(K, syn[p]);
  }

  ghost function PresentAt<F(!new), Byte>(A: Arm<F, Byte>, cells: map<Cell, Byte>, q: nat): (v: Vector<F>)
    ensures |v| == |A.sources| && forall i :: 0 <= i < |v| ==> v[i] == A.WordAt(cells, A.sources[i], q)
  {
    seq(|A.sources|, i requires 0 <= i < |A.sources| => A.WordAt(cells, A.sources[i], q))
  }

  /** Word q, x across the missing slices, satisfies the recovery equation of the exponent band b probes. */
  ghost predicate BalancedAt<F(!new), Byte>(K: Field<F>, A: Arm<F, Byte>, cells: map<Cell, Byte>, b: nat, q: nat,
                                            x: Vector<F>)
    requires A.Fits() && q < A.words && |x| == |A.targets|
  {
    Balanced(K, A, b % |A.targets|, A.recovery[b % |A.targets|][q], PresentAt(A, cells, q), x)
  }

  ghost predicate InBand(words: nat, band: nat, b: nat, q: nat) {
    WalkedTo(words, band, b) <= q < WalkedTo(words, band, b + 1)
  }

  /** Every word repaired in the first `bands` bands balances. */
  ghost predicate AllBalanced<F(!new), Byte>(K: Field<F>, A: Arm<F, Byte>, cells: map<Cell, Byte>, repaired: Rows<F>,
                                             bands: nat)
    requires A.Fits() && Shape(repaired, |repaired|, |A.targets|) && |repaired| <= A.words
  {
    forall b: nat, q: nat :: b < bands && q < |repaired| && InBand(A.words, A.band, b, q) ==>
      BalancedAt(K, A, cells, b, q, repaired[q])
  }

  // What is in the files balances too.

  /** No missing slice's file ends inside word q. */
  ghost predicate WholeAt<F(!new), Byte>(A: Arm<F, Byte>, q: nat) {
    forall m :: 0 <= m < |A.targets| ==> A.targets[m].offset + 2 * q + 1 < A.targets[m].end
  }

  /** Word q of the missing slices, as the files have it. */
  ghost function StoredAt<F(!new), Byte>(A: Arm<F, Byte>, cells: map<Cell, Byte>, q: nat): (x: Vector<F>)
    ensures |x| == |A.targets| && forall m :: 0 <= m < |x| ==> x[m] == A.WordAt(cells, A.targets[m], q)
  {
    seq(|A.targets|, m requires 0 <= m < |A.targets| => A.WordAt(cells, A.targets[m], q))
  }

  /** Every whole word of the first `bands` bands balances, read back from the files. */
  ghost predicate StoreBalances<F(!new), Byte>(K: Field<F>, A: Arm<F, Byte>, cells: map<Cell, Byte>, done: nat,
                                               bands: nat)
    requires A.Fits() && done <= A.words
  {
    forall b: nat, q: nat :: b < bands && q < done && InBand(A.words, A.band, b, q) && WholeAt(A, q) ==>
      BalancedAt(K, A, cells, b, q, StoredAt(A, cells, q))
  }

  lemma StoredByte<F(!new), Byte>(A: Arm<F, Byte>, before: map<Cell, Byte>, now: map<Cell, Byte>,
                                  wasWritten: multiset<Cell>, written: multiset<Cell>, repaired: Rows<F>, m: nat,
                                    k: nat)
    requires Shape(repaired, |repaired|, |A.targets|) && AllSettled(A, before, now, wasWritten, written, repaired)
    requires m < |A.targets| && k < 2 * |repaired| && A.targets[m].offset + k < A.targets[m].end
    ensures A.ByteAt(now, A.targets[m], k) == RepairedByte(A, repaired, m, k)
  {
    var c := Cell(A.targets[m].file, A.targets[m].offset + k);
    assert CellSettled(A, before, now, wasWritten, written, repaired, c);
    assert A.Due(m, c, |repaired|);
  }

  lemma StoredWord<F(!new), Byte>(A: Arm<F, Byte>, before: map<Cell, Byte>, now: map<Cell, Byte>,
                                  wasWritten: multiset<Cell>, written: multiset<Cell>, repaired: Rows<F>, q: nat)
    requires A.Lossless() && Shape(repaired, |repaired|, |A.targets|) && q < |repaired| && WholeAt(A, q)
    requires AllSettled(A, before, now, wasWritten, written, repaired)
    ensures StoredAt(A, now, q) == repaired[q]
  {
    forall m | 0 <= m < |A.targets| ensures StoredAt(A, now, q)[m] == repaired[q][m] {
      StoredByte(A, before, now, wasWritten, written, repaired, m, 2 * q);
      StoredByte(A, before, now, wasWritten, written, repaired, m, 2 * q + 1);
    }
  }

  lemma StoredBalances<F(!new), Byte>(K: Field<F>, A: Arm<F, Byte>, before: map<Cell, Byte>, now: map<Cell, Byte>,
                                      wasWritten: multiset<Cell>, written: multiset<Cell>, repaired: Rows<F>,
                                        bands: nat)
    requires A.Valid(K) && Shape(repaired, |repaired|, |A.targets|) && |repaired| <= A.words
    requires AllSettled(A, before, now, wasWritten, written, repaired) && AllBalanced(K, A, before, repaired, bands)
    ensures StoreBalances(K, A, now, |repaired|, bands)
  {
    forall b: nat, q: nat | b < bands && q < |repaired| && InBand(A.words, A.band, b, q) && WholeAt(A, q)
      ensures BalancedAt(K, A, now, b, q, StoredAt(A, now, q))
    {
      StoredWord(A, before, now, wasWritten, written, repaired, q);
      forall i | 0 <= i < |A.sources| ensures PresentAt(A, now, q)[i] == PresentAt(A, before, q)[i] {
        WordUnchanged(A, before, now, wasWritten, written, repaired, i, q);
      }
      assert PresentAt(A, now, q) == PresentAt(A, before, q);
      assert BalancedAt(K, A, before, b, q, repaired[q]);
    }
  }

  /** Both probes of band b agree on its word k. */
  ghost predicate BandAgrees<F(!new), Byte>(K: Field<F>, A: Arm<F, Byte>, cells: map<Cell, Byte>, output: Rows<F>,
                                            probe: Vector<F>,
                                            start: nat, len: nat, b: nat, k: nat)
    requires A.Fits() && Shape(output, |A.targets|, len) && |probe| == len && start + len <= A.words && k < len
  {
    ProbesAgree(K, A, b % |A.targets|, A.Recovered(start, len)[b % |A.targets|][k],
                Column(A.Staged(cells, start, len), len, k), Column(output, len, k), probe[k])
  }

  lemma BalancedWord<F(!new), Byte>(K: Field<F>, A: Arm<F, Byte>, cells: map<Cell, Byte>, output: Rows<F>,
                                    probe: Vector<F>,
                                    start: nat, len: nat, b: nat, k: nat, q: nat)
    requires A.Fits() && Shape(output, |A.targets|, len) && |probe| == len && start + len <= A.words && k < len &&
             q == start + k
    requires BandAgrees(K, A, cells, output, probe, start, len, b, k)
    ensures BalancedAt(K, A, cells, b, q, Column(output, len, k))
  {
    ColumnsAre(A, cells, start, len, k, q);
  }

  lemma BalancedStep<F(!new), Byte>(K: Field<F>, A: Arm<F, Byte>, cells: map<Cell, Byte>, repaired: Rows<F>,
                                    output: Rows<F>, probe: Vector<F>,
                                    len: nat, bands: nat)
    requires A.Fits() && Shape(repaired, |repaired|, |A.targets|) && Shape(output, |A.targets|, len) && |probe| == len
    requires |repaired| == WalkedTo(A.words, A.band, bands) && |repaired| + len == WalkedTo(A.words, A.band, bands + 1)
    requires AllBalanced(K, A, cells, repaired, bands)
    requires forall k :: 0 <= k < len ==> BandAgrees(K, A, cells, output, probe, |repaired|, len, bands, k)
    ensures AllBalanced(K, A, cells, repaired + Transposed(output, |A.targets|, len), bands + 1)
  {
    var R := repaired + Transposed(output, |A.targets|, len);
    forall b: nat, q: nat | b < bands + 1 && q < |R| && InBand(A.words, A.band, b, q)
      ensures BalancedAt(K, A, cells, b, q, R[q]) {
      if b < bands {
        WalkedMonotone(A.words, A.band, b + 1, bands);
        BalancedSame(K, A, cells, b, q, repaired[q], R[q]);
      } else {
        BalancedNext(K, A, cells, repaired, output, probe, len, bands, R, q - |repaired|, q);
      }
    }
  }

  lemma BalancedNext<F(!new), Byte>(K: Field<F>, A: Arm<F, Byte>, cells: map<Cell, Byte>, repaired: Rows<F>,
                                    output: Rows<F>, probe: Vector<F>,
                                    len: nat, b: nat, R: Rows<F>, k: nat, q: nat)
    requires A.Fits() && Shape(repaired, |repaired|, |A.targets|) && Shape(output, |A.targets|, len) && |probe| == len
    requires |repaired| + len <= A.words && k < len && q == |repaired| + k
    requires BandAgrees(K, A, cells, output, probe, |repaired|, len, b, k)
    requires R == repaired + Transposed(output, |A.targets|, len)
    ensures BalancedAt(K, A, cells, b, q, R[q])
  {
    AppendedAt(repaired, output, |A.targets|, len, k, q);
    BalancedWord(K, A, cells, output, probe, |repaired|, len, b, k, q);
    BalancedSame(K, A, cells, b, q, Column(output, len, k), R[q]);
  }

  lemma BalancedSame<F(!new), Byte>(K: Field<F>, A: Arm<F, Byte>, cells: map<Cell, Byte>, b: nat, q: nat, x: Vector<F>,
                                    y: Vector<F>)
    requires A.Fits() && q < A.words && |x| == |A.targets| && BalancedAt(K, A, cells, b, q, x) && x == y
    ensures BalancedAt(K, A, cells, b, q, y)
  {
  }

  lemma {:induction false} WalkedMonotone(words: nat, band: nat, a: nat, b: nat)
    requires a <= b
    ensures WalkedTo(words, band, a) <= WalkedTo(words, band, b)
  {
    if a < b { WalkedMonotone(words, band, a, b - 1); }
  }

  lemma {:induction false} WalkedAll(words: nat, band: nat, b: nat)
    requires band > 0 && b > 0 && WalkedTo(words, band, b - 1) < words
    ensures WalkedTo(words, band, b - 1) == (b - 1) * band
  {
    if b > 1 {
      WalkedMonotone(words, band, b - 2, b - 1);
      WalkedAll(words, band, b - 1);
    }
  }

  /** The number of bands that walk the whole slice is the ceiling quotient. */
  lemma PassesExact(words: nat, band: nat, b: nat)
    requires band > 0 && WalkedTo(words, band, b) == words && (b > 0 ==> WalkedTo(words, band, b - 1) < words)
    ensures b == DivCeil(words, band)
  {
    if b > 0 {
      WalkedAll(words, band, b);
      assert (b - 1) * band < words <= (b - 1) * band + band;
      Quotient(words + band - 1, band, b);
    } else {
      Quotient(band - 1, band, 0);
    }
  }

  /** One word of the dense product [A^-1 P | A^-1] * [present; R]. */
  ghost function DenseProduct<F(!new), Byte>(K: Field<F>, A: Arm<F, Byte>, present: Vector<F>,
                                             r: Vector<F>): (x: Vector<F>)
    requires A.Ready() && |present| == |A.sources| && |r| == |A.targets|
    ensures |x| == |A.targets|
  {
    Apply(K, A.plan.repair, |A.plan.available| + |A.plan.missing|, present + r)
  }

  /** ... of word q of the slices. */
  ghost function DenseWord<F(!new), Byte>(K: Field<F>, A: Arm<F, Byte>, cells: map<Cell, Byte>, q: nat): (x: Vector<F>)
    requires A.Ready() && q < A.words
    ensures |x| == |A.targets|
  {
    DenseProduct(K, A, PresentAt(A, cells, q), Column(A.recovery, A.words, q))
  }

  ghost predicate AllDense<F(!new), Byte>(K: Field<F>, A: Arm<F, Byte>, cells: map<Cell, Byte>, repaired: Rows<F>)
    requires A.Ready() && |repaired| <= A.words
  {
    forall q :: 0 <= q < |repaired| ==> repaired[q] == DenseWord(K, A, cells, q)
  }

  /** A band's output is the dense product of what it read. */
  ghost predicate BandDense<F(!new), Byte>(K: Field<F>, A: Arm<F, Byte>, S: Rows<F>, R: Rows<F>, output: Rows<F>,
                                           len: nat)
    requires A.Ready() && Shape(S, |A.sources|, len) && Shape(R, |A.targets|, len) && Shape(output, |A.targets|, len)
  {
    forall k :: 0 <= k < len ==> Column(output, len, k) == DenseProduct(K, A, Column(S, len, k), Column(R, len, k))
  }

  lemma ExactIsDense<F(!new), Byte>(K: Field<F>, A: Arm<F, Byte>, S: Rows<F>, R: Rows<F>, result: BandResult<F>, p: nat,
                                    len: nat)
    requires A.Valid(K) && p < |A.targets| && Shape(S, |A.sources|, len) && Shape(R, |A.targets|, len)
    requires ExactOn(K, A, result, p, S, R, len)
    ensures BandDense(K, A, S, R, result.output, len)
  {
    forall k | 0 <= k < len
      ensures Column(result.output, len, k) == DenseProduct(K, A, Column(S, len, k), Column(R, len, k)) {
      ExactWordIsDense(K, A, p, Column(S, len, k), Column(R, len, k), Column(result.output, len, k), result.probe[k]);
    }
  }

  lemma DenseStep<F(!new), Byte>(K: Field<F>, A: Arm<F, Byte>, cells: map<Cell, Byte>, repaired: Rows<F>,
                                 output: Rows<F>, len: nat)
    requires A.Ready() && |repaired| + len <= A.words && AllDense(K, A, cells, repaired) &&
             Shape(output, |A.targets|, len)
    requires BandDense(K, A, A.Staged(cells, |repaired|, len), A.Recovered(|repaired|, len), output, len)
    ensures AllDense(K, A, cells, repaired + Transposed(output, |A.targets|, len))
  {
    var start, R := |repaired|, repaired + Transposed(output, |A.targets|, len);
    forall q | 0 <= q < |R| ensures R[q] == DenseWord(K, A, cells, q) {
      if q < start {
        assert R[q] == repaired[q];
      } else {
        DenseNext(K, A, cells, repaired, output, len, A.Staged(cells, start, len), A.Recovered(start, len), q - start,
                  q);
      }
    }
  }

  lemma DenseNext<F(!new), Byte>(K: Field<F>, A: Arm<F, Byte>, cells: map<Cell, Byte>, repaired: Rows<F>,
                                 output: Rows<F>, len: nat,
                                 S: Rows<F>, R: Rows<F>, k: nat, q: nat)
    requires A.Ready() && |repaired| + len <= A.words && Shape(output, |A.targets|, len) && k < len &&
             q == |repaired| + k
    requires S == A.Staged(cells, |repaired|, len) && R == A.Recovered(|repaired|, len) &&
             BandDense(K, A, S, R, output, len)
    ensures (repaired + Transposed(output, |A.targets|, len))[q] == DenseWord(K, A, cells, q)
  {
    AppendedAt(repaired, output, |A.targets|, len, k, q);
    ColumnsAre(A, cells, |repaired|, len, k, q);
    assert Column(output, len, k) == DenseProduct(K, A, Column(S, len, k), Column(R, len, k));
  }

  lemma AppendedAt<F(!new)>(repaired: Rows<F>, output: Rows<F>, n: nat, len: nat, k: nat, q: nat)
    requires Shape(output, n, len) && k < len && q == |repaired| + k
    ensures (repaired + Transposed(output, n, len))[q] == Column(output, len, k)
  {
  }

  lemma ColumnsAre<F(!new), Byte>(A: Arm<F, Byte>, cells: map<Cell, Byte>, start: nat, len: nat, k: nat, q: nat)
    requires A.Fits() && start + len <= A.words && k < len && q == start + k
    ensures Column(A.Staged(cells, start, len), len, k) == PresentAt(A, cells, q)
    ensures Column(A.Recovered(start, len), len, k) == Column(A.recovery, A.words, q)
  {
  }

  lemma ExactWordIsDense<F(!new), Byte>(K: Field<F>, A: Arm<F, Byte>, p: nat, present: Vector<F>, r: Vector<F>,
                                        x: Vector<F>, seen: F)
    requires A.Valid(K) && p < |A.targets| && |present| == |A.sources| && |r| == |A.targets|
    requires ExactWord(K, A, p, present, r, x, seen)
    ensures x == DenseProduct(K, A, present, r)
  {
    ArmIsDense(K, A.plan, present, r);
  }

  ghost function DenseWords<F(!new), Byte>(K: Field<F>, A: Arm<F, Byte>, cells: map<Cell, Byte>): (R: Rows<F>)
    requires A.Ready()
    ensures Shape(R, A.words, |A.targets|) && AllDense(K, A, cells, R)
  {
    seq(A.words, q requires 0 <= q < A.words => DenseWord(K, A, cells, q))
  }

  /** A dense run over `cells` ends in `after`: every missing byte rewritten from the sources, no other touched. */
  ghost predicate DenseRun<F(!new), Byte>(K: Field<F>, A: Arm<F, Byte>, cells: map<Cell, Byte>, after: map<Cell, Byte>)
    requires A.Valid(K)
  {
    forall c: Cell :: DenseCell(A, cells, after, DenseWords(K, A, cells), c)
  }

  ghost predicate DenseCell<F(!new), Byte>(A: Arm<F, Byte>, cells: map<Cell, Byte>, after: map<Cell, Byte>,
                                           words: Rows<F>, c: Cell)
    requires Shape(words, A.words, |A.targets|)
  {
    && (forall m :: 0 <= m < |A.targets| && A.Due(m, c, A.words) ==>
          Lookup(after, c) == Some(RepairedByte(A, words, m, c.at - A.targets[m].offset)))
    && ((forall m :: 0 <= m < |A.targets| ==> !A.Due(m, c, A.words)) ==> Lookup(after, c) == Lookup(cells, c))
  }

  /** Whatever the arm wrote before it stopped, a dense run over it ends in the files a dense run alone would have
      left. */
  lemma FallbackSame<F(!new), Byte>(K: Field<F>, A: Arm<F, Byte>, before: map<Cell, Byte>, armed: map<Cell, Byte>,
                                    wasWritten: multiset<Cell>, written: multiset<Cell>, repaired: Rows<F>,
                                    rerun: map<Cell, Byte>, alone: map<Cell, Byte>)
    requires A.Valid(K) && |repaired| <= A.words && Shape(repaired, |repaired|, |A.targets|)
    requires AllSettled(A, before, armed, wasWritten, written, repaired)
    requires DenseRun(K, A, armed, rerun) && DenseRun(K, A, before, alone)
    ensures rerun == alone
  {
    DenseWordsUnchanged(K, A, before, armed, wasWritten, written, repaired);
    forall c: Cell ensures Lookup(rerun, c) == Lookup(alone, c) {
      assert DenseCell(A, armed, rerun, DenseWords(K, A, armed), c);
      assert DenseCell(A, before, alone, DenseWords(K, A, before), c);
      assert CellSettled(A, before, armed, wasWritten, written, repaired, c);
      assert forall m :: 0 <= m < |A.targets| && A.Due(m, c, |repaired|) ==> A.Due(m, c, A.words);
    }
    assert forall c: Cell :: c in rerun <==> Lookup(rerun, c).Some?;
    assert forall c: Cell :: c in alone <==> Lookup(alone, c).Some?;
    assert forall c: Cell :: c in rerun ==> Lookup(rerun, c) == Some(rerun[c]) && Lookup(alone, c) == Some(alone[c]);
  }

  lemma DenseWordsUnchanged<F(!new), Byte>(K: Field<F>, A: Arm<F, Byte>, before: map<Cell, Byte>, now: map<Cell, Byte>,
                                           wasWritten: multiset<Cell>, written: multiset<Cell>, repaired: Rows<F>)
    requires A.Valid(K) && |repaired| <= A.words && Shape(repaired, |repaired|, |A.targets|)
    requires AllSettled(A, before, now, wasWritten, written, repaired)
    ensures DenseWords(K, A, now) == DenseWords(K, A, before)
  {
    forall q | 0 <= q < A.words ensures DenseWord(K, A, now, q) == DenseWord(K, A, before, q) {
      forall i | 0 <= i < |A.sources| ensures PresentAt(A, now, q)[i] == PresentAt(A, before, q)[i] {
        WordUnchanged(A, before, now, wasWritten, written, repaired, i, q);
      }
      assert PresentAt(A, now, q) == PresentAt(A, before, q);
    }
  }

  /** An exact arm that executed left the files a dense run would have. */
  lemma ExecutedIsDense<F(!new), Byte>(K: Field<F>, A: Arm<F, Byte>, before: map<Cell, Byte>, now: map<Cell, Byte>,
                                       wasWritten: multiset<Cell>, written: multiset<Cell>, repaired: Rows<F>)
    requires A.Valid(K) && Shape(repaired, A.words, |A.targets|) && AllDense(K, A, before, repaired)
    requires AllSettled(A, before, now, wasWritten, written, repaired)
    ensures DenseRun(K, A, before, now)
  {
    assert repaired == DenseWords(K, A, before);
    forall c: Cell ensures DenseCell(A, before, now, DenseWords(K, A, before), c) {
      assert CellSettled(A, before, now, wasWritten, written, repaired, c);
    }
  }

  /** The words of the first `index` bands are in the files, balance, and are dense if the engine is sound. */
  ghost predicate Progress<F(!new), Byte>(K: Field<F>, A: Arm<F, Byte>, sound: bool,
                                          before: map<Cell, Byte>, now: map<Cell, Byte>,
                                          wasWritten: multiset<Cell>, written: multiset<Cell>, repaired: Rows<F>,
                                            index: nat)
    requires A.Valid(K)
  {
    && Shape(repaired, WalkedTo(A.words, A.band, index), |A.targets|)
    && AllSettled(A, before, now, wasWritten, written, repaired)
    && AllBalanced(K, A, before, repaired, index)
    && (sound ==> AllDense(K, A, before, repaired))
  }

  lemma NothingYet<F(!new), Byte>(K: Field<F>, A: Arm<F, Byte>, sound: bool, cells: map<Cell, Byte>,
                                  written: multiset<Cell>)
    requires A.Valid(K)
    ensures Progress(K, A, sound, cells, cells, written, written, [], 0)
  {
  }

  /** One band: read, transform and solve, probe, and only then write. */
  method RunBand<F(!new,==), Byte(==)>(K: Field<F>, store: FileStore<Byte>, A: Arm<F, Byte>,
                                       engine: (nat, Rows<F>, Rows<F>) -> BandResult<F>, ghost sound: bool,
                                         ghost sure: bool,
                                       index: nat, start: nat, len: nat,
                                       ghost before: map<Cell, Byte>, ghost wasWritten: multiset<Cell>,
                                         ghost repaired: Rows<F>)
    returns (stop: Option<Outcome>, ghost after: Rows<F>)
    requires A.Valid(K) && Shaped(A, engine) && (sound ==> SoundEngine(K, A, engine)) && (sure ==> Unfailing(engine))
    requires start == WalkedTo(A.words, A.band, index) && start + len == WalkedTo(A.words, A.band, index + 1)
    requires Progress(K, A, sound, before, store.cells, wasWritten, store.writes, repaired, index)
    modifies store
    ensures stop.Some? ==>
              stop.value != Executed && after == repaired && store.cells == old(store.cells) &&
                store.writes == old(store.writes)
    ensures stop == None ==> Progress(K, A, sound, before, store.cells, wasWritten, store.writes, after, index + 1)
    ensures (sound ==> stop != Some(Diverged)) && (sure ==> stop != Some(Failed))
  {
    after := repaired;
    var staging, recovered := A.Staged(store.cells, start, len), A.Recovered(start, len);
    StagedUnchanged(A, before, store.cells, wasWritten, store.writes, repaired, start, len);
    var p := index % |A.targets|;
    var result := engine(index, staging, recovered);
    if result.Broken? {
      return Some(Failed), after;
    }
    var ok := Probe(K, A, p, recovered[p], staging, result.output, result.probe);
    if !ok {
      if sound {
        ExactPasses(K, A, result, p, staging, recovered, len);
        assert false;
      }
      return Some(Diverged), after;
    }
    ghost var now, written := store.cells, store.writes;
    WriteBand(store, A, start, len, result.output);
    assert forall k :: 0 <= k < len ==> BandAgrees(K, A, before, result.output, result.probe, start, len, index, k);
    BalancedStep(K, A, before, repaired, result.output, result.probe, len, index);
    if sound {
      ExactIsDense(K, A, staging, recovered, result, p, len);
      DenseStep(K, A, before, repaired, result.output, len);
    }
    after := repaired + Transposed(result.output, |A.targets|, len);
    forall c: Cell ensures CellSettled(A, before, store.cells, wasWritten, store.writes, after, c) {
      assert CellSettled(A, before, now, wasWritten, written, repaired, c);
      CellStep(A, before, now, store.cells, wasWritten, written, store.writes, repaired, result.output, len, after, c);
    }
    stop := None;
  }

  lemma ExactPasses<F(!new), Byte>(K: Field<F>, A: Arm<F, Byte>, result: BandResult<F>, p: nat, S: Rows<F>, R: Rows<F>,
                                   len: nat)
    requires A.Valid(K) && p < |A.targets| && Shape(S, |A.sources|, len) && Shape(R, |A.targets|, len)
    requires ExactOn(K, A, result, p, S, R, len)
    ensures forall k :: 0 <= k < len ==>
            ProbesAgree(K, A, p, R[p][k], Column(S, len, k), Column(result.output, len, k), result.probe[k])
  {
    forall k | 0 <= k < len
      ensures ProbesAgree(K, A, p, R[p][k], Column(S, len, k), Column(result.output, len, k), result.probe[k]) {
      ExactAgrees(K, A, p, Column(S, len, k), Column(R, len, k));
    }
  }

  /** The loop over the bands, which stops at the first that fails or disagrees with its probes. */
  method RunBands<F(!new,==), Byte(==)>(K: Field<F>, store: FileStore<Byte>, A: Arm<F, Byte>,
                                        engine: (nat, Rows<F>, Rows<F>) -> BandResult<F>, ghost sound: bool,
                                          ghost sure: bool)
    returns (outcome: Outcome, ghost bands: nat, ghost repaired: Rows<F>)
    requires A.Valid(K) && Shaped(A, engine) && (sound ==> SoundEngine(K, A, engine)) && (sure ==> Unfailing(engine))
    modifies store
    ensures Progress(K, A, sound, old(store.cells), store.cells, old(store.writes), store.writes, repaired, bands)
    ensures outcome == Executed <==> WalkedTo(A.words, A.band, bands) == A.words
    ensures bands > 0 ==> WalkedTo(A.words, A.band, bands - 1) < A.words
    ensures (sound ==> outcome != Diverged) && (sure ==> outcome != Failed)
  {
    var start := 0;
    var index := 0;
    repaired, bands := [], 0;
    NothingYet(K, A, sound, store.cells, store.writes);
    while start < A.words
      invariant start == WalkedTo(A.words, A.band, index) &&
                (index > 0 ==> WalkedTo(A.words, A.band, index - 1) < A.words)
      invariant bands == index && start <= A.words
      invariant Progress(K, A, sound, old(store.cells), store.cells, old(store.writes), store.writes, repaired, index)
      decreases A.words - start
    {
      var len := if A.band < A.words - start then A.band else A.words - start;
      var stop;
      stop, repaired := RunBand(K, store, A, engine, sound, sure, index, start, len, old(store.cells),
                                old(store.writes), repaired);
      if stop.Some? {
        outcome := stop.value;
        return;
      }
      start := start + len;
      index := index + 1;
      bands := bands + 1;
    }
    outcome := Executed;
  }

  /** Run the arm over the slice, band by band. Nothing is asked of the engine but its shape. */
  method Run<F(!new,==), Byte(==)>(K: Field<F>, store: FileStore<Byte>, A: Arm<F, Byte>,
                                   engine: (nat, Rows<F>, Rows<F>) -> BandResult<F>)
    returns (outcome: Outcome, ghost bands: nat, ghost repaired: Rows<F>)
    requires A.Valid(K) && Shaped(A, engine)
    modifies store
    ensures |repaired| <= A.words && Shape(repaired, |repaired|, |A.targets|)
    ensures AllSettled(A, old(store.cells), store.cells, old(store.writes), store.writes, repaired)
    ensures AllBalanced(K, A, old(store.cells), repaired, bands) && |repaired| == WalkedTo(A.words, A.band, bands)
    ensures outcome == Executed <==> |repaired| == A.words
    ensures outcome == Executed ==> bands == DivCeil(A.words, A.band)
    ensures StoreBalances(K, A, store.cells, |repaired|, bands)
    ensures SoundEngine(K, A, engine) ==> outcome != Diverged && AllDense(K, A, old(store.cells), repaired)
    ensures SoundEngine(K, A, engine) && Unfailing(engine) ==> outcome == Executed
  {
    outcome, bands, repaired := RunBands(K, store, A, engine, SoundEngine(K, A, engine), Unfailing(engine));
    if outcome == Executed { PassesExact(A.words, A.band, bands); }
    StoredBalances(K, A, old(store.cells), store.cells, old(store.writes), store.writes, repaired, bands);
  }
}
