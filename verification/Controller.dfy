/** How the packed repair controller cuts a slice into chunks and shares them
    out: every (byte, output) cell goes to exactly one assignment. */
module Controller {
  import opened Arithmetic

  datatype Work = Work(worker: nat, byteStart: nat, byteLen: nat, outputStart: nat, outputLen: nat) {
    predicate Covers(b: nat, o: nat) {
      byteStart <= b < byteStart + byteLen && outputStart <= o < outputStart + outputLen
    }
  }

  /** How many assignments compute output o at byte b. */
  function Count(ws: seq<Work>, b: nat, o: nat): nat {
    if |ws| == 0 then 0 else Count(ws[..|ws| - 1], b, o) + if ws[|ws| - 1].Covers(b, o) then 1 else 0
  }

  /** The bytes before `from` are assigned once; those up to `to`, for outputs before `o` only. */
  ghost predicate Filled(ws: seq<Work>, aligned: nat, outputs: nat, from: nat, to: nat, upto: nat) {
    forall b: nat, o: nat {:trigger Count(ws, b, o)} :: b < aligned && o < outputs ==>
      Count(ws, b, o) == if b < from || (b < to && o < upto) then 1 else 0
  }

  /** Non-empty, within the slice and the outputs, and starting on a chunk boundary. */
  ghost predicate WellFormed(w: Work, aligned: nat, outputs: nat, chunk: nat)
    requires chunk > 0
  {
    && w.byteLen > 0 && w.outputLen > 0 && w.byteStart + w.byteLen <= aligned && w.outputStart + w.outputLen <= outputs
    && w.byteStart % chunk == 0 && (w.byteStart + w.byteLen == aligned || (w.byteStart + w.byteLen) % chunk == 0)
  }

  ghost predicate AllWellFormed(ws: seq<Work>, aligned: nat, outputs: nat, chunk: nat)
    requires chunk > 0
  {
    forall i :: 0 <= i < |ws| ==> WellFormed(ws[i], aligned, outputs, chunk)
  }

  lemma PushFilled(ws: seq<Work>, w: Work, aligned: nat, outputs: nat, from: nat, to: nat, upto: nat)
    requires Filled(ws, aligned, outputs, from, to, upto) && from <= to && upto <= outputs
    requires w.byteStart == from && from + w.byteLen == Min(to, aligned) && w.outputStart == upto
    ensures Filled(ws + [w], aligned, outputs, from, to, upto + w.outputLen)
  {
    forall b: nat, o: nat | b < aligned && o < outputs
      ensures Count(ws + [w], b, o) == if b < from || (b < to && o < upto + w.outputLen) then 1 else 0
    {
      assert (ws + [w])[..|ws|] == ws;
      assert Count(ws, b, o) == if b < from || (b < to && o < upto) then 1 else 0;
    }
  }

  // The shares of one chunk.

  /** Outputs before split s when `outputs` are shared out `per` ways. */
  function Bound(outputs: nat, per: nat, s: nat): nat
    requires per > 0
  {
    RoundDiv(outputs * s, per)
  }

  lemma Bounds(outputs: nat, per: nat, s: nat)
    requires 0 < per <= outputs
    ensures Bound(outputs, per, 0) == 0 && Bound(outputs, per, per) == outputs
    ensures Bound(outputs, per, s) < Bound(outputs, per, s + 1)
  {
    Quotient(per / 2, per, 0);
    Quotient(outputs * per + per / 2, per, outputs);
    var x := outputs * s + per / 2;
    QuotientTimes(x, per);
    QuotientTimes(x + outputs, per);
    assert outputs * (s + 1) == outputs * s + outputs;
    var p, q := x / per, (x + outputs) / per;
    if q <= p { MulMonotone(q, p, per); }
  }

  lemma {:induction false} BoundsBelow(outputs: nat, per: nat, s: nat)
    requires 0 < per <= outputs && s <= per
    ensures Bound(outputs, per, s) <= outputs
    decreases per - s
  {
    Bounds(outputs, per, s);
    if s < per { BoundsBelow(outputs, per, s + 1); }
  }

  /** Split one chunk's outputs between `per` workers numbered on from the assignments already made. */
  method SplitChunk(ws: seq<Work>, aligned: nat, outputs: nat, chunk: nat, byteStart: nat, per: nat)
    returns (out: seq<Work>)
    requires 0 < per <= outputs && chunk > 0 && byteStart < aligned && byteStart % chunk == 0 &&
             (byteStart + chunk) % chunk == 0
    requires Filled(ws, aligned, outputs, byteStart, byteStart, 0) && AllWellFormed(ws, aligned, outputs, chunk)
    requires forall i :: 0 <= i < |ws| ==> ws[i].worker == i
    ensures Filled(out, aligned, outputs, byteStart + chunk, byteStart + chunk, 0) &&
            AllWellFormed(out, aligned, outputs, chunk)
    ensures |out| == |ws| + per && forall i :: 0 <= i < |out| ==> out[i].worker == i
  {
    var byteLen := Min(aligned - byteStart, chunk);
    var outputStart := 0;
    out := ws;
    Bounds(outputs, per, 0);
    for split := 0 to per
      invariant |out| == |ws| + split && outputStart == Bound(outputs, per, split)
      invariant forall i :: 0 <= i < |out| ==> out[i].worker == i
      invariant AllWellFormed(out, aligned, outputs, chunk)
      invariant Filled(out, aligned, outputs, byteStart, byteStart + chunk, outputStart)
    {
      var outputEnd := Bound(outputs, per, split + 1);
      Bounds(outputs, per, split);
      BoundsBelow(outputs, per, split + 1);
      var w := Work(|out|, byteStart, byteLen, outputStart, outputEnd - outputStart);
      PushFilled(out, w, aligned, outputs, byteStart, byteStart + chunk, outputStart);
      out := out + [w];
      outputStart := outputEnd;
    }
  }

  // All the chunks.

  lemma ChunkBounds(aligned: nat, chunk: nat, num: nat, k: nat)
    requires chunk > 0 && aligned > 0 && num == DivCeil(aligned, chunk)
    ensures k < num ==> k * chunk < aligned
    ensures k >= num ==> k * chunk >= aligned
    ensures k * chunk % chunk == 0 && (k * chunk + chunk) % chunk == 0 && (k + 1) * chunk == k * chunk + chunk
  {
    DivCeilCovers(aligned, chunk);
    MultipleOf(k, chunk);
    MultipleOf(k + 1, chunk);
    if k < num { MulMonotone(k + 1, num, chunk); } else { MulMonotone(num, k, chunk); }
  }

  /** Workers that share one leftover chunk. */
  function PerChunk(workers: nat, leftover: nat, outputs: nat): (per: nat)
    requires 0 < leftover < workers && outputs > 0
    ensures 0 < per <= outputs && leftover * per <= workers
  {
    QuotientTimes(workers, leftover);
    var per := Max(Min(workers / leftover, outputs), 1);
    MulMonotone(per, workers / leftover, leftover);
    per
  }

  /** Assignments that split a chunk, which come first. */
  function Splits(num: nat, workers: nat, outputs: nat): nat
    requires workers > 0 && outputs > 0
  {
    var leftover := num % workers;
    if leftover == 0 then 0 else leftover * PerChunk(workers, leftover, outputs)
  }

  method ShareLeftover(aligned: nat, chunk: nat, num: nat, outputs: nat, leftover: nat, per: nat)
    returns (ws: seq<Work>)
    requires chunk > 0 && aligned > 0 && num == DivCeil(aligned, chunk) && leftover <= num && 0 < per <= outputs
    ensures Filled(ws, aligned, outputs, leftover * chunk, leftover * chunk, 0) &&
            AllWellFormed(ws, aligned, outputs, chunk)
    ensures |ws| == leftover * per && forall i :: 0 <= i < |ws| ==> ws[i].worker == i
  {
    ws := [];
    for k := 0 to leftover
      invariant Filled(ws, aligned, outputs, k * chunk, k * chunk, 0) && AllWellFormed(ws, aligned, outputs, chunk)
      invariant |ws| == k * per && forall i :: 0 <= i < |ws| ==> ws[i].worker == i
    {
      ChunkBounds(aligned, chunk, num, k);
      ws := SplitChunk(ws, aligned, outputs, chunk, k * chunk, per);
      assert (k + 1) * per == k * per + per;
    }
  }

  /** One run of `full` whole chunks for each worker, from chunk `first` on. */
  method ShareFull(before: seq<Work>, aligned: nat, chunk: nat, num: nat, outputs: nat, first: nat, full: nat,
                   workers: nat) returns (ws: seq<Work>)
    requires chunk > 0 && aligned > 0 && outputs > 0 && full > 0 && num == DivCeil(aligned, chunk) &&
             first + workers * full == num
    requires Filled(before, aligned, outputs, first * chunk, first * chunk, 0) &&
             AllWellFormed(before, aligned, outputs, chunk)
    ensures Filled(ws, aligned, outputs, num * chunk, num * chunk, 0) && AllWellFormed(ws, aligned, outputs, chunk)
    ensures |ws| == |before| + workers && ws[..|before|] == before
    ensures forall i :: |before| <= i < |ws| ==> ws[i].worker == i - |before|
  {
    ws := before;
    var at := first;
    for worker := 0 to workers
      invariant at == first + worker * full
      invariant Filled(ws, aligned, outputs, at * chunk, at * chunk, 0) && AllWellFormed(ws, aligned, outputs, chunk)
      invariant |ws| == |before| + worker && ws[..|before|] == before
      invariant forall i :: |before| <= i < |ws| ==> ws[i].worker == i - |before|
    {
      MulMonotone(worker + 1, workers, full);
      assert (worker + 1) * full == worker * full + full;
      ChunkBounds(aligned, chunk, num, at);
      ChunkBounds(aligned, chunk, num, at + full);
      assert (at + full) * chunk == at * chunk + chunk * full;
      var byteStart := at * chunk;
      var w := Work(worker, byteStart, Min(aligned - byteStart, chunk * full), 0, outputs);
      PushFilled(ws, w, aligned, outputs, byteStart, byteStart + chunk * full, 0);
      ws := ws + [w];
      at := at + full;
    }
  }

  /** build_assignments: a partition of bytes by outputs, at most one share of a split chunk and one run for each
      worker. */
  method BuildAssignments(aligned: nat, chunk: nat, num: nat, outputs: nat, workers: nat) returns (ws: seq<Work>)
    requires chunk > 0 && aligned > 0 && outputs > 0 && workers > 0 && num == DivCeil(aligned, chunk)
    ensures forall b: nat, o: nat :: b < aligned && o < outputs ==> Count(ws, b, o) == 1
    ensures AllWellFormed(ws, aligned, outputs, chunk)
    ensures var splits := Splits(num, workers, outputs);
            && splits <= workers && |ws| == splits + (if num < workers then 0 else workers)
            && forall i :: 0 <= i < |ws| ==> ws[i].worker == if i < splits then i else i - splits
  {
    var full, leftover := num / workers, num % workers;
    Shares(num, workers);
    ws := [];
    if leftover > 0 {
      ws := ShareLeftover(aligned, chunk, num, outputs, leftover, PerChunk(workers, leftover, outputs));
    }
    ghost var splits := |ws|;
    if full > 0 {
      ws := ShareFull(ws, aligned, chunk, num, outputs, leftover, full, workers);
      assert forall i :: 0 <= i < splits ==> ws[i] == ws[..splits][i];
    }
    DivCeilCovers(aligned, chunk);
    assert Filled(ws, aligned, outputs, num * chunk, num * chunk, 0);
  }

  lemma Shares(num: nat, workers: nat)
    requires workers > 0
    ensures num == num % workers + workers * (num / workers)
    ensures num / workers == 0 <==> num < workers
    ensures num < workers ==> num % workers == num
  {
    if num < workers { Quotient(num, workers, 0); }
  }

  datatype Layout = Layout(alignedLen: nat, chunkLen: nat, numChunks: nat, assignments: seq<Work>, workerCount: nat,
                           stride: nat)

  /** Every cell of the padded slice is computed by exactly one assignment, on stride boundaries, by a worker that
      exists. */
  ghost predicate SharesOut(l: Layout, outputs: nat)
    requires l.stride > 0
  {
    && (forall b: nat, o: nat :: b < l.alignedLen && o < outputs ==> Count(l.assignments, b, o) == 1)
    && forall i :: 0 <= i < |l.assignments| ==> OnStride(l.assignments[i], l, outputs)
  }

  ghost predicate OnStride(w: Work, l: Layout, outputs: nat)
    requires l.stride > 0
  {
    && w.worker < l.workerCount && w.byteLen > 0 && w.outputLen > 0
    && w.byteStart + w.byteLen <= l.alignedLen && w.outputStart + w.outputLen <= outputs
    && w.byteStart % l.stride == 0 && w.byteLen % l.stride == 0
  }

  lemma MultipleThrough(x: nat, chunk: nat, m: nat, stride: nat)
    requires stride > 0 && chunk == m * stride && chunk > 0 && x % chunk == 0
    ensures x % stride == 0
  {
    var q := x / chunk;
    assert x == q * chunk;
    assert q * (m * stride) == (q * m) * stride;
    MultipleOf(q * m, stride);
  }

  lemma DifferenceMultiple(x: nat, y: nat, d: nat)
    requires d > 0 && x % d == 0 && (x + y) % d == 0
    ensures y % d == 0
  {
    var p, q := x / d, (x + y) / d;
    assert x == p * d && x + y == q * d;
    assert y == (q - p) * d;
    MultipleOf(q - p, d);
  }

  lemma WorkOnStride(w: Work, l: Layout, outputs: nat, m: nat, k: nat)
    requires l.stride > 0 && l.chunkLen == m * l.stride > 0 && l.alignedLen == k * l.stride
    requires WellFormed(w, l.alignedLen, outputs, l.chunkLen) && w.worker < l.workerCount
    ensures OnStride(w, l, outputs)
  {
    MultipleThrough(w.byteStart, l.chunkLen, m, l.stride);
    if w.byteStart + w.byteLen == l.alignedLen {
      MultipleOf(k, l.stride);
    } else {
      MultipleThrough(w.byteStart + w.byteLen, l.chunkLen, m, l.stride);
    }
    DifferenceMultiple(w.byteStart, w.byteLen, l.stride);
  }

  /** The method's chunk size in whole strides, at least one. */
  function AlignedIdeal(idealChunk: nat, stride: nat): (ideal: nat)
    requires stride > 0
    ensures ideal % stride == 0 && Max(idealChunk, stride) <= ideal < Max(idealChunk, stride) + stride
  {
    DivCeilCovers(Max(idealChunk, stride), stride);
    MultipleOf(DivCeil(Max(idealChunk, stride), stride), stride);
    AlignUp(Max(idealChunk, stride), stride)
  }

  /** Chunks aimed for before rounding to the stride. */
  function TargetChunks(aligned: nat, workers: nat, ideal: nat): (n: nat)
    requires workers > 0 && ideal > 0
    ensures n > 0
  {
    var target := DivCeil(aligned, workers);
    if target <= ideal / 2 then Max(RoundDiv(aligned, ideal), 1)
    else
      MulMonotone(1, Max(RoundDiv(target, ideal), 1), workers);
      Max(RoundDiv(target, ideal), 1) * workers
  }

  /** q is at least one and otherwise the whole number of pieces nearest to `length`, halves rounded up. */
  predicate NearestCount(length: nat, piece: nat, q: nat) {
    && q >= 1 && (q > 1 ==> 2 * q * piece <= 2 * length + piece)
    && 2 * length + piece < 2 * q * piece + 2 * piece
  }

  /** What is aimed for: if an even share is at most half the ideal chunk, as many chunks as come nearest to the ideal,
      whichever workers take them; otherwise the same number for every worker, nearest to the ideal in its share. */
  ghost predicate Aims(aligned: nat, workers: nat, ideal: nat, n: nat) {
    exists share: nat, each: nat :: AimsBy(aligned, workers, ideal, n, share, each)
  }

  predicate AimsBy(aligned: nat, workers: nat, ideal: nat, n: nat, share: nat, each: nat) {
    && aligned <= share * workers < aligned + workers
    && if 2 * share <= ideal then NearestCount(aligned, ideal, n)
       else NearestCount(share, ideal, each) && n == each * workers
  }

  lemma RoundIsNearest(length: nat, piece: nat)
    requires piece > 0
    ensures NearestCount(length, piece, Max(RoundDiv(length, piece), 1))
  {
    QuotientTimes(length + piece / 2, piece);
    var q := RoundDiv(length, piece);
    if q == 0 {
      assert q * piece == 0;
    }
  }

  lemma TargetAims(aligned: nat, workers: nat, ideal: nat)
    requires workers > 0 && ideal > 0
    ensures Aims(aligned, workers, ideal, TargetChunks(aligned, workers, ideal))
  {
    var share := DivCeil(aligned, workers);
    DivCeilCovers(aligned, workers);
    RoundIsNearest(aligned, ideal);
    RoundIsNearest(share, ideal);
    var each := Max(RoundDiv(share, ideal), 1);
    assert AimsBy(aligned, workers, ideal, TargetChunks(aligned, workers, ideal), share, each);
  }

  /** What is aimed for is no choice: two counts that meet the description are one. */
  lemma AimsOnce(aligned: nat, workers: nat, ideal: nat, n: nat, n': nat)
    requires workers > 0 && ideal > 0 && Aims(aligned, workers, ideal, n) && Aims(aligned, workers, ideal, n')
    ensures n == n'
  {
    var s, e :| AimsBy(aligned, workers, ideal, n, s, e);
    var s', e' :| AimsBy(aligned, workers, ideal, n', s', e');
    SharesOnce(aligned, workers, s, s');
    SharesOnce(aligned, workers, s', s);
    AimsBySame(aligned, workers, ideal, n, n', s, e, e');
  }

  lemma AimsBySame(aligned: nat, workers: nat, ideal: nat, n: nat, n': nat, s: nat, e: nat, e': nat)
    requires ideal > 0 && AimsBy(aligned, workers, ideal, n, s, e) && AimsBy(aligned, workers, ideal, n', s, e')
    ensures n == n'
  {
    if 2 * s <= ideal {
      NearestOnce(aligned, ideal, n, n');
      NearestOnce(aligned, ideal, n', n);
    } else {
      NearestOnce(s, ideal, e, e');
      NearestOnce(s, ideal, e', e);
    }
  }

  lemma SharesOnce(aligned: nat, workers: nat, s: nat, s': nat)
    requires workers > 0 && aligned <= s * workers < aligned + workers && aligned <= s' * workers < aligned + workers
    ensures s <= s'
  {
    if s > s' {
      MulMonotone(s' + 1, s, workers);
    }
  }

  lemma NearestOnce(length: nat, piece: nat, q: nat, q': nat)
    requires piece > 0 && NearestCount(length, piece, q) && NearestCount(length, piece, q')
    ensures q <= q'
  {
    if q > q' {
      MulMonotone(q' + 1, q, 2 * piece);
    }
  }

  /** The padded length and the chunk length, both in whole strides. */
  method Lengths(slice: nat, workers: nat, stride: nat, idealChunk: nat)
    returns (aligned: nat, chunk: nat, ghost blocks: nat, ghost m: nat)
    requires slice > 0 && workers > 0 && stride > 0
    ensures slice + stride <= aligned < slice + 2 * stride && aligned == blocks * stride
    ensures chunk > 0 && chunk == m * stride
    ensures var target := TargetChunks(aligned, workers, AlignedIdeal(idealChunk, stride));
            && DivCeil(aligned, chunk) <= target && Aims(aligned, workers, AlignedIdeal(idealChunk, stride), target)
            && LeastChunk(aligned, chunk, stride, target)
  {
    aligned := AlignUp(slice, stride) + stride;
    blocks := DivCeil(slice, stride) + 1;
    DivCeilCovers(slice, stride);
    var target := TargetChunks(aligned, workers, AlignedIdeal(idealChunk, stride));
    DivCeilCovers(aligned, target);
    m := DivCeil(DivCeil(aligned, target), stride);
    DivCeilCovers(DivCeil(aligned, target), stride);
    chunk := AlignUp(DivCeil(aligned, target), stride);
    AtMostTarget(aligned, chunk, target);
    TargetAims(aligned, workers, AlignedIdeal(idealChunk, stride));
    ChunkIsLeast(aligned, chunk, stride, target);
  }

  /** `target` chunks of this length cover the padded slice, and chunks one stride shorter would not. */
  predicate LeastChunk(aligned: nat, chunk: nat, stride: nat, target: nat) {
    stride <= chunk && (chunk - stride) * target < aligned <= chunk * target
  }

  lemma ChunkIsLeast(aligned: nat, chunk: nat, stride: nat, target: nat)
    requires target > 0 && stride > 0 && aligned > 0 && chunk == AlignUp(DivCeil(aligned, target), stride)
    ensures LeastChunk(aligned, chunk, stride, target)
  {
    var d := DivCeil(aligned, target);
    DivCeilCovers(aligned, target);
    DivCeilCovers(d, stride);
    MulMonotone(1, DivCeil(d, stride), stride);
    MulMonotone(d, chunk, target);
    MulMonotone(chunk - stride, d - 1, target);
  }

  /** Chunks no shorter than the target's make no more of them. */
  lemma AtMostTarget(aligned: nat, chunk: nat, target: nat)
    requires target > 0 && chunk > 0 && DivCeil(aligned, target) <= chunk
    ensures DivCeil(aligned, chunk) <= target
  {
    DivCeilCovers(aligned, target);
    DivCeilCovers(aligned, chunk);
    MulMonotone(DivCeil(aligned, target), chunk, target);
    assert target * chunk == chunk * target;
    if DivCeil(aligned, chunk) > target {
      MulMonotone(target + 1, DivCeil(aligned, chunk), chunk);
    }
  }

  /** The chunks are the least that meet what is aimed for, and just enough of them cover the padded slice. */
  ghost predicate Chunked(l: Layout, ideal: nat) {
    && (exists target: nat :: Aims(l.alignedLen, l.workerCount, ideal, target) &&
          LeastChunk(l.alignedLen, l.chunkLen, l.stride, target))
    && l.alignedLen <= l.numChunks * l.chunkLen < l.alignedLen + l.chunkLen
  }

  lemma IsChunked(l: Layout, ideal: nat, target: nat)
    requires Aims(l.alignedLen, l.workerCount, ideal, target)
    requires LeastChunk(l.alignedLen, l.chunkLen, l.stride, target)
    requires l.chunkLen > 0 && l.numChunks == DivCeil(l.alignedLen, l.chunkLen)
    ensures Chunked(l, ideal)
  {
    DivCeilCovers(l.alignedLen, l.chunkLen);
  }

  /** ControllerLayout::new: one stride beyond the slice, cut into stride-aligned chunks and shared out. */
  method NewLayout(slice: nat, outputs: nat, workerCount: nat, methodStride: nat, idealChunk: nat) returns (l: Layout)
    requires slice > 0 && outputs > 0
    ensures l.workerCount == Max(workerCount, 1) && l.stride == Max(methodStride, 1)
    ensures slice + l.stride <= l.alignedLen < slice + 2 * l.stride
    ensures l.chunkLen > 0 && l.numChunks == DivCeil(l.alignedLen, l.chunkLen) <=
            TargetChunks(l.alignedLen, l.workerCount, AlignedIdeal(idealChunk, l.stride))
    ensures Chunked(l, AlignedIdeal(idealChunk, l.stride))
    ensures SharesOut(l, outputs)
  {
    var workers, stride := Max(workerCount, 1), Max(methodStride, 1);
    ghost var blocks, m;
    var aligned, chunk;
    aligned, chunk, blocks, m := Lengths(slice, workers, stride, idealChunk);
    var num := DivCeil(aligned, chunk);
    var ws := BuildAssignments(aligned, chunk, num, outputs, workers);
    l := Layout(aligned, chunk, num, ws, workers, stride);
    IsChunked(l, AlignedIdeal(idealChunk, stride), TargetChunks(aligned, workers, AlignedIdeal(idealChunk, stride)));
    forall i | 0 <= i < |ws| ensures OnStride(ws[i], l, outputs) {
      WorkOnStride(ws[i], l, outputs, m, blocks);
    }
  }
}
