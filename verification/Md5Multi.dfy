/** Hashing a list of messages in batches as wide as the host's vector unit. */
module Md5Multi {
  import opened Options
  import opened Bytes
  import opened Md5Spec
  import opened Md5Rounds
  import opened Md5Block
  import opened Md5Lanes

  datatype Host = X86(avx2: bool, sse2: bool) | Aarch64 | WasmSimd128 | Portable

  function MaxLanes(host: Host): (n: nat)
    ensures n > 0
  {
    match host
    case X86(avx2, sse2) => if avx2 then 8 else if sse2 then 4 else 1
    case Aarch64 => 4
    case WasmSimd128 => 4
    case Portable => 1
  }

  /** The n slots from `at` on hold the digests of the messages. */
  ghost predicate Hashed(out: seq<seq<Byte>>, msgs: seq<seq<Byte>>) {
    |out| == |msgs| && forall l :: 0 <= l < |msgs| ==> out[l] == Digest(MD5, msgs[l])
  }

  // What a kernel's vector registers do in one block.

  /** The state of each lane. */
  function LaneStates(r: Quad<seq<W>>, lanes: nat): (states: seq<Regs>)
    requires Wide(r, lanes)
    ensures |states| == lanes && forall l :: 0 <= l < lanes ==> states[l] == Lane(r, l)
  {
    seq(lanes, l requires 0 <= l < lanes => Lane(r, l))
  }

  function AddVectors(x: seq<W>, y: seq<W>): (z: seq<W>)
    requires |x| == |y|
    ensures |z| == |x| && forall l :: 0 <= l < |x| ==> z[l] == Plus(x[l], y[l])
  {
    seq(|x|, l requires 0 <= l < |x| => Plus(x[l], y[l]))
  }

  function AddLanes(x: Quad<seq<W>>, y: Quad<seq<W>>, lanes: nat): (q: Quad<seq<W>>)
    requires Wide(x, lanes) && Wide(y, lanes)
    ensures Wide(q, lanes) && forall l :: 0 <= l < lanes ==> Lane(q, l) == AddRegs(Lane(x, l), Lane(y, l))
  {
    Quad(AddVectors(x.a, y.a), AddVectors(x.b, y.b), AddVectors(x.c, y.c), AddVectors(x.d, y.d))
  }

  ghost predicate Blocks(isa: Isa, blocks: seq<seq<Byte>>) {
    |blocks| == Lanes(isa) && forall l :: 0 <= l < |blocks| ==> |blocks[l]| == 64
  }

  function RowsOf(isa: Isa, blocks: seq<seq<Byte>>): (rows: seq<seq<W>>)
    requires Blocks(isa, blocks)
    ensures BlockRows(isa, rows) && forall l :: 0 <= l < |blocks| ==> rows[l] == BlockWords(blocks[l])
  {
    seq(|blocks|, l requires 0 <= l < |blocks| && |blocks[l]| == 64 => BlockWords(blocks[l]))
  }

  /** Load a block of every lane, run the 64 steps on vectors, and add what the registers held before. */
  ghost function VectorBlock(isa: Isa, r: Quad<seq<W>>, blocks: seq<seq<Byte>>): (q: Quad<seq<W>>)
    requires Wide(r, Lanes(isa)) && Blocks(isa, blocks)
    ensures Wide(q, Lanes(isa))
  {
    LoadsWide(isa, RowsOf(isa, blocks));
    AddLanes(VectorRounds(isa, r, LoadBlocks(isa, RowsOf(isa, blocks)), Lanes(isa), 64), r, Lanes(isa))
  }

  lemma LoadsWide(isa: Isa, rows: seq<seq<W>>)
    requires BlockRows(isa, rows)
    ensures Vectors(LoadBlocks(isa, rows), Lanes(isa))
  {
    forall w | 0 <= w < 16 ensures |LoadBlocks(isa, rows)[w]| == Lanes(isa) { LoadTransposes(isa, rows, w, 0); }
  }

  lemma VectorBlockLane(isa: Isa, r: Quad<seq<W>>, blocks: seq<seq<Byte>>, l: nat)
    requires Wide(r, Lanes(isa)) && Blocks(isa, blocks) && l < Lanes(isa)
    ensures Lane(VectorBlock(isa, r, blocks), l) == RfcCompress(Lane(r, l), blocks[l])
  {
    KernelLane(isa, r, blocks, RowsOf(isa, blocks), l);
  }

  /** Vector registers advance every lane by the block function, each on its own block. */
  lemma VectorsAdvance(isa: Isa, r: Quad<seq<W>>, blocks: seq<seq<Byte>>)
    requires Wide(r, Lanes(isa)) && Blocks(isa, blocks)
    ensures LaneStates(VectorBlock(isa, r, blocks), Lanes(isa)) ==
            Advance(Md5Block.Kernel(isa), LaneStates(r, Lanes(isa)), blocks)
  {
    forall l | 0 <= l < Lanes(isa)
      ensures Lane(VectorBlock(isa, r, blocks), l) == Md5Block.Kernel(isa).compress(Lane(r, l), blocks[l])
    {
      VectorBlockLane(isa, r, blocks, l);
      CompressIsRfc(isa, Lane(r, l), blocks[l]);
    }
  }

  method RunKernel(isa: Isa, plans: seq<LanePlan>, out: array<seq<Byte>>, at: nat, ghost msgs: seq<seq<Byte>>)
    requires |plans| <= Lanes(isa) && at + |plans| <= out.Length && Serving(plans, msgs)
    modifies out
    ensures OthersKept(out, at, |plans|) && Hashed(out[at..at + |plans|], msgs)
  {
    Md5Lanes.Kernel(Md5Block.Kernel(isa), Lanes(isa), plans, out, at, msgs);
    forall l | 0 <= l < |msgs| ensures out[at..at + |plans|][l] == Digest(MD5, msgs[l]) {
      KernelIsMd5(isa, msgs[l]);
    }
  }

  /** md5_batch: the widest kernel that takes the batch, splitting one too wide for SSE2. */
  method Batch(host: Host, plans: seq<LanePlan>, out: array<seq<Byte>>, at: nat, ghost msgs: seq<seq<Byte>>)
    requires host.X86? || |plans| <= MaxLanes(host)
    requires host.X86? && host.avx2 ==> |plans| <= 8
    requires at + |plans| <= out.Length && Serving(plans, msgs)
    modifies out
    ensures OthersKept(out, at, |plans|) && Hashed(out[at..at + |plans|], msgs)
    decreases |plans|
  {
    if host.X86? && |plans| > 4 {
      if host.avx2 {
        RunKernel(Avx2, plans, out, at, msgs);
      } else {
        SplitServing(plans, msgs, 4);
        Batch(host, plans[..4], out, at, msgs[..4]);
        ghost var head := out[at..at + 4];
        Batch(host, plans[4..], out, at + 4, msgs[4..]);
        assert out[at..at + 4] == head;
        JoinHashed(out[..], at, 4, |plans|, msgs);
      }
    } else if host.X86? && (host.sse2 || host.avx2) {
      RunKernel(Sse2, plans, out, at, msgs);
    } else if host.Aarch64? {
      RunKernel(Neon, plans, out, at, msgs);
    } else if host.WasmSimd128? {
      RunKernel(Simd128, plans, out, at, msgs);
    } else {
      BatchScalar(plans, out, at, msgs);
    }
  }

  lemma SplitServing(plans: seq<LanePlan>, msgs: seq<seq<Byte>>, k: nat)
    requires Serving(plans, msgs) && k <= |plans|
    ensures Serving(plans[..k], msgs[..k]) && Serving(plans[k..], msgs[k..])
  {
  }

  lemma JoinHashed(out: seq<seq<Byte>>, at: nat, k: nat, n: nat, msgs: seq<seq<Byte>>)
    requires k <= n == |msgs| && at + n <= |out|
    requires Hashed(out[at..at + k], msgs[..k]) && Hashed(out[at + k..at + n], msgs[k..])
    ensures Hashed(out[at..at + n], msgs)
  {
    forall l | 0 <= l < n ensures out[at..at + n][l] == Digest(MD5, msgs[l]) {
      if l < k {
        assert out[at..at + n][l] == out[at..at + k][l] && msgs[l] == msgs[..k][l];
      } else {
        assert out[at..at + n][l] == out[at + k..at + n][l - k] && msgs[l] == msgs[k..][l - k];
      }
    }
  }

  lemma OneMore(out: seq<seq<Byte>>, at: nat, i: nat, msgs: seq<seq<Byte>>)
    requires i < |msgs| && at + i + 1 <= |out| && Hashed(out[at..at + i], msgs[..i]) &&
             Hashed(out[at + i..at + i + 1], msgs[i..][..1])
    ensures Hashed(out[at..at + (i + 1)], msgs[..i + 1])
  {
    assert msgs[..i + 1][..i] == msgs[..i] && msgs[..i + 1][i..] == msgs[i..][..1];
    JoinHashed(out, at, i, i + 1, msgs[..i + 1]);
  }

  /** md5_batch_scalar: one message per pass. */
  method BatchScalar(plans: seq<LanePlan>, out: array<seq<Byte>>, at: nat, ghost msgs: seq<seq<Byte>>)
    requires at + |plans| <= out.Length && Serving(plans, msgs)
    modifies out
    ensures OthersKept(out, at, |plans|) && Hashed(out[at..at + |plans|], msgs)
  {
    for i := 0 to |plans|
      invariant OthersKept(out, at, |plans|) && Hashed(out[at..at + i], msgs[..i])
    {
      ghost var done := out[at..at + i];
      SplitServing(plans, msgs, i);
      SplitServing(plans[i..], msgs[i..], 1);
      RunKernel(Scalar, plans[i..][..1], out, at + i, msgs[i..][..1]);
      assert out[at..at + i] == done;
      OneMore(out[..], at, i, msgs);
    }
    assert msgs[..|plans|] == msgs;
  }

  /** The logical messages. */
  ghost function Messages(inputs: seq<seq<Byte>>, padTo: Option<nat>): (msgs: seq<seq<Byte>>)
    ensures |msgs| == |inputs| && forall i :: 0 <= i < |inputs| ==> msgs[i] == Extended(inputs[i], padTo)
  {
    seq(|inputs|, i requires 0 <= i < |inputs| => Extended(inputs[i], padTo))
  }

  method PlanAll(inputs: seq<seq<Byte>>, padTo: Option<nat>) returns (plans: seq<LanePlan>)
    requires forall i :: 0 <= i < |inputs| ==> |Extended(inputs[i], padTo)| < MAX_BYTES
    ensures Serving(plans, Messages(inputs, padTo))
  {
    plans := [];
    for i := 0 to |inputs|
      invariant |plans| == i && forall l :: 0 <= l < i ==> plans[l].Serves(Extended(inputs[l], padTo))
    {
      var plan := NewPlan(inputs[i], padTo);
      plans := plans + [plan];
    }
  }

  /** One chunk of inputs, hashed into its own slots. */
  method HashChunk(host: Host, chunk: seq<seq<Byte>>, padTo: Option<nat>, out: array<seq<Byte>>, at: nat,
                   ghost msgs: seq<seq<Byte>>)
    requires |chunk| <= MaxLanes(host) && at + |chunk| <= out.Length && msgs == Messages(chunk, padTo)
    requires forall i :: 0 <= i < |chunk| ==> |Extended(chunk[i], padTo)| < MAX_BYTES
    modifies out
    ensures out[..at] == old(out[..at]) && Hashed(out[at..at + |chunk|], msgs)
  {
    var plans := PlanAll(chunk, padTo);
    Batch(host, plans, out, at, msgs);
    assert forall k :: 0 <= k < at ==> out[k] == old(out[k]);
  }

  /** md5_multi_into: one digest for each input, in order, each that of its own zero-extended message. */
  method MultiInto(host: Host, inputs: seq<seq<Byte>>, padTo: Option<nat>, out: array<seq<Byte>>)
    requires out.Length == |inputs|
    requires forall i :: 0 <= i < |inputs| ==> |Extended(inputs[i], padTo)| < MAX_BYTES
    modifies out
    ensures Hashed(out[..], Messages(inputs, padTo))
  {
    var lanes, at := MaxLanes(host), 0;
    ghost var msgs := Messages(inputs, padTo);
    while at < |inputs|
      invariant 0 <= at <= |inputs| && Hashed(out[..at], msgs[..at])
    {
      var end := if at + lanes < |inputs| then at + lanes else |inputs|;
      assert Messages(inputs[at..end], padTo) == msgs[at..end];
      HashChunk(host, inputs[at..end], padTo, out, at, msgs[at..end]);
      NextHashed(out[..], msgs, at, end);
      at := end;
    }
    assert out[..at] == out[..] && msgs[..at] == msgs;
  }

  lemma NextHashed(out: seq<seq<Byte>>, msgs: seq<seq<Byte>>, at: nat, end: nat)
    requires at <= end <= |msgs| == |out| && Hashed(out[..at], msgs[..at]) && Hashed(out[at..end], msgs[at..end])
    ensures Hashed(out[..end], msgs[..end])
  {
    assert out[0..end] == out[..end] && msgs[..end][..at] == msgs[..at] && msgs[..end][at..] == msgs[at..end];
    JoinHashed(out, 0, at, end, msgs[..end]);
  }
}
