/** Hashing several messages side by side: where each block of a padded message
    is read from, and the ragged kernel that runs lanes of different lengths. */
module Md5Lanes {
  import opened Options
  import opened Bytes
  import opened Md5Spec

  /** Marks an unused straddle block: u64::MAX. */
  const UNUSED: nat := 0xFFFF_FFFF_FFFF_FFFF

  /** A length this far below 2^64 leaves room for the terminator and the stored bit length. */
  const MAX_BYTES: nat := WRAP - 9

  const TAIL_BLOCKS := 2

  /** Where each block of one lane's message comes from. */
  datatype LanePlan = LanePlan(data: seq<Byte>, dataFullBlocks: nat, straddleIndex: nat, straddle: seq<Byte>,
                               tailStart: nat, tail: seq<Byte>, totalBlocks: nat) {

    predicate Sized() {
      && 64 * dataFullBlocks <= |data| && |straddle| == 64 && |tail| == 128
      && tailStart <= totalBlocks <= tailStart + TAIL_BLOCKS
    }

    /** block_ptr: the 64 bytes of block `index`. */
    function Block(index: nat): (b: seq<Byte>)
      requires Sized()
      ensures |b| == 64
    {
      if index >= totalBlocks then Zeros(64)
      else if index >= tailStart then BlockAt(tail, index - tailStart)
      else if index < dataFullBlocks then BlockAt(data, index)
      else if index == straddleIndex then straddle
      else Zeros(64)
    }

    /** Blocks below this index are all read straight out of `data`. */
    function InPlaceBlocks(): nat {
      if dataFullBlocks < tailStart then dataFullBlocks else tailStart
    }

    /** The plan serves the blocks of the padded message and no others. */
    ghost predicate Serves(msg: seq<Byte>) {
      && Sized() && 64 * totalBlocks == |Padded(msg)|
      && forall i: nat :: i < totalBlocks ==> Block(i) == BlockAt(Padded(msg), i)
    }
  }

  /** The logical message: `data`, zero-extended when a longer length is asked for. */
  function Extended(data: seq<Byte>, padTo: Option<nat>): seq<Byte> {
    if padTo.Some? then PadTo(data, padTo.value) else data
  }

  /** Byte j of the padded message: data, zero extension, terminator, zeros, length. */
  function MessageByte(data: seq<Byte>, effective: nat, total: nat, j: nat): Byte
    requires effective + 9 <= 64 * total && j < 64 * total
  {
    if j < |data| then data[j] else if j == effective then 0x80
    else if j < 64 * total - 8 then 0
    else LittleEndian(8 * effective % WRAP, 8)[j - (64 * total - 8)]
  }

  lemma MessageBytes(data: seq<Byte>, padTo: Option<nat>, total: nat, j: nat)
    requires |Extended(data, padTo)| < MAX_BYTES && 64 * total == |Padded(Extended(data, padTo))| && j < 64 * total
    ensures Padded(Extended(data, padTo))[j] == MessageByte(data, |Extended(data, padTo)|, total, j)
  {
    var msg := Extended(data, padTo);
    PaddedByte(msg, total, j);
    if j < |msg| { assert msg[j] == if j < |data| then data[j] else 0; }
  }

  lemma PaddedByte(msg: seq<Byte>, total: nat, j: nat)
    requires |msg| < MAX_BYTES && 64 * total == |Padded(msg)| && j < 64 * total
    ensures Padded(msg)[j] == MessageByte(msg, |msg|, total, j)
  {
    var z := 64 * total - |msg| - 9;
    PadShape(msg, z);
    PartByte(msg, total, z, LittleEndian(8 * |msg| % WRAP, 8), j);
  }

  lemma PartByte(msg: seq<Byte>, total: nat, z: nat, length: seq<Byte>, j: nat)
    requires |length| == 8 && 64 * total == |msg| + 9 + z && j < 64 * total
    ensures (msg + ([0x80] + Zeros(z) + length))[j] ==
            if j < |msg| then msg[j] else if j == |msg| then 0x80 else if j < 64 * total - 8 then 0
              else length[j - (64 * total - 8)]
  {
    PadParts(msg, Zeros(z), length, j);
  }

  lemma PadShape(msg: seq<Byte>, z: nat)
    requires |Padded(msg)| == |msg| + 9 + z
    ensures Padded(msg) == msg + ([0x80] + Zeros(z) + LittleEndian(8 * |msg| % WRAP, 8))
  {
  }

  lemma PadParts(msg: seq<Byte>, zeros: seq<Byte>, length: seq<Byte>, j: nat)
    requires j < |msg| + 1 + |zeros| + |length|
    ensures (msg + ([0x80] + zeros + length))[j] ==
            if j < |msg| then msg[j] else if j == |msg| then 0x80
            else if j < |msg| + 1 + |zeros| then zeros[j - |msg| - 1] else length[j - |msg| - 1 - |zeros|]
  {
  }

  lemma BlockCount(len: nat, total: nat)
    requires total == (len + 9 + 63) / 64
    ensures 64 * total == len + 9 + (55 - len) % 64
    ensures len + 9 <= 64 * total < len + 9 + 64
  {
  }

  /** Overwrite `buf` at `at`. */
  function Copied(buf: seq<Byte>, at: nat, bytes: seq<Byte>): (out: seq<Byte>)
    requires at + |bytes| <= |buf|
    ensures |out| == |buf|
    ensures forall k :: 0 <= k < |buf| ==> out[k] == if at <= k < at + |bytes| then bytes[k - at] else buf[k]
  {
    buf[..at] + bytes + buf[at + |bytes|..]
  }

  /** The final one or two blocks. */
  method TailScratch(data: seq<Byte>, effective: nat, total: nat, tailStart: nat) returns (tail: seq<Byte>)
    requires |data| <= effective && effective + 9 <= 64 * total && tailStart < total <= tailStart + TAIL_BLOCKS &&
             64 * tailStart <= effective
    ensures |tail| == 128
    ensures forall k :: 0 <= k < 64 * (total - tailStart) ==>
            tail[k] == MessageByte(data, effective, total, 64 * tailStart + k)
  {
    tail := Zeros(128);
    if |data| > 64 * tailStart {
      tail := Copied(tail, 0, data[64 * tailStart..]);
    }
    tail := tail[effective - 64 * tailStart := 0x80];
    tail := Copied(tail, 64 * (total - tailStart) - 8, LittleEndian(8 * effective % WRAP, 8));
  }

  /** The scratch blocks hold the parts of the message they stand for. */
  ghost predicate TailFilled(plan: LanePlan, effective: nat)
    requires plan.Sized() && effective + 9 <= 64 * plan.totalBlocks
  {
    forall t :: 0 <= t < 64 * (plan.totalBlocks - plan.tailStart) ==>
      plan.tail[t] == MessageByte(plan.data, effective, plan.totalBlocks, 64 * plan.tailStart + t)
  }

  ghost predicate StraddleFilled(plan: LanePlan)
    requires plan.Sized()
  {
    if |plan.data| != 64 * plan.dataFullBlocks && plan.dataFullBlocks < plan.tailStart
    then plan.straddleIndex == plan.dataFullBlocks && plan.straddle == PadTo(plan.data[64 * plan.dataFullBlocks..], 64)
    else plan.straddleIndex == UNUSED
  }

  /** The block holding the end of the data when the tail does not. */
  method Straddle(data: seq<Byte>, dataFull: nat, tailStart: nat) returns (index: nat, straddle: seq<Byte>)
    requires dataFull == |data| / 64
    ensures |straddle| == 64
    ensures if |data| != 64 * dataFull && dataFull < tailStart then index == dataFull &&
            straddle == PadTo(data[64 * dataFull..], 64) else index == UNUSED
  {
    straddle, index := Zeros(64), UNUSED;
    if |data| % 64 != 0 && dataFull < tailStart {
      straddle := Copied(straddle, 0, data[64 * dataFull..]);
      index := dataFull;
    }
  }

  /** The extents of the plan. */
  method Extents(data: seq<Byte>, padTo: Option<nat>)
    returns (effective: nat, total: nat, tailStart: nat, dataFull: nat)
    ensures effective == |Extended(data, padTo)| && 64 * total == |Padded(Extended(data, padTo))| && |data| <= effective
    ensures effective + 9 <= 64 * total && 64 * tailStart <= effective && tailStart < total <= tailStart + TAIL_BLOCKS
    ensures dataFull == |data| / 64 && 64 * dataFull <= |data| < 64 * dataFull + 64
  {
    effective := if padTo.Some? && padTo.value > |data| then padTo.value else |data|;
    total := (effective + 9 + 63) / 64;
    BlockCount(effective, total);
    tailStart := if total < TAIL_BLOCKS then 0 else total - TAIL_BLOCKS;
    dataFull := |data| / 64;
  }

  /** LanePlan::new. */
  method NewPlan(data: seq<Byte>, padTo: Option<nat>) returns (plan: LanePlan)
    requires |Extended(data, padTo)| < MAX_BYTES
    ensures plan.data == data && plan.Serves(Extended(data, padTo))
  {
    var effective, total, tailStart, dataFull := Extents(data, padTo);
    var tail := TailScratch(data, effective, total, tailStart);
    var straddleIndex, straddle := Straddle(data, dataFull, tailStart);
    plan := LanePlan(data, dataFull, straddleIndex, straddle, tailStart, tail, total);
    assert TailFilled(plan, effective);
    PlanServes(plan, padTo, effective);
  }

  lemma PlanServes(plan: LanePlan, padTo: Option<nat>, effective: nat)
    requires plan.Sized() && effective == |Extended(plan.data, padTo)| < MAX_BYTES &&
             64 * plan.totalBlocks == |Padded(Extended(plan.data, padTo))|
    requires 64 * plan.dataFullBlocks <= |plan.data| < 64 * plan.dataFullBlocks + 64 && 64 * plan.tailStart <= effective
    requires TailFilled(plan, effective) && StraddleFilled(plan)
    ensures plan.Serves(Extended(plan.data, padTo))
  {
    var P := Padded(Extended(plan.data, padTo));
    forall i: nat | i < plan.totalBlocks ensures plan.Block(i) == BlockAt(P, i) {
      forall k | 0 <= k < 64 ensures plan.Block(i)[k] == BlockAt(P, i)[k] {
        MessageBytes(plan.data, padTo, plan.totalBlocks, 64 * i + k);
        BlockByte(plan, effective, i, k);
      }
    }
  }

  lemma BlockByte(plan: LanePlan, effective: nat, i: nat, k: nat)
    requires plan.Sized() && effective + 9 <= 64 * plan.totalBlocks < 2 * MAX_BYTES && |plan.data| <= effective &&
             i < plan.totalBlocks && k < 64
    requires 64 * plan.dataFullBlocks <= |plan.data| < 64 * plan.dataFullBlocks + 64 && 64 * plan.tailStart <= effective
    requires TailFilled(plan, effective) && StraddleFilled(plan)
    ensures plan.Block(i)[k] == MessageByte(plan.data, effective, plan.totalBlocks, 64 * i + k)
  {
    if i >= plan.tailStart {
      assert plan.Block(i)[k] == plan.tail[64 * (i - plan.tailStart) + k];
    } else if i < plan.dataFullBlocks {
      assert plan.Block(i)[k] == plan.data[64 * i + k];
    } else {
      MiddleByte(plan, effective, i, k);
    }
  }

  /** Between the whole blocks of data and the tail: the straddling block, then zeros. */
  lemma MiddleByte(plan: LanePlan, effective: nat, i: nat, k: nat)
    requires plan.Sized() && effective + 9 <= 64 * plan.totalBlocks < 2 * MAX_BYTES && k < 64
    requires 64 * plan.dataFullBlocks <= |plan.data| < 64 * plan.dataFullBlocks + 64 &&
             plan.dataFullBlocks <= i < plan.tailStart && 64 * plan.tailStart <= effective
    requires StraddleFilled(plan)
    ensures plan.Block(i)[k] == MessageByte(plan.data, effective, plan.totalBlocks, 64 * i + k)
  {
    var rest := plan.data[64 * plan.dataFullBlocks..];
    if i == plan.dataFullBlocks && |rest| > 0 {
      assert plan.Block(i)[k] == PadTo(rest, 64)[k];
    } else {
      assert plan.Block(i) == Zeros(64);
    }
  }

  // The kernel.

  method Extremes(plans: seq<LanePlan>) returns (longest: nat, shortest: nat, inPlace: nat)
    requires |plans| > 0
    ensures forall l :: 0 <= l < |plans| ==>
            shortest <= plans[l].totalBlocks <= longest && inPlace <= plans[l].InPlaceBlocks()
  {
    longest, shortest, inPlace := plans[0].totalBlocks, plans[0].totalBlocks, plans[0].InPlaceBlocks();
    for i := 1 to |plans|
      invariant forall l :: 0 <= l < i ==>
                shortest <= plans[l].totalBlocks <= longest && inPlace <= plans[l].InPlaceBlocks()
    {
      if plans[i].totalBlocks > longest { longest := plans[i].totalBlocks; }
      if plans[i].totalBlocks < shortest { shortest := plans[i].totalBlocks; }
      if plans[i].InPlaceBlocks() < inPlace { inPlace := plans[i].InPlaceBlocks(); }
    }
  }

  /** Every plan serves its own message. */
  ghost predicate Serving(plans: seq<LanePlan>, msgs: seq<seq<Byte>>) {
    |msgs| == |plans| && forall l :: 0 <= l < |plans| ==> plans[l].Serves(msgs[l])
  }

  /** Resolve each lane's next block; spare slots keep theirs. */
  method Resolve(plans: seq<LanePlan>, ptrs: seq<seq<Byte>>, index: nat, inPlace: nat) returns (next: seq<seq<Byte>>)
    requires |plans| <= |ptrs| && forall l :: 0 <= l < |plans| ==>
             plans[l].Sized() && inPlace <= plans[l].InPlaceBlocks()
    ensures |next| == |ptrs|
    ensures forall l :: 0 <= l < |plans| ==> next[l] == plans[l].Block(index)
    ensures forall l :: |plans| <= l < |ptrs| ==> next[l] == ptrs[l]
  {
    next := ptrs;
    for l := 0 to |plans|
      invariant |next| == |ptrs|
      invariant forall k :: 0 <= k < l ==> next[k] == plans[k].Block(index)
      invariant forall k :: |plans| <= k < |ptrs| ==> next[k] == ptrs[k]
    {
      if index < inPlace {
        next := next[l := plans[l].data[64 * index..64 * index + 64]];
      } else {
        next := next[l := plans[l].Block(index)];
      }
    }
  }

  /** Each lane runs the block function on its own block. */
  function Advance<S, D>(H: Hash<S, D>, states: seq<S>, blocks: seq<seq<Byte>>): (next: seq<S>)
    requires |states| == |blocks|
    ensures |next| == |states| && forall l :: 0 <= l < |states| ==> next[l] == H.compress(states[l], blocks[l])
  {
    seq(|states|, l requires 0 <= l < |states| => H.compress(states[l], blocks[l]))
  }

  /** Lane l's state after `index` blocks, until it finishes. */
  ghost predicate LaneAt<S(!new), D>(H: Hash<S, D>, plan: LanePlan, msg: seq<Byte>, s: S, index: nat) {
    plan.Serves(msg) && (index <= plan.totalBlocks ==> s == Folded(H, H.init, Padded(msg), index))
  }

  lemma LaneStep<S(!new), D>(H: Hash<S, D>, plan: LanePlan, msg: seq<Byte>, s: S, index: nat)
    requires LaneAt(H, plan, msg, s, index)
    ensures LaneAt(H, plan, msg, H.compress(s, plan.Block(index)), index + 1)
  {
  }

  lemma LaneDone<S(!new), D>(H: Hash<S, D>, plan: LanePlan, msg: seq<Byte>, s: S)
    requires LaneAt(H, plan, msg, s, plan.totalBlocks)
    ensures H.output(s) == Digest(H, msg) && plan.totalBlocks > 0
  {
  }

  ghost predicate LanesAt<S(!new), D>(H: Hash<S, D>, plans: seq<LanePlan>, msgs: seq<seq<Byte>>, states: seq<S>,
                                      index: nat) {
    && |msgs| == |plans| <= |states|
    && forall l :: 0 <= l < |plans| ==> LaneAt(H, plans[l], msgs[l], states[l], index)
  }

  /** One block of every lane. */
  method RunBlock<S(!new), D>(H: Hash<S, D>, plans: seq<LanePlan>, states: seq<S>, ptrs: seq<seq<Byte>>, index: nat,
                              inPlace: nat,
                              ghost msgs: seq<seq<Byte>>)
    returns (next: seq<S>, blocks: seq<seq<Byte>>)
    requires |states| == |ptrs| && LanesAt(H, plans, msgs, states, index)
    requires forall l :: 0 <= l < |plans| ==> inPlace <= plans[l].InPlaceBlocks()
    ensures |next| == |blocks| == |states| && LanesAt(H, plans, msgs, next, index + 1)
  {
    blocks := Resolve(plans, ptrs, index, inPlace);
    next := Advance(H, states, blocks);
    forall l | 0 <= l < |plans| ensures LaneAt(H, plans[l], msgs[l], next[l], index + 1) {
      LaneStep(H, plans[l], msgs[l], states[l], index);
    }
  }

  /** Outside the batch's own slots nothing is written. */
  twostate predicate OthersKept<D(!new)>(out: array<D>, at: nat, n: nat)
    reads out
  {
    forall k :: 0 <= k < out.Length && !(at <= k < at + n) ==> out[k] == old(out[k])
  }

  /** Every lane of at most `index` blocks has its digest in its slot. */
  ghost predicate Written<S(!new), D(!new)>(H: Hash<S, D>, plans: seq<LanePlan>, msgs: seq<seq<Byte>>, out: seq<D>,
                                            index: nat) {
    && |msgs| == |plans| == |out|
    && forall l :: 0 <= l < |plans| && plans[l].totalBlocks <= index ==> out[l] == Digest(H, msgs[l])
  }

  /** The slots after the lanes whose last block was number `index` have been written. */
  function Updated<S(!new), D(!new)>(H: Hash<S, D>, plans: seq<LanePlan>, states: seq<S>, index: nat,
                                     out: seq<D>): (next: seq<D>)
    requires |plans| == |out| && |plans| <= |states|
    ensures |next| == |out|
  {
    seq(|out|, l requires 0 <= l < |out| => if plans[l].totalBlocks == index + 1 then H.output(states[l]) else out[l])
  }

  /** Write the digests of the lanes whose last block was number `index`. */
  method Extract<S(!new), D(!new)>(H: Hash<S, D>, plans: seq<LanePlan>, states: seq<S>, index: nat, out: array<D>,
                                   at: nat)
    requires at + |plans| <= out.Length && |plans| <= |states|
    modifies out
    ensures OthersKept(out, at, |plans|)
    ensures out[at..at + |plans|] == Updated(H, plans, states, index, old(out[at..at + |plans|]))
  {
    ghost var before := out[at..at + |plans|];
    for lane := 0 to |plans|
      invariant OthersKept(out, at, |plans|)
      invariant forall k :: at <= k < at + |plans| ==>
                  out[k] == if k < at + lane then Updated(H, plans, states, index, before)[k - at] else before[k - at]
    {
      if plans[lane].totalBlocks == index + 1 {
        out[at + lane] := H.output(states[lane]);
      }
    }
  }

  lemma UpdatedWritten<S(!new), D(!new)>(H: Hash<S, D>, plans: seq<LanePlan>, msgs: seq<seq<Byte>>, states: seq<S>,
                                         index: nat, out: seq<D>)
    requires LanesAt(H, plans, msgs, states, index + 1) && Written(H, plans, msgs, out, index)
    ensures Written(H, plans, msgs, Updated(H, plans, states, index, out), index + 1)
  {
    forall l | 0 <= l < |plans| && plans[l].totalBlocks <= index + 1
      ensures Updated(H, plans, states, index, out)[l] == Digest(H, msgs[l]) {
      if plans[l].totalBlocks == index + 1 { LaneDone(H, plans[l], msgs[l], states[l]); }
    }
  }

  /** md5_multi_kernel: every lane's digest is that of its own message, whatever the other lanes hold. */
  method Kernel<S(!new), D(!new)>(H: Hash<S, D>, lanes: nat, plans: seq<LanePlan>, out: array<D>, at: nat,
                                  ghost msgs: seq<seq<Byte>>)
    requires |plans| <= lanes && at + |plans| <= out.Length && Serving(plans, msgs)
    modifies out
    ensures OthersKept(out, at, |plans|)
    ensures forall l :: 0 <= l < |plans| ==> out[at..at + |plans|][l] == Digest(H, msgs[l])
  {
    if |plans| == 0 {
      return;
    }
    var longest, shortest, inPlace := Extremes(plans);
    var states, ptrs := seq(lanes, _ => H.init), seq(lanes, _ => Zeros(64));
    forall l | 0 <= l < |plans| ensures plans[l].totalBlocks > 0 { assert plans[l].Serves(msgs[l]); }
    for index := 0 to longest
      invariant |states| == |ptrs| == lanes && LanesAt(H, plans, msgs, states, index)
      invariant OthersKept(out, at, |plans|) && Written(H, plans, msgs, out[at..at + |plans|], index)
    {
      states, ptrs := RunBlock(H, plans, states, ptrs, index, inPlace, msgs);
      if index + 1 >= shortest {
        UpdatedWritten(H, plans, msgs, states, index, out[at..at + |plans|]);
        Extract(H, plans, states, index, out, at);
      }
    }
  }
}
