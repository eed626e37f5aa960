/** The two-area staging protocol of the packed repair controller: inputs fill
    one area while the arithmetic works through the other. */
module Lifecycle {
  import opened Options
  import opened Fields

  const AREAS := 2

  datatype Status = Ready | ReadyBusy | Full

  datatype Reason = ExplicitFlush | GroupFull | IdleThreshold | EndInput

  datatype Batch = Batch(area: nat, start: nat, len: nat, add: bool, reason: Reason)

  datatype AddResult = Accepted(area: nat, slot: nat, submitted: Option<Batch>) | Refused

  /** The batches take the first n inputs in order without gap or overlap, in
      alternating areas, and only the first does not add to what is there. */
  ghost predicate Tiles(batches: seq<Batch>, n: nat, grouping: nat) {
    if |batches| == 0 then n == 0
    else
      var k := |batches| - 1;
      var b := batches[k];
      && b.start + b.len == n && 0 < b.len <= grouping && b.area == k % AREAS && b.add == (k > 0)
      && Tiles(batches[..k], b.start, grouping)
  }

  /** Every input handed over is in exactly one batch. */
  lemma {:induction false} TilesCover(batches: seq<Batch>, n: nat, grouping: nat, i: nat) returns (k: nat)
    requires Tiles(batches, n, grouping) && i < n
    ensures k < |batches| && batches[k].start <= i < batches[k].start + batches[k].len
    ensures forall j :: 0 <= j < |batches| && batches[j].start <= i < batches[j].start + batches[j].len ==> j == k
  {
    var last := |batches| - 1;
    if batches[last].start <= i {
      k := last;
      TilesBelow(batches[..last], batches[last].start, grouping);
    } else {
      k := TilesCover(batches[..last], batches[last].start, grouping, i);
    }
  }

  lemma {:induction false} TilesBelow(batches: seq<Batch>, n: nat, grouping: nat)
    requires Tiles(batches, n, grouping)
    ensures forall j :: 0 <= j < |batches| ==> batches[j].start + batches[j].len <= n
  {
    if |batches| > 0 {
      var last := |batches| - 1;
      TilesBelow(batches[..last], batches[last].start, grouping);
      forall j | 0 <= j < |batches| ensures batches[j].start + batches[j].len <= n {
        if j < last { assert batches[..last][j] == batches[j]; }
      }
    }
  }

  /** The sum of len inputs' shares of one output word. */
  ghost function Share<F(!new)>(K: Field<F>, value: nat -> F, start: nat, len: nat): F {
    if len == 0 then K.zero else Add(K, Share(K, value, start, len - 1), value(start + len - 1))
  }

  /** The output word once the batches have been worked through in order: each is added, or replaces what was there. */
  ghost function Accumulated<F(!new)>(K: Field<F>, value: nat -> F, batches: seq<Batch>, before: F): F {
    if |batches| == 0 then before
    else
      var b := batches[|batches| - 1];
      var share := Share(K, value, b.start, b.len);
      if b.add then Add(K, Accumulated(K, value, batches[..|batches| - 1], before), share) else share
  }

  lemma {:induction false} SharesJoin<F(!new)>(K: Field<F>, value: nat -> F, n: nat, len: nat)
    requires K.Lawful()
    ensures Share(K, value, 0, n + len) == Add(K, Share(K, value, 0, n), Share(K, value, n, len))
  {
    if len == 0 {
      AddZero(K, Share(K, value, 0, n));
    } else {
      SharesJoin(K, value, n, len - 1);
      AddAssoc(K, Share(K, value, 0, n), Share(K, value, n, len - 1), value(n + len - 1));
    }
  }

  /** Whatever the output held before, the batches leave the sum over every input, each counted once. */
  lemma {:induction false} BatchesSum<F(!new)>(K: Field<F>, value: nat -> F, batches: seq<Batch>, n: nat, grouping: nat,
                                               before: F)
    requires K.Lawful() && Tiles(batches, n, grouping) && |batches| > 0
    ensures Accumulated(K, value, batches, before) == Share(K, value, 0, n)
  {
    var k := |batches| - 1;
    var b := batches[k];
    if k > 0 {
      BatchesSum(K, value, batches[..k], b.start, grouping, before);
      SharesJoin(K, value, b.start, b.len);
    }
  }

  function Inputs(start: nat, len: nat): (s: seq<nat>)
    ensures |s| == len && forall i :: 0 <= i < len ==> s[i] == start + i
  {
    seq(len, i requires 0 <= i < len => start + i)
  }

  /** The newest batch in area a. */
  ghost function Latest(batches: seq<Batch>, a: nat): Option<Batch>
    requires a < AREAS
  {
    var n := |batches|;
    if n > 0 && (n - 1) % AREAS == a then Some(batches[n - 1])
    else if n > 1 then Some(batches[n - 2]) else None
  }

  class ControllerLifecycle {
    const inputGrouping: nat
    const minBatch: nat
    var area: nat
    var staged: nat
    var nextInput: nat
    var active: seq<bool>
    var processingAdd: bool
    var ended: bool
    var batchesStarted: nat
    /** Every batch submitted. */
    ghost var batches: seq<Batch>
    /** The input each slot of each area holds. */
    ghost var slots: seq<seq<nat>>

    ghost predicate Valid()
      reads this
    {
      && inputGrouping > 0 && minBatch > 0 && |active| == |slots| == AREAS && area < AREAS
      && staged < inputGrouping && staged <= nextInput && (ended ==> staged == 0)
      && batchesStarted == |batches| && area == |batches| % AREAS && processingAdd == (|batches| > 0)
      && Tiles(batches, nextInput - staged, inputGrouping)
      && (staged > 0 ==> !active[area] && slots[area] == Inputs(nextInput - staged, staged))
      && forall a :: 0 <= a < AREAS && active[a] ==> Intact(a)
    }

    /** The area still holds exactly the inputs of the batch being worked on. */
    ghost predicate Intact(a: nat)
      requires a < AREAS && |slots| == AREAS
      reads this
    {
      var latest := Latest(batches, a);
      latest.Some? && latest.value.area == a && slots[a] == Inputs(latest.value.start, latest.value.len)
    }

    constructor (grouping: nat, min: nat)
      requires grouping > 0 && min > 0
      ensures Valid() && batches == [] && nextInput == 0 && !ended && inputGrouping == grouping && minBatch == min
    {
      inputGrouping, minBatch := grouping, min;
      area, staged, nextInput, active := 0, 0, 0, [false, false];
      processingAdd, ended, batchesStarted := false, false, 0;
      batches, slots := [], [[], []];
    }

    function CanAdd(): Status
      requires |active| == AREAS && area < AREAS
      reads this
    {
      if active[area] then Full
      else if active[(area + AREAS - 1) % AREAS] then ReadyBusy
      else Ready
    }

    function ActiveCount(): nat
      requires |active| == AREAS
      reads this
    {
      (if active[0] then 1 else 0) + (if active[1] then 1 else 0)
    }

    /** submit_current_batch. */
    method Submit(reason: Reason) returns (batch: Batch)
      requires inputGrouping > 0 && minBatch > 0 && |active| == |slots| == AREAS && area < AREAS && !ended
      requires 0 < staged <= inputGrouping && staged <= nextInput
      requires batchesStarted == |batches| && area == |batches| % AREAS && processingAdd == (|batches| > 0)
      requires Tiles(batches, nextInput - staged, inputGrouping)
      requires !active[area] && slots[area] == Inputs(nextInput - staged, staged)
      requires forall a :: 0 <= a < AREAS && active[a] ==> Intact(a)
      modifies this
      ensures Valid() && !ended && staged == 0 && nextInput == old(nextInput) && slots == old(slots)
      ensures batches == old(batches) + [batch]
      ensures batch == Batch(old(area), nextInput - old(staged), old(staged), old(processingAdd), reason)
      ensures active == old(active[area := true])
    {
      batch := Batch(area, nextInput - staged, staged, processingAdd, reason);
      processingAdd := true;
      active := active[area := true];
      batchesStarted := batchesStarted + 1;
      staged := 0;
      ghost var before := batches;
      batches := batches + [batch];
      assert batches[..|before|] == before;
      area := (area + 1) % AREAS;
    }

    /** The next input goes to the current area's next slot. */
    method Stage()
      requires Valid() && !ended && !active[area]
      modifies this`slots, this`staged, this`nextInput
      ensures |slots| == AREAS && (staged < inputGrouping ==> Valid())
      ensures forall a :: 0 <= a < AREAS && active[a] ==> Intact(a)
      ensures staged == old(staged) + 1 && nextInput == old(nextInput) + 1
      ensures slots == old(slots)[area := Inputs(nextInput - staged, staged)]
      ensures |slots[area]| == staged && slots[area][staged - 1] == old(nextInput)
    {
      slots := slots[area := (if staged == 0 then [] else slots[area]) + [nextInput]];
      staged := staged + 1;
      nextInput := nextInput + 1;
      assert slots[area] == Inputs(nextInput - staged, staged);
    }

    /** Why accepting one more input submits a batch, if it does. */
    function SubmitReason(flush: bool, count: nat): Option<Reason>
      requires |active| == AREAS
      reads this
    {
      if flush then Some(ExplicitFlush)
      else if count == inputGrouping then Some(GroupFull)
      else if ActiveCount() == 0 && count >= minBatch then Some(IdleThreshold)
      else None
    }

    /** add_input: refused, changing nothing, exactly when the current area is being worked on. */
    method AddInput(flush: bool) returns (res: AddResult)
      requires Valid() && !ended
      modifies this
      ensures Valid() && !ended
      ensures res == Refused <==> old(active[area])
      ensures res == Refused ==>
                && staged == old(staged) && nextInput == old(nextInput) && active == old(active)
                && batches == old(batches) && slots == old(slots)
      ensures res.Accepted? ==>
                && res.area == old(area) && res.slot == old(staged) && nextInput == old(nextInput) + 1
                && |slots[res.area]| == res.slot + 1 && slots[res.area][res.slot] == old(nextInput)
                && slots[1 - res.area] == old(slots[1 - area])
                && (res.submitted.Some? <==> flush || old(staged + 1 == inputGrouping) ||
                                             old(staged + 1 >= minBatch && !active[0] && !active[1]))
      ensures res.Accepted? && res.submitted == None ==>
              batches == old(batches) && active == old(active) && staged == old(staged) + 1
      ensures res.Accepted? && res.submitted.Some? ==>
                && batches == old(batches) + [res.submitted.value] && staged == 0
                && res.submitted.value == Batch(old(area), nextInput - old(staged) - 1, old(staged) + 1,
                                                old(processingAdd),
                                                if flush then ExplicitFlush
                                                else if old(staged + 1 == inputGrouping) then GroupFull
                                                else IdleThreshold)
    {
      if CanAdd() == Full {
        return Refused;
      }
      var reason := SubmitReason(flush, staged + 1);
      var here, slot := area, staged;
      Stage();
      var submitted: Option<Batch> := None;
      if reason.Some? {
        var batch := Submit(reason.value);
        submitted := Some(batch);
      }
      return Accepted(here, slot, submitted);
    }

    /** end_input: a partial batch is flushed, so every input is in a batch. */
    method EndInput() returns (submitted: Option<Batch>)
      requires Valid() && !ended
      modifies this
      ensures Valid() && ended && nextInput == old(nextInput) && Tiles(batches, nextInput, inputGrouping)
      ensures submitted == None <==> old(staged) == 0
      ensures batches == old(batches) + if submitted.Some? then [submitted.value] else []
      ensures submitted.Some? ==>
              submitted.value == Batch(old(area), nextInput - old(staged), old(staged), old(processingAdd),
                                       Reason.EndInput)
    {
      submitted := None;
      if staged != 0 {
        var batch := Submit(Reason.EndInput);
        submitted := Some(batch);
      }
      ended := true;
    }

    /** complete_batch: frees the area, so an add refused for it is accepted next. */
    method CompleteBatch(a: nat)
      requires Valid() && a < AREAS && active[a]
      modifies this`active
      ensures Valid() && active == old(active[a := false])
      ensures a == area ==> CanAdd() != Full
    {
      active := active[a := false];
    }
  }
}
