/** Loading an inventory when the recovery set is not yet known: packets wait until
    the first Main packet names it, and the outcome is as if it had been known all along. */
module Loader {
  import opened Options
  import opened Bytes
  import opened Names
  import opened Inventory

  type SetId = seq<Byte>

  /** A packet as scanned, with the recovery set its header names. */
  datatype Scanned = Scanned(packet: Packet, setId: SetId) {
    /** A Main packet carries the set ID of its own header. */
    predicate Parsed() { packet.Main? ==> packet.setId == setId }
  }

  ghost predicate AllParsed(seen: seq<Scanned>) {
    forall i :: 0 <= i < |seen| ==> seen[i].Parsed()
  }

  /** A packet held until the active set is known, and what was charged for it. */
  datatype Staged = Staged(packet: Packet, setId: SetId, bytes: nat)

  /** The set the first Main packet belongs to. */
  function ActiveSet(seen: seq<Scanned>): Option<SetId> {
    if |seen| == 0 then None
    else
      var rest, s := ActiveSet(seen[..|seen| - 1]), seen[|seen| - 1];
      if rest == None && s.packet.Main? then Some(s.setId) else rest
  }

  /** The packets of one set; all of them when there is none to choose. */
  function Chosen(seen: seq<Scanned>, active: Option<SetId>): seq<Packet> {
    if |seen| == 0 then []
    else
      var s := seen[|seen| - 1];
      Chosen(seen[..|seen| - 1], active) + if active == None || active.value == s.setId then [s.packet] else []
  }

  /** What waits is all that was scanned, each packet charged its own cost. */
  ghost predicate Waiting(staged: seq<Staged>, seen: seq<Scanned>, cost: Packet -> nat) {
    && |staged| == |seen|
    && forall i :: 0 <= i < |seen| ==>
       staged[i] == Staged(seen[i].packet, seen[i].setId, cost(seen[i].packet)) && !seen[i].packet.Main?
  }

  function Packets(seen: seq<Scanned>): (ps: seq<Packet>)
    ensures |ps| == |seen| && forall i :: 0 <= i < |seen| ==> ps[i] == seen[i].packet
  {
    seq(|seen|, i requires 0 <= i < |seen| => seen[i].packet)
  }

  /** What waiting costs: the packet and a slot for it. */
  function WaitingBytes(staged: seq<Staged>, slot: nat): nat {
    if |staged| == 0 then 0 else staged[0].bytes + slot + WaitingBytes(staged[1..], slot)
  }

  lemma {:induction false} WaitingMore(staged: seq<Staged>, s: Staged, slot: nat)
    ensures WaitingBytes(staged + [s], slot) == WaitingBytes(staged, slot) + s.bytes + slot
  {
    if staged == [] {
      assert (staged + [s])[1..] == [];
    } else {
      WaitingMore(staged[1..], s, slot);
      assert (staged + [s])[1..] == staged[1..] + [s];
    }
  }

  lemma {:induction false} NoneActive(seen: seq<Scanned>)
    requires forall i :: 0 <= i < |seen| ==> !seen[i].packet.Main?
    ensures ActiveSet(seen) == None
  {
    if |seen| > 0 { NoneActive(seen[..|seen| - 1]); }
  }

  lemma ChosenMore(seen: seq<Scanned>, s: Scanned, active: Option<SetId>)
    ensures Chosen(seen + [s], active) ==
            if active == None || active.value == s.setId then Chosen(seen, active) + [s.packet]
              else Chosen(seen, active)
    ensures ActiveSet(seen + [s]) == if ActiveSet(seen) == None &&
            s.packet.Main? then Some(s.setId) else ActiveSet(seen)
  {
    assert (seen + [s])[..|seen|] == seen;
  }

  /** In the chosen packets a Main packet is always the active set's own. */
  ghost predicate MainIs(h: Holdings, active: Option<SetId>) {
    h.main.Some? ==> h.main == active
  }

  lemma {:induction false} ChosenMain(seen: seq<Scanned>, active: Option<SetId>)
    requires AllParsed(seen) && (active == None ==> ActiveSet(seen) == None)
    ensures MainIs(Fold(EMPTY, Chosen(seen, active)), active)
  {
    if |seen| > 0 {
      var rest, s := seen[..|seen| - 1], seen[|seen| - 1];
      assert seen == rest + [s];
      ChosenMore(rest, s, active);
      ChosenMain(rest, active);
      if active == None || active.value == s.setId {
        FoldMore(EMPTY, Chosen(rest, active), s.packet);
        MainStep(Fold(EMPTY, Chosen(rest, active)), s.packet);
      } else {
        assert Chosen(seen, active) == Chosen(rest, active);
      }
    }
  }

  lemma MainStep(h: Holdings, p: Packet)
    ensures Placed(h, p).0.main == if p.Main? && h.main == None then Some(p.setId) else h.main
  {
  }

  /** Such packets never conflict. */
  lemma NoConflict(h: Holdings, p: Packet, active: Option<SetId>)
    requires MainIs(h, active) && (p.Main? ==> active == Some(p.setId))
    ensures Placed(h, p).1 != Conflict
  {
  }

  /** All that a loader, its builder and its budget hold besides what waits. */
  datatype Snapshot = Snapshot(held: Holdings, originals: map<FileId, Name>, books: Books, loaded: nat)

  /** ... once the packets in `done` have reached the builder, while those in `waiting` are still to come. */
  ghost function After(base: nat, cost: Packet -> nat, slot: nat, done: seq<Packet>, waiting: seq<Staged>): Snapshot {
    var kept := Kept(EMPTY, done);
    Snapshot(Fold(EMPTY, done), map[],
             Books(kept, |kept| + |waiting|, base + Total(cost, kept) + WaitingBytes(waiting, slot)), |done|)
  }

  lemma AfterMore(base: nat, cost: Packet -> nat, slot: nat, done: seq<Packet>, waiting: seq<Staged>, p: Packet)
    ensures var was, now := After(base, cost, slot, done, waiting), After(base, cost, slot, done + [p], waiting);
            && now.held == Placed(was.held, p).0 && now.originals == map[] && now.loaded == was.loaded + 1
            && now.books == if WouldRetain(was.held, p) then was.books.Plus(p, cost(p)) else was.books
  {
    FoldMore(EMPTY, done, p);
    KeptMore(cost, EMPTY, done, p);
  }

  /** A packet of the active set is done, unless there is no room for it. */
  lemma CommitStep(was: Snapshot, now: Snapshot, p: Packet, n: nat, active: Option<SetId>, fits: bool)
    requires MainIs(was.held, active) && (p.Main? ==> active == Some(p.setId))
    requires now.held == Placed(was.held, p).0 && now.books == if WouldRetain(was.held, p) then was.books.Plus(p, n)
             else was.books
    ensures var (g, v, books) := Budgeted(was.held, was.books, p, n, fits);
            && (v == OverBudget <==> WouldRetain(was.held, p) && !fits) &&
               (v != OverBudget ==> g == now.held && books == now.books)
  {
    NoConflict(was.held, p, active);
  }

  class InventoryLoader {
    const builder: Builder
    const budget: PacketScanBudget
    const cost: Packet -> nat
    /** Bytes a waiting packet's own record takes. */
    const slot: nat
    /** Bytes charged to the budget before. */
    ghost const base: nat
    var active: Option<SetId>
    var staged: seq<Staged>
    /** Packets of the active set, and packets of others. */
    var loaded: nat
    var conflicting: nat
    ghost var seen: seq<Scanned>

    /** The packets in `done` have reached the builder, and those in `waiting` are still to come. */
    ghost predicate Accounts(done: seq<Packet>, waiting: seq<Staged>)
      reads this, builder, builder.names, budget
    {
      && budget.Valid()
      && Snapshot(builder.Held(), builder.names.originals, builder.BooksWith(budget), loaded) ==
         After(base, cost, slot, done, waiting)
    }

    ghost predicate Valid()
      reads this, builder, builder.names, budget
    {
      && AllParsed(seen)
      && active == ActiveSet(seen) && loaded + conflicting + |staged| == |seen|
      && (active == None ==> Accounts([], staged) && Waiting(staged, seen, cost))
      && (active.Some? ==> Accounts(Chosen(seen, active), []) && staged == [])
    }

    constructor (budget: PacketScanBudget, cost: Packet -> nat, slot: nat)
      requires budget.Valid() && budget.packets == 0
      ensures Valid() && seen == [] && this.budget == budget && fresh(builder) && fresh(builder.names)
      ensures this.cost == cost && this.slot == slot && base == budget.bytes
    {
      builder := new Builder();
      this.budget, this.cost, this.slot, base := budget, cost, slot, budget.bytes;
      active, staged, loaded, conflicting, seen := None, [], 0, 0, [];
    }

    /** commit: one packet of the active set into the builder, charged if it is retained. */
    method Commit(p: Packet, ghost done: seq<Packet>, ghost waiting: seq<Staged>) returns (ok: bool)
      requires Accounts(done, waiting) && MainIs(builder.Held(), active) && (p.Main? ==> active == Some(p.setId))
      modifies this`loaded, builder, builder.names, budget
      ensures ok <==> (WouldRetain(Fold(EMPTY, done), p) ==> old(budget.Fits(cost(p))))
      ensures ok ==> Accounts(done + [p], waiting)
    {
      loaded := loaded + 1;
      KeptBooked(done);
      AfterMore(base, cost, slot, done, waiting, p);
      CommitStep(After(base, cost, slot, done, waiting), After(base, cost, slot, done + [p], waiting), p, cost(p),
                 active, budget.Fits(cost(p)));
      var v := builder.AddPacketBudgeted(p, cost, budget);
      ok := v != OverBudget;
    }

    /** One packet out of the waiting room: its charge is handed back, and there is always room to charge it again. */
    method FlushOne(s: Staged, ghost n: nat, ghost rest: seq<Staged>)
      requires n < |seen| && Accounts(Chosen(seen[..n], active), [s] + rest) && MainIs(builder.Held(), active)
      requires s == Staged(seen[n].packet, seen[n].setId, cost(seen[n].packet)) && !s.packet.Main?
      modifies this`loaded, this`conflicting, builder, builder.names, budget
      ensures Accounts(Chosen(seen[..n + 1], active), rest) && loaded + conflicting == old(loaded + conflicting) + 1
    {
      assert ([s] + rest)[1..] == rest;
      assert seen[..n + 1] == seen[..n] + [seen[n]];
      ChosenMore(seen[..n], seen[n], active);
      ghost var done := Chosen(seen[..n], active);
      budget.ReleaseBytes(slot);
      budget.ReleaseRetained(s.bytes);
      if active.Some? && active.value != s.setId {
        conflicting := conflicting + 1;
        return;
      }
      var ok := Commit(s.packet, done, rest);
    }

    /** flush_staged: nothing waits any longer, and no packet was refused on the way. */
    method Flush()
      requires Accounts([], staged) && Waiting(staged, seen, cost) && conflicting == 0
      modifies this`staged, this`loaded, this`conflicting, builder, builder.names, budget
      ensures staged == [] && Accounts(Chosen(seen, active), []) && loaded + conflicting == |seen|
    {
      var todo := staged;
      staged := [];
      assert seen[..0] == [] && todo[0..] == todo;
      for i := 0 to |todo|
        invariant staged == [] && loaded + conflicting == i && Accounts(Chosen(seen[..i], active), todo[i..])
      {
        NoneActive(seen[..i]);
        ChosenMain(seen[..i], active);
        assert todo[i..] == [todo[i]] + todo[i + 1..];
        FlushOne(todo[i], i, todo[i + 1..]);
      }
      assert seen[..|todo|] == seen && todo[|todo|..] == [];
    }

    /** There is room for the next packet: to wait, or to be retained if it would be. */
    ghost predicate Room(s: Scanned)
      reads this, budget
    {
      var now := ActiveSet(seen + [s]);
      if now == None then budget.packets < budget.maxPackets && budget.bytes + slot + cost(s.packet) <= budget.maxBytes
      else
        var kept := Kept(EMPTY, Chosen(seen, now));
        now.value == s.setId && WouldRetain(Fold(EMPTY, Chosen(seen, now)), s.packet) ==>
          |kept| < budget.maxPackets && base + Total(cost, kept) + cost(s.packet) <= budget.maxBytes
    }

    /** A packet of the active set goes straight to the builder. */
    method AcceptOurs(s: Scanned) returns (ok: bool)
      requires s.Parsed() && active == Some(s.setId) == ActiveSet(seen + [s]) && staged == [] &&
               loaded + conflicting == |seen|
      requires AllParsed(seen) && Accounts(Chosen(seen, active), [])
      modifies this`seen, this`loaded, builder, builder.names, budget
      ensures ok <==> old(WouldRetain(Fold(EMPTY, Chosen(seen, active)), s.packet) ==> budget.Fits(cost(s.packet)))
      ensures ok ==> Valid() && seen == old(seen) + [s]
    {
      ChosenMore(seen, s, active);
      ChosenMain(seen, active);
      ok := Commit(s.packet, Chosen(seen, active), []);
      seen := seen + [s];
    }

    /** A packet that must wait. The builder is still empty, so it cannot be a known duplicate. */
    method Stage(s: Scanned) returns (ok: bool)
      requires Valid() && active == None && !s.packet.Main?
      modifies this`staged, this`seen, budget
      ensures ok <==>
                old(budget.packets) < budget.maxPackets && old(budget.bytes) + slot + cost(s.packet) <= budget.maxBytes
      ensures ok ==> Valid() && seen == old(seen) + [s]
    {
      ChosenMore(seen, s, None);
      ok := budget.ChargeBytes(slot);
      if !ok {
        return;
      }
      if WouldDuplicate(Holdings(builder.main, builder.files, builder.checksums, builder.slices, builder.creator,
                                 builder.names.names), s.packet) {
        assert false;
      }
      ok := budget.ChargeRetained(cost(s.packet));
      if !ok {
        return;
      }
      WaitingMore(staged, Staged(s.packet, s.setId, cost(s.packet)), slot);
      staged := staged + [Staged(s.packet, s.setId, cost(s.packet))];
      seen := seen + [s];
    }

    /** accept: refused only for want of room. */
    method Accept(s: Scanned) returns (ok: bool)
      requires Valid() && s.Parsed()
      modifies this, builder, builder.names, budget
      ensures ok <==> old(Room(s))
      ensures ok ==> Valid() && seen == old(seen) + [s]
    {
      ChosenMore(seen, s, active);
      if active == None && s.packet.Main? {
        ok := AcceptFirstMain(s);
      } else if active.Some? && active.value != s.setId {
        TurnAway(s);
        ok := true;
      } else if active.Some? {
        ok := AcceptOurs(s);
      } else {
        ok := Stage(s);
      }
    }

    /** A packet of another set is only counted. */
    method TurnAway(s: Scanned)
      requires Valid() && s.Parsed() && active.Some? && active.value != s.setId
      modifies this`conflicting, this`seen
      ensures Valid() && seen == old(seen) + [s]
    {
      ChosenMore(seen, s, active);
      conflicting := conflicting + 1;
      seen := seen + [s];
    }

    /** The first Main packet names the active set, and everything waiting is settled before it. */
    method AcceptFirstMain(s: Scanned) returns (ok: bool)
      requires Valid() && s.Parsed() && active == None && s.packet.Main?
      modifies this, builder, builder.names, budget
      ensures ok <==> old(Room(s))
      ensures ok ==> Valid() && seen == old(seen) + [s]
    {
      ChosenMore(seen, s, Some(s.setId));
      active := Some(s.setId);
      Flush();
      ok := AcceptOurs(s);
    }

    /** finish: the inventory is what the active set's packets make of an empty one, and is charged for exactly those
        retained. Never refused. */
    method Finish()
      requires Valid()
      modifies this, builder, builder.names, budget
      ensures Accounts(Chosen(seen, ActiveSet(seen)), []) && seen == old(seen) && loaded + conflicting == |seen|
    {
      if active == None {
        Flush();
      }
    }
  }

  /** A whole load: as though the active set had been known from the first packet on. */
  method LoadInventory(all: seq<Scanned>, budget: PacketScanBudget, cost: Packet -> nat, slot: nat)
    returns (loader: InventoryLoader, ok: bool)
    requires AllParsed(all) && budget.Valid() && budget.packets == 0
    modifies budget
    ensures loader.budget == budget && fresh(loader) && fresh(loader.builder)
    ensures ok ==>
              var chosen := Chosen(all, ActiveSet(all));
              && loader.builder.Held() == Fold(EMPTY, chosen) && loader.builder.ledger == Kept(EMPTY, chosen)
              && budget.packets == |Kept(EMPTY, chosen)| &&
                 budget.bytes == old(budget.bytes) + Total(cost, Kept(EMPTY, chosen))
              && loader.loaded == |chosen| && loader.conflicting == |all| - |chosen|
  {
    loader := new InventoryLoader(budget, cost, slot);
    for i := 0 to |all|
      invariant loader.Valid() && loader.seen == all[..i] && loader.budget == budget && loader.cost == cost
      invariant fresh(loader) && fresh(loader.builder) && fresh(loader.builder.names) &&
                loader.base == old(budget.bytes)
    {
      ok := loader.Accept(all[i]);
      if !ok {
        return;
      }
      assert all[..i + 1] == all[..i] + [all[i]];
    }
    assert all[..|all|] == all;
    loader.Finish();
    ok := true;
  }
}
