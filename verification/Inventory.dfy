/** Collecting a set's packets under a budget: what is kept, what is charged for
    it, and what refusing a charge leaves behind. */
module Inventory {
  import opened Options
  import opened Bytes
  import opened Names

  const MAX_RECOVERY_EXPONENT: nat := 65535

  datatype Packet =
    | Main(setId: seq<Byte>)
    | Description(id: FileId, name: Name)
    | SliceChecksums(id: FileId, checksums: seq<seq<Byte>>)
    | RecoverySlice(exponent: nat, data: seq<Byte>)
    | Creator(creatorId: string)
    | UnicodeFilename(id: FileId, spelling: string)
    | Unknown

  datatype Holdings = Holdings(main: Option<seq<Byte>>, files: map<FileId, Name>,
                               checksums: map<FileId, seq<seq<Byte>>>,
                               slices: map<nat, seq<Byte>>, creator: Option<string>, names: map<FileId, Option<string>>)

  const EMPTY := Holdings(None, map[], map[], map[], None, map[])

  datatype Verdict = Admitted(admission: Admission) | Conflict | OverBudget

  /** would_duplicate. */
  predicate WouldDuplicate(h: Holdings, p: Packet) {
    match p
    case Main(_) => h.main.Some?
    case Description(id, _) => id in h.files
    case SliceChecksums(id, _) => id in h.checksums
    case RecoverySlice(exponent, _) => exponent in h.slices
    case Creator(_) => h.creator.Some?
    case UnicodeFilename(id, spelling) => id in h.names && (h.names[id].Some? ==> h.names[id].value == spelling)
    case Unknown => false
  }

  /** would_retain. */
  predicate WouldRetain(h: Holdings, p: Packet) {
    match p
    case Main(_) => h.main == None
    case Description(id, _) => id !in h.files && |h.files| < MAX_FILES_PER_SET
    case SliceChecksums(id, _) => id !in h.checksums && |h.checksums| < MAX_FILES_PER_SET
    case RecoverySlice(exponent, _) => exponent <= MAX_RECOVERY_EXPONENT && exponent !in h.slices
    case Creator(_) => h.creator == None
    case UnicodeFilename(id, _) => id !in h.names && |h.names| < MAX_FILES_PER_SET
    case Unknown => false
  }

  /** The contents of p are among the holdings. */
  predicate Holds(h: Holdings, p: Packet) {
    match p
    case Main(setId) => h.main == Some(setId)
    case Description(id, name) => Lookup(h.files, id) == Some(name)
    case SliceChecksums(id, checksums) => Lookup(h.checksums, id) == Some(checksums)
    case RecoverySlice(exponent, data) => Lookup(h.slices, exponent) == Some(data)
    case Creator(creatorId) => h.creator == Some(creatorId)
    case UnicodeFilename(id, spelling) => Lookup(h.names, id) == Some(Some(spelling))
    case Unknown => false
  }

  /** Two packets disagreed about this file's spelling. */
  predicate Contradicted(h: Holdings, p: Packet) {
    p.UnicodeFilename? && Lookup(h.names, p.id) == Some(None)
  }

  datatype Key = MainKey | FileKey(id: FileId) | ChecksumKey(id: FileId) | SliceKey(exponent: nat) | CreatorKey
    | NameKey(id: FileId) | NoKey

  function KeyOf(p: Packet): Key {
    match p
    case Main(_) => MainKey
    case Description(id, _) => FileKey(id)
    case SliceChecksums(id, _) => ChecksumKey(id)
    case RecoverySlice(exponent, _) => SliceKey(exponent)
    case Creator(_) => CreatorKey
    case UnicodeFilename(id, _) => NameKey(id)
    case Unknown => NoKey
  }

  predicate KeyHeld(h: Holdings, k: Key) {
    match k
    case MainKey => h.main.Some?
    case FileKey(id) => id in h.files
    case ChecksumKey(id) => id in h.checksums
    case SliceKey(exponent) => exponent in h.slices
    case CreatorKey => h.creator.Some?
    case NameKey(id) => id in h.names
    case NoKey => false
  }

  /** The ledger lists one packet for each key held: the one held, unless its spelling was contradicted. */
  ghost predicate Booked(h: Holdings, ledger: seq<Packet>) {
    && (forall i :: 0 <= i < |ledger| ==>
        KeyHeld(h, KeyOf(ledger[i])) && (Holds(h, ledger[i]) || Contradicted(h, ledger[i])))
    && (forall i, j :: 0 <= i < j < |ledger| ==> KeyOf(ledger[i]) != KeyOf(ledger[j]))
    && (forall p: Packet :: Holds(h, p) ==> p in ledger)
  }

  /** What add_packet makes of the holdings. */
  function Placed(h: Holdings, p: Packet): (Holdings, Verdict) {
    match p
    case Main(setId) =>
      if h.main.Some? then (h, if h.main == Some(setId) then Admitted(Duplicate) else Conflict)
      else (h.(main := Some(setId)), Admitted(Retained))
    case Description(id, name) =>
      if id in h.files then (h, Admitted(Duplicate))
      else if |h.files| >= MAX_FILES_PER_SET then (h, Admitted(Rejected))
      else (h.(files := h.files[id := name]), Admitted(Retained))
    case SliceChecksums(id, checksums) =>
      if id in h.checksums then (h, Admitted(Duplicate))
      else if |h.checksums| >= MAX_FILES_PER_SET then (h, Admitted(Rejected))
      else (h.(checksums := h.checksums[id := checksums]), Admitted(Retained))
    case RecoverySlice(exponent, data) =>
      if exponent > MAX_RECOVERY_EXPONENT then (h, Admitted(Rejected))
      else if exponent in h.slices then (h, Admitted(Duplicate))
      else (h.(slices := h.slices[exponent := data]), Admitted(Retained))
    case Creator(creatorId) =>
      if h.creator == None then (h.(creator := Some(creatorId)), Admitted(Retained)) else (h, Admitted(Duplicate))
    case UnicodeFilename(id, spelling) =>
      var (s, admission) := Added(Spellings(h.names, map[]), id, spelling);
      (h.(names := s.names), Admitted(admission))
    case Unknown => (h, Admitted(Rejected))
  }

  /** A packet is retained exactly when would_retain says so. */
  lemma RetainedAsForetold(h: Holdings, p: Packet)
    ensures Placed(h, p).1 == Admitted(Retained) <==> WouldRetain(h, p)
    ensures WouldRetain(h, p) ==> !KeyHeld(h, KeyOf(p)) && Holds(Placed(h, p).0, p)
    ensures WouldDuplicate(h, p) ==> !WouldRetain(h, p)
    ensures Placed(h, p).1 == Admitted(Duplicate) ==> WouldDuplicate(h, p)
    ensures Placed(h, p).1 == Conflict <==> p.Main? && h.main.Some? && h.main != Some(p.setId)
    ensures !WouldRetain(h, p) ==>
            Placed(h, p).0 == h || (p.UnicodeFilename? && Placed(h, p).0 == h.(names := h.names[p.id := None]) &&
                                    KeyHeld(h, KeyOf(p)))
  {
  }

  /** Once a packet is bound to be a duplicate it stays so, whatever arrives. */
  lemma DuplicateStays(h: Holdings, p: Packet, q: Packet)
    requires WouldDuplicate(h, p)
    ensures WouldDuplicate(Placed(h, q).0, p)
  {
  }

  /** Whatever is added, the others are held as before, except that a contradicted spelling is dropped. */
  lemma OthersHeld(h: Holdings, p: Packet, q: Packet)
    requires KeyOf(q) != KeyOf(p)
    ensures Holds(Placed(h, p).0, q) == Holds(h, q)
    ensures Contradicted(Placed(h, p).0, q) == Contradicted(h, q)
    ensures KeyHeld(Placed(h, p).0, KeyOf(q)) == KeyHeld(h, KeyOf(q))
  {
    OtherKeys(h, p, KeyOf(q));
    match q
    case Main(_) =>
    case Description(id, _) => assert Lookup(Placed(h, p).0.files, id) == Lookup(h.files, id);
    case SliceChecksums(id, _) => assert Lookup(Placed(h, p).0.checksums, id) == Lookup(h.checksums, id);
    case RecoverySlice(exponent, _) => assert Lookup(Placed(h, p).0.slices, exponent) == Lookup(h.slices, exponent);
    case Creator(_) =>
    case UnicodeFilename(id, _) => assert Lookup(Placed(h, p).0.names, id) == Lookup(h.names, id);
    case Unknown =>
  }

  lemma OtherKeys(h: Holdings, p: Packet, k: Key)
    requires k != KeyOf(p)
    ensures KeyHeld(Placed(h, p).0, k) == KeyHeld(h, k)
  {
  }

  lemma SameKeyHeld(h: Holdings, p: Packet, q: Packet)
    requires KeyOf(q) == KeyOf(p)
    ensures KeyHeld(h, KeyOf(q)) ==> KeyHeld(Placed(h, p).0, KeyOf(q))
    ensures !WouldRetain(h, p) && Holds(Placed(h, p).0, q) ==> Holds(h, q)
    ensures !WouldRetain(h, p) && (Holds(h, q) || Contradicted(h, q)) ==>
            Holds(Placed(h, p).0, q) || Contradicted(Placed(h, p).0, q)
    ensures WouldRetain(h, p) && Holds(Placed(h, p).0, q) ==> q == p
  {
  }

  lemma StillBooked(h: Holdings, ledger: seq<Packet>, p: Packet)
    requires Booked(h, ledger)
    ensures Booked(Placed(h, p).0, if WouldRetain(h, p) then ledger + [p] else ledger)
  {
    RetainedAsForetold(h, p);
    var g := Placed(h, p).0;
    var all := if WouldRetain(h, p) then ledger + [p] else ledger;
    forall i | 0 <= i < |ledger|
      ensures KeyHeld(g, KeyOf(ledger[i])) && (Holds(g, ledger[i]) || Contradicted(g, ledger[i]))
    {
      if KeyOf(ledger[i]) == KeyOf(p) { SameKeyHeld(h, p, ledger[i]); } else { OthersHeld(h, p, ledger[i]); }
    }
    forall q: Packet | Holds(g, q) ensures q in all {
      if KeyOf(q) == KeyOf(p) { SameKeyHeld(h, p, q); } else { OthersHeld(h, p, q); }
    }
  }

  /** The budget for one inventory. */
  class PacketScanBudget {
    const maxPackets: nat
    const maxBytes: nat
    var packets: nat
    var bytes: nat

    ghost predicate Valid()
      reads this
    {
      packets <= maxPackets && bytes <= maxBytes
    }

    /** There is room for one more packet of n bytes. */
    predicate Fits(n: nat)
      reads this
    {
      packets < maxPackets && bytes + n <= maxBytes
    }

    constructor (maxPackets: nat, maxBytes: nat)
      ensures Valid() && packets == 0 && bytes == 0 && this.maxPackets == maxPackets && this.maxBytes == maxBytes
    {
      this.maxPackets, this.maxBytes := maxPackets, maxBytes;
      packets, bytes := 0, 0;
    }

    /** charge_bytes. */
    method ChargeBytes(n: nat) returns (ok: bool)
      requires Valid()
      modifies this`bytes
      ensures Valid() && ok == (old(bytes) + n <= maxBytes) && bytes == old(bytes) + if ok then n else 0
    {
      if bytes + n > maxBytes {
        return false;
      }
      bytes := bytes + n;
      return true;
    }

    /** charge_retained: both meters move, or neither. */
    method ChargeRetained(n: nat) returns (ok: bool)
      requires Valid()
      modifies this
      ensures Valid() && ok == old(Fits(n))
      ensures if ok then packets == old(packets) + 1 && bytes == old(bytes) + n
              else packets == old(packets) && bytes == old(bytes)
    {
      var count := packets + 1;
      if count > maxPackets {
        return false;
      }
      ok := ChargeBytes(n);
      if ok {
        packets := count;
      }
    }

    /** release_bytes: takes back a charge; giving back more than was charged leaves nothing. */
    method ReleaseBytes(n: nat)
      requires Valid()
      modifies this`bytes
      ensures Valid() && bytes <= old(bytes) && (bytes == 0 || bytes + n == old(bytes)) &&
              (n <= old(bytes) ==> bytes + n == old(bytes))
    {
      bytes := if bytes > n then bytes - n else 0;
    }

    /** release_retained: undoes charge_retained on both meters, and no release takes a meter below zero. */
    method ReleaseRetained(n: nat)
      requires Valid()
      modifies this
      ensures Valid() && packets <= old(packets) && bytes <= old(bytes)
      ensures old(packets) > 0 ==> packets + 1 == old(packets)
      ensures n <= old(bytes) ==> bytes + n == old(bytes)
    {
      packets := if packets > 0 then packets - 1 else 0;
      ReleaseBytes(n);
    }
  }

  /** A builder's ledger and a budget's meters. */
  datatype Books = Books(ledger: seq<Packet>, packets: nat, bytes: nat) {
    function Plus(p: Packet, n: nat): Books { Books(ledger + [p], packets + 1, bytes + n) }
  }

  /** What add_packet_budgeted makes of the holdings and the books, when there is or is not room for p's n bytes. */
  function Budgeted(h: Holdings, books: Books, p: Packet, n: nat, fits: bool): (Holdings, Verdict, Books) {
    if WouldRetain(h, p) && !fits then (h, OverBudget, books)
    else (Placed(h, p).0, Placed(h, p).1, if WouldRetain(h, p) then books.Plus(p, n) else books)
  }

  class Builder {
    var main: Option<seq<Byte>>
    var files: map<FileId, Name>
    var checksums: map<FileId, seq<seq<Byte>>>
    var slices: map<nat, seq<Byte>>
    var creator: Option<string>
    const names: UnicodeNames
    /** Packets retained so far. */
    ghost var ledger: seq<Packet>

    ghost function Held(): Holdings
      reads this, names
    {
      Holdings(main, files, checksums, slices, creator, names.names)
    }

    ghost function BooksWith(budget: PacketScanBudget): Books
      reads this, budget
    {
      Books(ledger, budget.packets, budget.bytes)
    }

    ghost predicate Valid()
      reads this, names
    {
      Booked(Held(), ledger) && names.originals == map[]
    }

    constructor ()
      ensures Valid() && Held() == EMPTY && ledger == [] && fresh(names)
    {
      main, files, checksums, slices, creator, ledger := None, map[], map[], map[], None, [];
      names := new UnicodeNames();
    }

    /** add_packet. */
    method Place(p: Packet) returns (v: Verdict)
      requires names.originals == map[]
      modifies this, names
      ensures (Held(), v) == Placed(old(Held()), p) && ledger == old(ledger) && names.originals == map[]
    {
      match p
      case Main(setId) =>
        if main.Some? {
          if main != Some(setId) {
            return Conflict;
          }
          return Admitted(Duplicate);
        }
        main := Some(setId);
        return Admitted(Retained);
      case Description(id, name) =>
        if id in files {
          return Admitted(Duplicate);
        } else if |files| >= MAX_FILES_PER_SET {
          return Admitted(Rejected);
        }
        files := files[id := name];
        return Admitted(Retained);
      case SliceChecksums(id, sums) =>
        if id in checksums {
          return Admitted(Duplicate);
        } else if |checksums| >= MAX_FILES_PER_SET {
          return Admitted(Rejected);
        }
        checksums := checksums[id := sums];
        return Admitted(Retained);
      case RecoverySlice(exponent, data) =>
        if exponent > MAX_RECOVERY_EXPONENT {
          return Admitted(Rejected);
        } else if exponent in slices {
          return Admitted(Duplicate);
        }
        slices := slices[exponent := data];
        return Admitted(Retained);
      case Creator(creatorId) =>
        if creator == None {
          creator := Some(creatorId);
          return Admitted(Retained);
        }
        return Admitted(Duplicate);
      case UnicodeFilename(id, spelling) =>
        var admission := names.Add(id, spelling);
        return Admitted(admission);
      case Unknown =>
        return Admitted(Rejected);
    }

    /** add_packet with its ledger entry. */
    method AddPacket(p: Packet) returns (v: Verdict)
      requires Valid()
      modifies this, names
      ensures Valid() && (Held(), v) == Placed(old(Held()), p)
      ensures ledger == if WouldRetain(old(Held()), p) then old(ledger) + [p] else old(ledger)
    {
      StillBooked(Held(), ledger, p);
      RetainedAsForetold(Held(), p);
      v := Place(p);
      if v == Admitted(Retained) {
        ledger := ledger + [p];
      }
    }

    /** add_packet_budgeted: charged first, for exactly the packets retained; a refused charge changes nothing. */
    method AddPacketBudgeted(p: Packet, cost: Packet -> nat, budget: PacketScanBudget) returns (v: Verdict)
      requires Valid() && budget.Valid()
      modifies this, names, budget
      ensures Valid() && budget.Valid()
      ensures (Held(), v, BooksWith(budget)) == old(Budgeted(Held(), BooksWith(budget), p, cost(p),
                                                             budget.Fits(cost(p))))
    {
      RetainedAsForetold(Held(), p);
      if !WouldRetain(Holdings(main, files, checksums, slices, creator, names.names), p) {
        v := AddPacket(p);
        return;
      }
      var bytes := cost(p);
      var ok := budget.ChargeRetained(bytes);
      if !ok {
        return OverBudget;
      }
      v := AddPacket(p);
      // Handing the charge back is never needed: the packet was bound to be retained.
      if v != Admitted(Retained) {
        assert false;
      }
    }
  }

  // What the charge buys.

  function Total(cost: Packet -> nat, ps: seq<Packet>): nat {
    if |ps| == 0 then 0 else Total(cost, ps[..|ps| - 1]) + cost(ps[|ps| - 1])
  }

  /** What is held after a sequence of packets. */
  ghost function Fold(h: Holdings, ps: seq<Packet>): Holdings {
    if |ps| == 0 then h else Placed(Fold(h, ps[..|ps| - 1]), ps[|ps| - 1]).0
  }

  /** ... and which of them would_retain took. */
  ghost function Kept(h: Holdings, ps: seq<Packet>): seq<Packet> {
    if |ps| == 0 then []
    else Kept(h, ps[..|ps| - 1]) + if WouldRetain(Fold(h, ps[..|ps| - 1]), ps[|ps| - 1]) then [ps[|ps| - 1]] else []
  }

  lemma FoldMore(h: Holdings, ps: seq<Packet>, p: Packet)
    ensures Fold(h, ps + [p]) == Placed(Fold(h, ps), p).0
    ensures Kept(h, ps + [p]) == if WouldRetain(Fold(h, ps), p) then Kept(h, ps) + [p] else Kept(h, ps)
  {
    assert (ps + [p])[..|ps|] == ps;
  }

  lemma KeptMore(cost: Packet -> nat, h: Holdings, ps: seq<Packet>, p: Packet)
    ensures Kept(h, ps + [p]) == if WouldRetain(Fold(h, ps), p) then Kept(h, ps) + [p] else Kept(h, ps)
    ensures Total(cost, Kept(h, ps + [p])) == Total(cost, Kept(h, ps)) + if WouldRetain(Fold(h, ps), p) then cost(p)
            else 0
  {
    FoldMore(h, ps, p);
    assert (Kept(h, ps) + [p])[..|Kept(h, ps)|] == Kept(h, ps);
  }

  /** Packet p is refused for the reason given, and leaves the holdings as they are. */
  ghost predicate RefusedAt(h: Holdings, p: Packet, v: Verdict, fits: bool) {
    if v == OverBudget then WouldRetain(h, p) && !fits else v == Conflict && Placed(h, p) == (h, Conflict)
  }

  /** The ledger and the meters have moved from `was` by exactly the packets of ps retained. */
  ghost predicate Metered(cost: Packet -> nat, h: Holdings, ps: seq<Packet>, was: Books, now: Books) {
    var kept := Kept(h, ps);
    now == Books(was.ledger + kept, was.packets + |kept|, was.bytes + Total(cost, kept))
  }

  lemma MeteredMore(cost: Packet -> nat, h: Holdings, ps: seq<Packet>, p: Packet, was: Books, now: Books)
    requires Metered(cost, h, ps, was, now)
    ensures Metered(cost, h, ps + [p], was, if WouldRetain(Fold(h, ps), p) then now.Plus(p, cost(p)) else now)
  {
    KeptMore(cost, h, ps, p);
    assert was.ledger + Kept(h, ps) + [p] == was.ledger + (Kept(h, ps) + [p]);
  }

  ghost predicate AllAdmitted(h: Holdings, ps: seq<Packet>) {
    forall i :: 0 <= i < |ps| ==> Placed(Fold(h, ps[..i]), ps[i]).1.Admitted?
  }

  lemma AdmittedMore(h: Holdings, ps: seq<Packet>, p: Packet)
    requires AllAdmitted(h, ps) && Placed(Fold(h, ps), p).1.Admitted?
    ensures AllAdmitted(h, ps + [p])
  {
    var qs := ps + [p];
    forall i | 0 <= i < |qs| ensures Placed(Fold(h, qs[..i]), qs[i]).1.Admitted? {
      assert qs[..i] == ps[..i];
      assert ps[..|ps|] == ps;
    }
  }

  /** One packet of a scan: one more of them done, or refused with nothing changed. */
  lemma ScanStep(cost: Packet -> nat, h: Holdings, ps: seq<Packet>, p: Packet, was: Books, now: Books, fits: bool)
    requires Metered(cost, h, ps, was, now) && AllAdmitted(h, ps)
    ensures var (g, v, books) := Budgeted(Fold(h, ps), now, p, cost(p), fits);
            if v.Admitted? then g == Fold(h, ps + [p]) && Metered(cost, h, ps + [p], was, books) &&
              AllAdmitted(h, ps + [p])
            else g == Fold(h, ps) && books == now && RefusedAt(g, p, v, fits)
  {
    FoldMore(h, ps, p);
    MeteredMore(cost, h, ps, p, was, now);
    RetainedAsForetold(Fold(h, ps), p);
    if Placed(Fold(h, ps), p).1.Admitted? { AdmittedMore(h, ps, p); }
  }

  /** A scan's packets one after another, until one is refused: what is held is what the first n make of it, the meters
      have moved by exactly the packets retained among them, and the one refused has changed nothing. */
  method ScanInto(builder: Builder, packets: seq<Packet>, cost: Packet -> nat, budget: PacketScanBudget)
    returns (refused: Option<Verdict>, ghost n: nat)
    requires builder.Valid() && budget.Valid()
    modifies builder, builder.names, budget
    ensures builder.Valid() && budget.Valid() && n <= |packets|
    ensures builder.Held() == Fold(old(builder.Held()), packets[..n])
    ensures Metered(cost, old(builder.Held()), packets[..n], old(builder.BooksWith(budget)), builder.BooksWith(budget))
    ensures AllAdmitted(old(builder.Held()), packets[..n])
    ensures refused == None ==> n == |packets|
    ensures refused.Some? ==> n < |packets| && RefusedAt(builder.Held(), packets[n], refused.value,
                                                         budget.Fits(cost(packets[n])))
  {
    ghost var h, was := builder.Held(), builder.BooksWith(budget);
    n := 0;
    for i := 0 to |packets|
      invariant builder.Valid() && budget.Valid() && n == i
      invariant builder.Held() == Fold(h, packets[..i]) &&
                Metered(cost, h, packets[..i], was, builder.BooksWith(budget))
      invariant AllAdmitted(h, packets[..i])
    {
      ScanStep(cost, h, packets[..i], packets[i], was, builder.BooksWith(budget), budget.Fits(cost(packets[i])));
      assert packets[..i + 1] == packets[..i] + [packets[i]];
      var v := builder.AddPacketBudgeted(packets[i], cost, budget);
      if v == Conflict || v == OverBudget {
        return Some(v), n;
      }
      n := n + 1;
    }
    assert packets[..|packets|] == packets;
    refused := None;
  }

  lemma {:induction false} KeptBooked(ps: seq<Packet>)
    ensures Booked(Fold(EMPTY, ps), Kept(EMPTY, ps))
  {
    if |ps| > 0 {
      KeptBooked(ps[..|ps| - 1]);
      StillBooked(Fold(EMPTY, ps[..|ps| - 1]), Kept(EMPTY, ps[..|ps| - 1]), ps[|ps| - 1]);
    }
  }

  /** The packets of the ledger whose contents are still held. */
  function StillHeld(h: Holdings, ps: seq<Packet>): seq<Packet> {
    if |ps| == 0 then [] else StillHeld(h, ps[..|ps| - 1]) + if Holds(h, ps[|ps| - 1]) then [ps[|ps| - 1]] else []
  }

  ghost predicate AllHeld(h: Holdings, ps: seq<Packet>) {
    |ps| == 0 || (AllHeld(h, ps[..|ps| - 1]) && Holds(h, ps[|ps| - 1]))
  }

  /** Charges cover what is held, and match it exactly when all of it is. */
  lemma {:induction false} ChargeCovers(h: Holdings, ps: seq<Packet>, cost: Packet -> nat)
    requires forall p: Packet :: cost(p) > 0
    ensures Total(cost, StillHeld(h, ps)) <= Total(cost, ps)
    ensures Total(cost, StillHeld(h, ps)) == Total(cost, ps) <==> AllHeld(h, ps)
  {
    if |ps| > 0 {
      var rest, last := ps[..|ps| - 1], ps[|ps| - 1];
      ChargeCovers(h, rest, cost);
      if Holds(h, last) {
        assert StillHeld(h, ps)[..|StillHeld(h, ps)| - 1] == StillHeld(h, rest);
      } else {
        assert StillHeld(h, ps) == StillHeld(h, rest);
      }
    }
  }

  lemma {:induction false} AllHeldEach(h: Holdings, ps: seq<Packet>)
    ensures AllHeld(h, ps) <==> forall p :: p in ps ==> Holds(h, p)
  {
    if |ps| > 0 {
      AllHeldEach(h, ps[..|ps| - 1]);
      assert ps == ps[..|ps| - 1] + [ps[|ps| - 1]];
    }
  }

  lemma EitherWay(h: Holdings, ledger: seq<Packet>, p: Packet)
    requires Booked(h, ledger) && p in ledger
    ensures Holds(h, p) <==> !Contradicted(h, p)
  {
    var i :| 0 <= i < |ledger| && ledger[i] == p;
  }

  /** The file IDs given a spelling, up to the limit on files. */
  ghost function SpelledIds(ps: seq<Packet>): set<FileId> {
    if |ps| == 0 then {} else
    var ids, p := SpelledIds(ps[..|ps| - 1]), ps[|ps| - 1];
    if p.UnicodeFilename? && |ids| < MAX_FILES_PER_SET then ids + {p.id} else ids
  }

  ghost predicate Says(ps: seq<Packet>, id: FileId, spelling: string) {
    UnicodeFilename(id, spelling) in ps
  }

  /** Two packets spell the name of one file differently. */
  ghost predicate Disagree(ps: seq<Packet>, id: FileId) {
    exists s: string, t: string :: Says(ps, id, s) && Says(ps, id, t) && s != t
  }

  /** The entry for a spelling says whether the packets agree. */
  ghost predicate Tells(h: Holdings, ps: seq<Packet>, id: FileId) {
    if id in h.names then
      match h.names[id]
      case None => Disagree(ps, id)
      case Some(s) => Says(ps, id, s) && forall t: string :: Says(ps, id, t) ==> t == s
    else forall t: string :: Says(ps, id, t) ==> |h.names| >= MAX_FILES_PER_SET
  }

  lemma {:induction false} SpelledAre(ps: seq<Packet>)
    ensures Fold(EMPTY, ps).names.Keys == SpelledIds(ps)
  {
    if |ps| > 0 {
      var rest, p := ps[..|ps| - 1], ps[|ps| - 1];
      SpelledAre(rest);
      var h := Fold(EMPTY, rest);
      assert |h.names| == |h.names.Keys|;
      if p.UnicodeFilename? { NamesPlaced(h, p.id, p.spelling); } else { NamesUntouched(h, p); }
    }
  }

  lemma NamesPlaced(h: Holdings, id: FileId, spelling: string)
    ensures Placed(h, UnicodeFilename(id, spelling)).0.names ==
            if id in h.names then (if h.names[id] == Some(spelling) then h.names else h.names[id := None])
            else if |h.names| >= MAX_FILES_PER_SET then h.names
            else h.names[id := Some(spelling)]
  {
  }

  lemma NamesUntouched(h: Holdings, p: Packet)
    requires !p.UnicodeFilename?
    ensures Placed(h, p).0.names == h.names
  {
  }

  lemma {:induction false} NamesTell(ps: seq<Packet>, id: FileId)
    ensures Tells(Fold(EMPTY, ps), ps, id)
  {
    if |ps| > 0 {
      var rest, p := ps[..|ps| - 1], ps[|ps| - 1];
      NamesTell(rest, id);
      assert ps == rest + [p];
      TellsStep(Fold(EMPTY, rest), rest, p, id);
    }
  }

  lemma TellsStep(h: Holdings, ps: seq<Packet>, p: Packet, id: FileId)
    requires Tells(h, ps, id)
    ensures Tells(Placed(h, p).0, ps + [p], id)
  {
    var g, qs := Placed(h, p).0, ps + [p];
    assert forall t: string :: Says(qs, id, t) <==> Says(ps, id, t) || p == UnicodeFilename(id, t);
    if p.UnicodeFilename? {
      NamesPlaced(h, p.id, p.spelling);
      if p.id == id && id in h.names && h.names[id].Some? && h.names[id].value != p.spelling {
        assert Says(qs, id, h.names[id].value) && Says(qs, id, p.spelling);
        assert Disagree(qs, id);
      }
    }
    if Disagree(ps, id) {
      var s: string, t: string :| Says(ps, id, s) && Says(ps, id, t) && s != t;
      assert Says(qs, id, s) && Says(qs, id, t);
    }
  }

  lemma {:induction false} SpellingKept(ps: seq<Packet>, id: FileId) returns (p: Packet)
    requires id in Fold(EMPTY, ps).names
    ensures p in Kept(EMPTY, ps) && p.UnicodeFilename? && p.id == id
  {
    var rest, last := ps[..|ps| - 1], ps[|ps| - 1];
    if id in Fold(EMPTY, rest).names {
      p := SpellingKept(rest, id);
    } else {
      p := last;
      if !last.UnicodeFilename? { NamesUntouched(Fold(EMPTY, rest), last); }
    }
  }

  /** The charge for a scan into an empty inventory matches what the inventory holds exactly when no two of its packets
      spell one file's name differently, among the files within the limit. */
  lemma ChargeExactWhen(ps: seq<Packet>, cost: Packet -> nat)
    requires forall p: Packet :: cost(p) > 0
    ensures var h, kept := Fold(EMPTY, ps), Kept(EMPTY, ps);
            Total(cost, StillHeld(h, kept)) == Total(cost, kept) <==> forall id :: id in SpelledIds(ps) ==>
              !Disagree(ps, id)
  {
    var h, kept := Fold(EMPTY, ps), Kept(EMPTY, ps);
    KeptBooked(ps);
    SpelledAre(ps);
    ChargeCovers(h, kept, cost);
    AllHeldEach(h, kept);
    forall p | p in kept ensures Holds(h, p) <==> !(p.UnicodeFilename? && Disagree(ps, p.id)) {
      EitherWay(h, kept, p);
      if p.UnicodeFilename? { NamesTell(ps, p.id); SpelledInKept(h, kept, p); }
    }
    forall id | id in SpelledIds(ps) ensures exists p :: p in kept && p.UnicodeFilename? && p.id == id {
      var p := SpellingKept(ps, id);
    }
    forall p | p in kept && p.UnicodeFilename? ensures p.id in SpelledIds(ps) {
      SpelledInKept(h, kept, p);
    }
  }

  lemma SpelledInKept(h: Holdings, kept: seq<Packet>, p: Packet)
    requires Booked(h, kept) && p in kept && p.UnicodeFilename?
    ensures p.id in h.names
  {
    var i :| 0 <= i < |kept| && kept[i] == p;
  }

  /** Scanning two spellings of one file into an empty inventory: no name is held, and the first is still charged. */
  method ContradictionStillCharged(id: FileId, cost: Packet -> nat, maxPackets: nat, maxBytes: nat)
    returns (builder: Builder, budget: PacketScanBudget)
    requires maxPackets > 0 && cost(UnicodeFilename(id, "a")) <= maxBytes
    ensures HoldsNothing(builder.Held()) && budget.packets == 1 && budget.bytes == cost(UnicodeFilename(id, "a"))
  {
    builder := new Builder();
    budget := new PacketScanBudget(maxPackets, maxBytes);
    var p, q := UnicodeFilename(id, "a"), UnicodeFilename(id, "b");
    var refused, n := ScanInto(builder, [p, q], cost, budget);
    ContradictionBooks(id, cost, n, builder.Held(), builder.BooksWith(budget), refused, n < 2 &&
                       budget.Fits(cost([p, q][n])));
  }

  lemma ContradictionBooks(id: FileId, cost: Packet -> nat, n: nat, h: Holdings, books: Books, refused: Option<Verdict>,
                           fits: bool)
    requires var all := [UnicodeFilename(id, "a"), UnicodeFilename(id, "b")];
             && n <= 2 && h == Fold(EMPTY, all[..n]) && Metered(cost, EMPTY, all[..n], Books([], 0, 0), books)
             && (refused == None ==> n == 2) && (refused.Some? ==> n < 2 && RefusedAt(h, all[n], refused.value, fits))
    requires n == 0 ==> fits
    ensures HoldsNothing(h) && books.packets == 1 && books.bytes == cost(UnicodeFilename(id, "a"))
  {
    var p, q := UnicodeFilename(id, "a"), UnicodeFilename(id, "b");
    var all := [p, q];
    TwoSpellings(id, cost);
    assert all[..0] == [] && all[..1] == [p] && all[..2] == all;
    NothingHeld(h, id);
  }

  ghost predicate HoldsNothing(h: Holdings) {
    forall p: Packet :: !Holds(h, p)
  }

  lemma NothingHeld(h: Holdings, id: FileId)
    requires h == EMPTY.(names := map[id := None])
    ensures HoldsNothing(h)
  {
  }

  lemma TwoSpellings(id: FileId, cost: Packet -> nat)
    ensures var p, q := UnicodeFilename(id, "a"), UnicodeFilename(id, "b");
            && Fold(EMPTY, []) == EMPTY && Fold(EMPTY, [p]) == EMPTY.(names := map[id := Some("a")])
            && Fold(EMPTY, [p, q]) == EMPTY.(names := map[id := None])
            && Kept(EMPTY, [p, q]) == [p] && Kept(EMPTY, [p]) == [p] && Kept(EMPTY, []) == [] &&
               Total(cost, [p]) == cost(p)
  {
    var p, q := UnicodeFilename(id, "a"), UnicodeFilename(id, "b");
    FoldMore(EMPTY, [], p);
    FoldMore(EMPTY, [p], q);
    assert [] + [p] == [p] && [p] + [q] == [p, q] && [p][..0] == [];
    NamesPlaced(EMPTY, id, "a");
    NamesPlaced(EMPTY.(names := map[id := Some("a")]), id, "b");
  }
}
