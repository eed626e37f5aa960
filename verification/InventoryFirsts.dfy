/** What an inventory holds, read off its packets alone: of each kind the first packet for
    each ID, exponent or set, within the limits. */
module InventoryFirsts {
  import opened Options
  import opened Bytes
  import opened Names
  import opened Inventory

  ghost function Described(ps: seq<Packet>): set<FileId> { set p | p in ps && p.Description? :: p.id }

  ghost function Summed(ps: seq<Packet>): set<FileId> { set p | p in ps && p.SliceChecksums? :: p.id }

  ghost function Spelled(ps: seq<Packet>): set<FileId> { set p | p in ps && p.UnicodeFilename? :: p.id }

  ghost predicate SliceSeen(ps: seq<Packet>, exponent: nat) {
    exists q :: q in ps && q.RecoverySlice? && q.exponent == exponent
  }

  /** After the packets ps, p is the first of its kind for its ID or exponent and within the limit. */
  ghost predicate Wanted(ps: seq<Packet>, p: Packet) {
    match p
    case Main(_) => forall q :: q in ps ==> !q.Main?
    case Description(id, _) => id !in Described(ps) && |Described(ps)| < 32768
    case SliceChecksums(id, _) => id !in Summed(ps) && |Summed(ps)| < 32768
    case RecoverySlice(exponent, _) => exponent <= 65535 && !SliceSeen(ps, exponent)
    case Creator(_) => forall q :: q in ps ==> !q.Creator?
    case UnicodeFilename(id, _) => id !in Spelled(ps) && |Spelled(ps)| < 32768
    case Unknown => false
  }

  /** The IDs held are those seen, until there are as many as may be. */
  ghost predicate Limited(held: set<FileId>, seen: set<FileId>) {
    held <= seen && (held == seen || |held| == MAX_FILES_PER_SET) && |held| <= MAX_FILES_PER_SET
  }

  lemma Subset(a: set<FileId>, b: set<FileId>)
    requires a <= b
    ensures |a| <= |b| && (|a| == |b| ==> a == b)
  {
    assert b == a + (b - a);
    if |a| == |b| { assert b - a == {}; }
  }

  lemma LimitedStep(held: set<FileId>, seen: set<FileId>, id: FileId)
    requires Limited(held, seen)
    ensures id !in held && |held| < MAX_FILES_PER_SET <==> id !in seen && |seen| < MAX_FILES_PER_SET
    ensures Limited(if id !in held && |held| < MAX_FILES_PER_SET then held + {id} else held, seen + {id})
  {
    Subset(held, seen);
    if id in seen { assert seen + {id} == seen; }
  }

  ghost predicate AllLimited(h: Holdings, ps: seq<Packet>) {
    && Limited(h.files.Keys, Described(ps)) && Limited(h.checksums.Keys, Summed(ps))
    && Limited(h.names.Keys, Spelled(ps))
  }

  lemma KeysWith<V(!new)>(m: map<FileId, V>, id: FileId, v: V)
    ensures m[id := v].Keys == m.Keys + {id} && |m| == |m.Keys|
  {
  }

  lemma DescribedMore(ps: seq<Packet>, p: Packet)
    ensures Described(ps + [p]) == Described(ps) + if p.Description? then {p.id} else {}
  {
    assert forall q :: q in ps + [p] <==> q in ps || q == p;
    if p.Description? { assert p in ps + [p]; }
  }

  lemma SummedMore(ps: seq<Packet>, p: Packet)
    ensures Summed(ps + [p]) == Summed(ps) + if p.SliceChecksums? then {p.id} else {}
  {
    assert forall q :: q in ps + [p] <==> q in ps || q == p;
    if p.SliceChecksums? { assert p in ps + [p]; }
  }

  lemma SpelledMore(ps: seq<Packet>, p: Packet)
    ensures Spelled(ps + [p]) == Spelled(ps) + if p.UnicodeFilename? then {p.id} else {}
  {
    assert forall q :: q in ps + [p] <==> q in ps || q == p;
    if p.UnicodeFilename? { assert p in ps + [p]; }
  }

  lemma FilesPlaced(h: Holdings, id: FileId, name: Name)
    ensures Placed(h, Description(id, name)).0.files ==
            if id !in h.files && |h.files| < MAX_FILES_PER_SET then h.files[id := name] else h.files
  {
  }

  lemma ChecksumsPlaced(h: Holdings, id: FileId, sums: seq<seq<Byte>>)
    ensures Placed(h, SliceChecksums(id, sums)).0.checksums ==
            if id !in h.checksums && |h.checksums| < MAX_FILES_PER_SET then h.checksums[id := sums] else h.checksums
  {
  }

  lemma OthersUntouched(h: Holdings, p: Packet)
    ensures !p.Description? ==> Placed(h, p).0.files == h.files
    ensures !p.SliceChecksums? ==> Placed(h, p).0.checksums == h.checksums
  {
  }

  lemma FilesMore(h: Holdings, ps: seq<Packet>, p: Packet)
    requires Limited(h.files.Keys, Described(ps))
    ensures Limited(Placed(h, p).0.files.Keys, Described(ps + [p]))
  {
    DescribedMore(ps, p);
    if p.Description? {
      FilesPlaced(h, p.id, p.name);
      KeysWith(h.files, p.id, p.name);
      LimitedStep(h.files.Keys, Described(ps), p.id);
    } else {
      OthersUntouched(h, p);
    }
  }

  lemma ChecksumsMore(h: Holdings, ps: seq<Packet>, p: Packet)
    requires Limited(h.checksums.Keys, Summed(ps))
    ensures Limited(Placed(h, p).0.checksums.Keys, Summed(ps + [p]))
  {
    SummedMore(ps, p);
    if p.SliceChecksums? {
      ChecksumsPlaced(h, p.id, p.checksums);
      KeysWith(h.checksums, p.id, p.checksums);
      LimitedStep(h.checksums.Keys, Summed(ps), p.id);
    } else {
      OthersUntouched(h, p);
    }
  }

  lemma NamesMore(h: Holdings, ps: seq<Packet>, p: Packet)
    requires Limited(h.names.Keys, Spelled(ps))
    ensures Limited(Placed(h, p).0.names.Keys, Spelled(ps + [p]))
  {
    SpelledMore(ps, p);
    if p.UnicodeFilename? {
      NamesPlaced(h, p.id, p.spelling);
      KeysWith(h.names, p.id, None);
      KeysWith(h.names, p.id, Some(p.spelling));
      LimitedStep(h.names.Keys, Spelled(ps), p.id);
    } else {
      NamesUntouched(h, p);
    }
  }

  /** Main, creator and slices: held exactly when one was seen. */
  ghost predicate OthersSeen(h: Holdings, ps: seq<Packet>) {
    && (h.main.Some? <==> exists q :: q in ps && q.Main?)
    && (h.creator.Some? <==> exists q :: q in ps && q.Creator?)
    && (forall e :: e in h.slices <==> e <= 65535 && SliceSeen(ps, e))
  }

  lemma OthersMore(h: Holdings, ps: seq<Packet>, p: Packet)
    requires OthersSeen(h, ps)
    ensures OthersSeen(Placed(h, p).0, ps + [p])
  {
    var g, qs := Placed(h, p).0, ps + [p];
    assert forall q :: q in qs <==> q in ps || q == p;
    assert p in qs;
    forall e ensures e in g.slices <==> e <= 65535 && SliceSeen(qs, e) {
      assert SliceSeen(qs, e) <==> SliceSeen(ps, e) || (p.RecoverySlice? && p.exponent == e);
    }
  }

  lemma {:induction false} FoldSeen(ps: seq<Packet>)
    ensures AllLimited(Fold(EMPTY, ps), ps) && OthersSeen(Fold(EMPTY, ps), ps)
  {
    if |ps| == 0 {
      assert Described(ps) == {} && Summed(ps) == {} && Spelled(ps) == {};
    } else {
      var rest, p := ps[..|ps| - 1], ps[|ps| - 1];
      FoldSeen(rest);
      assert ps == rest + [p];
      FilesMore(Fold(EMPTY, rest), rest, p);
      ChecksumsMore(Fold(EMPTY, rest), rest, p);
      NamesMore(Fold(EMPTY, rest), rest, p);
      OthersMore(Fold(EMPTY, rest), rest, p);
    }
  }

  /** A packet is retained exactly when it is the first of its kind. */
  lemma RetainedFirst(ps: seq<Packet>, p: Packet)
    ensures Placed(Fold(EMPTY, ps), p).1 == Admitted(Retained) <==> Wanted(ps, p)
    ensures WouldRetain(Fold(EMPTY, ps), p) <==> Wanted(ps, p)
  {
    var h := Fold(EMPTY, ps);
    FoldSeen(ps);
    assert |h.files| == |h.files.Keys| && |h.checksums| == |h.checksums.Keys| && |h.names| == |h.names.Keys|;
    RetainedAsForetold(h, p);
    match p
    case Description(id, _) => LimitedStep(h.files.Keys, Described(ps), id);
    case SliceChecksums(id, _) => LimitedStep(h.checksums.Keys, Summed(ps), id);
    case UnicodeFilename(id, _) => LimitedStep(h.names.Keys, Spelled(ps), id);
    case Main(_) =>
    case RecoverySlice(_, _) =>
    case Creator(_) =>
    case Unknown =>
  }

  ghost predicate TookAt(ps: seq<Packet>, i: nat) { i < |ps| && Wanted(ps[..i], ps[i]) }

  /** One of the packets was retained for the key. */
  ghost predicate Took(ps: seq<Packet>, k: Key) { exists i: nat :: TookAt(ps, i) && KeyOf(ps[i]) == k }

  /** Packet p is among ps, and was retained where it stood. */
  ghost predicate TookThis(ps: seq<Packet>, p: Packet) { exists i: nat :: TookAt(ps, i) && ps[i] == p }

  lemma TookAtMore(ps: seq<Packet>, p: Packet, i: nat)
    ensures TookAt(ps + [p], i) <==> if i == |ps| then Wanted(ps, p) else TookAt(ps, i)
  {
    if i <= |ps| { assert (ps + [p])[..i] == ps[..i] && ps[..|ps|] == ps; }
  }

  lemma TookMore(ps: seq<Packet>, p: Packet, k: Key)
    ensures Took(ps + [p], k) <==> Took(ps, k) || (KeyOf(p) == k && Wanted(ps, p))
  {
    var all := ps + [p];
    if Took(all, k) {
      var i: nat :| TookAt(all, i) && KeyOf(all[i]) == k;
      TookAtMore(ps, p, i);
    }
    if Took(ps, k) {
      var i: nat :| TookAt(ps, i) && KeyOf(ps[i]) == k;
      TookAtMore(ps, p, i);
      assert TookAt(all, i) && KeyOf(all[i]) == k;
    } else if KeyOf(p) == k && Wanted(ps, p) {
      TookAtMore(ps, p, |ps|);
      assert TookAt(all, |ps|) && KeyOf(all[|ps|]) == k;
    }
  }

  lemma TookThisMore(ps: seq<Packet>, p: Packet, q: Packet)
    ensures TookThis(ps + [p], q) <==> TookThis(ps, q) || (p == q && Wanted(ps, p))
  {
    var all := ps + [p];
    if TookThis(all, q) {
      var i: nat :| TookAt(all, i) && all[i] == q;
      TookAtMore(ps, p, i);
    }
    if TookThis(ps, q) {
      var i: nat :| TookAt(ps, i) && ps[i] == q;
      TookAtMore(ps, p, i);
      assert TookAt(all, i) && all[i] == q;
    } else if p == q && Wanted(ps, p) {
      TookAtMore(ps, p, |ps|);
      assert TookAt(all, |ps|) && all[|ps|] == q;
    }
  }

  /** The inventory holds exactly the first packets: a key when one was retained for it, and that packet's contents. */
  lemma {:induction false} HeldAreFirsts(ps: seq<Packet>, q: Packet)
    ensures KeyHeld(Fold(EMPTY, ps), KeyOf(q)) <==> Took(ps, KeyOf(q))
    ensures !q.UnicodeFilename? ==> (Holds(Fold(EMPTY, ps), q) <==> TookThis(ps, q))
  {
    if |ps| > 0 {
      var rest, p := ps[..|ps| - 1], ps[|ps| - 1];
      HeldAreFirsts(rest, q);
      assert ps == rest + [p];
      RetainedFirst(rest, p);
      TookMore(rest, p, KeyOf(q));
      TookThisMore(rest, p, q);
      OneMore(Fold(EMPTY, rest), p, q);
    }
  }

  lemma OneMore(h: Holdings, p: Packet, q: Packet)
    ensures KeyHeld(Placed(h, p).0, KeyOf(q)) <==>
              KeyHeld(h, KeyOf(q)) || (KeyOf(p) == KeyOf(q) && WouldRetain(h, p))
    ensures !q.UnicodeFilename? ==>
              (Holds(Placed(h, p).0, q) <==> Holds(h, q) || (p == q && WouldRetain(h, p)))
  {
    RetainedAsForetold(h, p);
    if KeyOf(p) == KeyOf(q) {
      SameKeyHeld(h, p, q);
    } else {
      OthersHeld(h, p, q);
    }
  }

  lemma VerdictOf(h: Holdings, p: Packet)
    requires forall e :: e in h.slices ==> e <= 65535
    ensures Placed(h, p).1 == Admitted(Duplicate) <==>
              && KeyHeld(h, KeyOf(p)) && (p.Main? ==> Holds(h, p))
              && (p.UnicodeFilename? ==> h.names[p.id] == None || h.names[p.id] == Some(p.spelling))
    ensures Placed(h, p).1 == Conflict <==> p.Main? && KeyHeld(h, MainKey) && !Holds(h, p)
  {
  }

  lemma SpellingRepeats(h: Holdings, ps: seq<Packet>, id: FileId, spelling: string)
    requires h == Fold(EMPTY, ps)
    ensures id in h.names ==>
              (h.names[id] == None || h.names[id] == Some(spelling) <==> Says(ps, id, spelling) || Disagree(ps, id))
  {
    NamesTell(ps, id);
  }

  /** A packet is called a duplicate exactly when one was retained for its key: for a Main the same one, for a spelling
      if it repeats one given or the file's spellings already disagree. */
  lemma DuplicateWhen(ps: seq<Packet>, p: Packet)
    ensures Placed(Fold(EMPTY, ps), p).1 == Admitted(Duplicate) <==>
              && Took(ps, KeyOf(p)) && (p.Main? ==> TookThis(ps, p))
              && (p.UnicodeFilename? ==> Says(ps, p.id, p.spelling) || Disagree(ps, p.id))
    ensures Placed(Fold(EMPTY, ps), p).1 == Conflict <==> p.Main? && Took(ps, MainKey) && !TookThis(ps, p)
  {
    HeldAreFirsts(ps, p);
    FoldSeen(ps);
    VerdictOf(Fold(EMPTY, ps), p);
    if p.UnicodeFilename? { SpellingRepeats(Fold(EMPTY, ps), ps, p.id, p.spelling); }
  }
}
