/** File names do not depend on the order packets arrive in or on how they are
    split between the first scan and later merges. */
module NamesOrder {
  import opened Options
  import opened Names

  datatype Packet = Spell(id: FileId, name: string) | Describe(id: FileId, own: Name)

  /** A packet, of the first scan or of a merge, or the end of either, where the names are applied. */
  datatype Event = Arrival(packet: Packet, scanned: bool) | Settle

  datatype Book = Book(spellings: Spellings, files: map<FileId, Name>)

  /** The names applied to every file. */
  ghost function Applied(b: Book, translate: string -> Option<string>): Book {
    var s := b.spellings;
    Book(s.(originals := map id | id in s.originals.Keys + b.files.Keys && Outcome(s, b.files, id, translate).1.Some?
                               :: Outcome(s, b.files, id, translate).1.value),
         map id | id in b.files :: Outcome(s, b.files, id, translate).0.value)
  }

  /** Only the first scan bounds the number of descriptions. */
  ghost function Received(b: Book, p: Packet, scanned: bool): Book {
    match p
    case Spell(id, name) => b.(spellings := Added(b.spellings, id, name).0)
    case Describe(id, own) =>
      if id in b.files || (scanned && |b.files| >= MAX_FILES_PER_SET) then b else b.(files := b.files[id := own])
  }

  const NOTHING := Book(Spellings(map[], map[]), map[])

  /** The book `b` after a run of events. */
  ghost function Onward(b: Book, events: seq<Event>, translate: string -> Option<string>): Book {
    if |events| == 0 then b
    else
      var c, e := Onward(b, events[..|events| - 1], translate), events[|events| - 1];
      if e.Arrival? then Received(c, e.packet, e.scanned) else Applied(c, translate)
  }

  ghost function After(events: seq<Event>, translate: string -> Option<string>): Book {
    Onward(NOTHING, events, translate)
  }

  // What the packets say, whatever their order.

  ghost function Packets(events: seq<Event>): set<Packet> {
    set e | e in events && e.Arrival? :: e.packet
  }

  ghost function SpelledIn(P: set<Packet>, id: FileId): set<string> {
    set p | p in P && p.Spell? && p.id == id :: p.name
  }

  ghost function SpelledIds(P: set<Packet>): set<FileId> { set p | p in P && p.Spell? :: p.id }

  ghost function DescribedIds(P: set<Packet>): set<FileId> { set p | p in P && p.Describe? :: p.id }

  /** Within the set limit, and one description for each file ID. */
  ghost predicate Ordinary(P: set<Packet>) {
    && |SpelledIds(P)| <= MAX_FILES_PER_SET && |DescribedIds(P)| <= MAX_FILES_PER_SET
    && forall id: FileId {:trigger OneOwn(P, id)} :: OneOwn(P, id)
  }

  ghost predicate OneOwn(P: set<Packet>, id: FileId) {
    forall d: Name, e: Name :: Describe(id, d) in P && Describe(id, e) in P ==> d == e
  }

  ghost function OwnName(P: set<Packet>, id: FileId): Option<Name> {
    if d: Name :| Describe(id, d) in P then Some(d) else None
  }

  /** The agreed spelling: none, one, or a disagreement. */
  ghost function Consensus(S: set<string>): Option<Option<string>> {
    if S == {} then None
    else if n: string :| S == {n} then Some(Some(n))
    else Some(None)
  }

  lemma ConsensusOf(S: set<string>, n: string)
    ensures Consensus({}) == None
    ensures Consensus({n}) == Some(Some(n))
    ensures n in S && S != {n} ==> Consensus(S) == Some(None)
  {
    assert forall m: string :: {n} == {m} ==> n in {m};
  }

  /** The one translatable spelling its packets agree on, and otherwise the description's own. */
  ghost function FinalName(P: set<Packet>, id: FileId, translate: string -> Option<string>): Option<Name> {
    var own, agreed := OwnName(P, id), Consensus(SpelledIn(P, id));
    if own == None then None
    else if agreed.Some? && agreed.value.Some? && agreed.value.value != own.value.par2 &&
      translate(agreed.value.value).Some?
    then Some(Name(agreed.value.value, translate(agreed.value.value).value))
    else own
  }

  // The invariant of a run.

  /** The file's current name is its own, or a spelling some packet gave with its own kept aside. */
  ghost predicate FileInv(P: set<Packet>, b: Book, id: FileId, translate: string -> Option<string>) {
    var own, file, kept := OwnName(P, id), Lookup(b.files, id), Lookup(b.spellings.originals, id);
    || (file == own && kept == None)
    || (own.Some? && kept == own && file.Some? && file.value.par2 != own.value.par2 &&
        file.value.par2 in SpelledIn(P, id)
        && translate(file.value.par2) == Some(file.value.path))
  }

  ghost predicate NameInv(P: set<Packet>, b: Book, id: FileId) {
    Lookup(b.spellings.names, id) == Consensus(SpelledIn(P, id))
  }

  ghost predicate Inv(P: set<Packet>, b: Book, translate: string -> Option<string>) {
    && (forall id: FileId {:trigger NameInv(P, b, id)} :: NameInv(P, b, id))
    && (forall id: FileId {:trigger FileInv(P, b, id, translate)} :: FileInv(P, b, id, translate))
    && b.spellings.names.Keys == SpelledIds(P) && b.files.Keys == DescribedIds(P)
  }

  lemma OwnIs(P: set<Packet>, id: FileId, d: Name)
    requires OneOwn(P, id) && Describe(id, d) in P
    ensures OwnName(P, id) == Some(d)
  {
    var e: Name :| Describe(id, e) in P && OwnName(P, id) == Some(e);
  }

  lemma OwnSame(P: set<Packet>, Q: set<Packet>, id: FileId)
    requires OneOwn(P, id) && forall d: Name :: Describe(id, d) in P <==> Describe(id, d) in Q
    ensures OwnName(P, id) == OwnName(Q, id)
  {
    if d: Name :| Describe(id, d) in P {
      OwnIs(P, id, d);
      OwnIs(Q, id, d);
    }
  }

  lemma SpelledAlso(P: set<Packet>, id: FileId, name: string, other: FileId)
    ensures SpelledIn(P + {Spell(id, name)}, other) == SpelledIn(P, other) + if other == id then {name} else {}
    ensures SpelledIds(P + {Spell(id, name)}) == SpelledIds(P) + {id}
    ensures DescribedIds(P + {Spell(id, name)}) == DescribedIds(P)
  {
    var Q := P + {Spell(id, name)};
    assert Spell(id, name) in Q;
    forall n | n in SpelledIn(P, other) ensures n in SpelledIn(Q, other) {
      assert Spell(other, n) in P;
      assert Spell(other, n) in Q;
    }
    forall i | i in SpelledIds(P) ensures i in SpelledIds(Q) {
      var p :| p in P && p.Spell? && p.id == i;
      assert p in Q;
    }
    forall i | i in DescribedIds(P) ensures i in DescribedIds(Q) {
      var p :| p in P && p.Describe? && p.id == i;
      assert p in Q;
    }
    if other == id { assert name in SpelledIn(Q, other); }
    assert id in SpelledIds(Q);
  }

  lemma DescribedAlso(P: set<Packet>, id: FileId, own: Name, other: FileId)
    ensures SpelledIn(P + {Describe(id, own)}, other) == SpelledIn(P, other)
    ensures SpelledIds(P + {Describe(id, own)}) == SpelledIds(P)
    ensures DescribedIds(P + {Describe(id, own)}) == DescribedIds(P) + {id}
  {
    var Q := P + {Describe(id, own)};
    assert Describe(id, own) in Q;
    forall n | n in SpelledIn(P, other) ensures n in SpelledIn(Q, other) {
      assert Spell(other, n) in P;
      assert Spell(other, n) in Q;
    }
    forall i | i in SpelledIds(P) ensures i in SpelledIds(Q) {
      var p :| p in P && p.Spell? && p.id == i;
      assert p in Q;
    }
    forall i | i in DescribedIds(P) ensures i in DescribedIds(Q) {
      var p :| p in P && p.Describe? && p.id == i;
      assert p in Q;
    }
    assert id in DescribedIds(Q);
  }

  lemma ConsensusAlso(S: set<string>, n: string)
    ensures Consensus(S + {n}) == if S == {} then Some(Some(n)) else if S == {n} then Some(Some(n)) else Some(None)
  {
    if S == {} || S == {n} {
      assert S + {n} == {n};
      ConsensusOf(S, n);
    } else {
      var m :| m in S && m != n;
      assert m in S + {n} && S + {n} != {n};
      ConsensusOf(S + {n}, n);
    }
  }

  lemma ConsensusKnown(S: set<string>, n: string)
    ensures Consensus(S) == Some(Some(n)) ==> S == {n}
    ensures Consensus(S) == None ==> S == {}
  {
  }

  /** What one more spelling makes of the consensus. */
  function Heard(agreed: Option<Option<string>>, name: string): Option<Option<string>> {
    if agreed == None || agreed == Some(Some(name)) then Some(Some(name)) else Some(None)
  }

  lemma ConsensusHeard(S: set<string>, name: string)
    ensures Consensus(S + {name}) == Heard(Consensus(S), name)
  {
    ConsensusAlso(S, name);
    ConsensusOf(S, name);
    ConsensusKnown(S, name);
  }

  lemma AddedLookup(s: Spellings, id: FileId, name: string, other: FileId)
    requires id in s.names || |s.names| < MAX_FILES_PER_SET
    ensures Lookup(Added(s, id, name).0.names, other) == if other == id then Heard(Lookup(s.names, id), name)
            else Lookup(s.names, other)
  {
  }

  lemma SpellNames(P: set<Packet>, b: Book, id: FileId, name: string, other: FileId, scanned: bool)
    requires NameInv(P, b, other) && (id in b.spellings.names || |b.spellings.names| < MAX_FILES_PER_SET)
    ensures NameInv(P + {Spell(id, name)}, Received(b, Spell(id, name), scanned), other)
  {
    SpelledAlso(P, id, name, other);
    AddedLookup(b.spellings, id, name, other);
    ConsensusHeard(SpelledIn(P, other), name);
  }

  /** More spellings, and the same description, keep a file's invariant. */
  lemma FileInvKept(P: set<Packet>, Q: set<Packet>, b: Book, c: Book, id: FileId, translate: string -> Option<string>)
    requires FileInv(P, b, id, translate) && SpelledIn(P, id) <= SpelledIn(Q, id) && OwnName(P, id) == OwnName(Q, id)
    requires Lookup(c.files, id) == Lookup(b.files, id) && c.spellings.originals == b.spellings.originals
    ensures FileInv(Q, c, id, translate)
  {
  }

  lemma SpellFiles(P: set<Packet>, b: Book, id: FileId, name: string, other: FileId,
                   translate: string -> Option<string>, scanned: bool)
    requires OneOwn(P, other) && FileInv(P, b, other, translate)
    ensures FileInv(P + {Spell(id, name)}, Received(b, Spell(id, name), scanned), other, translate)
  {
    var Q := P + {Spell(id, name)};
    SpelledAlso(P, id, name, other);
    OwnSame(P, Q, other);
    FileInvKept(P, Q, b, Received(b, Spell(id, name), scanned), other, translate);
  }

  lemma SpellStep(P: set<Packet>, b: Book, id: FileId, name: string, translate: string -> Option<string>, scanned: bool)
    requires Ordinary(P) && Ordinary(P + {Spell(id, name)}) && Inv(P, b, translate)
    ensures Inv(P + {Spell(id, name)}, Received(b, Spell(id, name), scanned), translate)
  {
    var Q, c := P + {Spell(id, name)}, Received(b, Spell(id, name), scanned);
    SpelledAlso(P, id, name, id);
    SpellKeys(b, id, name, SpelledIds(P), scanned);
    forall other: FileId ensures NameInv(Q, c, other) {
      assert NameInv(P, b, other);
      SpellNames(P, b, id, name, other, scanned);
    }
    forall other: FileId ensures FileInv(Q, c, other, translate) {
      assert OneOwn(P, other) && FileInv(P, b, other, translate);
      SpellFiles(P, b, id, name, other, translate, scanned);
    }
  }

  lemma SpellKeys(b: Book, id: FileId, name: string, ids: set<FileId>, scanned: bool)
    requires b.spellings.names.Keys == ids && |ids + {id}| <= MAX_FILES_PER_SET
    ensures id in b.spellings.names || |b.spellings.names| < MAX_FILES_PER_SET
    ensures Received(b, Spell(id, name), scanned).spellings.names.Keys == ids + {id}
  {
    if id !in ids { assert |ids + {id}| == |ids| + 1; }
  }

  lemma DescribeFiles(P: set<Packet>, b: Book, id: FileId, own: Name, other: FileId,
                      translate: string -> Option<string>, scanned: bool)
    requires OneOwn(P, other) && OneOwn(P + {Describe(id, own)}, other) && FileInv(P, b, other, translate)
    requires b.files.Keys == DescribedIds(P) && |DescribedIds(P) + {id}| <= MAX_FILES_PER_SET
    ensures FileInv(P + {Describe(id, own)}, Received(b, Describe(id, own), scanned), other, translate)
  {
    var Q := P + {Describe(id, own)};
    DescribeKeys(b, id, own, DescribedIds(P), scanned);
    DescribedAlso(P, id, own, other);
    if other != id {
      OwnSame(P, Q, other);
      FileInvKept(P, Q, b, Received(b, Describe(id, own), scanned), other, translate);
    } else {
      DescribedOnce(P, id, own, Q);
    }
  }

  lemma DescribeStep(P: set<Packet>, b: Book, id: FileId, own: Name, translate: string -> Option<string>, scanned: bool)
    requires Ordinary(P) && Ordinary(P + {Describe(id, own)}) && Inv(P, b, translate)
    ensures Inv(P + {Describe(id, own)}, Received(b, Describe(id, own), scanned), translate)
  {
    var Q, c := P + {Describe(id, own)}, Received(b, Describe(id, own), scanned);
    DescribedAlso(P, id, own, id);
    DescribeKeys(b, id, own, DescribedIds(P), scanned);
    forall other: FileId ensures NameInv(Q, c, other) {
      assert NameInv(P, b, other);
      DescribedAlso(P, id, own, other);
    }
    forall other: FileId ensures FileInv(Q, c, other, translate) {
      assert OneOwn(P, other) && OneOwn(Q, other) && FileInv(P, b, other, translate);
      DescribeFiles(P, b, id, own, other, translate, scanned);
    }
  }

  lemma DescribeKeys(b: Book, id: FileId, own: Name, ids: set<FileId>, scanned: bool)
    requires b.files.Keys == ids && |ids + {id}| <= MAX_FILES_PER_SET
    ensures Received(b, Describe(id, own), scanned).files == if id in ids then b.files else b.files[id := own]
    ensures Received(b, Describe(id, own), scanned).files.Keys == ids + {id}
  {
    if id !in ids { assert |ids + {id}| == |ids| + 1; }
  }

  lemma DescribedOnce(P: set<Packet>, id: FileId, own: Name, Q: set<Packet>)
    requires OneOwn(P, id) && OneOwn(Q, id) && Q == P + {Describe(id, own)}
    ensures OwnName(Q, id) == Some(own)
    ensures OwnName(P, id) == if id in DescribedIds(P) then Some(own) else None
  {
    assert Describe(id, own) in Q;
    OwnIs(Q, id, own);
    if id in DescribedIds(P) {
      var p :| p in P && p.Describe? && p.id == id;
      assert p == Describe(id, p.own) && p in Q;
      OwnIs(P, id, own);
    } else {
      forall d: Name ensures Describe(id, d) !in P {
        assert Describe(id, d) in P ==> Describe(id, d).id in DescribedIds(P);
      }
    }
  }

  /** Applying the names settles every file. */
  lemma ApplyStep(P: set<Packet>, b: Book, translate: string -> Option<string>)
    requires Inv(P, b, translate)
    ensures Inv(P, Applied(b, translate), translate)
    ensures NamesFinal(P, Applied(b, translate), translate)
  {
    var c := Applied(b, translate);
    assert c.files.Keys == b.files.Keys && c.spellings.names == b.spellings.names;
    forall id: FileId ensures NameInv(P, c, id) { assert NameInv(P, b, id); }
    forall id: FileId ensures FileInv(P, c, id, translate) && Lookup(c.files, id) == FinalName(P, id, translate) {
      ApplyAt(P, b, id, translate);
    }
  }

  lemma ApplyAt(P: set<Packet>, b: Book, id: FileId, translate: string -> Option<string>)
    requires NameInv(P, b, id) && FileInv(P, b, id, translate)
    ensures FileInv(P, Applied(b, translate), id, translate)
    ensures Lookup(Applied(b, translate).files, id) == FinalName(P, id, translate)
  {
    var S := SpelledIn(P, id);
    if id in b.spellings.names && b.spellings.names[id].Some? {
      ConsensusKnown(S, b.spellings.names[id].value);
    } else if id !in b.spellings.names {
      ConsensusKnown(S, "");
    }
    assert Lookup(Applied(b, translate).files, id) == Outcome(b.spellings, b.files, id, translate).0;
    assert Lookup(Applied(b, translate).spellings.originals, id) == Outcome(b.spellings, b.files, id, translate).1;
  }

  // Whole runs.

  lemma OrdinarySubset(P: set<Packet>, Q: set<Packet>)
    requires P <= Q && Ordinary(Q)
    ensures Ordinary(P)
  {
    assert SpelledIds(P) <= SpelledIds(Q) && DescribedIds(P) <= DescribedIds(Q);
    Smaller(SpelledIds(P), SpelledIds(Q));
    Smaller(DescribedIds(P), DescribedIds(Q));
    forall id: FileId ensures OneOwn(P, id) { assert OneOwn(Q, id); }
  }

  lemma Smaller(A: set<FileId>, B: set<FileId>)
    requires A <= B
    ensures |A| <= |B|
  {
    assert B == A + (B - A);
  }

  lemma PacketsStep(events: seq<Event>, e: Event)
    ensures Packets(events + [e]) == Packets(events) + if e.Arrival? then {e.packet} else {}
  {
    var all := events + [e];
    forall p | p in Packets(events) ensures p in Packets(all) {
      var x :| x in events && x.Arrival? && x.packet == p;
      assert x in all;
    }
    if e.Arrival? { assert e in all; }
  }

  ghost predicate NamesFinal(P: set<Packet>, b: Book, translate: string -> Option<string>) {
    forall id: FileId :: Lookup(b.files, id) == FinalName(P, id, translate)
  }

  lemma EmptyInv(translate: string -> Option<string>)
    ensures Inv({}, NOTHING, translate)
  {
    var b := NOTHING;
    forall id: FileId ensures NameInv({}, b, id) && FileInv({}, b, id, translate) {
      assert SpelledIn({}, id) == {};
    }
    assert SpelledIds({}) == {} && DescribedIds({}) == {};
  }

  lemma EventStep(P: set<Packet>, Q: set<Packet>, b: Book, c: Book, e: Event, translate: string -> Option<string>)
    requires Ordinary(P) && Ordinary(Q) && Inv(P, b, translate)
    requires Q == P + if e.Arrival? then {e.packet} else {}
    requires c == if e.Arrival? then Received(b, e.packet, e.scanned) else Applied(b, translate)
    ensures Inv(Q, c, translate) && (e.Settle? ==> NamesFinal(Q, c, translate))
  {
    if e.Settle? {
      assert Q == P;
      ApplyStep(P, b, translate);
    } else {
      match e.packet
      case Spell(id, name) => SpellStep(P, b, id, name, translate, e.scanned);
      case Describe(id, own) => DescribeStep(P, b, id, own, translate, e.scanned);
    }
  }

  /** However a run reaches its last scan or merge, every file then has its final name. */
  lemma {:induction false} RunInv(events: seq<Event>, translate: string -> Option<string>)
    requires Ordinary(Packets(events))
    ensures Inv(Packets(events), After(events, translate), translate)
    ensures |events| > 0 && events[|events| - 1].Settle? ==>
            NamesFinal(Packets(events), After(events, translate), translate)
  {
    if |events| == 0 {
      assert Packets(events) == {};
      EmptyInv(translate);
    } else {
      var rest, e := events[..|events| - 1], events[|events| - 1];
      assert rest + [e] == events;
      PacketsStep(rest, e);
      OrdinarySubset(Packets(rest), Packets(events));
      RunInv(rest, translate);
      EventStep(Packets(rest), Packets(events), After(rest, translate), After(events, translate), e, translate);
    }
  }

  lemma SameMaps(f: map<FileId, Name>, g: map<FileId, Name>)
    requires forall id: FileId :: Lookup(f, id) == Lookup(g, id)
    ensures f == g
  {
    assert forall id :: id in f ==> Lookup(f, id) == Lookup(g, id) == Some(f[id]);
    assert forall id :: id in g ==> Lookup(f, id) == Lookup(g, id) == Some(g[id]);
  }

  /** The same packets, in any order and over any number of merges, give every file the same name. */
  lemma OrderIndependent(a: seq<Event>, b: seq<Event>, translate: string -> Option<string>)
    requires Packets(a) == Packets(b) && Ordinary(Packets(a))
    requires |a| > 0 && |b| > 0 && a[|a| - 1].Settle? && b[|b| - 1].Settle?
    ensures After(a, translate).files == After(b, translate).files
  {
    RunInv(a, translate);
    RunInv(b, translate);
    BothFinal(Packets(a), After(a, translate), After(b, translate), translate);
  }

  lemma BothFinal(P: set<Packet>, a: Book, b: Book, translate: string -> Option<string>)
    requires NamesFinal(P, a, translate) && NamesFinal(P, b, translate)
    ensures a.files == b.files
  {
    SameMaps(a.files, b.files);
  }

  // One scan or merge.

  ghost function Arrivals(packets: seq<Packet>, scanned: bool): (events: seq<Event>)
    ensures |events| == |packets|
  {
    seq(|packets|, i requires 0 <= i < |packets| => Arrival(packets[i], scanned))
  }

  lemma OnwardNext(b: Book, events: seq<Event>, i: nat, translate: string -> Option<string>)
    requires i < |events|
    ensures Onward(b, events[..i + 1], translate) ==
            var c, e := Onward(b, events[..i], translate), events[i];
            if e.Arrival? then Received(c, e.packet, e.scanned) else Applied(c, translate)
  {
    assert events[..i + 1][..i] == events[..i];
  }

  /** The names' part of a scan or of merge_packets: take the packets in turn, then apply. */
  method Collect(names: UnicodeNames, files: map<FileId, Name>, packets: seq<Packet>, scanned: bool,
                 translate: string -> Option<string>)
    returns (renamed: map<FileId, Name>)
    modifies names
    ensures Book(names.Value(), renamed) == Onward(Book(old(names.Value()), files),
                                                   Arrivals(packets, scanned) + [Settle], translate)
  {
    ghost var start, events := Book(names.Value(), files), Arrivals(packets, scanned);
    renamed := files;
    for i := 0 to |packets|
      invariant Book(names.Value(), renamed) == Onward(start, events[..i], translate)
    {
      OnwardNext(start, events, i, translate);
      match packets[i]
      case Spell(id, name) =>
        var admission := names.Add(id, name);
      case Describe(id, own) =>
        if id !in renamed && !(scanned && |renamed| >= MAX_FILES_PER_SET) {
          renamed := renamed[id := own];
        }
    }
    assert events[..|packets|] == events && (events + [Settle])[..|packets|] == events;
    OnwardNext(start, events + [Settle], |packets|, translate);
    assert (events + [Settle])[..|packets| + 1] == events + [Settle];
    ghost var b := Book(names.Value(), renamed);
    renamed := names.Apply(renamed, translate);
    AppliedIs(b, Book(names.Value(), renamed), translate);
  }

  lemma AppliedIs(b: Book, c: Book, translate: string -> Option<string>)
    requires c.spellings.names == b.spellings.names
    requires forall id: FileId ::
               (Lookup(c.files, id), Lookup(c.spellings.originals, id)) == Outcome(b.spellings, b.files, id, translate)
    ensures c == Applied(b, translate)
  {
    var a := Applied(b, translate);
    forall id: FileId ensures Lookup(c.files, id) == Lookup(a.files, id) &&
      Lookup(c.spellings.originals, id) == Lookup(a.spellings.originals, id) {
      assert (Lookup(c.files, id), Lookup(c.spellings.originals, id)) == Outcome(b.spellings, b.files, id, translate);
    }
    SameMaps(c.files, a.files);
    SameMaps(c.spellings.originals, a.spellings.originals);
  }
}
