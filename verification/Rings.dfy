/** When carrying out a placement plan puts every file right, however the IDs are
    listed: exactly when files whose names are taken trade them in rings of two or
    three. */
module Rings {
  import opened Options
  import opened Placement
  import opened Plans

  /** The known file at f's own name. */
  ghost function Next<I, N>(scan: Scan<I, N>, f: I): (g: I)
    requires scan.Valid() && f in scan.current && scan.Taken(f)
    ensures g in scan.current && g != f && scan.current[g] == scan.correct[f] && scan.current[f] != scan.correct[f]
  {
    scan.holder[scan.correct[f]]
  }

  /** Following the holders of names from f comes back to f in two or three steps. */
  ghost predicate ShortRing<I, N>(scan: Scan<I, N>, f: I)
    requires scan.Valid() && f in scan.current && scan.Taken(f)
  {
    var g := Next(scan, f);
    scan.Taken(g) &&
    var h := Next(scan, g);
    h == f || (scan.Taken(h) && Next(scan, h) == f)
  }

  ghost predicate InShortRings<I(!new), N>(scan: Scan<I, N>)
    requires scan.Valid()
  {
    forall f {:trigger ShortRing(scan, f)} :: f in scan.current && scan.Taken(f) ==> ShortRing(scan, f)
  }

  /** The files once the plan for a listing has been carried out without a refusal. */
  ghost function Result<I(!new), N(!new)>(scan: Scan<I, N>, files: map<N, I>, ids: seq<I>): map<N, I>
    requires scan.Valid() && Seen(scan, files)
  {
    var plan := Classified(scan, ids);
    ClassifiedIs(scan, ids);
    SwapsThere(scan, files, plan.swaps);
    RenameAll(SwapAll(files, plan.swaps), plan.renames)
  }

  /** f ended at its own name, or where it was because an unknown file has that name. */
  ghost predicate Right<I, N>(scan: Scan<I, N>, files: map<N, I>, after: map<N, I>, f: I)
    requires scan.Valid() && f in scan.current
  {
    || Lookup(after, scan.correct[f]) == Some(f)
    || (scan.correct[f] in files && scan.correct[f] !in scan.holder && Lookup(after, scan.current[f]) == Some(f))
  }

  ghost predicate AllRight<I(!new), N(!new)>(scan: Scan<I, N>, files: map<N, I>, ids: seq<I>)
    requires scan.Valid() && Seen(scan, files)
  {
    forall f {:trigger Right(scan, files, Result(scan, files, ids), f)} ::
      f in scan.current ==> Right(scan, files, Result(scan, files, ids), f)
  }

  ghost predicate Covers<I(!new), N>(scan: Scan<I, N>, ids: seq<I>) {
    forall f :: f in scan.current ==> f in ids
  }

  /** Every ID found, once each. */
  ghost predicate Listing<I(!new), N>(scan: Scan<I, N>, ids: seq<I>) {
    Covers(scan, ids) && forall i, j :: 0 <= i < j < |ids| ==> ids[i] != ids[j]
  }

  lemma NextInjective<I(!new), N(!new)>(scan: Scan<I, N>, f: I, g: I)
    requires scan.Valid() && OwnNames(scan) && f in scan.current && g in scan.current && scan.Taken(f) && scan.Taken(g)
    requires Next(scan, f) == Next(scan, g)
    ensures f == g
  {
  }

  // Rings of two and three come right.

  /** Where f is while the IDs in `done` have been swapped: the second of a ring of three waits at the first one's
      place until the third is listed. */
  ghost function During<I, N>(scan: Scan<I, N>, done: set<I>, f: I): N
    requires scan.Valid() && f in scan.current
  {
    if f !in done || !scan.Taken(f) then scan.current[f]
    else if Next(scan, f) in done || !scan.Taken(Next(scan, f)) then scan.correct[f]
    else scan.current[Next(scan, Next(scan, f))]
  }

  /** f was swapped with a file of its ring. */
  ghost predicate Paired<I, N>(scan: Scan<I, N>, done: set<I>, f: I)
    requires scan.Valid()
  {
    && f in scan.current && scan.Taken(f)
    && (Next(scan, f) in done ||
        (scan.Taken(Next(scan, f)) && Next(scan, Next(scan, f)) in done && Next(scan, Next(scan, f)) != f))
  }

  ghost predicate Turning<I(!new), N>(scan: Scan<I, N>, files: map<N, I>, done: set<I>)
    requires scan.Valid()
  {
    && (forall f {:trigger During(scan, done, f)} :: f in scan.current ==>
        Lookup(files, During(scan, done, f)) == Some(f))
    && (forall f {:trigger Paired(scan, done, f)} :: f in done ==> Paired(scan, done, f))
  }

  /** A ring is untouched, or all but the file about to be swapped have been. */
  lemma RingSoFar<I(!new), N(!new)>(scan: Scan<I, N>, files: map<N, I>, done: set<I>, f: I)
    requires scan.Valid() && OwnNames(scan) && InShortRings(scan) && Turning(scan, files, done)
    requires f in scan.current && scan.Taken(f) && f !in done
    ensures var g := Next(scan, f);
            && scan.Taken(g)
            && var h := Next(scan, g);
            && scan.Taken(h) && (h == f || Next(scan, h) == f) && (g in done <==> h in done)
            && (h == f ==> g !in done)
  {
    assert ShortRing(scan, f);
    var g := Next(scan, f);
    var h := Next(scan, g);
    if g in done { assert Paired(scan, done, g); }
    if h in done { assert Paired(scan, done, h); }
  }

  /** The files of f's ring: f and the file at its name trade places, and the third, if there is one, stays. */
  lemma RingPlaces<I(!new), N(!new)>(scan: Scan<I, N>, files: map<N, I>, done: set<I>, f: I) returns (who: I)
    requires scan.Valid() && OwnNames(scan) && InShortRings(scan) && Turning(scan, files, done)
    requires f in scan.current && scan.Taken(f) && f !in done
    ensures var g, now := Next(scan, f), done + {f, Next(scan, f)};
            && scan.Taken(g) && (who == g || who == Next(scan, g)) && who != f
            && During(scan, done, f) == scan.current[f] && During(scan, done, who) == scan.current[g]
            && During(scan, now, f) == scan.current[g] && During(scan, now, who) == scan.current[f]
            && (g != who ==> During(scan, now, g) == During(scan, done, g))
            && (Next(scan, g) != who && Next(scan, g) != f ==>
                During(scan, now, Next(scan, g)) == During(scan, done, Next(scan, g)))
  {
    RingSoFar(scan, files, done, f);
    var g := Next(scan, f);
    who := if g in done then Next(scan, g) else g;
  }

  lemma PlacesElsewhere<I(!new), N(!new)>(scan: Scan<I, N>, files: map<N, I>, done: set<I>, f: I, k: I)
    requires scan.Valid() && OwnNames(scan) && InShortRings(scan) && Turning(scan, files, done)
    requires f in scan.current && scan.Taken(f) && f !in done && scan.Taken(Next(scan, f))
    requires k in scan.current && k != f && k != Next(scan, f) && k != Next(scan, Next(scan, f))
    ensures During(scan, done + {f, Next(scan, f)}, k) == During(scan, done, k)
  {
    if scan.Taken(k) {
      NotInRing(scan, files, done, f, k);
    }
  }

  /** Nothing outside f's ring wants a place in it. */
  lemma NotInRing<I(!new), N(!new)>(scan: Scan<I, N>, files: map<N, I>, done: set<I>, f: I, k: I)
    requires scan.Valid() && OwnNames(scan) && InShortRings(scan) && Turning(scan, files, done)
    requires f in scan.current && scan.Taken(f) && f !in done && scan.Taken(Next(scan, f))
    requires k in scan.current && scan.Taken(k) && k != f && k != Next(scan, f) && k != Next(scan, Next(scan, f))
    ensures Next(scan, k) != f && Next(scan, k) != Next(scan, f)
  {
    RingSoFar(scan, files, done, f);
  }

  lemma PairedNow<I(!new), N(!new)>(scan: Scan<I, N>, files: map<N, I>, done: set<I>, f: I, k: I)
    requires scan.Valid() && OwnNames(scan) && InShortRings(scan) && Turning(scan, files, done)
    requires f in scan.current && scan.Taken(f) && f !in done && k in done + {f, Next(scan, f)}
    ensures Paired(scan, done + {f, Next(scan, f)}, k)
  {
    RingSoFar(scan, files, done, f);
    if k in done { assert Paired(scan, done, k); }
  }

  lemma SwapTurns<I(!new), N(!new)>(scan: Scan<I, N>, files: map<N, I>, done: set<I>, f: I)
    requires scan.Valid() && OwnNames(scan) && InShortRings(scan) && Turning(scan, files, done)
    requires f in scan.current && scan.Taken(f) && f !in done
    requires scan.current[f] in files && scan.current[Next(scan, f)] in files
    ensures Turning(scan, Exchanged(files, scan.current[f], scan.current[Next(scan, f)]), done + {f, Next(scan, f)})
  {
    var g, now := Next(scan, f), done + {f, Next(scan, f)};
    var after := Exchanged(files, scan.current[f], scan.current[g]);
    var who := RingPlaces(scan, files, done, f);
    assert Lookup(files, During(scan, done, f)) == Some(f) && Lookup(files, During(scan, done, who)) == Some(who);
    forall k | k in scan.current ensures Lookup(after, During(scan, now, k)) == Some(k) {
      assert Lookup(files, During(scan, done, k)) == Some(k);
      if k != f && k != g && k != Next(scan, g) { PlacesElsewhere(scan, files, done, f, k); }
    }
    forall k | k in now ensures Paired(scan, now, k) { PairedNow(scan, files, done, f, k); }
  }

  lemma {:induction false} SwapAllTurns<I(!new), N(!new)>(scan: Scan<I, N>, files: map<N, I>,
                                                          swaps: seq<(Entry<I, N>, Entry<I, N>)>)
    requires scan.Valid() && OwnNames(scan) && InShortRings(scan) && SwapsFrom(scan, swaps) && Seen(scan, files)
    requires forall i :: 0 <= i < |swaps| ==> swaps[i].0.current in files && swaps[i].1.current in files
    ensures Turning(scan, SwapAll(files, swaps), SwappedIds(swaps))
  {
    if |swaps| > 0 {
      var k := |swaps| - 1;
      SwapAllTurns(scan, files, swaps[..k]);
      SwapTurns(scan, SwapAll(files, swaps[..k]), SwappedIds(swaps[..k]), swaps[k].0.id);
    }
  }

  /** With every ID listed, no ring is left half turned. */
  lemma TurnedFull<I(!new), N(!new)>(scan: Scan<I, N>, files: map<N, I>, plan: Plan<I, N>)
    requires scan.Valid() && InShortRings(scan) && Turning(scan, files, SwappedIds(plan.swaps))
    requires forall f :: f in scan.current ==> Filed(scan, plan, f)
    ensures Stands(scan, files, SwappedIds(plan.swaps))
  {
    var done := SwappedIds(plan.swaps);
    forall f | f in scan.current ensures Lookup(files, Where(scan, done, f)) == Some(f) {
      assert Lookup(files, During(scan, done, f)) == Some(f);
      if f in done {
        assert Paired(scan, done, f) && ShortRing(scan, f);
        assert Filed(scan, plan, Next(scan, f));
      }
    }
  }

  /** However the IDs are listed, a scan all of whose taken names are in rings of two or three is put right. */
  lemma ShortRingsComeRight<I(!new), N(!new)>(scan: Scan<I, N>, files: map<N, I>, ids: seq<I>, f: I)
    requires scan.Valid() && OwnNames(scan) && Seen(scan, files) && InShortRings(scan) && Covers(scan, ids) &&
             f in scan.current
    ensures Right(scan, files, Result(scan, files, ids), f)
  {
    var plan := Classified(scan, ids);
    ClassifiedIs(scan, ids);
    SwapsThere(scan, files, plan.swaps);
    SwapAllTurns(scan, files, plan.swaps);
    var mid, done := SwapAll(files, plan.swaps), SwappedIds(plan.swaps);
    TurnedFull(scan, mid, plan);
    forall i | 0 <= i < |plan.renames| ensures plan.renames[i].id !in done {
      assert RenameFor(scan, plan.renames[i]);
      assert plan.renames[i].id in done ==> Paired(scan, done, plan.renames[i].id);
    }
    RenameAllStands(scan, mid, plan.renames, done);
    var all := done + Freed(mid.Keys, plan.renames);
    assert Lookup(RenameAll(mid, plan.renames), Where(scan, all, f)) == Some(f);
    assert Filed(scan, plan, f);
    if f !in all && scan.current[f] != scan.correct[f] && scan.correct[f] !in files {
      FreedIs(mid.Keys, plan.renames, scan.EntryOf(f));
    }
  }

  // Chains never come right.

  lemma {:induction false} SwapsFromAt<I(!new), N(!new)>(scan: Scan<I, N>, swaps: seq<(Entry<I, N>, Entry<I, N>)>,
                                                         i: nat)
    requires SwapsFrom(scan, swaps) && i < |swaps|
    ensures SwapsFrom(scan, swaps[..i])
    ensures scan.SwapFor(swaps[i], swaps[i].0.id) && swaps[i].0.id !in SwappedIds(swaps[..i])
    ensures swaps[i].1.id == Next(scan, swaps[i].0.id)
    decreases |swaps|
  {
    var k := |swaps| - 1;
    if i < k {
      SwapsFromAt(scan, swaps[..k], i);
      assert swaps[..k][..i] == swaps[..i];
    }
  }

  lemma {:induction false} SwappedHas<I(!new), N(!new)>(swaps: seq<(Entry<I, N>, Entry<I, N>)>, i: nat)
    requires i < |swaps|
    ensures swaps[i].0.id in SwappedIds(swaps) && swaps[i].1.id in SwappedIds(swaps)
    decreases |swaps|
  {
    var k := |swaps| - 1;
    if i < k { SwappedHas(swaps[..k], i); }
  }

  /** No swap from the k-th on is of file h. */
  ghost predicate Leaves<I, N>(swaps: seq<(Entry<I, N>, Entry<I, N>)>, k: nat, h: I) {
    forall i :: k <= i < |swaps| ==> swaps[i].0.id != h && swaps[i].1.id != h
  }

  /** ... so its place keeps what it held before them. */
  lemma {:induction false} LeftAlone<I(!new), N(!new)>(scan: Scan<I, N>, files: map<N, I>,
                                                       swaps: seq<(Entry<I, N>, Entry<I, N>)>, k: nat, h: I)
    requires scan.Valid() && SwapsFrom(scan, swaps) && k <= |swaps| && h in scan.current && Leaves(swaps, k, h)
    requires forall i :: 0 <= i < |swaps| ==> swaps[i].0.current in files && swaps[i].1.current in files
    ensures Lookup(SwapAll(files, swaps), scan.current[h]) == Lookup(SwapAll(files, swaps[..k]), scan.current[h])
    decreases |swaps|
  {
    if k == |swaps| {
      assert swaps[..k] == swaps;
    } else {
      var l := |swaps| - 1;
      LeftAlone(scan, files, swaps[..l], k, h);
      assert swaps[..l][..k] == swaps[..k];
      assert swaps[l].0.id != h && swaps[l].1.id != h;
    }
  }

  /** The swaps do not reach a name no known file holds. */
  lemma {:induction false} LeftOutside<I(!new), N(!new)>(scan: Scan<I, N>, files: map<N, I>,
                                                         swaps: seq<(Entry<I, N>, Entry<I, N>)>, n: N)
    requires scan.Valid() && SwapsFrom(scan, swaps) && n !in scan.holder
    requires forall i :: 0 <= i < |swaps| ==> swaps[i].0.current in files && swaps[i].1.current in files
    ensures Lookup(SwapAll(files, swaps), n) == Lookup(files, n)
  {
    if |swaps| > 0 { LeftOutside(scan, files, swaps[..|swaps| - 1], n); }
  }

  /** Renames can empty a known file's place but put nothing there. */
  lemma {:induction false} RenamesLeave<I(!new), N(!new)>(scan: Scan<I, N>, files: map<N, I>, renames: seq<Entry<I, N>>,
                                                          h: I)
    requires scan.Valid() && h in scan.current && forall i :: 0 <= i < |renames| ==> RenameFor(scan, renames[i])
    ensures var now := Lookup(RenameAll(files, renames), scan.current[h]);
            now == Lookup(files, scan.current[h]) || (now == None && !scan.Taken(h))
  {
    if |renames| > 0 { RenamesLeave(scan, files, renames[..|renames| - 1], h); }
  }

  /** A file that has lost its place does not get to its own name by its rename. */
  lemma {:induction false} RenamesMiss<I(!new), N(!new)>(scan: Scan<I, N>, files: map<N, I>, renames: seq<Entry<I, N>>,
                                                         v: I)
    requires scan.Valid() && OwnNames(scan) && v in scan.current && scan.correct[v] !in scan.holder
    requires forall i :: 0 <= i < |renames| ==> RenameFor(scan, renames[i])
    requires Lookup(files, scan.current[v]) != Some(v) && Lookup(files, scan.correct[v]) != Some(v)
    ensures var after := RenameAll(files, renames);
            Lookup(after, scan.current[v]) != Some(v) && Lookup(after, scan.correct[v]) != Some(v)
  {
    if |renames| > 0 {
      var k := |renames| - 1;
      RenamesMiss(scan, files, renames[..k], v);
      assert RenameFor(scan, renames[k]);
    }
  }

  /** Only the swap made for u reaches the file at its name. */
  lemma TouchedBy<I(!new), N(!new)>(scan: Scan<I, N>, swaps: seq<(Entry<I, N>, Entry<I, N>)>, u: I, i: nat)
    requires scan.Valid() && OwnNames(scan) && SwapsFrom(scan, swaps) && i < |swaps| && u in scan.current &&
             scan.Taken(u)
    ensures swaps[i].1.id == Next(scan, u) ==> swaps[i].0.id == u
  {
    SwapsFromAt(scan, swaps, i);
    if swaps[i].1.id == Next(scan, u) { NextInjective(scan, swaps[i].0.id, u); }
  }

  lemma {:induction false} SwappedTwice<I(!new), N(!new)>(scan: Scan<I, N>, swaps: seq<(Entry<I, N>, Entry<I, N>)>,
                                                          i: nat, j: nat)
    requires SwapsFrom(scan, swaps) && i < |swaps| && j < |swaps| && swaps[i].0.id == swaps[j].0.id
    ensures i == j
  {
    var a, b := if i < j then i else j, if i < j then j else i;
    if a < b {
      SwapsFromAt(scan, swaps, b);
      SwappedHas(swaps[..b], a);
    }
  }

  /** A file listed for a swap has not been moved by an earlier one. */
  lemma Unmoved<I(!new), N(!new)>(scan: Scan<I, N>, files: map<N, I>, swaps: seq<(Entry<I, N>, Entry<I, N>)>, u: I)
    requires scan.Valid() && Seen(scan, files) && SwapsFrom(scan, swaps) && u in scan.current && u !in SwappedIds(swaps)
    requires forall j :: 0 <= j < |swaps| ==> swaps[j].0.current in files && swaps[j].1.current in files
    ensures Lookup(SwapAll(files, swaps), scan.current[u]) == Some(u)
  {
    forall j | 0 <= j < |swaps| ensures swaps[j].0.id != u && swaps[j].1.id != u {
      SwappedHas(swaps, j);
    }
    assert swaps[..0] == [];
    LeftAlone(scan, files, swaps, 0, u);
  }

  /** Only the swap for u moves the last file of the chain. */
  lemma OnlyOnce<I(!new), N(!new)>(scan: Scan<I, N>, swaps: seq<(Entry<I, N>, Entry<I, N>)>, u: I, i: nat)
    requires scan.Valid() && OwnNames(scan) && SwapsFrom(scan, swaps) && i < |swaps|
    requires u in scan.current && scan.Taken(u) && swaps[i].0.id == u && !scan.Taken(Next(scan, u))
    ensures Leaves(swaps, i + 1, Next(scan, u))
  {
    forall j | i < j < |swaps| ensures swaps[j].0.id != Next(scan, u) && swaps[j].1.id != Next(scan, u) {
      SwapsFromAt(scan, swaps, j);
      TouchedBy(scan, swaps, u, j);
      if swaps[j].0.id == u { SwappedTwice(scan, swaps, i, j); }
    }
  }

  /** When u was swapped for, it ends the swaps at its own name. */
  lemma SwappedOnce<I(!new), N(!new)>(scan: Scan<I, N>, files: map<N, I>, swaps: seq<(Entry<I, N>, Entry<I, N>)>, u: I,
                                      i: nat)
    requires scan.Valid() && OwnNames(scan) && Seen(scan, files) && SwapsFrom(scan, swaps) && i < |swaps|
    requires u in scan.current && scan.Taken(u) && swaps[i].0.id == u && !scan.Taken(Next(scan, u))
    requires forall j :: 0 <= j < |swaps| ==> swaps[j].0.current in files && swaps[j].1.current in files
    ensures Lookup(SwapAll(files, swaps), scan.correct[u]) == Some(u)
  {
    SwapsFromAt(scan, swaps, i);
    Unmoved(scan, files, swaps[..i], u);
    assert swaps[..i + 1][..i] == swaps[..i];
    assert Lookup(SwapAll(files, swaps[..i + 1]), scan.current[Next(scan, u)]) == Some(u);
    OnlyOnce(scan, swaps, u, i);
    LeftAlone(scan, files, swaps, i + 1, Next(scan, u));
  }

  /** Where a taken name is held by a file whose own name no known file holds, one of the two ends wrong, whatever
      the listing. */
  lemma ChainNeverRight<I(!new), N(!new)>(scan: Scan<I, N>, files: map<N, I>, ids: seq<I>, u: I)
    requires scan.Valid() && OwnNames(scan) && Seen(scan, files) && u in scan.current && scan.Taken(u)
    requires !scan.Taken(Next(scan, u))
    ensures var after := Result(scan, files, ids);
            !Right(scan, files, after, u) || !Right(scan, files, after, Next(scan, u))
  {
    var plan, v := Classified(scan, ids), Next(scan, u);
    ClassifiedIs(scan, ids);
    SwapsThere(scan, files, plan.swaps);
    var mid := SwapAll(files, plan.swaps);
    assert Lookup(files, scan.current[v]) == Some(v);
    LeftOutside(scan, files, plan.swaps, scan.correct[v]);
    RenamesLeave(scan, mid, plan.renames, v);
    if i :| 0 <= i < |plan.swaps| && plan.swaps[i].0.id == u {
      SwappedOnce(scan, files, plan.swaps, u, i);
      RenamesMiss(scan, mid, plan.renames, v);
    } else {
      forall j | 0 <= j < |plan.swaps| ensures plan.swaps[j].0.id != v && plan.swaps[j].1.id != v {
        SwapsFromAt(scan, plan.swaps, j);
        TouchedBy(scan, plan.swaps, u, j);
      }
      assert plan.swaps[..0] == [];
      LeftAlone(scan, files, plan.swaps, 0, v);
    }
  }

  // Longer rings go wrong for some listing.

  lemma {:induction false} SwapsGrow<I(!new), N(!new)>(scan: Scan<I, N>, ids: seq<I>, more: seq<I>)
    requires scan.Valid()
    ensures var first, all := Classified(scan, ids).swaps, Classified(scan, ids + more).swaps;
            |first| <= |all| && all[..|first|] == first
  {
    if more == [] {
      assert ids + more == ids;
    } else {
      var k := |more| - 1;
      SwapsGrow(scan, ids, more[..k]);
      assert (ids + more)[..|ids + more| - 1] == ids + more[..k];
    }
  }

  /** Listing a file and then the next but one makes two swaps of four files. */
  lemma FirstTwoSwaps<I(!new), N(!new)>(scan: Scan<I, N>, a: I, c: I)
    requires scan.Valid() && a in scan.current && c in scan.current && scan.Taken(a) && scan.Taken(c)
    requires c != a && c != Next(scan, a)
    ensures Classified(scan, [a, c]).swaps ==
            [(scan.EntryOf(a), scan.EntryOf(Next(scan, a))), (scan.EntryOf(c), scan.EntryOf(Next(scan, c)))]
  {
    assert [a, c][..1] == [a] && [a][..0] == [];
    var s := (scan.EntryOf(a), scan.EntryOf(Next(scan, a)));
    assert Classified(scan, [a]).swaps == [s];
    SwappedMore([], s);
    assert [] + [s] == [s];
    assert c !in SwappedIds([s]);
  }

  /** ... after which the third file's place holds the fourth. */
  lemma FourthMoves<I(!new), N(!new)>(scan: Scan<I, N>, files: map<N, I>, swaps: seq<(Entry<I, N>, Entry<I, N>)>, a: I,
                                      c: I)
    requires scan.Valid() && Seen(scan, files) && a in scan.current && c in scan.current && scan.Taken(a) &&
             scan.Taken(c)
    requires c != a && c != Next(scan, a) && Next(scan, c) != a && Next(scan, c) != Next(scan, a)
    requires swaps == [(scan.EntryOf(a), scan.EntryOf(Next(scan, a))), (scan.EntryOf(c), scan.EntryOf(Next(scan, c)))]
    requires forall i :: 0 <= i < |swaps| ==> swaps[i].0.current in files && swaps[i].1.current in files
    ensures Lookup(SwapAll(files, swaps), scan.current[c]) == Some(Next(scan, c))
  {
    var d := Next(scan, c);
    assert swaps[..1][..0] == [];
    assert Lookup(files, scan.current[d]) == Some(d);
    assert Lookup(SwapAll(files, swaps[..1]), scan.current[d]) == Some(d);
  }

  /** A swap once made is not made again, nor is one for its second file. */
  lemma LeavesAfter<I(!new), N(!new)>(scan: Scan<I, N>, swaps: seq<(Entry<I, N>, Entry<I, N>)>, b: I)
    requires scan.Valid() && OwnNames(scan) && SwapsFrom(scan, swaps) && |swaps| >= 2 && b in scan.current &&
             scan.Taken(b)
    requires swaps[0].1.id == b && swaps[1].0.id == Next(scan, b)
    ensures Leaves(swaps, 2, Next(scan, b))
  {
    forall j | 2 <= j < |swaps| ensures swaps[j].0.id != Next(scan, b) && swaps[j].1.id != Next(scan, b) {
      SwapsFromAt(scan, swaps, j);
      TouchedBy(scan, swaps, b, j);
      SwappedHas(swaps[..j], 0);
      SwappedHas(swaps[..j], 1);
    }
  }

  /** Swaps that begin so leave the third file's place to the fourth for good. */
  lemma FourthStays<I(!new), N(!new)>(scan: Scan<I, N>, files: map<N, I>, swaps: seq<(Entry<I, N>, Entry<I, N>)>, a: I,
                                      b: I, c: I)
    requires scan.Valid() && OwnNames(scan) && Seen(scan, files) && SwapsFrom(scan, swaps) && |swaps| >= 2
    requires a in scan.current && b in scan.current && c in scan.current && scan.Taken(a) && scan.Taken(b) &&
             scan.Taken(c)
    requires b == Next(scan, a) && c == Next(scan, b) && c != a && Next(scan, c) != a && Next(scan, c) != b
    requires swaps[..2] == [(scan.EntryOf(a), scan.EntryOf(b)), (scan.EntryOf(c), scan.EntryOf(Next(scan, c)))]
    requires forall i :: 0 <= i < |swaps| ==> swaps[i].0.current in files && swaps[i].1.current in files
    ensures Lookup(SwapAll(files, swaps), scan.current[c]) == Some(Next(scan, c))
  {
    assert swaps[0] == swaps[..2][0] && swaps[1] == swaps[..2][1];
    LeavesAfter(scan, swaps, b);
    LeftAlone(scan, files, swaps, 2, c);
    FourthMoves(scan, files, swaps[..2], a, c);
  }

  /** In a ring of four or more, listing a file and then the next but one leaves the file between them wrong. */
  lemma LongRingGoesWrong<I(!new), N(!new)>(scan: Scan<I, N>, files: map<N, I>, a: I, b: I, c: I, rest: seq<I>)
    requires scan.Valid() && OwnNames(scan) && Seen(scan, files)
    requires a in scan.current && b in scan.current && c in scan.current && scan.Taken(a) && scan.Taken(b) &&
             scan.Taken(c)
    requires b == Next(scan, a) && c == Next(scan, b) && c != a && Next(scan, c) != a
    ensures !Right(scan, files, Result(scan, files, [a, c] + rest), b)
  {
    var plan := Classified(scan, [a, c] + rest);
    ClassifiedIs(scan, [a, c] + rest);
    SwapsThere(scan, files, plan.swaps);
    FirstTwoSwaps(scan, a, c);
    SwapsGrow(scan, [a, c], rest);
    FourthStays(scan, files, plan.swaps, a, b, c);
    RenamesLeave(scan, SwapAll(files, plan.swaps), plan.renames, c);
  }

  /** The members of a set in some order. */
  lemma {:induction false} Enumerate<I(!new)>(s: set<I>) returns (ids: seq<I>)
    ensures forall f :: f in s <==> f in ids
    ensures forall i, j :: 0 <= i < j < |ids| ==> ids[i] != ids[j]
  {
    if s == {} {
      return [];
    }
    var f :| f in s;
    var rest := Enumerate(s - {f});
    ids := [f] + rest;
    assert forall i :: 0 < i < |ids| ==> ids[i] in rest;
  }

  lemma ListingFrom<I(!new), N(!new)>(scan: Scan<I, N>, a: I, c: I) returns (rest: seq<I>)
    requires a in scan.current && c in scan.current && a != c
    ensures Listing(scan, [a, c] + rest)
  {
    rest := Enumerate(scan.current.Keys - {a, c});
    var ids := [a, c] + rest;
    assert forall i :: 2 <= i < |ids| ==> ids[i] in rest;
    assert ids[0] == a && ids[1] == c;
    forall f | f in scan.current ensures f in ids {
      if f != a && f != c { assert f in rest; }
    }
  }

  lemma WrongRingListing<I(!new), N(!new)>(scan: Scan<I, N>, files: map<N, I>, a: I, b: I, c: I) returns (ids: seq<I>)
    requires scan.Valid() && OwnNames(scan) && Seen(scan, files)
    requires a in scan.current && b in scan.current && c in scan.current && scan.Taken(a) && scan.Taken(b) &&
             scan.Taken(c)
    requires b == Next(scan, a) && c == Next(scan, b) && c != a && Next(scan, c) != a
    ensures Listing(scan, ids) && !AllRight(scan, files, ids)
  {
    var rest := ListingFrom(scan, a, c);
    LongRingGoesWrong(scan, files, a, b, c, rest);
    ids := [a, c] + rest;
  }

  lemma WrongChainListing<I(!new), N(!new)>(scan: Scan<I, N>, files: map<N, I>, u: I) returns (ids: seq<I>)
    requires scan.Valid() && OwnNames(scan) && Seen(scan, files)
    requires u in scan.current && scan.Taken(u) && !scan.Taken(Next(scan, u))
    ensures Listing(scan, ids) && !AllRight(scan, files, ids)
  {
    ids := Enumerate(scan.current.Keys);
    ChainNeverRight(scan, files, ids, u);
  }

  /** Outside short rings some listing leaves a file wrong. */
  lemma WrongListing<I(!new), N(!new)>(scan: Scan<I, N>, files: map<N, I>) returns (ids: seq<I>)
    requires scan.Valid() && OwnNames(scan) && Seen(scan, files) && !InShortRings(scan)
    ensures Listing(scan, ids) && !AllRight(scan, files, ids)
  {
    if u :| u in scan.current && scan.Taken(u) && !scan.Taken(Next(scan, u)) {
      ids := WrongChainListing(scan, files, u);
    } else {
      var a :| a in scan.current && scan.Taken(a) && !ShortRing(scan, a);
      var b := Next(scan, a);
      ids := WrongRingListing(scan, files, a, b, Next(scan, b));
    }
  }

  /** Carried out without a refusal, the plan puts every file right for every listing of the IDs exactly when each taken
      name is in a ring of two or three. */
  lemma RightForEveryListing<I(!new), N(!new)>(scan: Scan<I, N>, files: map<N, I>)
    requires scan.Valid() && OwnNames(scan) && Seen(scan, files)
    ensures (forall ids: seq<I> :: Listing(scan, ids) ==> AllRight(scan, files, ids)) <==> InShortRings(scan)
  {
    if InShortRings(scan) {
      forall ids: seq<I> | Listing(scan, ids) ensures AllRight(scan, files, ids) {
        forall f | f in scan.current ensures Right(scan, files, Result(scan, files, ids), f) {
          ShortRingsComeRight(scan, files, ids, f);
        }
      }
    } else {
      var ids := WrongListing(scan, files);
    }
  }

  /** Classifying a scan and carrying the plan out: with no rename refused, short rings come right. */
  method ScanAndApply<I(!new,==)>(dir: Directory<I>, ids: seq<I>, scan: Scan<I, string>) returns (moved: Option<nat>)
    requires scan.Valid() && OwnNames(scan) && Seen(scan, dir.files) && Covers(scan, ids)
    requires forall f :: f in scan.current ==> Temp(scan.current[f]) !in dir.files
    modifies dir
    ensures moved.Some? ==> dir.files == Result(scan, old(dir.files), ids)
    ensures moved.Some? && InShortRings(scan) ==> forall f :: f in scan.current ==>
            Right(scan, old(dir.files), dir.files, f)
  {
    var plan := Classify(ids, scan);
    ClassifiedIs(scan, ids);
    SwapsThere(scan, dir.files, plan.swaps);
    forall i | 0 <= i < |plan.swaps| ensures scan.SwapFor(plan.swaps[i], plan.swaps[i].0.id) {
      SwapsFromAt(scan, plan.swaps, i);
    }
    ghost var was := dir.files;
    moved := ApplyPlan(dir, plan, 0);
    if moved.Some? && InShortRings(scan) {
      forall f | f in scan.current ensures Right(scan, was, dir.files, f) {
        ShortRingsComeRight(scan, was, ids, f);
      }
    }
  }
}
