/** Placement plans: which files a scan says to swap or rename, and when doing
    so puts every one of them right. */
module Plans {
  import opened Options
  import opened Placement

  datatype Entry<I, N> = Entry(id: I, current: N, correct: N)

  datatype Plan<I, N> = Plan(exact: seq<I>, swaps: seq<(Entry<I, N>, Entry<I, N>)>, renames: seq<Entry<I, N>>)

  /** A scan: the one file each ID was found in, which ID each of those files holds, and every ID's own name. */
  datatype Scan<I(==), N(==)> = Scan(current: map<I, N>, holder: map<N, I>, correct: map<I, N>) {

    ghost predicate Valid() {
      && (forall f :: f in current ==> f in correct && current[f] in holder && holder[current[f]] == f)
      && (forall n :: n in holder ==> holder[n] in current && current[holder[n]] == n)
    }

    /** Another known file sits at f's own name. */
    predicate Taken(f: I)
      requires f in correct
    {
      correct[f] in holder && holder[correct[f]] != f
    }

    function EntryOf(f: I): Entry<I, N>
      requires f in current && f in correct
    {
      Entry(f, current[f], correct[f])
    }

    /** f and the holder of its name, as a swap. */
    ghost predicate SwapFor(s: (Entry<I, N>, Entry<I, N>), f: I) {
      && Valid() && f in current && Taken(f) && current[f] != correct[f]
      && s == (EntryOf(f), EntryOf(holder[correct[f]]))
    }
  }

  /** IDs a list of swaps has dealt with. */
  ghost function SwappedIds<I, N>(swaps: seq<(Entry<I, N>, Entry<I, N>)>): set<I> {
    if |swaps| == 0 then {} else SwappedIds(swaps[..|swaps| - 1]) + {swaps[|swaps| - 1].0.id, swaps[|swaps| - 1].1.id}
  }

  /** Each swap was made for a file no earlier swap had dealt with. */
  ghost predicate SwapsFrom<I, N>(scan: Scan<I, N>, swaps: seq<(Entry<I, N>, Entry<I, N>)>) {
    |swaps| == 0 ||
    var k := |swaps| - 1;
    SwapsFrom(scan, swaps[..k]) && swaps[k].0.id !in SwappedIds(swaps[..k]) && scan.SwapFor(swaps[k], swaps[k].0.id)
  }

  /** A rename is for a displaced file whose own name no known file holds. */
  ghost predicate RenameFor<I, N>(scan: Scan<I, N>, e: Entry<I, N>) {
    && scan.Valid() && e.id in scan.current && e == scan.EntryOf(e.id) && !scan.Taken(e.id) && e.current != e.correct
  }

  /** What the plan says of ID f. */
  ghost predicate Filed<I, N>(scan: Scan<I, N>, plan: Plan<I, N>, f: I)
    requires scan.Valid()
  {
    f in scan.current ==>
      if scan.current[f] == scan.correct[f] then f in plan.exact
      else if scan.Taken(f) then f in SwappedIds(plan.swaps)
      else f in SwappedIds(plan.swaps) || scan.EntryOf(f) in plan.renames
  }

  /** The plan with one more ID classified. */
  ghost function With<I, N>(scan: Scan<I, N>, plan: Plan<I, N>, f: I): Plan<I, N>
    requires scan.Valid()
  {
    if f !in scan.current then plan
    else if scan.current[f] == scan.correct[f] then plan.(exact := plan.exact + [f])
    else if f in SwappedIds(plan.swaps) then plan
    else if scan.Taken(f) then plan.(swaps := plan.swaps +
                                     [(scan.EntryOf(f), scan.EntryOf(scan.holder[scan.correct[f]]))])
    else plan.(renames := plan.renames + [scan.EntryOf(f)])
  }

  ghost function Classified<I, N>(scan: Scan<I, N>, ids: seq<I>): Plan<I, N>
    requires scan.Valid()
  {
    if |ids| == 0 then Plan([], [], []) else With(scan, Classified(scan, ids[..|ids| - 1]), ids[|ids| - 1])
  }

  /** The classification at the end of scan_placement. */
  method Classify<I(==,!new), N(==,!new)>(ids: seq<I>, scan: Scan<I, N>) returns (plan: Plan<I, N>)
    requires scan.Valid()
    ensures plan == Classified(scan, ids)
  {
    plan := Plan([], [], []);
    var seen: set<I> := {};
    for i := 0 to |ids|
      invariant plan == Classified(scan, ids[..i]) && seen == SwappedIds(plan.swaps)
    {
      var f := ids[i];
      assert ids[..i + 1][..i] == ids[..i];
      if f in scan.current {
        if scan.current[f] == scan.correct[f] {
          plan := plan.(exact := plan.exact + [f]);
        } else if f !in seen {
          if scan.Taken(f) {
            var other := scan.holder[scan.correct[f]];
            ghost var before := plan.swaps;
            plan := plan.(swaps := plan.swaps + [(scan.EntryOf(f), scan.EntryOf(other))]);
            assert plan.swaps[..|before|] == before;
            seen := seen + {f, other};
          } else {
            plan := plan.(renames := plan.renames + [scan.EntryOf(f)]);
          }
        }
      }
    }
    assert ids[..|ids|] == ids;
  }

  lemma SwappedMore<I(!new), N(!new)>(swaps: seq<(Entry<I, N>, Entry<I, N>)>, s: (Entry<I, N>, Entry<I, N>))
    ensures SwappedIds(swaps + [s]) == SwappedIds(swaps) + {s.0.id, s.1.id}
  {
    assert (swaps + [s])[..|swaps|] == swaps;
  }

  lemma WithSwaps<I(!new), N(!new)>(scan: Scan<I, N>, plan: Plan<I, N>, f: I)
    requires scan.Valid() && SwapsFrom(scan, plan.swaps)
    ensures SwapsFrom(scan, With(scan, plan, f).swaps)
  {
    var next := With(scan, plan, f).swaps;
    if |next| > |plan.swaps| { assert next[..|plan.swaps|] == plan.swaps; }
  }

  lemma WithFiled<I(!new), N(!new)>(scan: Scan<I, N>, plan: Plan<I, N>, f: I, g: I)
    requires scan.Valid() && (g == f || Filed(scan, plan, g))
    ensures Filed(scan, With(scan, plan, f), g)
  {
    if f in scan.current && scan.Taken(f) {
      SwappedMore(plan.swaps, (scan.EntryOf(f), scan.EntryOf(scan.holder[scan.correct[f]])));
    }
  }

  /** Swaps and renames are each for a displaced file, every ID found is dealt with, and only files in place are called
      exact. */
  lemma {:induction false} ClassifiedIs<I(!new), N(!new)>(scan: Scan<I, N>, ids: seq<I>)
    requires scan.Valid()
    ensures SwapsFrom(scan, Classified(scan, ids).swaps)
    ensures forall e :: e in Classified(scan, ids).renames ==> RenameFor(scan, e)
    ensures forall f :: f in ids ==> Filed(scan, Classified(scan, ids), f)
    ensures forall f :: f in Classified(scan, ids).exact <==>
                        f in ids && f in scan.current && scan.current[f] == scan.correct[f]
  {
    if |ids| > 0 {
      var rest, f := ids[..|ids| - 1], ids[|ids| - 1];
      ClassifiedIs(scan, rest);
      WithSwaps(scan, Classified(scan, rest), f);
      assert ids == rest + [f];
      forall g | g in ids ensures Filed(scan, Classified(scan, ids), g) {
        WithFiled(scan, Classified(scan, rest), f, g);
      }
    }
  }

  // Carrying a plan out.

  /** The files after the swaps, when every rename goes through. */
  function SwapAll<I, N>(files: map<N, I>, swaps: seq<(Entry<I, N>, Entry<I, N>)>): (after: map<N, I>)
    requires forall i :: 0 <= i < |swaps| ==> swaps[i].0.current in files && swaps[i].1.current in files
    ensures after.Keys == files.Keys
  {
    if |swaps| == 0 then files
    else Exchanged(SwapAll(files, swaps[..|swaps| - 1]), swaps[|swaps| - 1].0.current, swaps[|swaps| - 1].1.current)
  }

  /** ... and after the renames, which leave a name already in use alone. */
  function RenameAll<I, N>(files: map<N, I>, renames: seq<Entry<I, N>>): (after: map<N, I>) {
    if |renames| == 0 then files
    else
      var before, e := RenameAll(files, renames[..|renames| - 1]), renames[|renames| - 1];
      if e.correct in before || e.current !in before then before else Moved(before, e.current, e.correct)
  }

  /** The directory the scan saw: each known file in its one place. */
  ghost predicate Seen<I(!new), N(!new)>(scan: Scan<I, N>, files: map<N, I>)
    requires scan.Valid()
  {
    && (forall f :: f in scan.current ==> Lookup(files, scan.current[f]) == Some(f))
    && (forall n :: n in files && files[n] in scan.current ==> scan.current[files[n]] == n)
  }

  /** A swap puts its first file right, and its second exactly when that one's own name is where the first was. */
  lemma SwapRightWhen<I(!new), N(!new)>(scan: Scan<I, N>, files: map<N, I>, f: I)
    requires scan.Valid() && Seen(scan, files) && f in scan.current && scan.Taken(f) &&
             scan.current[f] != scan.correct[f]
    ensures var g := scan.holder[scan.correct[f]];
            && scan.current[f] in files && scan.current[g] in files
            && var after := Exchanged(files, scan.current[f], scan.current[g]);
            && Lookup(after, scan.correct[f]) == Some(f)
            && (Lookup(after, scan.correct[g]) == Some(g) <==> scan.correct[g] == scan.current[f])
  {
    var g := scan.holder[scan.correct[f]];
    assert Lookup(files, scan.current[f]) == Some(f) && Lookup(files, scan.current[g]) == Some(g);
  }

  /** Where f is once the IDs in `done` have been put right. */
  ghost function Where<I, N>(scan: Scan<I, N>, done: set<I>, f: I): N
    requires f in scan.current && f in scan.correct
  {
    if f in done then scan.correct[f] else scan.current[f]
  }

  /** Every known file is where it should be by now. */
  ghost predicate Stands<I(!new), N>(scan: Scan<I, N>, files: map<N, I>, done: set<I>)
    requires scan.Valid()
  {
    forall f :: f in scan.current ==> Lookup(files, Where(scan, done, f)) == Some(f)
  }

  lemma {:induction false} SwapsThere<I(!new), N(!new)>(scan: Scan<I, N>, files: map<N, I>,
                                                        swaps: seq<(Entry<I, N>, Entry<I, N>)>)
    requires scan.Valid() && SwapsFrom(scan, swaps) && Seen(scan, files)
    ensures forall i :: 0 <= i < |swaps| ==> swaps[i].0.current in files && swaps[i].1.current in files
  {
    if |swaps| > 0 {
      var k := |swaps| - 1;
      SwapsThere(scan, files, swaps[..k]);
      forall i | 0 <= i < |swaps| ensures swaps[i].0.current in files && swaps[i].1.current in files {
        if i < k {
          assert swaps[..k][i] == swaps[i];
        } else {
          assert Lookup(files, scan.current[swaps[k].0.id]).Some? && Lookup(files, scan.current[swaps[k].1.id]).Some?;
        }
      }
    }
  }

  /** No two known files have the same own name. */
  ghost predicate OwnNames<I(!new), N>(scan: Scan<I, N>)
    requires scan.Valid()
  {
    forall f, g :: f in scan.current && g in scan.current && scan.correct[f] == scan.correct[g] ==> f == g
  }

  /** IDs renamed to a name no file had. */
  ghost function Freed<I, N>(taken: set<N>, renames: seq<Entry<I, N>>): set<I> {
    if |renames| == 0 then {} else
    var e := renames[|renames| - 1];
    Freed(taken, renames[..|renames| - 1]) + if e.correct in taken then {} else {e.id}
  }

  /** Names are given up and taken only by those IDs. */
  ghost predicate Accounts<I(!new), N(!new)>(scan: Scan<I, N>, before: set<N>, after: set<N>, moved: set<I>)
    requires scan.Valid()
  {
    && (forall n :: n in after && n !in before ==> exists f :: f in moved && f in scan.current && scan.correct[f] == n)
    && (forall n :: n in before && n !in after ==> exists f :: f in moved && f in scan.current && scan.current[f] == n)
  }

  lemma RenameStands<I(!new), N(!new)>(scan: Scan<I, N>, taken: set<N>, files: map<N, I>, e: Entry<I, N>, done: set<I>,
                                       moved: set<I>)
    requires scan.Valid() && OwnNames(scan) && RenameFor(scan, e) && e.id !in done
    requires Stands(scan, files, done + moved) && Accounts(scan, taken, files.Keys, moved)
    ensures var after := if e.correct in files || e.current !in files then files
            else Moved(files, e.current, e.correct);
            var now := moved + if e.correct in taken then {} else {e.id};
            Stands(scan, after, done + now) && Accounts(scan, taken, after.Keys, now)
  {
    var f := e.id;
    assert Lookup(files, Where(scan, done + moved, f)) == Some(f);
    if e.correct in taken {
      assert e.correct in files;
    } else if e.correct in files {
      assert f in moved;
      assert moved + {f} == moved;
    } else {
      var after, now := Moved(files, e.current, e.correct), moved + {f};
      forall h | h in scan.current ensures Lookup(after, Where(scan, done + now, h)) == Some(h) {
        assert Lookup(files, Where(scan, done + moved, h)) == Some(h);
      }
    }
    assert moved + {} == moved;
  }

  lemma {:induction false} RenameAllStands<I(!new), N(!new)>(scan: Scan<I, N>, files: map<N, I>,
                                                             renames: seq<Entry<I, N>>, done: set<I>)
    requires scan.Valid() && OwnNames(scan) && Stands(scan, files, done)
    requires forall i :: 0 <= i < |renames| ==> RenameFor(scan, renames[i]) && renames[i].id !in done
    ensures Stands(scan, RenameAll(files, renames), done + Freed(files.Keys, renames))
    ensures Accounts(scan, files.Keys, RenameAll(files, renames).Keys, Freed(files.Keys, renames))
  {
    if |renames| == 0 {
      assert done + {} == done;
    } else {
      var k := |renames| - 1;
      RenameAllStands(scan, files, renames[..k], done);
      RenameStands(scan, files.Keys, RenameAll(files, renames[..k]), renames[k], done, Freed(files.Keys, renames[..k]));
    }
  }

  lemma {:induction false} FreedIs<I(!new), N(!new)>(taken: set<N>, renames: seq<Entry<I, N>>, e: Entry<I, N>)
    requires e in renames && e.correct !in taken
    ensures e.id in Freed(taken, renames)
  {
    var k := |renames| - 1;
    if renames[k] != e {
      assert renames == renames[..k] + [renames[k]];
      FreedIs(taken, renames[..k], e);
    }
  }

  // The two loops of apply_placement_plan.

  /** Each swap is of two different files that are there, through a name that is not. */
  ghost predicate CanSwap<I>(files: map<string, I>, swaps: seq<(Entry<I, string>, Entry<I, string>)>) {
    forall i :: 0 <= i < |swaps| ==>
      && swaps[i].0.current in files && swaps[i].1.current in files && swaps[i].0.current != swaps[i].1.current
      && Temp(swaps[i].0.current) !in files
  }

  /** Every rename finds its source, or its target in use. */
  ghost predicate Sourced<I>(files: map<string, I>, renames: seq<Entry<I, string>>) {
    |renames| == 0 ||
    var before, e := RenameAll(files, renames[..|renames| - 1]), renames[|renames| - 1];
    Sourced(files, renames[..|renames| - 1]) && (e.correct in before || e.current in before)
  }

  ghost predicate OneRefusal(fails: nat -> bool, k: nat) { forall j: nat :: fails(j) ==> j == k }

  lemma ExchangedRest<K(!new), C(!new)>(was: map<K, C>, a: K, b: K)
    requires a in was && b in was && a != b
    ensures Exchanged(was, a, b) - {a} - {b} == was - {a} - {b}
    ensures (Exchanged(was, a, b) - {a})[b] == was[a] && (was - {a})[b] == was[b]
  {
  }

  lemma ExchangedKeeps<K(!new), C(!new)>(was: map<K, C>, a: K, b: K)
    requires a in was && b in was && a != b
    ensures Contents(Exchanged(was, a, b)) == Contents(was)
  {
    ExchangedRest(was, a, b);
    ContentsWith(was, a);
    ContentsWith(was - {a}, b);
    ContentsWith(Exchanged(was, a, b), a);
    ContentsWith(Exchanged(was, a, b) - {a}, b);
  }

  method DoSwaps<I(!new)>(dir: Directory<I>, swaps: seq<(Entry<I, string>, Entry<I, string>)>, ghost k: nat)
    returns (ok: bool, moved: nat)
    requires CanSwap(dir.files, swaps)
    modifies dir
    ensures ok ==> dir.files == SwapAll(old(dir.files), swaps) && moved == 2 * |swaps|
    ensures !ok ==> exists j: nat :: dir.fails(j)
    ensures OneRefusal(dir.fails, k) ==> Contents(dir.files) == Contents(old(dir.files))
  {
    moved := 0;
    ghost var was := dir.files;
    for i := 0 to |swaps|
      invariant moved == 2 * i && dir.files == SwapAll(was, swaps[..i])
      invariant OneRefusal(dir.fails, k) ==> Contents(dir.files) == Contents(was)
    {
      var a, b := swaps[i].0.current, swaps[i].1.current;
      assert swaps[..i + 1][..i] == swaps[..i];
      ghost var before, c := dir.files, dir.calls;
      ExchangedKeeps(before, a, b);
      ok := Swap(dir, a, b);
      if !ok {
        if OneRefusal(dir.fails, k) { OneRefusalRestores(before, a, b, Temp(a), dir.fails, c, k); }
        return;
      }
      moved := moved + 2;
    }
    ok := true;
    assert swaps[..|swaps|] == swaps;
  }

  /** How many of the renames find their source, and their target free. */
  function RenamesMade<I, N>(files: map<N, I>, renames: seq<Entry<I, N>>): nat {
    if |renames| == 0 then 0
    else
      var before, e := RenameAll(files, renames[..|renames| - 1]), renames[|renames| - 1];
      RenamesMade(files, renames[..|renames| - 1]) + if e.correct in before || e.current !in before then 0 else 1
  }

  method DoRenames<I(!new)>(dir: Directory<I>, renames: seq<Entry<I, string>>) returns (ok: bool, moved: nat)
    modifies dir
    ensures ok ==> dir.files == RenameAll(old(dir.files), renames) && moved == RenamesMade(old(dir.files), renames)
    ensures !ok ==> (exists j: nat :: dir.fails(j)) || !Sourced(old(dir.files), renames)
    ensures Contents(dir.files) == Contents(old(dir.files))
  {
    moved := 0;
    ghost var was := dir.files;
    for i := 0 to |renames|
      invariant dir.files == RenameAll(was, renames[..i]) && moved == RenamesMade(was, renames[..i])
      invariant Contents(dir.files) == Contents(was)
    {
      assert renames[..i + 1][..i] == renames[..i];
      var e := renames[i];
      if e.correct in dir.files {
        continue;
      }
      if e.current in dir.files { MovedKeeps(dir.files, e.current, e.correct); }
      ghost var c := dir.calls;
      ok := dir.Rename(e.current, e.correct);
      if !ok {
        if !dir.fails(c) { SourcedPrefix(was, renames, i + 1); }
        return;
      }
      moved := moved + 1;
    }
    ok := true;
    assert renames[..|renames|] == renames;
  }

  lemma {:induction false} SourcedPrefix<I(!new)>(files: map<string, I>, renames: seq<Entry<I, string>>, i: nat)
    requires i <= |renames|
    ensures Sourced(files, renames) ==> Sourced(files, renames[..i])
    decreases |renames|
  {
    if i == |renames| {
      assert renames[..i] == renames;
    } else {
      assert renames[..|renames| - 1][..i] == renames[..i];
      SourcedPrefix(files, renames[..|renames| - 1], i);
    }
  }

  /** apply_placement_plan: the count of files moved, unless a rename was refused or its source had gone. One refused
      rename loses nothing. */
  method ApplyPlan<I(!new)>(dir: Directory<I>, plan: Plan<I, string>, ghost k: nat) returns (moved: Option<nat>)
    requires CanSwap(dir.files, plan.swaps)
    modifies dir
    ensures moved.Some? ==>
              && dir.files == RenameAll(SwapAll(old(dir.files), plan.swaps), plan.renames)
              && moved.value == 2 * |plan.swaps| + RenamesMade(SwapAll(old(dir.files), plan.swaps), plan.renames)
    ensures moved == None ==>
              (exists j: nat :: dir.fails(j)) || !Sourced(SwapAll(old(dir.files), plan.swaps), plan.renames)
    ensures OneRefusal(dir.fails, k) ==> Contents(dir.files) == Contents(old(dir.files))
  {
    var ok, swapped := DoSwaps(dir, plan.swaps, k);
    if !ok {
      return None;
    }
    var done, renamed := DoRenames(dir, plan.renames);
    return if done then Some(swapped + renamed) else None;
  }

  // What the swap test lets through.

  /** File 1 at x is named y; file 2 at y is named z: two links of a chain, in no cycle. */
  function Chain(): Scan<nat, string> {
    Scan(map[1 := "x", 2 := "y"], map["x" := 1, "y" := 2], map[1 := "y", 2 := "z"])
  }

  lemma ChainValid()
    ensures Chain().Valid() && OwnNames(Chain()) && Chain().Taken(1) && !Chain().Taken(2)
  {
    assert Chain().Taken(1);
  }

  /** With the second link listed first it is renamed, and then swapped as well. */
  lemma ChainPlan()
    requires Chain().Valid()
    ensures Classified(Chain(), [2, 1]) == Plan([], [(Entry(1, "x", "y"), Entry(2, "y", "z"))], [Entry(2, "y", "z")])
  {
    ChainValid();
    assert [2, 1][..1] == [2] && [2][..0] == [];
    assert Classified(Chain(), [2]) == Plan([], [], [Entry(2, "y", "z")]);
  }

  lemma ChainMoves<N(!new)>(x: N, y: N, z: N)
    requires x != y && y != z && x != z
    ensures RenameAll(SwapAll(map[x := 1, y := 2], [(Entry(1, x, y), Entry(2, y, z))]), [Entry(2, y, z)]) ==
            map[x := 2, z := 1]
  {
    var e1, e2, files := Entry(1, x, y), Entry(2, y, z), map[x := 1, y := 2];
    var swaps, renames := [(e1, e2)], [e2];
    assert swaps[..0] == [] && renames[..0] == [];
    assert SwapAll(files, swaps[..0]) == files;
    assert SwapAll(files, swaps) == map[x := 2, y := 1];
    assert RenameAll(map[x := 2, y := 1], renames[..0]) == map[x := 2, y := 1];
  }

  /** Carried out without a single failure, the plan leaves neither file at its own name. */
  lemma ChainGoesWrong()
    requires Chain().Valid()
    ensures var plan := Classified(Chain(), [2, 1]);
            && |plan.swaps| == 1 && plan.swaps[0].0.current == "x" && plan.swaps[0].1.current == "y"
            && RenameAll(SwapAll(map["x" := 1, "y" := 2], plan.swaps), plan.renames) == map["x" := 2, "z" := 1]
  {
    ChainPlan();
    ChainMoves("x", "y", "z");
  }
}
