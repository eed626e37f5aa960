/** Moving misnamed files to their own names: what a swap leaves behind when a
    rename fails, and when a whole plan puts every file right. */
module Placement {
  import opened Options

  // A directory.

  /** Everything stored, with repeats. */
  ghost function Contents<K(!new), C(!new)>(files: map<K, C>): multiset<C> {
    if files == map[] then multiset{} else
    var k :| k in files;
    multiset{files[k]} + Contents(files - {k})
  }

  lemma RemoveOrder<K(!new), C(!new)>(files: map<K, C>, j: K, k: K)
    requires j in files && k in files && j != k
    ensures files - {j} - {k} == files - {k} - {j}
    ensures (files - {j})[k] == files[k] && (files - {k})[j] == files[j]
  {
  }

  lemma {:induction false} ContentsWith<K(!new), C(!new)>(files: map<K, C>, k: K)
    requires k in files
    ensures Contents(files) == multiset{files[k]} + Contents(files - {k})
    decreases |files|
  {
    var c :| c in files && Contents(files) == multiset{files[c]} + Contents(files - {c});
    if c != k {
      RemoveOrder(files, c, k);
      ContentsWith(files - {c}, k);
      ContentsWith(files - {k}, c);
    }
  }

  /** The directory after renaming src to dst; a file already at dst is replaced. */
  function Moved<K, C>(files: map<K, C>, src: K, dst: K): map<K, C>
    requires src in files
  {
    (files - {src})[dst := files[src]]
  }

  lemma MovedRest<K(!new), C(!new)>(files: map<K, C>, src: K, dst: K)
    requires src in files && dst !in files
    ensures Moved(files, src, dst) - {dst} == files - {src}
  {
  }

  lemma MovedKeeps<K(!new), C(!new)>(files: map<K, C>, src: K, dst: K)
    requires src in files && dst !in files
    ensures Contents(Moved(files, src, dst)) == Contents(files)
  {
    MovedRest(files, src, dst);
    ContentsWith(files, src);
    ContentsWith(Moved(files, src, dst), dst);
  }

  class Directory<C(!new)> {
    var files: map<string, C>
    /** Renames asked for so far. */
    var calls: nat
    /** Which of them the system refuses. */
    const fails: nat -> bool

    constructor (files: map<string, C>, fails: nat -> bool)
      ensures this.files == files && calls == 0 && this.fails == fails
    {
      this.files, calls, this.fails := files, 0, fails;
    }

    /** rename_within_base. */
    method Rename(src: string, dst: string) returns (ok: bool)
      modifies this
      ensures calls == old(calls) + 1 && ok == (src in old(files) && !fails(old(calls)))
      ensures files == if ok then Moved(old(files), src, dst) else old(files)
    {
      ok := src in files && !fails(calls);
      calls := calls + 1;
      if ok {
        files := Moved(files, src, dst);
      }
    }
  }

  // Swapping two files through a temporary name.

  function Temp(a: string): (t: string)
    ensures |t| > |a|
  {
    ".swap." + a + ".tmp"
  }

  function Exchanged<K, C>(files: map<K, C>, a: K, b: K): map<K, C>
    requires a in files && b in files
  {
    files[a := files[b]][b := files[a]]
  }

  lemma MoveAndBack<K(!new), C(!new)>(was: map<K, C>, a: K, t: K)
    requires a in was && t !in was
    ensures Moved(Moved(was, a, t), t, a) == was
  {
  }

  lemma SwapSteps<K(!new), C(!new)>(was: map<K, C>, a: K, b: K, t: K)
    requires a in was && b in was && a != b && t !in was
    ensures Moved(Moved(Moved(was, a, t), b, a), t, b) == Exchanged(was, a, b)
    ensures Moved(Moved(Moved(was, a, t), b, a), a, b) == Moved(was, a, t)
    ensures Moved(Moved(Moved(was, a, t), b, a), t, a) == was - {b}
  {
  }

  /** How far a swap gets when its renames, numbered from c, meet these refusals. */
  datatype Progress = Refused | Undone | Stranded | Swapped | Restored | Parked | Crossed | Lost

  function Reached(fails: nat -> bool, c: nat, aThere: bool, bThere: bool): Progress {
    if !aThere || fails(c) then Refused
    else if !bThere || fails(c + 1) then (if fails(c + 2) then Stranded else Undone)
    else if !fails(c + 2) then Swapped
    else if !fails(c + 3) then (if fails(c + 4) then Parked else Restored)
    else if fails(c + 4) then Crossed
    else Lost
  }

  /** The files a swap leaves. */
  function AfterSwap<K, C>(was: map<K, C>, a: K, b: K, t: K, p: Progress): map<K, C>
    requires p != Refused ==> a in was
    requires p in {Swapped, Restored, Parked, Crossed, Lost} ==> b in was && a != b && t != b
  {
    match p
    case Swapped => Exchanged(was, a, b)
    case Refused => was
    case Undone => was
    case Restored => was
    case Stranded => Moved(was, a, t)
    case Parked => Moved(was, a, t)
    case Crossed => Moved(Moved(was, a, t), b, a)
    case Lost => was - {b}
  }

  /** One swap of apply_placement_plan, with its attempts to undo a part-finished one. */
  method Swap<C(!new)>(dir: Directory<C>, a: string, b: string) returns (ok: bool)
    requires a != b && Temp(a) !in dir.files && Temp(a) != b
    modifies dir
    ensures var p := Reached(dir.fails, old(dir.calls), a in old(dir.files), b in old(dir.files));
            dir.files == AfterSwap(old(dir.files), a, b, Temp(a), p) && ok == (p == Swapped)
    ensures dir.calls <= old(dir.calls) + 5 && (ok ==> dir.calls == old(dir.calls) + 3)
  {
    var t := Temp(a);
    ghost var was := dir.files;
    if a in was {
      MoveAndBack(was, a, t);
    }
    ok := dir.Rename(a, t);
    if !ok {
      return;
    }
    ok := dir.Rename(b, a);
    if !ok {
      var restored := dir.Rename(t, a);
      return;
    }
    ok := FinishSwap(dir, a, b, t, was);
  }

  /** The last step, and the two that would undo the first two. */
  method FinishSwap<C(!new)>(dir: Directory<C>, a: string, b: string, t: string, ghost was: map<string, C>)
    returns (ok: bool)
    requires a in was && b in was && a != b && t !in was && dir.files == Moved(Moved(was, a, t), b, a)
    modifies dir
    ensures var c := old(dir.calls);
            && ok == !dir.fails(c) && dir.calls == c + (if ok then 1 else 3)
            && dir.files == AfterSwap(was, a, b, t, if ok then Swapped
                                                    else if !dir.fails(c + 1) then
                                                      (if dir.fails(c + 2) then Parked else Restored)
                                                    else if dir.fails(c + 2) then Crossed else Lost)
  {
    MoveAndBack(was, a, t);
    SwapSteps(was, a, b, t);
    ok := dir.Rename(t, b);
    if !ok {
      var back := dir.Rename(a, b);
      back := dir.Rename(t, a);
    }
  }

  /** With at most one rename refused a swap happens in full or not at all. */
  lemma OneRefusalRestores<K(!new), C(!new)>(was: map<K, C>, a: K, b: K, t: K, fails: nat -> bool, c: nat, k: nat)
    requires a in was && b in was && a != b && t !in was
    requires forall j :: c <= j < c + 5 && fails(j) ==> j == k
    ensures AfterSwap(was, a, b, t, Reached(fails, c, true, true)) == if fails(c) || fails(c + 1) ||
            fails(c + 2) then was else Exchanged(was, a, b)
  {
  }

  /** A swap loses a file's data just when its last rename, and the first of the two that would undo it, are both
      refused and the second is not. */
  lemma SwapConserves<K(!new), C(!new)>(was: map<K, C>, a: K, b: K, t: K, fails: nat -> bool, c: nat)
    requires a in was && b in was && a != b && t !in was
    ensures Contents(AfterSwap(was, a, b, t, Reached(fails, c, true, true))) == Contents(was) <==>
            !(!fails(c) && !fails(c + 1) && fails(c + 2) && fails(c + 3) && !fails(c + 4))
  {
    MovedKeeps(was, a, t);
    var once := Moved(was, a, t);
    MovedKeeps(once, b, a);
    SwapSteps(was, a, b, t);
    MovedKeeps(Moved(once, b, a), t, b);
    ContentsWith(was, b);
    assert |Contents(was - {b})| < |Contents(was)|;
  }
}
