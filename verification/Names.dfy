/** Unicode file names: packets arrive in any order and in any number of
    merges, and the names come out the same. */
module Names {
  import opened Options
  import opened Bytes

  type FileId = seq<Byte>

  const MAX_FILES_PER_SET: nat := 32768

  /** A described file's name: as packed, and as a safe relative path. */
  datatype Name = Name(par2: string, path: string)

  datatype Admission = Retained | Duplicate | Rejected

  /** Spelling agreed for each file, None once two packets disagree, and the
      description's own name of each file that took one. */
  datatype Spellings = Spellings(names: map<FileId, Option<string>>, originals: map<FileId, Name>)

  /** UnicodeNames::add. */
  function Added(s: Spellings, id: FileId, name: string): (r: (Spellings, Admission)) {
    if id in s.names then
      if s.names[id] == Some(name) then (s, Duplicate)
      else if s.names[id].Some? then (s.(names := s.names[id := None]), Rejected)
      else (s, Duplicate)
    else if |s.names| >= MAX_FILES_PER_SET then (s, Rejected)
    else (s.(names := s.names[id := Some(name)]), Retained)
  }

  /** One described file after UnicodeNames::apply: its name, and the description's own kept aside. */
  function Settled(spelling: Option<string>, d: Name, kept: Option<Name>, translate: string -> Option<string>)
    : (Name, Option<Name>)
  {
    if spelling.Some? then
      if d.par2 != spelling.value && translate(spelling.value).Some?
      then (Name(spelling.value, translate(spelling.value).value), if kept.Some? then kept else Some(d))
      else (d, kept)
    else if kept.Some? then (kept.value, None)
    else (d, None)
  }

  /** What becomes of file `id`: named and described files settle, all others stay. */
  function Outcome(s: Spellings, files: map<FileId, Name>, id: FileId,
                   translate: string -> Option<string>): (Option<Name>, Option<Name>) {
    if id in s.names && id in files then
      var (d, kept) := Settled(s.names[id], files[id], Lookup(s.originals, id), translate);
      (Some(d), kept)
    else (Lookup(files, id), Lookup(s.originals, id))
  }

  class UnicodeNames {
    var names: map<FileId, Option<string>>
    var originals: map<FileId, Name>

    ghost function Value(): Spellings
      reads this
    {
      Spellings(names, originals)
    }

    constructor ()
      ensures names == map[] && originals == map[]
    {
      names, originals := map[], map[];
    }

    method Add(id: FileId, name: string) returns (admission: Admission)
      modifies this
      ensures (Value(), admission) == Added(old(Value()), id, name)
    {
      var full := |names| >= MAX_FILES_PER_SET;
      if id in names {
        if names[id] == Some(name) {
          return Duplicate;
        } else if names[id].Some? {
          names := names[id := None];
          return Rejected;
        } else {
          return Duplicate;
        }
      }
      if full {
        return Rejected;
      }
      names := names[id := Some(name)];
      return Retained;
    }

    /** apply: whatever order the names are visited in, each file ends as it would alone. */
    method Apply(files: map<FileId, Name>, translate: string -> Option<string>) returns (renamed: map<FileId, Name>)
      modifies this`originals
      ensures forall id: FileId ::
                (Lookup(renamed, id), Lookup(originals, id)) == Outcome(old(Value()), files, id, translate)
    {
      ghost var before := Value();
      renamed := files;
      var kept, todo := originals, names.Keys;
      while todo != {}
        invariant todo <= names.Keys
        invariant forall id: FileId {:trigger Lookup(renamed, id)} {:trigger Lookup(kept, id)} ::
                    (Lookup(renamed, id), Lookup(kept, id)) ==
                    if id in todo then (Lookup(files, id), Lookup(before.originals, id))
                      else Outcome(before, files, id, translate)
        decreases |todo|
      {
        var id :| id in todo;
        todo := todo - {id};
        if id in renamed {
          assert Lookup(renamed, id) == Lookup(files, id);
          renamed, kept := Visit(id, names[id], renamed, kept, translate);
        } else {
          assert Lookup(renamed, id) == None;
        }
      }
      originals := kept;
    }
  }

  /** Settle one file and leave the others. */
  method Visit(id: FileId, spelling: Option<string>, files: map<FileId, Name>, kept: map<FileId, Name>,
               translate: string -> Option<string>)
    returns (renamed: map<FileId, Name>, originals: map<FileId, Name>)
    requires id in files
    ensures (Lookup(renamed, id), Lookup(originals, id)) ==
            var (d, k) := Settled(spelling, files[id], Lookup(kept, id), translate); (Some(d), k)
    ensures forall other: FileId {:trigger Lookup(renamed, other)} {:trigger Lookup(originals, other)} ::
              other != id ==>
              Lookup(renamed, other) == Lookup(files, other) && Lookup(originals, other) == Lookup(kept, other)
  {
    renamed, originals := files, kept;
    if spelling.Some? {
      if renamed[id].par2 != spelling.value {
        var path := translate(spelling.value);
        if path.Some? {
          if id !in originals {
            originals := originals[id := renamed[id]];
          }
          renamed := renamed[id := Name(spelling.value, path.value)];
        }
      }
    } else if id in originals {
      renamed := renamed[id := originals[id]];
      originals := originals - {id};
    }
  }
}
