/** The part of the file system the mirror service touches: the top-level
    entries of a directory, and the four operations it performs on them
    (list a directory, test whether an entry exists, copy a file with
    shutil.copy2, delete a file with os.remove). Each operation is given once
    as a function on directory values, which says what happens, and once as a
    method on a Folder object, which does it in place. An exception raised by
    the operation is the function's `None` result and the method's `false`. */
module FileSystem {

  newtype byte = x: int | 0 <= x < 256

  type Name = string

  datatype Option<T> = None | Some(value: T)

  /** A top-level directory entry: a regular file with its bytes, or a
      subdirectory with the names of the directories inside it (its files
      are not modelled). */
  datatype Entry = File(data: seq<byte>) | Subdir(subdirs: set<Name>)

  /** One directory as the process sees it: whether its path is an existing
      directory, the order in which os.listdir reports its entries, and every
      entry by name. A path that exists but is not a directory is not
      modelled. */
  datatype Snapshot = Snapshot(present: bool, names: seq<Name>, entries: map<Name, Entry>)

  predicate Distinct(s: seq<Name>)
  {
    forall i, j :: 0 <= i < j < |s| ==> s[i] != s[j]
  }

  /** The listing names every entry exactly once, and a missing directory has none. */
  ghost predicate WellFormed(d: Snapshot)
  {
    && Distinct(d.names)
    && (forall n :: n in d.names ==> n in d.entries)
    && (forall n :: n in d.entries ==> n in d.names)
    && (!d.present ==> d.entries == map[])
  }

  /** `s` with `n` taken out, the others kept in order. */
  function Without(s: seq<Name>, n: Name): (r: seq<Name>)
    ensures forall m :: m in r <==> m in s && m != n
    ensures Distinct(s) ==> Distinct(r)
  {
    if s == [] then []
    else if s[0] == n then Without(s[1..], n)
    else
      var rest := Without(s[1..], n);
      assert Distinct(s) ==> s[0] !in s[1..] by {
        if Distinct(s) {
          forall j | 0 <= j < |s[1..]| ensures s[1..][j] != s[0] {
            assert s[1..][j] == s[j + 1];
          }
        }
      }
      [s[0]] + rest
  }

  /** The directory after entry `n` is created or overwritten with `e`; a new
      name is listed after the existing ones. */
  function Put(d: Snapshot, n: Name, e: Entry): (r: Snapshot)
    ensures WellFormed(d) && d.present ==> WellFormed(r)
    ensures r.present == d.present && n in r.entries && r.entries[n] == e
    ensures forall m :: m != n ==> (m in r.entries <==> m in d.entries)
    ensures forall m :: m != n && m in d.entries ==> r.entries[m] == d.entries[m]
  {
    Snapshot(d.present, if n in d.entries then d.names else d.names + [n], d.entries[n := e])
  }

  /** The directory after entry `n` is deleted. */
  function Drop(d: Snapshot, n: Name): (r: Snapshot)
    ensures WellFormed(d) ==> WellFormed(r)
    ensures r.present == d.present && n !in r.entries
    ensures forall m :: m != n ==> (m in r.entries <==> m in d.entries)
    ensures forall m :: m in r.entries ==> r.entries[m] == d.entries[m]
  {
    Snapshot(d.present, Without(d.names, n), d.entries - {n})
  }

  /** os.listdir: the directory's names; raises when the directory is missing. */
  function Listing(d: Snapshot): (r: Option<seq<Name>>)
    ensures r.Some? <==> d.present
    ensures WellFormed(d) && r.Some? ==> Distinct(r.value) && forall n :: n in r.value <==> n in d.entries
  {
    if d.present then Some(d.names) else None
  }

  /** os.path.exists on an entry of directory `d`; never raises. */
  function Exists(d: Snapshot, n: Name): bool
  {
    n in d.entries
  }

  /** copy2 of `n` is retargeted into a destination subdirectory named `n`,
      and raises there when that subdirectory already holds a directory `n`. */
  predicate CopyBlocked(dst: Snapshot, n: Name)
  {
    n in dst.entries && dst.entries[n].Subdir? && n in dst.entries[n].subdirs
  }

  /** Entry `n` of the destination after `n` is copied from `src`: the
      source's entry, unless a destination subdirectory of that name took the
      copy inside it and so stays as it was. */
  function Copied(src: Snapshot, dst: Snapshot, n: Name): Entry
    requires n in src.entries
  {
    if n in dst.entries && dst.entries[n].Subdir? then dst.entries[n] else src.entries[n]
  }

  /** `d` is `dst` with entry `n` copied from `src` and every other entry
      as it was. */
  ghost predicate CopiedOne(src: Snapshot, dst: Snapshot, n: Name, d: Snapshot)
  {
    && n in src.entries
    && n in d.entries
    && d.entries[n] == Copied(src, dst, n)
    && (forall m :: m != n ==> (m in d.entries <==> m in dst.entries))
    && (forall m :: m != n && m in dst.entries ==> d.entries[m] == dst.entries[m])
  }

  /** shutil.copy2 from entry `n` of `src` to entry `n` of `dst`; `same` says
      the two directory paths name one directory. Copying a file onto a
      destination subdirectory of the same name puts the copy inside that
      subdirectory, so the top level of `dst` is then unchanged. */
  function Copy2Result(src: Snapshot, n: Name, dst: Snapshot, same: bool): (r: Option<Snapshot>)
    ensures r.Some? <==> !same && n in src.entries && src.entries[n].File? && dst.present && !CopyBlocked(dst, n)
    ensures WellFormed(dst) && r.Some? ==> WellFormed(r.value) && r.value.present
    ensures r.Some? ==> CopiedOne(src, dst, n, r.value)
  {
    if same then None                                         // the same file, or a directory
    else if n !in src.entries || src.entries[n].Subdir? then None  // nothing to open, or a directory
    else if !dst.present then None                            // no directory to create the copy in
    else if CopyBlocked(dst, n) then None                     // the retargeted path is a directory
    else if n in dst.entries && dst.entries[n].Subdir? then Some(dst)
    else Some(Put(dst, n, src.entries[n]))
  }

  /** `e` is `d` without entry `n` and with every other entry as it was. */
  ghost predicate RemovedOne(d: Snapshot, n: Name, e: Snapshot)
  {
    && n !in e.entries
    && (forall m :: m != n ==> (m in e.entries <==> m in d.entries))
    && (forall m :: m in e.entries ==> e.entries[m] == d.entries[m])
  }

  /** os.remove of entry `n` of `d`: deletes a file; raises for a missing
      name or for a subdirectory. */
  function RemoveResult(n: Name, d: Snapshot): (r: Option<Snapshot>)
    ensures r.Some? <==> n in d.entries && d.entries[n].File?
    ensures WellFormed(d) && r.Some? ==> WellFormed(r.value) && r.value.present == d.present
    ensures r.Some? ==> RemovedOne(d, n, r.value)
  {
    if n !in d.entries || d.entries[n].Subdir? then None else Some(Drop(d, n))
  }

  /** A directory on disk, updated in place by the operations below. */
  class Folder {
    var present: bool
    var names: seq<Name>
    var entries: map<Name, Entry>

    function Snap(): Snapshot
      reads this
    {
      Snapshot(present, names, entries)
    }

    ghost predicate Valid()
      reads this
    {
      WellFormed(Snap())
    }

    constructor (s: Snapshot)
      requires WellFormed(s)
      ensures Valid() && Snap() == s
    {
      present, names, entries := s.present, s.names, s.entries;
    }
  }

  /** os.listdir on a folder; None when it raises. */
  method ListDir(f: Folder) returns (r: Option<seq<Name>>)
    requires f.Valid()
    ensures r.Some? <==> f.present
    ensures r.Some? ==> Distinct(r.value) && forall n :: n in r.value <==> n in f.entries
    ensures r == Listing(f.Snap())
  {
    if f.present {
      r := Some(f.names);
    } else {
      r := None;
    }
  }

  /** os.path.exists on entry `n` of a folder. */
  method PathExists(f: Folder, n: Name) returns (b: bool)
    ensures b == Exists(f.Snap(), n)
  {
    b := n in f.entries;
  }
  /** shutil.copy2 from entry `n` of `src` to entry `n` of `dst`, in place;
      `false` when it raises, and then nothing has changed. */
  method Copy2(src: Folder, dst: Folder, n: Name) returns (ok: bool)
    requires src.Valid() && dst.Valid()
    modifies dst
    ensures dst.Valid()
    ensures var r := Copy2Result(old(src.Snap()), n, old(dst.Snap()), src == dst);
      ok == r.Some? && dst.Snap() == if ok then r.value else old(dst.Snap())
  {
    if src == dst || n !in src.entries || src.entries[n].Subdir? || !dst.present || CopyBlocked(dst.Snap(), n) {
      return false;
    }
    if n in dst.entries && dst.entries[n].Subdir? {
      return true;
    }
    if n !in dst.entries {
      dst.names := dst.names + [n];
    }
    dst.entries := dst.entries[n := src.entries[n]];
    ok := true;
  }

  /** os.remove of entry `n` of a folder, in place; `false` when it raises,
      and then nothing has changed. */
  method Remove(f: Folder, n: Name) returns (ok: bool)
    requires f.Valid()
    modifies f
    ensures f.Valid()
    ensures var r := RemoveResult(n, old(f.Snap()));
      ok == r.Some? && f.Snap() == if ok then r.value else old(f.Snap())
  {
    if n !in f.entries || f.entries[n].Subdir? {
      return false;
    }
    f.names := Without(f.names, n);
    f.entries := f.entries - {n};
    ok := true;
  }
}
