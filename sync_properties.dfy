/** What a resync pass guarantees, proved about `Sync` for every pair of
    directories: when it succeeds, when it fails, what the destination holds
    afterwards, that a second pass changes nothing, and that a failure stops
    the pass at the failing step without undoing earlier work. */
module SyncProperties {
  import opened FileSystem
  import opened ParquetSync

  /** The copy loop over `names` can run to the end: nothing to copy, or
      two distinct directories, an existing destination and only files, none
      of which a destination subdirectory blocks. */
  ghost predicate CopiesSucceed(src: Snapshot, same: bool, names: seq<Name>, dst: Snapshot)
  {
    names == [] || (!same && dst.present && forall n :: n in names ==> n in src.entries && src.entries[n].File? && !CopyBlocked(dst, n))
  }

  /** `d` is `dst` after the entries `names` were copied into it. */
  ghost predicate CopiedAll(src: Snapshot, dst: Snapshot, names: seq<Name>, d: Snapshot)
  {
    && WellFormed(d)
    && d.present == dst.present
    && (forall n :: n in d.entries <==> n in dst.entries || n in names)
    && (forall n :: n in names ==> n in src.entries && n in d.entries && d.entries[n] == Copied(src, dst, n))
    && (forall n :: n in d.entries && n !in names ==> n in dst.entries && d.entries[n] == dst.entries[n])
  }

  /** The delete loop over `names` can run to the end: each name the source
      lacks is a file, which os.remove can delete. */
  ghost predicate PrunesSucceed(src: Snapshot, names: seq<Name>, d: Snapshot)
  {
    forall n :: n in names && n !in src.entries && n in d.entries ==> d.entries[n].File?
  }

  /** `e` is `d` after every name of `names` that the source lacks was deleted. */
  ghost predicate PrunedAll(src: Snapshot, d: Snapshot, names: seq<Name>, e: Snapshot)
  {
    && WellFormed(e)
    && e.present == d.present
    && (forall n :: n in e.entries <==> n in d.entries && (n in src.entries || n !in names))
    && (forall n :: n in e.entries ==> e.entries[n] == d.entries[n])
  }

  /** The conditions under which a whole pass succeeds: both directories
      exist, they are distinct unless the source is empty, the source holds
      only files, no destination subdirectory named like one of them already
      holds a directory of that name, and every destination entry to delete
      is a file. */
  ghost predicate CanMirror(src: Snapshot, dst: Snapshot, same: bool)
  {
    && src.present
    && dst.present
    && (same ==> src.entries == map[])
    && (forall n :: n in src.entries ==> src.entries[n].File? && !CopyBlocked(dst, n))
    && (forall n :: n in dst.entries && n !in src.entries ==> dst.entries[n].File?)
  }

  /** An aborted run stopped at a step that raised, after the steps before it
      had all completed: the destination it leaves is the one that step found. */
  lemma {:induction false} AbortedAtFailingStep(src: Snapshot, same: bool, steps: seq<Step>, k: nat, d: Snapshot, at: Snapshot)
    requires k <= |steps|
    requires Run(src, same, steps, k, d) == Aborted(at)
    ensures exists i :: 0 <= i < k && Run(src, same, steps, i, d) == Done(at) && Apply(src, same, steps[i], at) == None
    decreases k
  {
    var prev := Run(src, same, steps, k - 1, d);
    if prev.Aborted? {
      AbortedAtFailingStep(src, same, steps, k - 1, d, at);
    } else {
      assert Run(src, same, steps, k - 1, d) == Done(at) && Apply(src, same, steps[k - 1], at) == None;
    }
  }

  /** A run of steps that each leave the destination as it is completes
      without changing it. */
  lemma {:induction false} RunOfNoOps(src: Snapshot, same: bool, steps: seq<Step>, k: nat, d: Snapshot)
    requires k <= |steps|
    requires forall i :: 0 <= i < k ==> Apply(src, same, steps[i], d) == Some(d)
    ensures Run(src, same, steps, k, d) == Done(d)
    decreases k
  {
    if k > 0 {
      RunOfNoOps(src, same, steps, k - 1, d);
    }
  }

  /** A run whose first step raises ends there, with nothing changed. */
  lemma {:induction false} RunFailingFirst(src: Snapshot, same: bool, steps: seq<Step>, k: nat, d: Snapshot)
    requires 0 < k <= |steps|
    requires Apply(src, same, steps[0], d) == None
    ensures Run(src, same, steps, k, d) == Aborted(d)
    decreases k
  {
    if k > 1 {
      RunFailingFirst(src, same, steps, k - 1, d);
    }
  }

  /** One more copy after the entries `pre`: it succeeds exactly when the
      copies so far could be made and this one can, and then `n` is copied too. */
  lemma CopyStep(src: Snapshot, same: bool, dst: Snapshot, pre: seq<Name>, n: Name, e: Snapshot)
    requires WellFormed(dst)
    requires n in src.entries
    requires CopiesSucceed(src, same, pre, dst) && CopiedAll(src, dst, pre, e)
    ensures var r := Copy2Result(src, n, e, same);
      && (r.Some? <==> CopiesSucceed(src, same, pre + [n], dst))
      && (r.Some? ==> CopiedAll(src, dst, pre + [n], r.value))
  {
    var r := Copy2Result(src, n, e, same);
    if r.Some? {
      var d := r.value;
      forall m | m in pre + [n]
        ensures m in src.entries && m in d.entries && d.entries[m] == Copied(src, dst, m)
      {
        if m != n {
          assert m in pre;
        }
      }
    }
  }

  /** The copy loop after `k` entries: it is still running exactly when
      those copies could all be made, and then each copied name holds the
      source's entry (or keeps its subdirectory) while other names are
      untouched. */
  lemma {:induction false} CopyPhase(src: Snapshot, same: bool, names: seq<Name>, dst: Snapshot, k: nat)
    requires WellFormed(dst)
    requires k <= |names|
    requires forall n :: n in names ==> n in src.entries
    ensures Run(src, same, Copies(names), k, dst).Done? <==> CopiesSucceed(src, same, names[..k], dst)
    ensures Run(src, same, Copies(names), k, dst).Done? ==> CopiedAll(src, dst, names[..k], Run(src, same, Copies(names), k, dst).dst)
    decreases k
  {
    if k == 0 {
      return;
    }
    CopyPhase(src, same, names, dst, k - 1);
    var n := names[k - 1];
    assert names[..k] == names[..k - 1] + [n];
    assert Copies(names)[k - 1] == Copy(n);
    var prev := Run(src, same, Copies(names), k - 1, dst);
    if prev.Done? {
      CopyStep(src, same, dst, names[..k - 1], n, prev.dst);
    } else {
      assert !CopiesSucceed(src, same, names[..k - 1], dst);
    }
  }

  /** In a listing without repeats, no name comes back later. */
  lemma LastIsNew(names: seq<Name>, k: nat)
    requires Distinct(names) && 0 < k <= |names|
    ensures names[k - 1] !in names[..k - 1]
  {
    assert forall i :: 0 <= i < k - 1 ==> names[i] != names[k - 1];
  }

  /** One more listed name after `pre`: the step succeeds exactly when the
      deletions so far could be made and this one can, and then `n` is gone
      if the source lacks it. */
  lemma PruneStep(src: Snapshot, same: bool, d: Snapshot, pre: seq<Name>, n: Name, e: Snapshot)
    requires WellFormed(d)
    requires n in d.entries && n !in pre
    requires PrunesSucceed(src, pre, d) && PrunedAll(src, d, pre, e)
    ensures var r := Apply(src, same, Prune(n), e);
      && (r.Some? <==> PrunesSucceed(src, pre + [n], d))
      && (r.Some? ==> PrunedAll(src, d, pre + [n], r.value))
  {
    assert n in e.entries;
  }

  /** The delete loop after `k` listed names: it is still running exactly
      when each of those names the source lacks is a file, and then those
      files are gone while every other entry is untouched. */
  lemma {:induction false} PrunePhase(src: Snapshot, same: bool, names: seq<Name>, d: Snapshot, k: nat)
    requires WellFormed(d)
    requires Distinct(names)
    requires forall n :: n in names ==> n in d.entries
    requires k <= |names|
    ensures Run(src, same, Prunes(names), k, d).Done? <==> PrunesSucceed(src, names[..k], d)
    ensures Run(src, same, Prunes(names), k, d).Done? ==> PrunedAll(src, d, names[..k], Run(src, same, Prunes(names), k, d).dst)
    decreases k
  {
    if k == 0 {
      return;
    }
    PrunePhase(src, same, names, d, k - 1);
    var n := names[k - 1];
    assert names[..k] == names[..k - 1] + [n];
    LastIsNew(names, k);
    assert Prunes(names)[k - 1] == Prune(n);
    var prev := Run(src, same, Prunes(names), k - 1, d);
    if prev.Done? {
      PruneStep(src, same, d, names[..k - 1], n, prev.dst);
    } else {
      assert !PrunesSucceed(src, names[..k - 1], d);
    }
  }

  /** The copy loop over the whole source listing. */
  lemma CopyWholeListing(src: Snapshot, same: bool, dst: Snapshot)
    requires WellFormed(src) && WellFormed(dst)
    ensures var r := Run(src, same, Copies(src.names), |src.names|, dst);
      && (r.Done? <==> CopiesSucceed(src, same, src.names, dst))
      && (r.Done? ==> CopiedAll(src, dst, src.names, r.dst))
  {
    CopyPhase(src, same, src.names, dst, |src.names|);
    assert src.names[..|src.names|] == src.names;
  }

  /** The delete loop over the whole destination listing. */
  lemma PruneWholeListing(src: Snapshot, same: bool, d: Snapshot)
    requires WellFormed(d)
    ensures var r := Run(src, same, Prunes(d.names), |d.names|, d);
      && (r.Done? <==> PrunesSucceed(src, d.names, d))
      && (r.Done? ==> PrunedAll(src, d, d.names, r.dst))
  {
    PrunePhase(src, same, d.names, d, |d.names|);
    assert d.names[..|d.names|] == d.names;
  }

  /** After the copy loop, the names the delete loop would remove are
      exactly the destination's own names the source lacks. */
  lemma PrunesAfterCopies(src: Snapshot, dst: Snapshot, mid: Snapshot)
    requires CopiedAll(src, dst, src.names, mid)
    requires WellFormed(src)
    ensures PrunesSucceed(src, mid.names, mid)
            <==> forall n :: n in dst.entries && n !in src.entries ==> dst.entries[n].File?
  {
    if PrunesSucceed(src, mid.names, mid) {
      forall n | n in dst.entries && n !in src.entries
        ensures dst.entries[n].File?
      {
        assert n in mid.entries && n !in src.names;
      }
    }
  }

  /** The copy loop over the whole source listing runs to the end exactly
      when the source is empty, or it holds only files that no destination
      subdirectory blocks, and the two directories are distinct and the
      destination exists. */
  lemma CopiesSucceedOnListing(src: Snapshot, dst: Snapshot, same: bool)
    requires WellFormed(src)
    ensures CopiesSucceed(src, same, src.names, dst)
            <==> src.entries == map[] || (!same && dst.present && forall n :: n in src.entries ==> src.entries[n].File? && !CopyBlocked(dst, n))
  {
    if src.names == [] {
      assert src.entries == map[];
    } else {
      assert src.names[0] in src.entries;
    }
  }

  /** How the success condition of a pass splits into that of its copy loop
      and that of its delete loop. */
  lemma MirrorConditions(src: Snapshot, dst: Snapshot, same: bool)
    requires WellFormed(src) && src.present
    requires same ==> src == dst
    ensures CanMirror(src, dst, same) <==>
      && CopiesSucceed(src, same, src.names, dst)
      && dst.present
      && forall n :: n in dst.entries && n !in src.entries ==> dst.entries[n].File?
  {
    CopiesSucceedOnListing(src, dst, same);
  }

  /** A pass that succeeds had directories that allow it. */
  lemma SucceedsOnlyIfMirrorable(src: Snapshot, dst: Snapshot, same: bool)
    requires WellFormed(src) && WellFormed(dst)
    requires same ==> src == dst
    requires Sync(src, dst, same).Done?
    ensures CanMirror(src, dst, same)
  {
    MirrorConditions(src, dst, same);
    CopyWholeListing(src, same, dst);
    var mid := Run(src, same, Copies(src.names), |src.names|, dst).dst;
    PruneWholeListing(src, same, mid);
    PrunesAfterCopies(src, dst, mid);
  }

  /** Directories that allow a pass make it succeed. */
  lemma SucceedsIfMirrorable(src: Snapshot, dst: Snapshot, same: bool)
    requires WellFormed(src) && WellFormed(dst)
    requires same ==> src == dst
    requires CanMirror(src, dst, same)
    ensures Sync(src, dst, same).Done?
  {
    MirrorConditions(src, dst, same);
    CopyWholeListing(src, same, dst);
    var mid := Run(src, same, Copies(src.names), |src.names|, dst).dst;
    PruneWholeListing(src, same, mid);
    PrunesAfterCopies(src, dst, mid);
  }

  /** A pass succeeds exactly when the two directories allow it: a missing
      folder, a source subdirectory, a copy blocked by a directory inside a
      destination subdirectory, a destination subdirectory that would have to
      be deleted, or one directory named twice with anything in it makes the
      pass fail. */
  lemma SyncSucceedsIff(src: Snapshot, dst: Snapshot, same: bool)
    requires WellFormed(src) && WellFormed(dst)
    requires same ==> src == dst
    ensures Sync(src, dst, same).Done? <==> CanMirror(src, dst, same)
  {
    if Sync(src, dst, same).Done? {
      SucceedsOnlyIfMirrorable(src, dst, same);
    } else if CanMirror(src, dst, same) {
      SucceedsIfMirrorable(src, dst, same);
    }
  }

  /** After a pass that succeeds, the destination lists exactly the source's
      names: each copied name holds the source's content, overwriting what
      was there, except where a destination subdirectory of that name took
      the copy inside it; every name the source lacks has been deleted. */
  lemma SyncMirrors(src: Snapshot, dst: Snapshot, same: bool)
    requires WellFormed(src) && WellFormed(dst)
    requires same ==> src == dst
    requires Sync(src, dst, same).Done?
    ensures var d := Sync(src, dst, same).dst;
      && WellFormed(d)
      && d.present
      && (forall n :: n in d.entries <==> n in src.entries)
      && (forall n :: n in src.entries ==> d.entries[n] == Copied(src, dst, n))
  {
    CopyWholeListing(src, same, dst);
    var mid := Run(src, same, Copies(src.names), |src.names|, dst).dst;
    PruneWholeListing(src, same, mid);
  }

  /** When no destination subdirectory shares a name with a source file, a
      pass that succeeds leaves the destination with the source's entries,
      name for name and byte for byte. */
  lemma SyncMakesDestinationEqualSource(src: Snapshot, dst: Snapshot, same: bool)
    requires WellFormed(src) && WellFormed(dst)
    requires same ==> src == dst
    requires forall n :: n in src.entries && n in dst.entries ==> dst.entries[n].File?
    requires Sync(src, dst, same).Done?
    ensures Sync(src, dst, same).dst.entries == src.entries
  {
    SyncMirrors(src, dst, same);
  }

  /** Copying the source's files onto a destination that already holds them
      (or a subdirectory in their place) changes nothing. */
  lemma CopiesAreNoOps(src: Snapshot, same: bool, d: Snapshot)
    requires WellFormed(src) && WellFormed(d) && d.present
    requires same ==> src.entries == map[]
    requires forall n :: n in src.entries ==>
      src.entries[n].File? && n in d.entries && !CopyBlocked(d, n) && (d.entries[n] == src.entries[n] || d.entries[n].Subdir?)
    ensures Run(src, same, Copies(src.names), |src.names|, d) == Done(d)
  {
    var names := src.names;
    forall i | 0 <= i < |names|
      ensures Apply(src, same, Copies(names)[i], d) == Some(d)
    {
      var n := names[i];
      if d.entries[n].File? {
        assert d.entries[n := src.entries[n]] == d.entries;
      }
    }
    RunOfNoOps(src, same, Copies(names), |names|, d);
  }

  /** Deleting the names the source lacks from a destination that has none
      changes nothing. */
  lemma PrunesAreNoOps(src: Snapshot, same: bool, d: Snapshot)
    requires WellFormed(d)
    requires forall n :: n in d.entries ==> n in src.entries
    ensures Run(src, same, Prunes(d.names), |d.names|, d) == Done(d)
  {
    forall i | 0 <= i < |d.names|
      ensures Apply(src, same, Prunes(d.names)[i], d) == Some(d)
    {
      assert d.names[i] in d.entries;
    }
    RunOfNoOps(src, same, Prunes(d.names), |d.names|, d);
  }

  /** A second pass with the source unchanged succeeds and leaves the
      destination exactly as the first pass left it. */
  lemma SyncIdempotent(src: Snapshot, dst: Snapshot, same: bool)
    requires WellFormed(src) && WellFormed(dst)
    requires same ==> src == dst
    requires Sync(src, dst, same).Done?
    ensures Sync(src, Sync(src, dst, same).dst, same) == Sync(src, dst, same)
  {
    var d := Sync(src, dst, same).dst;
    SyncSucceedsIff(src, dst, same);
    SyncMirrors(src, dst, same);
    CopiesAreNoOps(src, same, d);
    PrunesAreNoOps(src, same, d);
  }

  /** When startup would refuse the pair because a folder is missing, a pass
      would fail at once and change nothing. */
  lemma MissingFolderAborts(src: Snapshot, dst: Snapshot, same: bool)
    requires WellFormed(src) && WellFormed(dst)
    requires StartupCheck(src, dst).Some?
    ensures Sync(src, dst, same) == Aborted(dst)
  {
    if src.present && src.names != [] {
      RunFailingFirst(src, same, Copies(src.names), |src.names|, dst);
    }
  }

  /** When the source and destination are one directory, a pass changes
      nothing: it fails at the first copy, or finds nothing to do. */
  lemma SameFolderUnchanged(src: Snapshot)
    requires WellFormed(src)
    ensures Sync(src, src, true).dst == src
    ensures Sync(src, src, true).Done? <==> src.present && src.entries == map[]
  {
    if !src.present {
      return;
    }
    if src.names != [] {
      assert src.names[0] in src.entries;
      RunFailingFirst(src, true, Copies(src.names), |src.names|, src);
    } else {
      assert src.entries == map[];
    }
  }
}
