/** The mirror service: ParquetSyncHandler runs one full resync pass on every
    file-system event, copying every top-level entry of the source folder
    into the destination folder and then deleting every destination entry
    whose name the source no longer has. Any exception ends the pass where it
    happened and the process asks to exit with status 1. Startup refuses to
    create the handler when either folder is missing.

    `Sync` is the pass as a function of the two folders' contents; the
    handler's methods are proved to do exactly that, in place. */
module ParquetSync {
  import opened FileSystem

  /** One unit of work of a pass: copy a source entry into the destination,
      or delete a listed destination entry if the source lacks its name. */
  datatype Step = Copy(name: Name) | Prune(name: Name)

  /** Where a pass ended, with the destination as it was left there. An
      aborted pass keeps the work it did before the failing step. */
  datatype Pass = Done(dst: Snapshot) | Aborted(dst: Snapshot)

  /** What a pass reports to the process: the "Synchronized" log record, or a
      request to exit with the given status. */
  datatype Outcome = Synced | Exit(status: int)

  datatype EventKind = Modified | Created | Deleted

  /** A file-system notification from the watcher. */
  datatype Event = Event(kind: EventKind, path: string)

  /** The folder the startup checks found missing; source is checked first. */
  datatype StartupFailure = SourceMissing | DestinationMissing

  function Copies(names: seq<Name>): (steps: seq<Step>)
    ensures |steps| == |names|
    ensures forall i :: 0 <= i < |names| ==> steps[i] == Copy(names[i])
  {
    seq(|names|, i requires 0 <= i < |names| => Copy(names[i]))
  }

  function Prunes(names: seq<Name>): (steps: seq<Step>)
    ensures |steps| == |names|
    ensures forall i :: 0 <= i < |names| ==> steps[i] == Prune(names[i])
  {
    seq(|names|, i requires 0 <= i < |names| => Prune(names[i]))
  }

  /** One step against destination `d`; None when its file operation raises. */
  function Apply(src: Snapshot, same: bool, step: Step, d: Snapshot): Option<Snapshot>
  {
    match step
    case Copy(n) => Copy2Result(src, n, d, same)
    case Prune(n) => if Exists(src, n) then Some(d) else RemoveResult(n, d)
  }

  /** One more step after the pass so far: nothing runs after an abort. */
  function Then(src: Snapshot, same: bool, step: Step, p: Pass): Pass
  {
    match p
    case Aborted(_) => p
    case Done(d) =>
      match Apply(src, same, step, d)
      case None => Aborted(d)
      case Some(next) => Done(next)
  }

  /** The first `k` steps in order, stopping at the first one that raises. */
  function Run(src: Snapshot, same: bool, steps: seq<Step>, k: nat, d: Snapshot): Pass
    requires k <= |steps|
    decreases k
  {
    if k == 0 then Done(d) else Then(src, same, steps[k - 1], Run(src, same, steps, k - 1, d))
  }

  /** Once a step has raised, no later step runs: the pass ends aborted with
      the destination exactly as the failing step found it. */
  lemma {:induction false} AbortIsFinal(src: Snapshot, same: bool, steps: seq<Step>, k: nat, m: nat, d: Snapshot, at: Snapshot)
    requires k <= m <= |steps|
    requires Run(src, same, steps, k, d) == Aborted(at)
    ensures Run(src, same, steps, m, d) == Aborted(at)
    decreases m
  {
    if k < m {
      AbortIsFinal(src, same, steps, k, m - 1, d, at);
    }
  }

  /** One resync pass: list the source and copy each listed entry, then list
      the destination and prune each listed entry. */
  function Sync(src: Snapshot, dst: Snapshot, same: bool): Pass
  {
    match Listing(src)
    case None => Aborted(dst)
    case Some(srcNames) =>
      match Run(src, same, Copies(srcNames), |srcNames|, dst)
      case Aborted(d) => Aborted(d)
      case Done(d) =>
        match Listing(d)
        case None => Aborted(d)
        case Some(dstNames) => Run(src, same, Prunes(dstNames), |dstNames|, d)
  }

  /** The startup checks with os.path.exists, in order; None when both
      folder paths are existing directories. */
  function StartupCheck(source: Snapshot, destination: Snapshot): (r: Option<StartupFailure>)
    ensures r == None <==> source.present && destination.present
    ensures r == Some(SourceMissing) <==> !source.present
    ensures r == Some(DestinationMissing) <==> source.present && !destination.present
  {
    if !source.present then Some(SourceMissing)
    else if !destination.present then Some(DestinationMissing)
    else None
  }

  class ParquetSyncHandler {
    const source: Folder
    const destination: Folder

    constructor (source: Folder, destination: Folder)
      ensures this.source == source && this.destination == destination
    {
      this.source := source;
      this.destination := destination;
    }

    /** One resync pass, in place. The destination ends as `Sync` says, the
        source is only read, and a failure is an exit with status 1. */
    method SyncFolders() returns (outcome: Outcome)
      requires source.Valid() && destination.Valid()
      modifies destination
      ensures source.Valid() && destination.Valid()
      ensures source.Snap() == old(source.Snap())
      ensures Sync(old(source.Snap()), old(destination.Snap()), source == destination)
              == if outcome == Synced then Done(destination.Snap()) else Aborted(destination.Snap())
      ensures outcome == Synced || outcome == Exit(1)
    {
      var listing := ListDir(source);
      if listing.None? {
        return Exit(1);
      }
      var ok := CopyEntries(listing.value);
      if !ok {
        return Exit(1);
      }
      listing := ListDir(destination);
      if listing.None? {
        return Exit(1);
      }
      ok := PruneEntries(listing.value);
      if !ok {
        return Exit(1);
      }
      outcome := Synced;
    }

    /** The copy loop of a pass: copy2 each listed source entry over the
        destination entry of the same name, stopping at the first that raises. */
    method CopyEntries(srcNames: seq<Name>) returns (ok: bool)
      requires source.Valid() && destination.Valid()
      modifies destination
      ensures source.Valid() && destination.Valid()
      ensures source.Snap() == old(source.Snap())
      ensures Run(old(source.Snap()), source == destination, Copies(srcNames), |srcNames|, old(destination.Snap()))
              == if ok then Done(destination.Snap()) else Aborted(destination.Snap())
    {
      ghost var src0, dst0 := source.Snap(), destination.Snap();
      ghost var same := source == destination;
      var i := 0;
      while i < |srcNames|
        invariant 0 <= i <= |srcNames|
        invariant destination.Valid()
        invariant source.Snap() == src0
        invariant Run(src0, same, Copies(srcNames), i, dst0) == Done(destination.Snap())
      {
        ok := Copy2(source, destination, srcNames[i]);
        if !ok {
          AbortIsFinal(src0, same, Copies(srcNames), i + 1, |srcNames|, dst0, destination.Snap());
          return;
        }
        i := i + 1;
      }
      ok := true;
    }

    /** The delete loop of a pass: os.remove each listed destination entry
        whose name the source lacks, stopping at the first that raises. */
    method PruneEntries(dstNames: seq<Name>) returns (ok: bool)
      requires source.Valid() && destination.Valid()
      requires source == destination ==> forall n :: n in dstNames ==> n in source.entries
      modifies destination
      ensures source.Valid() && destination.Valid()
      ensures source.Snap() == old(source.Snap())
      ensures Run(old(source.Snap()), source == destination, Prunes(dstNames), |dstNames|, old(destination.Snap()))
              == if ok then Done(destination.Snap()) else Aborted(destination.Snap())
    {
      ghost var src0, dst0 := source.Snap(), destination.Snap();
      ghost var same := source == destination;
      var j := 0;
      while j < |dstNames|
        invariant 0 <= j <= |dstNames|
        invariant destination.Valid()
        invariant source.Snap() == src0
        invariant same ==> destination.Snap() == dst0 && forall n :: n in dstNames ==> n in src0.entries
        invariant Run(src0, same, Prunes(dstNames), j, dst0) == Done(destination.Snap())
      {
        ok := PruneEntry(dstNames[j]);
        if !ok {
          AbortIsFinal(src0, same, Prunes(dstNames), j + 1, |dstNames|, dst0, destination.Snap());
          return;
        }
        j := j + 1;
      }
      ok := true;
    }

    /** The body of the delete loop: os.remove the destination entry `n`
        when os.path.exists says the source has no entry of that name. */
    method PruneEntry(n: Name) returns (ok: bool)
      requires source.Valid() && destination.Valid()
      requires source == destination ==> n in source.entries
      modifies destination
      ensures source.Valid() && destination.Valid()
      ensures source.Snap() == old(source.Snap())
      ensures var r := Apply(old(source.Snap()), source == destination, Prune(n), old(destination.Snap()));
        ok == r.Some? && destination.Snap() == if ok then r.value else old(destination.Snap())
    {
      var inSource := PathExists(source, n);
      if inSource {
        return true;
      }
      ok := Remove(destination, n);
    }

    /** A modified-file event: the event is logged and a full pass runs. */
    method OnModified(event: Event) returns (outcome: Outcome)
      requires source.Valid() && destination.Valid()
      modifies destination
      ensures source.Valid() && destination.Valid()
      ensures source.Snap() == old(source.Snap())
      ensures Sync(old(source.Snap()), old(destination.Snap()), source == destination)
              == if outcome == Synced then Done(destination.Snap()) else Aborted(destination.Snap())
      ensures outcome == Synced || outcome == Exit(1)
    {
      outcome := SyncFolders();
    }

    /** A created-file event: the same full pass. */
    method OnCreated(event: Event) returns (outcome: Outcome)
      requires source.Valid() && destination.Valid()
      modifies destination
      ensures source.Valid() && destination.Valid()
      ensures source.Snap() == old(source.Snap())
      ensures Sync(old(source.Snap()), old(destination.Snap()), source == destination)
              == if outcome == Synced then Done(destination.Snap()) else Aborted(destination.Snap())
      ensures outcome == Synced || outcome == Exit(1)
    {
      outcome := SyncFolders();
    }

    /** A deleted-file event: the same full pass. */
    method OnDeleted(event: Event) returns (outcome: Outcome)
      requires source.Valid() && destination.Valid()
      modifies destination
      ensures source.Valid() && destination.Valid()
      ensures source.Snap() == old(source.Snap())
      ensures Sync(old(source.Snap()), old(destination.Snap()), source == destination)
              == if outcome == Synced then Done(destination.Snap()) else Aborted(destination.Snap())
      ensures outcome == Synced || outcome == Exit(1)
    {
      outcome := SyncFolders();
    }
  }

  /** The result of starting the service: refused with an exit status, or a
      handler ready to receive events. */
  datatype Startup = Refused(failure: StartupFailure, status: int) | Watching(handler: ParquetSyncHandler)

  /** Startup: exit with status 1 when a folder is missing, before any
      handler exists or any pass runs; otherwise a new handler on the pair. */
  method Start(source: Folder, destination: Folder) returns (r: Startup)
    ensures r.Refused? <==> !source.present || !destination.present
    ensures r.Refused? ==> r.status == 1 && StartupCheck(source.Snap(), destination.Snap()) == Some(r.failure)
    ensures r.Watching? ==> fresh(r.handler) && r.handler.source == source && r.handler.destination == destination
  {
    var check := StartupCheck(source.Snap(), destination.Snap());
    if check.Some? {
      return Refused(check.value, 1);
    }
    var handler := new ParquetSyncHandler(source, destination);
    r := Watching(handler);
  }
}
