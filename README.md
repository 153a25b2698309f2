# Parquet mirror service — a Dafny model

This project models the directory-mirroring service of the
pandas-json-to-parquet ETL repository: the `ParquetSyncHandler` class of
`src/parquet_sync.py` and the startup checks that run before it is created.

On every file-system event the handler makes one full resync pass. The pass
lists the source folder and copies each entry over the destination entry of
the same name with `shutil.copy2`. It then lists the destination folder and
removes with `os.remove` every entry whose name the source lacks. Any
exception ends the pass where it happened, leaves behind the work already
done, and calls `sys.exit(1)`. Before any handler exists, startup exits with
status 1 if either folder is missing.

The project has three files:

- `filesystem.dfy` (module `FileSystem`) holds the directories and file
  operations. A directory is a `Snapshot`: whether its path is an existing
  directory, the order its entries are listed in, and each top-level entry
  by name.
  `Folder` is the same directory as an object that changes in place. The
  service uses four operations: list, exists, copy2 and remove. Each one is
  a function on snapshots, and each of list, copy2 and remove returns `None`
  when the operation raises; exists never raises. Each one is also a method
  on folders, proved to do what that function says.
- `parquet_sync.dfy` (module `ParquetSync`) holds the pass. `Sync` is the
  pass as a function of the two directories' contents. `Run` runs a list of
  copy or prune steps and stops at the first step that raises. The
  `ParquetSyncHandler` class holds the two folders. Its methods make the
  pass in place. `SyncFolders` and the three event methods are proved to
  leave the destination exactly as `Sync` says. The loops `CopyEntries` and
  `PruneEntries` are proved against `Run` of their steps, and the loop body
  `PruneEntry` against `Apply` of one step. `Start` models the startup
  checks.
- `sync_properties.dfy` (module `SyncProperties`) holds the lemmas about
  `Sync`:
  - exactly when a pass succeeds;
  - what the destination holds afterwards;
  - idempotence;
  - stopping at the failing step;
  - a missing folder;
  - one folder used as both source and destination.

The handler's docstring (src/parquet_sync.py:32-34) says it synchronizes
files between the source and destination folders. The comment at
src/parquet_sync.py:72 says the second loop removes files from the
destination that no longer exist in the source. Read together, these
suggest that a pass leaves the destination's entries equal to the source's.
The code does not always do that. With `shutil.copy2`, copying file `n`
onto a destination *subdirectory* named `n` puts the copy inside that
subdirectory. The top-level destination entry `n` therefore stays a
directory, and the second loop does not remove it, because the source has
that name. `SyncMirrors` states what the code does in general.
`SyncMakesDestinationEqualSource` proves the equality under the one extra
condition it needs: no destination subdirectory shares a name with a source
file.

## Model

| member | source | states |
|---|---|---|
| FileSystem.Listing | src/parquet_sync.py:67 | os.listdir succeeds exactly when the directory exists, and then lists every entry once and nothing else |
| FileSystem.ListDir | src/parquet_sync.py:67 | listing a folder object gives what `Listing` gives for its contents: present exactly when the folder exists, each entry named once |
| FileSystem.PathExists | src/parquet_sync.py:76 | os.path.exists on a source entry is true exactly when the folder has an entry of that name, which is the `Exists` test that the prune step uses |
| FileSystem.Copy2Result | src/parquet_sync.py:68-70 | copy2 raises exactly when the two folders are one, the source entry is missing or a directory, the destination folder is missing, or a destination subdirectory `n` already holds a directory `n` (see "## Left out"). Otherwise the destination still exists and stays well formed, entry `n` holds the source's entry (a destination subdirectory `n` stays as it was, with the copy inside it), and every other entry is untouched |
| FileSystem.Copy2 | src/parquet_sync.py:68-70 | copy2 in place: reports failure exactly when `Copy2Result` raises, changes nothing then, and otherwise leaves the destination as `Copy2Result` says; the destination stays well formed |
| FileSystem.RemoveResult | src/parquet_sync.py:77 | os.remove succeeds exactly when the name is a file of the folder; the name is then gone, every other entry is unchanged, and the folder stays well formed |
| FileSystem.Remove | src/parquet_sync.py:77 | os.remove in place: reports failure exactly when `RemoveResult` raises, changes nothing then, and otherwise removes the entry and keeps the folder well formed |
| FileSystem.Put | src/parquet_sync.py:70 | after a copy the destination holds the new entry under its name and every other entry unchanged |
| FileSystem.Drop | src/parquet_sync.py:77 | after a removal the name is gone and every other entry is unchanged |
| FileSystem.Without | src/parquet_sync.py:77 | the listing after a removal holds exactly the other names, still without repeats |
| ParquetSync.AbortIsFinal | src/parquet_sync.py:65-93 | once a step raises, no later step runs: the pass stays aborted with the destination as the failing step found it |
| ParquetSync.StartupCheck | src/parquet_sync.py:111-118 | startup fails exactly when a folder is missing, and checks the source before the destination |
| ParquetSync.Start | src/parquet_sync.py:111-121 | startup exits with status 1 exactly when a folder is missing, before any handler exists; otherwise a new handler holds the two folders |
| ParquetSync.ParquetSyncHandler.constructor | src/parquet_sync.py:35-44 | the handler stores the source and destination folders it is given |
| ParquetSync.ParquetSyncHandler.SyncFolders | src/parquet_sync.py:61-93 | one pass in place: the source is unchanged, the destination ends as `Sync` says, and the outcome is a success or an exit with status 1, the exit exactly when `Sync` aborts |
| ParquetSync.ParquetSyncHandler.CopyEntries | src/parquet_sync.py:67-70 | the copy loop leaves the destination as running the copy steps over the source listing says, and reports failure exactly when one raised |
| ParquetSync.ParquetSyncHandler.PruneEntries | src/parquet_sync.py:73-77 | the delete loop leaves the destination as running the prune steps over the destination listing says, and reports failure exactly when one raised |
| ParquetSync.ParquetSyncHandler.PruneEntry | src/parquet_sync.py:74-77 | one name of the delete loop: nothing happens when the source has that name, otherwise os.remove runs on the destination entry |
| ParquetSync.ParquetSyncHandler.OnModified | src/parquet_sync.py:46-49 | a modified event makes the same full pass as `SyncFolders`, whatever the event |
| ParquetSync.ParquetSyncHandler.OnCreated | src/parquet_sync.py:51-54 | a created event makes the same full pass as `SyncFolders`, whatever the event |
| ParquetSync.ParquetSyncHandler.OnDeleted | src/parquet_sync.py:56-59 | a deleted event makes the same full pass as `SyncFolders`, whatever the event |
| SyncProperties.AbortedAtFailingStep | src/parquet_sync.py:65-93 | an aborted pass stopped at some step that raised; the steps before it all completed and were not undone |
| SyncProperties.RunOfNoOps | src/parquet_sync.py:67-77 | steps that each leave the destination as it is make a run that completes and changes nothing |
| SyncProperties.RunFailingFirst | src/parquet_sync.py:67-70 | when the first copy raises, the pass ends at once with the destination unchanged |
| SyncProperties.CopyStep | src/parquet_sync.py:68-70 | one more copy succeeds exactly when all copies so far could be made and this one can, and then that name is copied too |
| SyncProperties.CopyPhase | src/parquet_sync.py:67-70 | after k copies the loop is still running exactly when those copies could be made; each copied name then holds the source's entry (or keeps a subdirectory), and every other entry is untouched |
| SyncProperties.PruneStep | src/parquet_sync.py:74-77 | one more listed name succeeds exactly when removing it is possible (or not needed), and then it is gone if the source lacks it |
| SyncProperties.PrunePhase | src/parquet_sync.py:73-77 | after k listed names the loop is still running exactly when each of them that the source lacks is a file; those files are then gone and everything else is untouched |
| SyncProperties.CopyWholeListing | src/parquet_sync.py:67-70 | the copy loop over the whole source listing: success condition and resulting destination |
| SyncProperties.PruneWholeListing | src/parquet_sync.py:73-77 | the delete loop over the whole destination listing: success condition and resulting destination |
| SyncProperties.CopiesSucceedOnListing | src/parquet_sync.py:67-70 | copying the whole source succeeds exactly when the source is empty, or it holds only files and is copied into a distinct existing folder |
| SyncProperties.PrunesAfterCopies | src/parquet_sync.py:73-77 | after the copies, the delete loop can succeed exactly when every original destination entry that the source lacks is a file |
| SyncProperties.MirrorConditions | src/parquet_sync.py:65-93 | the success condition of a whole pass is the copy loop's condition plus an existing destination in which every entry the source lacks is a file |
| SyncProperties.SucceedsOnlyIfMirrorable | src/parquet_sync.py:65-93 | a pass that succeeds had folders that allow it |
| SyncProperties.SucceedsIfMirrorable | src/parquet_sync.py:65-93 | folders that allow a pass make it succeed |
| SyncProperties.SyncSucceedsIff | src/parquet_sync.py:65-93 | a pass succeeds exactly when all of the following hold: both folders exist; they are distinct unless the source is empty; the source holds only files; no copy is blocked by a directory inside a destination subdirectory; every destination entry to delete is a file. This covers the failure causes the model has (see the `FileSystem.Copy2Result` line under "## Left out") |
| SyncProperties.SyncMirrors | src/parquet_sync.py:65-80 | after a successful pass the destination holds exactly the source's names; each holds the source's content, except that a destination subdirectory of that name remains |
| SyncProperties.SyncMakesDestinationEqualSource | src/parquet_sync.py:65-80 | when no destination subdirectory shares a name with a source entry, a successful pass leaves the destination's entries equal to the source's |
| SyncProperties.CopiesAreNoOps | src/parquet_sync.py:67-70 | copying the source onto a destination that already mirrors it changes nothing |
| SyncProperties.PrunesAreNoOps | src/parquet_sync.py:73-77 | when the destination has no names the source lacks, the delete loop changes nothing |
| SyncProperties.SyncIdempotent | src/parquet_sync.py:61-80 | a second pass over an unchanged source succeeds and leaves the destination exactly as the first pass did |
| SyncProperties.MissingFolderAborts | src/parquet_sync.py:82-85 | when either folder is missing, a pass aborts at once with the destination unchanged |
| SyncProperties.SameFolderUnchanged | src/parquet_sync.py:67-70 | when source and destination are one folder, a pass changes nothing, and succeeds exactly when that folder exists and is empty |

## Left out

- The watchdog `Observer`, its background thread and the busy-wait loop of
  the main program (src/parquet_sync.py:122-132). A notification reaches
  the model as a call of `OnModified`, `OnCreated` or `OnDeleted`. Nothing
  about the order or concurrency of notifications is modelled.
- `sys.exit(1)` is the result `Exit(1)`. In the real process it raises
  `SystemExit` on the thread that runs the pass. The effect of that on the
  rest of the process (threads, the observer) is not modelled.
- Logging: the debug records of the event methods, the "Synchronized"
  record, and the three error records that print the exception. The three
  `except` branches differ only in their message and all exit with status
  1. The model therefore does not tell the exception types apart.
- Configuration and lifecycle: `.env` and environment variables, argument
  parsing, `debug_print_paths`, `setup_logging`, and the signal handlers of
  `src/common_utils.py`. The converter `src/json_to_parquet.py` is a
  separate program. None of these is part of this model.
- Failure causes: copy2 raises when source and destination are one folder,
  when the source folder or entry is missing, when the source entry is a
  directory, and when the destination folder is missing. os.remove raises
  for a missing name or a directory. Permission errors, a full disk,
  special files and symbolic links are not modelled as separate causes.
  Neither is a file that changes on disk during a pass.
- A folder path that exists but is not a directory (a regular file, say).
  Its `os.path.exists` check at startup would pass, and every pass would
  then raise at `os.listdir` and exit with status 1. Here a folder either
  is an existing directory or is missing, so startup refuses exactly the
  missing ones.
- Folder identity is object identity. Two distinct `Folder` objects always
  stand for distinct directories, so two different paths that name one
  directory are not modelled.
- copy2 also copies file metadata (modification times and permission
  bits). The model copies only the bytes.
- FileSystem.Copy2Result: copy2 of file `n` onto a destination
  subdirectory `n` writes `n/n` inside it. It raises when that subdirectory
  already holds a directory `n`; the model has this case. It is assumed to
  succeed in every other case. A subdirectory that cannot be written, or
  one whose `n` is a special file, is not modelled.
- A subdirectory is modelled only by the names of the directories inside
  it. Its files and deeper levels are not modelled, so a copy into it
  changes nothing the model records.
- The order of `os.listdir` is the order the folder stores its names in.
  None of the proved properties depends on that order.
- The file bytes are a sequence of bytes. Parquet content is never
  interpreted.
