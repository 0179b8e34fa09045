# FolderSync in Dafny

FolderSync keeps a replica folder a one-way copy of a source folder. It runs
one synchronization pass at start-up and then one per timer tick. Every
action goes to a log file as a line `<timestamp> - <message>`. A pass:

- copies each source file that is missing from the replica, or newer than
  the replica's copy, creating its directory in the replica first when needed;
- deletes each replica file the source does not have;
- deletes, recursively, each replica directory the source does not have;
- logs its completion. If any of these raises an exception, the pass stops
  there and logs one error line instead.

This project models that core of `Program.cs`:

- `SyncFolders`;
- the `Log` helper;
- the start-up step of `Main` that creates a missing replica root.

It proves what a pass does to the replica and to the log.

## Structure

- `paths.dfy` (`Paths`) models a path inside a folder as the sequence of names
  from the folder's root, where `[]` is the root itself.
  - "The same relative path" under the source and under the replica is then
    the same value. Names compare exactly: the model is a case-sensitive file
    system without Unicode normalisation (see "Left out").
  - `Path.GetDirectoryName` is `Parent`.
  - `Path.Combine` is `Combine`.
- `file_system.dfy` (`FileSystem`) models a folder as a `Tree`: a map from
  paths to entries.
  - An entry is `File(mtime, content)` or `Dir`.
  - The four calls that change the replica (`Directory.CreateDirectory`,
    `File.Copy`, `File.Delete`, `Directory.Delete`) are total functions
    returning a `Result`. The error cases are the exceptions those calls
    raise: not found, wrong kind of entry, or refused.
  - A listing (`Directory.GetFiles`, `Directory.GetDirectories`) fails only
    when its root is missing; see "Left out".
  - `refused` is the set of operations the platform refuses during the pass,
    for example for lack of permission.
- `sync_pass.dfy` (`SyncPass`) is the specification of a pass, as functions:
  - one turn of each of the three loops (`CopyStep`, `PruneFileStep`,
    `PruneDirectoryStep`);
  - a loop over a snapshot (`Run`), where the first failure ends the loop;
  - the work of the `try` block (`Attempt`), the closing line (`Finish`) and
    a whole pass (`Pass`).
- `folder_sync.dfy` (`FolderSync`) is the program.
  - The class `Workspace` holds the two folders and the log file as fields
    that its methods reassign.
  - `Log`, `ProvisionReplica` and `SyncFolders` are methods. Each of the three
    `foreach` loops is a method with a `while` loop (`Propagate`,
    `PruneFiles`, `PruneDirectories`), and its body is a method of its own
    (`CopyNewer`, `DeleteOrphan`, `DeleteStaleDirectory`). The propagate
    turn is split once more, into its two `if` statements (`ProvideDirectory`,
    `CopyIfNewer`). `Attempt` is the `try` block, and `LogOutcome` writes the
    closing line.
  - Each method is proved to leave the replica and the log exactly as the
    specification function of `SyncPass` says.
  - The order in which the platform enumerates a folder is not known, so
    `Enumerate` picks an arbitrary duplicate-free listing. `SyncFolders`
    gives back the listings it used as a ghost out-parameter, and
    `ValidListings` states that they are true snapshots. Every property below
    holds for every enumeration order.
- `propagate_properties.dfy`, `prune_properties.dfy`, `pass_properties.dfy` and
  `scenarios.dfy` prove what the loops, a whole pass and a few particular
  situations do.

## Model

| member | source | states |
|---|---|---|
| `Paths.Parent` | Program.cs:76 | The directory holding a non-root path is that path minus its last name, and it is an ancestor of the path. |
| `Paths.Combine` | Program.cs:73 | Joining a root and a relative path yields a string that starts with the root. |
| `FileSystem.CreateDirectory` | Program.cs:79 | Directory creation succeeds exactly when neither the path nor any of its ancestors is a file and it is not refused. On success the path is a directory, no earlier entry changes, and every new entry is a directory on the way to the path. |
| `FileSystem.CopyFile` | Program.cs:87 | An overwriting copy succeeds exactly when the source file exists, the target's directory exists, the target is not a directory and the copy is not refused. On success the target holds the source's file, last-write time included, and nothing else changes. |
| `FileSystem.DeleteFile` | Program.cs:100 | File deletion fails only on a directory or when refused. A missing file is no error. On success exactly that path is gone. |
| `FileSystem.DeleteDirectory` | Program.cs:113 | Recursive deletion succeeds exactly when the path is a directory and the deletion is not refused. A missing directory gives "not found". On success exactly the subtree is gone. |
| `FileSystem.AncestorIsDir` | Program.cs:76-79 | In a real tree, every ancestor of an entry is a directory. |
| `FileSystem.CreateDirectoryKeepsWellFormed` | Program.cs:79 | Creating a directory keeps the tree real: every entry's parent is a directory. |
| `FileSystem.CopyFileKeepsWellFormed` | Program.cs:87 | Copying a file keeps the tree real. |
| `FileSystem.DeleteFileKeepsWellFormed` | Program.cs:100 | Deleting a file keeps the tree real. |
| `FileSystem.DeleteDirectoryKeepsWellFormed` | Program.cs:113 | Deleting a directory with its subtree keeps the tree real. |
| `SyncPass.StaleMeans` | Program.cs:84-85 | All three cases of the copy test `Stale`: a file the replica lacks is copied; a replica file strictly older than the source's is copied; a replica file that is present and not older is kept, so an exact copy of the source's file is never copied again. |
| `SyncPass.RunStopsAtFailure` | Program.cs:67-120 | Once a turn raises, no later turn of the loop does anything. |
| `FolderSync.TextShowsKind` | Program.cs:46-122 | The text of each log message opens with the wording the code gives it ("Created directory: ", "Copied file: ", "Deleted file: ", …, "Synchronization completed successfully."). Every line opens with its own kind's words and with no other kind's, so a line tells which kind of message it records. |
| `FolderSync.Enumerate` | Program.cs:70-106 | A snapshot lists every path of the folder exactly once, in an arbitrary order. The method stands for all three listings, at Program.cs:70 (source files), 93 (replica files) and 106 (replica directories). |
| `FolderSync.Workspace.Log` | Program.cs:127-133 | The log gains exactly one line, `<timestamp> - <message>`, and the earlier lines stay as they were. |
| `FolderSync.Workspace.ProvisionReplica` | Program.cs:43-47 | A replica root that exists is left alone and nothing is logged. A missing root is created and logged once. If creation throws, the replica and the log are unchanged. If no failure is reported, the root exists. |
| `FolderSync.Workspace.ProvideDirectory` | Program.cs:75-81 | The replica directory of a source file is created and logged exactly as `MakeParent` says: nothing when it exists, one "created" line when it was missing and creation goes through, and no change with the exception when creation throws. |
| `FolderSync.Workspace.CopyIfNewer` | Program.cs:83-89 | The copy is made and logged exactly as `CopyIfStale` says: nothing when the replica's copy is present and not older, one "copied" line when the copy goes through, and no change with the exception when the copy throws. |
| `FolderSync.Workspace.CopyNewer` | Program.cs:72-89 | One propagate turn changes the replica and the log exactly as `CopyStep` says, one log line per message. |
| `FolderSync.Workspace.Propagate` | Program.cs:70-90 | The propagate loop leaves the replica and the log exactly as the specification of the loop over the same snapshot says. |
| `FolderSync.Workspace.DeleteOrphan` | Program.cs:95-102 | One file-pruning turn matches `PruneFileStep`. |
| `FolderSync.Workspace.PruneFiles` | Program.cs:93-103 | The file-pruning loop matches its specification over the same snapshot. |
| `FolderSync.Workspace.DeleteStaleDirectory` | Program.cs:108-115 | One directory-pruning turn matches `PruneDirectoryStep`. |
| `FolderSync.Workspace.PruneDirectories` | Program.cs:106-116 | The directory-pruning loop matches its specification over the same snapshot. |
| `FolderSync.Workspace.Attempt` | Program.cs:67-117 | The `try` block enumerates true snapshots, each taken after the loops before it. It leaves the replica and the log as `SyncPass.Attempt` says. |
| `FolderSync.Workspace.LogOutcome` | Program.cs:118-123 | The log gains exactly one line: the completion message when nothing failed, otherwise the error that ended the pass. The outcome reports that same failure. |
| `FolderSync.Workspace.SyncFolders` | Program.cs:65-124 | A pass leaves the replica as `Pass` says for the listings it took. The log gains exactly the pass's lines, each stamped in turn. The outcome is the failure the closing line reports, if any. |
| `PropagateProperties.CopyStepDecision` | Program.cs:76-89 | A turn that does not fail creates and logs the directory exactly when it is missing. It copies and logs the file exactly when the replica's copy is missing or strictly older, and otherwise keeps the replica's file. |
| `PropagateProperties.PropagatedStep` | Program.cs:70-90 | One more successful turn keeps the loop's invariant: visited files hold the right copy, unvisited entries are untouched, new entries are source files or source directories, and the log matches. |
| `PropagateProperties.PropagateInvariant` | Program.cs:70-90 | Every prefix of the propagate loop that has not failed satisfies that invariant. |
| `PropagateProperties.PropagateLogsOnce` | Program.cs:70-90 | A propagate loop that does not fail logs no line twice. Each copy line names a listed file. Each created directory is a source directory that the replica still has at the end. |
| `PropagateProperties.LoggedOnceGrows` | Program.cs:76-89 | One more turn that does not fail keeps that property: it copies a file not copied before and creates only a directory that was missing. |
| `PropagateProperties.PropagateEffect` | Program.cs:70-90 | A propagate loop that does not fail leaves every source file in the replica, none older than the source's. A file is copied exactly when it was missing or older, and the loop logs one line for each copy and no line twice. Other entries are untouched. |
| `PruneProperties.PruneFileStepEffect` | Program.cs:98-102 | A file-pruning turn fails exactly when it must delete and the deletion is refused. It deletes and logs exactly when the source lacks the file. |
| `PruneProperties.PruneFilesInvariant` | Program.cs:93-103 | The first k turns fail exactly when one of them must delete a refused orphan. If they succeed, exactly the visited orphans are gone and logged. |
| `PruneProperties.PruneLogsOnce` | Program.cs:93-116 | Each line a pruning loop logs is the deletion line of a listed entry. Because the listing names each entry once, no line is logged twice, whether the loop fails or not. |
| `PruneProperties.PruneFilesEffect` | Program.cs:93-103 | The whole file-pruning loop fails exactly when some orphan's deletion is refused. Otherwise it removes exactly the orphan files, logs each one once, and changes nothing else. No line repeats in either case. |
| `PruneProperties.PruneDirectoryStepEffect` | Program.cs:111-115 | A directory-pruning turn gives "not found" for a directory already gone and "refused" for a refused deletion. Otherwise it deletes the subtree and logs it. |
| `PruneProperties.DirectoryTurn` | Program.cs:106-116 | The next directory turn succeeds exactly when the source has the directory, or no earlier turn deleted it and its deletion is not refused. It says which error a failure gives. |
| `PruneProperties.PruneDirectoriesInvariant` | Program.cs:106-116 | The first k directory turns succeed exactly when each of them succeeds. If they do, exactly what lies inside a visited stale directory is gone. |
| `PruneProperties.PruneDirectoriesEffect` | Program.cs:106-116 | A directory-pruning loop that does not fail removes exactly what lies inside a replica directory the source lacks. It logs each of those directories once and changes nothing else. Failing or not, it logs no line twice. |
| `PruneProperties.NestedStaleDirectoryFails` | Program.cs:106-116 | If a stale directory is listed before a directory inside it, the loop fails. If every earlier turn went through, the error is "not found" on the inner directory. |
| `PassProperties.StepKeepsWellFormed` | Program.cs:76-115 | Any turn, failed or not, leaves a real tree real. |
| `PassProperties.RunKeepsWellFormed` | Program.cs:70-116 | Any loop, failed or not, leaves a real tree real. |
| `PassProperties.PassKeepsWellFormed` | Program.cs:65-124 | Whatever fails, a pass leaves the replica a real tree. |
| `PassProperties.RunLogsTurnMessages` | Program.cs:80-114 | The loops log only "created", "copied" and "deleted" lines. |
| `PassProperties.PassEndsWithOutcome` | Program.cs:118-123 | Every pass logs exactly one closing line, and it is the last one: the error that ended the pass, or the completion message. |
| `PassProperties.CompletedPassConverges` | Program.cs:65-118 | After a completed pass the replica root is a directory. The replica has exactly the source's files, none older than the source's, and no directory the source lacks. |
| `PassProperties.ConvergedPassIsQuiet` | Program.cs:65-118 | A pass over a real replica already in step with the source does nothing and logs only its completion, whatever the enumeration order and whatever would be refused. |
| `PassProperties.QuietPropagate` | Program.cs:70-90 | Over a real replica in step with the source, the propagate loop creates nothing, copies nothing and logs nothing. |
| `PassProperties.QuietPruneFiles` | Program.cs:93-103 | Over a replica in step with the source, the file-pruning loop deletes nothing and logs nothing. |
| `PassProperties.QuietPruneDirectories` | Program.cs:106-116 | Over a replica in step with the source, the directory-pruning loop deletes nothing and logs nothing. |
| `PassProperties.SecondPassIsQuiet` | Program.cs:49-53 | With the source unchanged, the pass after a completed pass changes nothing and logs only its completion. |
| `Scenarios.CopyOntoDirectoryFails` | Program.cs:84-87 | A source file at a path the replica holds as a directory makes its turn fail, and the directory stays. |
| `Scenarios.FileOverDirectoryKeepsFailing` | Program.cs:70-90 | A source file over a replica directory makes the pass fail and leaves the directory in place. Applied again to the pass's result, it shows that every later pass fails too, as long as the source keeps the file. |
| `Scenarios.DirectoryOverFileKeepsFailing` | Program.cs:76-81 | In real trees, a replica file `d` where the source has a file `g` strictly below `d`: creating the directory for `g` throws "wrong kind", so the pass fails, for every listing order. The file `d` is still there afterwards, unchanged. Applied again to the pass's result, it shows that every later pass fails too, as long as the source keeps `g`. |
| `Scenarios.EmptySourceDirectoryIsNotMirrored` | Program.cs:70-81 | A source directory holding no file is never created in the replica, yet the pass completes. |
| `Scenarios.NestedPruneRun` | Program.cs:106-116 | Over the listing `n`, `n/m` of a replica holding just those two directories, the directory loop deletes `n` with one line and then fails with "not found" on `n/m`. |
| `Scenarios.NestedStaleDirectoriesFailOnce` | Program.cs:106-116 | Deleting `old` also removes `old/sub`, so that turn then throws "not found" and the pass fails. The pass after it completes. |
| `Scenarios.NestedPairsFailInTurn` | Program.cs:106-116 | With stale `a`, `a/x`, `b` and `b/y` listed in that order, the first pass deletes `a`, fails on `a/x` and leaves `b` and `b/y`. The next pass, listing `b` before `b/y`, fails on `b/y`. Two consecutive passes both fail. |

## How the code behaves where one might expect otherwise

The properties are stated for the code as written.

- **Nested stale directories.** The directory listing is taken before any
  deletion. When it lists a stale directory before a directory inside it,
  the first `Directory.Delete` removes both. The second then throws "not
  found", and the pass ends with an error line. It is not skipped
  (`NestedStaleDirectoryFails`). The failing turn ends the loop, so stale
  directories listed after it stay until a later pass; with several nested
  pairs, consecutive passes can fail one after another
  (`NestedPairsFailInTurn`). In the example of a
  single stale directory `old` holding `old/sub`, the replica is left pruned,
  and the next pass completes (`NestedStaleDirectoriesFailOnce`).
- **Empty source directories.** Only directories that hold a copied file
  are created in the replica. A completed pass makes the file sets equal
  and keeps no directory the source lacks, but it does not create the
  source's empty directories (`CompletedPassConverges`,
  `EmptySourceDirectoryIsNotMirrored`).
- **A source file where the replica has a directory.** `File.Exists` is
  false for a directory, so the file counts as stale, and `File.Copy`
  throws. The directory-pruning loop never runs for it, so the pass fails and
  the directory stays. Every later pass fails too, until the source changes
  (`FileOverDirectoryKeepsFailing`).
- **A replica file where the source has a directory.** For a source file
  `a/b`, `Directory.Exists` is false for the replica file `a`, and
  `Directory.CreateDirectory` throws. The pass fails in the propagate loop
  before the file-pruning loop could delete `a`. Files listed before `a/b`
  may still have been copied, but the replica file `a` stays unchanged, so
  every later pass fails too until the source changes
  (`DirectoryOverFileKeepsFailing`).
- **Timestamps.** A file is copied only when the replica's copy is missing
  or strictly older. A replica file that is newer, or of equal age with
  other content, is kept (`CopyStepDecision`).

## Left out

- Argument parsing, the console messages and the source-root check of
  `Main` (Program.cs:14-40): input validation and output only. A missing
  source root during a pass is modelled, as the "not found" failure of the
  first listing.
- The timer, and starting `SyncFolders` from timer callbacks
  (Program.cs:51-62): there is no concurrency here. Each pass is one call,
  and `SecondPassIsQuiet` relates consecutive calls. Overlapping passes are
  not modelled.
- `DateTime.Now` and its formatting: the timestamp of the line written when
  the log holds n lines is `clock(n)`, a parameter of the workspace.
- The exact wording of platform exception messages: `Reason` gives a fixed
  text per kind of failure.
- The console copy of each log line, and failures of `File.AppendAllText`
  itself: the log is a sequence of lines.
- Partial effects of a failing platform call, for example a recursive delete
  that removes part of a subtree and then throws: each call either takes
  full effect or fails with no effect.
- Changes to either folder made by other programs during a pass: the only
  changes are the program's own.
- The directory separator: `Combine` joins names with `/`.
- Case-insensitive file systems and Unicode normalisation. Names compare
  exactly, so the model describes a case-sensitive file system. On the
  default file systems of Windows and macOS, `File.Exists` and
  `Directory.Exists` (Program.cs:84, 98, 111) also match names that differ
  only in case or normalisation: a source `Readme.txt` and a replica
  `README.txt` are one file there, while the model copies `Readme.txt` as a
  new file and then deletes `README.txt`. `CompletedPassConverges` and the
  other properties hold as stated only on a case-sensitive file system.
- Listing failures other than a missing root. `Directory.GetFiles` and
  `Directory.GetDirectories` with `AllDirectories` (Program.cs:70, 93, 106)
  also throw `UnauthorizedAccessException` or `IOException` when a
  subdirectory cannot be read, and the pass then ends with an error line.
  Here a listing always succeeds once its root exists, and `refused` names
  only the four calls that change the replica.
- Folders that overlap. The model keeps the source, the replica and the log
  file apart. If the log file lies inside the replica, the file-pruning loop
  deletes it, and `Log`'s promise that earlier lines stay does not hold. If
  the replica lies inside the source, or the source inside the replica, the
  loops copy or delete parts of the folder they are reading. None of this is
  modelled.
- File contents are carried along but never compared, as in the code.
- ProvisionReplica: returns the failure of `Directory.CreateDirectory` as a
  value. `Main` (Program.cs:43-47) has no `try`, so there the exception
  ends the process before any pass runs and before any line is logged. The
  model does not model the process ending; what a caller does with the
  returned failure is outside it.
- Symbolic links and other special entries. An entry is a file or a
  directory. On the platform, `Directory.GetFiles` and
  `Directory.GetDirectories` with `AllDirectories` list a link as the kind
  it points to and follow directory links. A linked directory is then
  walked as if its contents lay in the folder, and a cycle of links makes
  the listing throw. None of this is modelled.
