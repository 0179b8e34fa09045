/**
 * The program itself: the two folders and the log file it works on, the
 * `Log` helper, the replica-root provisioning done once at start-up, and
 * `SyncFolders`, whose three `foreach` loops are the methods `Propagate`,
 * `PruneFiles` and `PruneDirectories`. Every method is proved to do what the
 * functions of `SyncPass` describe.
 */
module FolderSync {
  import opened Wrappers
  import opened Paths
  import opened FileSystem
  import opened SyncPass

  /** The exception's message; the platform's exact wording is not modelled. */
  function Reason(sourceRoot: string, replicaRoot: string, e: Failure): string {
    match e
    case NotFound(Source, p) => "Could not find a part of the path '" + Combine(sourceRoot, p) + "'."
    case NotFound(Replica, p) => "Could not find a part of the path '" + Combine(replicaRoot, p) + "'."
    case WrongKind(p) => "The path '" + Combine(replicaRoot, p) + "' is of the wrong kind."
    case Refused(a) => "Access to the path '" + Combine(replicaRoot, Target(a)) + "' is denied."
  }

  function Target(a: Action): Path {
    match a
    case MakeDirectory(d) => d
    case CopyOver(f) => f
    case RemoveFile(f) => f
    case RemoveDirectory(d) => d
  }

  /** The text `Log` is called with for each message. */
  function Text(sourceRoot: string, replicaRoot: string, m: Message): string
  {
    match m
    case CreatedReplicaDirectory => "Created replica directory: " + replicaRoot
    case CreatedDirectory(d) => "Created directory: " + Combine(replicaRoot, d)
    case CopiedFile(f) => "Copied file: " + Combine(sourceRoot, f) + " to " + Combine(replicaRoot, f)
    case DeletedFile(f) => "Deleted file: " + Combine(replicaRoot, f)
    case DeletedDirectory(d) => "Deleted directory: " + Combine(replicaRoot, d)
    case SyncError(e) => "Error during synchronization: " + Reason(sourceRoot, replicaRoot, e)
    case SyncCompleted => "Synchronization completed successfully."
  }

  /** A line that opens with `opening` does not open with words that differ from it at `k`. */
  lemma OpensOtherwise(words: string, opening: string, line: string, k: nat)
    requires opening <= line
    requires k < |words| && k < |opening| && words[k] != opening[k]
    ensures !(words <= line)
  {
    assert line[k] == opening[k];
  }

  /** Whether `line` opens with the words of message kind `m`. */
  predicate OpensAs(line: string, m: Message) {
    match m
    case CreatedReplicaDirectory => "Created replica directory: " <= line
    case CreatedDirectory(_) => "Created directory: " <= line
    case CopiedFile(_) => "Copied file: " <= line
    case DeletedFile(_) => "Deleted file: " <= line
    case DeletedDirectory(_) => "Deleted directory: " <= line
    case SyncError(_) => "Error during synchronization: " <= line
    case SyncCompleted => line == "Synchronization completed successfully."
  }

  /** The line of a `CreatedReplicaDirectory` message opens with its own words and no other's. */
  lemma CreatedReplicaDirectoryOpens(sourceRoot: string, replicaRoot: string, m: Message)
    requires m.CreatedReplicaDirectory?
    ensures forall k: Message :: OpensAs(Text(sourceRoot, replicaRoot, m), k) <==> k.CreatedReplicaDirectory?
  {
    var s := Text(sourceRoot, replicaRoot, m);
    assert "Created replica directory: " <= s;
    OpensOtherwise("Created directory: ", "Created replica directory: ", s, 8);
    OpensOtherwise("Copied file: ", "Created replica directory: ", s, 1);
    OpensOtherwise("Deleted file: ", "Created replica directory: ", s, 0);
    OpensOtherwise("Deleted directory: ", "Created replica directory: ", s, 0);
    OpensOtherwise("Error during synchronization: ", "Created replica directory: ", s, 0);
    assert s != "Synchronization completed successfully." by {
      assert s[0] != "Synchronization completed successfully."[0];
    }
  }

  /** The line of a `CreatedDirectory` message opens with its own words and no other's. */
  lemma CreatedDirectoryOpens(sourceRoot: string, replicaRoot: string, m: Message)
    requires m.CreatedDirectory?
    ensures forall k: Message :: OpensAs(Text(sourceRoot, replicaRoot, m), k) <==> k.CreatedDirectory?
  {
    var s := Text(sourceRoot, replicaRoot, m);
    assert "Created directory: " <= s;
    OpensOtherwise("Created replica directory: ", "Created directory: ", s, 8);
    OpensOtherwise("Copied file: ", "Created directory: ", s, 1);
    OpensOtherwise("Deleted file: ", "Created directory: ", s, 0);
    OpensOtherwise("Deleted directory: ", "Created directory: ", s, 0);
    OpensOtherwise("Error during synchronization: ", "Created directory: ", s, 0);
    assert s != "Synchronization completed successfully." by {
      assert s[0] != "Synchronization completed successfully."[0];
    }
  }

  /** The line of a `CopiedFile` message opens with its own words and no other's. */
  lemma CopiedFileOpens(sourceRoot: string, replicaRoot: string, m: Message)
    requires m.CopiedFile?
    ensures forall k: Message :: OpensAs(Text(sourceRoot, replicaRoot, m), k) <==> k.CopiedFile?
  {
    var s := Text(sourceRoot, replicaRoot, m);
    assert "Copied file: " <= s;
    OpensOtherwise("Created replica directory: ", "Copied file: ", s, 1);
    OpensOtherwise("Created directory: ", "Copied file: ", s, 1);
    OpensOtherwise("Deleted file: ", "Copied file: ", s, 0);
    OpensOtherwise("Deleted directory: ", "Copied file: ", s, 0);
    OpensOtherwise("Error during synchronization: ", "Copied file: ", s, 0);
    assert s != "Synchronization completed successfully." by {
      assert s[0] != "Synchronization completed successfully."[0];
    }
  }

  /** The line of a `DeletedFile` message opens with its own words and no other's. */
  lemma DeletedFileOpens(sourceRoot: string, replicaRoot: string, m: Message)
    requires m.DeletedFile?
    ensures forall k: Message :: OpensAs(Text(sourceRoot, replicaRoot, m), k) <==> k.DeletedFile?
  {
    var s := Text(sourceRoot, replicaRoot, m);
    assert "Deleted file: " <= s;
    OpensOtherwise("Created replica directory: ", "Deleted file: ", s, 0);
    OpensOtherwise("Created directory: ", "Deleted file: ", s, 0);
    OpensOtherwise("Copied file: ", "Deleted file: ", s, 0);
    OpensOtherwise("Deleted directory: ", "Deleted file: ", s, 8);
    OpensOtherwise("Error during synchronization: ", "Deleted file: ", s, 0);
    assert s != "Synchronization completed successfully." by {
      assert s[0] != "Synchronization completed successfully."[0];
    }
  }

  /** The line of a `DeletedDirectory` message opens with its own words and no other's. */
  lemma DeletedDirectoryOpens(sourceRoot: string, replicaRoot: string, m: Message)
    requires m.DeletedDirectory?
    ensures forall k: Message :: OpensAs(Text(sourceRoot, replicaRoot, m), k) <==> k.DeletedDirectory?
  {
    var s := Text(sourceRoot, replicaRoot, m);
    assert "Deleted directory: " <= s;
    OpensOtherwise("Created replica directory: ", "Deleted directory: ", s, 0);
    OpensOtherwise("Created directory: ", "Deleted directory: ", s, 0);
    OpensOtherwise("Copied file: ", "Deleted directory: ", s, 0);
    OpensOtherwise("Deleted file: ", "Deleted directory: ", s, 8);
    OpensOtherwise("Error during synchronization: ", "Deleted directory: ", s, 0);
    assert s != "Synchronization completed successfully." by {
      assert s[0] != "Synchronization completed successfully."[0];
    }
  }

  /** The line of a `SyncError` message opens with its own words and no other's. */
  lemma SyncErrorOpens(sourceRoot: string, replicaRoot: string, m: Message)
    requires m.SyncError?
    ensures forall k: Message :: OpensAs(Text(sourceRoot, replicaRoot, m), k) <==> k.SyncError?
  {
    var s := Text(sourceRoot, replicaRoot, m);
    assert "Error during synchronization: " <= s;
    OpensOtherwise("Created replica directory: ", "Error during synchronization: ", s, 0);
    OpensOtherwise("Created directory: ", "Error during synchronization: ", s, 0);
    OpensOtherwise("Copied file: ", "Error during synchronization: ", s, 0);
    OpensOtherwise("Deleted file: ", "Error during synchronization: ", s, 0);
    OpensOtherwise("Deleted directory: ", "Error during synchronization: ", s, 0);
    assert s != "Synchronization completed successfully." by {
      assert s[0] != "Synchronization completed successfully."[0];
    }
  }

  /** The line of a `SyncCompleted` message opens with its own words and no other's. */
  lemma SyncCompletedOpens(sourceRoot: string, replicaRoot: string, m: Message)
    requires m.SyncCompleted?
    ensures forall k: Message :: OpensAs(Text(sourceRoot, replicaRoot, m), k) <==> k.SyncCompleted?
  {
    var s := Text(sourceRoot, replicaRoot, m);
    assert "Synchronization completed successfully." <= s;
    OpensOtherwise("Created replica directory: ", "Synchronization completed successfully.", s, 0);
    OpensOtherwise("Created directory: ", "Synchronization completed successfully.", s, 0);
    OpensOtherwise("Copied file: ", "Synchronization completed successfully.", s, 0);
    OpensOtherwise("Deleted file: ", "Synchronization completed successfully.", s, 0);
    OpensOtherwise("Deleted directory: ", "Synchronization completed successfully.", s, 0);
    OpensOtherwise("Error during synchronization: ", "Synchronization completed successfully.", s, 0);
  }

  /** Every log line tells which kind of message it records: it opens with that kind's words and no other kind's. */
  lemma TextShowsKind(sourceRoot: string, replicaRoot: string, m: Message, k: Message)
    ensures OpensAs(Text(sourceRoot, replicaRoot, m), k) <==> SameKind(m, k)
  {
    match m
    case CreatedReplicaDirectory => CreatedReplicaDirectoryOpens(sourceRoot, replicaRoot, m);
    case CreatedDirectory(_) => CreatedDirectoryOpens(sourceRoot, replicaRoot, m);
    case CopiedFile(_) => CopiedFileOpens(sourceRoot, replicaRoot, m);
    case DeletedFile(_) => DeletedFileOpens(sourceRoot, replicaRoot, m);
    case DeletedDirectory(_) => DeletedDirectoryOpens(sourceRoot, replicaRoot, m);
    case SyncError(_) => SyncErrorOpens(sourceRoot, replicaRoot, m);
    case SyncCompleted => SyncCompletedOpens(sourceRoot, replicaRoot, m);
  }

  /** Whether two messages are of the same kind, whatever paths or failure they carry. */
  predicate SameKind(m: Message, k: Message) {
    match m
    case CreatedReplicaDirectory => k.CreatedReplicaDirectory?
    case CreatedDirectory(_) => k.CreatedDirectory?
    case CopiedFile(_) => k.CopiedFile?
    case DeletedFile(_) => k.DeletedFile?
    case DeletedDirectory(_) => k.DeletedDirectory?
    case SyncError(_) => k.SyncError?
    case SyncCompleted => k.SyncCompleted?
  }

  /** The enumeration of a snapshot; the order is the platform's and arbitrary here. */
  method Enumerate(paths: set<Path>) returns (s: seq<Path>)
    ensures Lists(s, paths)
  {
    s := [];
    var rest := paths;
    while rest != {}
      invariant rest <= paths
      invariant forall i, j :: 0 <= i < j < |s| ==> s[i] != s[j]
      invariant forall p :: p in s <==> p in paths && p !in rest
      decreases |rest|
    {
      var p :| p in rest;
      s := s + [p];
      rest := rest - {p};
    }
  }

  /**
   * The state the program works on: the source folder, the replica folder and
   * the log file, each as a value the methods reassign. `clock(n)` is the
   * formatted local time at which the log's line number `n` is written.
   */
  class Workspace {
    const sourceRoot: string
    const replicaRoot: string
    const clock: nat -> string
    var source: Tree
    var replica: Tree
    var log: seq<string>

    constructor (sourceRoot: string, replicaRoot: string, clock: nat -> string,
                 source: Tree, replica: Tree, log: seq<string>)
      ensures this.sourceRoot == sourceRoot && this.replicaRoot == replicaRoot && this.clock == clock
      ensures this.source == source && this.replica == replica && this.log == log
    {
      this.sourceRoot := sourceRoot;
      this.replicaRoot := replicaRoot;
      this.clock := clock;
      this.source := source;
      this.replica := replica;
      this.log := log;
    }

    /** The log line written for message `m` when the log already holds `n` lines. */
    function Line(n: nat, m: Message): string {
      clock(n) + " - " + Text(sourceRoot, replicaRoot, m)
    }

    /** The lines written for `events`, the first when the log holds `start` lines. */
    function Lines(start: nat, events: seq<Message>): (lines: seq<string>)
      ensures |lines| == |events|
    {
      seq(|events|, k requires 0 <= k < |events| => Line(start + k, events[k]))
    }

    lemma LinesAppend(start: nat, a: seq<Message>, b: seq<Message>)
      ensures Lines(start, a + b) == Lines(start, a) + Lines(start + |a|, b)
    {
      var whole, parts := Lines(start, a + b), Lines(start, a) + Lines(start + |a|, b);
      forall k | 0 <= k < |whole| ensures whole[k] == parts[k] {
        if k < |a| {
          assert (a + b)[k] == a[k];
        } else {
          assert (a + b)[k] == b[k - |a|];
        }
      }
    }

    /** `Log`: appends one line `<timestamp> - <message>`; earlier lines stay as they were. */
    method Log(message: string)
      modifies this`log
      ensures log == old(log) + [clock(|old(log)|) + " - " + message]
    {
      log := log + [clock(|log|) + " - " + message];
    }

    /** `Main`, lines creating the replica root when it is missing. */
    method ProvisionReplica(refused: set<Action>) returns (failure: Option<Failure>)
      modifies this`replica, this`log
      ensures IsDir(old(replica), []) ==> failure == None && replica == old(replica) && log == old(log)
      ensures !IsDir(old(replica), []) ==>
        match CreateDirectory(old(replica), [], refused)
        case Err(e) => failure == Some(e) && replica == old(replica) && log == old(log)
        case Ok(t) => failure == None && replica == t && log == old(log) + [Line(|old(log)|, CreatedReplicaDirectory)]
      ensures failure == None ==> IsDir(replica, [])
    {
      failure := None;
      if !IsDir(replica, []) {
        var made := CreateDirectory(replica, [], refused);
        if made.Err? {
          failure := Some(made.error);
          return;
        }
        replica := made.value;
        Log("Created replica directory: " + replicaRoot);
      }
    }

    /** The first `if` of a propagate turn: create the target's directory when it is missing. */
    method ProvideDirectory(file: Path, refused: set<Action>) returns (failure: Option<Failure>, ghost events: seq<Message>)
      modifies this`replica, this`log
      ensures MakeParent(old(replica), file, refused) == Trace(replica, events, failure)
      ensures log == old(log) + Lines(|old(log)|, events)
    {
      failure, events := None, [];
      var dir := Parent(file);
      if !IsDir(replica, dir) {
        var made := CreateDirectory(replica, dir, refused);
        if made.Err? {
          failure := Some(made.error);
          return;
        }
        replica := made.value;
        Log("Created directory: " + Combine(replicaRoot, dir));
        assert Text(sourceRoot, replicaRoot, CreatedDirectory(dir)) == "Created directory: " + Combine(replicaRoot, dir);
        SingleLine(|old(log)|, CreatedDirectory(dir));
        events := [CreatedDirectory(dir)];
      }
    }

    /** The second `if` of a propagate turn: copy the file when the replica's copy is missing or older. */
    method CopyIfNewer(file: Path, refused: set<Action>) returns (failure: Option<Failure>, ghost events: seq<Message>)
      modifies this`replica, this`log
      ensures CopyIfStale(source, old(replica), file, refused) == Trace(replica, events, failure)
      ensures log == old(log) + Lines(|old(log)|, events)
    {
      failure, events := None, [];
      if Stale(source, replica, file) {
        var copied := CopyFile(source, replica, file, refused);
        if copied.Err? {
          failure := Some(copied.error);
          return;
        }
        replica := copied.value;
        Log("Copied file: " + Combine(sourceRoot, file) + " to " + Combine(replicaRoot, file));
        assert Text(sourceRoot, replicaRoot, CopiedFile(file))
            == "Copied file: " + Combine(sourceRoot, file) + " to " + Combine(replicaRoot, file);
        SingleLine(|old(log)|, CopiedFile(file));
        events := [CopiedFile(file)];
      }
    }

    /** One turn of the propagate loop: the body of the `foreach` over the source files. */
    method CopyNewer(file: Path, refused: set<Action>) returns (failure: Option<Failure>, ghost events: seq<Message>)
      modifies this`replica, this`log
      ensures CopyStep(source, old(replica), file, refused) == Trace(replica, events, failure)
      ensures log == old(log) + Lines(|old(log)|, events)
    {
      failure, events := ProvideDirectory(file, refused);
      if failure.Some? {
        return;
      }
      ghost var log0 := log;
      ghost var more;
      failure, more := CopyIfNewer(file, refused);
      LogGrows(old(log), log0, log, events, more);
      events := events + more;
    }

    /** The propagate loop over the snapshot `files` of the source. */
    method Propagate(files: seq<Path>, refused: set<Action>) returns (failure: Option<Failure>, ghost events: seq<Message>)
      modifies this`replica, this`log
      ensures Run(Propagating, source, old(replica), files, refused) == Trace(replica, events, failure)
      ensures log == old(log) + Lines(|old(log)|, events)
    {
      failure, events := None, [];
      var i := 0;
      while i < |files|
        invariant 0 <= i <= |files|
        invariant failure == None
        invariant Run(Propagating, source, old(replica), files[..i], refused) == Trace(replica, events, None)
        invariant log == old(log) + Lines(|old(log)|, events)
      {
        RunOneMore(Propagating, source, old(replica), files, i, refused);
        ghost var more;
        ghost var log0 := log;
        failure, more := CopyNewer(files[i], refused);
        LogGrows(old(log), log0, log, events, more);
        events := events + more;
        if failure.Some? {
          RunStopsAtFailure(Propagating, source, old(replica), files, i + 1, refused);
          return;
        }
        i := i + 1;
      }
      assert files[..i] == files;
    }

    /** One turn of the file-pruning loop: delete `file` if the source has no such file. */
    method DeleteOrphan(file: Path, refused: set<Action>) returns (failure: Option<Failure>, ghost events: seq<Message>)
      modifies this`replica, this`log
      ensures PruneFileStep(source, old(replica), file, refused) == Trace(replica, events, failure)
      ensures log == old(log) + Lines(|old(log)|, events)
    {
      failure, events := None, [];
      if !IsFile(source, file) {
        var deleted := DeleteFile(replica, file, refused);
        if deleted.Err? {
          failure := Some(deleted.error);
          return;
        }
        replica := deleted.value;
        Log("Deleted file: " + Combine(replicaRoot, file));
        events := [DeletedFile(file)];
      }
    }

    /** The loop deleting every replica file of the snapshot `files` that has no source file. */
    method PruneFiles(files: seq<Path>, refused: set<Action>) returns (failure: Option<Failure>, ghost events: seq<Message>)
      modifies this`replica, this`log
      ensures Run(PruningFiles, source, old(replica), files, refused) == Trace(replica, events, failure)
      ensures log == old(log) + Lines(|old(log)|, events)
    {
      failure, events := None, [];
      var i := 0;
      while i < |files|
        invariant 0 <= i <= |files|
        invariant failure == None
        invariant Run(PruningFiles, source, old(replica), files[..i], refused) == Trace(replica, events, None)
        invariant log == old(log) + Lines(|old(log)|, events)
      {
        RunOneMore(PruningFiles, source, old(replica), files, i, refused);
        ghost var more;
        ghost var log0 := log;
        failure, more := DeleteOrphan(files[i], refused);
        LogGrows(old(log), log0, log, events, more);
        events := events + more;
        if failure.Some? {
          RunStopsAtFailure(PruningFiles, source, old(replica), files, i + 1, refused);
          return;
        }
        i := i + 1;
      }
      assert files[..i] == files;
    }

    /** One turn of the directory-pruning loop: delete `dir`, recursively, if the source has no such directory. */
    method DeleteStaleDirectory(dir: Path, refused: set<Action>) returns (failure: Option<Failure>, ghost events: seq<Message>)
      modifies this`replica, this`log
      ensures PruneDirectoryStep(source, old(replica), dir, refused) == Trace(replica, events, failure)
      ensures log == old(log) + Lines(|old(log)|, events)
    {
      failure, events := None, [];
      if !IsDir(source, dir) {
        var deleted := DeleteDirectory(replica, dir, refused);
        if deleted.Err? {
          failure := Some(deleted.error);
          return;
        }
        replica := deleted.value;
        Log("Deleted directory: " + Combine(replicaRoot, dir));
        events := [DeletedDirectory(dir)];
      }
    }

    /** The loop deleting, recursively, every replica directory of the snapshot `dirs` that has no source directory. */
    method PruneDirectories(dirs: seq<Path>, refused: set<Action>) returns (failure: Option<Failure>, ghost events: seq<Message>)
      modifies this`replica, this`log
      ensures Run(PruningDirectories, source, old(replica), dirs, refused) == Trace(replica, events, failure)
      ensures log == old(log) + Lines(|old(log)|, events)
    {
      failure, events := None, [];
      var i := 0;
      while i < |dirs|
        invariant 0 <= i <= |dirs|
        invariant failure == None
        invariant Run(PruningDirectories, source, old(replica), dirs[..i], refused) == Trace(replica, events, None)
        invariant log == old(log) + Lines(|old(log)|, events)
      {
        RunOneMore(PruningDirectories, source, old(replica), dirs, i, refused);
        ghost var more;
        ghost var log0 := log;
        failure, more := DeleteStaleDirectory(dirs[i], refused);
        LogGrows(old(log), log0, log, events, more);
        events := events + more;
        if failure.Some? {
          RunStopsAtFailure(PruningDirectories, source, old(replica), dirs, i + 1, refused);
          return;
        }
        i := i + 1;
      }
      assert dirs[..i] == dirs;
    }

    /**
     * The `try` block of `SyncFolders` up to its closing line: the three
     * loops over fresh snapshots, the first exception ending the work. The
     * listings the platform returned are given back for the specification.
     */
    method Attempt(refused: set<Action>) returns (failure: Option<Failure>, ghost events: seq<Message>, ghost listings: Listings)
      modifies this`replica, this`log
      ensures ValidListings(source, old(replica), refused, listings)
      ensures SyncPass.Attempt(source, old(replica), refused, listings) == Trace(replica, events, failure)
      ensures log == old(log) + Lines(|old(log)|, events)
    {
      failure, events := None, [];
      listings := Listings([], [], []);
      if !IsDir(source, []) {
        failure := Some(NotFound(Source, []));
        return;
      }
      var files := Enumerate(FilesOf(source));
      listings := listings.(sourceFiles := files);
      failure, events := Propagate(files, refused);
      if failure.Some? {
        return;
      }
      if !IsDir(replica, []) {
        failure := Some(NotFound(Replica, []));
        return;
      }
      var orphans := Enumerate(FilesOf(replica));
      listings := listings.(replicaFiles := orphans);
      ghost var log1 := log;
      ghost var more;
      failure, more := PruneFiles(orphans, refused);
      LogGrows(old(log), log1, log, events, more);
      events := events + more;
      if failure.Some? {
        return;
      }
      var dirs := Enumerate(DirsOf(replica));
      listings := listings.(replicaDirs := dirs);
      ghost var log2 := log;
      failure, more := PruneDirectories(dirs, refused);
      LogGrows(old(log), log2, log, events, more);
      events := events + more;
    }

    /**
     * `SyncFolders`: one pass. Any failure ends the work of the pass and is
     * logged as one error line; otherwise the pass logs its completion.
     */
    method SyncFolders(refused: set<Action>) returns (outcome: Outcome, ghost listings: Listings)
      modifies this`replica, this`log
      ensures ValidListings(source, old(replica), refused, listings)
      ensures var r := Pass(source, old(replica), refused, listings);
              && replica == r.replica
              && log == old(log) + Lines(|old(log)|, r.events)
              && outcome == OutcomeOf(r)
    {
      var failure: Option<Failure>;
      ghost var events: seq<Message>;
      failure, events, listings := Attempt(refused);
      ghost var log3 := log;
      outcome := LogOutcome(failure);
      SingleLine(|log3|, Closing(failure));
      LogGrows(old(log), log3, log, events, [Closing(failure)]);
    }

    /** The closing line of `SyncFolders`: the completion message, or the error that ended the pass. */
    method LogOutcome(failure: Option<Failure>) returns (outcome: Outcome)
      modifies this`log
      ensures log == old(log) + [Line(|old(log)|, Closing(failure))]
      ensures failure.None? ==> outcome == Completed
      ensures failure.Some? ==> outcome == Failed(failure.value)
    {
      match failure
      case None =>
        Log("Synchronization completed successfully.");
        assert Text(sourceRoot, replicaRoot, SyncCompleted) == "Synchronization completed successfully.";
        outcome := Completed;
      case Some(e) =>
        Log("Error during synchronization: " + Reason(sourceRoot, replicaRoot, e));
        assert Text(sourceRoot, replicaRoot, SyncError(e)) == "Error during synchronization: " + Reason(sourceRoot, replicaRoot, e);
        outcome := Failed(e);
    }

    lemma SingleLine(n: nat, m: Message)
      ensures Lines(n, [m]) == [Line(n, m)]
    {
    }

    /** Two stretches of logging make one. */
    lemma LogGrows(log0: seq<string>, log1: seq<string>, log2: seq<string>, a: seq<Message>, b: seq<Message>)
      requires log1 == log0 + Lines(|log0|, a)
      requires log2 == log1 + Lines(|log1|, b)
      ensures log2 == log0 + Lines(|log0|, a + b)
    {
      var start := |log0|;
      assert |log1| == start + |a|;
      var la, lb := Lines(start, a), Lines(start + |a|, b);
      assert log2 == log0 + la + lb;
      assert log0 + la + lb == log0 + (la + lb);
      LinesAppend(start, a, b);
    }
  }
}
