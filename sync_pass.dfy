/**
 * One synchronization pass as a function of the two trees, the listings the
 * platform returned and the operations it refused. The pass runs three loops
 * in turn: propagate every source file, prune replica files that have no
 * source file, prune replica directories that have no source directory. The
 * first failing primitive aborts the pass; the pass then ends with one error
 * message, otherwise with the completion message.
 */
module SyncPass {
  import opened Wrappers
  import opened Paths
  import opened FileSystem

  /** What one call of `Log` reports; paths are relative to their folder's root. */
  datatype Message =
    | CreatedReplicaDirectory
    | CreatedDirectory(dir: Path)
    | CopiedFile(file: Path)
    | DeletedFile(file: Path)
    | DeletedDirectory(dir: Path)
    | SyncError(failure: Failure)
    | SyncCompleted

  /** The three loops of a pass. */
  datatype Phase = Propagating | PruningFiles | PruningDirectories

  /** The replica so far, the messages logged so far and the failure that stopped the work, if any. */
  datatype Trace = Trace(replica: Tree, events: seq<Message>, failure: Option<Failure>)

  /** The three snapshots a pass enumerates, in the order the platform returned them. */
  datatype Listings = Listings(sourceFiles: seq<Path>, replicaFiles: seq<Path>, replicaDirs: seq<Path>)

  /** The pass's result, in place of the exception caught at its end. */
  datatype Outcome = Completed | Failed(reason: Failure)

  /**
   * The copy test: the replica file is missing, or the source file's last-write
   * time is strictly later. (For a source path that is not a file the platform
   * reports the earliest possible time, which is never later.)
   */
  predicate Stale(source: Tree, t: Tree, file: Path) {
    !IsFile(t, file) || (IsFile(source, file) && source[file].mtime > t[file].mtime)
  }

  /**
   * The copy test copies a file the replica lacks or holds strictly older,
   * and keeps a replica file that is present and not older than the source's,
   * an exact copy in particular.
   */
  lemma StaleMeans(source: Tree, t: Tree, file: Path)
    requires IsFile(source, file)
    ensures !IsFile(t, file) ==> Stale(source, t, file)
    ensures IsFile(t, file) && t[file].mtime < source[file].mtime ==> Stale(source, t, file)
    ensures IsFile(t, file) && t[file].mtime >= source[file].mtime ==> !Stale(source, t, file)
    ensures IsFile(t, file) && t[file] == source[file] ==> !Stale(source, t, file)
  {
  }

  /** The first half of a propagate turn: create the target's directory if it is missing. */
  function MakeParent(t: Tree, file: Path, refused: set<Action>): Trace {
    var dir := Parent(file);
    if IsDir(t, dir) then Trace(t, [], None)
    else
      match CreateDirectory(t, dir, refused)
      case Err(e) => Trace(t, [], Some(e))
      case Ok(t1) => Trace(t1, [CreatedDirectory(dir)], None)
  }

  /** The second half of a propagate turn: copy the file if the replica's copy is missing or older. */
  function CopyIfStale(source: Tree, t: Tree, file: Path, refused: set<Action>): Trace {
    if !Stale(source, t, file) then Trace(t, [], None)
    else
      match CopyFile(source, t, file, refused)
      case Err(e) => Trace(t, [], Some(e))
      case Ok(t1) => Trace(t1, [CopiedFile(file)], None)
  }

  /** One turn of the propagate loop: ensure the target's directory, then copy if stale. */
  function CopyStep(source: Tree, t: Tree, file: Path, refused: set<Action>): Trace {
    var made := MakeParent(t, file, refused);
    if made.failure.Some? then made
    else
      var copied := CopyIfStale(source, made.replica, file, refused);
      Trace(copied.replica, made.events + copied.events, copied.failure)
  }

  /** One turn of the file-pruning loop. */
  function PruneFileStep(source: Tree, t: Tree, file: Path, refused: set<Action>): Trace {
    if IsFile(source, file) then Trace(t, [], None)
    else
      match DeleteFile(t, file, refused)
      case Err(e) => Trace(t, [], Some(e))
      case Ok(t1) => Trace(t1, [DeletedFile(file)], None)
  }

  /** One turn of the directory-pruning loop. */
  function PruneDirectoryStep(source: Tree, t: Tree, dir: Path, refused: set<Action>): Trace {
    if IsDir(source, dir) then Trace(t, [], None)
    else
      match DeleteDirectory(t, dir, refused)
      case Err(e) => Trace(t, [], Some(e))
      case Ok(t1) => Trace(t1, [DeletedDirectory(dir)], None)
  }

  function Step(phase: Phase, source: Tree, t: Tree, item: Path, refused: set<Action>): Trace {
    match phase
    case Propagating => CopyStep(source, t, item, refused)
    case PruningFiles => PruneFileStep(source, t, item, refused)
    case PruningDirectories => PruneDirectoryStep(source, t, item, refused)
  }

  /** One loop over a snapshot: the turns in order, the first failure ending the loop. */
  function Run(phase: Phase, source: Tree, t: Tree, items: seq<Path>, refused: set<Action>): Trace
    decreases |items|
  {
    if items == [] then Trace(t, [], None)
    else
      var prev := Run(phase, source, t, items[..|items| - 1], refused);
      if prev.failure.Some? then prev
      else
        var last := Step(phase, source, prev.replica, items[|items| - 1], refused);
        Trace(last.replica, prev.events + last.events, last.failure)
  }

  /** Extending a loop that has not failed adds one turn. */
  lemma RunOneMore(phase: Phase, source: Tree, t: Tree, items: seq<Path>, i: nat, refused: set<Action>)
    requires i < |items|
    requires Run(phase, source, t, items[..i], refused).failure.None?
    ensures var prev := Run(phase, source, t, items[..i], refused);
            var last := Step(phase, source, prev.replica, items[i], refused);
            Run(phase, source, t, items[..i + 1], refused) == Trace(last.replica, prev.events + last.events, last.failure)
  {
    assert items[..i + 1][..i] == items[..i];
  }

  /** If a loop's first `k` turns end in a failure, the remaining turns do nothing. */
  lemma {:induction false} RunStopsAtFailure(phase: Phase, source: Tree, t: Tree, items: seq<Path>, k: nat, refused: set<Action>)
    requires k <= |items|
    requires Run(phase, source, t, items[..k], refused).failure.Some?
    ensures Run(phase, source, t, items, refused) == Run(phase, source, t, items[..k], refused)
    decreases |items|
  {
    if k < |items| {
      assert items[..|items| - 1][..k] == items[..k];
      RunStopsAtFailure(phase, source, t, items[..|items| - 1], k, refused);
    } else {
      assert items[..k] == items;
    }
  }

  /** The closing log line: the error if there was one, the completion message otherwise. */
  function Closing(failure: Option<Failure>): Message {
    match failure
    case Some(e) => SyncError(e)
    case None => SyncCompleted
  }

  function Finish(r: Trace): Trace {
    Trace(r.replica, r.events + [Closing(r.failure)], r.failure)
  }

  /**
   * The work of a pass up to its closing line, over the source tree `source`
   * and the replica tree `t`: what the `try` block does before it logs.
   */
  function Attempt(source: Tree, t: Tree, refused: set<Action>, listings: Listings): Trace {
    if !IsDir(source, []) then Trace(t, [], Some(NotFound(Source, [])))
    else
      var p := Run(Propagating, source, t, listings.sourceFiles, refused);
      if p.failure.Some? then p
      else if !IsDir(p.replica, []) then Trace(p.replica, p.events, Some(NotFound(Replica, [])))
      else
        var f := Run(PruningFiles, source, p.replica, listings.replicaFiles, refused);
        if f.failure.Some? then Trace(f.replica, p.events + f.events, f.failure)
        else
          var d := Run(PruningDirectories, source, f.replica, listings.replicaDirs, refused);
          Trace(d.replica, p.events + f.events + d.events, d.failure)
  }

  /** A whole pass: the work, then the closing line. */
  function Pass(source: Tree, t: Tree, refused: set<Action>, listings: Listings): Trace {
    Finish(Attempt(source, t, refused, listings))
  }

  function OutcomeOf(r: Trace): Outcome {
    match r.failure
    case Some(e) => Failed(e)
    case None => Completed
  }

  /**
   * The listings are genuine snapshots: each enumerates, exactly once, what its
   * folder held when it was taken (the replica listings after the loops before them).
   */
  predicate ValidListings(source: Tree, t: Tree, refused: set<Action>, listings: Listings) {
    IsDir(source, []) ==>
      && Lists(listings.sourceFiles, FilesOf(source))
      && var p := Run(Propagating, source, t, listings.sourceFiles, refused);
         p.failure.None? && IsDir(p.replica, []) ==>
           && Lists(listings.replicaFiles, FilesOf(p.replica))
           && var f := Run(PruningFiles, source, p.replica, listings.replicaFiles, refused);
              f.failure.None? ==> Lists(listings.replicaDirs, DirsOf(f.replica))
  }
}
