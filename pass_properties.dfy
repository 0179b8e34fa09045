/**
 * What a whole pass promises: the replica stays a real directory tree, the
 * log ends with exactly one closing line, a completed pass leaves the replica
 * in step with the source, and a pass over a replica already in step changes
 * nothing and logs only its completion.
 */
module PassProperties {
  import opened Wrappers
  import opened Paths
  import opened FileSystem
  import opened SyncPass
  import opened PropagateProperties
  import opened PruneProperties

  /** A single turn, failed or not, leaves a real tree real. */
  lemma StepKeepsWellFormed(phase: Phase, source: Tree, t: Tree, item: Path, refused: set<Action>)
    requires WellFormed(t)
    ensures WellFormed(Step(phase, source, t, item, refused).replica)
  {
    match phase
    case Propagating =>
      var dir := Parent(item);
      if !IsDir(t, dir) && CreateDirectory(t, dir, refused).Ok? {
        CreateDirectoryKeepsWellFormed(t, dir, refused);
        var t1 := CreateDirectory(t, dir, refused).value;
        if CopyFile(source, t1, item, refused).Ok? {
          CopyFileKeepsWellFormed(source, t1, item, refused);
        }
      } else if IsDir(t, dir) && CopyFile(source, t, item, refused).Ok? {
        CopyFileKeepsWellFormed(source, t, item, refused);
      }
    case PruningFiles =>
      if DeleteFile(t, item, refused).Ok? {
        DeleteFileKeepsWellFormed(t, item, refused);
      }
    case PruningDirectories =>
      if DeleteDirectory(t, item, refused).Ok? {
        DeleteDirectoryKeepsWellFormed(t, item, refused);
      }
  }

  /** A loop, failed or not, leaves a real tree real. */
  lemma {:induction false} RunKeepsWellFormed(phase: Phase, source: Tree, t: Tree, items: seq<Path>, refused: set<Action>)
    requires WellFormed(t)
    ensures WellFormed(Run(phase, source, t, items, refused).replica)
    decreases |items|
  {
    if items != [] {
      var prev := Run(phase, source, t, items[..|items| - 1], refused);
      RunKeepsWellFormed(phase, source, t, items[..|items| - 1], refused);
      if prev.failure.None? {
        StepKeepsWellFormed(phase, source, prev.replica, items[|items| - 1], refused);
      }
    }
  }

  /**
   * Whatever fails, the replica a pass leaves behind is a real directory
   * tree: every entry's parent is a directory in it.
   */
  lemma PassKeepsWellFormed(source: Tree, t: Tree, refused: set<Action>, listings: Listings)
    requires WellFormed(t)
    ensures WellFormed(Pass(source, t, refused, listings).replica)
  {
    if IsDir(source, []) {
      RunKeepsWellFormed(Propagating, source, t, listings.sourceFiles, refused);
      var p := Run(Propagating, source, t, listings.sourceFiles, refused);
      RunKeepsWellFormed(PruningFiles, source, p.replica, listings.replicaFiles, refused);
      var f := Run(PruningFiles, source, p.replica, listings.replicaFiles, refused);
      RunKeepsWellFormed(PruningDirectories, source, f.replica, listings.replicaDirs, refused);
    }
  }

  /** A line one of the three loops writes, as opposed to the closing line or the start-up line. */
  predicate TurnMessage(m: Message) {
    m.CreatedDirectory? || m.CopiedFile? || m.DeletedFile? || m.DeletedDirectory?
  }

  lemma {:induction false} RunLogsTurnMessages(phase: Phase, source: Tree, t: Tree, items: seq<Path>, refused: set<Action>)
    ensures forall m :: m in Run(phase, source, t, items, refused).events ==> TurnMessage(m)
    decreases |items|
  {
    if items != [] {
      var prev := Run(phase, source, t, items[..|items| - 1], refused);
      RunLogsTurnMessages(phase, source, t, items[..|items| - 1], refused);
      if prev.failure.None? {
        var last := Step(phase, source, prev.replica, items[|items| - 1], refused);
        assert forall m :: m in last.events ==> TurnMessage(m);
        assert forall m :: m in prev.events + last.events ==> m in prev.events || m in last.events;
      }
    }
  }

  /**
   * Every pass ends its log with exactly one closing line: the error whose
   * exception ended it, or the completion message; no earlier line is
   * either, and the outcome agrees with the closing line.
   */
  lemma PassEndsWithOutcome(source: Tree, t: Tree, refused: set<Action>, listings: Listings)
    ensures var r := Pass(source, t, refused, listings);
      && |r.events| >= 1
      && r.events[|r.events| - 1] == (match OutcomeOf(r) case Completed => SyncCompleted case Failed(e) => SyncError(e))
      && (forall i :: 0 <= i < |r.events| - 1 ==> TurnMessage(r.events[i]))
  {
    var p := Run(Propagating, source, t, listings.sourceFiles, refused);
    var f := Run(PruningFiles, source, p.replica, listings.replicaFiles, refused);
    RunLogsTurnMessages(Propagating, source, t, listings.sourceFiles, refused);
    RunLogsTurnMessages(PruningFiles, source, p.replica, listings.replicaFiles, refused);
    RunLogsTurnMessages(PruningDirectories, source, f.replica, listings.replicaDirs, refused);
    var x := Attempt(source, t, refused, listings);
    assert forall m :: m in x.events ==> TurnMessage(m);
    FinishCloses(x);
  }

  /** `Finish` appends one closing line that agrees with the outcome. */
  lemma FinishCloses(x: Trace)
    requires forall m :: m in x.events ==> TurnMessage(m)
    ensures var r := Finish(x);
      && |r.events| >= 1
      && r.events[|r.events| - 1] == (match OutcomeOf(r) case Completed => SyncCompleted case Failed(e) => SyncError(e))
      && (forall i :: 0 <= i < |r.events| - 1 ==> TurnMessage(r.events[i]))
  {
    var r := Finish(x);
    assert r.events[..|x.events|] == x.events;
    forall i | 0 <= i < |r.events| - 1 ensures TurnMessage(r.events[i]) {
      assert r.events[i] == x.events[i];
      assert x.events[i] in x.events;
    }
  }

  /**
   * The replica is in step with the source: its root is a directory, it has
   * exactly the source's files, none of them older than the source's, and
   * no directory the source lacks.
   */
  ghost predicate Converged(source: Tree, t: Tree) {
    && IsDir(t, [])
    && (forall f :: IsFile(t, f) <==> IsFile(source, f))
    && (forall f :: IsFile(source, f) ==> t[f].mtime >= source[f].mtime)
    && (forall d :: IsDir(t, d) ==> IsDir(source, d))
  }

  /** After propagating and pruning files, the replica holds exactly the source's files, none older. */
  lemma FilesInStep(source: Tree, t: Tree, refused: set<Action>, listings: Listings)
    requires WellFormed(source) && IsDir(source, [])
    requires ValidListings(source, t, refused, listings)
    requires var p := Run(Propagating, source, t, listings.sourceFiles, refused);
      p.failure.None? && IsDir(p.replica, []) &&
      Run(PruningFiles, source, p.replica, listings.replicaFiles, refused).failure.None?
    ensures var p := Run(Propagating, source, t, listings.sourceFiles, refused);
      var f := Run(PruningFiles, source, p.replica, listings.replicaFiles, refused);
      && IsDir(f.replica, [])
      && (forall q :: IsFile(f.replica, q) <==> IsFile(source, q))
      && (forall q :: IsFile(source, q) ==> f.replica[q].mtime >= source[q].mtime)
      && (forall q :: IsDir(f.replica, q) <==> IsDir(p.replica, q))
  {
    PropagateEffect(source, t, listings.sourceFiles, refused);
    var p := Run(Propagating, source, t, listings.sourceFiles, refused);
    PruneFilesEffect(source, p.replica, listings.replicaFiles, refused);
  }

  /** Pruning stale directories takes no source file and not the root with it. */
  lemma DirectoriesInStep(source: Tree, u: Tree, dirs: seq<Path>, refused: set<Action>)
    requires WellFormed(source) && IsDir(source, [])
    requires IsDir(u, [])
    requires forall q :: IsFile(u, q) <==> IsFile(source, q)
    requires Lists(dirs, DirsOf(u))
    requires Run(PruningDirectories, source, u, dirs, refused).failure.None?
    ensures var d := Run(PruningDirectories, source, u, dirs, refused);
      && IsDir(d.replica, [])
      && (forall q :: IsFile(d.replica, q) <==> IsFile(source, q))
      && (forall q :: q in d.replica ==> q in u && d.replica[q] == u[q])
      && (forall q :: IsDir(d.replica, q) ==> IsDir(source, q))
  {
    PruneDirectoriesEffect(source, u, dirs, refused);
    var d := Run(PruningDirectories, source, u, dirs, refused);
    assert !Doomed(source, u, []);
    forall q | IsFile(source, q) ensures !Doomed(source, u, q) {
      if Doomed(source, u, q) {
        var s :| StaleDirectory(source, u, s) && IsPrefix(s, q);
        assert s != q;
        AncestorIsDir(source, s, q);
      }
    }
    forall q | IsDir(d.replica, q) && q != [] ensures IsDir(source, q) {
      assert !StaleDirectory(source, u, q);
    }
  }

  /**
   * A pass that completes leaves the replica in step with the source. (It
   * does not make the directory sets equal: a source directory with no file
   * anywhere below it is never created in the replica.)
   */
  lemma CompletedPassConverges(source: Tree, t: Tree, refused: set<Action>, listings: Listings)
    requires WellFormed(source)
    requires ValidListings(source, t, refused, listings)
    requires Pass(source, t, refused, listings).failure.None?
    ensures Converged(source, Pass(source, t, refused, listings).replica)
  {
    FilesInStep(source, t, refused, listings);
    var p := Run(Propagating, source, t, listings.sourceFiles, refused);
    var f := Run(PruningFiles, source, p.replica, listings.replicaFiles, refused);
    DirectoriesInStep(source, f.replica, listings.replicaDirs, refused);
  }

  /** A loop none of whose turns does anything does nothing. */
  lemma {:induction false} QuietRun(phase: Phase, source: Tree, t: Tree, items: seq<Path>, refused: set<Action>)
    requires forall i :: 0 <= i < |items| ==> Step(phase, source, t, items[i], refused) == Trace(t, [], None)
    ensures Run(phase, source, t, items, refused) == Trace(t, [], None)
    decreases |items|
  {
    if items != [] {
      var init := items[..|items| - 1];
      forall i | 0 <= i < |init| ensures Step(phase, source, t, init[i], refused) == Trace(t, [], None) {
        assert init[i] == items[i];
      }
      QuietRun(phase, source, t, init, refused);
    }
  }

  /**
   * A pass over a real replica already in step with the source copies,
   * deletes and creates nothing, whatever the listings' order and whatever
   * the platform would refuse: it logs only its completion.
   */
  lemma ConvergedPassIsQuiet(source: Tree, t: Tree, refused: set<Action>, listings: Listings)
    requires WellFormed(t) && Converged(source, t)
    requires ValidListings(source, t, refused, listings)
    ensures Pass(source, t, refused, listings) == Trace(t, [SyncCompleted], None)
  {
    assert IsDir(source, []);
    QuietPropagate(source, t, listings.sourceFiles, refused);
    QuietPruneFiles(source, t, listings.replicaFiles, refused);
    QuietPruneDirectories(source, t, listings.replicaDirs, refused);
  }

  /** Over a replica in step with the source, the propagate loop does nothing. */
  lemma QuietPropagate(source: Tree, t: Tree, files: seq<Path>, refused: set<Action>)
    requires WellFormed(t) && Converged(source, t)
    requires Lists(files, FilesOf(source))
    ensures Run(Propagating, source, t, files, refused) == Trace(t, [], None)
  {
    forall i | 0 <= i < |files|
      ensures Step(Propagating, source, t, files[i], refused) == Trace(t, [], None)
    {
      var file := files[i];
      assert file in files;
      assert IsFile(t, file) && file != [];
      assert IsDir(t, Parent(file));
      assert !Stale(source, t, file);
    }
    QuietRun(Propagating, source, t, files, refused);
  }

  /** Over a replica in step with the source, the file-pruning loop does nothing. */
  lemma QuietPruneFiles(source: Tree, t: Tree, files: seq<Path>, refused: set<Action>)
    requires Converged(source, t)
    requires Lists(files, FilesOf(t))
    ensures Run(PruningFiles, source, t, files, refused) == Trace(t, [], None)
  {
    forall i | 0 <= i < |files|
      ensures Step(PruningFiles, source, t, files[i], refused) == Trace(t, [], None)
    {
      assert files[i] in files;
    }
    QuietRun(PruningFiles, source, t, files, refused);
  }

  /** Over a replica in step with the source, the directory-pruning loop does nothing. */
  lemma QuietPruneDirectories(source: Tree, t: Tree, dirs: seq<Path>, refused: set<Action>)
    requires Converged(source, t)
    requires Lists(dirs, DirsOf(t))
    ensures Run(PruningDirectories, source, t, dirs, refused) == Trace(t, [], None)
  {
    forall i | 0 <= i < |dirs|
      ensures Step(PruningDirectories, source, t, dirs[i], refused) == Trace(t, [], None)
    {
      assert dirs[i] in dirs;
    }
    QuietRun(PruningDirectories, source, t, dirs, refused);
  }

  /**
   * With the source left alone, the pass after a completed pass changes
   * nothing and logs only its completion.
   */
  lemma SecondPassIsQuiet(source: Tree, t: Tree, refused: set<Action>, listings: Listings,
                          refused': set<Action>, listings': Listings)
    requires WellFormed(source) && WellFormed(t)
    requires ValidListings(source, t, refused, listings)
    requires Pass(source, t, refused, listings).failure.None?
    requires ValidListings(source, Pass(source, t, refused, listings).replica, refused', listings')
    ensures var t' := Pass(source, t, refused, listings).replica;
      Pass(source, t', refused', listings') == Trace(t', [SyncCompleted], None)
  {
    PassKeepsWellFormed(source, t, refused, listings);
    CompletedPassConverges(source, t, refused, listings);
    ConvergedPassIsQuiet(source, Pass(source, t, refused, listings).replica, refused', listings');
  }
}
