/**
 * What the two pruning loops do: which replica entries they remove, which
 * lines they log, and exactly when they fail.
 */
module PruneProperties {
  import opened Wrappers
  import opened Paths
  import opened FileSystem
  import opened SyncPass

  /** A replica file the source does not have: the file-pruning loop deletes it. */
  predicate OrphanFile(source: Tree, t: Tree, p: Path) {
    IsFile(t, p) && !IsFile(source, p)
  }

  /**
   * The state after the file-pruning turns for `visited`, starting from
   * replica `t`: the visited orphans are gone, nothing else is, no entry
   * changed, and a deletion line was logged for each removed file.
   */
  ghost predicate FilesPruned(source: Tree, t: Tree, visited: seq<Path>, r: Trace) {
    && (forall p :: p in r.replica <==> p in t && !(p in visited && !IsFile(source, p)))
    && (forall p :: p in r.replica ==> r.replica[p] == t[p])
    && (forall p :: DeletedFile(p) in r.events <==> p in visited && !IsFile(source, p))
    && (forall m :: m in r.events ==> m.DeletedFile?)
  }

  /** One file-pruning turn on a replica that holds `file` as a file. */
  lemma PruneFileStepEffect(source: Tree, u: Tree, file: Path, refused: set<Action>)
    requires IsFile(u, file)
    ensures var s := PruneFileStep(source, u, file, refused);
      && (s.failure.None? <==> IsFile(source, file) || RemoveFile(file) !in refused)
      && (s.failure.None? && IsFile(source, file) ==> s.replica == u && s.events == [])
      && (s.failure.None? && !IsFile(source, file) ==> s.replica == u - {file} && s.events == [DeletedFile(file)])
  {
  }

  /** One more file-pruning turn that does not fail keeps `FilesPruned` true. */
  lemma FilesPrunedGrows(source: Tree, t: Tree, visited: seq<Path>, prev: Trace, file: Path, refused: set<Action>)
    requires FilesPruned(source, t, visited, prev)
    requires IsFile(t, file) && file !in visited
    ensures IsFile(prev.replica, file)
    ensures var s := PruneFileStep(source, prev.replica, file, refused);
      s.failure.None? ==> FilesPruned(source, t, visited + [file], Trace(s.replica, prev.events + s.events, None))
  {
    assert IsFile(prev.replica, file);
    PruneFileStepEffect(source, prev.replica, file, refused);
    var s := PruneFileStep(source, prev.replica, file, refused);
    if s.failure.None? {
      assert forall p :: p in visited + [file] <==> p in visited || p == file;
      assert forall m :: m in prev.events + s.events <==> m in prev.events || m in s.events;
    }
  }

  /** The turn for `files[i]` of a file-pruning loop that has not failed so far. */
  lemma FileTurn(source: Tree, t: Tree, files: seq<Path>, i: nat, refused: set<Action>)
    requires Lists(files, FilesOf(t))
    requires i < |files|
    requires Run(PruningFiles, source, t, files[..i], refused).failure.None?
    requires FilesPruned(source, t, files[..i], Run(PruningFiles, source, t, files[..i], refused))
    ensures var r := Run(PruningFiles, source, t, files[..i + 1], refused);
      && (r.failure.None? <==> IsFile(source, files[i]) || RemoveFile(files[i]) !in refused)
      && (r.failure.None? ==> FilesPruned(source, t, files[..i + 1], r))
  {
    assert files[..i + 1] == files[..i] + [files[i]];
    RunOneMore(PruningFiles, source, t, files, i, refused);
    var prev := Run(PruningFiles, source, t, files[..i], refused);
    var file := files[i];
    assert file in files;
    NotEarlier(files, i);
    FilesPrunedGrows(source, t, files[..i], prev, file, refused);
    PruneFileStepEffect(source, prev.replica, file, refused);
    var s := PruneFileStep(source, prev.replica, file, refused);
    assert Run(PruningFiles, source, t, files[..i + 1], refused) == Trace(s.replica, prev.events + s.events, s.failure);
  }

  /**
   * The first `k` turns of the file-pruning loop fail exactly when one of
   * them has an orphan whose deletion is refused; when none fails,
   * `FilesPruned` describes the replica and the log.
   */
  lemma {:induction false} PruneFilesInvariant(source: Tree, t: Tree, files: seq<Path>, k: nat, refused: set<Action>)
    requires Lists(files, FilesOf(t))
    requires k <= |files|
    ensures var r := Run(PruningFiles, source, t, files[..k], refused);
      && (r.failure.None? <==>
            forall j :: 0 <= j < k && !IsFile(source, files[j]) ==> RemoveFile(files[j]) !in refused)
      && (r.failure.None? ==> FilesPruned(source, t, files[..k], r))
    decreases k
  {
    if k == 0 {
      assert files[..k] == [];
    } else {
      var i := k - 1;
      assert files[..k][..i] == files[..i];
      PruneFilesInvariant(source, t, files, i, refused);
      var prev := Run(PruningFiles, source, t, files[..i], refused);
      if prev.failure.None? {
        FileTurn(source, t, files, i, refused);
      }
    }
  }

  /**
   * A file-pruning loop over a listing of every replica file fails exactly
   * when an orphan's deletion is refused; otherwise it removes exactly the
   * orphan files, changes no other entry, and logs a deletion line for
   * exactly the orphans; no line is logged twice.
   */
  lemma PruneFilesEffect(source: Tree, t: Tree, files: seq<Path>, refused: set<Action>)
    requires Lists(files, FilesOf(t))
    ensures var r := Run(PruningFiles, source, t, files, refused);
      && (r.failure.None? <==> forall p :: OrphanFile(source, t, p) ==> RemoveFile(p) !in refused)
      && (r.failure.None? ==>
            && (forall p :: p in r.replica <==> p in t && !OrphanFile(source, t, p))
            && (forall p :: p in r.replica ==> r.replica[p] == t[p])
            && (forall p :: DeletedFile(p) in r.events <==> OrphanFile(source, t, p))
            && (forall m :: m in r.events ==> m.DeletedFile?))
      && Distinct(r.events)
  {
    PruneLogsOnce(PruningFiles, source, t, files, refused);
    assert files[..|files|] == files;
    PruneFilesInvariant(source, t, files, |files|, refused);
    var r := Run(PruningFiles, source, t, files, refused);
    if forall p :: OrphanFile(source, t, p) ==> RemoveFile(p) !in refused {
      forall j | 0 <= j < |files| && !IsFile(source, files[j])
        ensures RemoveFile(files[j]) !in refused
      {
        assert files[j] in files;
        assert OrphanFile(source, t, files[j]);
      }
    } else {
      var p :| OrphanFile(source, t, p) && RemoveFile(p) in refused;
      assert p in files;
      var j :| 0 <= j < |files| && files[j] == p;
      assert r.failure.Some?;
    }
  }

  /** `m` is the deletion line for one of `items`. */
  predicate DeletionOf(m: Message, items: seq<Path>) {
    (m.DeletedFile? && m.file in items) || (m.DeletedDirectory? && m.dir in items)
  }

  /**
   * Each line a pruning loop logs is the deletion line of an item of its
   * listing, and since the listing names each entry once, no line is logged
   * twice, whether the loop fails or not.
   */
  lemma {:induction false} PruneLogsOnce(phase: Phase, source: Tree, t: Tree, items: seq<Path>, refused: set<Action>)
    requires phase != Propagating
    requires Distinct(items)
    ensures var r := Run(phase, source, t, items, refused);
      && Distinct(r.events)
      && (forall m :: m in r.events ==> DeletionOf(m, items))
    decreases |items|
  {
    if items != [] {
      var init, item := items[..|items| - 1], items[|items| - 1];
      assert items == init + [item];
      DistinctInit(items);
      NotEarlier(items, |items| - 1);
      PruneLogsOnce(phase, source, t, init, refused);
      var prev := Run(phase, source, t, init, refused);
      if prev.failure.None? {
        var s := Step(phase, source, prev.replica, item, refused);
        assert s.events == [] || s.events == [DeletedFile(item)] || s.events == [DeletedDirectory(item)];
        forall m | m in s.events ensures m !in prev.events {
          assert !DeletionOf(m, init);
        }
        DistinctJoin(prev.events, s.events);
        forall m | m in prev.events + s.events ensures DeletionOf(m, items) {
          assert m in prev.events || m in s.events;
        }
      }
    }
  }

  /** A replica directory the source does not have as a directory. */
  predicate StaleDirectory(source: Tree, t: Tree, d: Path) {
    d != [] && IsDir(t, d) && !IsDir(source, d)
  }

  /** `p` lies inside (or is) a stale directory of `t`. */
  ghost predicate Doomed(source: Tree, t: Tree, p: Path) {
    exists d :: StaleDirectory(source, t, d) && IsPrefix(d, p)
  }

  /** `p` lies inside (or is) one of the `visited` directories the source lacks. */
  ghost predicate Removed(source: Tree, visited: seq<Path>, p: Path) {
    exists d :: d in visited && !IsDir(source, d) && IsPrefix(d, p)
  }

  /**
   * Turn `j` of the directory-pruning loop over `dirs` goes through: its
   * directory is one the source has, or it is still there (no earlier turn
   * deleted a directory above it) and its deletion is not refused.
   */
  ghost predicate DirectoryTurnSucceeds(source: Tree, dirs: seq<Path>, j: nat, refused: set<Action>)
    requires j < |dirs|
  {
    IsDir(source, dirs[j]) || (!Removed(source, dirs[..j], dirs[j]) && RemoveDirectory(dirs[j]) !in refused)
  }

  /**
   * The state after the directory-pruning turns for `visited`, starting from
   * replica `t`: what lies inside a visited stale directory is gone, nothing
   * else is, no entry changed, and a deletion line was logged for each
   * visited stale directory.
   */
  ghost predicate DirectoriesPruned(source: Tree, t: Tree, visited: seq<Path>, r: Trace) {
    && (forall p :: p in r.replica <==> p in t && !Removed(source, visited, p))
    && (forall p :: p in r.replica ==> r.replica[p] == t[p])
    && (forall d :: DeletedDirectory(d) in r.events <==> d in visited && !IsDir(source, d))
    && (forall m :: m in r.events ==> m.DeletedDirectory?)
  }

  lemma RemovedGrows(source: Tree, visited: seq<Path>, dir: Path, p: Path)
    ensures Removed(source, visited + [dir], p) <==>
              Removed(source, visited, p) || (!IsDir(source, dir) && IsPrefix(dir, p))
  {
    if Removed(source, visited + [dir], p) {
      var d :| d in visited + [dir] && !IsDir(source, d) && IsPrefix(d, p);
      assert d in visited || d == dir;
    }
    if Removed(source, visited, p) {
      var d :| d in visited && !IsDir(source, d) && IsPrefix(d, p);
      assert d in visited + [dir];
    }
    if !IsDir(source, dir) && IsPrefix(dir, p) {
      assert dir in visited + [dir];
    }
  }

  /** One directory-pruning turn on a replica that holds `dir` as a directory or not at all. */
  lemma PruneDirectoryStepEffect(source: Tree, u: Tree, dir: Path, refused: set<Action>)
    requires !IsFile(u, dir)
    ensures var s := PruneDirectoryStep(source, u, dir, refused);
      && (s.failure.None? <==> IsDir(source, dir) || (dir in u && RemoveDirectory(dir) !in refused))
      && (s.failure.Some? && dir in u ==> s.failure == Some(Refused(RemoveDirectory(dir))))
      && (s.failure.Some? && dir !in u ==> s.failure == Some(NotFound(Replica, dir)))
      && (s.failure.None? && IsDir(source, dir) ==> s.replica == u && s.events == [])
      && (s.failure.None? && !IsDir(source, dir) ==>
            s.replica == Without(u, dir) && s.events == [DeletedDirectory(dir)])
  {
  }

  /** One more directory-pruning turn: when it fails and why, and that `DirectoriesPruned` stays true. */
  lemma DirectoriesPrunedGrows(source: Tree, t: Tree, visited: seq<Path>, prev: Trace, dir: Path, refused: set<Action>)
    requires DirectoriesPruned(source, t, visited, prev)
    requires IsDir(t, dir) && dir !in visited
    ensures var s := PruneDirectoryStep(source, prev.replica, dir, refused);
      && (s.failure.None? <==> IsDir(source, dir) || (!Removed(source, visited, dir) && RemoveDirectory(dir) !in refused))
      && (s.failure.Some? && !Removed(source, visited, dir) ==> s.failure == Some(Refused(RemoveDirectory(dir))))
      && (s.failure.Some? && Removed(source, visited, dir) ==> s.failure == Some(NotFound(Replica, dir)))
      && (s.failure.None? ==> DirectoriesPruned(source, t, visited + [dir], Trace(s.replica, prev.events + s.events, None)))
  {
    assert dir in prev.replica <==> !Removed(source, visited, dir);
    assert !IsFile(prev.replica, dir);
    PruneDirectoryStepEffect(source, prev.replica, dir, refused);
    var s := PruneDirectoryStep(source, prev.replica, dir, refused);
    if s.failure.None? {
      forall p ensures Removed(source, visited + [dir], p) <==>
                         Removed(source, visited, p) || (!IsDir(source, dir) && IsPrefix(dir, p)) {
        RemovedGrows(source, visited, dir, p);
      }
      assert forall d :: d in visited + [dir] <==> d in visited || d == dir;
      assert forall m :: m in prev.events + s.events <==> m in prev.events || m in s.events;
    }
  }

  /** The turn for `dirs[i]` of a directory-pruning loop that has not failed so far. */
  lemma DirectoryTurn(source: Tree, t: Tree, dirs: seq<Path>, i: nat, refused: set<Action>)
    requires Lists(dirs, DirsOf(t))
    requires i < |dirs|
    requires Run(PruningDirectories, source, t, dirs[..i], refused).failure.None?
    requires DirectoriesPruned(source, t, dirs[..i], Run(PruningDirectories, source, t, dirs[..i], refused))
    ensures var r := Run(PruningDirectories, source, t, dirs[..i + 1], refused);
      && (r.failure.None? <==> DirectoryTurnSucceeds(source, dirs, i, refused))
      && (r.failure.None? ==> DirectoriesPruned(source, t, dirs[..i + 1], r))
      && (r.failure.Some? && !Removed(source, dirs[..i], dirs[i]) ==> r.failure == Some(Refused(RemoveDirectory(dirs[i]))))
      && (r.failure.Some? && Removed(source, dirs[..i], dirs[i]) ==> r.failure == Some(NotFound(Replica, dirs[i])))
  {
    assert dirs[..i + 1] == dirs[..i] + [dirs[i]];
    RunOneMore(PruningDirectories, source, t, dirs, i, refused);
    var prev := Run(PruningDirectories, source, t, dirs[..i], refused);
    var dir := dirs[i];
    assert dir in dirs;
    NotEarlier(dirs, i);
    DirectoriesPrunedGrows(source, t, dirs[..i], prev, dir, refused);
    var s := PruneDirectoryStep(source, prev.replica, dir, refused);
    assert Run(PruningDirectories, source, t, dirs[..i + 1], refused) == Trace(s.replica, prev.events + s.events, s.failure);
    assert DirectoryTurnSucceeds(source, dirs, i, refused) <==>
             IsDir(source, dir) || (!Removed(source, dirs[..i], dir) && RemoveDirectory(dir) !in refused);
  }

  /**
   * The first `k` turns of the directory-pruning loop fail exactly when one
   * of them does not go through; when none fails, `DirectoriesPruned`
   * describes the replica and the log.
   */
  lemma {:induction false} PruneDirectoriesInvariant(source: Tree, t: Tree, dirs: seq<Path>, k: nat, refused: set<Action>)
    requires Lists(dirs, DirsOf(t))
    requires k <= |dirs|
    ensures var r := Run(PruningDirectories, source, t, dirs[..k], refused);
      && (r.failure.None? <==> forall j :: 0 <= j < k ==> DirectoryTurnSucceeds(source, dirs, j, refused))
      && (r.failure.None? ==> DirectoriesPruned(source, t, dirs[..k], r))
    decreases k
  {
    if k == 0 {
      assert dirs[..k] == [];
    } else {
      var i := k - 1;
      assert dirs[..k][..i] == dirs[..i];
      PruneDirectoriesInvariant(source, t, dirs, i, refused);
      var prev := Run(PruningDirectories, source, t, dirs[..i], refused);
      if prev.failure.None? {
        DirectoryTurn(source, t, dirs, i, refused);
      }
    }
  }

  /** Inside a stale directory listed before it, a listed directory is past deleting. */
  lemma RemovedByStale(source: Tree, t: Tree, dirs: seq<Path>, p: Path)
    requires Lists(dirs, DirsOf(t))
    requires p in t
    ensures Removed(source, dirs, p) <==> Doomed(source, t, p)
  {
    if Removed(source, dirs, p) {
      var d :| d in dirs && !IsDir(source, d) && IsPrefix(d, p);
      assert StaleDirectory(source, t, d);
    }
    if Doomed(source, t, p) {
      var d :| StaleDirectory(source, t, d) && IsPrefix(d, p);
      assert d in DirsOf(t);
      assert d in dirs;
    }
  }

  /**
   * The replica `r` is `t` pruned against `source`: what lies inside a stale
   * directory is gone, nothing else is, no entry changed, and a deletion line
   * was logged for exactly the stale directories.
   */
  ghost predicate PrunedToSource(source: Tree, t: Tree, r: Trace) {
    && (forall p :: p in r.replica <==> p in t && !Doomed(source, t, p))
    && (forall p :: p in r.replica ==> r.replica[p] == t[p])
    && (forall d :: DeletedDirectory(d) in r.events <==> StaleDirectory(source, t, d))
    && (forall m :: m in r.events ==> m.DeletedDirectory?)
  }

  /**
   * A directory-pruning loop over a listing of every replica directory that
   * does not fail prunes the replica against the source; failing or not, it
   * logs no line twice.
   */
  lemma PruneDirectoriesEffect(source: Tree, t: Tree, dirs: seq<Path>, refused: set<Action>)
    requires Lists(dirs, DirsOf(t))
    ensures var r := Run(PruningDirectories, source, t, dirs, refused);
      && (r.failure.None? ==> PrunedToSource(source, t, r))
      && Distinct(r.events)
  {
    PruneLogsOnce(PruningDirectories, source, t, dirs, refused);
    var r := Run(PruningDirectories, source, t, dirs, refused);
    if r.failure.None? {
      assert dirs[..|dirs|] == dirs;
      PruneDirectoriesInvariant(source, t, dirs, |dirs|, refused);
      PrunedAllListed(source, t, dirs, r);
    }
  }

  /** Once every listed directory has had its turn, the loop has pruned the replica against the source. */
  lemma PrunedAllListed(source: Tree, t: Tree, dirs: seq<Path>, r: Trace)
    requires Lists(dirs, DirsOf(t))
    requires DirectoriesPruned(source, t, dirs, r)
    ensures PrunedToSource(source, t, r)
  {
    PrunedKeys(source, t, dirs, r);
    DeletedAllStale(source, t, dirs, r);
  }

  lemma PrunedKeys(source: Tree, t: Tree, dirs: seq<Path>, r: Trace)
    requires Lists(dirs, DirsOf(t))
    requires forall p :: p in r.replica <==> p in t && !Removed(source, dirs, p)
    ensures forall p :: p in r.replica <==> p in t && !Doomed(source, t, p)
  {
    forall p | p in t {
      RemovedByStale(source, t, dirs, p);
    }
  }

  lemma DeletedAllStale(source: Tree, t: Tree, dirs: seq<Path>, r: Trace)
    requires Lists(dirs, DirsOf(t))
    requires forall d :: DeletedDirectory(d) in r.events <==> d in dirs && !IsDir(source, d)
    ensures forall d :: DeletedDirectory(d) in r.events <==> StaleDirectory(source, t, d)
  {
    forall d | StaleDirectory(source, t, d) ensures d in dirs {
      assert d in DirsOf(t);
    }
  }

  /**
   * A stale directory listed before a directory inside it makes the loop
   * fail: the outer deletion takes the inner one with it, and the inner
   * turn's `Directory.Delete` finds nothing. If every earlier turn went
   * through, the error is precisely that the inner directory was not found.
   */
  lemma NestedStaleDirectoryFails(source: Tree, t: Tree, dirs: seq<Path>, i: nat, j: nat, refused: set<Action>)
    requires WellFormed(source)
    requires Lists(dirs, DirsOf(t))
    requires i < j < |dirs|
    requires !IsDir(source, dirs[i]) && IsPrefix(dirs[i], dirs[j])
    ensures Run(PruningDirectories, source, t, dirs, refused).failure.Some?
    ensures Run(PruningDirectories, source, t, dirs[..j], refused).failure.None? ==>
              Run(PruningDirectories, source, t, dirs, refused).failure == Some(NotFound(Replica, dirs[j]))
  {
    assert dirs[i] != dirs[j];
    if dirs[j] in source {
      AncestorIsDir(source, dirs[i], dirs[j]);
    }
    assert dirs[..j][i] == dirs[i];
    assert Removed(source, dirs[..j], dirs[j]);
    assert !DirectoryTurnSucceeds(source, dirs, j, refused);
    assert dirs[..|dirs|] == dirs;
    PruneDirectoriesInvariant(source, t, dirs, |dirs|, refused);
    var full := Run(PruningDirectories, source, t, dirs, refused);
    if Run(PruningDirectories, source, t, dirs[..j], refused).failure.None? {
      PruneDirectoriesInvariant(source, t, dirs, j, refused);
      DirectoryTurn(source, t, dirs, j, refused);
      RunStopsAtFailure(PruningDirectories, source, t, dirs, j + 1, refused);
    }
  }
}
