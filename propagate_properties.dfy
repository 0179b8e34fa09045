/**
 * What the propagate loop does: the copy test of one turn, and the state of
 * the replica after a loop that did not fail.
 */
module PropagateProperties {
  import opened Wrappers
  import opened Paths
  import opened FileSystem
  import opened SyncPass

  /** What lies above a directory lies above every entry in it. */
  lemma AboveParent(p: Path, file: Path)
    requires file != [] && IsPrefix(p, Parent(file))
    ensures IsPrefix(p, file) && p != file
  {
    assert file[..|p|] == Parent(file)[..|p|];
  }

  /**
   * One turn of the propagate loop for `file`, when it does not fail: the
   * directory is created, with one line, exactly when it was missing; the file
   * is copied, with one line, exactly when it is stale; nothing else changes.
   */
  lemma CopyStepDecision(source: Tree, t: Tree, file: Path, refused: set<Action>)
    requires file != []
    requires CopyStep(source, t, file, refused).failure.None?
    ensures var s := CopyStep(source, t, file, refused);
      && s.events == (if IsDir(t, Parent(file)) then [] else [CreatedDirectory(Parent(file))])
                     + (if Stale(source, t, file) then [CopiedFile(file)] else [])
      && IsDir(s.replica, Parent(file))
      && (Stale(source, t, file) ==> IsFile(source, file) && IsFile(s.replica, file) && s.replica[file] == source[file])
      && (!Stale(source, t, file) ==> IsFile(t, file) && IsFile(s.replica, file) && s.replica[file] == t[file])
      && (forall p :: p in t && p != file ==> p in s.replica && s.replica[p] == t[p])
      && (forall p :: p in s.replica && p !in t ==> p == file || (IsPrefix(p, Parent(file)) && s.replica[p] == Dir))
  {
    var dir := Parent(file);
    var t1 := if IsDir(t, dir) then t else CreateDirectory(t, dir, refused).value;
    assert file in t1 <==> file in t;
    assert file in t ==> t1[file] == t[file];
    assert Stale(source, t1, file) == Stale(source, t, file);
  }

  /**
   * The state after the turns for `visited`, starting from replica `t`: each
   * visited file holds the source's copy if it was stale and its old entry if
   * not; every other entry of `t` is unchanged; every new entry is a visited
   * file or a directory the source has; a file was copied exactly when it was
   * stale; a directory was created only where there was none.
   */
  ghost predicate Propagated(source: Tree, t: Tree, visited: seq<Path>, r: Trace) {
    && (forall f :: f in visited && IsFile(source, f) ==>
          IsFile(r.replica, f) && r.replica[f] == (if Stale(source, t, f) then source[f] else t[f]))
    && (forall p :: p in t && p !in visited ==> p in r.replica && r.replica[p] == t[p])
    && (forall p :: p in r.replica && p !in t ==> p in visited || (IsDir(source, p) && r.replica[p] == Dir))
    && (forall f :: CopiedFile(f) in r.events <==> f in visited && Stale(source, t, f))
    && (forall d :: CreatedDirectory(d) in r.events ==> d !in t && IsDir(r.replica, d))
    && (forall m :: m in r.events ==> m.CopiedFile? || m.CreatedDirectory?)
  }

  /** The situation of one more turn of a propagate loop that has not failed so far. */
  ghost predicate TurnAhead(source: Tree, t: Tree, visited: seq<Path>, r: Trace, file: Path, refused: set<Action>) {
    && WellFormed(source) && IsDir(source, [])
    && (forall f :: f in visited ==> IsFile(source, f))
    && IsFile(source, file) && file !in visited
    && Propagated(source, t, visited, r)
    && CopyStep(source, r.replica, file, refused).failure.None?
  }

  /** The turn's view of `file` is the replica's original entry. */
  lemma TurnSeesOriginal(source: Tree, t: Tree, visited: seq<Path>, r: Trace, file: Path, refused: set<Action>)
    requires TurnAhead(source, t, visited, r, file, refused)
    ensures file != []
    ensures file in r.replica <==> file in t
    ensures file in t ==> r.replica[file] == t[file]
    ensures Stale(source, r.replica, file) == Stale(source, t, file)
  {
  }

  lemma TurnKeepsEntries(source: Tree, t: Tree, visited: seq<Path>, r: Trace, file: Path, refused: set<Action>)
    requires TurnAhead(source, t, visited, r, file, refused)
    ensures var u' := CopyStep(source, r.replica, file, refused).replica;
      && (forall f :: f in visited + [file] && IsFile(source, f) ==>
            IsFile(u', f) && u'[f] == (if Stale(source, t, f) then source[f] else t[f]))
      && (forall p :: p in t && p !in visited + [file] ==> p in u' && u'[p] == t[p])
  {
    TurnSeesOriginal(source, t, visited, r, file, refused);
    CopyStepDecision(source, r.replica, file, refused);
    assert forall f :: f in visited + [file] <==> f in visited || f == file;
  }

  lemma TurnAddsSourceDirectories(source: Tree, t: Tree, visited: seq<Path>, r: Trace, file: Path, refused: set<Action>)
    requires TurnAhead(source, t, visited, r, file, refused)
    ensures var u' := CopyStep(source, r.replica, file, refused).replica;
      forall p :: p in u' && p !in t ==> p in visited + [file] || (IsDir(source, p) && u'[p] == Dir)
  {
    TurnSeesOriginal(source, t, visited, r, file, refused);
    CopyStepDecision(source, r.replica, file, refused);
    var u, u' := r.replica, CopyStep(source, r.replica, file, refused).replica;
    assert forall f :: f in visited + [file] <==> f in visited || f == file;
    forall p | p in u' && p !in t
      ensures p in visited + [file] || (IsDir(source, p) && u'[p] == Dir)
    {
      if p !in u && p != file {
        AboveParent(p, file);
        AncestorIsDir(source, p, file);
      }
    }
  }

  /** The lines of one turn that did not fail: a created directory and a copied file, as needed. */
  lemma CopyStepEvents(source: Tree, t: Tree, file: Path, refused: set<Action>)
    requires file != []
    requires CopyStep(source, t, file, refused).failure.None?
    ensures var s := CopyStep(source, t, file, refused);
      && (CopiedFile(file) in s.events <==> Stale(source, t, file))
      && (forall m :: m in s.events ==> m == CopiedFile(file) || m == CreatedDirectory(Parent(file)))
  {
    CopyStepDecision(source, t, file, refused);
  }

  lemma TurnLogsCopies(source: Tree, t: Tree, visited: seq<Path>, r: Trace, file: Path, refused: set<Action>)
    requires TurnAhead(source, t, visited, r, file, refused)
    ensures var s := CopyStep(source, r.replica, file, refused);
      && (forall f :: CopiedFile(f) in r.events + s.events <==> f in visited + [file] && Stale(source, t, f))
      && (forall m :: m in r.events + s.events ==> m.CopiedFile? || m.CreatedDirectory?)
  {
    TurnSeesOriginal(source, t, visited, r, file, refused);
    CopyStepEvents(source, r.replica, file, refused);
    var s := CopyStep(source, r.replica, file, refused);
    forall f
      ensures CopiedFile(f) in r.events + s.events <==> f in visited + [file] && Stale(source, t, f)
    {
      assert CopiedFile(f) in r.events + s.events <==> CopiedFile(f) in r.events || CopiedFile(f) in s.events;
      assert f in visited + [file] <==> f in visited || f == file;
      assert CopiedFile(f) in s.events ==> f == file;
    }
    forall m | m in r.events + s.events
      ensures m.CopiedFile? || m.CreatedDirectory?
    {
      assert m in r.events || m in s.events;
    }
  }

  lemma TurnLogsDirectories(source: Tree, t: Tree, visited: seq<Path>, r: Trace, file: Path, refused: set<Action>)
    requires TurnAhead(source, t, visited, r, file, refused)
    ensures var s := CopyStep(source, r.replica, file, refused);
      forall d :: CreatedDirectory(d) in r.events + s.events ==> d !in t && IsDir(s.replica, d)
  {
    TurnSeesOriginal(source, t, visited, r, file, refused);
    CopyStepDecision(source, r.replica, file, refused);
    var s := CopyStep(source, r.replica, file, refused);
    var u, u' := r.replica, s.replica;
    forall d | CreatedDirectory(d) in r.events + s.events
      ensures d !in t && IsDir(u', d)
    {
      if CreatedDirectory(d) in r.events {
        assert IsDir(u, d);
      } else {
        var dir := Parent(file);
        assert CreatedDirectory(d) in s.events;
        assert d == dir && !IsDir(u, dir);
        assert dir == dir[..|dir|];
        assert !IsFile(u, dir);
      }
    }
  }

  /** One more turn keeps the description `Propagated` true. */
  lemma PropagatedStep(source: Tree, t: Tree, visited: seq<Path>, r: Trace, file: Path, refused: set<Action>)
    requires TurnAhead(source, t, visited, r, file, refused)
    ensures var s := CopyStep(source, r.replica, file, refused);
            Propagated(source, t, visited + [file], Trace(s.replica, r.events + s.events, None))
  {
    TurnKeepsEntries(source, t, visited, r, file, refused);
    TurnAddsSourceDirectories(source, t, visited, r, file, refused);
    TurnLogsCopies(source, t, visited, r, file, refused);
    TurnLogsDirectories(source, t, visited, r, file, refused);
  }

  /** The turn for `files[i]` of a propagate loop that has not failed so far, when it does not fail either. */
  lemma PropagateTurn(source: Tree, t: Tree, files: seq<Path>, i: nat, refused: set<Action>)
    requires WellFormed(source) && IsDir(source, [])
    requires Lists(files, FilesOf(source))
    requires i < |files|
    requires Run(Propagating, source, t, files[..i], refused).failure.None?
    requires Propagated(source, t, files[..i], Run(Propagating, source, t, files[..i], refused))
    requires Run(Propagating, source, t, files[..i + 1], refused).failure.None?
    ensures Propagated(source, t, files[..i + 1], Run(Propagating, source, t, files[..i + 1], refused))
  {
    assert files[..i] + [files[i]] == files[..i + 1];
    RunOneMore(Propagating, source, t, files, i, refused);
    var r := Run(Propagating, source, t, files[..i], refused);
    var s := CopyStep(source, r.replica, files[i], refused);
    assert Run(Propagating, source, t, files[..i + 1], refused) == Trace(s.replica, r.events + s.events, s.failure);
    ListedTurnAhead(source, t, files, i, r, refused);
    PropagatedStep(source, t, files[..i], r, files[i], refused);
  }

  /** The turn for `files[i]`, after turns for the files before it, is a `TurnAhead`. */
  lemma ListedTurnAhead(source: Tree, t: Tree, files: seq<Path>, i: nat, r: Trace, refused: set<Action>)
    requires WellFormed(source) && IsDir(source, [])
    requires Lists(files, FilesOf(source))
    requires i < |files|
    requires Propagated(source, t, files[..i], r)
    requires CopyStep(source, r.replica, files[i], refused).failure.None?
    ensures TurnAhead(source, t, files[..i], r, files[i], refused)
  {
    assert files[i] in files;
    NotEarlier(files, i);
    assert forall f :: f in files[..i] ==> f in files;
  }

  /** After any number of turns that did not fail, `Propagated` describes the replica and the log. */
  lemma {:induction false} PropagateInvariant(source: Tree, t: Tree, files: seq<Path>, k: nat, refused: set<Action>)
    requires WellFormed(source) && IsDir(source, [])
    requires Lists(files, FilesOf(source))
    requires k <= |files|
    requires Run(Propagating, source, t, files[..k], refused).failure.None?
    ensures Propagated(source, t, files[..k], Run(Propagating, source, t, files[..k], refused))
    decreases k
  {
    if k == 0 {
      assert files[..k] == [];
    } else {
      var i := k - 1;
      assert files[..k][..i] == files[..i];
      PropagateInvariant(source, t, files, i, refused);
      PropagateTurn(source, t, files, i, refused);
    }
  }

  /**
   * The lines of propagate turns for `visited` repeat nothing; a copy line
   * names a visited file; a created directory is a source directory the
   * replica `r` still has.
   */
  ghost predicate LoggedOnce(source: Tree, visited: seq<Path>, r: Trace) {
    && Distinct(r.events)
    && (forall f :: CopiedFile(f) in r.events ==> f in visited)
    && (forall d :: CreatedDirectory(d) in r.events ==> IsDir(source, d) && IsDir(r.replica, d))
  }

  /** One more propagate turn that does not fail keeps `LoggedOnce` true. */
  lemma LoggedOnceGrows(source: Tree, visited: seq<Path>, prev: Trace, file: Path, refused: set<Action>)
    requires WellFormed(source) && IsDir(source, [])
    requires IsFile(source, file) && file !in visited
    requires LoggedOnce(source, visited, prev)
    requires CopyStep(source, prev.replica, file, refused).failure.None?
    ensures var s := CopyStep(source, prev.replica, file, refused);
      LoggedOnce(source, visited + [file], Trace(s.replica, prev.events + s.events, None))
  {
    TurnRepeatsNothing(source, visited, prev, file, refused);
    TurnKeepsCreatedDirectories(source, visited, prev, file, refused);
    var s := CopyStep(source, prev.replica, file, refused);
    CopyStepEvents(source, prev.replica, file, refused);
    forall f | CopiedFile(f) in prev.events + s.events ensures f in visited + [file] {
      assert CopiedFile(f) in prev.events || f == file;
    }
  }

  /** A turn logs neither a copy of an earlier file nor a directory created earlier, which is still there. */
  lemma TurnRepeatsNothing(source: Tree, visited: seq<Path>, prev: Trace, file: Path, refused: set<Action>)
    requires IsDir(source, [])
    requires IsFile(source, file) && file !in visited
    requires LoggedOnce(source, visited, prev)
    requires CopyStep(source, prev.replica, file, refused).failure.None?
    ensures Distinct(prev.events + CopyStep(source, prev.replica, file, refused).events)
  {
    var s := CopyStep(source, prev.replica, file, refused);
    CopyStepDecision(source, prev.replica, file, refused);
    forall m | m in s.events ensures m !in prev.events {
      if m == CopiedFile(file) {
        assert file !in visited;
      }
    }
    DistinctJoin(prev.events, s.events);
  }

  /** A turn that does not fail keeps every directory created so far, none of them being the source file it copies. */
  lemma TurnKeepsCreatedDirectories(source: Tree, visited: seq<Path>, prev: Trace, file: Path, refused: set<Action>)
    requires WellFormed(source) && IsDir(source, [])
    requires IsFile(source, file)
    requires LoggedOnce(source, visited, prev)
    requires CopyStep(source, prev.replica, file, refused).failure.None?
    ensures var s := CopyStep(source, prev.replica, file, refused);
      forall d :: CreatedDirectory(d) in prev.events + s.events ==> IsDir(source, d) && IsDir(s.replica, d)
  {
    var s := CopyStep(source, prev.replica, file, refused);
    CopyStepDecision(source, prev.replica, file, refused);
    forall d | CreatedDirectory(d) in prev.events + s.events
      ensures IsDir(source, d) && IsDir(s.replica, d)
    {
      if CreatedDirectory(d) in prev.events {
        assert d != file;
      } else {
        assert d == Parent(file);
      }
    }
  }

  /**
   * A propagate loop that does not fail logs no line twice. A copy line names
   * a listed file, and the listing names each file once. A directory is
   * created, with its line, only where the replica has no directory; it is a
   * directory of the source, so no later copy replaces it.
   */
  lemma {:induction false} PropagateLogsOnce(source: Tree, t: Tree, files: seq<Path>, refused: set<Action>)
    requires WellFormed(source) && IsDir(source, [])
    requires Distinct(files) && forall f :: f in files ==> IsFile(source, f)
    requires Run(Propagating, source, t, files, refused).failure.None?
    ensures LoggedOnce(source, files, Run(Propagating, source, t, files, refused))
    decreases |files|
  {
    if files != [] {
      var init, file := files[..|files| - 1], files[|files| - 1];
      assert files == init + [file];
      DistinctInit(files);
      NotEarlier(files, |files| - 1);
      var prev := Run(Propagating, source, t, init, refused);
      assert forall f :: f in init ==> f in files;
      PropagateLogsOnce(source, t, init, refused);
      assert file in files;
      var s := CopyStep(source, prev.replica, file, refused);
      assert Run(Propagating, source, t, files, refused) == Trace(s.replica, prev.events + s.events, None);
      LoggedOnceGrows(source, init, prev, file, refused);
    }
  }

  /**
   * A propagate loop over a listing of every source file that did not fail
   * leaves every source file in the replica, copied exactly when it was
   * missing or older there, so that no replica file is older than its source;
   * leaves every other entry alone; adds nothing but source files and
   * directories; and logs a copy line for exactly the copied files, and no
   * line twice.
   */
  lemma PropagateEffect(source: Tree, t: Tree, files: seq<Path>, refused: set<Action>)
    requires WellFormed(source) && IsDir(source, [])
    requires Lists(files, FilesOf(source))
    requires Run(Propagating, source, t, files, refused).failure.None?
    ensures var r := Run(Propagating, source, t, files, refused);
      && (forall f :: IsFile(source, f) ==>
            IsFile(r.replica, f) && r.replica[f] == (if Stale(source, t, f) then source[f] else t[f]))
      && (forall f :: IsFile(source, f) ==> r.replica[f].mtime >= source[f].mtime)
      && (forall p :: p in t && !IsFile(source, p) ==> p in r.replica && r.replica[p] == t[p])
      && (forall p :: p in r.replica && p !in t ==> IsFile(source, p) || (IsDir(source, p) && r.replica[p] == Dir))
      && (forall f :: CopiedFile(f) in r.events <==> IsFile(source, f) && Stale(source, t, f))
      && (forall d :: CreatedDirectory(d) in r.events ==> d !in t && IsDir(r.replica, d))
      && (forall m :: m in r.events ==> m.CopiedFile? || m.CreatedDirectory?)
      && Distinct(r.events)
  {
    assert files[..|files|] == files;
    PropagateInvariant(source, t, files, |files|, refused);
    PropagateLogsOnce(source, t, files, refused);
  }
}
