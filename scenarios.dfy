/**
 * Particular situations in which the program behaves otherwise than one
 * might expect of a mirror: a source file facing a replica directory of the
 * same name and the reverse, stale directories with stale directories inside them, and an
 * empty source directory.
 */
module Scenarios {
  import opened Wrappers
  import opened Paths
  import opened FileSystem
  import opened SyncPass
  import opened PassProperties

  /** The turn for a file the replica holds as a directory fails and keeps that directory. */
  lemma CopyOntoDirectoryFails(source: Tree, u: Tree, f: Path, refused: set<Action>)
    requires IsDir(u, f)
    ensures CopyStep(source, u, f, refused).failure.Some?
    ensures IsDir(CopyStep(source, u, f, refused).replica, f)
  {
    var dir := Parent(f);
    if !IsDir(u, dir) && CreateDirectory(u, dir, refused).Ok? {
      assert IsDir(CreateDirectory(u, dir, refused).value, f);
    }
  }

  /** No propagate turn takes away a directory the replica has. */
  lemma {:induction false} PropagateKeepsDirectory(source: Tree, t: Tree, items: seq<Path>, f: Path, refused: set<Action>)
    requires IsDir(t, f)
    ensures IsDir(Run(Propagating, source, t, items, refused).replica, f)
    decreases |items|
  {
    if items != [] {
      var prev := Run(Propagating, source, t, items[..|items| - 1], refused);
      PropagateKeepsDirectory(source, t, items[..|items| - 1], f, refused);
      var g := items[|items| - 1];
      if prev.failure.None? {
        if g == f {
          CopyOntoDirectoryFails(source, prev.replica, f, refused);
        } else {
          var dir := Parent(g);
          if !IsDir(prev.replica, dir) && CreateDirectory(prev.replica, dir, refused).Ok? {
            assert IsDir(CreateDirectory(prev.replica, dir, refused).value, f);
          }
        }
      }
    }
  }

  /** A propagate loop that comes to a file the replica holds as a directory fails. */
  lemma {:induction false} PropagateFailsOnDirectory(source: Tree, t: Tree, items: seq<Path>, f: Path, refused: set<Action>)
    requires IsDir(t, f) && f in items
    ensures Run(Propagating, source, t, items, refused).failure.Some?
    decreases |items|
  {
    var init := items[..|items| - 1];
    var prev := Run(Propagating, source, t, init, refused);
    if f in init {
      PropagateFailsOnDirectory(source, t, init, f, refused);
    } else if prev.failure.None? {
      assert items == init + [items[|items| - 1]];
      PropagateKeepsDirectory(source, t, init, f, refused);
      CopyOntoDirectoryFails(source, prev.replica, f, refused);
    }
  }

  /**
   * A source file whose path the replica holds as a directory makes the pass
   * fail, and the directory is still there afterwards. Applied again to the
   * pass's result, this shows that every later pass fails too, as long as the
   * source keeps the file.
   */
  lemma FileOverDirectoryKeepsFailing(source: Tree, t: Tree, f: Path, refused: set<Action>, listings: Listings)
    requires IsFile(source, f) && IsDir(t, f)
    requires ValidListings(source, t, refused, listings)
    ensures Pass(source, t, refused, listings).failure.Some?
    ensures IsDir(Pass(source, t, refused, listings).replica, f)
  {
    if IsDir(source, []) {
      assert f in listings.sourceFiles;
      PropagateFailsOnDirectory(source, t, listings.sourceFiles, f, refused);
      PropagateKeepsDirectory(source, t, listings.sourceFiles, f, refused);
    }
  }

  /** No propagate turn changes a replica file that is not a source file. */
  lemma {:induction false} PropagateKeepsFile(source: Tree, t: Tree, items: seq<Path>, d: Path, refused: set<Action>)
    requires IsFile(t, d) && !IsFile(source, d)
    ensures var r := Run(Propagating, source, t, items, refused).replica;
      d in r && r[d] == t[d]
    decreases |items|
  {
    if items != [] {
      var prev := Run(Propagating, source, t, items[..|items| - 1], refused);
      PropagateKeepsFile(source, t, items[..|items| - 1], d, refused);
      if prev.failure.None? {
        var g := items[|items| - 1];
        var made := MakeParent(prev.replica, g, refused);
        assert d in made.replica && made.replica[d] == t[d];
        if made.failure.None? && g == d {
          assert !Stale(source, made.replica, d);
        }
      }
    }
  }

  /** A replica file blocks every path below it: none of them is a directory. */
  lemma {:induction false} NoDirectoryUnderFile(u: Tree, d: Path, q: Path)
    requires WellFormed(u) && IsFile(u, d) && IsPrefix(d, q)
    ensures !IsDir(u, q)
  {
    if q != d && IsDir(u, q) {
      AncestorIsDir(u, d, q);
    }
  }

  /** The turn for a source file below a replica file fails: its directory cannot be created. */
  lemma CopyUnderFileFails(source: Tree, u: Tree, d: Path, g: Path, refused: set<Action>)
    requires WellFormed(u) && IsFile(u, d) && IsPrefix(d, g) && d != g
    ensures CopyStep(source, u, g, refused).failure == Some(WrongKind(Parent(g)))
  {
    var dir := Parent(g);
    assert IsPrefix(d, dir) by {
      assert dir[..|d|] == g[..|d|];
    }
    NoDirectoryUnderFile(u, d, dir);
    assert dir[..|d|] == d;
  }

  /** A propagate loop that comes to a source file below a replica file fails. */
  lemma {:induction false} PropagateFailsUnderFile(source: Tree, t: Tree, items: seq<Path>, d: Path, g: Path, refused: set<Action>)
    requires WellFormed(t) && IsFile(t, d) && !IsFile(source, d)
    requires IsPrefix(d, g) && d != g && g in items
    ensures Run(Propagating, source, t, items, refused).failure.Some?
    decreases |items|
  {
    var init := items[..|items| - 1];
    var prev := Run(Propagating, source, t, init, refused);
    if g in init {
      PropagateFailsUnderFile(source, t, init, d, g, refused);
    } else if prev.failure.None? {
      assert items == init + [items[|items| - 1]];
      PassProperties.RunKeepsWellFormed(Propagating, source, t, init, refused);
      PropagateKeepsFile(source, t, init, d, refused);
      CopyUnderFileFails(source, prev.replica, d, g, refused);
    }
  }

  /**
   * A replica file `d` where the source has a directory holding a file `g`:
   * creating the replica directory for `g` throws, so the pass fails in the
   * propagate loop, before the file-pruning loop could delete `d`, and the
   * file `d` is still there afterwards, unchanged. Applied again to the
   * pass's result, this shows that every later pass fails too, as long as
   * the source keeps `g`.
   */
  lemma DirectoryOverFileKeepsFailing(source: Tree, t: Tree, d: Path, g: Path, refused: set<Action>, listings: Listings)
    requires WellFormed(source) && WellFormed(t)
    requires IsFile(t, d) && IsFile(source, g) && IsPrefix(d, g) && d != g
    requires ValidListings(source, t, refused, listings)
    ensures Pass(source, t, refused, listings).failure.Some?
    ensures IsFile(Pass(source, t, refused, listings).replica, d)
    ensures Pass(source, t, refused, listings).replica[d] == t[d]
  {
    AncestorIsDir(source, d, g);
    AncestorIsDir(source, [], g);
    assert g in listings.sourceFiles;
    PropagateFailsUnderFile(source, t, listings.sourceFiles, d, g, refused);
    PropagateKeepsFile(source, t, listings.sourceFiles, d, refused);
  }

  /**
   * An empty directory in the source is never created in the replica: over
   * a replica holding only its root, every pass completes without a change.
   */
  lemma EmptySourceDirectoryIsNotMirrored(refused: set<Action>, listings: Listings)
    requires ValidListings(map[[] := Dir, ["empty"] := Dir], map[[] := Dir], refused, listings)
    ensures var r := Pass(map[[] := Dir, ["empty"] := Dir], map[[] := Dir], refused, listings);
      && r == Trace(map[[] := Dir], [SyncCompleted], None)
      && ["empty"] !in r.replica
  {
    var source: Tree := map[[] := Dir, ["empty"] := Dir];
    var t: Tree := map[[] := Dir];
    assert forall p :: p in t ==> p == [];
    ConvergedPassIsQuiet(source, t, refused, listings);
  }

  /**
   * A stale directory listed before a stale directory inside it: the outer
   * deletion also removes the inner one, whose own deletion then throws,
   * so the pass fails, though the replica is by then pruned; the next pass
   * completes.
   */
  lemma NestedStaleDirectoriesFailOnce(refused: set<Action>)
    requires RemoveDirectory(["old"]) !in refused
    ensures var source: Tree := map[[] := Dir];
      var t: Tree := map[[] := Dir, ["old"] := Dir, ["old", "sub"] := Dir];
      var r := Pass(source, t, refused, Listings([], [], [["old"], ["old", "sub"]]));
      && ValidListings(source, t, refused, Listings([], [], [["old"], ["old", "sub"]]))
      && r == Trace(map[[] := Dir], [DeletedDirectory(["old"]), SyncError(NotFound(Replica, ["old", "sub"]))],
                    Some(NotFound(Replica, ["old", "sub"])))
      && Pass(source, r.replica, refused, Listings([], [], [])) == Trace(r.replica, [SyncCompleted], None)
  {
    var source: Tree := map[[] := Dir];
    var t: Tree := map[[] := Dir, ["old"] := Dir, ["old", "sub"] := Dir];
    assert DirsOf(t) == {["old"], ["old", "sub"]};
    assert FilesOf(t) == {};
    assert FilesOf(source) == {};
    NestedPruneRun(source, t, "old", "sub", refused);
  }

  /** Over the listing `n`, `n/m`, the directory loop deletes `n` with one line and then fails on `n/m`, which went with it. */
  lemma NestedPruneRun(source: Tree, t: Tree, n: string, m: string, refused: set<Action>)
    requires source == map[[] := Dir]
    requires t == map[[] := Dir, [n] := Dir, [n, m] := Dir]
    requires RemoveDirectory([n]) !in refused
    ensures Run(PruningDirectories, source, t, [[n], [n, m]], refused)
        == Trace(map[[] := Dir], [DeletedDirectory([n])], Some(NotFound(Replica, [n, m])))
  {
    var dirs: seq<Path> := [[n], [n, m]];
    var pruned := Without(t, [n]);
    assert IsPrefix([n], [n, m]);
    assert pruned == map[[] := Dir] by {
      assert forall p :: p in pruned <==> p == [];
    }
    assert dirs[..1] == [[n]];
    assert Run(PruningDirectories, source, t, dirs[..1], refused) == Trace(pruned, [DeletedDirectory([n])], None);
  }

  /**
   * Two stale directories, each holding a stale directory, listed outer
   * before inner: the first pass deletes `a`, fails on `a/x` and leaves `b`
   * and `b/y`; the next pass, listing `b` before `b/y`, fails in the same
   * way. Consecutive passes can thus both fail.
   */
  lemma NestedPairsFailInTurn(refused: set<Action>)
    requires RemoveDirectory(["a"]) !in refused && RemoveDirectory(["b"]) !in refused
    ensures var source: Tree := map[[] := Dir];
      var t: Tree := map[[] := Dir, ["a"] := Dir, ["a", "x"] := Dir, ["b"] := Dir, ["b", "y"] := Dir];
      var first := Listings([], [], [["a"], ["a", "x"], ["b"], ["b", "y"]]);
      var r := Pass(source, t, refused, first);
      var second := Listings([], [], [["b"], ["b", "y"]]);
      && ValidListings(source, t, refused, first)
      && r.failure == Some(NotFound(Replica, ["a", "x"]))
      && r.replica == map[[] := Dir, ["b"] := Dir, ["b", "y"] := Dir]
      && ValidListings(source, r.replica, refused, second)
      && Pass(source, r.replica, refused, second).failure == Some(NotFound(Replica, ["b", "y"]))
  {
    assert "a" != "b" by {
      assert "a"[0] != "b"[0];
    }
    FirstPairPass("a", "x", "b", "y", refused);
    SecondPairPass("b", "y", refused);
  }

  /** The first pass of `NestedPairsFailInTurn`, for any names. */
  lemma FirstPairPass(n: string, m: string, k: string, j: string, refused: set<Action>)
    requires n != k && RemoveDirectory([n]) !in refused
    ensures var source: Tree := map[[] := Dir];
      var t: Tree := map[[] := Dir, [n] := Dir, [n, m] := Dir, [k] := Dir, [k, j] := Dir];
      var first := Listings([], [], [[n], [n, m], [k], [k, j]]);
      var r := Pass(source, t, refused, first);
      && ValidListings(source, t, refused, first)
      && r.failure == Some(NotFound(Replica, [n, m]))
      && r.replica == map[[] := Dir, [k] := Dir, [k, j] := Dir]
  {
    var source: Tree := map[[] := Dir];
    var t: Tree := map[[] := Dir, [n] := Dir, [n, m] := Dir, [k] := Dir, [k, j] := Dir];
    var left: Tree := map[[] := Dir, [k] := Dir, [k, j] := Dir];
    PairListing(t, n, m, k, j);
    assert FilesOf(source) == {};
    FirstPairRun(source, t, left, n, m, k, j, refused);
    assert Attempt(source, t, refused, Listings([], [], [[n], [n, m], [k], [k, j]]))
        == Trace(left, [DeletedDirectory([n])], Some(NotFound(Replica, [n, m])));
  }

  /** What the two listings of the first replica of `NestedPairsFailInTurn` hold. */
  lemma PairListing(t: Tree, n: string, m: string, k: string, j: string)
    requires t == map[[] := Dir, [n] := Dir, [n, m] := Dir, [k] := Dir, [k, j] := Dir]
    ensures FilesOf(t) == {}
    ensures DirsOf(t) == {[n], [n, m], [k], [k, j]}
  {
  }

  /** The directory loop of the first pass of `NestedPairsFailInTurn`. */
  lemma FirstPairRun(source: Tree, t: Tree, left: Tree, n: string, m: string, k: string, j: string, refused: set<Action>)
    requires n != k
    requires source == map[[] := Dir]
    requires t == map[[] := Dir, [n] := Dir, [n, m] := Dir, [k] := Dir, [k, j] := Dir]
    requires left == map[[] := Dir, [k] := Dir, [k, j] := Dir]
    requires RemoveDirectory([n]) !in refused
    ensures Run(PruningDirectories, source, t, [[n], [n, m], [k], [k, j]], refused)
        == Trace(left, [DeletedDirectory([n])], Some(NotFound(Replica, [n, m])))
  {
    var dirs: seq<Path> := [[n], [n, m], [k], [k, j]];
    PairPruned(t, left, n, m, k, j);
    assert dirs[..1] == [[n]];
    assert dirs[..2][..1] == [[n]];
    assert Run(PruningDirectories, source, t, dirs[..1], refused) == Trace(left, [DeletedDirectory([n])], None);
    assert Run(PruningDirectories, source, t, dirs[..2], refused)
        == Trace(left, [DeletedDirectory([n])], Some(NotFound(Replica, [n, m])));
    RunStopsAtFailure(PruningDirectories, source, t, dirs, 2, refused);
  }

  /** Deleting `n` from the first replica of `NestedPairsFailInTurn` leaves the root, `k` and `k/j`. */
  lemma PairPruned(t: Tree, left: Tree, n: string, m: string, k: string, j: string)
    requires n != k
    requires t == map[[] := Dir, [n] := Dir, [n, m] := Dir, [k] := Dir, [k, j] := Dir]
    requires left == map[[] := Dir, [k] := Dir, [k, j] := Dir]
    ensures Without(t, [n]) == left
  {
    var pruned := Without(t, [n]);
    assert IsPrefix([n], [n, m]);
    assert [k][..1] == [k] && [k, j][..1] == [k];
    assert forall p :: p in pruned <==> p in left;
  }

  /** The second pass of `NestedPairsFailInTurn`, for any names. */
  lemma SecondPairPass(k: string, j: string, refused: set<Action>)
    requires RemoveDirectory([k]) !in refused
    ensures var source: Tree := map[[] := Dir];
      var left: Tree := map[[] := Dir, [k] := Dir, [k, j] := Dir];
      var second := Listings([], [], [[k], [k, j]]);
      && ValidListings(source, left, refused, second)
      && Pass(source, left, refused, second).failure == Some(NotFound(Replica, [k, j]))
  {
    var source: Tree := map[[] := Dir];
    var left: Tree := map[[] := Dir, [k] := Dir, [k, j] := Dir];
    assert FilesOf(source) == {};
    assert FilesOf(left) == {};
    assert DirsOf(left) == {[k], [k, j]};
    NestedPruneRun(source, left, k, j, refused);
  }
}
