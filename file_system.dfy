/**
 * The file system as the synchronizer sees it: each of the two folders is a
 * tree of entries keyed by relative path, and the four mutating primitives the
 * pass uses (`Directory.CreateDirectory`, `File.Copy` with overwrite,
 * `File.Delete`, recursive `Directory.Delete`) are functions that either give
 * the new tree or the failure the platform would throw.
 */
module FileSystem {
  import opened Wrappers
  import opened Paths

  type Bytes = seq<bv8>

  /** A file carries its last-write time and its content; a directory carries nothing. */
  datatype Entry = File(mtime: int, content: Bytes) | Dir

  /** One folder: relative path to entry. */
  type Tree = map<Path, Entry>

  /** Which of the two folders a path belongs to. */
  datatype Side = Source | Replica

  /** A mutating operation on the replica, as the platform would be asked to perform it. */
  datatype Action =
    | MakeDirectory(dir: Path)
    | CopyOver(file: Path)
    | RemoveFile(file: Path)
    | RemoveDirectory(dir: Path)

  /** What a failing primitive throws. */
  datatype Failure =
    | NotFound(side: Side, path: Path)   // DirectoryNotFoundException / FileNotFoundException
    | WrongKind(path: Path)              // a file where a directory is needed, or the reverse
    | Refused(action: Action)            // the platform denied the operation (permissions, locks)

  predicate IsFile(t: Tree, p: Path) {
    p in t && t[p].File?
  }

  predicate IsDir(t: Tree, p: Path) {
    p in t && t[p].Dir?
  }

  /** A real directory tree: everything except the root sits in a directory. */
  ghost predicate WellFormed(t: Tree) {
    forall p :: p in t && p != [] ==> IsDir(t, Parent(p))
  }

  /** What `Directory.GetFiles(root, "*", AllDirectories)` enumerates. */
  function FilesOf(t: Tree): (s: set<Path>)
    ensures forall p :: p in s <==> IsFile(t, p)
  {
    set p | p in t && t[p].File?
  }

  /** What `Directory.GetDirectories(root, "*", AllDirectories)` enumerates: every directory below the root. */
  function DirsOf(t: Tree): (s: set<Path>)
    ensures forall p :: p in s <==> p != [] && IsDir(t, p)
  {
    set p | p in t && p != [] && t[p].Dir?
  }

  /** No element of `s` occurs twice. */
  predicate Distinct<T(==)>(s: seq<T>) {
    forall i, j :: 0 <= i < j < |s| ==> s[i] != s[j]
  }

  /** In a sequence without repeats, an element does not occur before its own place. */
  lemma NotEarlier<T>(s: seq<T>, i: nat)
    requires Distinct(s) && i < |s|
    ensures s[i] !in s[..i]
  {
    forall j | 0 <= j < i ensures s[..i][j] != s[i] {
      assert s[..i][j] == s[j];
    }
  }

  /** Leaving out the last element keeps a sequence without repeats. */
  lemma DistinctInit<T>(s: seq<T>)
    requires Distinct(s) && s != []
    ensures Distinct(s[..|s| - 1])
  {
  }

  /** Two sequences without repeats and without a common element make one without repeats. */
  lemma DistinctJoin<T>(a: seq<T>, b: seq<T>)
    requires Distinct(a) && Distinct(b)
    requires forall x :: x in b ==> x !in a
    ensures Distinct(a + b)
  {
    forall i, j | 0 <= i < j < |a + b| ensures (a + b)[i] != (a + b)[j] {
      if j >= |a| && i < |a| {
        assert (a + b)[j] == b[j - |a|] && b[j - |a|] in b;
      }
    }
  }

  /** `s` enumerates `paths`: each exactly once, in some order. */
  predicate Lists(s: seq<Path>, paths: set<Path>) {
    && Distinct(s)
    && (forall p :: p in s ==> p in paths)
    && (forall p :: p in paths ==> p in s)
  }

  /** `t` with the subtree rooted at `dir` removed. */
  function Without(t: Tree, dir: Path): (r: Tree)
    ensures forall p :: p in r <==> p in t && !IsPrefix(dir, p)
    ensures forall p :: p in r ==> r[p] == t[p]
  {
    map p | p in t && !IsPrefix(dir, p) :: t[p]
  }

  /**
   * `Directory.CreateDirectory(dir)`: creates `dir` and every missing ancestor.
   * It throws when `dir` or an ancestor already exists as a file.
   */
  function CreateDirectory(t: Tree, dir: Path, refused: set<Action>): (r: Result<Tree, Failure>)
    ensures r.Ok? <==> (forall k :: 0 <= k <= |dir| ==> !IsFile(t, dir[..k])) && MakeDirectory(dir) !in refused
    ensures r.Ok? ==> IsDir(r.value, dir)
    ensures r.Ok? ==> forall p :: p in t ==> p in r.value && r.value[p] == t[p]
    ensures r.Ok? ==> forall p :: p in r.value && p !in t ==> IsPrefix(p, dir) && r.value[p] == Dir
  {
    if exists k :: 0 <= k <= |dir| && IsFile(t, dir[..k]) then Err(WrongKind(dir))
    else if MakeDirectory(dir) in refused then Err(Refused(MakeDirectory(dir)))
    else
      var made := map p | p in Lineage(dir) :: Dir;
      assert forall p :: p in t && p in made ==> t[p] == Dir by {
        forall p | p in t && p in made ensures t[p] == Dir {
          assert p == dir[..|p|];
        }
      }
      assert dir == dir[..|dir|];
      Ok(t + made)
  }

  /**
   * `File.Copy(sourceFile, replicaFile, true)`: the replica file becomes the
   * source file, last-write time included. It throws when the source file is
   * gone, when the target's directory is missing, or when the target is a directory.
   */
  function CopyFile(source: Tree, t: Tree, file: Path, refused: set<Action>): (r: Result<Tree, Failure>)
    ensures r.Ok? <==> IsFile(source, file) && IsDir(t, Parent(file)) && !IsDir(t, file) && CopyOver(file) !in refused
    ensures r.Ok? ==> r.value.Keys == t.Keys + {file} && r.value[file] == source[file]
    ensures r.Ok? ==> forall p :: p in t && p != file ==> r.value[p] == t[p]
  {
    if !IsFile(source, file) then Err(NotFound(Source, file))
    else if !IsDir(t, Parent(file)) then Err(NotFound(Replica, Parent(file)))
    else if IsDir(t, file) then Err(WrongKind(file))
    else if CopyOver(file) in refused then Err(Refused(CopyOver(file)))
    else Ok(t[file := source[file]])
  }

  /**
   * `File.Delete(replicaFile)`: removes the file; a missing file is not an
   * error, a directory at that path is.
   */
  function DeleteFile(t: Tree, file: Path, refused: set<Action>): (r: Result<Tree, Failure>)
    ensures r.Ok? <==> !IsDir(t, file) && RemoveFile(file) !in refused
    ensures r.Ok? ==> r.value.Keys == t.Keys - {file}
    ensures r.Ok? ==> forall p :: p in r.value ==> r.value[p] == t[p]
  {
    if IsDir(t, file) then Err(WrongKind(file))
    else if RemoveFile(file) in refused then Err(Refused(RemoveFile(file)))
    else Ok(t - {file})
  }

  /**
   * `Directory.Delete(replicaDir, true)`: removes the directory and its whole
   * subtree. It throws when the directory does not exist.
   */
  function DeleteDirectory(t: Tree, dir: Path, refused: set<Action>): (r: Result<Tree, Failure>)
    ensures r.Ok? <==> IsDir(t, dir) && RemoveDirectory(dir) !in refused
    ensures !IsDir(t, dir) && !IsFile(t, dir) ==> r == Err(NotFound(Replica, dir))
    ensures r.Ok? ==> forall p :: p in r.value <==> p in t && !IsPrefix(dir, p)
    ensures r.Ok? ==> forall p :: p in r.value ==> r.value[p] == t[p]
  {
    if IsFile(t, dir) then Err(WrongKind(dir))
    else if dir !in t then Err(NotFound(Replica, dir))
    else if RemoveDirectory(dir) in refused then Err(Refused(RemoveDirectory(dir)))
    else Ok(Without(t, dir))
  }

  /** In a real tree every ancestor of an entry is a directory. */
  lemma {:induction false} AncestorIsDir(t: Tree, p: Path, q: Path)
    requires WellFormed(t) && q in t && IsPrefix(p, q) && p != q
    ensures IsDir(t, p)
    decreases |q|
  {
    var up := Parent(q);
    assert IsDir(t, up);
    if up != p {
      assert IsPrefix(p, up) by {
        assert up[..|p|] == q[..|p|];
      }
      AncestorIsDir(t, p, up);
    }
  }

  lemma CreateDirectoryKeepsWellFormed(t: Tree, dir: Path, refused: set<Action>)
    requires WellFormed(t) && CreateDirectory(t, dir, refused).Ok?
    ensures WellFormed(CreateDirectory(t, dir, refused).value)
  {
    var r := CreateDirectory(t, dir, refused).value;
    forall p | p in r && p != []
      ensures IsDir(r, Parent(p))
    {
      if p !in t {
        assert IsPrefix(p, dir);
        var up := Parent(p);
        assert up == dir[..|up|];
        assert !IsFile(t, dir[..|up|]);
        assert IsPrefix(up, dir);
      }
    }
  }

  lemma CopyFileKeepsWellFormed(source: Tree, t: Tree, file: Path, refused: set<Action>)
    requires WellFormed(t) && CopyFile(source, t, file, refused).Ok?
    ensures WellFormed(CopyFile(source, t, file, refused).value)
  {
  }

  lemma DeleteFileKeepsWellFormed(t: Tree, file: Path, refused: set<Action>)
    requires WellFormed(t) && DeleteFile(t, file, refused).Ok?
    ensures WellFormed(DeleteFile(t, file, refused).value)
  {
  }

  lemma DeleteDirectoryKeepsWellFormed(t: Tree, dir: Path, refused: set<Action>)
    requires WellFormed(t) && DeleteDirectory(t, dir, refused).Ok?
    ensures WellFormed(DeleteDirectory(t, dir, refused).value)
  {
    var r := DeleteDirectory(t, dir, refused).value;
    forall p | p in r && p != []
      ensures IsDir(r, Parent(p))
    {
      InsideParentIsInside(dir, p);
    }
  }

  /** What lies inside a directory's child lies inside the directory. */
  lemma InsideParentIsInside(dir: Path, p: Path)
    requires p != []
    ensures IsPrefix(dir, Parent(p)) ==> IsPrefix(dir, p)
  {
    if IsPrefix(dir, Parent(p)) {
      assert p[..|dir|] == Parent(p)[..|dir|];
    }
  }
}
