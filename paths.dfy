/**
 * Paths inside one of the two trees. A path is the sequence of names from the
 * tree's root down to the entry, so "the same relative path" under the source
 * and under the replica is simply the same value, `Path.GetRelativePath` is the
 * removal of the root and `Path.Combine` is its re-attachment.
 */
module Paths {

  type Name = string

  /** A path relative to a tree's root; `[]` denotes the root itself. */
  type Path = seq<Name>

  /** `p` is `q` or one of its ancestors. */
  predicate IsPrefix(p: Path, q: Path) {
    |p| <= |q| && q[..|p|] == p
  }

  /** `Path.GetDirectoryName`: the directory that holds `p` (the root holds itself). */
  function Parent(p: Path): (d: Path)
    ensures p != [] ==> |d| == |p| - 1 && IsPrefix(d, p)
    ensures p == [] ==> d == []
  {
    if p == [] then [] else p[..|p| - 1]
  }

  /** The directory `d` together with all of its ancestors up to the root. */
  function Lineage(d: Path): (s: set<Path>)
    ensures forall p :: p in s <==> IsPrefix(p, d)
  {
    var s := set k | 0 <= k <= |d| :: d[..k];
    assert forall p :: IsPrefix(p, d) ==> p in s by {
      forall p | IsPrefix(p, d) ensures p in s {
        assert p == d[..|p|];
      }
    }
    s
  }

  /** `Path.Combine(root, rel)`, with '/' as the separator. */
  function Combine(root: string, rel: Path): (s: string)
    ensures |s| >= |root| && s[..|root|] == root
    decreases |rel|
  {
    if rel == [] then root
    else Combine(root, rel[..|rel| - 1]) + "/" + rel[|rel| - 1]
  }
}
