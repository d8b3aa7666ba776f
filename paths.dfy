/**
  Absolute directory paths as the run action walks them. A path is the list of
  its components below the filesystem root: [] is "/", ["home", "ann"] is
  "/home/ann". `Dirname` is `path.dirname` on such a path.
 */
module Paths {
  import opened Text

  type Path = seq<string>

  /** `path.dirname`: drop the last component; the root is its own parent. */
  function Dirname(p: Path): (q: Path)
    ensures q == p <==> p == []
    ensures p != [] ==> q + [p[|p| - 1]] == p
  {
    if p == [] then [] else p[..|p| - 1]
  }

  /**
    The directories the upward walk from `cwd` visits: `cwd` itself and every
    ancestor of it except the root, which is the one path equal to its own
    dirname and so ends the walk before it is looked at.
   */
  predicate OnWalk(dir: Path, cwd: Path) {
    1 <= |dir| <= |cwd| && dir == cwd[..|dir|]
  }

  /** The path as `process.cwd()` prints it, used as the directory key and heading. */
  function Format(p: Path): string {
    "/" + Join(p, "/")
  }
}
