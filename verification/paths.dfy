/** Paths, bytes and URLs. A path is its list of components; joining a
    relative path onto a base is concatenation, and the component `".."`
    stands for the parent directory. */
module Paths {
  import Text

  type Path = seq<string>

  type Byte = b: int | 0 <= b < 256

  type Bytes = seq<Byte>

  type Url = string

  /** `path.display()`: the components joined with `/`. */
  function Display(p: Path): string
  {
    Text.Join(p, '/')
  }

  /** `path.parent()`: `None` for the empty path, otherwise the path without
      its last component (so a one-component path has the empty parent). */
  function Parent(p: Path): (r: Path)
    requires |p| > 0
    ensures r + [p[|p| - 1]] == p
  {
    p[..|p| - 1]
  }

  /** `q` lies lexically inside `dir` (or is `dir`). */
  predicate Under(q: Path, dir: Path)
  {
    dir <= q
  }

  /** Every file of `a` outside `dir` is still in `b` with the same bytes. */
  predicate KeptOutside(a: map<Path, Bytes>, b: map<Path, Bytes>, dir: Path)
  {
    forall p :: p in a && !Under(p, dir) ==> p in b && b[p] == a[p]
  }
}
