/** Paths and the part of the filesystem the configuration code touches:
    `filepath.Join`, `model.FileExists` and `os.MkdirAll`. */
module Paths {
  import opened Wrappers
  import opened Strings

  type Path = string

  /** The path separator used by the model (the POSIX one). */
  const Separator: char := '/'

  /** The elements of `elems` that are not empty, in their original order. */
  function NonEmpty(elems: seq<Path>): (kept: seq<Path>)
    ensures forall i :: 0 <= i < |kept| ==> kept[i] != ""
    ensures |kept| == 0 <==> forall i :: 0 <= i < |elems| ==> elems[i] == ""
    ensures (forall i :: 0 <= i < |elems| ==> elems[i] != "") ==> kept == elems
    decreases |elems|
  {
    if |elems| == 0 then []
    else
      var rest := NonEmpty(elems[1..]);
      assert forall i :: 1 <= i < |elems| ==> elems[i] == elems[1..][i - 1];
      if elems[0] == "" then rest else [elems[0]] + rest
  }

  /** `filepath.Join`: empty elements are ignored and the rest are separated by
      `Separator`; joining nothing but empty elements gives "". */
  function Join(elems: seq<Path>): (p: Path)
  {
    JoinWith(NonEmpty(elems), Separator)
  }

  /** The directory tree as far as this model needs it: the paths that exist, and the
      missing directories whose creation the operating system refuses. */
  datatype FileSystem = FileSystem(existing: set<Path>, denied: set<Path>)

  /** `model.FileExists` */
  predicate Exists(fs: FileSystem, p: Path) {
    p in fs.existing
  }

  /** `q` is `p` itself or one of its ancestors: a non-empty prefix of `p` that ends
      just before a separator. */
  predicate AncestorOrSelf(q: Path, p: Path) {
    0 < |q| <= |p| && q == p[..|q|] && (|q| == |p| || p[|q|] == Separator)
  }

  /** Every directory `os.MkdirAll(p)` has to exist once it returns. */
  function Lineage(p: Path): (ds: set<Path>)
    ensures forall q :: q in ds <==> AncestorOrSelf(q, p)
  {
    set i | 0 < i <= |p| && (i == |p| || p[i] == Separator) :: p[..i]
  }

  /** The filesystem only gained paths: nothing was removed and nothing became
      creatable or uncreatable. */
  predicate Grows(fs: FileSystem, fs': FileSystem) {
    fs.existing <= fs'.existing && fs'.denied == fs.denied
  }

  /** `os.MkdirAll(p, 0700)`: does nothing when `p` already exists; fails for the empty
      path and when a directory it would have to create is denied; otherwise creates
      `p` with all its missing ancestors. `None` is the error return. */
  function MkdirAll(fs: FileSystem, p: Path): (r: Option<FileSystem>)
    ensures Exists(fs, p) ==> r == Some(fs)
    ensures r.None? <==>
              !Exists(fs, p) &&
              (p == "" || exists q :: AncestorOrSelf(q, p) && q !in fs.existing && q in fs.denied)
    ensures r.Some? ==> Exists(r.value, p) && Grows(fs, r.value)
    ensures r.Some? ==> forall q :: q in r.value.existing && q !in fs.existing ==> AncestorOrSelf(q, p)
    ensures r.Some? && !Exists(fs, p) ==> forall q :: AncestorOrSelf(q, p) ==> Exists(r.value, q)
  {
    if Exists(fs, p) then Some(fs)
    else if p == "" then None
    else
      var missing := Lineage(p) - fs.existing;
      if missing * fs.denied != {} then
        assert exists q :: q in missing * fs.denied;
        None
      else
        assert AncestorOrSelf(p, p);
        assert forall q :: AncestorOrSelf(q, p) && q !in fs.existing ==> q !in fs.denied by {
          forall q | AncestorOrSelf(q, p) && q !in fs.existing ensures q !in fs.denied {
            assert q in missing;
            assert q !in missing * fs.denied;
          }
        }
        Some(FileSystem(fs.existing + Lineage(p), fs.denied))
  }

  /** Creating a directory twice is the same as creating it once. */
  lemma MkdirAllIdempotent(fs: FileSystem, p: Path)
    requires MkdirAll(fs, p).Some?
    ensures MkdirAll(MkdirAll(fs, p).value, p) == MkdirAll(fs, p)
  {
  }

  /** When no element is empty or contains the separator, splitting the joined path at
      the separator gives the elements back. */
  lemma JoinSplitsBack(elems: seq<Path>)
    requires |elems| >= 1
    requires forall i :: 0 <= i < |elems| ==> elems[i] != "" && Separator !in elems[i]
    ensures Split(Join(elems), Separator) == elems
  {
    SplitJoin(elems, Separator);
  }

  /** The joined path is empty exactly when every element is empty. */
  lemma JoinEmpty(elems: seq<Path>)
    ensures Join(elems) == "" <==> forall i :: 0 <= i < |elems| ==> elems[i] == ""
  {
  }
}
