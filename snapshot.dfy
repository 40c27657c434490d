/**
 * The filesystem as every revision of the listing engine reads it, frozen
 * into an immutable snapshot: a map from paths to their metadata.  A
 * directory's metadata carries the names `read_dir` yields, in enumeration
 * order.  Symbolic links are not modelled.
 */
module Snapshot {
  import opened Base
  import opened Paths

  datatype Kind = RegularFile | Directory(children: seq<string>)

  /** What `metadata()` reports: kind, byte length and, when available, the modification time in seconds. */
  datatype Metadata = Metadata(kind: Kind, size: nat, modified: Option<nat>)

  type Fs = map<Path, Metadata>

  /** The per-directory thumbnail cache directory. */
  const ThumbDirName: string := ".th"

  /** `Path::exists`. */
  predicate Exists(fs: Fs, p: Path) {
    p in fs
  }

  /** `Path::is_dir`. */
  predicate IsDir(fs: Fs, p: Path) {
    p in fs && fs[p].kind.Directory?
  }

  /** A directory exists: once `is_dir` holds, an added `exists` test decides nothing. */
  lemma IsDirExists(fs: Fs, p: Path)
    ensures IsDir(fs, p) ==> Exists(fs, p)
    ensures !Exists(fs, p) ==> !IsDir(fs, p)
  {
  }

  /** The names `read_dir` yields for a directory, in enumeration order. */
  function ReadDir(fs: Fs, dir: Path): seq<string>
    requires IsDir(fs, dir)
  {
    fs[dir].kind.children
  }

  /** The `io::ErrorKind`s `read_dir` fails with on a snapshot. */
  datatype IoError = NotFound | NotADirectory

  /** `fs::read_dir`: the names of a directory's entries, or why there are none. */
  function ReadDirChecked(fs: Fs, p: Path): (r: Result<seq<string>, IoError>)
    ensures r.Ok? <==> IsDir(fs, p)
    ensures r.Ok? ==> r.value == ReadDir(fs, p)
    ensures r == Err(NotFound) <==> p !in fs
  {
    if p !in fs then Err(NotFound)
    else if !IsDir(fs, p) then Err(NotADirectory)
    else Ok(ReadDir(fs, p))
  }

  /** `DirEntry::path`: the directory joined with one child's name. */
  function ChildPath(dir: Path, name: string): (p: Path)
    ensures FileName(p) == Some(name) && Parent(p) == Some(dir)
  {
    assert (dir + [Normal(name)])[..|dir|] == dir;
    dir + [Normal(name)]
  }

  /** For a proper name, `ChildPath` is exactly `Path::join`. */
  lemma JoinIsChildPath(dir: Path, name: string)
    requires IsName(name)
    ensures Join(dir, name) == ChildPath(dir, name)
  {
    PushName(dir, name);
  }

  /**
   * Every child in `cs` other than the cache directory has metadata: the
   * `metadata().unwrap()` the scan applies to each of them succeeds.
   */
  predicate ChildrenReadable(fs: Fs, dir: Path, cs: seq<string>) {
    forall k :: 0 <= k < |cs| && cs[k] != ThumbDirName ==> ChildPath(dir, cs[k]) in fs
  }

  /** `ChildrenReadable` for all the entries of a directory. */
  predicate MetadataReadable(fs: Fs, dir: Path)
    requires IsDir(fs, dir)
  {
    ChildrenReadable(fs, dir, ReadDir(fs, dir))
  }

  /** Some entry of `dir` other than its cache directory is itself a directory. */
  predicate HasFolderChild(fs: Fs, dir: Path)
    requires IsDir(fs, dir)
  {
    exists name :: name in ReadDir(fs, dir) && name != ThumbDirName && IsDir(fs, ChildPath(dir, name))
  }

  /**
   * The test each scan loop applies to a child: it is not the directory's own
   * cache directory (the loop compares the child's path with `dir/.th`, which
   * `SkippedIsThumbDir` shows is the same as comparing names), and it is a
   * directory exactly when `folders` is asked for.
   */
  predicate IsPicked(fs: Fs, dir: Path, name: string, folders: bool) {
    && name != ThumbDirName
    && IsDir(fs, ChildPath(dir, name)) == folders
  }

  /**
   * The enumeration positions, among the first `n` children `cs`, of the
   * children a scan loop pushes onto its `folders` list (when `folders`) or
   * its `files` list (otherwise), in the order the loop meets them.
   */
  function Picks(fs: Fs, dir: Path, cs: seq<string>, n: nat, folders: bool): (ps: seq<nat>)
    requires n <= |cs|
    ensures forall j :: 0 <= j < |ps| ==> ps[j] < n && IsPicked(fs, dir, cs[ps[j]], folders)
    ensures forall j, j' :: 0 <= j < j' < |ps| ==> ps[j] < ps[j']
    ensures forall k :: 0 <= k < n && IsPicked(fs, dir, cs[k], folders) ==> k in ps
  {
    Selected(PickMask(fs, dir, cs, folders), n)
  }

  /** Position by position, whether the scan loop picks the child. */
  function PickMask(fs: Fs, dir: Path, cs: seq<string>, folders: bool): (mask: seq<bool>)
    ensures |mask| == |cs|
    ensures forall k :: 0 <= k < |cs| ==> mask[k] == IsPicked(fs, dir, cs[k], folders)
  {
    seq(|cs|, k requires 0 <= k < |cs| => IsPicked(fs, dir, cs[k], folders))
  }

  /** The positions below `n` where `mask` holds, in increasing order. */
  function Selected(mask: seq<bool>, n: nat): (ps: seq<nat>)
    requires n <= |mask|
    ensures forall j :: 0 <= j < |ps| ==> ps[j] < n && mask[ps[j]]
    ensures forall j, j' :: 0 <= j < j' < |ps| ==> ps[j] < ps[j']
    ensures forall k :: 0 <= k < n && mask[k] ==> k in ps
  {
    if n == 0 then []
    else Selected(mask, n - 1) + (if mask[n - 1] then [n - 1] else [])
  }

  /** The scan of `n` children extends the scan of the first `n - 1` by the last child when it is picked. */
  lemma PicksStep(fs: Fs, dir: Path, cs: seq<string>, n: nat, folders: bool)
    requires 0 < n <= |cs|
    ensures Picks(fs, dir, cs, n, folders)
            == Picks(fs, dir, cs, n - 1, folders) + (if IsPicked(fs, dir, cs[n - 1], folders) then [n - 1] else [])
  {
  }

  /** Only the cache directory's own name is skipped. */
  lemma SkippedIsThumbDir(dir: Path, name: string)
    ensures ChildPath(dir, name) == ChildPath(dir, ThumbDirName) <==> name == ThumbDirName
  {
    if ChildPath(dir, name) == ChildPath(dir, ThumbDirName) {
      assert ChildPath(dir, name)[|dir|] == ChildPath(dir, ThumbDirName)[|dir|];
    }
  }

  /**
   * Every child except `.th` lands in exactly one of the two lists, in
   * `folders` exactly when it is a directory; `.th` lands in neither.
   */
  lemma {:induction false} PicksPartition(fs: Fs, dir: Path, cs: seq<string>, k: nat)
    requires k < |cs|
    ensures k in Picks(fs, dir, cs, |cs|, true) <==> cs[k] != ThumbDirName && IsDir(fs, ChildPath(dir, cs[k]))
    ensures k in Picks(fs, dir, cs, |cs|, false) <==> cs[k] != ThumbDirName && !IsDir(fs, ChildPath(dir, cs[k]))
    ensures !(k in Picks(fs, dir, cs, |cs|, true) && k in Picks(fs, dir, cs, |cs|, false))
  {
    var folders, files := Picks(fs, dir, cs, |cs|, true), Picks(fs, dir, cs, |cs|, false);
    if k in folders {
      var j :| 0 <= j < |folders| && folders[j] == k;
    }
    if k in files {
      var j :| 0 <= j < |files| && files[j] == k;
    }
  }

  /**
   * The list a scan loop over the first `n` children builds: each picked
   * child, in enumeration order, contributes `build(k)`, `k` being its
   * position.
   */
  function Scan<E>(fs: Fs, dir: Path, cs: seq<string>, n: nat, folders: bool, build: nat --> E): (es: seq<E>)
    requires n <= |cs|
    requires forall k :: 0 <= k < n && IsPicked(fs, dir, cs[k], folders) ==> build.requires(k)
    ensures |es| == |Picks(fs, dir, cs, n, folders)|
  {
    if n == 0 then []
    else
      PicksStep(fs, dir, cs, n, folders);
      Scan(fs, dir, cs, n - 1, folders, build) + (if IsPicked(fs, dir, cs[n - 1], folders) then [build(n - 1)] else [])
  }

  /** Scanning one more child appends what it builds when the child is picked. */
  lemma ScanStep<E>(fs: Fs, dir: Path, cs: seq<string>, n: nat, folders: bool, build: nat --> E)
    requires 0 < n <= |cs|
    requires forall k :: 0 <= k < n && IsPicked(fs, dir, cs[k], folders) ==> build.requires(k)
    ensures Scan(fs, dir, cs, n, folders, build)
            == Scan(fs, dir, cs, n - 1, folders, build) + (if IsPicked(fs, dir, cs[n - 1], folders) then [build(n - 1)] else [])
  {
  }

  /** The `j`-th element of a scan is built from the `j`-th picked child. */
  lemma {:induction false} ScanPointwise<E>(fs: Fs, dir: Path, cs: seq<string>, n: nat, folders: bool, build: nat --> E, j: nat)
    requires n <= |cs|
    requires forall k :: 0 <= k < n && IsPicked(fs, dir, cs[k], folders) ==> build.requires(k)
    requires j < |Picks(fs, dir, cs, n, folders)|
    ensures var k := Picks(fs, dir, cs, n, folders)[j];
            && k < n && IsPicked(fs, dir, cs[k], folders) && build.requires(k)
            && Scan(fs, dir, cs, n, folders, build)[j] == build(k)
  {
    PicksStep(fs, dir, cs, n, folders);
    if j < |Picks(fs, dir, cs, n - 1, folders)| {
      ScanPointwise(fs, dir, cs, n - 1, folders, build, j);
    }
  }
}
