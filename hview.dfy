/**
 * The oldest revision of the listing engine (src/hview/mod.rs): `get_dir`
 * scans one directory into a `TemplatePage` in enumeration order, with full
 * (unstripped) paths, no dates, folder previews from the scanned directory's
 * `.th` matched against the literal format `avif`, and a derived thumbnail
 * for every file whether it exists or not.
 */
module HView {
  import opened Base
  import opened Paths
  import opened Settings
  import opened Snapshot
  import opened Thumbs

  /** The format the oldest `get_random_thumb` matches, whatever `THUMB_FORMAT` says. */
  const AvifFormat: string := "avif"

  datatype TemplateEntry = TemplateEntry(
    name: string,
    path: string,
    size: nat,
    thumb: Option<Path>,
    ext: Option<string>)

  datatype TemplatePage = TemplatePage(
    title: string,
    basePath: string,
    readOnly: bool,
    files: seq<TemplateEntry>,
    folders: seq<TemplateEntry>)

  /** `TemplateEntry::new`: every field empty, zero or absent. */
  function NewEntry(): (e: TemplateEntry)
    ensures e.name == "" && e.path == "" && e.size == 0
    ensures e.thumb == None && e.ext == None
  {
    TemplateEntry("", "", 0, None, None)
  }

  /** `TemplatePage::new`: no title and no entries; base path and read-only flag from the configuration. */
  function NewPage(cfg: Config): (p: TemplatePage)
    ensures p.title == "" && p.files == [] && p.folders == []
    ensures p.basePath == cfg.basePath && p.readOnly == cfg.readOnly
  {
    TemplatePage("", cfg.basePath, cfg.readOnly, [], [])
  }

  /**
   * This revision's `get_random_thumb`: `None` when `th` is not a directory,
   * otherwise one of its entries with extension `avif`.
   */
  function RandomAvifThumb(fs: Fs, th: Path, draw: nat): (r: Option<Path>)
    requires StrictThumbsOk(fs, th, AvifFormat)
    ensures r.None? <==> !IsDir(fs, th)
    ensures r.Some? ==> |r.value| == |th| + 1 && r.value[..|th|] == th
    ensures r.Some? ==> r.value[|th|].Normal? && r.value[|th|].name in ReadDir(fs, th)
    ensures r.Some? ==> Extension(r.value) == Some("avif")
  {
    StrictRandomThumb(fs, th, AvifFormat, draw)
  }

  /** What a scan of `dir` needs so that none of its `unwrap`s panics once `read_dir` succeeded. */
  predicate ScanSafe(fs: Fs, dir: Path)
    requires IsDir(fs, dir)
  {
    && MetadataReadable(fs, dir)
    && (HasFolderChild(fs, dir) ==> StrictThumbsOk(fs, ChildPath(dir, ThumbDirName), AvifFormat))
  }

  /**
   * The entry the loop builds for the child `name` of `dir`: the full path,
   * a folder's preview from `dir/.th` chosen by `draw`, and for a file the
   * derived thumbnail path, unchecked.
   */
  function EntryOf(fs: Fs, cfg: Config, dir: Path, name: string, draw: nat): (e: TemplateEntry)
    requires ChildPath(dir, name) in fs
    requires IsDir(fs, ChildPath(dir, name)) ==> StrictThumbsOk(fs, ChildPath(dir, ThumbDirName), AvifFormat)
    ensures e.name == name
    ensures e.path == Display(ChildPath(dir, name))
    ensures e.size == fs[ChildPath(dir, name)].size
    ensures e.ext.None? <==> Extension(ChildPath(dir, name)).None?
    ensures e.ext.Some? ==> e.ext == Extension(ChildPath(dir, name))
    ensures IsDir(fs, ChildPath(dir, name)) ==>
              && (e.thumb.None? <==> !IsDir(fs, ChildPath(dir, ThumbDirName)))
              && (e.thumb.Some? ==> IsThumbOf(fs, ChildPath(dir, ThumbDirName), AvifFormat, e.thumb.value))
    ensures !IsDir(fs, ChildPath(dir, name)) ==>
              && e.thumb.Some?
              && FilePathToThumb(ChildPath(dir, name), cfg.thumbFormat) == Ok(e.thumb.value)
  {
    var path := ChildPath(dir, name);
    var meta := fs[path];
    var ext := Extension(path);
    TemplateEntry(
      name := name,
      path := Display(path),
      size := meta.size,
      thumb := if IsDir(fs, path) then StrictRandomThumb(fs, ChildPath(dir, ThumbDirName), AvifFormat, draw)
               else match FilePathToThumb(path, cfg.thumbFormat) case Ok(t) => Some(t) case Err(_) => None,
      ext := if ext.None? then None else Some(ext.value))
  }

  /**
   * With a proper name and a format without separators, a file's thumbnail
   * is `dir/.th/<name>.<format>`, whether or not it exists.
   */
  lemma FileThumbUnchecked(fs: Fs, cfg: Config, dir: Path, name: string, draw: nat)
    requires ChildPath(dir, name) in fs && !IsDir(fs, ChildPath(dir, name))
    requires IsName(name) && Separator !in cfg.thumbFormat
    ensures EntryOf(fs, cfg, dir, name, draw).thumb
         == Some(dir + [Normal(ThumbDirName), Normal(ThumbFileName(name, cfg.thumbFormat))])
  {
    FilePathToThumbShape(ChildPath(dir, name), cfg.thumbFormat);
  }

  /** The thumbnail-cache condition of `ScanSafe`, for the children in `cs`. */
  predicate FolderThumbsSafe(fs: Fs, dir: Path, cs: seq<string>) {
    forall k :: 0 <= k < |cs| && cs[k] != ThumbDirName && ChildPath(dir, cs[k]) in fs && IsDir(fs, ChildPath(dir, cs[k]))
      ==> StrictThumbsOk(fs, ChildPath(dir, ThumbDirName), AvifFormat)
  }

  lemma ScanSafeChildren(fs: Fs, dir: Path)
    requires IsDir(fs, dir) && ScanSafe(fs, dir)
    ensures ChildrenReadable(fs, dir, ReadDir(fs, dir))
    ensures FolderThumbsSafe(fs, dir, ReadDir(fs, dir))
  {
    var cs := ReadDir(fs, dir);
    forall k | 0 <= k < |cs| && cs[k] != ThumbDirName && ChildPath(dir, cs[k]) in fs && IsDir(fs, ChildPath(dir, cs[k]))
      ensures StrictThumbsOk(fs, ChildPath(dir, ThumbDirName), AvifFormat)
    {
      assert HasFolderChild(fs, dir) by { assert cs[k] in cs; }
    }
  }

  /**
   * The list the scan of the first `n` children of `cs` appends entries to:
   * `files` or, when `folders`, `folders`; `rng(k)` is the draw for the
   * child at position `k`.
   */
  function Entries(fs: Fs, cfg: Config, dir: Path, cs: seq<string>, n: nat, folders: bool, rng: nat -> nat): (es: seq<TemplateEntry>)
    requires ChildrenReadable(fs, dir, cs) && FolderThumbsSafe(fs, dir, cs) && n <= |cs|
    ensures |es| == |Picks(fs, dir, cs, n, folders)|
  {
    Scan(fs, dir, cs, n, folders, Builder(fs, cfg, dir, cs, rng))
  }

  /** The entry the scan builds for the child at position `k`. */
  function Builder(fs: Fs, cfg: Config, dir: Path, cs: seq<string>, rng: nat -> nat): (b: nat --> TemplateEntry)
    requires ChildrenReadable(fs, dir, cs) && FolderThumbsSafe(fs, dir, cs)
    ensures forall k :: 0 <= k < |cs| && cs[k] != ThumbDirName ==> b.requires(k) && b(k) == EntryOf(fs, cfg, dir, cs[k], rng(k))
  {
    k requires 0 <= k < |cs| && cs[k] != ThumbDirName => EntryOf(fs, cfg, dir, cs[k], rng(k))
  }

  /** The `j`-th entry of a scan is built from the `j`-th picked child, with that child's draw. */
  lemma EntriesPointwise(fs: Fs, cfg: Config, dir: Path, cs: seq<string>, n: nat, folders: bool, rng: nat -> nat, j: nat)
    requires ChildrenReadable(fs, dir, cs) && FolderThumbsSafe(fs, dir, cs) && n <= |cs|
    requires j < |Picks(fs, dir, cs, n, folders)|
    ensures var k := Picks(fs, dir, cs, n, folders)[j];
            && k < n && ChildPath(dir, cs[k]) in fs
            && (IsDir(fs, ChildPath(dir, cs[k])) ==> StrictThumbsOk(fs, ChildPath(dir, ThumbDirName), AvifFormat))
            && Entries(fs, cfg, dir, cs, n, folders, rng)[j] == EntryOf(fs, cfg, dir, cs[k], rng(k))
  {
    ScanPointwise(fs, dir, cs, n, folders, Builder(fs, cfg, dir, cs, rng), j);
  }

  /** What `get_dir` returns for a directory: its full path as title and both lists in enumeration order. */
  function Listing(fs: Fs, cfg: Config, dir: Path, rng: nat -> nat): (p: TemplatePage)
    requires IsDir(fs, dir) && ScanSafe(fs, dir)
    ensures p.title == Display(dir)
    ensures p.basePath == cfg.basePath && p.readOnly == cfg.readOnly
    ensures |p.files| == |Picks(fs, dir, ReadDir(fs, dir), |ReadDir(fs, dir)|, false)|
    ensures |p.folders| == |Picks(fs, dir, ReadDir(fs, dir), |ReadDir(fs, dir)|, true)|
  {
    var cs := ReadDir(fs, dir);
    ScanSafeChildren(fs, dir);
    TemplatePage(
      title := Display(dir),
      basePath := cfg.basePath,
      readOnly := cfg.readOnly,
      files := Entries(fs, cfg, dir, cs, |cs|, false, rng),
      folders := Entries(fs, cfg, dir, cs, |cs|, true, rng))
  }

  /** What the scan loop pushes onto one of its lists for the child `name`: its entry when picked, nothing otherwise. */
  function Pushed(fs: Fs, cfg: Config, dir: Path, name: string, draw: nat, folders: bool): seq<TemplateEntry>
    requires name != ThumbDirName ==> ChildPath(dir, name) in fs
    requires name != ThumbDirName && IsDir(fs, ChildPath(dir, name)) ==> StrictThumbsOk(fs, ChildPath(dir, ThumbDirName), AvifFormat)
  {
    if IsPicked(fs, dir, name, folders) then [EntryOf(fs, cfg, dir, name, draw)] else []
  }

  /** One more child extends the list by its entry when the scan picks it. */
  lemma EntriesStep(fs: Fs, cfg: Config, dir: Path, cs: seq<string>, n: nat, folders: bool, rng: nat -> nat)
    requires ChildrenReadable(fs, dir, cs) && FolderThumbsSafe(fs, dir, cs) && 0 < n <= |cs|
    ensures Entries(fs, cfg, dir, cs, n, folders, rng)
            == Entries(fs, cfg, dir, cs, n - 1, folders, rng) + Pushed(fs, cfg, dir, cs[n - 1], rng(n - 1), folders)
  {
    ScanStep(fs, dir, cs, n, folders, Builder(fs, cfg, dir, cs, rng));
  }

  /**
   * One turn of the `get_dir` loop, for the `i`-th entry: the child is
   * skipped when its path is `thpath`; otherwise its entry is filled and
   * pushed onto `folders` or `files`.  Starting from the lists built from
   * the first `i` entries, it leaves the lists built from the first `i + 1`.
   */
  method ScanChild(fs: Fs, cfg: Config, dir: Path, thpath: Path, entries: seq<string>, i: nat, rng: nat -> nat,
                   page: TemplatePage) returns (next: TemplatePage)
    requires thpath == ChildPath(dir, ThumbDirName)
    requires ChildrenReadable(fs, dir, entries) && FolderThumbsSafe(fs, dir, entries) && i < |entries|
    requires page.files == Entries(fs, cfg, dir, entries, i, false, rng)
    requires page.folders == Entries(fs, cfg, dir, entries, i, true, rng)
    ensures next.title == page.title && next.basePath == page.basePath && next.readOnly == page.readOnly
    ensures next.files == Entries(fs, cfg, dir, entries, i + 1, false, rng)
    ensures next.folders == Entries(fs, cfg, dir, entries, i + 1, true, rng)
  {
    EntriesStep(fs, cfg, dir, entries, i + 1, false, rng);
    EntriesStep(fs, cfg, dir, entries, i + 1, true, rng);
    next := page;
    var name := entries[i];
    var path := ChildPath(dir, name);
    SkippedIsThumbDir(dir, name);
    if path == thpath {
      return;
    }
    var meta := fs[path];
    var ext := Extension(path);
    var details := NewEntry();
    details := details.(name := name);
    details := details.(path := Display(path));
    details := details.(size := meta.size);
    details := details.(ext := if ext.None? then None else Some(ext.value));
    if IsDir(fs, path) {
      details := details.(thumb := StrictRandomThumb(fs, thpath, AvifFormat, rng(i)));
      next := next.(folders := next.folders + [details]);
    } else {
      var thumb := FilePathToThumb(path, cfg.thumbFormat);
      details := details.(thumb := if thumb.Ok? then Some(thumb.value) else None);
      next := next.(files := next.files + [details]);
    }
  }

  /**
   * `get_dir`: `read_dir` either fails with its error kind or one pass over
   * the entries, skipping `.th`, appends each to `folders` or `files`.
   * `rng(k)` is the random draw for the `k`-th entry.
   */
  method GetDir(fs: Fs, cfg: Config, dir: Path, rng: nat -> nat) returns (r: Result<TemplatePage, IoError>)
    requires IsDir(fs, dir) ==> ScanSafe(fs, dir)
    ensures dir !in fs ==> r == Err(NotFound)
    ensures dir in fs && !IsDir(fs, dir) ==> r == Err(NotADirectory)
    ensures IsDir(fs, dir) ==> r == Ok(Listing(fs, cfg, dir, rng))
  {
    var page := NewPage(cfg);
    page := page.(title := Display(dir));
    var thpath := Join(dir, ThumbDirName);
    JoinIsChildPath(dir, ThumbDirName);
    var listed := ReadDirChecked(fs, dir);
    if listed.Err? {
      return Err(listed.error);
    }
    var entries := listed.value;
    ScanSafeChildren(fs, dir);
    for i := 0 to |entries|
      invariant page.title == Display(dir)
      invariant page.basePath == cfg.basePath && page.readOnly == cfg.readOnly
      invariant page.files == Entries(fs, cfg, dir, entries, i, false, rng)
      invariant page.folders == Entries(fs, cfg, dir, entries, i, true, rng)
    {
      page := ScanChild(fs, cfg, dir, thpath, entries, i, rng, page);
    }
    assert page == Listing(fs, cfg, dir, rng);
    return Ok(page);
  }

  /**
   * No sorting: the `j`-th listed folder (file) is the `j`-th directory
   * (non-directory) child in enumeration order, other than `.th`.
   */
  lemma ListingInEnumerationOrder(fs: Fs, cfg: Config, dir: Path, rng: nat -> nat, folders: bool, j: nat)
    requires IsDir(fs, dir) && ScanSafe(fs, dir)
    requires j < |Picks(fs, dir, ReadDir(fs, dir), |ReadDir(fs, dir)|, folders)|
    ensures var p := Listing(fs, cfg, dir, rng);
            var k := Picks(fs, dir, ReadDir(fs, dir), |ReadDir(fs, dir)|, folders)[j];
            var es := if folders then p.folders else p.files;
            && k < |ReadDir(fs, dir)| && ReadDir(fs, dir)[k] != ThumbDirName
            && IsDir(fs, ChildPath(dir, ReadDir(fs, dir)[k])) == folders
            && es[j].name == ReadDir(fs, dir)[k]
            && es[j] == EntryOf(fs, cfg, dir, ReadDir(fs, dir)[k], rng(k))
  {
    var cs := ReadDir(fs, dir);
    ScanSafeChildren(fs, dir);
    EntriesPointwise(fs, cfg, dir, cs, |cs|, folders, rng, j);
    SkippedIsThumbDir(dir, cs[Picks(fs, dir, cs, |cs|, folders)[j]]);
  }

  /** A scan holds an entry named `name` exactly when `name` is a picked child. */
  lemma EntriesNames(fs: Fs, cfg: Config, dir: Path, cs: seq<string>, folders: bool, rng: nat -> nat, name: string)
    requires ChildrenReadable(fs, dir, cs) && FolderThumbsSafe(fs, dir, cs)
    ensures (exists e :: e in Entries(fs, cfg, dir, cs, |cs|, folders, rng) && e.name == name)
            <==> name in cs && IsPicked(fs, dir, name, folders)
  {
    var es := Entries(fs, cfg, dir, cs, |cs|, folders, rng);
    var ps := Picks(fs, dir, cs, |cs|, folders);
    if exists e :: e in es && e.name == name {
      var e :| e in es && e.name == name;
      var j :| 0 <= j < |es| && es[j] == e;
      EntriesPointwise(fs, cfg, dir, cs, |cs|, folders, rng, j);
    }
    if name in cs && IsPicked(fs, dir, name, folders) {
      var k :| 0 <= k < |cs| && cs[k] == name;
      var j :| 0 <= j < |ps| && ps[j] == k;
      EntriesPointwise(fs, cfg, dir, cs, |cs|, folders, rng, j);
      assert es[j].name == name;
    }
  }

  /**
   * The cache directory is never listed; every other entry is, among the
   * folders exactly when it is a directory and among the files otherwise.
   */
  lemma ListingPartition(fs: Fs, cfg: Config, dir: Path, rng: nat -> nat, name: string)
    requires IsDir(fs, dir) && ScanSafe(fs, dir)
    ensures var p := Listing(fs, cfg, dir, rng);
            (exists e :: e in p.folders && e.name == name)
            <==> name in ReadDir(fs, dir) && name != ThumbDirName && IsDir(fs, ChildPath(dir, name))
    ensures var p := Listing(fs, cfg, dir, rng);
            (exists e :: e in p.files && e.name == name)
            <==> name in ReadDir(fs, dir) && name != ThumbDirName && !IsDir(fs, ChildPath(dir, name))
  {
    var cs := ReadDir(fs, dir);
    SkippedIsThumbDir(dir, name);
    ScanSafeChildren(fs, dir);
    EntriesNames(fs, cfg, dir, cs, true, rng, name);
    EntriesNames(fs, cfg, dir, cs, false, rng, name);
  }

  /** Every listed file carries a thumbnail path, whether or not that thumbnail exists. */
  lemma EveryFileHasThumb(fs: Fs, cfg: Config, dir: Path, rng: nat -> nat, e: TemplateEntry)
    requires IsDir(fs, dir) && ScanSafe(fs, dir)
    requires e in Listing(fs, cfg, dir, rng).files
    ensures e.thumb.Some?
    ensures FilePathToThumb(ChildPath(dir, e.name), cfg.thumbFormat) == Ok(e.thumb.value)
  {
    var cs := ReadDir(fs, dir);
    ScanSafeChildren(fs, dir);
    var es := Entries(fs, cfg, dir, cs, |cs|, false, rng);
    var j :| 0 <= j < |es| && es[j] == e;
    EntriesPointwise(fs, cfg, dir, cs, |cs|, false, rng, j);
  }

  /** Every folder's preview comes from the scanned directory's `.th` and has extension `avif`. */
  lemma FolderPreviewIsAvif(fs: Fs, cfg: Config, dir: Path, rng: nat -> nat, e: TemplateEntry)
    requires IsDir(fs, dir) && ScanSafe(fs, dir)
    requires e in Listing(fs, cfg, dir, rng).folders
    ensures e.thumb.None? <==> !IsDir(fs, ChildPath(dir, ThumbDirName))
    ensures e.thumb.Some? ==> IsThumbOf(fs, ChildPath(dir, ThumbDirName), "avif", e.thumb.value)
  {
    var cs := ReadDir(fs, dir);
    ScanSafeChildren(fs, dir);
    var es := Entries(fs, cfg, dir, cs, |cs|, true, rng);
    var j :| 0 <= j < |es| && es[j] == e;
    EntriesPointwise(fs, cfg, dir, cs, |cs|, true, rng, j);
  }
}
