/**
 * The middle revision of the listing engine (src/app/fs.rs): `get_dir`
 * scans one directory into a `TemplatePage` in enumeration order, with
 * root-relative paths, optional dates, and folder previews taken from the
 * scanned directory's own `.th`.
 */
module AppFs {
  import opened Base
  import opened Paths
  import opened Settings
  import opened Snapshot
  import opened Thumbs

  datatype TemplateEntry = TemplateEntry(
    name: string,
    path: string,
    size: nat,
    date: Option<nat>,
    dateString: string,
    thumb: Option<Path>,
    ext: Option<string>)

  datatype TemplatePage = TemplatePage(
    title: string,
    basePath: string,
    readOnly: bool,
    files: seq<TemplateEntry>,
    folders: seq<TemplateEntry>)

  /** `TemplateEntry::new`: every field empty, zero or absent. */
  function NewEntry(): (e: TemplateEntry)
    ensures e.name == "" && e.path == "" && e.dateString == ""
    ensures e.size == 0 && e.date == None
    ensures e.thumb == None && e.ext == None
  {
    TemplateEntry("", "", 0, None, "", None, None)
  }

  /** `TemplatePage::new`: no title and no entries; base path and read-only flag from the configuration. */
  function NewPage(cfg: Config): (p: TemplatePage)
    ensures p.title == "" && p.files == [] && p.folders == []
    ensures p.basePath == cfg.basePath && p.readOnly == cfg.readOnly
  {
    TemplatePage("", cfg.basePath, cfg.readOnly, [], [])
  }

  /** A file's thumbnail: the derived candidate with the root stripped, when it exists. */
  function FileThumb(fs: Fs, cfg: Config, dir: Path, name: string): (r: Option<Path>)
    requires cfg.root <= dir
    ensures r.Some? <==> Exists(fs, FilePathToThumb(ChildPath(dir, name), cfg.thumbFormat).value)
    ensures r.Some? ==> cfg.root + r.value == FilePathToThumb(ChildPath(dir, name), cfg.thumbFormat).value
  {
    match FilePathToThumb(ChildPath(dir, name), cfg.thumbFormat)
    case Err(_) => None
    case Ok(tpath) => if Exists(fs, tpath) then Some(StripPrefix(tpath, cfg.root).value) else None
  }

  /** What a scan of `dir` needs so that none of its `unwrap`s panics once `read_dir` succeeded. */
  predicate ScanSafe(fs: Fs, cfg: Config, dir: Path)
    requires IsDir(fs, dir)
  {
    && MetadataReadable(fs, dir)
    && (HasFolderChild(fs, dir) ==> StrictThumbsOk(fs, ChildPath(dir, ThumbDirName), cfg.thumbFormat))
  }

  /**
   * The entry the loop builds for the child `name` of `dir`; a folder's
   * preview comes from `dir/.th`, chosen by `draw`, and `fullFmt` renders
   * a timestamp as `%Y-%m-%d %H:%M:%S`.
   */
  function EntryOf(fs: Fs, cfg: Config, dir: Path, name: string, draw: nat, fullFmt: nat -> string): (e: TemplateEntry)
    requires cfg.root <= dir
    requires ChildPath(dir, name) in fs
    requires IsDir(fs, ChildPath(dir, name)) ==> StrictThumbsOk(fs, ChildPath(dir, ThumbDirName), cfg.thumbFormat)
    ensures e.name == name
    ensures cfg.root <= ChildPath(dir, name) && e.path == RootRelative(cfg, ChildPath(dir, name))
    ensures e.size == fs[ChildPath(dir, name)].size
    ensures e.date == fs[ChildPath(dir, name)].modified
    ensures e.date.None? ==> e.dateString == ""
    ensures e.date.Some? ==> e.dateString == fullFmt(e.date.value)
    ensures e.ext.None? <==> Extension(ChildPath(dir, name)).None?
    ensures e.ext.Some? ==> e.ext == Extension(ChildPath(dir, name))
    ensures IsDir(fs, ChildPath(dir, name)) ==>
              && (e.thumb.None? <==> !IsDir(fs, ChildPath(dir, ThumbDirName)))
              && (e.thumb.Some? ==> IsThumbOf(fs, ChildPath(dir, ThumbDirName), cfg.thumbFormat, e.thumb.value))
    ensures !IsDir(fs, ChildPath(dir, name)) ==> e.thumb == FileThumb(fs, cfg, dir, name)
  {
    var path := ChildPath(dir, name);
    var meta := fs[path];
    TemplateEntry(
      name := name,
      path := RootRelative(cfg, path),
      size := meta.size,
      date := meta.modified,
      dateString := if meta.modified.Some? then fullFmt(meta.modified.value) else "",
      thumb := if IsDir(fs, path) then StrictRandomThumb(fs, ChildPath(dir, ThumbDirName), cfg.thumbFormat, draw)
               else FileThumb(fs, cfg, dir, name),
      ext := Extension(path))
  }

  /** With a formatter that never yields empty text, `date_string` is empty exactly when `date` is `None`. */
  lemma DateStringEmptyIff(fs: Fs, cfg: Config, dir: Path, name: string, draw: nat, fullFmt: nat -> string)
    requires cfg.root <= dir && ChildPath(dir, name) in fs
    requires IsDir(fs, ChildPath(dir, name)) ==> StrictThumbsOk(fs, ChildPath(dir, ThumbDirName), cfg.thumbFormat)
    requires forall t :: fullFmt(t) != ""
    ensures var e := EntryOf(fs, cfg, dir, name, draw, fullFmt); e.dateString == "" <==> e.date.None?
  {
  }

  /** The thumbnail-cache condition of `ScanSafe`, for the children in `cs`. */
  predicate FolderThumbsSafe(fs: Fs, cfg: Config, dir: Path, cs: seq<string>) {
    forall k :: 0 <= k < |cs| && cs[k] != ThumbDirName && ChildPath(dir, cs[k]) in fs && IsDir(fs, ChildPath(dir, cs[k]))
      ==> StrictThumbsOk(fs, ChildPath(dir, ThumbDirName), cfg.thumbFormat)
  }

  lemma ScanSafeChildren(fs: Fs, cfg: Config, dir: Path)
    requires IsDir(fs, dir) && ScanSafe(fs, cfg, dir)
    ensures ChildrenReadable(fs, dir, ReadDir(fs, dir))
    ensures FolderThumbsSafe(fs, cfg, dir, ReadDir(fs, dir))
  {
    var cs := ReadDir(fs, dir);
    forall k | 0 <= k < |cs| && cs[k] != ThumbDirName && ChildPath(dir, cs[k]) in fs && IsDir(fs, ChildPath(dir, cs[k]))
      ensures StrictThumbsOk(fs, ChildPath(dir, ThumbDirName), cfg.thumbFormat)
    {
      assert HasFolderChild(fs, dir) by { assert cs[k] in cs; }
    }
  }

  /**
   * The list the scan of the first `n` children of `cs` appends entries to:
   * `files` or, when `folders`, `folders`; `rng(k)` is the draw for the
   * child at position `k`.
   */
  function Entries(fs: Fs, cfg: Config, dir: Path, cs: seq<string>, n: nat, folders: bool,
                   rng: nat -> nat, fullFmt: nat -> string): (es: seq<TemplateEntry>)
    requires cfg.root <= dir && ChildrenReadable(fs, dir, cs) && FolderThumbsSafe(fs, cfg, dir, cs) && n <= |cs|
    ensures |es| == |Picks(fs, dir, cs, n, folders)|
  {
    Scan(fs, dir, cs, n, folders, Builder(fs, cfg, dir, cs, rng, fullFmt))
  }

  /** The entry the scan builds for the child at position `k`. */
  function Builder(fs: Fs, cfg: Config, dir: Path, cs: seq<string>, rng: nat -> nat, fullFmt: nat -> string): (b: nat --> TemplateEntry)
    requires cfg.root <= dir && ChildrenReadable(fs, dir, cs) && FolderThumbsSafe(fs, cfg, dir, cs)
    ensures forall k :: 0 <= k < |cs| && cs[k] != ThumbDirName ==> b.requires(k) && b(k) == EntryOf(fs, cfg, dir, cs[k], rng(k), fullFmt)
  {
    k requires 0 <= k < |cs| && cs[k] != ThumbDirName => EntryOf(fs, cfg, dir, cs[k], rng(k), fullFmt)
  }

  /** The `j`-th entry of a scan is built from the `j`-th picked child, with that child's draw. */
  lemma EntriesPointwise(fs: Fs, cfg: Config, dir: Path, cs: seq<string>, n: nat, folders: bool,
                         rng: nat -> nat, fullFmt: nat -> string, j: nat)
    requires cfg.root <= dir && ChildrenReadable(fs, dir, cs) && FolderThumbsSafe(fs, cfg, dir, cs) && n <= |cs|
    requires j < |Picks(fs, dir, cs, n, folders)|
    ensures var k := Picks(fs, dir, cs, n, folders)[j];
            && k < n && ChildPath(dir, cs[k]) in fs
            && (IsDir(fs, ChildPath(dir, cs[k])) ==> StrictThumbsOk(fs, ChildPath(dir, ThumbDirName), cfg.thumbFormat))
            && Entries(fs, cfg, dir, cs, n, folders, rng, fullFmt)[j] == EntryOf(fs, cfg, dir, cs[k], rng(k), fullFmt)
  {
    ScanPointwise(fs, dir, cs, n, folders, Builder(fs, cfg, dir, cs, rng, fullFmt), j);
  }

  /** What `get_dir` returns for a directory: the root-relative title and both lists in enumeration order. */
  function Listing(fs: Fs, cfg: Config, dir: Path, rng: nat -> nat, fullFmt: nat -> string): (p: TemplatePage)
    requires cfg.root <= dir && IsDir(fs, dir) && ScanSafe(fs, cfg, dir)
    ensures p.title == RootRelative(cfg, dir)
    ensures p.basePath == cfg.basePath && p.readOnly == cfg.readOnly
    ensures |p.files| == |Picks(fs, dir, ReadDir(fs, dir), |ReadDir(fs, dir)|, false)|
    ensures |p.folders| == |Picks(fs, dir, ReadDir(fs, dir), |ReadDir(fs, dir)|, true)|
  {
    var cs := ReadDir(fs, dir);
    ScanSafeChildren(fs, cfg, dir);
    TemplatePage(
      title := RootRelative(cfg, dir),
      basePath := cfg.basePath,
      readOnly := cfg.readOnly,
      files := Entries(fs, cfg, dir, cs, |cs|, false, rng, fullFmt),
      folders := Entries(fs, cfg, dir, cs, |cs|, true, rng, fullFmt))
  }

  /** The body of the scan for one child: `details` filled field by field from `TemplateEntry::new`. */
  method Details(fs: Fs, cfg: Config, dir: Path, name: string, draw: nat, fullFmt: nat -> string)
    returns (details: TemplateEntry)
    requires cfg.root <= dir && ChildPath(dir, name) in fs
    requires IsDir(fs, ChildPath(dir, name)) ==> StrictThumbsOk(fs, ChildPath(dir, ThumbDirName), cfg.thumbFormat)
    ensures details == EntryOf(fs, cfg, dir, name, draw, fullFmt)
  {
    var path := ChildPath(dir, name);
    var meta := fs[path];
    details := NewEntry();
    details := details.(name := name);
    details := details.(path := RootRelative(cfg, path));
    details := details.(size := meta.size);
    details := details.(date := meta.modified);
    details := details.(dateString := if details.date.Some? then fullFmt(details.date.value) else "");
    details := details.(ext := Extension(path));
    if IsDir(fs, path) {
      details := details.(thumb := StrictRandomThumb(fs, ChildPath(dir, ThumbDirName), cfg.thumbFormat, draw));
    } else {
      details := details.(thumb := FileThumb(fs, cfg, dir, name));
    }
  }

  /** What the scan loop pushes onto one of its lists for the child `name`: its entry when picked, nothing otherwise. */
  function Pushed(fs: Fs, cfg: Config, dir: Path, name: string, draw: nat, fullFmt: nat -> string, folders: bool): seq<TemplateEntry>
    requires cfg.root <= dir
    requires name != ThumbDirName ==> ChildPath(dir, name) in fs
    requires name != ThumbDirName && IsDir(fs, ChildPath(dir, name)) ==> StrictThumbsOk(fs, ChildPath(dir, ThumbDirName), cfg.thumbFormat)
  {
    if IsPicked(fs, dir, name, folders) then [EntryOf(fs, cfg, dir, name, draw, fullFmt)] else []
  }

  /** One more child extends the list by its entry when the scan picks it. */
  lemma EntriesStep(fs: Fs, cfg: Config, dir: Path, cs: seq<string>, n: nat, folders: bool, rng: nat -> nat, fullFmt: nat -> string)
    requires cfg.root <= dir && ChildrenReadable(fs, dir, cs) && FolderThumbsSafe(fs, cfg, dir, cs) && 0 < n <= |cs|
    ensures Entries(fs, cfg, dir, cs, n, folders, rng, fullFmt)
            == Entries(fs, cfg, dir, cs, n - 1, folders, rng, fullFmt) + Pushed(fs, cfg, dir, cs[n - 1], rng(n - 1), fullFmt, folders)
  {
    ScanStep(fs, dir, cs, n, folders, Builder(fs, cfg, dir, cs, rng, fullFmt));
  }

  /**
   * One turn of the `get_dir` loop, for the `i`-th entry: the child is
   * skipped when its path is `thpath`; otherwise its entry is filled and
   * pushed onto `folders` or `files`.  Starting from the lists built from
   * the first `i` entries, it leaves the lists built from the first `i + 1`.
   */
  method ScanChild(fs: Fs, cfg: Config, dir: Path, thpath: Path, entries: seq<string>, i: nat, rng: nat -> nat, fullFmt: nat -> string,
                   page: TemplatePage) returns (next: TemplatePage)
    requires thpath == ChildPath(dir, ThumbDirName)
    requires cfg.root <= dir && ChildrenReadable(fs, dir, entries) && FolderThumbsSafe(fs, cfg, dir, entries) && i < |entries|
    requires page.files == Entries(fs, cfg, dir, entries, i, false, rng, fullFmt)
    requires page.folders == Entries(fs, cfg, dir, entries, i, true, rng, fullFmt)
    ensures next.title == page.title && next.basePath == page.basePath && next.readOnly == page.readOnly
    ensures next.files == Entries(fs, cfg, dir, entries, i + 1, false, rng, fullFmt)
    ensures next.folders == Entries(fs, cfg, dir, entries, i + 1, true, rng, fullFmt)
  {
    EntriesStep(fs, cfg, dir, entries, i + 1, false, rng, fullFmt);
    EntriesStep(fs, cfg, dir, entries, i + 1, true, rng, fullFmt);
    next := page;
    var name := entries[i];
    var path := ChildPath(dir, name);
    SkippedIsThumbDir(dir, name);
    if path == thpath {
      return;
    }
    var details := Details(fs, cfg, dir, name, rng(i), fullFmt);
    if IsDir(fs, path) {
      next := next.(folders := next.folders + [details]);
    } else {
      next := next.(files := next.files + [details]);
    }
  }

  /**
   * `get_dir`: the title is computed first, then `read_dir` either fails
   * with its error kind or one pass over the entries, skipping `.th`,
   * appends each to `folders` or `files`.  `rng(k)` is the random draw for
   * the `k`-th entry.
   */
  method GetDir(fs: Fs, cfg: Config, dir: Path, rng: nat -> nat, fullFmt: nat -> string)
    returns (r: Result<TemplatePage, IoError>)
    requires cfg.root <= dir
    requires IsDir(fs, dir) ==> ScanSafe(fs, cfg, dir)
    ensures dir !in fs ==> r == Err(NotFound)
    ensures dir in fs && !IsDir(fs, dir) ==> r == Err(NotADirectory)
    ensures IsDir(fs, dir) ==> r == Ok(Listing(fs, cfg, dir, rng, fullFmt))
  {
    var page := NewPage(cfg);
    var thpath := Join(dir, ThumbDirName);
    JoinIsChildPath(dir, ThumbDirName);
    page := page.(title := RootRelative(cfg, dir));
    var listed := ReadDirChecked(fs, dir);
    if listed.Err? {
      return Err(listed.error);
    }
    var entries := listed.value;
    ScanSafeChildren(fs, cfg, dir);
    for i := 0 to |entries|
      invariant page.title == RootRelative(cfg, dir)
      invariant page.basePath == cfg.basePath && page.readOnly == cfg.readOnly
      invariant page.files == Entries(fs, cfg, dir, entries, i, false, rng, fullFmt)
      invariant page.folders == Entries(fs, cfg, dir, entries, i, true, rng, fullFmt)
    {
      page := ScanChild(fs, cfg, dir, thpath, entries, i, rng, fullFmt, page);
    }
    assert page == Listing(fs, cfg, dir, rng, fullFmt);
    return Ok(page);
  }

  /**
   * No sorting: the `j`-th listed folder (file) is the `j`-th directory
   * (non-directory) child in enumeration order, other than `.th`.
   */
  lemma ListingInEnumerationOrder(fs: Fs, cfg: Config, dir: Path, rng: nat -> nat, fullFmt: nat -> string,
                                  folders: bool, j: nat)
    requires cfg.root <= dir && IsDir(fs, dir) && ScanSafe(fs, cfg, dir)
    requires j < |Picks(fs, dir, ReadDir(fs, dir), |ReadDir(fs, dir)|, folders)|
    ensures var p := Listing(fs, cfg, dir, rng, fullFmt);
            var k := Picks(fs, dir, ReadDir(fs, dir), |ReadDir(fs, dir)|, folders)[j];
            var es := if folders then p.folders else p.files;
            && k < |ReadDir(fs, dir)| && ReadDir(fs, dir)[k] != ThumbDirName
            && IsDir(fs, ChildPath(dir, ReadDir(fs, dir)[k])) == folders
            && es[j].name == ReadDir(fs, dir)[k]
            && es[j] == EntryOf(fs, cfg, dir, ReadDir(fs, dir)[k], rng(k), fullFmt)
  {
    var cs := ReadDir(fs, dir);
    ScanSafeChildren(fs, cfg, dir);
    EntriesPointwise(fs, cfg, dir, cs, |cs|, folders, rng, fullFmt, j);
    SkippedIsThumbDir(dir, cs[Picks(fs, dir, cs, |cs|, folders)[j]]);
  }

  /**
   * Every entry of the directory except `.th` is listed, among the folders
   * exactly when it is a directory and among the files otherwise.
   */
  lemma ListingPartition(fs: Fs, cfg: Config, dir: Path, rng: nat -> nat, fullFmt: nat -> string, name: string)
    requires cfg.root <= dir && IsDir(fs, dir) && ScanSafe(fs, cfg, dir)
    ensures var p := Listing(fs, cfg, dir, rng, fullFmt);
            (exists e :: e in p.folders && e.name == name)
            <==> name in ReadDir(fs, dir) && name != ThumbDirName && IsDir(fs, ChildPath(dir, name))
    ensures var p := Listing(fs, cfg, dir, rng, fullFmt);
            (exists e :: e in p.files && e.name == name)
            <==> name in ReadDir(fs, dir) && name != ThumbDirName && !IsDir(fs, ChildPath(dir, name))
  {
    var cs := ReadDir(fs, dir);
    SkippedIsThumbDir(dir, name);
    ScanSafeChildren(fs, cfg, dir);
    EntriesNames(fs, cfg, dir, cs, true, rng, fullFmt, name);
    EntriesNames(fs, cfg, dir, cs, false, rng, fullFmt, name);
  }

  /** A scan holds an entry named `name` exactly when `name` is a picked child. */
  lemma EntriesNames(fs: Fs, cfg: Config, dir: Path, cs: seq<string>, folders: bool,
                     rng: nat -> nat, fullFmt: nat -> string, name: string)
    requires cfg.root <= dir && ChildrenReadable(fs, dir, cs) && FolderThumbsSafe(fs, cfg, dir, cs)
    ensures (exists e :: e in Entries(fs, cfg, dir, cs, |cs|, folders, rng, fullFmt) && e.name == name)
            <==> name in cs && IsPicked(fs, dir, name, folders)
  {
    var es := Entries(fs, cfg, dir, cs, |cs|, folders, rng, fullFmt);
    var ps := Picks(fs, dir, cs, |cs|, folders);
    if exists e :: e in es && e.name == name {
      var e :| e in es && e.name == name;
      var j :| 0 <= j < |es| && es[j] == e;
      EntriesPointwise(fs, cfg, dir, cs, |cs|, folders, rng, fullFmt, j);
    }
    if name in cs && IsPicked(fs, dir, name, folders) {
      var k :| 0 <= k < |cs| && cs[k] == name;
      var j :| 0 <= j < |ps| && ps[j] == k;
      EntriesPointwise(fs, cfg, dir, cs, |cs|, folders, rng, fullFmt, j);
      assert es[j].name == name;
    }
  }

  /**
   * Every folder's preview comes from the scanned directory's `.th`, not the
   * folder's own: when `dir/.th` is a directory it is one of its entries.
   */
  lemma FolderPreviewFromScannedDir(fs: Fs, cfg: Config, dir: Path, rng: nat -> nat, fullFmt: nat -> string, e: TemplateEntry)
    requires cfg.root <= dir && IsDir(fs, dir) && ScanSafe(fs, cfg, dir)
    requires e in Listing(fs, cfg, dir, rng, fullFmt).folders
    ensures e.thumb.None? <==> !IsDir(fs, ChildPath(dir, ThumbDirName))
    ensures e.thumb.Some? ==> IsThumbOf(fs, ChildPath(dir, ThumbDirName), cfg.thumbFormat, e.thumb.value)
  {
    var cs := ReadDir(fs, dir);
    ScanSafeChildren(fs, cfg, dir);
    var es := Entries(fs, cfg, dir, cs, |cs|, true, rng, fullFmt);
    var j :| 0 <= j < |es| && es[j] == e;
    EntriesPointwise(fs, cfg, dir, cs, |cs|, true, rng, fullFmt, j);
  }
}
