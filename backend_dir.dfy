/**
 * The newest revision of the listing engine (backend/src/dir.rs): `get_dir`
 * scans one directory of the snapshot into a `Dir` whose `files` and
 * `folders` are sorted by lower-cased name, with root-relative paths, dates,
 * extensions and thumbnails.
 */
module BackendDir {
  import opened Base
  import opened Paths
  import opened Snapshot
  import opened Thumbs
  import opened NameOrder
  import opened Settings

  /** `DirError`; its `IOError` case cannot arise on a snapshot. */
  datatype DirError = NotFound

  datatype DirEntry = DirEntry(
    name: string,
    path: string,
    size: nat,
    date: nat,
    dateString: string,
    thumb: Option<string>,
    ext: Option<string>)

  datatype Dir = Dir(
    title: string,
    basePath: string,
    readOnly: bool,
    files: seq<DirEntry>,
    folders: seq<DirEntry>)

  /** `DirEntry::new`: every field empty, zero or absent. */
  function NewEntry(): (e: DirEntry)
    ensures e.name == "" && e.path == "" && e.dateString == ""
    ensures e.size == 0 && e.date == 0
    ensures e.thumb == None && e.ext == None
  {
    DirEntry("", "", 0, 0, "", None, None)
  }

  /** `Dir::new`: no title and no entries yet; base path and read-only flag come from the configuration. */
  function NewDir(cfg: Config): (d: Dir)
    ensures d.title == "" && d.files == [] && d.folders == []
    ensures d.basePath == cfg.basePath && d.readOnly == cfg.readOnly
  {
    Dir("", cfg.basePath, cfg.readOnly, [], [])
  }

  /** `th` is not a directory, or none of its entries has extension `format`. */
  predicate NoThumbIn(fs: Fs, th: Path, format: string) {
    !IsDir(fs, th) || forall n :: n in ReadDir(fs, th) ==> Extension(ChildPath(th, n)) != Some(format)
  }

  /**
   * `get_random_thumb`: one of the entries of `th` whose extension is the
   * format, chosen by `draw`; entries without an extension are passed over.
   */
  function RandomThumb(fs: Fs, th: Path, format: string, draw: nat): (r: Option<Path>)
    ensures r.Some? ==> IsThumbOf(fs, th, format, r.value)
    ensures r.None? <==> NoThumbIn(fs, th, format)
  {
    if !IsDir(fs, th) || !Exists(fs, th) then None
    else
      var thumbs := MatchingNames(th, ReadDir(fs, th), format);
      match Choose(thumbs, draw)
      case None => None
      case Some(n) =>
        MatchIsThumbOf(fs, th, format, n);
        Some(ChildPath(th, n))
  }

  /** Every matching entry of the cache directory is the preview for some draw. */
  lemma RandomThumbCovers(fs: Fs, th: Path, format: string, n: string)
    requires IsDir(fs, th) && n in ReadDir(fs, th)
    requires Extension(ChildPath(th, n)) == Some(format)
    ensures exists draw :: RandomThumb(fs, th, format, draw) == Some(ChildPath(th, n))
  {
    var thumbs := MatchingNames(th, ReadDir(fs, th), format);
    var k :| 0 <= k < |thumbs| && thumbs[k] == n;
    ChooseCovers(thumbs, k);
    assert RandomThumb(fs, th, format, k) == Some(ChildPath(th, n));
  }

  /** A folder's preview: a random thumbnail from the folder's own `.th`, root-relative. */
  function FolderThumb(fs: Fs, cfg: Config, folder: Path, draw: nat): (r: Option<string>)
    requires cfg.root <= folder
    ensures r.None? <==> NoThumbIn(fs, ChildPath(folder, ThumbDirName), cfg.thumbFormat)
    ensures r.Some? ==> exists t :: IsThumbOf(fs, ChildPath(folder, ThumbDirName), cfg.thumbFormat, t)
                                 && cfg.root <= t && r.value == RootRelative(cfg, t)
  {
    JoinIsChildPath(folder, ThumbDirName);
    match RandomThumb(fs, Join(folder, ThumbDirName), cfg.thumbFormat, draw)
    case None => None
    case Some(th) => Some(RootRelative(cfg, th))
  }

  /** A file's thumbnail: the derived candidate, root-relative, when it exists. */
  function FileThumb(fs: Fs, cfg: Config, dir: Path, name: string): (r: Option<string>)
    requires cfg.root <= dir
    ensures r.Some? <==> Exists(fs, FilePathToThumb(ChildPath(dir, name), cfg.thumbFormat).value)
    ensures r.Some? ==> r.value == RootRelative(cfg, FilePathToThumb(ChildPath(dir, name), cfg.thumbFormat).value)
  {
    match FilePathToThumb(ChildPath(dir, name), cfg.thumbFormat)
    case Err(_) => None
    case Ok(tpath) => if Exists(fs, tpath) then Some(RootRelative(cfg, tpath)) else None
  }

  /** `date`: the modification time in seconds, or 0 when the metadata has none. */
  function DateOf(modified: Option<nat>): (date: nat)
    ensures date == 0 <==> modified in {None, Some(0)}
    ensures date != 0 ==> modified == Some(date)
  {
    if modified.Some? then modified.value else 0
  }

  /** `date_string`: the day formatted, or empty when the date is 0. */
  function DateString(date: nat, dayFmt: nat -> string): (s: string)
    ensures date == 0 ==> s == ""
    ensures date != 0 ==> s == dayFmt(date)
  {
    if date > 0 then dayFmt(date) else ""
  }

  /**
   * The entry `get_dir`'s loop builds for the child `name` of `dir`; `draw`
   * is the random source's draw for that child.
   */
  function EntryOf(fs: Fs, cfg: Config, dir: Path, name: string, draw: nat, dayFmt: nat -> string): (e: DirEntry)
    requires cfg.root <= dir
    requires ChildPath(dir, name) in fs
    ensures e.name == name && e.size == fs[ChildPath(dir, name)].size
  {
    var path := ChildPath(dir, name);
    var meta := fs[path];
    var date := DateOf(meta.modified);
    DirEntry(
      name := name,
      path := RootRelative(cfg, path),
      size := meta.size,
      date := date,
      dateString := DateString(date, dayFmt),
      thumb := if IsDir(fs, path) then FolderThumb(fs, cfg, path, draw) else FileThumb(fs, cfg, dir, name),
      ext := Extension(path))
  }

  /** The fields of the entry `get_dir` builds for one child. */
  lemma EntryOfFields(fs: Fs, cfg: Config, dir: Path, name: string, draw: nat, dayFmt: nat -> string)
    requires cfg.root <= dir
    requires ChildPath(dir, name) in fs
    ensures var e, path := EntryOf(fs, cfg, dir, name, draw, dayFmt), ChildPath(dir, name);
            && e.name == name
            && e.path == RootRelative(cfg, path)
            && e.size == fs[path].size
            && (e.date == 0 <==> fs[path].modified in {None, Some(0)})
            && (e.date != 0 ==> fs[path].modified == Some(e.date))
            && (e.date == 0 ==> e.dateString == "")
            && (e.date != 0 ==> e.dateString == dayFmt(e.date))
            && (e.ext.None? <==> Extension(path).None?)
            && (e.ext.Some? ==> e.ext == Extension(path))
            && (IsDir(fs, path) ==> e.thumb == FolderThumb(fs, cfg, path, draw))
            && (!IsDir(fs, path) ==> e.thumb == FileThumb(fs, cfg, dir, name))
  {
  }

  /** With a day formatter that never yields empty text, `date_string` is empty exactly when `date` is 0. */
  lemma DateStringEmptyIff(fs: Fs, cfg: Config, dir: Path, name: string, draw: nat, dayFmt: nat -> string)
    requires cfg.root <= dir && ChildPath(dir, name) in fs
    requires forall t :: dayFmt(t) != ""
    ensures var e := EntryOf(fs, cfg, dir, name, draw, dayFmt); e.dateString == "" <==> e.date == 0
  {
  }

  /**
   * The list the scan of the first `n` children of `cs` pushes entries onto:
   * `files` or, when `folders`, `folders`; `rng(k)` is the draw for the child
   * at position `k`.
   */
  function Entries(fs: Fs, cfg: Config, dir: Path, cs: seq<string>, n: nat, folders: bool,
                   rng: nat -> nat, dayFmt: nat -> string): (es: seq<DirEntry>)
    requires cfg.root <= dir && ChildrenReadable(fs, dir, cs) && n <= |cs|
  {
    Scan(fs, dir, cs, n, folders, Builder(fs, cfg, dir, cs, rng, dayFmt))
  }

  /** The entry the scan builds for the child at position `k`. */
  function Builder(fs: Fs, cfg: Config, dir: Path, cs: seq<string>, rng: nat -> nat, dayFmt: nat -> string): (b: nat --> DirEntry)
    requires cfg.root <= dir && ChildrenReadable(fs, dir, cs)
    ensures forall k :: 0 <= k < |cs| && cs[k] != ThumbDirName ==> b.requires(k) && b(k) == EntryOf(fs, cfg, dir, cs[k], rng(k), dayFmt)
  {
    k requires 0 <= k < |cs| && cs[k] != ThumbDirName => EntryOf(fs, cfg, dir, cs[k], rng(k), dayFmt)
  }

  /** The `j`-th entry of a scan is built from the `j`-th picked child, with that child's draw. */
  lemma EntriesPointwise(fs: Fs, cfg: Config, dir: Path, cs: seq<string>, n: nat, folders: bool,
                         rng: nat -> nat, dayFmt: nat -> string, j: nat)
    requires cfg.root <= dir && ChildrenReadable(fs, dir, cs) && n <= |cs|
    requires j < |Picks(fs, dir, cs, n, folders)|
    ensures var k := Picks(fs, dir, cs, n, folders)[j];
            && k < n && ChildPath(dir, cs[k]) in fs
            && Entries(fs, cfg, dir, cs, n, folders, rng, dayFmt)[j] == EntryOf(fs, cfg, dir, cs[k], rng(k), dayFmt)
  {
    ScanPointwise(fs, dir, cs, n, folders, Builder(fs, cfg, dir, cs, rng, dayFmt), j);
  }

  /** The sort key: the lower-cased name. */
  function Key(e: DirEntry): string {
    Lower(e.name)
  }

  /** Non-decreasing by lower-cased name. */
  predicate SortedByName(es: seq<DirEntry>) {
    SortedBy(es, Key)
  }

  /** `sort_by` on lower-cased names: Rust's stable sort. */
  function SortByName(es: seq<DirEntry>): (r: seq<DirEntry>)
    ensures multiset(r) == multiset(es)
    ensures SortedByName(r)
  {
    SortBySorted(es, Key);
    SortByPermutes(es, Key);
    SortBy(es, Key)
  }

  /** Stability: entries with equal lower-cased names keep their relative order. */
  lemma SortByNameStable(es: seq<DirEntry>, k: string)
    ensures WithKey(SortByName(es), Key, k) == WithKey(es, Key, k)
  {
    SortByStable(es, Key, k);
  }

  /** The body of the scan for one child: `details` filled field by field from `DirEntry::new`. */
  method Details(fs: Fs, cfg: Config, dir: Path, name: string, draw: nat, dayFmt: nat -> string)
    returns (details: DirEntry)
    requires cfg.root <= dir && ChildPath(dir, name) in fs
    ensures details == EntryOf(fs, cfg, dir, name, draw, dayFmt)
  {
    var path := ChildPath(dir, name);
    var meta := fs[path];
    details := NewEntry();
    details := details.(name := name);
    details := details.(path := RootRelative(cfg, path));
    details := details.(size := meta.size);
    details := details.(date := if meta.modified.Some? then meta.modified.value else 0);
    details := details.(dateString := if details.date > 0 then dayFmt(details.date) else "");
    details := details.(ext := Extension(path));
    if IsDir(fs, path) {
      details := details.(thumb := FolderThumb(fs, cfg, path, draw));
    } else {
      details := details.(thumb := FileThumb(fs, cfg, dir, name));
    }
  }

  /** What `get_dir` returns for a directory: its root-relative title and both lists sorted by name. */
  function Listing(fs: Fs, cfg: Config, dir: Path, rng: nat -> nat, dayFmt: nat -> string): (d: Dir)
    requires IsDir(fs, dir) && cfg.root <= dir && MetadataReadable(fs, dir)
    ensures d.title == RootRelative(cfg, dir)
    ensures d.basePath == cfg.basePath && d.readOnly == cfg.readOnly
    ensures SortedByName(d.files) && SortedByName(d.folders)
    ensures multiset(d.files) == multiset(Entries(fs, cfg, dir, ReadDir(fs, dir), |ReadDir(fs, dir)|, false, rng, dayFmt))
    ensures multiset(d.folders) == multiset(Entries(fs, cfg, dir, ReadDir(fs, dir), |ReadDir(fs, dir)|, true, rng, dayFmt))
  {
    var cs := ReadDir(fs, dir);
    Dir(title := RootRelative(cfg, dir),
        basePath := cfg.basePath,
        readOnly := cfg.readOnly,
        files := SortByName(Entries(fs, cfg, dir, cs, |cs|, false, rng, dayFmt)),
        folders := SortByName(Entries(fs, cfg, dir, cs, |cs|, true, rng, dayFmt)))
  }

  /** What the scan loop pushes onto one of its lists for the child `name`: its entry when picked, nothing otherwise. */
  function Pushed(fs: Fs, cfg: Config, dir: Path, name: string, draw: nat, dayFmt: nat -> string, folders: bool): seq<DirEntry>
    requires cfg.root <= dir && (name != ThumbDirName ==> ChildPath(dir, name) in fs)
  {
    if IsPicked(fs, dir, name, folders) then [EntryOf(fs, cfg, dir, name, draw, dayFmt)] else []
  }

  /**
   * One turn of the `get_dir` loop, for the `i`-th entry: the child is
   * skipped when its path is `thpath`; otherwise its entry is filled and
   * pushed onto `folders` or `files`.  Starting from the lists built from
   * the first `i` entries, it leaves the lists built from the first `i + 1`.
   */
  method ScanChild(fs: Fs, cfg: Config, dir: Path, thpath: Path, entries: seq<string>, i: nat,
                   rng: nat -> nat, dayFmt: nat -> string, page: Dir) returns (next: Dir)
    requires cfg.root <= dir && thpath == ChildPath(dir, ThumbDirName)
    requires ChildrenReadable(fs, dir, entries) && i < |entries|
    requires page.files == Entries(fs, cfg, dir, entries, i, false, rng, dayFmt)
    requires page.folders == Entries(fs, cfg, dir, entries, i, true, rng, dayFmt)
    ensures next.title == page.title && next.basePath == page.basePath && next.readOnly == page.readOnly
    ensures next.files == Entries(fs, cfg, dir, entries, i + 1, false, rng, dayFmt)
    ensures next.folders == Entries(fs, cfg, dir, entries, i + 1, true, rng, dayFmt)
  {
    EntriesStep(fs, cfg, dir, entries, i + 1, false, rng, dayFmt);
    EntriesStep(fs, cfg, dir, entries, i + 1, true, rng, dayFmt);
    next := page;
    var name := entries[i];
    var path := ChildPath(dir, name);
    SkippedIsThumbDir(dir, name);
    if path == thpath {
      return;
    }
    var details := Details(fs, cfg, dir, name, rng(i), dayFmt);
    if IsDir(fs, path) {
      next := next.(folders := next.folders + [details]);
    } else {
      next := next.(files := next.files + [details]);
    }
  }

  /**
   * `get_dir`: a missing path or a non-directory is `NotFound`; otherwise one
   * pass over the directory's entries, skipping `.th`, fills the two lists,
   * which are then sorted.  `rng(k)` is the random draw for the `k`-th entry
   * and `dayFmt` renders a timestamp as `%Y-%m-%d`.
   */
  method GetDir(fs: Fs, cfg: Config, dir: Path, rng: nat -> nat, dayFmt: nat -> string) returns (r: Result<Dir, DirError>)
    requires IsDir(fs, dir) ==> cfg.root <= dir && MetadataReadable(fs, dir)
    ensures !IsDir(fs, dir) ==> r == Err(DirError.NotFound)
    ensures IsDir(fs, dir) ==> r == Ok(Listing(fs, cfg, dir, rng, dayFmt))
  {
    if !IsDir(fs, dir) {
      return Err(DirError.NotFound);
    }
    var page := NewDir(cfg);
    page := page.(title := RootRelative(cfg, dir));
    var thpath := Join(dir, ThumbDirName);
    JoinIsChildPath(dir, ThumbDirName);
    var entries := ReadDir(fs, dir);
    for i := 0 to |entries|
      invariant page.title == RootRelative(cfg, dir)
      invariant page.basePath == cfg.basePath && page.readOnly == cfg.readOnly
      invariant page.files == Entries(fs, cfg, dir, entries, i, false, rng, dayFmt)
      invariant page.folders == Entries(fs, cfg, dir, entries, i, true, rng, dayFmt)
    {
      page := ScanChild(fs, cfg, dir, thpath, entries, i, rng, dayFmt, page);
    }
    page := page.(folders := SortByName(page.folders));
    page := page.(files := SortByName(page.files));
    return Ok(page);
  }

  /** One more child extends the list by its entry when the scan picks it. */
  lemma EntriesStep(fs: Fs, cfg: Config, dir: Path, cs: seq<string>, n: nat, folders: bool,
                    rng: nat -> nat, dayFmt: nat -> string)
    requires cfg.root <= dir && ChildrenReadable(fs, dir, cs) && 0 < n <= |cs|
    ensures Entries(fs, cfg, dir, cs, n, folders, rng, dayFmt)
            == Entries(fs, cfg, dir, cs, n - 1, folders, rng, dayFmt) + Pushed(fs, cfg, dir, cs[n - 1], rng(n - 1), dayFmt, folders)
  {
    ScanStep(fs, dir, cs, n, folders, Builder(fs, cfg, dir, cs, rng, dayFmt));
  }

  /** An entry of a scan is an `EntryOf` one of the picked children, with that child's draw. */
  lemma EntriesFrom(fs: Fs, cfg: Config, dir: Path, cs: seq<string>, folders: bool,
                    rng: nat -> nat, dayFmt: nat -> string, e: DirEntry)
    requires cfg.root <= dir && ChildrenReadable(fs, dir, cs)
    requires e in Entries(fs, cfg, dir, cs, |cs|, folders, rng, dayFmt)
    ensures exists k :: && 0 <= k < |cs| && cs[k] == e.name && IsPicked(fs, dir, cs[k], folders)
                        && ChildPath(dir, cs[k]) in fs
                        && e == EntryOf(fs, cfg, dir, cs[k], rng(k), dayFmt)
  {
    var es := Entries(fs, cfg, dir, cs, |cs|, folders, rng, dayFmt);
    var j :| 0 <= j < |es| && es[j] == e;
    EntriesPointwise(fs, cfg, dir, cs, |cs|, folders, rng, dayFmt, j);
    var k := Picks(fs, dir, cs, |cs|, folders)[j];
    assert cs[k] == e.name;
  }

  /** The child at position `k`, when picked, has its entry in the scan. */
  lemma EntriesCover(fs: Fs, cfg: Config, dir: Path, cs: seq<string>, folders: bool,
                     rng: nat -> nat, dayFmt: nat -> string, k: nat)
    requires cfg.root <= dir && ChildrenReadable(fs, dir, cs)
    requires k < |cs| && IsPicked(fs, dir, cs[k], folders)
    ensures ChildPath(dir, cs[k]) in fs
    ensures EntryOf(fs, cfg, dir, cs[k], rng(k), dayFmt) in Entries(fs, cfg, dir, cs, |cs|, folders, rng, dayFmt)
  {
    var ps := Picks(fs, dir, cs, |cs|, folders);
    var j :| 0 <= j < |ps| && ps[j] == k;
    EntriesPointwise(fs, cfg, dir, cs, |cs|, folders, rng, dayFmt, j);
    assert Entries(fs, cfg, dir, cs, |cs|, folders, rng, dayFmt)[j] == EntryOf(fs, cfg, dir, cs[k], rng(k), dayFmt);
  }

  /** A scan holds an entry named `name` exactly when `name` is a picked child. */
  lemma EntriesNames(fs: Fs, cfg: Config, dir: Path, cs: seq<string>, folders: bool,
                     rng: nat -> nat, dayFmt: nat -> string, name: string)
    requires cfg.root <= dir && ChildrenReadable(fs, dir, cs)
    ensures (exists e :: e in Entries(fs, cfg, dir, cs, |cs|, folders, rng, dayFmt) && e.name == name)
            <==> name in cs && IsPicked(fs, dir, name, folders)
  {
    var es := Entries(fs, cfg, dir, cs, |cs|, folders, rng, dayFmt);
    if exists e :: e in es && e.name == name {
      var e :| e in es && e.name == name;
      EntriesFrom(fs, cfg, dir, cs, folders, rng, dayFmt, e);
    }
    if name in cs && IsPicked(fs, dir, name, folders) {
      var k :| 0 <= k < |cs| && cs[k] == name;
      EntriesCover(fs, cfg, dir, cs, folders, rng, dayFmt, k);
      assert EntryOf(fs, cfg, dir, name, rng(k), dayFmt).name == name;
    }
  }

  /** Sorting keeps exactly the entries it was given. */
  lemma SortByNameMembers(es: seq<DirEntry>, name: string)
    ensures (exists e :: e in SortByName(es) && e.name == name) <==> (exists e :: e in es && e.name == name)
  {
    var r := SortByName(es);
    if exists e :: e in r && e.name == name {
      var e :| e in r && e.name == name;
      assert e in multiset(r);
    }
    if exists e :: e in es && e.name == name {
      var e :| e in es && e.name == name;
      assert e in multiset(es);
    }
  }

  /**
   * Every entry of the directory except `.th` is listed, among the folders
   * exactly when it is a directory and among the files otherwise; every
   * listed entry comes from the directory.
   */
  lemma ListingPartition(fs: Fs, cfg: Config, dir: Path, rng: nat -> nat, dayFmt: nat -> string, name: string)
    requires IsDir(fs, dir) && cfg.root <= dir && MetadataReadable(fs, dir)
    ensures var d := Listing(fs, cfg, dir, rng, dayFmt);
            (exists e :: e in d.folders && e.name == name)
            <==> name in ReadDir(fs, dir) && name != ThumbDirName && IsDir(fs, ChildPath(dir, name))
    ensures var d := Listing(fs, cfg, dir, rng, dayFmt);
            (exists e :: e in d.files && e.name == name)
            <==> name in ReadDir(fs, dir) && name != ThumbDirName && !IsDir(fs, ChildPath(dir, name))
  {
    var cs := ReadDir(fs, dir);
    SkippedIsThumbDir(dir, name);
    EntriesNames(fs, cfg, dir, cs, true, rng, dayFmt, name);
    EntriesNames(fs, cfg, dir, cs, false, rng, dayFmt, name);
    SortByNameMembers(Entries(fs, cfg, dir, cs, |cs|, true, rng, dayFmt), name);
    SortByNameMembers(Entries(fs, cfg, dir, cs, |cs|, false, rng, dayFmt), name);
  }

  /** Entries whose lower-cased names are equal keep the order the scan met them in. */
  lemma ListingStable(fs: Fs, cfg: Config, dir: Path, rng: nat -> nat, dayFmt: nat -> string, k: string)
    requires IsDir(fs, dir) && cfg.root <= dir && MetadataReadable(fs, dir)
    ensures var d := Listing(fs, cfg, dir, rng, dayFmt);
            && WithKey(d.files, Key, k) == WithKey(Entries(fs, cfg, dir, ReadDir(fs, dir), |ReadDir(fs, dir)|, false, rng, dayFmt), Key, k)
            && WithKey(d.folders, Key, k) == WithKey(Entries(fs, cfg, dir, ReadDir(fs, dir), |ReadDir(fs, dir)|, true, rng, dayFmt), Key, k)
  {
    SortByNameStable(Entries(fs, cfg, dir, ReadDir(fs, dir), |ReadDir(fs, dir)|, false, rng, dayFmt), k);
    SortByNameStable(Entries(fs, cfg, dir, ReadDir(fs, dir), |ReadDir(fs, dir)|, true, rng, dayFmt), k);
  }

  /** A directory holding nothing but its cache directory lists no entries. */
  lemma OnlyThumbDirListsNothing(fs: Fs, cfg: Config, dir: Path, rng: nat -> nat, dayFmt: nat -> string)
    requires IsDir(fs, dir) && cfg.root <= dir && MetadataReadable(fs, dir)
    requires ReadDir(fs, dir) == [ThumbDirName]
    ensures Listing(fs, cfg, dir, rng, dayFmt).files == []
    ensures Listing(fs, cfg, dir, rng, dayFmt).folders == []
  {
    var cs := ReadDir(fs, dir);
    SkippedIsThumbDir(dir, ThumbDirName);
    PicksStep(fs, dir, cs, 1, true);
    PicksStep(fs, dir, cs, 1, false);
  }

  /** Case-insensitive, stable ordering: `b`, `A`, `a` list as `A`, `a`, `b`. */
  lemma SortExample(b: DirEntry, upper: DirEntry, lower: DirEntry)
    requires b.name == "b" && upper.name == "A" && lower.name == "a"
    ensures SortByName([b, upper, lower]) == [upper, lower, b]
  {
    assert Key(b) == "b" && Key(upper) == "a" && Key(lower) == "a";
    assert !LexLe("b", "a");
    SortThree(b, upper, lower, Key);
  }

  /** The unit test's basic case: `/dir/file.jpg` has thumbnail `/dir/.th/file.jpg.avif`. */
  lemma FilePathToThumbBasic()
    ensures FilePathToThumb(Parse("/dir/file.jpg"), "avif") == Ok(Parse("/dir/.th/file.jpg.avif"))
  {
    ThumbTestCase("/dir", "file.jpg",
                  "/dir/file.jpg",
                  "/dir/.th/file.jpg.avif");
  }

  /** The unit test's uncommon case: spaces, `!` and `@` in directory names are kept as they are. */
  lemma FilePathToThumbUncommon()
    ensures FilePathToThumb(Parse("/Pictures/Special Photos!/file@example.com/video.avi"), "avif") == Ok(Parse("/Pictures/Special Photos!/file@example.com/.th/video.avi.avif"))
  {
    ThumbTestCase("/Pictures/Special Photos!/file@example.com", "video.avi",
                  "/Pictures/Special Photos!/file@example.com/video.avi",
                  "/Pictures/Special Photos!/file@example.com/.th/video.avi.avif");
  }

  /** The unit test's `..` case: the parent is kept as written, `..` is not resolved. */
  lemma FilePathToThumbParentInPath()
    ensures FilePathToThumb(Parse("/home/user/Pictures/sub/../base.jpg"), "avif") == Ok(Parse("/home/user/Pictures/sub/../.th/base.jpg.avif"))
  {
    ThumbTestCase("/home/user/Pictures/sub/..", "base.jpg",
                  "/home/user/Pictures/sub/../base.jpg",
                  "/home/user/Pictures/sub/../.th/base.jpg.avif");
  }

  /** The unit test's case without an extension: `/etc/config_file` has thumbnail `/etc/.th/config_file.avif`. */
  lemma FilePathToThumbNoExtension()
    ensures FilePathToThumb(Parse("/etc/config_file"), "avif") == Ok(Parse("/etc/.th/config_file.avif"))
  {
    ThumbTestCase("/etc", "config_file",
                  "/etc/config_file",
                  "/etc/.th/config_file.avif");
  }

  /** One case of the unit test, given by the texts of the file and of its expected thumbnail. */
  lemma ThumbTestCase(dir: string, name: string, file: string, thumb: string)
    requires dir != [] && IsName(name)
    requires file == dir + [Separator] + name
    requires thumb == dir + [Separator] + ThumbDirName + [Separator] + ThumbFileName(name, "avif")
    ensures FilePathToThumb(Parse(file), "avif") == Ok(Parse(thumb))
  {
    FilePathToThumbText(dir, name, "avif");
  }
}
