# hview listing engine, in Dafny

hview is a web file browser for images and videos. Its server turns a
directory under the served root into a listing. The listing has two lists,
files and folders, and each entry carries a name, a path, a size, a date, an
extension and a thumbnail. Thumbnails live in a per-directory cache directory
named `.th`. A file's thumbnail is `.th/<name>.<format>`, and a folder's
preview is a random thumbnail taken from a cache directory. Request paths
arrive as URL segments. A normaliser folds them into a path that cannot climb
above the served root.

The repository holds three revisions of the listing engine. This project
models each one separately, because they differ in what a client sees:

- **`BackendDir`** (backend/src/dir.rs, the newest revision):
  - both lists are sorted by lower-cased name with a stable sort;
  - paths are root-relative, and a date is a number where 0 means unknown;
  - a file's thumbnail is listed only when it exists;
  - a folder's preview comes from the folder's own `.th`, matched against the configured format.
- **`AppFs`** (src/app/fs.rs, the middle revision):
  - the lists stay in enumeration order, and a date is optional;
  - a file's thumbnail is existence-checked, and root-relative when listed;
  - every folder's preview comes from the scanned directory's `.th`, not the folder's own.
- **`HView`** (src/hview/mod.rs, the oldest revision):
  - the lists stay in enumeration order, and there are no dates;
  - the title and paths are full, unstripped paths;
  - every file gets its derived thumbnail path whether or not it exists;
  - folder previews come from the scanned directory's `.th` and are matched against the literal `avif`.

The shared parts are modelled once:

- **`Paths`**: Rust's `std::path` on Unix. A path is modelled by its components, with `push`, `pop`, `parent`, `file_name`, `extension`, `strip_prefix` and `display`.
- **`Snapshot`**: the filesystem as an immutable map from paths to metadata. A directory's metadata lists its children in enumeration order. This module also holds the generic scan that every `get_dir` loop performs.
- **`Settings`**: the configuration constants.
- **`Thumbs`**:
  - `file_path_to_thumb`, identical in all three revisions;
  - the filter-and-choose of `get_random_thumb`, with the random draw injected as a number;
  - the stricter variant of the two older revisions, which unwraps.
- **`NameOrder`**:
  - lower-casing;
  - the order Rust's `Ord` gives strings;
  - a generic stable insertion sort, with its proofs of permutation, sortedness and stability.

`CustomPathBuf` and `from_segments` appear in both older revisions
(src/hview/hrocket.rs and src/app/pathbuf.rs). `from_segments` is identical in
both, so `PathSegments` models it once; `from` exists only in
src/app/pathbuf.rs. `from_segments` is a method with a loop over a `CustomPathBuf` class,
proved equal to the fold `Normalize`. The lemmas prove three things about the
fold:

- it never yields `..` or a root;
- the first rejected segment decides the error;
- `..` cancels the last accepted name.

`EntryComponent` and `ModalComponent` model the frontend's conversions
between kinds and strings, and the link and image-source rules of an entry
card.

Each `get_dir` is an imperative method. Its `for` loop calls a `ScanChild`
method that builds one entry and appends it to one list. The loop invariant
says each list equals `Entries` of the children seen so far. `Entries` is a
`Scan`: a function over the positions of the children the loop picks, listed
by `Picks`. The
method's postcondition ties its result to a `Listing` function. The lemmas
about `Listing` state what the Rust code promises:

- `.th` is skipped;
- every other child lands in exactly one list, chosen by whether it is a directory;
- each entry's fields;
- ordering: sorted and stable in the newest revision, enumeration order in the older two.

## Model

| member | source | states |
|---|---|---|
| `Paths.Parse` | src/app/pathbuf.rs:30-34 | `PathBuf::from` gives a well-formed component list that starts with the root exactly when the text is absolute |
| `Paths.SplitAppend` | src/app/pathbuf.rs:30-34 | splitting a text at a separator splits each side on its own |
| `Paths.ParseExtend` | backend/src/dir.rs:147-155 | a separator-free piece after a non-empty text adds that piece's components to the text's path |
| `Paths.ParseRoot` | backend/src/dir.rs:183-202 | a separator-free piece after a leading separator is read as the root followed by that piece |
| `Paths.Push` | src/app/pathbuf.rs:36-38 | an absolute suffix replaces the path; otherwise the old path is kept as a prefix; well-formedness is preserved |
| `Paths.PushName` | src/hview/hrocket.rs:64-66 | pushing a proper name appends exactly that one component |
| `Paths.Pop` | src/app/pathbuf.rs:40-42 | the result is a prefix of the path; it is unchanged exactly when the path is empty or the bare root, and otherwise one component shorter |
| `Paths.PopPushName` | src/hview/hrocket.rs:64-70 | popping undoes pushing a name |
| `Paths.Join` | backend/src/dir.rs:74 | joining a proper name appends exactly that one component |
| `Paths.FileName` | backend/src/dir.rs:149-150 | a file name exists exactly when the last component is a proper name, and it is that name |
| `Paths.FileNameJoin` | backend/src/dir.rs:117 | after joining a name, the file name is that name and the parent is the original path |
| `Paths.Parent` | backend/src/dir.rs:155 | there is no parent exactly when the path is empty or ends at the root; otherwise the parent is the path with its last component popped |
| `Paths.FileNameHasParent` | backend/src/dir.rs:146-157 | a path with a file name always has a parent, so the "Parent directory" error of `file_path_to_thumb` cannot occur |
| `Paths.NameExtension` | backend/src/dir.rs:108-112 | a name has an extension exactly when it is not `..` and has a `.` after its first character; the extension is the dot-free text after the last `.` |
| `Paths.Extension` | backend/src/dir.rs:108-112 | an extension exists only for a path with a file name; it has no `.`, and the name ends with `.` and the extension, with at least one character before that `.` |
| `Paths.StripPrefix` | backend/src/dir.rs:75 | succeeds exactly when the base is a prefix, and base followed by the result is the path |
| `Paths.ParseDisplay` | backend/src/dir.rs:75 | `display` loses nothing: reading the displayed text of a well-formed path gives the path back |
| `Settings.RootRelativeParses` | backend/src/dir.rs:90 | the root-relative text names the path: read back and put under the root it gives the entry's path again |
| `Snapshot.IsDirExists` | backend/src/dir.rs:162 | a directory exists, so the `!exists()` test after `!is_dir()` never decides anything |
| `Snapshot.ReadDirChecked` | src/app/fs.rs:67 | `read_dir` succeeds exactly on a directory and yields its children; it fails with `NotFound` exactly on a missing path |
| `Snapshot.ChildPath` | backend/src/dir.rs:79 | a child's path has the child's name as file name and the directory as parent |
| `Snapshot.JoinIsChildPath` | backend/src/dir.rs:74 | `dir.join(".th")` is the child path of `.th` |
| `Snapshot.SkippedIsThumbDir` | backend/src/dir.rs:82-84 | a child's path equals `dir/.th` exactly when its name is `.th` |
| `Snapshot.Picks` | backend/src/dir.rs:77-135 | the positions the scan pushes onto one list are exactly the picked children's, in increasing order |
| `Snapshot.PicksStep` | backend/src/dir.rs:77-84 | scanning one more child adds its position exactly when it is picked |
| `Snapshot.PicksPartition` | backend/src/dir.rs:116-135 | every child other than `.th` is picked for exactly one list, the folders exactly when it is a directory; `.th` is picked for neither |
| `Snapshot.Scan` | backend/src/dir.rs:122-134 | a scan builds one element per picked position |
| `Snapshot.ScanStep` | backend/src/dir.rs:77-136 | one more turn of the loop appends the new child's element exactly when it is picked |
| `Snapshot.ScanPointwise` | backend/src/dir.rs:77-136 | the `j`-th element of a scan is built from the `j`-th picked child |
| `Thumbs.FilePathToThumb` | backend/src/dir.rs:146-158 | fails exactly when the path has no file name, with the error `"Filename"`; on success the thumbnail lies under the file's parent |
| `Thumbs.FilePathToThumbShape` | backend/src/dir.rs:145-158 | the thumbnail is the parent, then `.th`, then `<name>.<format>`; `..` is not resolved and an existing extension is not dropped |
| `Thumbs.FilePathToThumbChild` | src/app/fs.rs:121-133 | for the file `dir/name` the thumbnail is `dir/.th/<name>.<format>` |
| `Thumbs.FilePathToThumbText` | backend/src/dir.rs:146-158 | for any non-empty directory text, the thumbnail of `<dir>/<name>` is the path of the text `<dir>/.th/<name>.<format>` |
| `Thumbs.ThumbFileNameIsName` | backend/src/dir.rs:147-154 | a thumbnail name built from a proper name and a separator-free format is itself a proper name |
| `Thumbs.ThumbFileNameExtension` | backend/src/config.rs:28-31 | a thumbnail's extension is the configured format |
| `Thumbs.MatchingNames` | backend/src/dir.rs:166-172 | a name survives the filter exactly when it is a child whose extension is the format |
| `Thumbs.Choose` | backend/src/dir.rs:174-175 | the choice fails exactly on no candidates, and otherwise yields one of them |
| `Thumbs.ChooseCovers` | backend/src/dir.rs:174-175 | every candidate is chosen by some draw |
| `Thumbs.MatchIsThumbOf` | backend/src/dir.rs:166-172 | a matching name joined to the cache directory is one of its children with the format's extension |
| `Thumbs.StrictRandomThumb` | src/app/fs.rs:136-152 | `None` exactly when the cache path is not a directory; otherwise a child with the format's extension |
| `Thumbs.StrictRandomThumbCovers` | src/app/fs.rs:141-151 | every matching child is the result for some draw |
| `NameOrder.LowerChar` | backend/src/dir.rs:139 | upper-case ASCII letters map to lower case; every other character is unchanged |
| `NameOrder.Lower` | backend/src/dir.rs:139-140 | lower-casing keeps the length and maps each character |
| `NameOrder.LowerIdempotent` | backend/src/dir.rs:139-140 | lower-casing twice changes nothing more |
| `NameOrder.LexLeIff` | backend/src/dir.rs:139-140 | the string comparison `cmp` uses is lexicographic: `a <= b` exactly when `a` is a prefix of `b` or has the smaller character where they first differ |
| `NameOrder.FirstDifferenceAtHead` | backend/src/dir.rs:139-140 | strings with different first characters first differ there |
| `NameOrder.FirstDifferenceInTail` | backend/src/dir.rs:139-140 | strings with the same first character compare as their tails do |
| `NameOrder.LexLeReflexive` | backend/src/dir.rs:139-140 | the string order is reflexive |
| `NameOrder.LexLeTotal` | backend/src/dir.rs:139-140 | any two strings are comparable |
| `NameOrder.LexLeTransitive` | backend/src/dir.rs:139-140 | the string order is transitive |
| `NameOrder.LexLeAntisymmetric` | backend/src/dir.rs:139-140 | strings ordered both ways are equal |
| `NameOrder.InsertByPermutes` | backend/src/dir.rs:139-140 | inserting adds the element and loses nothing |
| `NameOrder.InsertBySorted` | backend/src/dir.rs:139-140 | inserting into a sorted sequence keeps it sorted |
| `NameOrder.InsertBy` | backend/src/dir.rs:139-140 | inserting adds exactly one element |
| `NameOrder.SortBy` | backend/src/dir.rs:139-140 | the sort keeps the number of elements |
| `NameOrder.SortByPermutes` | backend/src/dir.rs:139-140 | the sort's result is a permutation of its input |
| `NameOrder.SortBySorted` | backend/src/dir.rs:139-140 | the sort's result is non-decreasing by key |
| `NameOrder.InsertByStable` | backend/src/dir.rs:139-140 | inserting puts the element after every element with the same key |
| `NameOrder.SortByStable` | backend/src/dir.rs:139-140 | elements with equal keys keep their relative order |
| `NameOrder.SortTwo` | backend/src/dir.rs:139-140 | two elements out of order are swapped |
| `NameOrder.SortThree` | backend/src/dir.rs:139-140 | the greatest key moves to the end, and two equal keys keep their order |
| `BackendDir.NewEntry` | backend/src/dir.rs:31-43 | a new entry has empty texts, zero numbers and no thumbnail or extension |
| `BackendDir.NewDir` | backend/src/dir.rs:54-64 | a new listing has no title and no entries, and takes the base path and the read-only flag from the configuration |
| `BackendDir.RandomThumb` | backend/src/dir.rs:161-176 | `None` exactly when the cache is not a directory or has no child with the format's extension; otherwise one such child |
| `BackendDir.RandomThumbCovers` | backend/src/dir.rs:166-175 | every matching child of the cache is the preview for some draw |
| `BackendDir.FolderThumb` | backend/src/dir.rs:116-121 | a folder's preview is absent exactly when its own `.th` holds no thumbnail; otherwise it is one of them, root-relative |
| `BackendDir.FileThumb` | backend/src/dir.rs:124-132 | a file's thumbnail is present exactly when the derived candidate exists, and is then that candidate, root-relative |
| `BackendDir.DateOf` | backend/src/dir.rs:92-98 | the date is 0 exactly when the metadata has no modification time or it is 0; otherwise it is that time |
| `BackendDir.DateString` | backend/src/dir.rs:100-106 | a zero date renders as empty text; any other date as the day format of that date |
| `BackendDir.EntryOf` | backend/src/dir.rs:86-134 | the entry for a child carries that child's name and its metadata's size |
| `BackendDir.EntryOfFields` | backend/src/dir.rs:86-135 | each field of an entry: name, root-relative path, size, date (0 when unknown), day string, extension and thumbnail |
| `BackendDir.DateStringEmptyIff` | backend/src/dir.rs:92-106 | with a formatter that never yields empty text, the date string is empty exactly when the date is 0 |
| `BackendDir.Entries` | backend/src/dir.rs:77-135 | one entry per picked child |
| `BackendDir.Builder` | backend/src/dir.rs:86-133 | the entry built for a child other than `.th` is its `EntryOf`, with that child's draw |
| `BackendDir.EntriesPointwise` | backend/src/dir.rs:77-136 | the `j`-th pushed entry is the `EntryOf` the `j`-th picked child |
| `BackendDir.SortByName` | backend/src/dir.rs:139-140 | the sorted list is a permutation of its input, ordered by lower-cased name |
| `BackendDir.SortByNameStable` | backend/src/dir.rs:139-140 | entries with equal lower-cased names keep their relative order |
| `BackendDir.Details` | backend/src/dir.rs:86-133 | filling a new entry field by field gives `EntryOf` the child |
| `BackendDir.Listing` | backend/src/dir.rs:67-143 | the title is root-relative; both lists are sorted by name and are permutations of what the scan pushed |
| `BackendDir.EntriesStep` | backend/src/dir.rs:77-135 | scanning one more child appends its entry to the list exactly when it is picked for that list, and nothing otherwise |
| `BackendDir.ScanChild` | backend/src/dir.rs:77-135 | the turn for the `i`-th entry turns the lists built from the first `i` entries into those built from the first `i + 1`; title, base path and read-only flag are unchanged |
| `BackendDir.GetDir` | backend/src/dir.rs:67-143 | a non-directory gives `NotFound`; a directory gives its `Listing` |
| `BackendDir.EntriesFrom` | backend/src/dir.rs:86-135 | every pushed entry is the `EntryOf` some picked child of that name |
| `BackendDir.EntriesCover` | backend/src/dir.rs:116-135 | every picked child's entry is pushed |
| `BackendDir.EntriesNames` | backend/src/dir.rs:77-135 | a list holds an entry named `n` exactly when `n` is a child picked for it |
| `BackendDir.SortByNameMembers` | backend/src/dir.rs:139-140 | sorting keeps exactly the names it was given |
| `BackendDir.ListingPartition` | backend/src/dir.rs:74-135 | every child except `.th` is listed, among the folders exactly when it is a directory; nothing else is listed |
| `BackendDir.ListingStable` | backend/src/dir.rs:138-140 | in each list, entries with equal lower-cased names appear in enumeration order |
| `BackendDir.OnlyThumbDirListsNothing` | backend/src/dir.rs:81-84 | a directory that holds only `.th` lists nothing |
| `BackendDir.SortExample` | backend/src/dir.rs:139-140 | `b`, `A`, `a` list as `A`, `a`, `b` |
| `BackendDir.FilePathToThumbBasic` | backend/src/dir.rs:184-186 | the path of `/dir/file.jpg` has as thumbnail the path of `/dir/.th/file.jpg.avif` |
| `BackendDir.FilePathToThumbUncommon` | backend/src/dir.rs:188-192 | spaces and punctuation in the directory names are kept: `.../file@example.com/video.avi` gives `.../file@example.com/.th/video.avi.avif` |
| `BackendDir.FilePathToThumbParentInPath` | backend/src/dir.rs:194-198 | `/home/user/Pictures/sub/../base.jpg` keeps its `..`: it gives `/home/user/Pictures/sub/../.th/base.jpg.avif` |
| `BackendDir.FilePathToThumbNoExtension` | backend/src/dir.rs:200-202 | the path of `/etc/config_file` has as thumbnail the path of `/etc/.th/config_file.avif` |
| `BackendDir.ThumbTestCase` | backend/src/dir.rs:183-202 | one case of the unit test: a file text `<dir>/<name>` and its expected thumbnail text `<dir>/.th/<name>.avif` |
| `AppFs.NewEntry` | src/app/fs.rs:26-38 | a new entry has empty texts, zero size and no date, thumbnail or extension |
| `AppFs.NewPage` | src/app/fs.rs:49-59 | a new page has no title and no entries, and takes the base path and the read-only flag from the configuration |
| `AppFs.FileThumb` | src/app/fs.rs:104-112 | a file's thumbnail is present exactly when the candidate exists, and is then the candidate with the root stripped |
| `AppFs.EntryOf` | src/app/fs.rs:76-115 | each field: name, root-relative path, size, the optional date, its full-time rendering, extension; a folder's preview is from `dir/.th` |
| `AppFs.DateStringEmptyIff` | src/app/fs.rs:82-91 | with a formatter that never yields empty text, the date string is empty exactly when there is no date |
| `AppFs.ScanSafeChildren` | src/app/fs.rs:76-101 | a scan-safe directory's children all have metadata, and the cache meets what the preview unwraps |
| `AppFs.Entries` | src/app/fs.rs:67-116 | one entry per picked child |
| `AppFs.Builder` | src/app/fs.rs:76-112 | the entry built for a child other than `.th` is its `EntryOf`, with that child's draw |
| `AppFs.EntriesPointwise` | src/app/fs.rs:67-116 | the `j`-th appended entry is the `EntryOf` the `j`-th picked child |
| `AppFs.Listing` | src/app/fs.rs:61-119 | the title is root-relative, and each list has one entry per picked child |
| `AppFs.Details` | src/app/fs.rs:76-112 | filling a new entry field by field gives `EntryOf` the child |
| `AppFs.EntriesStep` | src/app/fs.rs:69-115 | scanning one more child appends its entry to the list exactly when it is picked for that list, and nothing otherwise |
| `AppFs.ScanChild` | src/app/fs.rs:69-115 | the turn for the `i`-th entry turns the lists built from the first `i` entries into those built from the first `i + 1`; title, base path and read-only flag are unchanged |
| `AppFs.GetDir` | src/app/fs.rs:61-119 | a missing path gives `NotFound`, a non-directory `NotADirectory`, and a directory its `Listing` |
| `AppFs.ListingInEnumerationOrder` | src/app/fs.rs:102-118 | no sorting: the `j`-th listed entry is the `j`-th picked child in enumeration order |
| `AppFs.ListingPartition` | src/app/fs.rs:72-115 | every child except `.th` is listed, among the folders exactly when it is a directory |
| `AppFs.EntriesNames` | src/app/fs.rs:67-116 | a list holds an entry named `n` exactly when `n` is a child picked for it |
| `AppFs.FolderPreviewFromScannedDir` | src/app/fs.rs:100-101 | every folder's preview comes from the scanned directory's `.th`, and is absent exactly when that is not a directory |
| `HView.NewEntry` | src/hview/mod.rs:32-42 | a new entry has empty texts, zero size and no thumbnail or extension |
| `HView.NewPage` | src/hview/mod.rs:53-63 | a new page has no title and no entries, and takes the base path and the read-only flag from the configuration |
| `HView.RandomAvifThumb` | src/hview/mod.rs:80-96 | `None` exactly when the cache is not a directory; otherwise a child whose extension is the literal `avif` |
| `HView.EntryOf` | src/hview/mod.rs:113-132 | each field: name, full path, size, extension; a folder's preview is an `avif` from `dir/.th`; every file has its derived thumbnail |
| `HView.FileThumbUnchecked` | src/hview/mod.rs:130 | a file's thumbnail is `dir/.th/<name>.<format>` with no existence check |
| `HView.ScanSafeChildren` | src/hview/mod.rs:113-127 | a scan-safe directory's children all have metadata, and the cache meets what the preview unwraps |
| `HView.Entries` | src/hview/mod.rs:104-133 | one entry per picked child |
| `HView.Builder` | src/hview/mod.rs:113-131 | the entry built for a child other than `.th` is its `EntryOf`, with that child's draw |
| `HView.EntriesPointwise` | src/hview/mod.rs:104-133 | the `j`-th appended entry is the `EntryOf` the `j`-th picked child |
| `HView.Listing` | src/hview/mod.rs:98-136 | the title is the full path, and each list has one entry per picked child |
| `HView.EntriesStep` | src/hview/mod.rs:104-133 | scanning one more child appends its entry to the list exactly when it is picked for that list, and nothing otherwise |
| `HView.ScanChild` | src/hview/mod.rs:104-133 | the turn for the `i`-th entry turns the lists built from the first `i` entries into those built from the first `i + 1`; title, base path and read-only flag are unchanged |
| `HView.GetDir` | src/hview/mod.rs:98-136 | a missing path gives `NotFound`, a non-directory `NotADirectory`, and a directory its `Listing` |
| `HView.ListingInEnumerationOrder` | src/hview/mod.rs:126-135 | no sorting: the `j`-th listed entry is the `j`-th picked child in enumeration order |
| `HView.EntriesNames` | src/hview/mod.rs:104-133 | a list holds an entry named `n` exactly when `n` is a child picked for it |
| `HView.ListingPartition` | src/hview/mod.rs:102-132 | `.th` is never listed; every other child is, among the folders exactly when it is a directory |
| `HView.EveryFileHasThumb` | src/hview/mod.rs:129-131 | every listed file carries its derived thumbnail path |
| `HView.FolderPreviewIsAvif` | src/hview/mod.rs:126-128 | every folder's preview comes from the scanned directory's `.th` and has extension `avif` |
| `PathSegments.Rejection` | src/hview/hrocket.rs:87-101 | the rules are tried in order (`*` first, then a final `:`, `>`, `<`, then `/`, then `\` on Windows), and the first that applies names the error |
| `PathSegments.Normalize` | src/hview/hrocket.rs:83-107 | the fold over the segments: `..` pops, a rejected segment fails everything, any other segment is pushed |
| `PathSegments.CustomPathBuf.constructor` | src/hview/hrocket.rs:58-62 | a new accumulator holds the empty path |
| `PathSegments.CustomPathBuf.From` | src/app/pathbuf.rs:30-34 | `from` stores the path of the text unchanged |
| `PathSegments.CustomPathBuf.Push` | src/hview/hrocket.rs:64-66 | `push` applies `PathBuf::push` to the stored path |
| `PathSegments.CustomPathBuf.Pop` | src/hview/hrocket.rs:68-70 | `pop` applies `PathBuf::pop` to the stored path |
| `PathSegments.CustomPathBuf.GetPath` | src/app/pathbuf.rs:44-46 | `path` returns the stored path |
| `PathSegments.FromSegments` | src/app/pathbuf.rs:52-79 | the loop returns a fresh accumulator holding the fold's path, or the fold's error |
| `PathSegments.PushSegment` | src/app/pathbuf.rs:73-74 | an accepted segment other than `..` appends its component; an empty segment appends nothing |
| `PathSegments.NormalizeContained` | src/hview/hrocket.rs:80-108 | from a contained path, the fold yields a contained path whose names are all accepted input segments |
| `PathSegments.FromSegmentsContained` | src/app/pathbuf.rs:52-79 | `from_segments` never yields `..` or a root, and keeps only accepted segments |
| `PathSegments.NormalizeFailsAtFirstRejection` | src/hview/hrocket.rs:87-104 | the fold fails with `e` exactly when some segment is rejected with `e` and every segment before it is `..` or accepted |
| `PathSegments.ParentsAtRootIgnored` | src/app/pathbuf.rs:59-60 | any number of leading `..` segments change nothing |
| `PathSegments.NameStep` | src/app/pathbuf.rs:73-75 | an accepted name at the head is appended to the path |
| `PathSegments.NameThenParentCancels` | src/hview/hrocket.rs:87-103 | a `..` right after an accepted name undoes it |
| `PathSegments.ParentExample` | src/hview/hrocket.rs:80-108 | `a, b, .., c` normalises as `a, c` does |
| `PathSegments.DotfileAccepted` | src/hview/hrocket.rs:45-103 | a name starting with `.` that breaks no other rule is pushed |
| `EntryComponent.DefaultType` | frontend/src/components/entry.rs:19-23 | the default kind is a file |
| `EntryComponent.FromStr` | frontend/src/components/entry.rs:25-33 | only `"folder"` parses to a folder; any other text parses to a file |
| `EntryComponent.ToStr` | frontend/src/components/entry.rs:34-41 | the kind's text is `"file"` or `"folder"` and parses back to the same kind |
| `EntryComponent.IntoPropValue` | frontend/src/components/entry.rs:42-46 | the property conversion agrees with the string conversion |
| `EntryComponent.ToStrInjective` | frontend/src/components/entry.rs:34-41 | two kinds with the same text are the same kind |
| `EntryComponent.FromStrToStr` | frontend/src/components/entry.rs:25-41 | rendering the parse of `"file"` or `"folder"` gives the text back |
| `EntryComponent.Link` | frontend/src/components/entry.rs:97-101 | the link is `/` and the path, with a trailing `/` for a folder |
| `EntryComponent.FolderLinkExtendsFileLink` | frontend/src/components/entry.rs:97-101 | a folder's link is the file link for the same path plus `/` |
| `EntryComponent.ThumbSrc` | frontend/src/components/entry.rs:103-114 | no image without a thumbnail; otherwise the server address followed by the thumbnail path |
| `ModalComponent.FromStr` | frontend/src/components/modal.rs:12-20 | only `"video"` parses to a video; any other text parses to an image |
| `ModalComponent.ToStr` | frontend/src/components/modal.rs:22-29 | the kind's text is `"image"` or `"video"` and parses back to the same kind |
| `ModalComponent.ToStrInjective` | frontend/src/components/modal.rs:22-29 | two media kinds with the same text are the same kind |

## Left out

- HTTP routing, the responders, templates and both `main.rs` files are not part of this model: they are web-framework plumbing.
- backend/src/app/pathbuf.rs is not part of this model: it delegates to the web framework's own segment parser, whose code is not available.
- Percent-decoding of URL segments and its UTF-8 error: segments arrive already decoded.
- The filesystem is an immutable snapshot without symbolic links. An I/O error while iterating entries (`entry?`) cannot arise on a snapshot, so `DirError::IOError` has no case.
- The `unwrap`s that panic are preconditions rather than behaviour:
  - metadata of each listed child;
  - `strip_prefix` under the root;
  - in the two older `get_random_thumb`s, every cache entry having an extension and at least one matching.
- Non-UTF-8 file names (`to_str()` failing, the `"Filename String"` error): names are Dafny strings.
- Randomness: `rand::thread_rng` is replaced by an injected draw per child. Only "the result is one of the matches" and "every match can be drawn" are modelled, not uniformity.
- Date formatting: chrono's formatters are opaque functions of the number of seconds. `SystemTime` arithmetic is left out, and a date is a `nat`.
- `NameOrder.Lower`: ASCII lower-casing only, not Unicode `to_lowercase`.
- Integer widths: sizes and dates are unbounded naturals rather than `u64`.
- Windows path syntax (prefixes, `\` as a separator) is not modelled. `cfg!(windows)` is a boolean parameter of the segment rules.
- Configuration parsing is not modelled. `DIR`, `BASEPATH`, `THUMB_FORMAT` and `read_only` are the fields of a `Config` value, and `no_thumbs` is read by no listing code.
- `SERVER_URL` is defined in frontend/src/main.rs, which is not part of this model. `EntryComponent.ThumbSrc` takes it as a parameter.
- The rest of the frontend is not modelled: rendering, messages and fetching.
- Each `get_dir` loop body is written as a `ScanChild` method (with `Details` filling the entry in the newest two revisions), called once per child.
- `Snapshot.IsPicked` tests the child's name against `.th`, while the Rust code compares paths. `Snapshot.SkippedIsThumbDir` proves the two tests agree, and `ScanChild` performs the path comparison.
- `AppFs.Listing`: its contract gives only the lengths of the lists. Their contents are stated by `AppFs.ListingInEnumerationOrder` and `AppFs.ListingPartition`.
- `HView.Listing`: its contract gives only the lengths of the lists. Their contents are stated by `HView.ListingInEnumerationOrder` and `HView.ListingPartition`.
- A path is modelled by its components only. Repeated separators and interior `.` are not kept, as Rust's component-based path equality also ignores them.
