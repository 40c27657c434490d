/**
 * Paths as Rust's `std::path` sees them on Unix: a path is the list of its
 * components.  Two `PathBuf`s compare equal exactly when their components do,
 * and `join`, `push`, `pop`, `parent`, `file_name`, `extension` and
 * `strip_prefix` are all defined on components, so a path is modelled by its
 * components and its textual spelling (repeated or trailing separators,
 * interior `.`) is not kept.
 */
module Paths {
  import opened Base

  datatype Component = RootDir | CurDir | ParentDir | Normal(name: string)

  type Path = seq<Component>

  const Separator: char := '/'

  /** A text that can stand as a `Normal` component. */
  predicate IsName(s: string) {
    s != "" && s != "." && s != ".." && Separator !in s
  }

  /** A text that names an absolute path. */
  predicate IsAbsolute(s: string) {
    |s| > 0 && s[0] == Separator
  }

  /** The shape of every path built from text: the root and `.` only in front, proper names elsewhere. */
  predicate WellFormed(p: Path) {
    && (forall i :: 0 < i < |p| ==> p[i] != RootDir && p[i] != CurDir)
    && (forall i :: 0 <= i < |p| && p[i].Normal? ==> IsName(p[i].name))
  }

  /** The pieces glued back with separators. */
  function JoinPieces(pieces: seq<string>): string
    requires |pieces| >= 1
  {
    if |pieces| == 1 then pieces[0] else pieces[0] + [Separator] + JoinPieces(pieces[1..])
  }

  /** The texts between separators, in order (`"/a//b"` gives `"", "a", "", "b"`). */
  function Split(s: string): (pieces: seq<string>)
    ensures |pieces| >= 1
    ensures forall k :: 0 <= k < |pieces| ==> Separator !in pieces[k]
    ensures JoinPieces(pieces) == s
  {
    if s == [] then [""]
    else
      var rest := Split(s[1..]);
      if s[0] == Separator then
        assert s == [Separator] + s[1..];
        [""] + rest
      else
        var pieces := [[s[0]] + rest[0]] + rest[1..];
        assert pieces[1..] == rest[1..];
        assert s == [s[0]] + s[1..];
        pieces
  }

  lemma {:induction false} SplitName(s: string)
    requires Separator !in s
    ensures Split(s) == [s]
  {
    if s != [] {
      SplitName(s[1..]);
      assert [s[0]] + s[1..] == s;
    }
  }

  /** What one piece contributes: empty pieces vanish, `.` survives only as the leading piece. */
  function PieceComponents(piece: string, leading: bool): Path
  {
    if piece == "" then []
    else if piece == "." then (if leading then [CurDir] else [])
    else if piece == ".." then [ParentDir]
    else [Normal(piece)]
  }

  function PiecesComponents(pieces: seq<string>, leading: bool): (p: Path)
    requires forall k :: 0 <= k < |pieces| ==> Separator !in pieces[k]
    ensures WellFormed(p)
    ensures forall i :: 0 <= i < |p| ==> p[i] != RootDir
    ensures !leading ==> forall i :: 0 <= i < |p| ==> p[i] != CurDir
  {
    if pieces == [] then []
    else PieceComponents(pieces[0], leading) + PiecesComponents(pieces[1..], false)
  }

  /** `PathBuf::from`: the components of a text. */
  function Parse(s: string): (p: Path)
    ensures WellFormed(p)
    ensures IsAbsolute(s) <==> (p != [] && p[0] == RootDir)
  {
    var pieces := Split(s);
    if IsAbsolute(s) then [RootDir] + PiecesComponents(pieces, false)
    else PiecesComponents(pieces, true)
  }

  /** Splitting at a separator splits each side on its own. */
  lemma {:induction false} SplitAppend(s: string, t: string)
    ensures Split(s + [Separator] + t) == Split(s) + Split(t)
  {
    var u := s + [Separator] + t;
    if s == [] {
      assert u[0] == Separator && u[1..] == t;
      assert Split(u) == [""] + Split(t);
    } else {
      assert u[0] == s[0] && u[1..] == s[1..] + [Separator] + t;
      SplitAppend(s[1..], t);
      var rest, tail := Split(s[1..]), Split(t);
      assert Split(u[1..]) == rest + tail;
      if s[0] == Separator {
        assert Split(u) == [""] + (rest + tail);
        assert Split(s) == [""] + rest;
      } else {
        assert (rest + tail)[0] == rest[0];
        assert (rest + tail)[1..] == rest[1..] + tail;
        assert Split(u) == [[s[0]] + rest[0]] + (rest[1..] + tail);
        assert Split(s) == [[s[0]] + rest[0]] + rest[1..];
      }
    }
  }

  /** Once the first pieces are read, the rest is read as non-leading. */
  lemma {:induction false} PiecesAppend(a: seq<string>, b: seq<string>, leading: bool)
    requires a != []
    requires forall k :: 0 <= k < |a| ==> Separator !in a[k]
    requires forall k :: 0 <= k < |b| ==> Separator !in b[k]
    ensures PiecesComponents(a + b, leading) == PiecesComponents(a, leading) + PiecesComponents(b, false)
  {
    assert (a + b)[1..] == a[1..] + b;
    if |a| > 1 {
      PiecesAppend(a[1..], b, false);
    }
  }

  /** A separator-free piece after a non-empty text adds that piece's components. */
  lemma ParseExtend(s: string, t: string)
    requires s != [] && Separator !in t
    ensures Parse(s + [Separator] + t) == Parse(s) + PieceComponents(t, false)
  {
    var u := s + [Separator] + t;
    assert u[0] == s[0];
    SplitAppend(s, t);
    SplitName(t);
    PiecesAppend(Split(s), [t], !IsAbsolute(s));
    assert PiecesComponents([t], false) == PieceComponents(t, false) + PiecesComponents([], false);
  }

  /** A separator-free piece after the separator alone is read under the root. */
  lemma ParseRoot(t: string)
    requires Separator !in t
    ensures Parse([Separator] + t) == [RootDir] + PieceComponents(t, false)
  {
    assert [Separator] + t == [] + [Separator] + t;
    SplitAppend([], t);
    SplitName(t);
    assert ["", t][1..] == [t];
    assert PiecesComponents([t], false) == PieceComponents(t, false) + PiecesComponents([], false);
  }

  lemma ParseName(s: string)
    requires IsName(s)
    ensures Parse(s) == [Normal(s)]
  {
    SplitName(s);
    assert !IsAbsolute(s);
    assert PiecesComponents([s], true) == PieceComponents(s, true) + PiecesComponents([], false);
  }

  /**
   * `PathBuf::push`: an absolute suffix replaces the whole path; otherwise the
   * suffix's components follow the path's, and a leading `.` of the suffix
   * vanishes once it is no longer in front.
   */
  function Push(p: Path, suffix: string): (r: Path)
    ensures !IsAbsolute(suffix) ==> p <= r
    ensures IsAbsolute(suffix) ==> r == Parse(suffix)
    ensures WellFormed(p) ==> WellFormed(r)
  {
    var q := Parse(suffix);
    if IsAbsolute(suffix) || p == [] then q
    else if q != [] && q[0] == CurDir then p + q[1..]
    else p + q
  }

  /** Pushing a single name appends exactly one component. */
  lemma PushName(p: Path, name: string)
    requires IsName(name)
    ensures Push(p, name) == p + [Normal(name)]
  {
    ParseName(name);
  }

  /** `Path::join`: a copy of the path with the suffix pushed. */
  function Join(p: Path, suffix: string): (r: Path)
    ensures IsName(suffix) ==> r == p + [Normal(suffix)]
  {
    if IsName(suffix) then PushName(p, suffix); Push(p, suffix) else Push(p, suffix)
  }

  /** `PathBuf::pop`: drops the last component unless the path is empty or the bare root. */
  function Pop(p: Path): (r: Path)
    ensures r <= p
    ensures r == p <==> (p == [] || p[|p| - 1] == RootDir)
    ensures r != p ==> |r| == |p| - 1
  {
    if p == [] || p[|p| - 1] == RootDir then p else p[..|p| - 1]
  }

  /** Popping undoes pushing a name. */
  lemma PopPushName(p: Path, name: string)
    requires IsName(name)
    ensures Pop(Push(p, name)) == p
  {
    PushName(p, name);
    assert (p + [Normal(name)])[..|p|] == p;
  }

  /** `Path::file_name`: the last component when it is a proper name. */
  function FileName(p: Path): (r: Option<string>)
    ensures r.Some? <==> p != [] && p[|p| - 1].Normal?
    ensures r.Some? ==> p[|p| - 1] == Normal(r.value)
  {
    if p != [] && p[|p| - 1].Normal? then Some(p[|p| - 1].name) else None
  }

  /** `Path::parent`: everything before the last component, unless the path is empty or the bare root. */
  function Parent(p: Path): (r: Option<Path>)
    ensures r.None? <==> p == [] || p[|p| - 1] == RootDir
    ensures r.Some? ==> r.value == Pop(p) && |r.value| == |p| - 1
  {
    if p != [] && p[|p| - 1] != RootDir then Some(p[..|p| - 1]) else None
  }

  /** Whenever a path has a file name it also has a parent. */
  /** The file name of a joined name is that name. */
  lemma FileNameJoin(p: Path, name: string)
    requires IsName(name)
    ensures FileName(Join(p, name)) == Some(name)
    ensures Parent(Join(p, name)) == Some(p)
  {
    assert (p + [Normal(name)])[..|p|] == p;
  }

  lemma FileNameHasParent(p: Path)
    requires FileName(p).Some?
    ensures Parent(p).Some? && p == Parent(p).value + [Normal(FileName(p).value)]
  {
  }

  /** Position of the last `.` of a text. */
  function LastDot(s: string): (r: Option<nat>)
    ensures r.Some? ==> r.value < |s| && s[r.value] == '.' && '.' !in s[r.value + 1..]
    ensures r.None? ==> '.' !in s
  {
    if s == [] then None
    else if s[|s| - 1] == '.' then Some(|s| - 1)
    else
      var r := LastDot(s[..|s| - 1]);
      assert s == s[..|s| - 1] + [s[|s| - 1]];
      r
  }

  /**
   * The extension of a file name: the text after its last `.`, provided that
   * `.` is not the name's first character and the name is not `..`.
   */
  function NameExtension(name: string): (r: Option<string>)
    ensures r.Some? <==> name != ".." && exists i :: 0 < i < |name| && name[i] == '.'
    ensures r.Some? ==> && '.' !in r.value
                        && |r.value| + 2 <= |name|
                        && name[|name| - |r.value| - 1] == '.'
                        && name[|name| - |r.value|..] == r.value
  {
    if name == ".." then None
    else match LastDot(name)
      case None => None
      case Some(i) =>
        if i == 0 then
          assert forall j :: 0 < j < |name| ==> name[j] == name[1..][j - 1];
          None
        else Some(name[i + 1..])
  }

  /** `Path::extension`: the extension of the file name, if there is one. */
  function Extension(p: Path): (r: Option<string>)
    ensures r.Some? ==> && FileName(p).Some?
                        && '.' !in r.value
                        && |r.value| + 2 <= |FileName(p).value|
                        && FileName(p).value[|FileName(p).value| - |r.value| - 1..] == ['.'] + r.value
  {
    match FileName(p)
    case None => None
    case Some(name) =>
      var r := NameExtension(name);
      if r.Some? then
        assert name[|name| - |r.value| - 1..] == [name[|name| - |r.value| - 1]] + name[|name| - |r.value|..];
        r
      else r
  }

  /** `Path::strip_prefix`: what follows `base` in `p`, when `p` starts with `base`. */
  function StripPrefix(p: Path, base: Path): (r: Option<Path>)
    ensures r.Some? <==> base <= p
    ensures r.Some? ==> base + r.value == p
  {
    if base <= p then Some(p[|base|..]) else None
  }

  /** The text of one component. */
  function ComponentText(c: Component): string
  {
    match c
    case RootDir => [Separator]
    case CurDir => "."
    case ParentDir => ".."
    case Normal(name) => name
  }

  /** `Path::display`: the components joined by separators, with none after the root. */
  function Display(p: Path): string
  {
    if p == [] then ""
    else if |p| == 1 then ComponentText(p[0])
    else
      var init := p[..|p| - 1];
      Display(init) + (if init[|init| - 1] == RootDir then "" else [Separator]) + ComponentText(p[|p| - 1])
  }

  /** Reading the displayed text back gives the same path: `display` loses nothing. */
  lemma {:induction false} ParseDisplay(p: Path)
    requires WellFormed(p)
    ensures Parse(Display(p)) == p
  {
    if p == [] {
      assert Split("") == [""];
    } else if |p| == 1 {
      match p[0]
      case RootDir =>
        assert Display(p) == [Separator] + "";
        ParseRoot("");
      case CurDir =>
        SplitName(".");
      case ParentDir =>
        SplitName("..");
      case Normal(name) =>
        ParseName(name);
    } else {
      var init, last := p[..|p| - 1], p[|p| - 1];
      assert p == init + [last];
      assert last != RootDir && last != CurDir;
      var t := ComponentText(last);
      assert Separator !in t && PieceComponents(t, false) == [last];
      ParseDisplay(init);
      var s := Display(init);
      if init[|init| - 1] == RootDir {
        assert |init| == 1;
        assert Display(p) == [Separator] + t;
        ParseRoot(t);
      } else {
        assert s != [];
        assert Display(p) == s + [Separator] + t;
        ParseExtend(s, t);
      }
    }
  }
}
