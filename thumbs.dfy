/**
 * Thumbnail resolution shared by the three revisions of the listing engine:
 * deriving a file's thumbnail path, filtering a cache directory's entries by
 * extension, and choosing one of them with an injected random draw.
 */
module Thumbs {
  import opened Base
  import opened Paths
  import opened Snapshot

  /** The name a file's thumbnail has inside the cache directory. */
  function ThumbFileName(name: string, format: string): string {
    name + "." + format
  }

  /**
   * `file_path_to_thumb` (identical in all three revisions):
   * `/dir/file.jpg` becomes `/dir/.th/file.jpg.<format>`, built by joining the
   * parent with the text `.th/<name>.<format>`.
   */
  function FilePathToThumb(file: Path, format: string): (r: Result<Path, string>)
    ensures r.Err? <==> FileName(file).None?
    ensures r.Err? ==> r.error == "Filename"
    ensures r.Ok? ==> Parent(file).value <= r.value
  {
    match FileName(file)
    case None => Err("Filename")
    case Some(name) =>
      var thumbName := ThumbDirName + [Separator] + ThumbFileName(name, format);
      match Parent(file)
      case None => Err("Parent directory")
      case Some(parent) => Ok(Join(parent, thumbName))
  }

  /** A thumbnail name built from a proper name and a separator-free format is itself a proper name. */
  lemma ThumbFileNameIsName(name: string, format: string)
    requires IsName(name) && Separator !in format
    ensures IsName(ThumbFileName(name, format))
  {
    var x := ThumbFileName(name, format);
    assert |x| == |name| + 1 + |format|;
    assert x != ".." by {
      if |name| == 1 { assert x[0] == name[0] && name == [name[0]]; }
    }
    forall i | 0 <= i < |x| ensures x[i] != Separator {
      if i < |name| { assert x[i] == name[i]; }
      else if i > |name| { assert x[i] == format[i - |name| - 1]; }
    }
  }

  /**
   * For a proper file name and a format without separators the thumbnail is
   * the parent, then `.th`, then `<name>.<format>`: no `..` is resolved and
   * no existing extension is dropped.
   */
  lemma FilePathToThumbShape(file: Path, format: string)
    requires FileName(file).Some? && IsName(FileName(file).value)
    requires Separator !in format
    ensures FilePathToThumb(file, format)
         == Ok(Parent(file).value + [Normal(ThumbDirName), Normal(ThumbFileName(FileName(file).value, format))])
  {
    var x := ThumbFileName(FileName(file).value, format);
    ThumbFileNameIsName(FileName(file).value, format);
    var text := ThumbDirName + [Separator] + x;
    ParseName(ThumbDirName);
    ParseExtend(ThumbDirName, x);
    assert Parse(text) == [Normal(ThumbDirName), Normal(x)];
    assert !IsAbsolute(text);
    assert Join(Parent(file).value, text) == Parent(file).value + [Normal(ThumbDirName), Normal(x)];
  }

  /** `FilePathToThumbShape` for a file given as its directory and its name. */
  lemma FilePathToThumbChild(dir: Path, name: string, format: string)
    requires IsName(name) && Separator !in format
    ensures FilePathToThumb(dir + [Normal(name)], format)
         == Ok(dir + [Normal(ThumbDirName), Normal(ThumbFileName(name, format))])
  {
    assert ChildPath(dir, name) == dir + [Normal(name)];
    FilePathToThumbShape(dir + [Normal(name)], format);
  }

  /**
   * `FilePathToThumbChild` on texts: the thumbnail of `<dir>/<name>` is the
   * path of the text `<dir>/.th/<name>.<format>`.
   */
  lemma FilePathToThumbText(dir: string, name: string, format: string)
    requires dir != [] && IsName(name) && Separator !in format
    ensures FilePathToThumb(Parse(dir + [Separator] + name), format)
         == Ok(Parse(dir + [Separator] + ThumbDirName + [Separator] + ThumbFileName(name, format)))
  {
    var x := ThumbFileName(name, format);
    ThumbFileNameIsName(name, format);
    var base, cache := Parse(dir), dir + [Separator] + ThumbDirName;
    ParseExtend(dir, name);
    assert Parse(dir + [Separator] + name) == base + [Normal(name)];
    ParseExtend(dir, ThumbDirName);
    assert Parse(cache) == base + [Normal(ThumbDirName)];
    ParseExtend(cache, x);
    assert Parse(cache + [Separator] + x) == base + [Normal(ThumbDirName), Normal(x)];
    FilePathToThumbChild(base, name, format);
  }

  /** The thumbnail name of a file carries the configured format as its extension. */
  lemma ThumbFileNameExtension(name: string, format: string)
    requires IsName(name) && '.' !in format
    ensures NameExtension(ThumbFileName(name, format)) == Some(format)
  {
    var x := ThumbFileName(name, format);
    assert 0 < |name| < |x| && x[|name|] == '.';
    assert x != ".." by {
      if |name| == 1 { assert x[0] == name[0] && name == [name[0]]; }
    }
    var r := NameExtension(x);
    var e := r.value;
    assert e == x[|x| - |format|..] == format;
  }

  /** The names in `names` whose path under `dir` has extension `format`, in order. */
  function MatchingNames(dir: Path, names: seq<string>, format: string): (m: seq<string>)
    ensures forall n :: n in m <==> n in names && Extension(ChildPath(dir, n)) == Some(format)
    ensures |m| <= |names|
  {
    if names == [] then []
    else
      (if Extension(ChildPath(dir, names[0])) == Some(format) then [names[0]] else [])
      + MatchingNames(dir, names[1..], format)
  }

  /** The random choice among `xs`, with the random source's draw injected. */
  function Choose<T>(xs: seq<T>, draw: nat): (r: Option<T>)
    ensures r.Some? <==> xs != []
    ensures r.Some? ==> r.value in xs
  {
    if xs == [] then None else Some(xs[draw % |xs|])
  }

  /** Every element can be chosen: the draw equal to its position picks it. */
  lemma ChooseCovers<T>(xs: seq<T>, k: nat)
    requires k < |xs|
    ensures Choose(xs, k) == Some(xs[k])
  {
  }

  /** `t` is an entry of the directory `th` whose extension is `format`. */
  predicate IsThumbOf(fs: Fs, th: Path, format: string, t: Path) {
    && IsDir(fs, th)
    && |t| == |th| + 1
    && t[..|th|] == th
    && t[|th|].Normal?
    && t[|th|].name in ReadDir(fs, th)
    && Extension(t) == Some(format)
  }

  /** A chosen matching name, joined to its directory, is a thumbnail of that directory. */
  lemma MatchIsThumbOf(fs: Fs, th: Path, format: string, n: string)
    requires IsDir(fs, th)
    requires n in MatchingNames(th, ReadDir(fs, th), format)
    ensures IsThumbOf(fs, th, format, ChildPath(th, n))
  {
    assert ChildPath(th, n)[..|th|] == th;
  }

  /**
   * What the older `get_random_thumb` unwraps: when `th` is a directory, every
   * entry of it has an extension and at least one has extension `format`.
   */
  predicate StrictThumbsOk(fs: Fs, th: Path, format: string) {
    IsDir(fs, th) ==>
      && (forall n :: n in ReadDir(fs, th) ==> Extension(ChildPath(th, n)).Some?)
      && (exists n :: n in ReadDir(fs, th) && Extension(ChildPath(th, n)) == Some(format))
  }

  /**
   * The older `get_random_thumb`: `None` when `th` is not a directory,
   * otherwise one of its entries with extension `format`, chosen by `draw`.
   */
  function StrictRandomThumb(fs: Fs, th: Path, format: string, draw: nat): (r: Option<Path>)
    requires StrictThumbsOk(fs, th, format)
    ensures r.None? <==> !IsDir(fs, th)
    ensures r.Some? ==> IsThumbOf(fs, th, format, r.value)
  {
    if !IsDir(fs, th) || !Exists(fs, th) then None
    else
      var thumbs := MatchingNames(th, ReadDir(fs, th), format);
      var n := Choose(thumbs, draw).value;
      MatchIsThumbOf(fs, th, format, n);
      Some(ChildPath(th, n))
  }

  /** Every matching entry is the preview for some draw. */
  lemma StrictRandomThumbCovers(fs: Fs, th: Path, format: string, n: string)
    requires StrictThumbsOk(fs, th, format)
    requires IsDir(fs, th) && n in ReadDir(fs, th) && Extension(ChildPath(th, n)) == Some(format)
    ensures exists draw :: StrictRandomThumb(fs, th, format, draw) == Some(ChildPath(th, n))
  {
    var thumbs := MatchingNames(th, ReadDir(fs, th), format);
    var k :| 0 <= k < |thumbs| && thumbs[k] == n;
    ChooseCovers(thumbs, k);
    assert StrictRandomThumb(fs, th, format, k) == Some(ChildPath(th, n));
  }
}
