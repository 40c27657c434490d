/**
 * The entry card of the web frontend (frontend/src/components/entry.rs): the
 * entry kind and its text form, and the two strings a card is built from,
 * the link and the thumbnail source.
 */
module EntryComponent {
  import opened Base

  /** `EntryType`: what a listing entry stands for. */
  datatype EntryType = File | Folder

  /** `Default for EntryType`: an entry is a file unless told otherwise. */
  function DefaultType(): (t: EntryType)
    ensures t.File?
    ensures ToStr(t) == "file"
  {
    File
  }

  /** `Into<EntryType> for &str`: only `"folder"` names a folder; any other text is a file. */
  function FromStr(s: string): (t: EntryType)
    ensures t == Folder <==> s == "folder"
    ensures t == File <==> s != "folder"
  {
    match s
    case "file" => File
    case "folder" => Folder
    case _ => File
  }

  /** `Into<&str> for EntryType`: the lower-case name, which parses back to the same kind. */
  function ToStr(t: EntryType): (s: string)
    ensures s == "file" || s == "folder"
    ensures s == "folder" <==> t.Folder?
    ensures FromStr(s) == t
  {
    match t
    case File => "file"
    case Folder => "folder"
  }

  /** `IntoPropValue<EntryType> for &str`: the same conversion as `FromStr`. */
  function IntoPropValue(s: string): (t: EntryType)
    ensures t == FromStr(s)
    ensures t.Folder? <==> s == "folder"
  {
    FromStr(s)
  }

  /** Rendering is one-to-one: two kinds with the same text are the same kind. */
  lemma ToStrInjective(a: EntryType, b: EntryType)
    requires ToStr(a) == ToStr(b)
    ensures a == b
  {
    assert FromStr(ToStr(a)) == a;
  }

  /** Parsing a kind's text and rendering it again gives that text back, for the two texts there are. */
  lemma FromStrToStr(s: string)
    requires s == "file" || s == "folder"
    ensures ToStr(FromStr(s)) == s
  {
  }

  /**
   * The route a card links to: `/` before the entry's path, and for a folder
   * a trailing `/` after it.
   */
  function Link(path: string, t: EntryType): (l: string)
    ensures |l| == |path| + (if t.Folder? then 2 else 1)
    ensures l[0] == '/' && l[1..|path| + 1] == path
    ensures t.Folder? ==> l[|l| - 1] == '/'
  {
    match t
    case File => "/" + path
    case Folder => "/" + path + "/"
  }

  /** A file link and a folder link for the same path differ only by the trailing `/`. */
  lemma FolderLinkExtendsFileLink(path: string)
    ensures Link(path, Folder) == Link(path, File) + "/"
  {
  }

  /**
   * The thumbnail image source: the server address followed by the entry's
   * thumbnail path when it has one; no image at all when it has none.
   */
  function ThumbSrc(serverUrl: string, thumb: Option<string>): (r: Option<string>)
    ensures r.None? <==> thumb.None?
    ensures r.Some? ==> |r.value| == |serverUrl| + |thumb.value|
    ensures r.Some? ==> r.value[..|serverUrl|] == serverUrl && r.value[|serverUrl|..] == thumb.value
  {
    match thumb
    case None => None
    case Some(t) => Some(serverUrl + t)
  }
}

/**
 * The media viewer of the web frontend (frontend/src/components/modal.rs):
 * the media kind and its text form.
 */
module ModalComponent {
  /** `MediaType`: what the viewer shows. */
  datatype MediaType = Image | Video

  /** `IntoPropValue<MediaType> for &str`: only `"video"` names a video; any other text is an image. */
  function FromStr(s: string): (m: MediaType)
    ensures m == Video <==> s == "video"
    ensures m == Image <==> s != "video"
  {
    match s
    case "image" => Image
    case "video" => Video
    case _ => Image
  }

  /** `Into<&str> for MediaType`: the lower-case name, which parses back to the same kind. */
  function ToStr(m: MediaType): (s: string)
    ensures s == "image" || s == "video"
    ensures s == "video" <==> m.Video?
    ensures FromStr(s) == m
  {
    match m
    case Image => "image"
    case Video => "video"
  }

  /** Rendering is one-to-one: two kinds with the same text are the same kind. */
  lemma ToStrInjective(a: MediaType, b: MediaType)
    requires ToStr(a) == ToStr(b)
    ensures a == b
  {
    assert FromStr(ToStr(a)) == a;
  }
}
