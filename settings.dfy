/**
 * The configuration every revision of the listing engine reads as constants:
 * the served root `DIR`, the URL prefix `BASEPATH`, the thumbnail format
 * `THUMB_FORMAT` (by default `avif`) and the `read_only` flag.
 */
module Settings {
  import opened Base
  import opened Paths

  datatype Config = Config(root: Path, basePath: string, thumbFormat: string, readOnly: bool)

  /** The path as the client sees it: what follows the root, displayed. */
  function RootRelative(cfg: Config, p: Path): string
    requires cfg.root <= p
  {
    Display(StripPrefix(p, cfg.root).value)
  }

  /** The root-relative text names the path: read back under the root it gives the path again. */
  lemma RootRelativeParses(cfg: Config, p: Path)
    requires cfg.root <= p && WellFormed(p)
    ensures cfg.root + Parse(RootRelative(cfg, p)) == p
  {
    var rest := p[|cfg.root|..];
    assert forall i :: 0 <= i < |rest| ==> rest[i] == p[|cfg.root| + i];
    ParseDisplay(rest);
  }
}
