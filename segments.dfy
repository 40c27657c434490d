/**
 * The URL-segment normaliser of the two older revisions
 * (src/hview/hrocket.rs and src/app/pathbuf.rs; `from_segments` is the same
 * code in both, `CustomPathBuf::from` exists only in the latter): the
 * decoded segments of a request path are folded into a `CustomPathBuf`,
 * `..` popping the last accepted segment and malformed segments rejecting
 * the whole path.  Unlike the web framework's own rule, names starting with
 * `.` are accepted, so hidden files can be served.
 */
module PathSegments {
  import opened Base
  import opened Paths

  /** The rejections `from_segments` reports, each with the offending character. */
  datatype SegmentError = BadStart(c: char) | BadEnd(c: char) | BadChar(c: char)

  const ParentSegment: string := ".."

  predicate StartsWith(s: string, c: char) {
    |s| > 0 && s[0] == c
  }

  predicate EndsWith(s: string, c: char) {
    |s| > 0 && s[|s| - 1] == c
  }

  /** The segment does not end in one of the characters `:`, `>` and `<`. */
  predicate GoodEnd(segment: string) {
    !EndsWith(segment, ':') && !EndsWith(segment, '>') && !EndsWith(segment, '<')
  }

  /** Every rule a segment must pass to be pushed; `windows` is `cfg!(windows)`. */
  predicate Acceptable(segment: string, windows: bool) {
    && !StartsWith(segment, '*')
    && GoodEnd(segment)
    && '/' !in segment
    && !(windows && '\\' in segment)
  }

  /**
   * The rejection of a segment other than `..`: the rules are tried in the
   * order `*` first, then a final `:`, `>`, `<`, then `/`, then (on Windows)
   * `\`, and the first that applies names the error.
   */
  function Rejection(segment: string, windows: bool): (r: Option<SegmentError>)
    ensures r.None? <==> Acceptable(segment, windows)
    ensures r == Some(BadStart('*')) <==> StartsWith(segment, '*')
    ensures r.Some? && r.value.BadEnd? <==> !StartsWith(segment, '*') && !GoodEnd(segment)
    ensures r.Some? && r.value.BadEnd? ==> r.value.c in ":><" && EndsWith(segment, r.value.c)
    ensures r == Some(BadChar('/')) <==> !StartsWith(segment, '*') && GoodEnd(segment) && '/' in segment
    ensures r == Some(BadChar('\\'))
            <==> !StartsWith(segment, '*') && GoodEnd(segment) && '/' !in segment && windows && '\\' in segment
  {
    if StartsWith(segment, '*') then Some(BadStart('*'))
    else if EndsWith(segment, ':') then Some(BadEnd(':'))
    else if EndsWith(segment, '>') then Some(BadEnd('>'))
    else if EndsWith(segment, '<') then Some(BadEnd('<'))
    else if '/' in segment then Some(BadChar('/'))
    else if windows && '\\' in segment then Some(BadChar('\\'))
    else None
  }

  /**
   * The fold `from_segments` performs, from the accumulated path `p`: `..`
   * pops, an unacceptable segment stops everything with its rejection, any
   * other segment is pushed.
   */
  function Normalize(p: Path, segments: seq<string>, windows: bool): Result<Path, SegmentError>
    decreases |segments|
  {
    if segments == [] then Ok(p)
    else
      var s := segments[0];
      if s == ParentSegment then Normalize(Pop(p), segments[1..], windows)
      else match Rejection(s, windows)
        case Some(e) => Err(e)
        case None => Normalize(Push(p, s), segments[1..], windows)
  }

  /** The accumulator that `from_segments` fills. */
  class CustomPathBuf {
    var path: Path

    /** `CustomPathBuf::new`: the empty path. */
    constructor ()
      ensures path == []
    {
      path := [];
    }

    /** `CustomPathBuf::from` (src/app/pathbuf.rs only): the path of the text, unchanged. */
    constructor From(s: string)
      ensures path == Parse(s)
    {
      path := Parse(s);
    }

    /** `push`: `PathBuf::push` on the stored path. */
    method Push(suffix: string)
      modifies this
      ensures path == Paths.Push(old(path), suffix)
    {
      path := Paths.Push(path, suffix);
    }

    /** `pop`: `PathBuf::pop` on the stored path. */
    method Pop()
      modifies this
      ensures path == Paths.Pop(old(path))
    {
      path := Paths.Pop(path);
    }

    /** `path`: a copy of the stored path. */
    method GetPath() returns (p: Path)
      ensures p == path
    {
      p := path;
    }
  }

  /**
   * `from_segments`: one pass over the decoded segments, returning the
   * first rejection met or the accumulated path.
   */
  method FromSegments(segments: seq<string>, windows: bool) returns (r: Result<CustomPathBuf, SegmentError>)
    ensures r.Ok? <==> Normalize([], segments, windows).Ok?
    ensures r.Ok? ==> fresh(r.value) && r.value.path == Normalize([], segments, windows).value
    ensures r.Err? ==> r.error == Normalize([], segments, windows).error
  {
    var path := new CustomPathBuf();
    for i := 0 to |segments|
      invariant Normalize([], segments, windows) == Normalize(path.path, segments[i..], windows)
    {
      var decoded := segments[i];
      assert segments[i..][1..] == segments[i + 1..];
      if decoded == ParentSegment {
        path.Pop();
      } else if StartsWith(decoded, '*') {
        return Err(BadStart('*'));
      } else if EndsWith(decoded, ':') {
        return Err(BadEnd(':'));
      } else if EndsWith(decoded, '>') {
        return Err(BadEnd('>'));
      } else if EndsWith(decoded, '<') {
        return Err(BadEnd('<'));
      } else if '/' in decoded {
        return Err(BadChar('/'));
      } else if windows && '\\' in decoded {
        return Err(BadChar('\\'));
      } else {
        path.Push(decoded);
      }
    }
    assert segments[|segments|..] == [];
    return Ok(path);
  }

  /** What pushing an acceptable segment other than `..` appends. */
  lemma PushSegment(p: Path, s: string, windows: bool)
    requires Acceptable(s, windows) && s != ParentSegment
    ensures Paths.Push(p, s) == p + (if s == "" then [] else if s == "." then (if p == [] then [CurDir] else []) else [Normal(s)])
  {
    SplitName(s);
    assert !IsAbsolute(s);
    assert PiecesComponents([s], true) == PieceComponents(s, true) + PiecesComponents([], false);
  }

  /** No `..` and no root: a path that, joined to the served root, cannot leave it. */
  predicate Contained(p: Path) {
    forall i :: 0 <= i < |p| ==> p[i] != ParentDir && p[i] != RootDir
  }

  /**
   * Every normalised path is contained, and each of its names is an
   * acceptable segment of the input: only accepted segments survive.
   */
  lemma {:induction false} NormalizeContained(p: Path, segments: seq<string>, whole: seq<string>, windows: bool)
    requires Contained(p)
    requires forall i :: 0 <= i < |p| && p[i].Normal? ==> p[i].name in whole && Acceptable(p[i].name, windows)
    requires forall s :: s in segments ==> s in whole
    requires Normalize(p, segments, windows).Ok?
    ensures var q := Normalize(p, segments, windows).value;
            && Contained(q)
            && forall i :: 0 <= i < |q| && q[i].Normal? ==> q[i].name in whole && Acceptable(q[i].name, windows)
    decreases |segments|
  {
    if segments != [] {
      var s := segments[0];
      assert s in segments;
      if s == ParentSegment {
        NormalizeContained(Pop(p), segments[1..], whole, windows);
      } else {
        PushSegment(p, s, windows);
        NormalizeContained(Paths.Push(p, s), segments[1..], whole, windows);
      }
    }
  }

  /** `from_segments` never yields a `..` or a root, whatever the request. */
  lemma FromSegmentsContained(segments: seq<string>, windows: bool)
    requires Normalize([], segments, windows).Ok?
    ensures var q := Normalize([], segments, windows).value;
            && Contained(q)
            && forall i :: 0 <= i < |q| && q[i].Normal? ==> q[i].name in segments && Acceptable(q[i].name, windows)
  {
    NormalizeContained([], segments, segments, windows);
  }

  /**
   * The first failure wins: the fold fails with `e` exactly when some segment
   * other than `..` is rejected with `e` and every segment before it is `..`
   * or acceptable.
   */
  lemma {:induction false} NormalizeFailsAtFirstRejection(p: Path, segments: seq<string>, windows: bool, e: SegmentError)
    ensures Normalize(p, segments, windows) == Err(e)
            <==> exists i :: && 0 <= i < |segments|
                             && segments[i] != ParentSegment && Rejection(segments[i], windows) == Some(e)
                             && forall j :: 0 <= j < i ==> segments[j] == ParentSegment || Acceptable(segments[j], windows)
    decreases |segments|
  {
    if segments != [] {
      var s := segments[0];
      var rest := segments[1..];
      var next := if s == ParentSegment then Pop(p) else Paths.Push(p, s);
      NormalizeFailsAtFirstRejection(next, rest, windows, e);
      if Normalize(p, segments, windows) == Err(e) {
        if s == ParentSegment || Acceptable(s, windows) {
          var i :| && 0 <= i < |rest|
                   && rest[i] != ParentSegment && Rejection(rest[i], windows) == Some(e)
                   && forall j :: 0 <= j < i ==> rest[j] == ParentSegment || Acceptable(rest[j], windows);
          assert segments[i + 1] == rest[i];
          forall j | 0 <= j < i + 1
            ensures segments[j] == ParentSegment || Acceptable(segments[j], windows)
          {
            if j > 0 { assert segments[j] == rest[j - 1]; }
          }
        } else {
          assert segments[0] != ParentSegment && Rejection(segments[0], windows) == Some(e);
        }
      }
      if exists i :: && 0 <= i < |segments|
                     && segments[i] != ParentSegment && Rejection(segments[i], windows) == Some(e)
                     && forall j :: 0 <= j < i ==> segments[j] == ParentSegment || Acceptable(segments[j], windows) {
        var i :| && 0 <= i < |segments|
                 && segments[i] != ParentSegment && Rejection(segments[i], windows) == Some(e)
                 && forall j :: 0 <= j < i ==> segments[j] == ParentSegment || Acceptable(segments[j], windows);
        if i > 0 {
          assert rest[i - 1] == segments[i];
          forall j | 0 <= j < i - 1
            ensures rest[j] == ParentSegment || Acceptable(rest[j], windows)
          {
            assert rest[j] == segments[j + 1];
          }
        }
      }
    }
  }

  /** `k` segments `..` in a row. */
  function Parents(k: nat): (r: seq<string>)
    ensures |r| == k && forall i :: 0 <= i < k ==> r[i] == ParentSegment
  {
    if k == 0 then [] else [ParentSegment] + Parents(k - 1)
  }

  /** `..` segments at the root are no-ops: any number of them in front changes nothing. */
  lemma {:induction false} ParentsAtRootIgnored(k: nat, segments: seq<string>, windows: bool)
    ensures Normalize([], Parents(k) + segments, windows) == Normalize([], segments, windows)
    decreases k
  {
    if k > 0 {
      var all := Parents(k) + segments;
      assert all[0] == ParentSegment;
      assert all[1..] == Parents(k - 1) + segments;
      assert Pop([]) == [];
      ParentsAtRootIgnored(k - 1, segments, windows);
    } else {
      assert Parents(k) + segments == segments;
    }
  }

  /** An acceptable name at the head of the segments is appended to the path. */
  lemma NameStep(p: Path, name: string, segments: seq<string>, windows: bool)
    requires IsName(name) && Acceptable(name, windows)
    ensures Normalize(p, [name] + segments, windows) == Normalize(p + [Normal(name)], segments, windows)
  {
    var all := [name] + segments;
    assert all[0] == name && all[1..] == segments;
    PushName(p, name);
  }

  /** A `..` right after a pushed name undoes it. */
  lemma NameThenParentCancels(p: Path, name: string, segments: seq<string>, windows: bool)
    requires IsName(name) && Acceptable(name, windows)
    ensures Normalize(p, [name, ParentSegment] + segments, windows) == Normalize(p, segments, windows)
  {
    NameStep(p, name, [ParentSegment] + segments, windows);
    assert [name, ParentSegment] + segments == [name] + ([ParentSegment] + segments);
    var rest := [ParentSegment] + segments;
    assert rest[0] == ParentSegment && rest[1..] == segments;
    assert (p + [Normal(name)])[..|p|] == p;
  }

  /** `a, b, .., c` normalises exactly as `a, c` does: the `..` cancels `b` and nothing else. */
  lemma ParentExample(p: Path, a: string, b: string, c: string, windows: bool)
    requires IsName(a) && Acceptable(a, windows)
    requires IsName(b) && Acceptable(b, windows)
    ensures Normalize(p, [a, b, ParentSegment, c], windows) == Normalize(p, [a, c], windows)
  {
    assert [a, b, ParentSegment, c] == [a] + ([b, ParentSegment] + [c]);
    NameStep(p, a, [b, ParentSegment] + [c], windows);
    NameThenParentCancels(p + [Normal(a)], b, [c], windows);
    assert [a, c] == [a] + [c];
    NameStep(p, a, [c], windows);
  }

  /**
   * Hidden names are accepted: a segment starting with `.` that breaks no
   * other rule is pushed like any other name.
   */
  lemma DotfileAccepted(p: Path, name: string, rest: seq<string>, windows: bool)
    requires IsName(name) && name[0] == '.'
    requires GoodEnd(name) && !(windows && '\\' in name)
    ensures Normalize(p, [name] + rest, windows) == Normalize(p + [Normal(name)], rest, windows)
  {
    NameStep(p, name, rest, windows);
  }
}
