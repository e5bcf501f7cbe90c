/** The parts of `System.IO.Path` the generator relies on: the file name of a path,
    its extension and its file name without extension. Segments end at the
    Windows separators: `/`, `\` and the volume separator `:`. */
module Paths {

  /** A character that ends a path segment: a directory or volume separator. */
  predicate IsSeparator(c: char) {
    c == '/' || c == '\\' || c == ':'
  }

  /** `s` ends with `suffix`. */
  predicate EndsWith(s: string, suffix: string) {
    |suffix| <= |s| && s[|s| - |suffix|..] == suffix
  }

  /** `k` is where the extension of `path` starts: a dot in the final path segment,
      not the last character of the path, with no dot after it. */
  ghost predicate ExtensionStart(path: string, k: int) {
    && 0 <= k < |path| - 1
    && path[k] == '.'
    && forall m :: k < m < |path| ==> path[m] != '.' && !IsSeparator(path[m])
  }

  /** Scans `path` backwards from position `i`, all of whose later characters
      are neither dots nor separators. */
  function ScanExtension(path: string, i: nat): string
    requires i <= |path|
    decreases i
  {
    if i == 0 then ""
    else if path[i - 1] == '.' then
      if i == |path| then "" else path[i - 1..]
    else if IsSeparator(path[i - 1]) then ""
    else ScanExtension(path, i - 1)
  }

  /** The scan finds an extension exactly when one starts before `i`, and returns
      the text from that start. */
  lemma {:induction false} ScanExtensionSpec(path: string, i: nat)
    requires i <= |path|
    requires forall m :: i <= m < |path| ==> path[m] != '.' && !IsSeparator(path[m])
    ensures var ext := ScanExtension(path, i);
      && (ext != "" <==> exists k :: k < i && ExtensionStart(path, k))
      && forall k :: k < i && ExtensionStart(path, k) ==> ext == path[k..]
    decreases i
  {
    if i > 0 {
      if path[i - 1] == '.' {
        if i < |path| {
          assert ExtensionStart(path, i - 1);
        }
      } else if !IsSeparator(path[i - 1]) {
        ScanExtensionSpec(path, i - 1);
      }
    }
  }

  /** `Path.GetExtension`: the text from the last dot of the final segment, dot
      included; empty when that segment has no dot or ends with one. */
  function GetExtension(path: string): string {
    ScanExtension(path, |path|)
  }

  /** The extension is non-empty exactly when an extension starts somewhere, and
      then is the text from that start. */
  lemma GetExtensionSpec(path: string)
    ensures var ext := GetExtension(path);
      && (ext != "" <==> exists k :: ExtensionStart(path, k))
      && forall k :: ExtensionStart(path, k) ==> ext == path[k..]
  {
    ScanExtensionSpec(path, |path|);
  }

  /** Scans `path` backwards from position `i` for the last separator. */
  function ScanFileName(path: string, i: nat): (name: string)
    requires i <= |path|
    ensures |name| <= |path|
    decreases i
  {
    if i == 0 then path
    else if IsSeparator(path[i - 1]) then path[i..]
    else ScanFileName(path, i - 1)
  }

  /** `Path.GetFileName`: the final segment of `path`, after the last separator. */
  function FileName(path: string): (name: string)
    ensures |name| <= |path|
  {
    ScanFileName(path, |path|)
  }

  /** `name` is the final segment of `path`: a separator-free suffix that is either
      all of `path` or preceded by a separator. */
  ghost predicate IsFinalSegment(path: string, name: string) {
    && EndsWith(path, name)
    && (forall m :: |path| - |name| <= m < |path| ==> !IsSeparator(path[m]))
    && (|name| == |path| || IsSeparator(path[|path| - |name| - 1]))
  }

  lemma {:induction false} ScanFileNameIsFinalSegment(path: string, i: nat)
    requires i <= |path|
    requires forall m :: i <= m < |path| ==> !IsSeparator(path[m])
    ensures IsFinalSegment(path, ScanFileName(path, i))
    decreases i
  {
    if i > 0 && !IsSeparator(path[i - 1]) {
      ScanFileNameIsFinalSegment(path, i - 1);
    }
  }

  /** `FileName` returns the final segment of the path. */
  lemma FileNameIsFinalSegment(path: string)
    ensures IsFinalSegment(path, FileName(path))
  {
    ScanFileNameIsFinalSegment(path, |path|);
  }

  /** The position of the last dot among the first `i` characters of `s`, or -1. */
  function LastDotBefore(s: string, i: nat): (d: int)
    requires i <= |s|
    ensures -1 <= d < i
    decreases i
  {
    if i == 0 then -1
    else if s[i - 1] == '.' then i - 1
    else LastDotBefore(s, i - 1)
  }

  lemma {:induction false} LastDotBeforeIsLast(s: string, i: nat)
    requires i <= |s|
    ensures var d := LastDotBefore(s, i);
      (d >= 0 ==> s[d] == '.') && forall m :: d < m < i ==> s[m] != '.'
    decreases i
  {
    if i > 0 && s[i - 1] != '.' {
      LastDotBeforeIsLast(s, i - 1);
    }
  }

  /** `Path.GetFileNameWithoutExtension`: the file name cut at its last dot. Unlike
      `GetExtension`, a trailing dot is cut too. */
  function FileNameWithoutExtension(path: string): string {
    var name := FileName(path);
    var d := LastDotBefore(name, |name|);
    if d < 0 then name else name[..d]
  }

  /** Every extension start of `path` is the last dot of its file name. */
  lemma ExtensionAtLastDot(path: string, k: int)
    requires ExtensionStart(path, k)
    ensures
      var name := FileName(path);
      k == |path| - |name| + LastDotBefore(name, |name|)
  {
    var name := FileName(path);
    var off := |path| - |name|;
    var d := LastDotBefore(name, |name|);
    FileNameIsFinalSegment(path);
    LastDotBeforeIsLast(name, |name|);
    if k < off {
      assert false;
    }
    assert name[k - off] == path[k];
    if k - off < d {
      assert false;
    }
  }

  /** A file name ending in a dot gives no extension. */
  lemma TrailingDotNoExtension(path: string)
    requires var name := FileName(path); |name| > 0 && name[|name| - 1] == '.'
    ensures GetExtension(path) == ""
  {
    GetExtensionSpec(path);
    forall k | ExtensionStart(path, k)
      ensures false
    {
      FileNameIsFinalSegment(path);
    }
  }

  /** A file name without a dot gives no extension. */
  lemma NoDotNoExtension(path: string)
    requires var name := FileName(path); LastDotBefore(name, |name|) < 0
    ensures GetExtension(path) == ""
  {
    GetExtensionSpec(path);
    forall k | ExtensionStart(path, k)
      ensures false
    {
      ExtensionAtLastDot(path, k);
      FileNameIsFinalSegment(path);
    }
  }

  /** A path without any dot has no extension. */
  lemma DotlessHasNoExtension(path: string)
    requires '.' !in path
    ensures GetExtension(path) == ""
  {
    GetExtensionSpec(path);
  }

  /** Otherwise the extension starts at the last dot of the file name. */
  lemma ExtensionFromLastDot(path: string)
    requires
      var name := FileName(path);
      var d := LastDotBefore(name, |name|);
      0 <= d < |name| - 1
    ensures
      var name := FileName(path);
      var d := LastDotBefore(name, |name|);
      GetExtension(path) == name[d..]
  {
    var name := FileName(path);
    var off := |path| - |name|;
    var d := LastDotBefore(name, |name|);
    GetExtensionSpec(path);
    FileNameIsFinalSegment(path);
    LastDotBeforeIsLast(name, |name|);
    assert name == path[off..];
    forall m | off + d < m < |path|
      ensures path[m] != '.' && !IsSeparator(path[m])
    {
      assert path[m] == name[m - off];
    }
    assert path[off + d] == name[d];
    assert ExtensionStart(path, off + d);
    assert path[off + d..] == name[d..];
  }

  /** The file name is the stem followed by the extension, except that a file name
      ending in a dot loses that dot from the stem and has no extension. */
  lemma {:induction false} StemAndExtension(path: string)
    ensures
      var name := FileName(path);
      if |name| > 0 && name[|name| - 1] == '.' then
        GetExtension(path) == "" && name == FileNameWithoutExtension(path) + "."
      else
        FileNameWithoutExtension(path) + GetExtension(path) == name
  {
    var name := FileName(path);
    var d := LastDotBefore(name, |name|);
    LastDotBeforeIsLast(name, |name|);
    if |name| > 0 && name[|name| - 1] == '.' {
      TrailingDotNoExtension(path);
      assert name == name[..d] + ".";
    } else if d < 0 {
      NoDotNoExtension(path);
    } else {
      ExtensionFromLastDot(path);
      assert name[..d] + name[d..] == name;
    }
  }

  /** For an extension `ext` made of a dot and then no dots or separators, the
      extension test is a suffix test: `GetExtension(p) == ext` exactly when `p`
      ends with `ext`. */
  lemma {:induction false} ExtensionIsSuffix(p: string, ext: string)
    requires |ext| > 1 && ext[0] == '.'
    requires forall m :: 0 < m < |ext| ==> ext[m] != '.' && !IsSeparator(ext[m])
    ensures GetExtension(p) == ext <==> EndsWith(p, ext)
  {
    GetExtensionSpec(p);
    if EndsWith(p, ext) {
      var k := |p| - |ext|;
      assert forall m :: k < m < |p| ==> p[m] == ext[m - k];
      assert ExtensionStart(p, k);
    }
    if GetExtension(p) == ext {
      var k :| ExtensionStart(p, k);
      assert p[k..] == ext;
    }
  }
}
