/** Which files the two tree walkers open: a file is scanned when its extension, as
    `os.path.splitext` computes it on a POSIX path, is one of the source-code extensions. */
module Paths {
  import opened Text

  /** The extensions both walkers scan; every other file is skipped (or copied as-is). */
  const ScanExts: set<string> := {".c", ".h", ".S", ".s", ".ld", ".lds", ".dts", ".dtsi", ".asm", ".inc", ".rs"}

  /** `p.rfind(c)`: the index of the last `c` in `p`, or -1. */
  function LastIndex(p: string, c: char): (r: int)
    ensures -1 <= r < |p|
    ensures r >= 0 ==> p[r] == c
    ensures forall k :: r < k < |p| ==> p[k] != c
  {
    if p == [] then -1
    else if p[|p| - 1] == c then |p| - 1
    else LastIndex(p[..|p| - 1], c)
  }

  /** Some character of `p[lo..hi]` is not a dot. */
  predicate HasNonDot(p: string, lo: int, hi: int)
    requires 0 <= lo && hi <= |p|
  {
    exists k :: lo <= k < hi && p[k] != '.'
  }

  /** The extension `os.path.splitext(p)[1]` returns: from the last dot of the final path
      component, unless everything before that dot in the component is a dot too. */
  function Ext(p: string): (r: string)
    ensures r == [] || (r[0] == '.' && EndsWith(p, r))
    ensures forall k :: 0 < k < |r| ==> r[k] != '.' && r[k] != '/'
  {
    var sepIndex := LastIndex(p, '/');
    var dotIndex := LastIndex(p, '.');
    if dotIndex > sepIndex && HasNonDot(p, sepIndex + 1, dotIndex) then p[dotIndex..] else []
  }

  /** `should_scan_file`. */
  function ShouldScanFile(path: string): bool {
    Ext(path) in ScanExts
  }

  /** A scanned file's name ends with one of the scanned extensions, preceded by a
      component character that is not a dot and not a slash. */
  lemma ScannedFileHasSourceExtension(path: string)
    requires ShouldScanFile(path)
    ensures exists e :: e in ScanExts && EndsWith(path, e) && |e| < |path|
                        && path[|path| - |e| - 1] != '/'
  {
    var e := Ext(path);
    var sepIndex := LastIndex(path, '/');
    var dotIndex := LastIndex(path, '.');
    assert e == path[dotIndex..];
    var k :| sepIndex + 1 <= k < dotIndex && path[k] != '.';
    assert path[dotIndex - 1] != '/';
  }

  /** Conversely, a name `stem + e` with `e` a scanned extension is scanned whenever the
      stem's last character is neither a slash nor a dot. */
  lemma {:induction false} SourceExtensionIsScanned(stem: string, e: string)
    requires e in ScanExts
    requires stem != [] && stem[|stem| - 1] != '/' && stem[|stem| - 1] != '.'
    ensures ShouldScanFile(stem + e)
  {
    var p := stem + e;
    assert forall k :: |stem| < k < |p| ==> p[k] != '.' && p[k] != '/';
    assert p[|stem|] == '.';
    var dotIndex := LastIndex(p, '.');
    assert dotIndex == |stem|;
    var sepIndex := LastIndex(p, '/');
    assert sepIndex < |stem| - 1;
    assert HasNonDot(p, sepIndex + 1, dotIndex) by {
      assert p[|stem| - 1] != '.';
    }
    assert p[dotIndex..] == e;
  }

  /** A hidden file such as `dir/.c` has no extension, so it is never scanned. */
  lemma HiddenFileNotScanned(dir: string, e: string)
    requires e in ScanExts
    ensures !ShouldScanFile(dir + "/" + e)
  {
    var p := dir + "/" + e;
    assert forall k :: |dir| + 1 < k < |p| ==> p[k] != '.' && p[k] != '/';
    assert p[|dir|] == '/' && p[|dir| + 1] == '.';
    assert LastIndex(p, '.') == |dir| + 1;
    assert LastIndex(p, '/') == |dir|;
  }
}
