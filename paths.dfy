/**
 * Paths and export locations on the Windows host: the mount path of a share, the
 * `\\address\name` export location, and the share name recovered from a location.
 */
module Paths {

  /** The host's separator convention: every '/' becomes '\'. */
  function NormalizePath(path: string): (r: string)
    ensures |r| == |path| && '/' !in r
    ensures forall i :: 0 <= i < |path| && path[i] == '/' ==> r[i] == '\\'
    ensures forall i :: 0 <= i < |path| && path[i] != '/' ==> r[i] == path[i]
  {
    seq(|path|, i requires 0 <= i < |path| => if path[i] == '/' then '\\' else path[i])
  }

  lemma NormalizePathAppend(a: string, b: string)
    ensures NormalizePath(a + b) == NormalizePath(a) + NormalizePath(b)
  {
    var l, r := NormalizePath(a + b), NormalizePath(a) + NormalizePath(b);
    assert forall i :: 0 <= i < |l| ==> l[i] == r[i];
  }

  /** Normalising a path without '/' leaves it unchanged. */
  lemma NormalizePathOfNormal(path: string)
    requires '/' !in path
    ensures NormalizePath(path) == path
  {
    assert forall i :: 0 <= i < |path| ==> path[i] != '/';
  }

  /**
   * Joining two path components the way a POSIX path join does: an absolute `b` replaces
   * `a`; otherwise `b` follows `a`, with one '/' between them unless `a` is empty or ends in '/'.
   */
  function JoinPath(a: string, b: string): (r: string)
    ensures |b| <= |r| && r[|r| - |b|..] == b
    ensures |b| > 0 && b[0] == '/' ==> r == b
    ensures !(|b| > 0 && b[0] == '/') ==> |a| <= |r| <= |a| + |b| + 1 && r[..|a|] == a
    ensures !(|b| > 0 && b[0] == '/') && |b| < |r| ==> r[|r| - |b| - 1] == '/'
  {
    if |b| > 0 && b[0] == '/' then b
    else if a == [] || a[|a| - 1] == '/' then a + b
    else a + "/" + b
  }

  /** The mount path of a share: its name joined to the configured root, then normalised. */
  function MountPath(root: string, name: string): (r: string)
    ensures '/' !in r
    ensures |name| <= |r| && r[|r| - |name|..] == NormalizePath(name)
  {
    var joined := JoinPath(root, name);
    assert joined == joined[..|joined| - |name|] + name;
    NormalizePathAppend(joined[..|joined| - |name|], name);
    NormalizePath(joined)
  }

  /** The export location clients use: `\\address\name`. */
  function ExportLocation(address: string, name: string): string {
    "\\\\" + address + "\\" + name
  }

  /** The part after the last '\' (the whole string when there is none). */
  function LastSegment(s: string): (r: string)
    ensures |r| <= |s| && r == s[|s| - |r|..]
    ensures '\\' !in r
    ensures |r| < |s| ==> s[|s| - |r| - 1] == '\\'
  {
    if s == [] then []
    else if s[|s| - 1] == '\\' then []
    else LastSegment(s[..|s| - 1]) + [s[|s| - 1]]
  }

  /**
   * The share name of an export location or a share path: what follows the last '/' or '\\',
   * the whole string when there is neither.
   */
  function ShareName(location: string): (r: string)
    ensures IsPlainName(r) && |r| <= |location| && r == location[|location| - |r|..]
    ensures |r| < |location| ==>
              location[|location| - |r| - 1] == '/' || location[|location| - |r| - 1] == '\\'
  {
    LastSegmentOfNormalized(location);
    LastSegment(NormalizePath(location))
  }

  lemma LastSegmentOfNormalized(location: string)
    ensures var r := LastSegment(NormalizePath(location));
            IsPlainName(r) && |r| <= |location| && r == location[|location| - |r|..] &&
            (|r| < |location| ==>
               location[|location| - |r| - 1] == '/' || location[|location| - |r| - 1] == '\\')
  {
    var n := NormalizePath(location);
    var r := LastSegment(n);
    var k := |n| - |r|;
    forall i | 0 <= i < |r|
      ensures r[i] == location[k + i] && r[i] != '/'
    {
      assert r[i] == n[k + i];
    }
    assert r == location[k..];
  }

  predicate IsPlainName(name: string) {
    '/' !in name && '\\' !in name
  }

  /** A string ending in '\' followed by a plain name has that name as its last segment. */
  lemma {:induction false} LastSegmentAfterSeparator(prefix: string, name: string)
    requires '\\' !in name
    ensures LastSegment(prefix + "\\" + name) == name
  {
    var s := prefix + "\\" + name;
    var r := LastSegment(s);
    assert s[|s| - |name| - 1] == '\\';
    assert forall i :: 0 <= i < |name| ==> s[|s| - |name| + i] == name[i];
  }

  /** A string without '\' is its own last segment. */
  lemma {:induction false} LastSegmentOfPlain(s: string)
    requires '\\' !in s
    ensures LastSegment(s) == s
  {
    var r := LastSegment(s);
    assert forall i :: 0 <= i < |s| ==> s[i] != '\\';
  }

  /** The share name of `\\address\name` is `name`, whatever the address. */
  lemma ShareNameOfExportLocation(address: string, name: string)
    requires IsPlainName(name)
    ensures ShareName(ExportLocation(address, name)) == name
  {
    var prefix := "\\\\" + address;
    assert ExportLocation(address, name) == prefix + "\\" + name;
    NormalizePathAppend(prefix + "\\", name);
    NormalizePathAppend(prefix, "\\");
    assert NormalizePath(name) == name;
    assert NormalizePath("\\") == "\\";
    LastSegmentAfterSeparator(NormalizePath(prefix), name);
  }

  /** A non-empty root joined with a plain name: the normalised root, one '\', the name. */
  lemma MountPathShape(root: string, name: string)
    requires root != [] && IsPlainName(name)
    ensures MountPath(root, name) ==
            NormalizePath(if root[|root| - 1] == '/' then root[..|root| - 1] else root) + "\\" + name
  {
    var base := if root[|root| - 1] == '/' then root[..|root| - 1] else root;
    assert JoinPath(root, name) == base + "/" + name;
    NormalizePathAppend(base + "/", name);
    NormalizePathAppend(base, "/");
    assert NormalizePath(name) == name;
    assert NormalizePath("/") == "\\";
  }

  /** The share name of a share's mount path is the share's name, whatever the root. */
  lemma ShareNameOfMountPath(root: string, name: string)
    requires IsPlainName(name)
    ensures ShareName(MountPath(root, name)) == name
  {
    var path := MountPath(root, name);
    NormalizePathOfNormal(path);
    if root == [] {
      assert JoinPath(root, name) == name;
      NormalizePathOfNormal(name);
      LastSegmentOfPlain(name);
    } else {
      MountPathShape(root, name);
      var base := if root[|root| - 1] == '/' then root[..|root| - 1] else root;
      LastSegmentAfterSeparator(NormalizePath(base), name);
    }
  }
}
