/**
 * The parts of Go's `path/filepath` the program uses, for a Unix host where
 * the only separator is '/'.
 */
module FilePath {
  import opened Strings

  /** The index of the last '/' of `path`, or -1 when there is none. */
  function LastSlash(path: string): (i: int)
    ensures -1 <= i < |path|
    ensures i >= 0 ==> path[i] == '/'
  {
    if path == "" then -1
    else if path[|path| - 1] == '/' then |path| - 1
    else LastSlash(path[..|path| - 1])
  }

  /** No '/' follows the last one. */
  lemma {:induction false} LastSlashShape(path: string)
    ensures forall k :: LastSlash(path) < k < |path| ==> path[k] != '/'
  {
    if path != "" && path[|path| - 1] != '/' {
      var init := path[..|path| - 1];
      LastSlashShape(init);
      assert forall k :: 0 <= k < |init| ==> init[k] == path[k];
    }
  }

  /** Everything after the last '/' of `path` (all of it when there is none). */
  function LastElement(path: string): string
  {
    path[LastSlash(path) + 1..]
  }

  /** The last element is a suffix without '/', preceded by a '/' unless it is the whole path. */
  lemma LastElementShape(path: string)
    ensures var r := LastElement(path);
            && HasSuffix(path, r) && '/' !in r
            && (|r| < |path| ==> path[|path| - |r| - 1] == '/')
  {
    var i := LastSlash(path);
    LastSlashShape(path);
    var r := path[i + 1..];
    assert |path| - |r| == i + 1;
    forall k | 0 <= k < |r|
      ensures r[k] != '/'
    {
      assert r[k] == path[i + 1 + k];
    }
    NoneIn(r, '/');
  }

  /** Where the extension of `path` starts: the last '.' after the last '/', or -1. */
  function ExtStart(path: string): (i: int)
    ensures -1 <= i < |path|
  {
    if path == "" || path[|path| - 1] == '/' then -1
    else if path[|path| - 1] == '.' then |path| - 1
    else ExtStart(path[..|path| - 1])
  }

  /**
   * filepath.Ext: the text from the last '.' of the last path element on,
   * or "" when that element has no '.'.
   */
  function Ext(path: string): (e: string)
  {
    var i := ExtStart(path);
    if i < 0 then "" else path[i..]
  }

  /**
   * ExtStart finds a '.' that has neither a '.' nor a '/' after it, and -1
   * only when there is no '.' after the last '/'.
   */
  lemma {:induction false} ExtStartShape(path: string)
    ensures var i := ExtStart(path);
            && (i >= 0 ==> path[i] == '.' && forall k :: i < k < |path| ==> path[k] != '.' && path[k] != '/')
            && (i < 0 ==> forall k :: LastSlash(path) < k < |path| ==> path[k] != '.')
  {
    if path != "" && path[|path| - 1] != '/' && path[|path| - 1] != '.' {
      var init := path[..|path| - 1];
      ExtStartShape(init);
      assert forall k :: 0 <= k < |init| ==> init[k] == path[k];
    }
  }

  /**
   * What Ext returns: a suffix of `path`, empty exactly when the last element
   * has no '.', and otherwise a '.' followed by no other '.' and no '/'.
   */
  lemma ExtShape(path: string)
    ensures var e := Ext(path);
            && HasSuffix(path, e)
            && (e != "" ==> e[0] == '.' && '/' !in e && '.' !in e[1..])
            && (e == "" <==> '.' !in LastElement(path))
  {
    var i := ExtStart(path);
    ExtStartShape(path);
    if i >= 0 {
      TailFromLastDot(path, i);
      DotInLastElement(path, i);
    } else {
      var l := LastElement(path);
      assert forall k :: 0 <= k < |l| ==> l[k] == path[LastSlash(path) + 1 + k];
    }
  }

  /** The text from a '.' that has neither a '.' nor a '/' after it. */
  lemma TailFromLastDot(path: string, i: int)
    requires 0 <= i < |path| && path[i] == '.'
    requires forall k :: i < k < |path| ==> path[k] != '.' && path[k] != '/'
    ensures var e := path[i..]; e[0] == '.' && '/' !in e && '.' !in e[1..]
  {
    var e := path[i..];
    assert forall k :: 0 < k < |e| ==> e[k] == path[i + k];
    assert forall k :: 0 <= k < |e| - 1 ==> e[1..][k] == path[i + 1 + k];
  }

  /** The last '/' comes before any point with no '/' after it. */
  lemma {:induction false} LastSlashBefore(path: string, j: int)
    requires 0 <= j <= |path|
    requires forall k :: j <= k < |path| ==> path[k] != '/'
    ensures LastSlash(path) < j
  {
    if j < |path| {
      LastSlashBefore(path[..|path| - 1], j);
    }
  }

  /** A '.' with no '/' after it lies in the last element. */
  lemma DotInLastElement(path: string, i: int)
    requires 0 <= i < |path| && path[i] == '.'
    requires forall k :: i < k < |path| ==> path[k] != '/'
    ensures '.' in LastElement(path)
  {
    var s := LastSlash(path);
    LastSlashBefore(path, i + 1);
    assert s != i;
    var l := path[s + 1..];
    assert l[i - s - 1] == path[i];
    assert l == LastElement(path);
  }

  /** `path` without its trailing '/' characters. */
  function StripTrailingSlashes(path: string): (r: string)
    ensures |r| <= |path| && r == path[..|r|]
    ensures r == "" || r[|r| - 1] != '/'
    ensures forall k :: |r| <= k < |path| ==> path[k] == '/'
  {
    if path != "" && path[|path| - 1] == '/' then StripTrailingSlashes(path[..|path| - 1]) else path
  }

  predicate HasNonSlash(path: string)
  {
    exists k :: 0 <= k < |path| && path[k] != '/'
  }

  /**
   * filepath.Base: the last element of `path` once trailing slashes are
   * dropped; "." for the empty path and "/" for a path of slashes only.
   */
  function Base(path: string): (r: string)
    ensures r != ""
    ensures HasNonSlash(path) ==> '/' !in r && HasSuffix(StripTrailingSlashes(path), r)
  {
    if path == "" then "."
    else
      var t := StripTrailingSlashes(path);
      if t == "" then "/"
      else
        LastElementShape(t);
        LastElement(t)
  }

  /** Only the part after the last '/' decides the last element. */
  lemma {:induction false} LastSlashAfterSlash(dir: string, t: string)
    ensures LastSlash(dir + "/" + t) == |dir| + 1 + LastSlash(t)
  {
    var p := dir + "/" + t;
    if t != "" && t[|t| - 1] != '/' {
      assert p[..|p| - 1] == dir + "/" + t[..|t| - 1];
      LastSlashAfterSlash(dir, t[..|t| - 1]);
    }
  }

  lemma LastElementAfterSlash(dir: string, t: string)
    ensures LastElement(dir + "/" + t) == LastElement(t)
  {
    var p := dir + "/" + t;
    LastSlashAfterSlash(dir, t);
    var j := LastSlash(t) + 1;
    assert LastElement(p) == p[|dir| + 1 + j..];
    assert p[|dir| + 1 + j..] == t[j..];
  }

  /** Trailing slashes of `pre + x` all come from `x` when `x` has another character. */
  lemma {:induction false} StripAppended(pre: string, x: string)
    requires HasNonSlash(x)
    ensures StripTrailingSlashes(pre + x) == pre + StripTrailingSlashes(x)
  {
    var p := pre + x;
    if x[|x| - 1] == '/' {
      var k :| 0 <= k < |x| && x[k] != '/';
      assert x[..|x| - 1][k] != '/';
      assert p[..|p| - 1] == pre + x[..|x| - 1];
      StripAppended(pre, x[..|x| - 1]);
    }
  }

  /** The directory part of a path does not change its base name. */
  lemma BaseIgnoresDirectory(dir: string, x: string)
    requires HasNonSlash(x)
    ensures Base(dir + "/" + x) == Base(x)
  {
    var p := dir + "/" + x;
    StripAppended(dir + "/", x);
    var t := StripTrailingSlashes(x);
    assert t != "" by {
      var k :| 0 <= k < |x| && x[k] != '/';
    }
    LastElementAfterSlash(dir, t);
    assert StripTrailingSlashes(p) == dir + "/" + t;
  }

  /**
   * A suffix that starts with '.' and has no '/' gives any name a non-empty
   * extension once appended.
   */
  lemma ExtOfAppendedSuffix(name: string, suffix: string)
    requires suffix != "" && suffix[0] == '.' && '/' !in suffix
    ensures Ext(name + suffix) != ""
  {
    var p := name + suffix;
    LastSlashBefore(p, |name|);
    assert p[|name|] == '.';
    DotInLastElement(p, |name|);
    ExtShape(p);
  }

  /** A path without '/' is its own last element. */
  lemma LastElementOfElement(x: string)
    requires '/' !in x
    ensures LastElement(x) == x
  {
    LastSlashBefore(x, 0);
  }

  /** A single element is its own base name. */
  lemma BaseOfElement(x: string)
    requires x != "" && '/' !in x
    ensures Base(x) == x
  {
    assert x[|x| - 1] in x;
    assert StripTrailingSlashes(x) == x;
    LastElementOfElement(x);
  }

  /** An element without '.' has no extension. */
  lemma ExtOfPlainElement(x: string)
    requires '.' !in x && '/' !in x
    ensures Ext(x) == ""
  {
    LastElementOfElement(x);
    ExtShape(x);
  }

  /**
   * The extension of a path ending in a dotted suffix without further dots
   * or slashes is exactly that suffix, whatever precedes it.
   */
  lemma ExtOfAppendedExtension(stem: string, ext: string)
    requires ext != "" && ext[0] == '.' && '.' !in ext[1..] && '/' !in ext
    ensures Ext(stem + ext) == ext
  {
    ExtOfAppendedSuffix(stem, ext);
    var e := Ext(stem + ext);
    ExtShape(stem + ext);
    NotLongerDottedSuffix(stem + ext, e, ext);
    NotLongerDottedSuffix(stem + ext, ext, e);
  }

  /** Of two suffixes of `p` that start with their only '.', the first is not the longer. */
  lemma NotLongerDottedSuffix(p: string, a: string, b: string)
    requires HasSuffix(p, a) && HasSuffix(p, b)
    requires a != "" && a[0] == '.' && b != "" && b[0] == '.' && '.' !in a[1..]
    ensures |a| <= |b|
  {
  }
}
