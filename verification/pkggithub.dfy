/**
 * The tree-API getter of pkg/github/getter.go: Get normalises the suffix of
 * the requested names, downloads each one through the tree's path-to-SHA
 * map, and returns the retrieved contents in request order together with
 * an error naming every file it could not get.
 */
module PkgGithub {
  import opened Wrappers
  import opened Strings
  import opened FilePath
  import opened Errors
  import opened ContentStructs
  import opened Pipeline
  import opened TreeApi

  // ---------------------------------------------------------------- ensureSuffixes

  /** The path ensureSuffixes makes of one name: the suffix is added only when the name has no extension. */
  function Suffixed(name: string, suffix: string): string
  {
    if Ext(name) == "" then name + suffix else name
  }

  /** The paths ensureSuffixes makes of `names`, one per name and in the same order. */
  function AllSuffixed(names: seq<string>, suffix: string): (paths: seq<string>)
    ensures |paths| == |names|
  {
    if names == [] then []
    else AllSuffixed(names[..|names| - 1], suffix) + [Suffixed(names[|names| - 1], suffix)]
  }

  /** Position by position, each path is its name, suffixed. */
  lemma {:induction false} AllSuffixedAt(names: seq<string>, suffix: string)
    ensures forall i :: 0 <= i < |names| ==> AllSuffixed(names, suffix)[i] == Suffixed(names[i], suffix)
  {
    if names != [] {
      var init := names[..|names| - 1];
      AllSuffixedAt(init, suffix);
      assert forall i :: 0 <= i < |init| ==> init[i] == names[i];
    }
  }

  /** One name more suffixes one path more. */
  lemma AllSuffixedPrefix(names: seq<string>, suffix: string, i: int)
    requires 0 <= i < |names|
    ensures AllSuffixed(names[..i + 1], suffix) == AllSuffixed(names[..i], suffix) + [Suffixed(names[i], suffix)]
  {
    assert names[..i + 1][..i] == names[..i];
  }

  /** The body of ensureSuffixes' loop for one name. */
  method EnsureSuffix(name: string, suffix: string) returns (path: string)
    ensures path == Suffixed(name, suffix)
  {
    path := name;
    if Ext(name) == "" {
      path := name + suffix;
    }
  }

  /** ensureSuffixes: fills a slice of the same length, index by index. */
  method EnsureSuffixes(g: Getter, names: seq<string>) returns (paths: seq<string>)
    ensures paths == AllSuffixed(names, g.suffix)
  {
    var filled := new string[|names|];
    for i := 0 to |names|
      invariant filled[..i] == AllSuffixed(names[..i], g.suffix)
    {
      var path := EnsureSuffix(names[i], g.suffix);
      filled[i] := path;
      assert filled[..i + 1] == filled[..i] + [path];
      AllSuffixedPrefix(names, g.suffix, i);
    }
    assert filled[..] == filled[..|names|];
    assert names[..|names|] == names;
    paths := filled[..];
  }

  /** A name that has an extension is never altered; one without gets exactly the suffix. */
  lemma SuffixedCases(name: string, suffix: string)
    ensures Ext(name) != "" ==> Suffixed(name, suffix) == name
    ensures Ext(name) == "" ==> Suffixed(name, suffix) == name + suffix && HasSuffix(Suffixed(name, suffix), suffix)
  {
    if Ext(name) == "" {
      assert (name + suffix)[|name|..] == suffix;
    }
  }

  /**
   * With a suffix like ".gitignore" (a leading '.', no '/'), every path has an
   * extension, so suffixing again changes nothing.
   */
  lemma SuffixedIdempotent(name: string, suffix: string)
    requires suffix != "" && suffix[0] == '.' && '/' !in suffix
    ensures Ext(Suffixed(name, suffix)) != ""
    ensures Suffixed(Suffixed(name, suffix), suffix) == Suffixed(name, suffix)
  {
    if Ext(name) == "" {
      ExtOfAppendedSuffix(name, suffix);
    }
  }

  /** ensureSuffixes is idempotent for such a suffix. */
  lemma EnsureSuffixesIdempotent(names: seq<string>, suffix: string)
    requires suffix != "" && suffix[0] == '.' && '/' !in suffix
    ensures AllSuffixed(AllSuffixed(names, suffix), suffix) == AllSuffixed(names, suffix)
  {
    AllSuffixedAt(names, suffix);
    AllSuffixedAt(AllSuffixed(names, suffix), suffix);
    forall i | 0 <= i < |names|
      ensures Suffixed(Suffixed(names[i], suffix), suffix) == Suffixed(names[i], suffix)
    {
      SuffixedIdempotent(names[i], suffix);
    }
  }

  // ---------------------------------------------------------------- getBlob

  const NotPresent := "not present in file tree"
  const FailedDownload := "failed to download"

  /**
   * getBlob for one name: a name missing from the tree fails without a
   * request and without a cause; a failed download fails with the cause;
   * otherwise the blob's text is the contents.
   */
  function GetBlob(remote: Remote, pathsToSHAs: map<string, string>, name: string): (r: Outcome<NamedContents, FailedFile>)
    ensures r.Success? <==> name in pathsToSHAs && remote.blobFor(pathsToSHAs[name]).Blob?
    ensures r.Success? ==> r.value == NamedContents(name, remote.blobFor(pathsToSHAs[name]).text)
    ensures r.Failure? ==> r.reason.name == name
    ensures r.Failure? && name !in pathsToSHAs ==> r.reason.message == NotPresent && r.reason.err == None
    ensures r.Failure? && name in pathsToSHAs ==>
              r.reason.message == FailedDownload && r.reason.err == Some(remote.blobFor(pathsToSHAs[name]).cause)
  {
    if name in pathsToSHAs then
      match remote.blobFor(pathsToSHAs[name])
      case DownloadError(cause) => Outcome.Failure(FailedFile(name, FailedDownload, Some(cause)))
      case Blob(text) => Outcome.Success(NamedContents(name, text))
    else
      Outcome.Failure(FailedFile(name, NotPresent, None))
  }

  /** getBlob as the download step of the fan-in. */
  function Download(remote: Remote, pathsToSHAs: map<string, string>): (d: string -> Outcome<NamedContents, FailedFile>)
    ensures SuccessesNamed(d, ContentsName) && FailuresNamed(d, FailedFileName)
  {
    name => GetBlob(remote, pathsToSHAs, name)
  }

  // ---------------------------------------------------------------- Get

  /**
   * Get, with the goroutines replaced by `arrival`: the order in which the
   * outcomes of the requests (by index) reach the collectors. Every arrival
   * order gives the same contents, the retrieved ones sorted by request
   * index; the failures are reported in arrival order.
   *
   * The requirement is the condition under which the Go code returns at all:
   * with names to fetch and MaxRequests of zero or less no downloader starts
   * and wg.Wait blocks forever.
   */
  method Get(g: Getter, remote: Remote, names: seq<string>, arrival: seq<nat>)
    returns (contents: seq<NamedContents>, err: Option<Error>)
    requires IsPermutation(arrival, |names|)
    requires GetTree(remote).Failure? || names == [] || g.maxRequests >= 1
    ensures GetTree(remote).Failure? ==> contents == [] && err == Some(NewGetError(g, GetTree(remote).error))
    ensures GetTree(remote).Success? ==>
              var paths := AllSuffixed(names, g.suffix);
              var outs := Downloads(Download(remote, PathsToSHAs(GetTree(remote).value)), paths);
              && contents == Ordered(Successes(outs), ByPosition(paths, ContentsName))
              && err == FailuresError(g, Failures(Arrange(outs, arrival)))
  {
    var tree := GetTree(remote);
    if tree.Failure? {
      return [], Some(NewGetError(g, tree.error));
    }
    var pathsToSHAs := CreatePathsToSHAs(tree.value);
    var paths := EnsureSuffixes(g, names);
    var namesOrdering := CreateNamesOrdering(paths);
    var retrieved, failedFiles := Collect(Download(remote, pathsToSHAs), paths, arrival);
    contents := SortContents(retrieved, namesOrdering, ContentsName);
    SortedByOrdering(paths, namesOrdering, ContentsName, contents);
    NamedKeyedByPosition(Download(remote, pathsToSHAs), paths, ContentsName);
    SortedCollectedIsOrdered(Download(remote, pathsToSHAs), paths, ByPosition(paths, ContentsName), arrival, contents);
    err := FailuresError(g, failedFiles);
  }

  /** When no path is requested twice, the contents come back in request order. */
  lemma GetInRequestOrder(remote: Remote, pathsToSHAs: map<string, string>, paths: seq<string>)
    requires forall k, l :: 0 <= k < l < |paths| ==> paths[k] != paths[l]
    ensures Ordered(Successes(Downloads(Download(remote, pathsToSHAs), paths)), ByPosition(paths, ContentsName))
            == Successes(Downloads(Download(remote, pathsToSHAs), paths))
  {
    NamedKeyedByPosition(Download(remote, pathsToSHAs), paths, ContentsName);
    SuccessesInRequestOrder(Download(remote, pathsToSHAs), paths, ByPosition(paths, ContentsName));
  }
}
