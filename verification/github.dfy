/**
 * The tree-API getter of github/getter.go, the predecessor of the one in
 * pkg/github: Get takes the paths as given (no suffix is added), downloads
 * each through the tree's path-to-SHA map and returns NamedIgnoreContents
 * in request order, with an error naming every file it could not get.
 */
module Github {
  import opened Wrappers
  import opened Strings
  import opened Errors
  import opened ContentStructs
  import opened Pipeline
  import opened TreeApi

  // ---------------------------------------------------------------- getBlob

  const NotPresent := "not present in file tree"
  const FailedDownload := "failed to download"

  /**
   * getBlob for one name: a name missing from the tree fails without a
   * request and without a cause; a failed download fails with the cause;
   * otherwise the blob's text is the contents.
   */
  function GetBlob(remote: Remote, pathsToSHAs: map<string, string>, name: string): (r: Outcome<NamedIgnoreContents, FailedFile>)
    ensures r.Success? <==> name in pathsToSHAs && remote.blobFor(pathsToSHAs[name]).Blob?
    ensures r.Success? ==> r.value == NamedIgnoreContents(name, remote.blobFor(pathsToSHAs[name]).text)
    ensures r.Failure? ==> r.reason.name == name
    ensures r.Failure? && name !in pathsToSHAs ==> r.reason.message == NotPresent && r.reason.err == None
    ensures r.Failure? && name in pathsToSHAs ==>
              r.reason.message == FailedDownload && r.reason.err == Some(remote.blobFor(pathsToSHAs[name]).cause)
  {
    if name in pathsToSHAs then
      match remote.blobFor(pathsToSHAs[name])
      case DownloadError(cause) => Outcome.Failure(FailedFile(name, FailedDownload, Some(cause)))
      case Blob(text) => Outcome.Success(NamedIgnoreContents(name, text))
    else
      Outcome.Failure(FailedFile(name, NotPresent, None))
  }

  /** getBlob as the download step of the fan-in. */
  function Download(remote: Remote, pathsToSHAs: map<string, string>): (d: string -> Outcome<NamedIgnoreContents, FailedFile>)
    ensures SuccessesNamed(d, IgnoreContentsName) && FailuresNamed(d, FailedFileName)
  {
    name => GetBlob(remote, pathsToSHAs, name)
  }

  // ---------------------------------------------------------------- Get

  /**
   * Get, with the goroutines replaced by `arrival`: the order in which the
   * outcomes of the requests (by index) reach the collectors. Every arrival
   * order gives the same contents, the retrieved ones sorted by request
   * index; the failures are reported in arrival order.
   *
   * The requirement is the condition under which the Go code returns at all:
   * with paths to fetch and MaxRequests of zero or less no downloader starts
   * and wg.Wait blocks forever.
   */
  method Get(g: Getter, remote: Remote, paths: seq<string>, arrival: seq<nat>)
    returns (contents: seq<NamedIgnoreContents>, err: Option<Error>)
    requires IsPermutation(arrival, |paths|)
    requires GetTree(remote).Failure? || paths == [] || g.maxRequests >= 1
    ensures GetTree(remote).Failure? ==> contents == [] && err == Some(NewGetError(g, GetTree(remote).error))
    ensures GetTree(remote).Success? ==>
              var outs := Downloads(Download(remote, PathsToSHAs(GetTree(remote).value)), paths);
              && contents == Ordered(Successes(outs), ByPosition(paths, IgnoreContentsName))
              && err == FailuresError(g, Failures(Arrange(outs, arrival)))
  {
    var tree := GetTree(remote);
    if tree.Failure? {
      return [], Some(NewGetError(g, tree.error));
    }
    var pathsToSHAs := CreatePathsToSHAs(tree.value);
    var pathsOrdering := CreateNamesOrdering(paths);
    var retrieved, failedFiles := Collect(Download(remote, pathsToSHAs), paths, arrival);
    contents := SortContents(retrieved, pathsOrdering, IgnoreContentsName);
    SortedByOrdering(paths, pathsOrdering, IgnoreContentsName, contents);
    NamedKeyedByPosition(Download(remote, pathsToSHAs), paths, IgnoreContentsName);
    SortedCollectedIsOrdered(Download(remote, pathsToSHAs), paths, ByPosition(paths, IgnoreContentsName), arrival, contents);
    err := FailuresError(g, failedFiles);
  }

  /** When no path is requested twice, the contents come back in request order. */
  lemma GetInRequestOrder(remote: Remote, pathsToSHAs: map<string, string>, paths: seq<string>)
    requires forall k, l :: 0 <= k < l < |paths| ==> paths[k] != paths[l]
    ensures Ordered(Successes(Downloads(Download(remote, pathsToSHAs), paths)), ByPosition(paths, IgnoreContentsName))
            == Successes(Downloads(Download(remote, pathsToSHAs), paths))
  {
    NamedKeyedByPosition(Download(remote, pathsToSHAs), paths, IgnoreContentsName);
    SuccessesInRequestOrder(Download(remote, pathsToSHAs), paths, ByPosition(paths, IgnoreContentsName));
  }
}
