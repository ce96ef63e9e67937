/**
 * What the two GitHub tree-API getters (pkg/github/getter.go and
 * github/getter.go) share word for word: the getter's settings, the remote
 * repository as seen through the API, the tree lookup, the two error
 * wrappers, the blob filter behind List, the path-to-SHA map and the worker
 * count.
 */
module TreeApi {
  import opened Wrappers
  import opened Strings
  import opened Errors
  import opened Seqs

  /** A decoded entry of a Git tree; a missing field reads as "". */
  datatype TreeEntry = TreeEntry(path: string, kind: string, sha: string)

  /** The answer to a raw-blob request. */
  datatype Download = Blob(text: string) | DownloadError(cause: Error)

  /**
   * The repository at the getter's owner, repository and branch, as the API
   * answers: the tree SHA of the branch's head commit (None when the branch
   * call fails, "" when the answer carries no SHA), the recursive tree for a
   * SHA (None when the tree call fails), and the blob for a SHA.
   */
  datatype Remote = Remote(
    branchTreeSHA: Option<string>,
    treeFor: string -> Option<seq<TreeEntry>>,
    blobFor: string -> Download)

  /** The settings of a Getter; the API client is the Remote. */
  datatype Getter = Getter(owner: string, repository: string, branch: string, suffix: string, maxRequests: int)

  const BranchError := "unable to get branch information"
  const NoBranchError := "no branch information received"
  const TreeError := "unable to get tree information"

  /** getTree: the branch's tree, or the first of its three failures. */
  function GetTree(remote: Remote): (r: Result<seq<TreeEntry>, Error>)
    ensures remote.branchTreeSHA.None? ==> r == Failure(Opaque(BranchError))
    ensures remote.branchTreeSHA == Some("") ==> r == Failure(Opaque(NoBranchError))
    ensures remote.branchTreeSHA.Some? && remote.branchTreeSHA.value != "" ==>
              var tree := remote.treeFor(remote.branchTreeSHA.value);
              (tree.None? ==> r == Failure(Opaque(TreeError))) && (tree.Some? ==> r == Success(tree.value))
  {
    match remote.branchTreeSHA
    case None => Failure(Opaque(BranchError))
    case Some(sha) =>
      if sha == "" then Failure(Opaque(NoBranchError))
      else
        match remote.treeFor(sha)
        case None => Failure(Opaque(TreeError))
        case Some(entries) => Success(entries)
  }

  /** The three ways the tree lookup fails are told apart by their messages. */
  lemma TreeErrorsDistinct()
    ensures BranchError != NoBranchError && NoBranchError != TreeError && BranchError != TreeError
  {
    assert BranchError[0] == 'u' && NoBranchError[0] == 'n';
    assert BranchError[14] == 'b' && TreeError[14] == 't';
  }

  /** newListError: wraps `err` (%w) behind the getter's coordinates. */
  function NewListError(g: Getter, err: Error): (e: Error)
    ensures Unwrap(e) == Some(err)
    ensures Text(e) == "error listing contents of " + g.owner + "/" + g.repository + " at " + g.branch + ": " + Text(err)
  {
    Wrapped("error listing contents of " + g.owner + "/" + g.repository + " at " + g.branch, err)
  }

  /** newGetError: wraps `err` (%w) behind the getter's coordinates. */
  function NewGetError(g: Getter, err: Error): (e: Error)
    ensures Unwrap(e) == Some(err)
    ensures Text(e) == "error getting files from " + g.owner + "/" + g.repository + " at " + g.branch + ": " + Text(err)
  {
    Wrapped("error getting files from " + g.owner + "/" + g.repository + " at " + g.branch, err)
  }

  /** A List error and a Get error never read the same, whatever they wrap. */
  lemma ListAndGetErrorsDiffer(g: Getter, e1: Error, e2: Error)
    ensures Text(NewListError(g, e1)) != Text(NewGetError(g, e2))
  {
    var l, t := "error listing contents of ", "error getting files from ";
    assert Text(NewListError(g, e1))[6] == l[6] == 'l';
    assert Text(NewGetError(g, e2))[6] == t[6] == 'g';
  }

  /**
   * The error Get returns once the failures are collected: none when no file
   * failed (the collected slice is still nil), otherwise the FailedFiles
   * wrapped by newGetError.
   */
  function FailuresError(g: Getter, failed: seq<FailedFile>): (err: Option<Error>)
    ensures err.Some? <==> failed != []
    ensures err.Some? ==> Unwrap(err.value) == Some(Files(failed))
  {
    if failed != [] then Some(NewGetError(g, Files(failed))) else None
  }

  // ---------------------------------------------------------------- List

  /** The entries List keeps: blobs whose path ends with `suffix`, in tree order. */
  function BlobsWithSuffix(entries: seq<TreeEntry>, suffix: string): seq<TreeEntry>
  {
    if entries == [] then []
    else
      var e := entries[|entries| - 1];
      BlobsWithSuffix(entries[..|entries| - 1], suffix) + (if e.kind == "blob" && HasSuffix(e.path, suffix) then [e] else [])
  }

  /** An entry is kept exactly when it is a blob whose path ends with the suffix. */
  lemma {:induction false} BlobsWithSuffixMembers(entries: seq<TreeEntry>, suffix: string, e: TreeEntry)
    ensures e in BlobsWithSuffix(entries, suffix) <==> e in entries && e.kind == "blob" && HasSuffix(e.path, suffix)
  {
    if entries != [] {
      var init := entries[..|entries| - 1];
      BlobsWithSuffixMembers(init, suffix, e);
      assert entries == init + [entries[|entries| - 1]];
    }
  }

  /** Filtering a concatenation filters each part: kept entries stay in tree order. */
  lemma {:induction false} BlobsWithSuffixAppend(a: seq<TreeEntry>, b: seq<TreeEntry>, suffix: string)
    ensures BlobsWithSuffix(a + b, suffix) == BlobsWithSuffix(a, suffix) + BlobsWithSuffix(b, suffix)
    decreases |b|
  {
    if b == [] {
      assert a + b == a;
    } else {
      var b' := b[..|b| - 1];
      BlobsWithSuffixAppend(a, b', suffix);
      AppendInit(a, b);
    }
  }

  /** Filtering what was kept keeps all of it. */
  lemma {:induction false} BlobsWithSuffixIdempotent(entries: seq<TreeEntry>, suffix: string)
    ensures BlobsWithSuffix(BlobsWithSuffix(entries, suffix), suffix) == BlobsWithSuffix(entries, suffix)
  {
    if entries != [] {
      var init := entries[..|entries| - 1];
      var e := entries[|entries| - 1];
      var kept := if e.kind == "blob" && HasSuffix(e.path, suffix) then [e] else [];
      BlobsWithSuffixIdempotent(init, suffix);
      BlobsWithSuffixAppend(BlobsWithSuffix(init, suffix), kept, suffix);
    }
  }

  /** filterTreeEntries */
  method FilterTreeEntries(g: Getter, treeEntries: seq<TreeEntry>) returns (entries: seq<TreeEntry>)
    ensures entries == BlobsWithSuffix(treeEntries, g.suffix)
  {
    entries := [];
    for i := 0 to |treeEntries|
      invariant entries == BlobsWithSuffix(treeEntries[..i], g.suffix)
    {
      var entry := treeEntries[i];
      assert treeEntries[..i + 1][..i] == treeEntries[..i];
      if entry.kind == "blob" {
        if HasSuffix(entry.path, g.suffix) {
          entries := entries + [entry];
        }
      }
    }
    assert treeEntries[..|treeEntries|] == treeEntries;
  }

  /** The paths of `entries`, in order. */
  function Paths(entries: seq<TreeEntry>): (paths: seq<string>)
    ensures |paths| == |entries|
    ensures forall k :: 0 <= k < |entries| ==> paths[k] == entries[k].path
  {
    if entries == [] then [] else Paths(entries[..|entries| - 1]) + [entries[|entries| - 1].path]
  }

  /**
   * List: the paths of the blobs ending with the suffix, in tree order, or
   * the wrapped tree-lookup error. No match gives no paths and no error.
   */
  method List(g: Getter, remote: Remote) returns (files: seq<string>, err: Option<Error>)
    ensures GetTree(remote).Failure? ==> files == [] && err == Some(NewListError(g, GetTree(remote).error))
    ensures GetTree(remote).Success? ==> err == None && files == Paths(BlobsWithSuffix(GetTree(remote).value, g.suffix))
  {
    var tree := GetTree(remote);
    if tree.Failure? {
      return [], Some(NewListError(g, tree.error));
    }
    var entries := FilterTreeEntries(g, tree.value);
    files := [];
    for i := 0 to |entries|
      invariant files == Paths(entries[..i])
    {
      assert entries[..i + 1][..i] == entries[..i];
      files := files + [entries[i].path];
    }
    assert entries[..|entries|] == entries;
    err := None;
  }

  /** Every listed path names a blob of the tree and ends with the suffix; directories never appear. */
  lemma ListedPathsAreBlobs(g: Getter, tree: seq<TreeEntry>, k: nat)
    requires k < |BlobsWithSuffix(tree, g.suffix)|
    ensures var e := BlobsWithSuffix(tree, g.suffix)[k];
            e in tree && e.kind == "blob" && HasSuffix(Paths(BlobsWithSuffix(tree, g.suffix))[k], g.suffix)
  {
    BlobsWithSuffixMembers(tree, g.suffix, BlobsWithSuffix(tree, g.suffix)[k]);
  }

  // ---------------------------------------------------------------- createPathsToSHAs

  /** The path-to-SHA map of `entries`: every non-empty path, a later entry overwriting an earlier one. */
  function PathsToSHAs(entries: seq<TreeEntry>): map<string, string>
  {
    if entries == [] then map[]
    else
      var e := entries[|entries| - 1];
      var m := PathsToSHAs(entries[..|entries| - 1]);
      if e.path != "" then m[e.path := e.sha] else m
  }

  /** createPathsToSHAs */
  method CreatePathsToSHAs(entries: seq<TreeEntry>) returns (pathsToSHAs: map<string, string>)
    ensures pathsToSHAs == PathsToSHAs(entries)
  {
    pathsToSHAs := map[];
    for i := 0 to |entries|
      invariant pathsToSHAs == PathsToSHAs(entries[..i])
    {
      assert entries[..i + 1][..i] == entries[..i];
      var path := entries[i].path;
      if path != "" {
        pathsToSHAs := pathsToSHAs[path := entries[i].sha];
      }
    }
    assert entries[..|entries|] == entries;
  }

  /** The map has a key for every non-empty path of the tree, of any entry type, and for nothing else. */
  lemma {:induction false} PathsToSHAsKeys(entries: seq<TreeEntry>, path: string)
    ensures path in PathsToSHAs(entries) <==> path != "" && exists k :: 0 <= k < |entries| && entries[k].path == path
  {
    if entries != [] {
      var init := entries[..|entries| - 1];
      PathsToSHAsKeys(init, path);
      if path != "" && (exists k :: 0 <= k < |entries| && entries[k].path == path) {
        var k :| 0 <= k < |entries| && entries[k].path == path;
        if k < |init| {
          assert init[k].path == path;
        }
      }
    }
  }

  /** A path maps to the SHA of its last entry in the tree. */
  lemma {:induction false} PathsToSHAsLastWins(entries: seq<TreeEntry>, k: nat)
    requires k < |entries| && entries[k].path != ""
    requires forall l :: k < l < |entries| ==> entries[l].path != entries[k].path
    ensures entries[k].path in PathsToSHAs(entries)
    ensures PathsToSHAs(entries)[entries[k].path] == entries[k].sha
  {
    PathsToSHAsKeys(entries, entries[k].path);
    var n := |entries|;
    if k < n - 1 {
      var init := entries[..n - 1];
      PathsToSHAsLastWins(init, k);
      PathsToSHAsKeys(init, entries[k].path);
      assert init[k].path == entries[k].path;
    }
  }

  // ---------------------------------------------------------------- workers

  /** min */
  function Min(x: int, y: int): (r: int)
    ensures r <= x && r <= y
    ensures r == x || r == y
  {
    if x <= y then x else y
  }

  /** The number of download goroutines startDownloaders starts. */
  function Workers(g: Getter, numFilesToDownload: nat): int
  {
    Min(numFilesToDownload, g.maxRequests)
  }

  /**
   * Never more workers than files; at least one for a non-empty request only
   * when MaxRequests is positive: a MaxRequests of zero or less starts none,
   * there is no clamp to one.
   */
  lemma WorkersBounds(g: Getter, n: nat)
    ensures Workers(g, n) <= n
    ensures n >= 1 && g.maxRequests >= 1 ==> Workers(g, n) >= 1
    ensures g.maxRequests <= 0 ==> Workers(g, n) <= 0
  {
  }
}
