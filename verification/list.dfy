/**
 * The listing helpers of list/list.go: the blob filter over a decoded tree,
 * the suffix filter, the status check on the tree-API answer and the
 * newline-joined listing ListIgnoreFiles returns.
 */
module List {
  import opened Wrappers
  import opened Strings
  import opened Errors
  import opened Seqs

  /** fileInfo: one decoded record of the tree; a missing field reads as "". */
  datatype FileInfo = FileInfo(path: string, kind: string)

  /**
   * What the JSON decoder makes of a body: the records it filled in, and the
   * decode error, if any (records decoded before an error are kept).
   */
  datatype Decoded = Decoded(tree: seq<FileInfo>, decodeError: Option<Error>)

  /**
   * The tree-API request as the lister sees it: no response (the request
   * could not be built or sent), or a status code, the decoded body and the
   * error closing the body.
   */
  datatype TreeAnswer =
    | NoResponse(err: Error)
    | Answered(statusCode: int, body: Decoded, closeError: Option<Error>)

  // ---------------------------------------------------------------- parseGitTreeToFileNames

  /** The paths of the blob records, in tree order. */
  function BlobPaths(tree: seq<FileInfo>): seq<string>
  {
    if tree == [] then []
    else
      var f := tree[|tree| - 1];
      BlobPaths(tree[..|tree| - 1]) + (if f.kind == "blob" then [f.path] else [])
  }

  /** A path is listed exactly when some blob record carries it. */
  lemma {:induction false} BlobPathsMembers(tree: seq<FileInfo>, p: string)
    ensures p in BlobPaths(tree) <==> exists k :: 0 <= k < |tree| && tree[k].kind == "blob" && tree[k].path == p
  {
    if tree != [] {
      var init := tree[..|tree| - 1];
      BlobPathsMembers(init, p);
      if p in BlobPaths(tree) && p !in BlobPaths(init) {
        assert tree[|tree| - 1].kind == "blob" && tree[|tree| - 1].path == p;
      }
      if exists k :: 0 <= k < |tree| && tree[k].kind == "blob" && tree[k].path == p {
        var k :| 0 <= k < |tree| && tree[k].kind == "blob" && tree[k].path == p;
        if k < |tree| - 1 {
          assert init[k] == tree[k];
        }
      }
    }
  }

  /** Listing a concatenation lists each part, in order. */
  lemma {:induction false} BlobPathsAppend(a: seq<FileInfo>, b: seq<FileInfo>)
    ensures BlobPaths(a + b) == BlobPaths(a) + BlobPaths(b)
    decreases |b|
  {
    if b == [] {
      assert a + b == a;
    } else {
      BlobPathsAppend(a, b[..|b| - 1]);
      AppendInit(a, b);
    }
  }

  /**
   * parseGitTreeToFileNames: the blob paths of whatever was decoded, and the
   * decode error, passed on rather than swallowed.
   */
  method ParseGitTreeToFileNames(body: Decoded) returns (fileNames: seq<string>, err: Option<Error>)
    ensures fileNames == BlobPaths(body.tree)
    ensures err == body.decodeError
  {
    err := body.decodeError;
    fileNames := [];
    for i := 0 to |body.tree|
      invariant fileNames == BlobPaths(body.tree[..i])
    {
      assert body.tree[..i + 1][..i] == body.tree[..i];
      var fileInfo := body.tree[i];
      if fileInfo.kind == "blob" {
        fileNames := fileNames + [fileInfo.path];
      }
    }
    assert body.tree[..|body.tree|] == body.tree;
  }

  // ---------------------------------------------------------------- filterBySuffix

  /** The names that end with `suffix`, in their order. */
  function WithSuffix(names: seq<string>, suffix: string): seq<string>
  {
    if names == [] then []
    else
      var n := names[|names| - 1];
      WithSuffix(names[..|names| - 1], suffix) + (if HasSuffix(n, suffix) then [n] else [])
  }

  /** filterBySuffix */
  method FilterBySuffix(fileNames: seq<string>, suffix: string) returns (filtered: seq<string>)
    ensures filtered == WithSuffix(fileNames, suffix)
  {
    filtered := [];
    for i := 0 to |fileNames|
      invariant filtered == WithSuffix(fileNames[..i], suffix)
    {
      assert fileNames[..i + 1][..i] == fileNames[..i];
      if HasSuffix(fileNames[i], suffix) {
        filtered := filtered + [fileNames[i]];
      }
    }
    assert fileNames[..|fileNames|] == fileNames;
  }

  /** The kept names are exactly the ones that end with the suffix, and they keep their order. */
  lemma {:induction false} WithSuffixIsFilter(names: seq<string>, suffix: string)
    ensures Subsequence(WithSuffix(names, suffix), names)
    ensures forall n :: n in WithSuffix(names, suffix) <==> n in names && HasSuffix(n, suffix)
  {
    if names != [] {
      var init, last := names[..|names| - 1], names[|names| - 1];
      WithSuffixIsFilter(init, suffix);
      var w := WithSuffix(init, suffix);
      if HasSuffix(last, suffix) {
        assert (w + [last])[..|w|] == w;
      } else {
        assert w + [] == w;
        SubsequenceOfLonger(w, init, last);
      }
      assert names == init + [last];
    }
  }

  /** Filtering a concatenation filters each part. */
  lemma {:induction false} WithSuffixAppend(a: seq<string>, b: seq<string>, suffix: string)
    ensures WithSuffix(a + b, suffix) == WithSuffix(a, suffix) + WithSuffix(b, suffix)
    decreases |b|
  {
    if b == [] {
      assert a + b == a;
    } else {
      WithSuffixAppend(a, b[..|b| - 1], suffix);
      AppendInit(a, b);
    }
  }

  /** Filtering what was kept keeps all of it. */
  lemma {:induction false} WithSuffixIdempotent(names: seq<string>, suffix: string)
    ensures WithSuffix(WithSuffix(names, suffix), suffix) == WithSuffix(names, suffix)
  {
    if names != [] {
      var init, n := names[..|names| - 1], names[|names| - 1];
      var kept := if HasSuffix(n, suffix) then [n] else [];
      WithSuffixIdempotent(init, suffix);
      WithSuffixAppend(WithSuffix(init, suffix), kept, suffix);
    }
  }

  /** Every name ends with the empty suffix, so it keeps everything. */
  lemma {:induction false} WithEmptySuffix(names: seq<string>)
    ensures WithSuffix(names, "") == names
  {
    if names != [] {
      WithEmptySuffix(names[..|names| - 1]);
      var n := names[|names| - 1];
      assert n[|n|..] == "";
    }
  }

  // ---------------------------------------------------------------- getFileNamesFromTreeAPI

  /**
   * getFileNamesFromTreeAPI: no response passes its error on; a status other
   * than 200 is reported with its code; a decode error comes with the paths
   * decoded before it; otherwise the blob paths and the error of closing the body.
   */
  method GetFileNamesFromTreeAPI(answer: TreeAnswer) returns (fileNames: seq<string>, err: Option<Error>)
    ensures answer.NoResponse? ==> fileNames == [] && err == Some(answer.err)
    ensures answer.Answered? && answer.statusCode != 200 ==> fileNames == [] && err == Some(StatusError(answer.statusCode))
    ensures answer.Answered? && answer.statusCode == 200 ==>
              && fileNames == BlobPaths(answer.body.tree)
              && err == (if answer.body.decodeError.Some? then answer.body.decodeError else answer.closeError)
  {
    match answer
    case NoResponse(e) =>
      return [], Some(e);
    case Answered(code, body, closeError) =>
      if code != 200 {
        return [], Some(StatusError(code));
      }
      fileNames, err := ParseGitTreeToFileNames(body);
      if err.Some? {
        return;
      }
      err := closeError;
  }

  // ---------------------------------------------------------------- ListIgnoreFiles

  /** What ListIgnoreFiles lists for the names found: filtered only for a non-empty suffix. */
  function Listed(fileNames: seq<string>, suffix: string): seq<string>
  {
    if suffix != "" then WithSuffix(fileNames, suffix) else fileNames
  }

  /** The suffix check only saves work: filtering by "" would keep every name anyway. */
  lemma ListedIsFiltered(fileNames: seq<string>, suffix: string)
    ensures Listed(fileNames, suffix) == WithSuffix(fileNames, suffix)
  {
    if suffix == "" {
      WithEmptySuffix(fileNames);
    }
  }

  /**
   * ListIgnoreFiles: on an error the listing is empty; otherwise the listed
   * names joined by '\n', with no newline after the last.
   */
  method ListIgnoreFiles(answer: TreeAnswer, suffix: string) returns (namesString: string, err: Option<Error>)
    ensures answer.NoResponse? ==> namesString == "" && err == Some(answer.err)
    ensures answer.Answered? && answer.statusCode != 200 ==> namesString == "" && err == Some(StatusError(answer.statusCode))
    ensures answer.Answered? && answer.statusCode == 200 ==>
              var e := if answer.body.decodeError.Some? then answer.body.decodeError else answer.closeError;
              && err == e
              && namesString == (if e.Some? then "" else Join(Listed(BlobPaths(answer.body.tree), suffix), "\n"))
  {
    namesString := "";
    var fileNames;
    fileNames, err := GetFileNamesFromTreeAPI(answer);
    if err.Some? {
      return;
    }
    if suffix != "" {
      fileNames := FilterBySuffix(fileNames, suffix);
    }
    namesString := Join(fileNames, "\n");
  }
}
