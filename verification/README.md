# getignore in Dafny

This project models the core of getignore, a Go command-line tool. The tool
fetches gitignore template files from GitHub, either through the Git tree API
or over plain HTTP. It concatenates them into one file, with a `#` banner per
template, and can list the templates that are available.

The model covers these parts of the tool:

- **The fetch-and-combine pipelines.**
  - `Get` of both tree-API getters (`pkg/github/getter.go` and its predecessor `github/getter.go`).
  - `GetIgnoreFiles` of the HTTP getter (`getters/httpgetter.go`).
  - The goroutine fan-out becomes a sequential loop. An `arrival` permutation of the request indices gives the order in which the outcomes reach the collectors.
  - The model proves that the returned contents do not depend on that order. They are the successful downloads sorted by request index, and equal the successes in request order when no name is requested twice.
  - The error is present exactly when some request failed.
- **The per-name steps.** Suffix normalisation, the path-to-SHA map, the three-way classification of `getBlob`, and extension defaulting and URL building. Response classification and the line-by-line body copy.
- **Listing.** The blob and suffix filters, the status check on the tree answer, and the newline-joined listing.
- **The output writer and the display name.**
- **The error aggregates.** `FailedFile`/`FailedFiles` and `FailedSource`/`FailedSources` with their exact message formats.
- **The names-file parser and the order of names on the command line.**
- **The two legacy URL builders.**

The Go library functions the core relies on are modelled in `Strings` and
`FilePath`, each with the property the core needs: `strings.TrimSpace`,
`strings.Join`, `bufio.Scanner` line splitting, `filepath.Base`,
`filepath.Ext` and `%d` formatting.

The module layout follows the repository, one module per source file:

| module | models |
|---|---|
| `Pipeline` | the goroutine fan-in, the name ordering and the in-place sort |
| `TreeApi` | the code both tree-API getters share |
| `PkgGithub` | `pkg/github/getter.go` |
| `Github` | `github/getter.go` |
| `Getters` | `getters/httpgetter.go` |
| `List` | `list/list.go` |
| `Writers` | `writers/writers.go` |
| `Errors` | `errors/*.go` |
| `ContentStructs` | `contentstructs/*.go` |
| `GetIgnoreParsers` | `pkg/getignore/parsers.go` |
| `Cmd` | `cmd/get.go` |
| `GetIgnoreMain` | `getignore.go` |
| `IgnoreMe` | `ignoreme.go` |

The network, the GitHub client and the HTTP client are parameters of these
functions and methods:

- A `Remote` gives the branch's tree SHA, the tree for a SHA, and the blob for a SHA.
- A `Web` gives the result of fetching a URL.
- A `TreeAnswer` gives the answer to the tree-API request of `list/list.go`.
- Opening the names file is a function from a path to its text, or None.

## Model

| member | source | states |
|---|---|---|
| Pipeline.OutcomesPartition | pkg/github/getter.go:324-337 | every outcome is collected once, as a success or as a failure: the two collections together are as long as the outcomes |
| Pipeline.SuccessesCount | pkg/github/getter.go:324-337 | the collected contents are exactly the values of the success outcomes, each counted as often as it arrived |
| Pipeline.FailuresCount | pkg/github/getter.go:356-367 | the collected failures are exactly the reasons of the failure outcomes, with multiplicity |
| Pipeline.InSuccesses | pkg/github/getter.go:324-337 | a value is among the collected contents iff some download delivered it |
| Pipeline.FailuresEmpty | pkg/github/getter.go:170-172 | the failure collection is empty iff every outcome was a success (both directions) |
| Pipeline.SuccessesOfReordering | pkg/github/getter.go:324-337 | outcomes that arrive in a different order give the same successes, as a multiset |
| Pipeline.FailuresOfReordering | pkg/github/getter.go:356-367 | outcomes that arrive in a different order give the same failures, as a multiset |
| Pipeline.ArrangePermutation | pkg/github/getter.go:159-166 | receiving the outcomes in any arrival order receives each of them exactly once |
| Pipeline.SuccessesAnyArrival | pkg/github/getter.go:324-337 | whatever the arrival order, the same contents are collected, each as often |
| Pipeline.FailuresAnyArrival | pkg/github/getter.go:356-367 | whatever the arrival order, the same failures are collected; there is a failure in every order or in none |
| Pipeline.Collect | pkg/github/getter.go:159-168 | the collectors' loop: each arriving outcome is appended to the contents or to the failures, which end up as the successes and failures of the outcomes in arrival order |
| Pipeline.Position | pkg/github/getter.go:303-309 | the index a name→index map filled in request order holds: the name's last occurrence, below the length, with no later occurrence; 0 for a name that was not requested |
| Pipeline.PositionInjective | pkg/github/getter.go:303-309 | two requested names with the same index are the same name |
| Pipeline.PositionOfDistinct | pkg/github/getter.go:303-309 | when no name repeats, a name's index is its request position |
| Pipeline.CreateNamesOrdering | pkg/github/getter.go:303-309 | the map has exactly the requested names as keys, each mapped to its last index |
| Pipeline.OrderOfIsPosition | pkg/github/getter.go:352-354 | looking a name up in that map gives its position; a missing name reads as 0 instead of raising an error |
| Pipeline.Swap | pkg/github/getter.go:348-350 | the two entries trade places, every other entry stays, and the elements are the same |
| Pipeline.SortByKey | pkg/github/getter.go:335 | sort.Sort leaves the contents sorted non-decreasingly by their index and a permutation of what was collected |
| Pipeline.InsertLast | pkg/github/getter.go:335 | one insertion step extends the sorted prefix by one element and keeps the elements |
| Pipeline.Insert | pkg/github/getter.go:335 | inserting into a sorted sequence keeps it sorted and adds exactly that element |
| Pipeline.Ordered | pkg/github/getter.go:324-354 | the reference result: the contents sorted by key, a permutation of them |
| Pipeline.SortedPermutationUnique | pkg/github/getter.go:335 | two sorted permutations of the same contents are equal when no two different contents share a key, so an unstable sort has only one result |
| Pipeline.SuccessesSingledOut | pkg/github/getter.go:303-309 | contents keyed by the request index of their name never share a key unless they are equal |
| Pipeline.SortedCollectedIsOrdered | pkg/github/getter.go:145-174 | whatever the arrival order, the collected contents once sorted by index are the same sequence |
| Pipeline.SuccessesInRequestOrder | pkg/github/getter.go:145-174 | when no name is requested twice, that sequence is the successes in request order |
| Pipeline.OrderedOfSorted | pkg/github/getter.go:335 | contents already in key order come back unchanged |
| Pipeline.SortContents | pkg/github/getter.go:335-354 | the sort.Sort of every getter: the contents in non-decreasing order of `ordering[name]`, a permutation of what was collected |
| Pipeline.SortedByOrdering | pkg/github/getter.go:303-309 | with the map built from the requested names, sorting by `ordering[name]` is sorting by request index |
| Pipeline.NamedKeyedByPosition | pkg/github/getter.go:195-199 | when every success carries the item it was requested for, its sort key is that item's request index |
| Pipeline.EveryItemAccountedFor | pkg/github/getter.go:159-168 | when successes and failures both name their item, every requested item is among the collected contents or among the failures |
| TreeApi.GetTree | pkg/github/getter.go:231-245 | the tree lookup fails with "unable to get branch information", then "no branch information received" for an empty SHA, then "unable to get tree information"; otherwise it gives the tree |
| TreeApi.TreeErrorsDistinct | github/getter.go:213-227 | the three lookup failures have different messages |
| TreeApi.NewListError | pkg/github/getter.go:211-219 | the List error reads "error listing contents of O/R at B: …" and unwraps to the cause |
| TreeApi.NewGetError | pkg/github/getter.go:221-229 | the Get error reads "error getting files from O/R at B: …" and unwraps to the cause |
| TreeApi.ListAndGetErrorsDiffer | github/getter.go:205-211 | a List error and a Get error never have the same text |
| TreeApi.FailuresError | pkg/github/getter.go:168-173 | Get's error is present iff some file failed, and it unwraps to the FailedFiles |
| TreeApi.BlobsWithSuffixMembers | pkg/github/getter.go:247-257 | an entry is kept iff it is in the tree, has type "blob" and its path ends with the suffix (both directions) |
| TreeApi.BlobsWithSuffixAppend | pkg/github/getter.go:247-257 | filtering a concatenation filters each part, so kept entries stay in tree order |
| TreeApi.BlobsWithSuffixIdempotent | pkg/github/getter.go:247-257 | filtering the kept entries again changes nothing |
| TreeApi.FilterTreeEntries | pkg/github/getter.go:247-257 | the loop keeps the blob entries that end with the suffix, in tree order |
| TreeApi.List | pkg/github/getter.go:131-142 | List returns the wrapped lookup error and no paths, or the paths of the kept entries in tree order and no error; an empty tree gives no paths and no error |
| TreeApi.ListedPathsAreBlobs | github/getter.go:229-239 | every listed path belongs to a blob of the tree and ends with the suffix, so directories never appear |
| TreeApi.CreatePathsToSHAs | pkg/github/getter.go:286-294 | the loop builds the path-to-SHA map of the entries |
| TreeApi.PathsToSHAsKeys | pkg/github/getter.go:286-294 | the keys are exactly the non-empty paths of entries of any type |
| TreeApi.PathsToSHAsLastWins | pkg/github/getter.go:286-294 | a path maps to the SHA of its last entry, so a later duplicate overwrites an earlier one |
| TreeApi.Min | pkg/github/getter.go:296-301 | the minimum is one of the two arguments and at most both |
| TreeApi.WorkersBounds | pkg/github/getter.go:259-272 | never more workers than files; at least one only when MaxRequests is positive; none when MaxRequests ≤ 0 |
| PkgGithub.AllSuffixedAt | pkg/github/getter.go:274-284 | position by position, each path is its name, suffixed |
| PkgGithub.EnsureSuffix | pkg/github/getter.go:278-281 | one name gets the suffix iff its last element has no extension |
| PkgGithub.EnsureSuffixes | pkg/github/getter.go:274-284 | the preallocated slice is filled with the suffixed names, same length and order |
| PkgGithub.SuffixedCases | pkg/github/getter.go:278-281 | a name with an extension is never altered; one without gets exactly the suffix and then ends with it |
| PkgGithub.SuffixedIdempotent | pkg/github/getter.go:278-281 | with a suffix that starts with '.' and has no '/', a suffixed name has an extension and suffixing it again changes nothing |
| PkgGithub.EnsureSuffixesIdempotent | pkg/github/getter.go:274-284 | ensureSuffixes applied twice equals ensureSuffixes applied once for such a suffix |
| PkgGithub.GetBlob | pkg/github/getter.go:183-208 | one outcome per name: success with the blob text iff the name is in the map and its blob downloads; "not present in file tree" with no cause and no request for a missing name; "failed to download" with the cause otherwise |
| PkgGithub.Download | pkg/github/getter.go:183-208 | every success carries the requested path and every failed file names it, so the contents sort by request index and every requested path is retrieved or failed |
| PkgGithub.Get | pkg/github/getter.go:145-174 | a failed lookup gives no contents and the wrapped lookup error; otherwise, for every arrival order, the contents are the successes for the suffixed names sorted by request index, and the error is present iff some file failed |
| PkgGithub.GetInRequestOrder | pkg/github/getter.go:145-174 | with no two names giving the same path after ensureSuffixes, the contents are the successes in request order ("a" and "a.gitignore" are the same path) |
| Github.GetBlob | github/getter.go:176-203 | the same three-way classification as the pkg variant, on the path exactly as given |
| Github.Download | github/getter.go:176-203 | every success carries the requested path and every failed file names it, so the contents sort by request index and every requested path is retrieved or failed |
| Github.Get | github/getter.go:146-174 | like PkgGithub.Get with no suffix normalisation: the paths are looked up verbatim |
| Github.GetInRequestOrder | github/getter.go:146-174 | with no repeated path, the contents are the successes in request order |
| Getters.GetNameWithExtension | getters/httpgetter.go:88-93 | the default extension is appended iff the name has no extension |
| Getters.NameToURL | getters/httpgetter.go:82-86 | the URL is the base URL, '/', and the name with its extension |
| Getters.SameURL | getters/httpgetter.go:82-93 | two names share a URL iff they have the same name with extension |
| Getters.GetNameWithExtensionIdempotent | getters/httpgetter.go:88-93 | with a dotted default extension, defaulting twice equals defaulting once |
| Getters.GetContent | getters/httpgetter.go:95-102 | the scanner loop yields every scanned line followed by one newline, and the scanner's error |
| Getters.ContentEndsWithNewline | getters/httpgetter.go:95-102 | the contents are empty or end with '\n' |
| Getters.ContentOfJoinedLines | getters/httpgetter.go:95-102 | lines joined by '\n' come back as those lines, each followed by '\n' |
| Getters.ContentIdempotent | getters/httpgetter.go:95-102 | copying contents already in that form gives them back unchanged |
| Getters.ProcessResponse | getters/httpgetter.go:104-118 | a transport error passes through; a status other than 200 gives "Got status code N"; a read error gives "Error reading response body: …" without wrapping; success iff status 200 and no read error, with the copied body |
| Getters.DownloadIgnoreFile | getters/httpgetter.go:70-80 | a success keeps the name as requested; a failure is reported against the fetched URL |
| Getters.DownloadIgnoreFileOutcome | getters/httpgetter.go:70-80 | the outcome is the processed response of the name's URL |
| Getters.Download | getters/httpgetter.go:70-80 | every success carries the requested name, and every failed source is the URL built from it |
| Getters.SourcesError | getters/httpgetter.go:48-53 | the error is present iff some source failed, and reads as the FailedSources message |
| Getters.GetIgnoreFiles | getters/httpgetter.go:28-54 | for every arrival order, the contents are the successes sorted by request index, and the error lists the failed sources in arrival order iff there are any |
| Getters.GetIgnoreFilesInRequestOrder | getters/httpgetter.go:28-54 | with no repeated name, the contents are in request order |
| List.BlobPathsMembers | list/list.go:94-104 | a path is listed iff some blob record carries it |
| List.BlobPathsAppend | list/list.go:94-104 | listing a concatenation lists each part in order |
| List.ParseGitTreeToFileNames | list/list.go:94-104 | the blob paths of the decoded records in tree order, and the decode error, passed on |
| List.FilterBySuffix | list/list.go:106-113 | the loop keeps the names that end with the suffix |
| List.WithSuffixIsFilter | list/list.go:106-113 | the result is a subsequence of the input, and a name is kept iff it ends with the suffix |
| List.WithSuffixAppend | list/list.go:106-113 | filtering a concatenation filters each part |
| List.WithSuffixIdempotent | list/list.go:106-113 | filtering twice equals filtering once |
| List.WithEmptySuffix | list/list.go:106-113 | the empty suffix keeps every name |
| List.GetFileNamesFromTreeAPI | list/list.go:58-78 | no response passes its error on; a status other than 200 gives "Got status code N" and no names; otherwise the blob paths, with the decode error or else the close error |
| List.ListedIsFiltered | list/list.go:51-53 | skipping the filter for an empty suffix gives the same names as filtering |
| List.ListIgnoreFiles | list/list.go:44-56 | on an error an empty listing; otherwise the filtered names joined by '\n' with no trailing newline |
| Writers.DecorateNameIsJoin | writers/writers.go:31-37 | the banner is the hash line, "# name #" and the hash line, each ended by '\n'; the hash lines are exactly as long as the name line |
| Writers.SectionsPrefix | writers/writers.go:15-24 | one entry more adds "\n\n" (except before the first) and that entry's block |
| Writers.IgnoreFileTextIsJoinedBlocks | writers/writers.go:15-24 | the written text is the blocks in input order joined by one blank line |
| Writers.WriteSections | writers/writers.go:15-24 | the loop writes, per entry, the separator, the banner of its display name and its trimmed contents |
| Writers.WriteBlock | writers/writers.go:19-23 | one block: the banner, then the trimmed contents and '\n' when they are not empty |
| Writers.WriteIgnoreFile | writers/writers.go:13-29 | the text written is the blocks of the entries joined by "\n\n" |
| Writers.WriteNothing | writers/writers.go:15-24 | no entries write nothing |
| Writers.BlockEndsWithNewline | writers/writers.go:19-23 | every block ends with '\n' |
| Writers.BlockIgnoresSurroundingSpace | writers/writers.go:20 | white space around the contents makes no difference to the block |
| Writers.BlankContentsWriteBannerOnly | writers/writers.go:20-23 | contents of white space only leave the banner alone |
| Errors.FailedFileError | errors/failed_file.go:15-17 | "failed to get NAME: MESSAGE"; the wrapped error is not part of it |
| Errors.FailedFileCause | errors/failed_file.go:15-21 | changing the cause leaves the message unchanged, and Unwrap returns the cause exactly, nil included |
| Errors.FailedFilesError | errors/failed_file.go:26-36 | the loop fills names and reasons by index; the message is the header, the names joined by ", ", '\n', the reasons joined by '\n', and '\n' |
| Errors.FailedFilesEmpty | errors/failed_file.go:26-36 | an empty collection gives "failed to get the following files: \n\n" |
| Errors.FailedFilesFraming | errors/failed_file.go:35 | the message starts with the header and always ends with '\n' |
| Errors.FailedFilesLines | errors/failed_file.go:26-36 | read line by line, the message is the summary line and then one "name: message" line per file, in collection order |
| Errors.FailedSources.Add | errors/errors.go:24-26 | appends at the end: one longer, and every earlier entry unchanged |
| Errors.FailedSources.Error | errors/errors.go:28-35 | the loop fills one message per source; the message is the header line and the messages joined by '\n' |
| Errors.SourcesEmpty | errors/errors.go:28-35 | an empty collection gives exactly "Errors for the following URLs:\n" |
| Errors.SourcesLines | errors/errors.go:28-35 | read line by line, the message is the header and then one "SOURCE ERROR" line per source in insertion order; a non-empty message has no trailing newline |
| Errors.StatusError | getters/httpgetter.go:108 | "Got status code " followed by the decimal code |
| Errors.StatusErrorsDiffer | getters/httpgetter.go:108 | different status codes give different messages |
| ContentStructs.DisplayNameOf | contentstructs/contentstructs.go:17-20 | the display name followed by the extension of the base name is the base name; it has no '/' when the name has a character other than '/' |
| ContentStructs.DisplayNameIgnoresDirectory | contentstructs/named_contents.go:18 | only the last path element matters |
| ContentStructs.DisplayNameOfPlainName | contentstructs/named_contents.go:17-20 | a name without '.' or '/' is its own display name ("Vim") |
| ContentStructs.DisplayNameStripsLastExtension | contentstructs/contentstructs.go:19 | any extension is stripped, not only ".gitignore", and only the last one |
| ContentStructs.DisplayNameOfPath | contentstructs/named_contents.go:17-20 | a directory and an extension together: "Global/Vim.gitignore" gives "Vim" |
| GetIgnoreParsers.ParseNamesFile | pkg/getignore/parsers.go:10-20 | the scanner loop keeps every trimmed line that is not empty, in line order |
| GetIgnoreParsers.NamesAreTrimmedLines | pkg/getignore/parsers.go:12-18 | the names are a subsequence of the trimmed lines, and a name is listed iff it is not empty and some line trims to it |
| GetIgnoreParsers.NamesAreTrimmed | pkg/getignore/parsers.go:14-17 | every name is non-empty and already trimmed |
| GetIgnoreParsers.NoNamesExactlyWhenBlank | pkg/getignore/parsers.go:11-19 | no names iff every line is blank |
| GetIgnoreParsers.NamesInAppend | pkg/getignore/parsers.go:13-18 | the names of two pieces are the names of the first followed by those of the second |
| GetIgnoreParsers.ParseJoinedNames | pkg/getignore/parsers.go:10-20 | parsing names written one per line gives the same names back |
| Cmd.GetNamesFromArguments | cmd/get.go:62-70 | the positional arguments first, unchanged and in order, then the names from the names file |
| Cmd.FileNamesAreTrimmed | cmd/get.go:73-83 | every name the names file adds is non-empty and trimmed |
| GetIgnoreMain.IgnoreFetcher.NameToUrl | getignore.go:15-17 | the URL starts with "base/", ends with ".gitignore" and holds the name between them, whatever the name ends with |
| GetIgnoreMain.IgnoreFetcher.NamesToUrls | getignore.go:7-13 | one URL per received name, in the order received |
| GetIgnoreMain.NameOfNameToUrl | getignore.go:15-17 | the name can be read back from its URL |
| GetIgnoreMain.NameToUrlInjective | getignore.go:15-17 | for a fixed base URL, different names give different URLs |
| GetIgnoreMain.UrlsGiveBackNames | getignore.go:7-17 | the names can be read back, in order, from the URLs sent |
| IgnoreMe.IgnoreFetcher.NameToUrl | ignoreme.go:7-9 | the URL is 11 characters longer than base and name together, starts with "base/" and ends with the name and ".gitignore" |
| IgnoreMe.NameToUrlInjective | ignoreme.go:7-9 | for a fixed base URL, different names give different URLs |
| IgnoreMe.ExtensionAppendedAgain | ignoreme.go:8 | a name that already ends in ".gitignore" gets it a second time |
| IgnoreMe.GoTemplateUrl | ignoreme.go:7-9 | base "https://github.com/github/gitignore" and "Go" give ".../Go.gitignore" |
| Strings.TrimSpaceShape | pkg/getignore/parsers.go:14 | TrimSpace keeps a slice with only white space around it and neither starts nor ends with white space |
| Strings.TrimSpaceIdempotent | writers/writers.go:20 | trimming twice equals trimming once |
| Strings.ScanJoinedLines | pkg/getignore/parsers.go:12-13 | lines joined by '\n' scan back to those lines |
| Strings.ScanNewlineTerminated | getters/httpgetter.go:96-98 | lines each followed by '\n' scan back to those lines |
| Strings.ParseFormatNat | getters/httpgetter.go:108 | the decimal text of a number reads back as that number |
| Strings.FormatIntInjective | getters/httpgetter.go:108 | different integers have different decimal texts |
| FilePath.ExtShape | contentstructs/contentstructs.go:19 | filepath.Ext is a suffix, empty iff the last element has no '.', and otherwise a '.' with no other '.' or '/' after it |
| FilePath.BaseIgnoresDirectory | contentstructs/contentstructs.go:18 | filepath.Base of "dir/x" is the base of x |
| FilePath.ExtOfAppendedSuffix | pkg/github/getter.go:278-281 | a suffix that starts with '.' and has no '/' gives any name an extension |
| FilePath.ExtOfAppendedExtension | contentstructs/contentstructs.go:19 | the extension of a name ending in a dotted suffix with no further '.' or '/' is that suffix |

## Left out

- Network access is left out: the GitHub client, `http.Get`, request headers and the client construction in `NewGetter`. The `Remote`, `Web` and `TreeAnswer` parameters stand for it, and JSON decoding is replaced by pre-decoded records.
- Concurrency is left out.
  - Goroutines, channels and WaitGroups become a sequential loop over an arbitrary arrival permutation.
  - In the tree-API getters, `wg.Add(1)` runs after the send, so `Done` can race ahead of `Add`. This is not modelled.
  - With names to fetch and MaxRequests ≤ 0 no worker starts and `wg.Wait` never returns. `PkgGithub.Get` and `Github.Get` require the lookup to fail, no names, or MaxRequests ≥ 1, and `TreeApi.WorkersBounds` states the missing lower bound.
  - In the HTTP getter, MaxConnections only sizes the names channel. A negative value makes `make` panic, hence the requirement on `Getters.GetIgnoreFiles`; the value bounds nothing else.
- I/O is left out.
  - The writer's buffering and double flush are left out; the writer is modelled by the text written.
  - Output-file handling in `cmd/get.go` is left out.
  - The ignored `os.Open` error reads as a file with no names.
  - The scanner's token-size limit is left out: lines of any length are scanned.
- FilePath.Base, `FilePath.Ext`, `ContentStructs.DisplayNameOf` and `PkgGithub.EnsureSuffix` model `filepath` on a Unix host: '/' is the only separator and there are no volume names. On Windows Go also splits at '\\' and after a volume name, so `DisplayName("Global\\Vim.gitignore")` is "Vim" there but "Global\\Vim" in the model, and `ensureSuffixes` differs in the same way.
- Text is a sequence of characters. `len` counts bytes in Go, so `Writers.DecorateName` matches the source only for names of one-byte characters. White space is the Unicode set `strings.TrimSpace` uses.
- A `FailedSource` always has an error. In Go a nil `Err` makes `Error()` panic.
- Go's `sort.Sort` is not stable, and its pdqsort is modelled by an insertion sort. Both `Pipeline.SortByKey` and Go's sort promise only a sorted permutation. `Pipeline.SortedPermutationUnique` shows that any such result is the same sequence when no two different contents share a key. The getters meet that condition only under the assumption of the next line.
- Pipeline.Downloads, `Web.fetch` and `Remote.blobFor`: each download is a function of the requested name, URL or SHA. Every request for the same name is therefore assumed to get the same answer. In Go each request is a separate network call, so a name requested twice can get two different answers: one success and one failure, or two bodies. Both copies then share one sort key, and the unstable sort can put them in either order depending on arrival. The arrival-order independence of `Pipeline.SortedCollectedIsOrdered`, `PkgGithub.Get`, `Github.Get` and `Getters.GetIgnoreFiles` rests on this assumption whenever a name repeats. When no requested item repeats it does not: every key is then distinct (`Pipeline.SuccessesInRequestOrder`). For `PkgGithub.Get` the items are the paths after ensureSuffixes, so "a" and "a.gitignore" count as a repeat.
- `getters/httpgetter.go` appends `FailedSource` values to `errors.FailedSources` as though it were a slice, while `errors/errors.go` declares a struct with a `Sources` field of pointers. The model reads the collection as the sequence of failed sources in both places.
- The `pkg/getignore` types `NamedContents` and `FailedFile` are not part of this model. `PkgGithub` uses the `contentstructs` and `errors` types, which have the same fields.
- `cmd/get.go` holds a line-for-line copy of `ParseNamesFile`. `GetIgnoreParsers.ParseNamesFile` models both copies.
- The stub `GitHubLister.List` in `list/list.go` always returns nothing and is not modelled. `list/githublister.go`, the CLI flag tables and the constants files are not modelled either.
- The literal test inputs of the parser tests are stated as general lemmas: `NamesAreTrimmedLines`, `NoNamesExactlyWhenBlank` and `ParseJoinedNames`.
- Three behaviours of the code are modelled as written:
  - the worker count has no lower bound of one (`TreeApi.WorkersBounds`);
  - a repeated name sorts by its last occurrence (`Pipeline.Position`);
  - a name missing from the ordering map sorts as index 0 (`Pipeline.OrderOfIsPosition`).
