/**
 * The HTTP getter of getters/httpgetter.go: every requested name becomes a
 * URL under the base URL, each URL is fetched, a response is turned into
 * gitignore contents line by line, and GetIgnoreFiles returns the contents
 * in request order with an error listing every source that failed.
 */
module Getters {
  import opened Wrappers
  import opened Strings
  import opened FilePath
  import opened Errors
  import opened ContentStructs
  import opened Pipeline

  /** HTTPGetter */
  datatype HTTPGetter = HTTPGetter(baseURL: string, defaultExtension: string, maxConnections: int)

  /** What the body of a response delivers: its text, then end of file or a read error. */
  datatype Body = Body(data: string, readError: Option<Error>)

  /** What http.Get gives for a URL: a response with a status code, or an error. */
  datatype HttpResult =
    | Responded(statusCode: int, body: Body)
    | TransportError(err: Error)

  /** The web as the getter sees it: the result of fetching each URL. */
  datatype Web = Web(fetch: string -> HttpResult)

  // ---------------------------------------------------------------- names and URLs

  /** getNameWithExtension: the default extension is added to a name that has none. */
  function GetNameWithExtension(getter: HTTPGetter, name: string): (r: string)
    ensures Ext(name) != "" ==> r == name
    ensures Ext(name) == "" ==> r == name + getter.defaultExtension
  {
    if Ext(name) == "" then name + getter.defaultExtension else name
  }

  /** nameToURL */
  function NameToURL(getter: HTTPGetter, name: string): (url: string)
    ensures HasPrefix(url, getter.baseURL + "/")
    ensures url[|getter.baseURL| + 1..] == GetNameWithExtension(getter, name)
  {
    var url := getter.baseURL + "/" + GetNameWithExtension(getter, name);
    assert url[..|getter.baseURL| + 1] == getter.baseURL + "/";
    url
  }

  /** Two names are fetched from the same URL exactly when they have the same name with extension. */
  lemma SameURL(getter: HTTPGetter, a: string, b: string)
    ensures NameToURL(getter, a) == NameToURL(getter, b) <==>
            GetNameWithExtension(getter, a) == GetNameWithExtension(getter, b)
  {
    var ua, ub := NameToURL(getter, a), NameToURL(getter, b);
    if ua == ub {
      assert ua[|getter.baseURL| + 1..] == ub[|getter.baseURL| + 1..];
    }
  }

  /**
   * With a dotted default extension such as ".gitignore", a name with the
   * extension added has an extension, so adding it again changes nothing.
   */
  lemma GetNameWithExtensionIdempotent(getter: HTTPGetter, name: string)
    requires getter.defaultExtension != "" && getter.defaultExtension[0] == '.' && '/' !in getter.defaultExtension
    ensures Ext(GetNameWithExtension(getter, name)) != ""
    ensures GetNameWithExtension(getter, GetNameWithExtension(getter, name)) == GetNameWithExtension(getter, name)
  {
    if Ext(name) == "" {
      ExtOfAppendedSuffix(name, getter.defaultExtension);
    }
  }

  // ---------------------------------------------------------------- getContent

  /**
   * The contents getContent builds from a body's text: every scanned line
   * followed by a single '\n'.
   */
  function Content(data: string): string
  {
    Terminated(ScanLines(data))
  }

  /**
   * getContent: scans the body line by line, appending each line and a
   * newline; the error is the scanner's, none at a clean end of file.
   */
  method GetContent(body: Body) returns (content: string, err: Option<Error>)
    ensures content == Content(body.data)
    ensures err == body.readError
  {
    var lines := ScanLines(body.data);
    content := "";
    for i := 0 to |lines|
      invariant content == Terminated(lines[..i])
    {
      assert lines[..i + 1][..i] == lines[..i];
      content := content + lines[i] + "\n";
    }
    assert lines[..|lines|] == lines;
    err := body.readError;
  }

  /** The contents are empty or end with a newline. */
  lemma ContentEndsWithNewline(data: string)
    ensures Content(data) == "" || HasSuffix(Content(data), "\n")
  {
    var lines := ScanLines(data);
    if lines != [] {
      var c := Content(data);
      assert c[|c| - 1..] == "\n";
    }
  }

  /**
   * Lines joined by '\n' come back from getContent as those lines, each
   * ended by '\n'.
   */
  lemma ContentOfJoinedLines(lines: seq<string>)
    requires lines != [] && lines[|lines| - 1] != ""
    requires forall k :: 0 <= k < |lines| ==> IsLine(lines[k])
    ensures Content(Join(lines, "\n")) == Join(lines, "\n") + "\n"
  {
    ScanJoinedLines(lines);
    TerminatedIsJoinedPlusNewline(lines);
  }

  /**
   * Contents already in the form getContent produces are produced again
   * unchanged: getContent is a normalisation.
   */
  lemma ContentIdempotent(data: string)
    requires forall k :: 0 <= k < |ScanLines(data)| ==> IsLine(ScanLines(data)[k])
    ensures Content(Content(data)) == Content(data)
  {
    var lines := ScanLines(data);
    if lines != [] {
      TerminatedIsJoinedPlusNewline(lines);
      ScanNewlineTerminated(lines);
    }
  }

  // ---------------------------------------------------------------- processResponse

  const ReadPrefix := "Error reading response body: "

  /**
   * processResponse: a transport error passes through unchanged, a status
   * other than 200 is reported with its code, and a read error is reported
   * by its text only (it is not wrapped); otherwise the contents.
   */
  function ProcessResponse(result: HttpResult): (r: Result<string, Error>)
    ensures result.TransportError? ==> r == Result.Failure(result.err)
    ensures result.Responded? && result.statusCode != 200 ==> r == Result.Failure(StatusError(result.statusCode))
    ensures result.Responded? && result.statusCode == 200 && result.body.readError.Some? ==>
              r.Failure? && Text(r.error) == ReadPrefix + Text(result.body.readError.value) && Unwrap(r.error) == None
    ensures r.Success? <==> result.Responded? && result.statusCode == 200 && result.body.readError == None
    ensures r.Success? ==> r.value == Content(result.body.data)
  {
    match result
    case TransportError(err) => Result.Failure(err)
    case Responded(code, body) =>
      if code != 200 then Result.Failure(StatusError(code))
      else if body.readError.Some? then Result.Failure(Opaque(ReadPrefix + Text(body.readError.value)))
      else Result.Success(Content(body.data))
  }

  // ---------------------------------------------------------------- downloadIgnoreFile

  /**
   * downloadIgnoreFile: a failure is reported against the URL that was
   * fetched; a success keeps the name as requested.
   */
  function DownloadIgnoreFile(getter: HTTPGetter, web: Web, name: string): (r: Outcome<NamedIgnoreContents, FailedSource>)
    ensures r.Success? ==> r.value.name == name
    ensures r.Failure? ==> r.reason.source == NameToURL(getter, name)
  {
    var url := NameToURL(getter, name);
    match ProcessResponse(web.fetch(url))
    case Failure(err) => Outcome.Failure(FailedSource(url, err))
    case Success(contents) => Outcome.Success(NamedIgnoreContents(name, contents))
  }

  /**
   * The outcome of downloadIgnoreFile is the outcome of processing the
   * response fetched from the name's URL.
   */
  lemma DownloadIgnoreFileOutcome(getter: HTTPGetter, web: Web, name: string)
    ensures var r, p := DownloadIgnoreFile(getter, web, name), ProcessResponse(web.fetch(NameToURL(getter, name)));
            && (r.Success? <==> p.Success?)
            && (r.Success? ==> r.value == NamedIgnoreContents(name, p.value))
            && (r.Failure? ==> r.reason == FailedSource(NameToURL(getter, name), p.error))
  {
  }

  /** downloadIgnoreFile as the download step of the fan-in. */
  function Download(getter: HTTPGetter, web: Web): (d: string -> Outcome<NamedIgnoreContents, FailedSource>)
    ensures SuccessesNamed(d, IgnoreContentsName)
    ensures forall name :: d(name).Failure? ==> d(name).reason.source == NameToURL(getter, name)
  {
    name => DownloadIgnoreFile(getter, web, name)
  }

  // ---------------------------------------------------------------- GetIgnoreFiles

  /** The error GetIgnoreFiles returns: the failed sources, when there are any. */
  function SourcesError(failed: seq<FailedSource>): (err: Option<Error>)
    ensures err.Some? <==> failed != []
    ensures err.Some? ==> Text(err.value) == SourcesText(failed)
  {
    if |failed| > 0 then Some(Sources(failed)) else None
  }

  /**
   * GetIgnoreFiles, with the goroutines replaced by `arrival`: the order in
   * which the outcomes of the requests (by index) reach the collectors.
   * Every arrival order gives the same contents, the retrieved ones sorted
   * by request index; the failed sources are reported in arrival order.
   * A negative MaxConnections makes the names channel panic, hence the
   * requirement.
   */
  method GetIgnoreFiles(getter: HTTPGetter, web: Web, names: seq<string>, arrival: seq<nat>)
    returns (contents: seq<NamedIgnoreContents>, err: Option<Error>)
    requires getter.maxConnections >= 0
    requires IsPermutation(arrival, |names|)
    ensures contents == Ordered(Successes(Downloads(Download(getter, web), names)), ByPosition(names, IgnoreContentsName))
    ensures err == SourcesError(Failures(Arrange(Downloads(Download(getter, web), names), arrival)))
  {
    var namesOrdering := CreateNamesOrdering(names);
    var retrieved, failedSources := Collect(Download(getter, web), names, arrival);
    contents := SortContents(retrieved, namesOrdering, IgnoreContentsName);
    SortedByOrdering(names, namesOrdering, IgnoreContentsName, contents);
    NamedKeyedByPosition(Download(getter, web), names, IgnoreContentsName);
    SortedCollectedIsOrdered(Download(getter, web), names, ByPosition(names, IgnoreContentsName), arrival, contents);
    err := SourcesError(failedSources);
  }

  /** When no name is requested twice, the contents come back in request order. */
  lemma GetIgnoreFilesInRequestOrder(getter: HTTPGetter, web: Web, names: seq<string>)
    requires forall k, l :: 0 <= k < l < |names| ==> names[k] != names[l]
    ensures Ordered(Successes(Downloads(Download(getter, web), names)), ByPosition(names, IgnoreContentsName))
            == Successes(Downloads(Download(getter, web), names))
  {
    NamedKeyedByPosition(Download(getter, web), names, IgnoreContentsName);
    SuccessesInRequestOrder(Download(getter, web), names, ByPosition(names, IgnoreContentsName));
  }
}
