/**
 * Go error values and the two error aggregates of the `errors` package:
 * FailedFile/FailedFiles (errors/failed_file.go) and
 * FailedSource/FailedSources (errors/errors.go).
 */
module Errors {
  import opened Wrappers
  import opened Strings

  /** An error value as far as the program looks at it: its text and what it wraps. */
  datatype Error =
    | Opaque(text: string)                   // errors.New, fmt.Errorf without %w, or a collaborator's error
    | Wrapped(prefix: string, cause: Error)  // fmt.Errorf("<prefix>: %w", cause)
    | Files(files: seq<FailedFile>)          // a FailedFiles used as an error
    | Sources(sources: seq<FailedSource>)    // a FailedSources used as an error

  /** A file that could not be retrieved; `err` is the optional underlying cause. */
  datatype FailedFile = FailedFile(name: string, message: string, err: Option<Error>)

  /** The name a FailedFile reports. */
  function FailedFileName(f: FailedFile): string
  {
    f.name
  }

  /** A source (URL) that could not be retrieved, with the error that says why. */
  datatype FailedSource = FailedSource(source: string, err: Error)

  /** err.Error() */
  function Text(e: Error): string
    decreases e, 2
  {
    match e
    case Opaque(t) => t
    case Wrapped(p, c) => p + ": " + Text(c)
    case Files(fs) => FailedFilesText(fs)
    case Sources(ss) => SourcesText(ss)
  }

  /** errors.Unwrap: only an error made with %w has a cause. */
  function Unwrap(e: Error): Option<Error>
  {
    if e.Wrapped? then Some(e.cause) else None
  }

  // ---------------------------------------------------------------- failed_file.go

  /** FailedFile.Error */
  function FailedFileError(f: FailedFile): (msg: string)
    ensures HasPrefix(msg, "failed to get " + f.name)
    ensures HasSuffix(msg, ": " + f.message)
    ensures |msg| == 16 + |f.name| + |f.message|
  {
    "failed to get " + f.name + ": " + f.message
  }

  /** FailedFile.Unwrap */
  function FailedFileUnwrap(f: FailedFile): Option<Error>
  {
    f.err
  }

  /**
   * The message of a FailedFile leaves its cause out, and Unwrap hands back
   * exactly the cause it was given, nil included.
   */
  lemma FailedFileCause(f: FailedFile, cause: Option<Error>)
    ensures FailedFileError(f.(err := cause)) == FailedFileError(f)
    ensures FailedFileUnwrap(f.(err := cause)) == cause
  {
  }

  function FileNames(files: seq<FailedFile>): (names: seq<string>)
    ensures |names| == |files|
    ensures forall k :: 0 <= k < |files| ==> names[k] == files[k].name
  {
    if files == [] then [] else FileNames(files[..|files| - 1]) + [files[|files| - 1].name]
  }

  function Reason(f: FailedFile): string
  {
    f.name + ": " + f.message
  }

  function Reasons(files: seq<FailedFile>): (reasons: seq<string>)
    ensures |reasons| == |files|
    ensures forall k :: 0 <= k < |files| ==> reasons[k] == Reason(files[k])
  {
    if files == [] then [] else Reasons(files[..|files| - 1]) + [Reason(files[|files| - 1])]
  }

  const FailedFilesHeader := "failed to get the following files: "

  /** The header of a FailedFiles message is a line the scanner keeps. */
  lemma FailedFilesHeaderIsLine()
    ensures IsLine(FailedFilesHeader)
  {
    var h := FailedFilesHeader;
    forall k | 0 <= k < |h|
      ensures h[k] != '\n'
    {
    }
    NoneIn(h, '\n');
  }

  /** The text of FailedFiles.Error. */
  function FailedFilesText(files: seq<FailedFile>): string
  {
    FailedFilesHeader + Join(FileNames(files), ", ") + "\n" + Join(Reasons(files), "\n") + "\n"
  }

  /** FailedFiles.Error: fills the names and the reasons by index, then joins them. */
  method FailedFilesError(files: seq<FailedFile>) returns (msg: string)
    ensures msg == FailedFilesText(files)
  {
    var fileNames := new string[|files|];
    var reasons := new string[|files|];
    for i := 0 to |files|
      invariant forall k :: 0 <= k < i ==> fileNames[k] == files[k].name
      invariant forall k :: 0 <= k < i ==> reasons[k] == files[k].name + ": " + files[k].message
    {
      fileNames[i] := files[i].name;
      reasons[i] := files[i].name + ": " + files[i].message;
    }
    assert fileNames[..] == FileNames(files);
    assert reasons[..] == Reasons(files);
    msg := FailedFilesHeader + Join(fileNames[..], ", ") + "\n" + Join(reasons[..], "\n") + "\n";
  }

  /** The message of an empty collection still has its summary line and two newlines. */
  lemma FailedFilesEmpty()
    ensures FailedFilesText([]) == "failed to get the following files: \n\n"
  {
  }

  /** The message always ends with a newline and starts with the summary line. */
  lemma FailedFilesFraming(files: seq<FailedFile>)
    ensures HasPrefix(FailedFilesText(files), FailedFilesHeader)
    ensures HasSuffix(FailedFilesText(files), "\n")
  {
  }

  function FailedFilesSummary(files: seq<FailedFile>): string
  {
    FailedFilesHeader + Join(FileNames(files), ", ")
  }

  /** A non-empty collection's message is its lines joined by '\n', with a final '\n'. */
  lemma FailedFilesTextAsLines(files: seq<FailedFile>)
    requires files != []
    ensures FailedFilesText(files) == Join([FailedFilesSummary(files)] + Reasons(files), "\n") + "\n"
  {
    var lines := [FailedFilesSummary(files)] + Reasons(files);
    assert lines[1..] == Reasons(files);
    JoinFront(lines, "\n");
  }

  lemma SummaryIsLine(files: seq<FailedFile>)
    requires forall k :: 0 <= k < |files| ==> IsLine(files[k].name)
    ensures IsLine(FailedFilesSummary(files))
  {
    var names := FileNames(files);
    JoinIsLine(names, ", ");
    FailedFilesHeaderIsLine();
    ConcatIsLine(FailedFilesHeader, Join(names, ", "));
  }

  lemma ReasonIsLine(f: FailedFile)
    requires IsLine(f.name) && IsLine(f.message)
    ensures IsLine(Reason(f))
  {
    ConcatIsLine(": ", f.message);
    ConcatIsLine(f.name, ": " + f.message);
    assert Reason(f) == f.name + (": " + f.message);
  }

  /**
   * Read line by line, the message is the summary line naming every file,
   * then one "name: message" line per file, in collection order (when no
   * name or message spans lines).
   */
  lemma FailedFilesLines(files: seq<FailedFile>, text: string)
    requires files != [] && text == FailedFilesText(files)
    requires forall k :: 0 <= k < |files| ==> IsLine(files[k].name) && IsLine(files[k].message)
    ensures ScanLines(text) == [FailedFilesSummary(files)] + Reasons(files)
  {
    FailedFilesTextAsLines(files);
    MessageLinesAreLines(files);
    ScanNewlineTerminated([FailedFilesSummary(files)] + Reasons(files));
  }

  lemma MessageLinesAreLines(files: seq<FailedFile>)
    requires forall k :: 0 <= k < |files| ==> IsLine(files[k].name) && IsLine(files[k].message)
    ensures var lines := [FailedFilesSummary(files)] + Reasons(files);
            forall k :: 0 <= k < |lines| ==> IsLine(lines[k])
  {
    var lines := [FailedFilesSummary(files)] + Reasons(files);
    SummaryIsLine(files);
    forall k | 1 <= k < |lines|
      ensures IsLine(lines[k])
    {
      assert lines[k] == Reason(files[k - 1]);
      ReasonIsLine(files[k - 1]);
    }
  }

  // ---------------------------------------------------------------- errors.go

  /** FailedSource.Error */
  function SourceMessage(fs: FailedSource): string
    decreases fs, 2
  {
    fs.source + " " + Text(fs.err)
  }

  function SourceMessages(ss: seq<FailedSource>): (msgs: seq<string>)
    ensures |msgs| == |ss|
    decreases ss, 0
  {
    if ss == [] then [] else SourceMessages(ss[..|ss| - 1]) + [SourceMessage(ss[|ss| - 1])]
  }

  const SourcesHeader := "Errors for the following URLs:"

  /** The header of a FailedSources message is a line the scanner keeps. */
  lemma SourcesHeaderIsLine()
    ensures IsLine(SourcesHeader)
  {
    var h := SourcesHeader;
    forall k | 0 <= k < |h|
      ensures h[k] != '\n'
    {
    }
    NoneIn(h, '\n');
  }

  /** The text of FailedSources.Error. */
  function SourcesText(ss: seq<FailedSource>): string
    decreases ss, 1
  {
    SourcesHeader + "\n" + Join(SourceMessages(ss), "\n")
  }

  /** One message per source, in insertion order. */
  lemma {:induction false} SourceMessagesAt(ss: seq<FailedSource>)
    ensures |SourceMessages(ss)| == |ss|
    ensures forall k :: 0 <= k < |ss| ==> SourceMessages(ss)[k] == SourceMessage(ss[k])
  {
    if ss != [] {
      SourceMessagesAt(ss[..|ss| - 1]);
    }
  }

  /** FailedSources: the sources collected so far, in the order they were added. */
  class FailedSources {
    var sources: seq<FailedSource>

    constructor ()
      ensures sources == []
    {
      sources := [];
    }

    /** FailedSources.Add: appends at the end and keeps every earlier entry. */
    method Add(fs: FailedSource)
      modifies this
      ensures sources == old(sources) + [fs]
      ensures |sources| == |old(sources)| + 1 && sources[..|old(sources)|] == old(sources)
    {
      sources := sources + [fs];
    }

    /** FailedSources.Error: fills one message per source by index, then joins them. */
    method Error() returns (msg: string)
      ensures msg == SourcesText(sources)
    {
      SourceMessagesAt(sources);
      var sourceErrors := new string[|sources|];
      for i := 0 to |sources|
        invariant forall k :: 0 <= k < i ==> sourceErrors[k] == SourceMessage(sources[k])
      {
        sourceErrors[i] := SourceMessage(sources[i]);
      }
      assert sourceErrors[..] == SourceMessages(sources);
      msg := SourcesHeader + "\n" + Join(sourceErrors[..], "\n");
    }
  }

  /** With nothing collected the message is the header line alone. */
  lemma SourcesEmpty()
    ensures SourcesText([]) == "Errors for the following URLs:\n"
  {
  }

  /** The message is the header line and the source lines joined by '\n'. */
  lemma SourcesTextAsLines(ss: seq<FailedSource>)
    requires ss != []
    ensures SourcesText(ss) == Join(SourceLines(ss), "\n")
  {
    var lines := SourceLines(ss);
    assert lines[1..] == SourceMessages(ss);
    JoinFront(lines, "\n");
  }

  /** The lines a FailedSources message is made of. */
  function SourceLines(ss: seq<FailedSource>): (lines: seq<string>)
    ensures |lines| == |ss| + 1
  {
    [SourcesHeader] + SourceMessages(ss)
  }

  lemma SourceLinesAreLines(ss: seq<FailedSource>)
    requires forall k :: 0 <= k < |ss| ==> IsLine(SourceMessage(ss[k]))
    ensures forall k :: 0 <= k < |SourceLines(ss)| ==> IsLine(SourceLines(ss)[k])
  {
    SourceMessagesAt(ss);
    SourcesHeaderIsLine();
    var lines := SourceLines(ss);
    forall k | 0 <= k < |lines|
      ensures IsLine(lines[k])
    {
      if k == 0 {
        assert lines[0] == SourcesHeader;
      } else {
        assert lines[k] == SourceMessages(ss)[k - 1] == SourceMessage(ss[k - 1]);
      }
    }
  }

  /** With nothing collected the message is the header line alone, newline-terminated. */
  lemma SourcesLinesEmpty(text: string)
    requires text == SourcesText([])
    ensures ScanLines(text) == SourceLines([])
  {
    var lines := SourceLines([]);
    assert lines == [SourcesHeader];
    SourcesHeaderIsLine();
    assert SourcesText([]) == Join(lines, "\n") + "\n";
    ScanNewlineTerminated(lines);
  }

  lemma SourcesLinesNonEmpty(ss: seq<FailedSource>, text: string)
    requires ss != [] && text == SourcesText(ss)
    requires forall k :: 0 <= k < |SourceLines(ss)| ==> IsLine(SourceLines(ss)[k])
    ensures ScanLines(text) == SourceLines(ss)
    ensures !HasSuffix(text, "\n")
  {
    var lines := SourceLines(ss);
    SourcesTextAsLines(ss);
    SourceMessagesAt(ss);
    assert lines[|lines| - 1] == SourceMessage(ss[|ss| - 1]);
    ScanJoinedLines(lines);
    var last := lines[|lines| - 1];
    var t := text;
    assert t == Join(lines[..|lines| - 1], "\n") + "\n" + last;
    assert t[|t| - 1] == last[|last| - 1] && last[|last| - 1] in last;
  }

  /**
   * Read line by line, the message is the header, then one line per source in
   * insertion order (when no message spans lines); unlike FailedFiles, a
   * non-empty message has no newline after its last line.
   */
  lemma SourcesLines(ss: seq<FailedSource>, text: string)
    requires text == SourcesText(ss)
    requires forall k :: 0 <= k < |ss| ==> IsLine(SourceMessage(ss[k]))
    ensures ScanLines(text) == SourceLines(ss)
    ensures ss != [] ==> !HasSuffix(text, "\n")
  {
    if ss == [] {
      SourcesLinesEmpty(text);
    } else {
      SourceLinesAreLines(ss);
      SourcesLinesNonEmpty(ss, text);
    }
  }

  // ---------------------------------------------------------------- status codes

  const StatusPrefix := "Got status code "

  /** fmt.Errorf("Got status code %d", code): the error for an HTTP status other than 200. */
  function StatusError(code: int): (e: Error)
    ensures Text(e) == StatusPrefix + FormatInt(code)
  {
    Opaque(StatusPrefix + FormatInt(code))
  }

  /** Different status codes give different errors. */
  lemma StatusErrorsDiffer(a: int, b: int)
    requires a != b
    ensures Text(StatusError(a)) != Text(StatusError(b))
  {
    if Text(StatusError(a)) == Text(StatusError(b)) {
      var p := |StatusPrefix|;
      assert FormatInt(a) == Text(StatusError(a))[p..];
      assert FormatInt(b) == Text(StatusError(b))[p..];
      FormatIntInjective(a, b);
    }
  }
}
