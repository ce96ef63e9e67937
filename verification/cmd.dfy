/**
 * How the get command of cmd/get.go collects the names to fetch: the
 * positional arguments, then the names listed in the names file when one
 * is given. Opening a file is a parameter that yields its text, or None
 * when the file cannot be opened.
 */
module Cmd {
  import opened Wrappers
  import opened Strings
  import opened GetIgnoreParsers

  /**
   * The names the names file contributes. A file that cannot be opened
   * reads as nothing: the open error is dropped and the scanner stops at
   * its first read.
   */
  function NamesFromFile(namesFilePath: string, open: string -> Option<string>): seq<string>
  {
    if namesFilePath == "" then []
    else
      match open(namesFilePath)
      case None => []
      case Some(text) => NamesIn(ScanLines(text))
  }

  /**
   * getNamesFromArguments: the positional arguments first, unchanged and in
   * order, then the names from the names file.
   */
  method GetNamesFromArguments(args: seq<string>, namesFilePath: string, open: string -> Option<string>)
    returns (names: seq<string>)
    ensures |names| >= |args| && names[..|args|] == args
    ensures names[|args|..] == NamesFromFile(namesFilePath, open)
  {
    names := args;
    if namesFilePath != "" {
      var namesFile := open(namesFilePath);
      var parsed: seq<string> := [];
      if namesFile.Some? {
        parsed := ParseNamesFile(namesFile.value);
      }
      names := names + parsed;
    }
  }

  /** Every name the names file adds is non-empty and trimmed; arguments are taken as given. */
  lemma FileNamesAreTrimmed(namesFilePath: string, open: string -> Option<string>)
    ensures forall n :: n in NamesFromFile(namesFilePath, open) ==> n != "" && TrimSpace(n) == n
  {
    if namesFilePath != "" && open(namesFilePath).Some? {
      NamesAreTrimmed(ScanLines(open(namesFilePath).value));
    }
  }
}
