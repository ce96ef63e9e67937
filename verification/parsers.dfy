/**
 * The names-file parser of pkg/getignore/parsers.go: a names file lists one
 * gitignore file name per line; each line is trimmed and blank lines are
 * skipped. The reader is modelled by the text it yields.
 */
module GetIgnoreParsers {
  import opened Strings
  import opened Seqs

  /** The names `lines` list: every line trimmed, the blank ones dropped, in line order. */
  function NamesIn(lines: seq<string>): seq<string>
  {
    if lines == [] then []
    else
      var name := TrimSpace(lines[|lines| - 1]);
      NamesIn(lines[..|lines| - 1]) + (if name != "" then [name] else [])
  }

  /** One line more adds its trimmed text as a name, unless that is empty. */
  lemma NamesInPrefix(lines: seq<string>, i: int)
    requires 0 <= i < |lines|
    ensures var name := TrimSpace(lines[i]);
            NamesIn(lines[..i + 1]) == NamesIn(lines[..i]) + (if name != "" then [name] else [])
  {
    assert lines[..i + 1][..i] == lines[..i];
  }

  /**
   * ParseNamesFile: scans the text line by line and keeps every trimmed line
   * that is not empty. cmd/get.go holds a second copy of this function,
   * line for line the same, which is modelled by this method too.
   */
  method ParseNamesFile(namesFile: string) returns (a: seq<string>)
    ensures a == NamesIn(ScanLines(namesFile))
  {
    a := [];
    var lines := ScanLines(namesFile);
    for i := 0 to |lines|
      invariant a == NamesIn(lines[..i])
    {
      var name := TrimSpace(lines[i]);
      if |name| > 0 {
        a := a + [name];
      }
      NamesInPrefix(lines, i);
    }
    assert lines[..|lines|] == lines;
  }

  /**
   * The names are the trimmed lines, in line order, with the empty ones left
   * out: a name is listed exactly when some line trims to it and it is not empty.
   */
  lemma {:induction false} NamesAreTrimmedLines(lines: seq<string>)
    ensures Subsequence(NamesIn(lines), Map(TrimSpace, lines))
    ensures forall n :: n in NamesIn(lines) <==> n != "" && n in Map(TrimSpace, lines)
  {
    if lines != [] {
      var init, last := lines[..|lines| - 1], lines[|lines| - 1];
      NamesAreTrimmedLines(init);
      assert init + [last] == lines;
      MapSnoc(TrimSpace, init, last);
      var ns, name := NamesIn(init), TrimSpace(last);
      if name != "" {
        assert (ns + [name])[..|ns|] == ns;
      } else {
        assert ns + [] == ns;
        SubsequenceOfLonger(ns, Map(TrimSpace, init), name);
      }
    }
  }

  /** Every name is non-empty and already trimmed. */
  lemma NamesAreTrimmed(lines: seq<string>)
    ensures forall n :: n in NamesIn(lines) ==> n != "" && TrimSpace(n) == n
  {
    NamesAreTrimmedLines(lines);
    forall n | n in NamesIn(lines)
      ensures n != "" && TrimSpace(n) == n
    {
      var i :| 0 <= i < |lines| && Map(TrimSpace, lines)[i] == n;
      TrimSpaceIdempotent(lines[i]);
    }
  }

  /** A file whose lines are all blank lists no names, and only such a file. */
  lemma {:induction false} NoNamesExactlyWhenBlank(lines: seq<string>)
    ensures NamesIn(lines) == [] <==> forall k :: 0 <= k < |lines| ==> TrimSpace(lines[k]) == ""
  {
    if lines != [] {
      var init := lines[..|lines| - 1];
      NoNamesExactlyWhenBlank(init);
      assert forall k :: 0 <= k < |init| ==> init[k] == lines[k];
    }
  }

  /** The names of two pieces of a file are the names of the first followed by those of the second. */
  lemma {:induction false} NamesInAppend(a: seq<string>, b: seq<string>)
    ensures NamesIn(a + b) == NamesIn(a) + NamesIn(b)
    decreases |b|
  {
    if b == [] {
      assert a + b == a;
    } else {
      var init := b[..|b| - 1];
      NamesInAppend(a, init);
      AppendInit(a, b);
    }
  }

  /** Lines that are already names are listed unchanged. */
  lemma {:induction false} NamesOfNames(names: seq<string>)
    requires forall k :: 0 <= k < |names| ==> names[k] != "" && TrimSpace(names[k]) == names[k]
    ensures NamesIn(names) == names
  {
    if names != [] {
      var init := names[..|names| - 1];
      NamesOfNames(init);
      assert init + [names[|names| - 1]] == names;
    }
  }

  /** A name that is already trimmed and has no line break in it is a line the scanner keeps. */
  lemma NameIsLine(name: string)
    requires name != "" && TrimSpace(name) == name && '\n' !in name
    ensures IsLine(name)
  {
    TrimSpaceShape(name);
  }

  /** Writing names one per line and parsing the text gives the same names back. */
  lemma ParseJoinedNames(names: seq<string>)
    requires forall k :: 0 <= k < |names| ==> names[k] != "" && TrimSpace(names[k]) == names[k]
    requires forall k :: 0 <= k < |names| ==> '\n' !in names[k]
    ensures NamesIn(ScanLines(Join(names, "\n"))) == names
  {
    if names != [] {
      forall k | 0 <= k < |names|
        ensures IsLine(names[k])
      {
        NameIsLine(names[k]);
      }
      ScanJoinedLines(names);
    }
    NamesOfNames(names);
  }
}
