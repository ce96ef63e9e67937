/**
 * The gitignore file writer of writers/writers.go: every NamedContents
 * becomes a block of a hash banner around its display name followed by its
 * trimmed contents, and blocks are separated by a blank line. The writer is
 * modelled by the text it is given.
 */
module Writers {
  import opened Strings
  import opened ContentStructs
  import opened Seqs

  /** decorateName: the name between two lines of '#' exactly as wide as "# name #", each line ended by '\n'. */
  function DecorateName(name: string): string
  {
    var fullHashLine := Repeat('#', |name| + 4);
    fullHashLine + "\n" + ("# " + name + " #") + "\n" + fullHashLine + "\n"
  }

  /**
   * The banner is strings.Join of the hash line, the name line, the hash
   * line and "" with '\n', and the hash lines are as long as the name line.
   */
  lemma DecorateNameIsJoin(name: string)
    ensures var h := Repeat('#', |name| + 4);
            && DecorateName(name) == Join([h, "# " + name + " #", h, ""], "\n")
            && |h| == |"# " + name + " #"|
  {
    var h, nameLine := Repeat('#', |name| + 4), "# " + name + " #";
    JoinSnoc([h], nameLine, "\n");
    assert [h] + [nameLine] == [h, nameLine];
    JoinSnoc([h, nameLine], h, "\n");
    assert [h, nameLine] + [h] == [h, nameLine, h];
    JoinSnoc([h, nameLine, h], "", "\n");
    assert [h, nameLine, h] + [""] == [h, nameLine, h, ""];
  }

  /** The block written for one entry: its banner, then its trimmed contents and '\n' unless they are empty. */
  function BlockOf(displayName: string, contents: string): string
  {
    var trimmed := TrimSpace(contents);
    DecorateName(displayName) + (if trimmed != "" then trimmed + "\n" else "")
  }

  function Block(nc: NamedContents): string
  {
    BlockOf(nc.DisplayName(), nc.contents)
  }

  /**
   * The blocks of `items`, each found through `displayName` and `contents`,
   * with a blank line between neighbours.
   */
  function Sections<X>(items: seq<X>, displayName: X -> string, contents: X -> string): string
  {
    if |items| == 0 then ""
    else
      var last := BlockOf(displayName(items[|items| - 1]), contents(items[|items| - 1]));
      if |items| == 1 then last
      else Sections(items[..|items| - 1], displayName, contents) + "\n\n" + last
  }

  /** One more item adds a blank line, unless it is the first, and its block. */
  lemma SectionsPrefix<X>(items: seq<X>, i: int, displayName: X -> string, contents: X -> string)
    requires 0 <= i < |items|
    ensures Sections(items[..i + 1], displayName, contents)
            == Sections(items[..i], displayName, contents) + (if i == 0 then "" else "\n\n")
               + BlockOf(displayName(items[i]), contents(items[i]))
  {
    assert items[..i + 1][..i] == items[..i];
  }

  function EntryName(nc: NamedContents): string
  {
    nc.DisplayName()
  }

  function EntryContents(nc: NamedContents): string
  {
    nc.contents
  }

  /** The text WriteIgnoreFile writes. */
  function IgnoreFileText(allContents: seq<NamedContents>): string
  {
    Sections(allContents, EntryName, EntryContents)
  }

  /** The written text is the blocks of the entries, in input order, joined by blank lines. */
  lemma {:induction false} IgnoreFileTextIsJoinedBlocks(allContents: seq<NamedContents>)
    ensures IgnoreFileText(allContents) == Join(Map(Block, allContents), "\n\n")
  {
    if allContents != [] {
      var init, nc := allContents[..|allContents| - 1], allContents[|allContents| - 1];
      assert init + [nc] == allContents;
      IgnoreFileTextIsJoinedBlocks(init);
      MapSnoc(Block, init, nc);
      JoinSnoc(Map(Block, init), Block(nc), "\n\n");
    }
  }

  /**
   * The loop of WriteIgnoreFile, for entries whose display name and
   * contents are given by `displayName` and `contents`: a separator before
   * every block but the first, the banner, and the trimmed contents when
   * there are any.
   */
  method WriteSections<X>(items: seq<X>, displayName: X -> string, contents: X -> string) returns (written: string)
    ensures written == Sections(items, displayName, contents)
  {
    written := "";
    for i := 0 to |items|
      invariant written == Sections(items[..i], displayName, contents)
    {
      var item := items[i];
      if i > 0 {
        written := written + "\n\n";
      }
      var block := WriteBlock(displayName(item), contents(item));
      written := written + block;
      SectionsPrefix(items, i, displayName, contents);
    }
    assert items[..|items|] == items;
  }

  /** The banner, then the trimmed contents and '\n' when there are any. */
  method WriteBlock(displayName: string, contents: string) returns (block: string)
    ensures block == BlockOf(displayName, contents)
  {
    block := DecorateName(displayName);
    var trimmed := TrimSpace(contents);
    if trimmed != "" {
      block := block + (trimmed + "\n");
    }
  }

  /** WriteIgnoreFile, with the writer replaced by the text written to it. */
  method WriteIgnoreFile(allContents: seq<NamedContents>) returns (written: string)
    ensures written == Join(Map(Block, allContents), "\n\n")
  {
    written := WriteSections(allContents, EntryName, EntryContents);
    IgnoreFileTextIsJoinedBlocks(allContents);
  }

  /** Nothing to write writes nothing. */
  lemma WriteNothing()
    ensures IgnoreFileText([]) == ""
  {
  }

  /** Every block ends with '\n', so every non-empty file does. */
  lemma BlockEndsWithNewline(displayName: string, contents: string)
    ensures HasSuffix(BlockOf(displayName, contents), "\n")
  {
    var b := BlockOf(displayName, contents);
    assert b[|b| - 1] == '\n';
  }

  /** Surrounding white space in the contents makes no difference to what is written. */
  lemma BlockIgnoresSurroundingSpace(displayName: string, contents: string)
    ensures BlockOf(displayName, TrimSpace(contents)) == BlockOf(displayName, contents)
  {
    TrimSpaceIdempotent(contents);
  }

  /** Contents that are all white space leave only the banner. */
  lemma BlankContentsWriteBannerOnly(displayName: string, contents: string)
    requires forall k :: 0 <= k < |contents| ==> IsSpace(contents[k])
    ensures BlockOf(displayName, contents) == DecorateName(displayName)
  {
    BlankTrimsToEmpty(contents);
  }
}
