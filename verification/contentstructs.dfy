/**
 * The two records that pair a gitignore file's name with its contents
 * (contentstructs/contentstructs.go and contentstructs/named_contents.go),
 * and the display name both derive from the file name.
 */
module ContentStructs {
  import opened Strings
  import opened FilePath

  /** NamedIgnoreContents: the patterns and comments of one gitignore file. */
  datatype NamedIgnoreContents = NamedIgnoreContents(name: string, contents: string)
  {
    /** NamedIgnoreContents.DisplayName */
    function DisplayName(): string
    {
      DisplayNameOf(name)
    }
  }

  /** NamedContents: the later name of the same record. */
  datatype NamedContents = NamedContents(name: string, contents: string)
  {
    /** NamedContents.DisplayName */
    function DisplayName(): string
    {
      DisplayNameOf(name)
    }
  }

  /** The name a NamedIgnoreContents is sorted and reported by. */
  function IgnoreContentsName(c: NamedIgnoreContents): string
  {
    c.name
  }

  /** The name a NamedContents is sorted and reported by. */
  function ContentsName(c: NamedContents): string
  {
    c.name
  }

  /**
   * The base name of `name` without its last extension: the section header
   * text of a gitignore file.
   */
  function DisplayNameOf(name: string): (r: string)
    ensures r + Ext(Base(name)) == Base(name)
    ensures HasNonSlash(name) ==> '/' !in r
  {
    var baseName := Base(name);
    var e := Ext(baseName);
    assert HasSuffix(baseName, e) by {
      ExtShape(baseName);
    }
    var r := TrimSuffix(baseName, e);
    assert forall k :: 0 <= k < |r| ==> r[k] == baseName[k];
    r
  }

  /** Only the last path element matters. */
  lemma DisplayNameIgnoresDirectory(dir: string, x: string)
    requires HasNonSlash(x)
    ensures DisplayNameOf(dir + "/" + x) == DisplayNameOf(x)
  {
    BaseIgnoresDirectory(dir, x);
  }

  /** A name without '.' or '/' is its own display name. */
  lemma DisplayNameOfPlainName(x: string)
    requires x != "" && '.' !in x && '/' !in x
    ensures DisplayNameOf(x) == x
  {
    BaseOfElement(x);
    ExtOfPlainElement(x);
  }

  /**
   * Any extension is stripped, not only ".gitignore", and only the last one:
   * dots earlier in the element stay in the display name.
   */
  lemma DisplayNameStripsLastExtension(stem: string, ext: string)
    requires '/' !in stem
    requires ext != "" && ext[0] == '.' && '.' !in ext[1..] && '/' !in ext
    ensures DisplayNameOf(stem + ext) == stem
  {
    BaseOfElement(stem + ext);
    ExtOfAppendedExtension(stem, ext);
  }

  /** A directory and an extension together: "Global/Vim.gitignore" gives "Vim". */
  lemma DisplayNameOfPath(dir: string, stem: string, ext: string)
    requires '/' !in stem
    requires ext != "" && ext[0] == '.' && '.' !in ext[1..] && '/' !in ext
    ensures DisplayNameOf(dir + "/" + stem + ext) == stem
  {
    assert (stem + ext)[0] != '/' || stem == "";
    assert (stem + ext)[|stem|] == '.';
    assert dir + "/" + stem + ext == dir + "/" + (stem + ext);
    DisplayNameIgnoresDirectory(dir, stem + ext);
    DisplayNameStripsLastExtension(stem, ext);
  }

  /** "Vim" is its own display name. */
  lemma DisplayNameExamplePlain()
    ensures NamedIgnoreContents("Vim", "").DisplayName() == "Vim"
  {
    var stem := "Vim";
    DisplayNameOfPlainName(stem);
  }
}
