/**
 * The parts of Go's `strings`, `fmt` and `bufio` packages that the program
 * relies on, over `string` (a sequence of characters). Names are assumed to
 * be ASCII, so a character count equals Go's byte count.
 */
module Strings {

  /** strings.HasSuffix */
  predicate HasSuffix(s: string, suffix: string)
  {
    |suffix| <= |s| && s[|s| - |suffix|..] == suffix
  }

  /** A character found at no index is not in the string. */
  lemma NoneIn(s: string, c: char)
    requires forall k :: 0 <= k < |s| ==> s[k] != c
    ensures c !in s
  {
  }

  /** strings.HasPrefix */
  predicate HasPrefix(s: string, prefix: string)
  {
    |prefix| <= |s| && s[..|prefix|] == prefix
  }

  /** strings.TrimSuffix: drops `suffix` once when `s` ends with it. */
  function TrimSuffix(s: string, suffix: string): (r: string)
    ensures HasSuffix(s, suffix) ==> r + suffix == s
    ensures !HasSuffix(s, suffix) ==> r == s
  {
    if HasSuffix(s, suffix) then s[..|s| - |suffix|] else s
  }

  /**
   * unicode.IsSpace, which strings.TrimSpace uses: the six ASCII white-space
   * characters, NEL, NBSP and the other characters of Unicode's White_Space.
   */
  predicate IsSpace(c: char)
  {
    || c == '\t' || c == '\n' || c == '\U{000B}' || c == '\U{000C}' || c == '\r' || c == ' '
    || c == '\U{0085}' || c == '\U{00A0}' || c == '\U{1680}'
    || ('\U{2000}' <= c <= '\U{200A}')
    || c == '\U{2028}' || c == '\U{2029}' || c == '\U{202F}' || c == '\U{205F}' || c == '\U{3000}'
  }

  /** The number of white-space characters `s` starts with. */
  function LeadingSpace(s: string): (n: nat)
    ensures n <= |s|
  {
    if s != "" && IsSpace(s[0]) then LeadingSpace(s[1..]) + 1 else 0
  }

  /** LeadingSpace counts white space and stops at the first other character. */
  lemma {:induction false} LeadingSpaceShape(s: string)
    ensures var n := LeadingSpace(s);
            && (forall k :: 0 <= k < n ==> IsSpace(s[k]))
            && (n == |s| || !IsSpace(s[n]))
  {
    if s != "" && IsSpace(s[0]) {
      LeadingSpaceShape(s[1..]);
      var m := LeadingSpace(s[1..]);
      assert forall k :: 1 <= k < m + 1 ==> s[k] == s[1..][k - 1];
    }
  }

  /** Where the white space `s` ends with begins. */
  function TrailingSpace(s: string): (n: nat)
    ensures n <= |s|
  {
    if s != "" && IsSpace(s[|s| - 1]) then TrailingSpace(s[..|s| - 1]) else |s|
  }

  /** Everything from TrailingSpace on is white space, and the character before it is not. */
  lemma {:induction false} TrailingSpaceShape(s: string)
    ensures var n := TrailingSpace(s);
            && (forall k :: n <= k < |s| ==> IsSpace(s[k]))
            && (n == 0 || !IsSpace(s[n - 1]))
  {
    if s != "" && IsSpace(s[|s| - 1]) {
      TrailingSpaceShape(s[..|s| - 1]);
    }
  }

  /** `r` is `s[i..j]` and everything of `s` outside that slice is white space. */
  predicate SpaceAround(s: string, r: string, i: int, j: int)
  {
    && 0 <= i <= j <= |s| && r == s[i..j]
    && (forall k :: 0 <= k < i ==> IsSpace(s[k]))
    && (forall k :: j <= k < |s| ==> IsSpace(s[k]))
  }

  /** strings.TrimSpace: drops the leading and the trailing white space of `s`. */
  function TrimSpace(s: string): string
  {
    var i := LeadingSpace(s);
    var j := TrailingSpace(s);
    if j <= i then "" else s[i..j]
  }

  /**
   * TrimSpace keeps the part of `s` between its leading and its trailing
   * white space, and what it keeps neither starts nor ends with white space.
   */
  lemma TrimSpaceShape(s: string)
    ensures exists i, j :: SpaceAround(s, TrimSpace(s), i, j)
    ensures var r := TrimSpace(s); r == "" || (!IsSpace(r[0]) && !IsSpace(r[|r| - 1]))
  {
    var i := LeadingSpace(s);
    var j := TrailingSpace(s);
    LeadingSpaceShape(s);
    TrailingSpaceShape(s);
    if j <= i {
      assert SpaceAround(s, TrimSpace(s), i, i);
    } else {
      var r := s[i..j];
      assert r[0] == s[i] && r[|r| - 1] == s[j - 1];
      assert SpaceAround(s, TrimSpace(s), i, j);
    }
  }

  /** Trimming text that is already trimmed changes nothing. */
  lemma TrimSpaceIdempotent(s: string)
    ensures TrimSpace(TrimSpace(s)) == TrimSpace(s)
  {
    var t := TrimSpace(s);
    TrimSpaceShape(s);
    if t != "" {
      assert LeadingSpace(t) == 0;
      assert TrailingSpace(t) == |t|;
    }
  }

  /** Text that is all white space trims to nothing. */
  lemma BlankTrimsToEmpty(s: string)
    requires forall k :: 0 <= k < |s| ==> IsSpace(s[k])
    ensures TrimSpace(s) == ""
  {
    LeadingSpaceShape(s);
    assert LeadingSpace(s) == |s|;
  }

  /** strings.Join: the parts with `sep` between neighbours. */
  function Join(parts: seq<string>, sep: string): string
  {
    if |parts| == 0 then ""
    else if |parts| == 1 then parts[0]
    else Join(parts[..|parts| - 1], sep) + sep + parts[|parts| - 1]
  }

  /** Join with one more part: a separator and the part follow what was joined, if anything was. */
  lemma JoinSnoc(parts: seq<string>, x: string, sep: string)
    ensures Join(parts + [x], sep) == if parts == [] then x else Join(parts, sep) + sep + x
  {
    assert (parts + [x])[..|parts|] == parts;
  }

  /** Join read from the front: the first part, a separator, then the rest joined. */
  lemma {:induction false} JoinFront(parts: seq<string>, sep: string)
    requires |parts| >= 2
    ensures Join(parts, sep) == parts[0] + sep + Join(parts[1..], sep)
  {
    var n := |parts|;
    if n > 2 {
      JoinFront(parts[..n - 1], sep);
      assert parts[1..][..n - 2] == parts[..n - 1][1..];
    }
  }

  /** strings.Repeat for a single character. */
  function Repeat(c: char, n: nat): (r: string)
    ensures |r| == n
    ensures forall k :: 0 <= k < n ==> r[k] == c
  {
    if n == 0 then "" else Repeat(c, n - 1) + [c]
  }

  /** The index of the first `c` in `s`, or |s| when there is none (bytes.IndexByte). */
  function IndexOf(s: string, c: char): (i: nat)
    ensures i <= |s|
  {
    if s == "" then 0
    else if s[0] == c then 0
    else 1 + IndexOf(s[1..], c)
  }

  /** IndexOf finds the first `c`: none comes before it, and it is a `c` unless it is |s|. */
  lemma {:induction false} IndexOfShape(s: string, c: char)
    ensures var i := IndexOf(s, c);
            && (i < |s| ==> s[i] == c)
            && forall k :: 0 <= k < i ==> s[k] != c
  {
    if s != "" && s[0] != c {
      IndexOfShape(s[1..], c);
      assert forall k :: 1 <= k < |s| ==> s[k] == s[1..][k - 1];
    }
  }

  /** An index with `c` there and none before it is the one IndexOf finds. */
  lemma {:induction false} IndexOfAt(s: string, c: char, j: nat)
    requires j <= |s| && (j < |s| ==> s[j] == c)
    requires forall k :: 0 <= k < j ==> s[k] != c
    ensures IndexOf(s, c) == j
  {
    if j > 0 {
      assert forall k :: 0 <= k < j - 1 ==> s[1..][k] == s[k + 1];
      IndexOfAt(s[1..], c, j - 1);
    }
  }

  predicate EndsWithCR(s: string)
  {
    s != "" && s[|s| - 1] == '\r'
  }

  /** bufio's dropCR: one trailing carriage return is removed from a line. */
  function DropCR(s: string): string
  {
    if EndsWithCR(s) then s[..|s| - 1] else s
  }

  /**
   * The lines a bufio.Scanner with bufio.ScanLines yields: the text is cut
   * at each '\n', each line loses one trailing '\r', and an empty remainder
   * after the last '\n' is not a line.
   */
  function ScanLines(s: string): (lines: seq<string>)
    ensures forall k :: 0 <= k < |lines| ==> '\n' !in lines[k]
    decreases |s|
  {
    if s == "" then []
    else
      var i := IndexOf(s, '\n');
      IndexOfShape(s, '\n');
      if i == |s| then [DropCR(s)]
      else [DropCR(s[..i])] + ScanLines(s[i + 1..])
  }

  /** A line is kept by a scan unchanged when it has no '\n' and no trailing '\r'. */
  predicate IsLine(s: string)
  {
    '\n' !in s && !EndsWithCR(s)
  }

  /** A character in neither piece is not in their concatenation. */
  lemma NotInConcat(a: string, b: string, c: char)
    requires c !in a && c !in b
    ensures c !in a + b
  {
    forall k | 0 <= k < |a + b|
      ensures (a + b)[k] != c
    {
      if k < |a| {
        assert (a + b)[k] == a[k];
      } else {
        assert (a + b)[k] == b[k - |a|];
      }
    }
    NoneIn(a + b, c);
  }

  /** Two pieces without '\n' make a line when the whole does not end in '\r'. */
  lemma ConcatIsLine(a: string, b: string)
    requires '\n' !in a && IsLine(b)
    requires b == "" ==> IsLine(a)
    ensures IsLine(a + b)
  {
    NotInConcat(a, b, '\n');
    if b == "" {
      assert a + b == a;
    }
  }

  /** A first line without '\n', then '\n': the scanner yields that line and goes on after it. */
  lemma ScanLinesAfterLine(x: string, rest: string)
    requires '\n' !in x
    ensures ScanLines(x + "\n" + rest) == [DropCR(x)] + ScanLines(rest)
  {
    var s := x + "\n" + rest;
    assert s[|x|] == '\n';
    forall k | 0 <= k < |x|
      ensures s[k] != '\n'
    {
      assert s[k] == x[k];
    }
    IndexOfAt(s, '\n', |x|);
    assert s[..|x|] == x;
    assert s[|x| + 1..] == rest;
  }

  /** A line, '\n', then text that scans to `tail`: the scan is that line, then `tail`. */
  lemma ScanStep(x: string, rest: string, tail: seq<string>)
    requires IsLine(x) && ScanLines(rest) == tail
    ensures ScanLines(x + "\n" + rest) == [x] + tail
  {
    ScanLinesAfterLine(x, rest);
    assert DropCR(x) == x;
  }

  /** The lines after the first are lines too. */
  lemma TailLines(lines: seq<string>)
    requires lines != []
    requires forall k :: 0 <= k < |lines| ==> IsLine(lines[k])
    ensures forall k :: 0 <= k < |lines| - 1 ==> IsLine(lines[1..][k])
  {
    assert forall k :: 0 <= k < |lines| - 1 ==> lines[1..][k] == lines[k + 1];
  }

  /** A sequence is its first element followed by the rest. */
  lemma FirstAndRest<T>(s: seq<T>)
    requires s != []
    ensures s == [s[0]] + s[1..]
  {
  }

  /**
   * Joining non-empty lines with '\n' and scanning the result gives the lines
   * back: the scanner is the inverse of strings.Join(lines, "\n").
   */
  lemma {:induction false} ScanJoinedLines(lines: seq<string>)
    requires lines != []
    requires forall k :: 0 <= k < |lines| ==> IsLine(lines[k])
    requires lines[|lines| - 1] != ""
    ensures ScanLines(Join(lines, "\n")) == lines
  {
    var x := lines[0];
    if |lines| == 1 {
      IndexOfAt(x, '\n', |x|);
      assert Join(lines, "\n") == x;
    } else {
      JoinFront(lines, "\n");
      TailLines(lines);
      ScanJoinedLines(lines[1..]);
      ScanStep(x, Join(lines[1..], "\n"), lines[1..]);
      FirstAndRest(lines);
    }
  }

  /**
   * Joining lines with '\n' and ending the text with one more '\n' is undone
   * by the scanner, empty lines included.
   */
  lemma {:induction false} ScanNewlineTerminated(lines: seq<string>)
    requires lines != []
    requires forall k :: 0 <= k < |lines| ==> IsLine(lines[k])
    ensures ScanLines(Join(lines, "\n") + "\n") == lines
  {
    var x := lines[0];
    if |lines| == 1 {
      assert Join(lines, "\n") + "\n" == x + "\n" + "";
      ScanStep(x, "", []);
    } else {
      var rest := Join(lines[1..], "\n") + "\n";
      JoinFrontTerminated(lines);
      TailLines(lines);
      ScanNewlineTerminated(lines[1..]);
      ScanStep(x, rest, lines[1..]);
      FirstAndRest(lines);
    }
  }

  lemma JoinFrontTerminated(lines: seq<string>)
    requires |lines| >= 2
    ensures Join(lines, "\n") + "\n" == lines[0] + "\n" + (Join(lines[1..], "\n") + "\n")
  {
    JoinFront(lines, "\n");
  }

  /**
   * Parts that are single lines, joined by a separator that is one too, make
   * a single line.
   */
  lemma {:induction false} JoinIsLine(parts: seq<string>, sep: string)
    requires forall k :: 0 <= k < |parts| ==> IsLine(parts[k])
    requires IsLine(sep)
    ensures '\n' !in Join(parts, sep)
    ensures EndsWithCR(Join(parts, sep)) ==> |parts| >= 2 && parts[|parts| - 1] == "" && EndsWithCR(sep)
  {
    var n := |parts|;
    if n >= 2 {
      JoinIsLine(parts[..n - 1], sep);
      var j := Join(parts[..n - 1], sep);
      assert Join(parts, sep) == j + sep + parts[n - 1];
      NotInConcat(j, sep, '\n');
      NotInConcat(j + sep, parts[n - 1], '\n');
    }
  }

  /** Each line followed by exactly one '\n' (what fmt.Sprintln appends line by line). */
  function Terminated(lines: seq<string>): string
  {
    if lines == [] then "" else Terminated(lines[..|lines| - 1]) + lines[|lines| - 1] + "\n"
  }

  /** Terminating every line is joining them with '\n' and ending with one more '\n'. */
  lemma {:induction false} TerminatedIsJoinedPlusNewline(lines: seq<string>)
    requires lines != []
    ensures Terminated(lines) == Join(lines, "\n") + "\n"
  {
    var n := |lines|;
    if n > 1 {
      TerminatedIsJoinedPlusNewline(lines[..n - 1]);
    } else {
      assert lines[..0] == [];
    }
  }

  /** fmt's %d on a natural number: its decimal digits, most significant first. */
  function FormatNat(n: nat): (r: string)
    ensures r != "" && forall k :: 0 <= k < |r| ==> '0' <= r[k] <= '9'
  {
    if n < 10 then [Digit(n)] else FormatNat(n / 10) + [Digit(n % 10)]
  }

  function Digit(d: nat): char
    requires d < 10
  {
    ('0' as int + d) as char
  }

  /** fmt's %d on an int: a '-' for a negative number, then the digits. */
  function FormatInt(n: int): string
  {
    if n < 0 then "-" + FormatNat(-n) else FormatNat(n)
  }

  /** The value of a string of decimal digits (the partner of FormatNat). */
  function ParseNat(s: string): nat
    requires forall k :: 0 <= k < |s| ==> '0' <= s[k] <= '9'
  {
    if s == "" then 0 else 10 * ParseNat(s[..|s| - 1]) + ((s[|s| - 1] as int) - ('0' as int))
  }

  /** Formatting a natural number in decimal loses nothing: parsing gives it back. */
  lemma {:induction false} ParseFormatNat(n: nat)
    ensures ParseNat(FormatNat(n)) == n
  {
    if n >= 10 {
      ParseFormatNat(n / 10);
      var s := FormatNat(n);
      assert s[..|s| - 1] == FormatNat(n / 10);
    }
  }

  /** Different natural numbers have different decimal digits. */
  lemma FormatNatInjective(a: nat, b: nat)
    requires FormatNat(a) == FormatNat(b)
    ensures a == b
  {
    ParseFormatNat(a);
    ParseFormatNat(b);
  }

  /** A natural number's text never starts with '-'. */
  lemma FirstIsDigit(n: nat)
    ensures FormatNat(n)[0] != '-'
  {
  }

  /** Equal texts behind the same prefix are equal. */
  lemma SamePrefixedRest(p: string, x: string, y: string)
    requires p + x == p + y
    ensures x == y
  {
    assert x == (p + x)[|p|..];
    assert y == (p + y)[|p|..];
  }

  /** A negative number's text is never a natural number's. */
  lemma SignShows(n: nat, m: nat)
    ensures "-" + FormatNat(n) != FormatNat(m)
  {
    FirstIsDigit(m);
    assert ("-" + FormatNat(n))[0] == '-';
  }

  /** Different integers are formatted differently: %d loses no information. */
  lemma FormatIntInjective(a: int, b: int)
    requires FormatInt(a) == FormatInt(b)
    ensures a == b
  {
    if a < 0 && b < 0 {
      SamePrefixedRest("-", FormatNat(-a), FormatNat(-b));
      FormatNatInjective(-a, -b);
    } else if a >= 0 && b >= 0 {
      FormatNatInjective(a, b);
    } else if a < 0 {
      SignShows(-a, b);
    } else {
      SignShows(-b, a);
    }
  }
}
