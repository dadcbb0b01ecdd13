/** The string operations the programs share: search, split and join, trim, lower case. */
module Strings {

  /** `pat` occurs in `s` at position `i`. */
  predicate At(s: string, pat: string, i: int) {
    0 <= i && i + |pat| <= |s| && s[i..i + |pat|] == pat
  }

  /** The first occurrence at or behind `from`, or -1. */
  function IndexFrom(s: string, pat: string, from: nat): (i: int)
    ensures i == -1 || (from <= i && At(s, pat, i))
    ensures i >= 0 ==> forall j | from <= j < i :: !At(s, pat, j)
    ensures i == -1 ==> forall j | from <= j :: !At(s, pat, j)
    decreases |s| - from
  {
    if from + |pat| > |s| then -1
    else if s[from..from + |pat|] == pat then from
    else IndexFrom(s, pat, from + 1)
  }

  /** Searching a suffix is searching from where it starts. */
  lemma {:induction false} IndexInSuffix(s: string, pat: string, start: nat, from: nat)
    requires start <= |s|
    ensures IndexFrom(s, pat, start + from) ==
            if IndexFrom(s[start..], pat, from) < 0 then -1 else start + IndexFrom(s[start..], pat, from)
    decreases |s| - from
  {
    if start + from + |pat| <= |s| {
      assert s[start..][from..from + |pat|] == s[start + from..start + from + |pat|];
      IndexInSuffix(s, pat, start, from + 1);
    }
  }

  /** End of the run that starts at `i` and holds no stopping character. */
  function RunEnd(s: string, i: nat, stops: char -> bool): (end: nat)
    requires i <= |s|
    ensures i <= end <= |s|
    ensures forall j | i <= j < end :: !stops(s[j])
    ensures end < |s| ==> stops(s[end])
    decreases |s| - i
  {
    if i == |s| || stops(s[i]) then i else RunEnd(s, i + 1, stops)
  }

  function Lower(s: string): (r: string)
    ensures |r| == |s|
  {
    seq(|s|, i requires 0 <= i < |s| =>
      if 'A' <= s[i] <= 'Z' then (s[i] as int + 32) as char else s[i])
  }

  /** Letters are lowered, everything else stays; nothing upper-case is left. */
  lemma LowerLetters(s: string, i: nat)
    requires i < |s|
    ensures 'A' <= s[i] <= 'Z' ==> Lower(s)[i] as int - 'a' as int == s[i] as int - 'A' as int
    ensures !('A' <= s[i] <= 'Z') ==> Lower(s)[i] == s[i]
    ensures Lower(Lower(s)) == Lower(s)
  {
  }

  // ----- Lines -----

  /** `strings.Split(s, "\n")`: never empty. */
  function Split(s: string): (lines: seq<string>)
    ensures lines != []
    ensures forall line <- lines :: '\n' !in line
  {
    if s == "" then [""]
    else
      var rest := Split(s[1..]);
      if s[0] == '\n' then [""] + rest else [[s[0]] + rest[0]] + rest[1..]
  }

  /** `strings.Join(lines, "\n")`. */
  function Join(lines: seq<string>): string {
    if |lines| == 0 then ""
    else if |lines| == 1 then lines[0]
    else lines[0] + ("\n" + Join(lines[1..]))
  }

  lemma {:induction false} SplitLine(line: string, rest: string)
    requires '\n' !in line
    ensures Split(line + ("\n" + rest)) == [line] + Split(rest)
    ensures Split(line) == [line]
    decreases |line|
  {
    if line == "" {
      assert line + ("\n" + rest) == "\n" + rest;
      assert ("\n" + rest)[1..] == rest;
    } else {
      assert forall c <- line[1..] :: c in line;
      SplitLine(line[1..], rest);
      assert (line + ("\n" + rest))[1..] == line[1..] + ("\n" + rest);
      assert line == [line[0]] + line[1..];
    }
  }

  lemma {:induction false} SplitAppend(a: string, b: string)
    ensures Split(a + ("\n" + b)) == Split(a) + Split(b)
    decreases |a|
  {
    var all := a + ("\n" + b);
    if a == "" {
      assert all == "\n" + b && all[1..] == b;
    } else {
      SplitAppend(a[1..], b);
      assert all[1..] == a[1..] + ("\n" + b) && all[0] == a[0];
      HeadLine(a[0], Split(a[1..]), Split(b));
    }
  }

  /** One more character in front of the first line. */
  lemma HeadLine(c: char, lines: seq<string>, more: seq<string>)
    requires lines != []
    ensures [""] + (lines + more) == ([""] + lines) + more
    ensures [[c] + (lines + more)[0]] + (lines + more)[1..] == ([[c] + lines[0]] + lines[1..]) + more
  {
  }

  lemma {:induction false} SplitJoin(lines: seq<string>)
    requires lines != [] && forall line <- lines :: '\n' !in line
    ensures Split(Join(lines)) == lines
  {
    assert lines[0] in lines;
    if |lines| == 1 {
      SplitLine(lines[0], "");
    } else {
      assert forall line <- lines[1..] :: line in lines;
      SplitJoin(lines[1..]);
      SplitLine(lines[0], Join(lines[1..]));
    }
  }

  // ----- Trimming -----

  /** Unicode white space. */
  predicate IsSpace(c: char) {
    || 9 as char <= c <= 13 as char || c == ' ' || c == '\U{85}' || c == '\U{A0}'
    || c == '\U{1680}' || 0x2000 as char <= c <= 0x200A as char
    || c == '\U{2028}' || c == '\U{2029}' || c == '\U{202F}' || c == '\U{205F}' || c == '\U{3000}'
  }

  /** In ASCII, and to Python with four separators more. */
  lemma AsciiSpace(c: char)
    requires c as int < 128
    ensures IsSpace(c) <==> c in "\t\n\r " || c as int == 11 || c as int == 12
    ensures IsPythonSpace(c) <==> IsSpace(c) || 28 <= c as int <= 31
  {
  }

  function TrimLeft(s: string, drop: char -> bool): string {
    if s != "" && drop(s[0]) then TrimLeft(s[1..], drop) else s
  }

  function TrimRight(s: string, drop: char -> bool): string {
    if s != "" && drop(s[|s| - 1]) then TrimRight(s[..|s| - 1], drop) else s
  }

  function Trim(s: string, drop: char -> bool): string {
    TrimRight(TrimLeft(s, drop), drop)
  }

  // ----- Python's strip -----

  /** What `str.strip` and `\s` take for space: four separators more. */
  predicate IsPythonSpace(c: char) {
    IsSpace(c) || 28 as char <= c <= 31 as char
  }

  function StripLeft(s: string): string {
    TrimLeft(s, IsPythonSpace)
  }

  function StripRight(s: string): string {
    TrimRight(s, IsPythonSpace)
  }

  predicate Spaces(s: string) {
    forall c <- s :: IsPythonSpace(c)
  }

  lemma {:induction false} StripLeftSpaces(lead: string, s: string)
    requires Spaces(lead) && (s != "" ==> !IsPythonSpace(s[0]))
    ensures StripLeft(lead + s) == s
    decreases |lead|
  {
    if lead == "" {
      assert lead + s == s;
    } else {
      assert lead[0] in lead && forall c <- lead[1..] :: c in lead;
      assert (lead + s)[1..] == lead[1..] + s;
      StripLeftSpaces(lead[1..], s);
    }
  }

  /** Stripping on the right keeps everything up to a character that is not space. */
  lemma {:induction false} StripRightKeeps(head: string, s: string) returns (n: nat)
    requires s != "" && !IsPythonSpace(s[0])
    ensures 0 < n <= |s| && StripRight(head + s) == head + s[..n]
    ensures Spaces(s[n..])
    decreases |s|
  {
    var last := s[|s| - 1];
    if IsPythonSpace(last) {
      var front := s[..|s| - 1];
      assert (head + s)[..|head + s| - 1] == head + front;
      n := StripRightKeeps(head, front);
      assert s[..n] == front[..n] && s[n..] == front[n..] + [last];
    } else {
      n := |s|;
      assert s[..n] == s;
    }
  }

  lemma {:induction false} StripRightSpaces(s: string, trail: string)
    requires s != "" && !IsPythonSpace(s[|s| - 1]) && Spaces(trail)
    ensures StripRight(s + trail) == s
    decreases |trail|
  {
    var t := s + trail;
    if trail != "" {
      StripRightSpaces(s, trail[..|trail| - 1]);
      assert t[..|t| - 1] == s + trail[..|trail| - 1] && t[|t| - 1] == trail[|trail| - 1];
    } else {
      assert t == s;
    }
  }

  lemma StripBothSides(lead: string, core: string, after: string)
    requires core != "" && !IsPythonSpace(core[0]) && !IsPythonSpace(core[|core| - 1])
    requires Spaces(lead) && Spaces(after)
    ensures StripRight(StripLeft(lead + core + after)) == core
  {
    assert lead + core + after == lead + (core + after) && (core + after)[0] == core[0];
    StripLeftSpaces(lead, core + after);
    StripRightSpaces(core, after);
  }
}
