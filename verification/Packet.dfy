/** The execution packet: the dispatcher prints it, the worker reads the target file back. */
module Packet {
  import opened Strings

  const ENTRY := "- path:"
  const FIRST_LINES := ["BOUNDED_EXECUTION:", "  version: \"1.0\"", "  target_files:"]
  const REASON_HEAD := "      reason: \"Inferred from"
  const REASON_TAIL := " ticket context (summary"
  const REASON := REASON_HEAD + REASON_TAIL + " + description)\""
  const FILE_LINES := ["      confidence: 0.85", REASON]
  const SCOPE_LINES := ["  scope:", "    blast_radius: low", "    execution_class: bounded_fix", "    bounded: true"]
  const METADATA_LINES := ["  inference_metadata:", "    generated_by: " + "factory-fill-normalizer-v1"]
  const LAST_LINES := ["    overall_confidence: 0.80", "    source: " + "in-memory-ticket-data"]

  function FilesLines(files: seq<string>): seq<string> {
    if files == [] then [] else ["    - path: " + files[0]] + FILE_LINES + FilesLines(files[1..])
  }

  function TailLines(stamp: string): seq<string> {
    SCOPE_LINES + METADATA_LINES + ["    generated_at: " + stamp] + LAST_LINES
  }

  function PacketLines(files: seq<string>, stamp: string): seq<string> {
    FIRST_LINES + FilesLines(files) + TailLines(stamp)
  }

  function Unlines(lines: seq<string>): string {
    if lines == [] then "" else lines[0] + ("\n" + Unlines(lines[1..]))
  }

  lemma {:induction false} UnlinesAppend(a: seq<string>, b: seq<string>)
    ensures Unlines(a + b) == Unlines(a) + Unlines(b)
    decreases |a|
  {
    if a == [] {
      assert a + b == b;
    } else {
      UnlinesAppend(a[1..], b);
      assert (a + b)[1..] == a[1..] + b;
    }
  }

  lemma UnlinesBehind(sb: string, a: seq<string>, b: seq<string>)
    ensures (sb + Unlines(a)) + Unlines(b) == sb + Unlines(a + b)
  {
    UnlinesAppend(a, b);
  }

  method WriteLines(sb: string, lines: seq<string>) returns (out: string)
    ensures out == sb + Unlines(lines)
  {
    out := sb;
    for i := 0 to |lines|
      invariant out == sb + Unlines(lines[..i])
    {
      UnlinesAppend(lines[..i], [lines[i]]);
      assert lines[..i + 1] == lines[..i] + [lines[i]];
      out := out + lines[i] + "\n";
    }
    assert lines[..|lines|] == lines;
  }

  /** `generateExecutionPacket`; `stamp` is the formatted time. */
  method GenerateExecutionPacket(files: seq<string>, stamp: string) returns (packet: string)
    ensures packet == Unlines(PacketLines(files, stamp))
  {
    UnlinesAppend(FIRST_LINES, FilesLines(files));
    UnlinesAppend(FIRST_LINES + FilesLines(files), TailLines(stamp));
    packet := WriteLines("", FIRST_LINES);
    packet := WriteFiles(packet, files);
    packet := WriteTail(packet, stamp);
  }

  method WriteFiles(sb: string, files: seq<string>) returns (out: string)
    ensures out == sb + Unlines(FilesLines(files))
  {
    out := sb;
    for i := 0 to |files|
      invariant out == sb + Unlines(FilesLines(files[..i]))
    {
      FilesSnoc(files[..i], files[i]);
      assert files[..i + 1] == files[..i] + [files[i]];
      UnlinesBehind(sb, FilesLines(files[..i]), ["    - path: " + files[i]] + FILE_LINES);
      out := WriteLines(out, ["    - path: " + files[i]] + FILE_LINES);
    }
    assert files[..|files|] == files;
  }

  method WriteTail(sb: string, stamp: string) returns (out: string)
    ensures out == sb + Unlines(TailLines(stamp))
  {
    UnlinesBehind(sb, SCOPE_LINES, METADATA_LINES);
    UnlinesBehind(sb, SCOPE_LINES + METADATA_LINES, ["    generated_at: " + stamp]);
    UnlinesBehind(sb, SCOPE_LINES + METADATA_LINES + ["    generated_at: " + stamp], LAST_LINES);
    out := WriteLines(sb, SCOPE_LINES);
    out := WriteLines(out, METADATA_LINES);
    out := WriteLines(out, ["    generated_at: " + stamp]);
    out := WriteLines(out, LAST_LINES);
  }

  lemma {:induction false} FilesSnoc(files: seq<string>, f: string)
    ensures FilesLines(files + [f]) == FilesLines(files) + (["    - path: " + f] + FILE_LINES)
  {
    if files == [] {
      assert files + [f] == [f];
    } else {
      FilesSnoc(files[1..], f);
      assert (files + [f])[1..] == files[1..] + [f];
    }
  }

  // ----- Reading it back -----

  predicate IsQuote(c: char) {
    c == '\"' || c == '\''
  }

  /** What the reader makes of the text behind an entry mark. */
  function Cleaned(text: string): string {
    Trim(Trim(text, IsSpace), IsQuote)
  }

  predicate Usable(path: string) {
    path != "" && path[|path| - 1] != '/' && ' ' !in path
  }

  function FirstPath(lines: seq<string>): string {
    if lines == [] then ""
    else
      var i := IndexFrom(lines[0], ENTRY, 0);
      if i >= 0 && Usable(Cleaned(lines[0][i + |ENTRY|..])) then Cleaned(lines[0][i + |ENTRY|..])
      else FirstPath(lines[1..])
  }

  /** `extractTargetFileFromPacket`. */
  method ExtractTargetFileFromPacket(packet: string) returns (target: string)
    ensures target == FirstPath(Split(packet))
  {
    var lines := Split(packet);
    for n := 0 to |lines|
      invariant FirstPath(lines) == FirstPath(lines[n..])
    {
      assert lines[n..][1..] == lines[n + 1..];
      var line := lines[n];
      var i := IndexFrom(line, ENTRY, 0);
      if i >= 0 {
        var path := Trim(line[i + |ENTRY|..], IsSpace);
        path := Trim(path, IsQuote);
        if path != "" && path[|path| - 1] == '/' {
          continue;
        }
        if path != "" && ' ' !in path {
          return path;
        }
      }
    }
    return "";
  }

  // ----- Lines that hold no entry -----

  predicate NoEntry(line: string) {
    IndexFrom(line, ENTRY, 0) == -1
  }

  predicate LacksIn(s: string, c: char, from: int, to: int)
    requires 0 <= from <= to <= |s|
  {
    forall i | from <= i < to :: s[i] != c
  }

  /** A head without a dash and a tail without a space make no entry mark. */
  predicate Harmless(line: string) {
    exists n | 0 <= n <= |line| :: LacksIn(line, '-', 0, n) && LacksIn(line, ' ', n, |line|)
  }

  lemma EntryStartsWithDash(line: string, i: int)
    requires At(line, ENTRY, i)
    ensures line[i] == '-' && line[i + 1] == ' '
  {
    assert line[i] == line[i..i + |ENTRY|][0] && line[i + 1] == line[i..i + |ENTRY|][1];
  }

  lemma HarmlessHasNoEntry(line: string)
    requires Harmless(line)
    ensures NoEntry(line)
  {
    var i := IndexFrom(line, ENTRY, 0);
    if i >= 0 {
      EntryStartsWithDash(line, i);
    }
  }

  /** One line, and harmless: what every fixed line of the packet is. */
  predicate Fixed(line: string) {
    '\n' !in line && NoEntry(line)
  }

  lemma PlainFixed(line: string)
    requires '\n' !in line && '-' !in line
    ensures Fixed(line)
  {
    assert LacksIn(line, '-', 0, |line|) && LacksIn(line, ' ', |line|, |line|);
    HarmlessHasNoEntry(line);
  }

  lemma HeadFixed(head: string, tail: string)
    requires '\n' !in head && '-' !in head && '\n' !in tail && ' ' !in tail
    ensures Fixed(head + tail)
  {
    var line := head + tail;
    assert LacksIn(line, '-', 0, |head|) && LacksIn(line, ' ', |head|, |line|);
    HarmlessHasNoEntry(line);
  }

  lemma FirstLinesFixed()
    ensures forall line <- FIRST_LINES :: Fixed(line)
  {
    PlainFixed(FIRST_LINES[0]);
    PlainFixed(FIRST_LINES[1]);
    PlainFixed(FIRST_LINES[2]);
  }

  lemma ReasonFixed()
    ensures Fixed(REASON)
  {
    assert '-' !in REASON_HEAD && '\n' !in REASON_HEAD;
    assert '-' !in REASON_TAIL && '\n' !in REASON_TAIL;
    assert '-' !in " + description)\"" && '\n' !in " + description)\"";
    PlainFixed(REASON);
  }

  lemma FileLinesFixed()
    ensures forall line <- FILE_LINES :: Fixed(line)
  {
    PlainFixed(FILE_LINES[0]);
    ReasonFixed();
  }

  lemma ScopeLinesFixed()
    ensures forall line <- SCOPE_LINES :: Fixed(line)
  {
    PlainFixed(SCOPE_LINES[0]);
    PlainFixed(SCOPE_LINES[1]);
    PlainFixed(SCOPE_LINES[2]);
    PlainFixed(SCOPE_LINES[3]);
  }

  lemma MetadataLinesFixed()
    ensures forall line <- METADATA_LINES :: Fixed(line)
  {
    PlainFixed(METADATA_LINES[0]);
    HeadFixed("    generated_by: ", "factory-fill-normalizer-v1");
  }

  lemma LastLinesFixed()
    ensures forall line <- LAST_LINES :: Fixed(line)
  {
    PlainFixed(LAST_LINES[0]);
    HeadFixed("    source: ", "in-memory-ticket-data");
  }

  lemma TailLinesFixed(stamp: string)
    requires '\n' !in stamp && ' ' !in stamp
    ensures forall line <- TailLines(stamp) :: Fixed(line)
  {
    ScopeLinesFixed();
    MetadataLinesFixed();
    HeadFixed("    generated_at: ", stamp);
    LastLinesFixed();
  }

  /** An entry line is found at its mark, and the reader sees the path alone. */
  lemma EntryLine(f: string)
    ensures IndexFrom("    - path: " + f, ENTRY, 0) == 4
    ensures Cleaned(("    - path: " + f)[4 + |ENTRY|..]) == Cleaned(f)
  {
    var line := "    - path: " + f;
    assert line[4..4 + |ENTRY|] == ENTRY;
    assert At(line, ENTRY, 4);
    var i := IndexFrom(line, ENTRY, 0);
    EntryStartsWithDash(line, i);
    assert line[0] == line[1] == line[2] == line[3] == ' ';
    assert line[4 + |ENTRY|..] == " " + f;
    assert (" " + f)[1..] == f;
  }

  // ----- The round trip -----

  lemma {:induction false} SkipLines(a: seq<string>, b: seq<string>)
    requires forall line <- a :: NoEntry(line)
    ensures FirstPath(a + b) == FirstPath(b)
    decreases |a|
  {
    if a == [] {
      assert a + b == b;
    } else {
      assert a[0] in a && forall line <- a[1..] :: line in a;
      assert (a + b)[1..] == a[1..] + b;
      SkipLines(a[1..], b);
    }
  }

  /** The first path the reader can use, out of the ones that were printed. */
  function FirstUsable(files: seq<string>): string {
    if files == [] then ""
    else if Usable(Cleaned(files[0])) then Cleaned(files[0])
    else FirstUsable(files[1..])
  }

  lemma {:induction false} FilesRead(files: seq<string>, rest: seq<string>)
    ensures FirstPath(FilesLines(files) + rest) ==
            if FirstUsable(files) != "" then FirstUsable(files) else FirstPath(rest)
  {
    if files == [] {
      assert FilesLines(files) + rest == rest;
    } else {
      var line := "    - path: " + files[0];
      var tail := FILE_LINES + (FilesLines(files[1..]) + rest);
      assert FilesLines(files) + rest == [line] + tail;
      assert ([line] + tail)[1..] == tail;
      EntryLine(files[0]);
      FileLinesFixed();
      SkipLines(FILE_LINES, FilesLines(files[1..]) + rest);
      FilesRead(files[1..], rest);
    }
  }

  lemma {:induction false} SplitUnlines(lines: seq<string>)
    requires forall line <- lines :: '\n' !in line
    ensures Split(Unlines(lines)) == lines + [""]
  {
    if lines == [] {
    } else {
      assert lines[0] in lines && forall line <- lines[1..] :: line in lines;
      SplitUnlines(lines[1..]);
      SplitLine(lines[0], Unlines(lines[1..]));
    }
  }

  lemma {:induction false} FilesLinesAreLines(files: seq<string>)
    requires forall f <- files :: '\n' !in f
    ensures forall line <- FilesLines(files) :: '\n' !in line
  {
    if files != [] {
      assert files[0] in files && forall f <- files[1..] :: f in files;
      FilesLinesAreLines(files[1..]);
      FileLinesFixed();
    }
  }

  /** Whatever paths go in, one to a line, the worker gets the first one it can use. */
  lemma PacketRoundTrip(files: seq<string>, stamp: string)
    requires forall f <- files :: '\n' !in f
    requires '\n' !in stamp && ' ' !in stamp
    ensures FirstPath(Split(Unlines(PacketLines(files, stamp)))) == FirstUsable(files)
  {
    var tail := TailLines(stamp);
    FirstLinesFixed();
    FilesLinesAreLines(files);
    TailLinesFixed(stamp);
    SplitUnlines(PacketLines(files, stamp));
    assert PacketLines(files, stamp) + [""] == FIRST_LINES + (FilesLines(files) + (tail + [""]));
    SkipLines(FIRST_LINES, FilesLines(files) + (tail + [""]));
    FilesRead(files, tail + [""]);
    SkipLines(tail, [""]);
    assert FirstPath([""]) == "";
  }

  // ----- Paths that need no cleaning -----

  predicate CleanPath(f: string) {
    && (forall c <- f :: !IsSpace(c))
    && (f != "" ==> !IsQuote(f[0]) && !IsQuote(f[|f| - 1]))
  }

  function FirstFile(files: seq<string>): string {
    if files == [] then ""
    else if files[0] != "" && files[0][|files[0]| - 1] != '/' then files[0]
    else FirstFile(files[1..])
  }

  /** For clean paths the worker's target is the first entry that is neither empty nor a directory. */
  lemma {:induction false} CleanRoundTrip(files: seq<string>, stamp: string)
    requires forall f <- files :: CleanPath(f)
    requires '\n' !in stamp && ' ' !in stamp
    ensures FirstPath(Split(Unlines(PacketLines(files, stamp)))) == FirstFile(files)
  {
    assert forall f <- files :: '\n' !in f;
    PacketRoundTrip(files, stamp);
    FirstUsableIsFirstFile(files);
  }

  /** A clean path is read as it is written. */
  lemma CleanIsUsable(f: string)
    requires CleanPath(f)
    ensures Cleaned(f) == f
    ensures Usable(f) <==> f != "" && f[|f| - 1] != '/'
  {
    if f != "" {
      assert f[0] in f && f[|f| - 1] in f;
    }
    assert IsSpace(' ');
  }

  lemma {:induction false} FirstUsableIsFirstFile(files: seq<string>)
    requires forall f <- files :: CleanPath(f)
    ensures FirstUsable(files) == FirstFile(files)
  {
    if files != [] {
      var f := files[0];
      assert f in files && forall g <- files[1..] :: g in files;
      CleanIsUsable(f);
      FirstUsableIsFirstFile(files[1..]);
    }
  }

  // ----- The packet as a whole, and the entries as they are read -----

  /** Where what stands: one entry of three lines a file, in order, between a fixed head and tail. */
  lemma PacketShape(files: seq<string>, stamp: string, i: nat)
    requires i < |files|
    ensures var lines := PacketLines(files, stamp);
            var n := |files|;
            && |lines| == 12 + 3 * n
            && lines[0] == "BOUNDED_EXECUTION:" && lines[2] == "  target_files:"
            && lines[3 + 3 * i] == "    - path: " + files[i]
            && lines[3 + 3 * i + 1] == "      confidence: 0.85"
            && lines[3 + 3 * n] == "  scope:" && lines[3 + 3 * n + 3] == "    bounded: true"
            && lines[3 + 3 * n + 4] == "  inference_metadata:"
            && lines[3 + 3 * n + 6] == "    generated_at: " + stamp
  {
    FilesShape(files, i);
    var entries, tail := FilesLines(files), TailLines(stamp);
    assert tail[0] == "  scope:" && tail[3] == "    bounded: true" && tail[4] == "  inference_metadata:";
    assert tail[6] == "    generated_at: " + stamp && |tail| == 9;
    assert PacketLines(files, stamp) == FIRST_LINES + entries + tail;
  }

  lemma {:induction false} FilesShape(files: seq<string>, i: nat)
    requires i < |files|
    ensures |FilesLines(files)| == 3 * |files|
    ensures FilesLines(files)[3 * i] == "    - path: " + files[i]
    ensures FilesLines(files)[3 * i + 1] == "      confidence: 0.85"
  {
    if |files| == 1 {
      assert FilesLines(files[1..]) == [];
    } else if i == 0 {
      FilesShape(files[1..], 0);
    } else {
      FilesShape(files[1..], i - 1);
    }
  }

  /** One pair of quotes around a path, of either kind, is not part of it. */
  lemma QuotesGo(f: string, quote: char)
    requires CleanPath(f) && f != "" && (quote == '"' || quote == '\'')
    ensures Cleaned([quote] + f + [quote]) == f
  {
    var s := [quote] + f + [quote];
    assert f[0] in f && f[|f| - 1] in f;
    assert s[1..] == f + [quote] && (f + [quote])[..|f|] == f;
    assert Trim(s, IsSpace) == s;
    assert TrimLeft(s, IsQuote) == TrimLeft(f + [quote], IsQuote) == f + [quote];
    assert TrimRight(f + [quote], IsQuote) == TrimRight(f, IsQuote) == f;
  }

  /** Space around an entry is no part of it; one with space inside, a directory and an empty one
      are passed over for the next. */
  lemma PassedOver(f: string, files: seq<string>)
    requires Cleaned(f) == "" || ' ' in Cleaned(f) || Cleaned(f)[|Cleaned(f)| - 1] == '/'
    ensures FirstUsable([f] + files) == FirstUsable(files)
  {
    assert ([f] + files)[1..] == files;
  }
}
