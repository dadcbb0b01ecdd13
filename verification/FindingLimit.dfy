/** The row limiter over a markdown report. */
module FindingLimit {
  import opened Strings

  function Bars(line: string): nat {
    if line == "" then 0 else Bars(line[1..]) + if line[0] == '|' then 1 else 0
  }

  predicate Has(line: string, word: string) {
    IndexFrom(line, word, 0) >= 0
  }

  predicate TableRow(line: string) {
    "|" <= line && !("| ---" <= line) && !("|---" <= line) && !("| #" <= line)
  }

  predicate HeaderLike(line: string) {
    Bars(line) >= 3 && (Has(line, "#") || Has(line, "File") || Has(line, "Finding"))
  }

  /** A data row, once `rows` data rows have been counted: a header counts as one behind the first. */
  predicate DataRow(line: string, rows: nat) {
    TableRow(line) && !(HeaderLike(line) && rows == 0)
  }

  /** The lines kept when `rows` data rows have gone by already. */
  function Limited(lines: seq<string>, rows: nat, max: int): seq<string> {
    if lines == [] then []
    else if !DataRow(lines[0], rows) then [lines[0]] + Limited(lines[1..], rows, max)
    else if rows + 1 > max then Limited(lines[1..], rows + 1, max)
    else [lines[0]] + Limited(lines[1..], rows + 1, max)
  }

  function DataRows(lines: seq<string>, rows: nat): nat {
    if lines == [] then 0
    else if DataRow(lines[0], rows) then 1 + DataRows(lines[1..], rows + 1)
    else DataRows(lines[1..], rows)
  }

  function Enforced(content: string, max: int): string {
    Join(Limited(Split(content), 0, max))
  }

  method LimitLines(lines: seq<string>, maxFindings: int) returns (result: seq<string>, trimmed: bool)
    ensures result == Limited(lines, 0, maxFindings)
    ensures trimmed <==> |result| < |lines|
  {
    result := [];
    var tableRows: nat := 0;
    trimmed := false;
    for i := 0 to |lines|
      invariant result + Limited(lines[i..], tableRows, maxFindings) == Limited(lines, 0, maxFindings)
      invariant |result| <= i && (trimmed <==> |result| < i)
    {
      LimitedStep(result, lines, i, tableRows, maxFindings);
      var line := lines[i];
      if TableRow(line) {
        if HeaderLike(line) && tableRows == 0 {
          result := result + [line];
          continue;
        }
        tableRows := tableRows + 1;
        if tableRows > maxFindings {
          trimmed := true;
          continue;
        }
      }
      result := result + [line];
    }
    assert lines[|lines|..] == [];
  }

  lemma LimitedStep(result: seq<string>, lines: seq<string>, i: nat, rows: nat, max: int)
    requires i < |lines|
    ensures result + Limited(lines[i..], rows, max) ==
            if !DataRow(lines[i], rows) then (result + [lines[i]]) + Limited(lines[i + 1..], rows, max)
            else if rows + 1 > max then result + Limited(lines[i + 1..], rows + 1, max)
            else (result + [lines[i]]) + Limited(lines[i + 1..], rows + 1, max)
  {
    assert lines[i..][0] == lines[i] && lines[i..][1..] == lines[i + 1..];
  }

  method EnforceMaxFindings(content: string, maxFindings: int) returns (out: string, trimmed: bool)
    ensures out == Enforced(content, maxFindings)
    ensures trimmed <==> |Limited(Split(content), 0, maxFindings)| < |Split(content)|
  {
    var result;
    result, trimmed := LimitLines(Split(content), maxFindings);
    out := Join(result);
  }

  // ----- What is kept -----

  /** `kept` is `lines` without some of them, each of those a data row behind the limit. */
  ghost predicate DropsDataRows(lines: seq<string>, kept: seq<string>, rows: nat, max: int)
    decreases |lines|
  {
    if lines == [] then kept == []
    else
      var rows' := if DataRow(lines[0], rows) then rows + 1 else rows;
      || (kept != [] && kept[0] == lines[0] && DropsDataRows(lines[1..], kept[1..], rows', max))
      || (rows' == rows + 1 > max && DropsDataRows(lines[1..], kept, rows', max))
  }

  lemma {:induction false} OnlyDataRowsGo(lines: seq<string>, rows: nat, max: int)
    ensures DropsDataRows(lines, Limited(lines, rows, max), rows, max)
    decreases |lines|
  {
    if lines != [] {
      if DataRow(lines[0], rows) {
        OnlyDataRowsGo(lines[1..], rows + 1, max);
        if rows + 1 <= max {
          assert Limited(lines, rows, max)[1..] == Limited(lines[1..], rows + 1, max);
        } else {
          assert Limited(lines, rows, max) == Limited(lines[1..], rows + 1, max);
        }
      } else {
        OnlyDataRowsGo(lines[1..], rows, max);
        assert Limited(lines, rows, max)[1..] == Limited(lines[1..], rows, max);
      }
    }
  }

  predicate NoRows(lines: seq<string>) {
    forall i | 0 <= i < |lines| :: !TableRow(lines[i])
  }

  lemma {:induction false} PastTheLimit(lines: seq<string>, rows: nat, max: int)
    requires rows >= 1 && rows >= max
    ensures NoRows(Limited(lines, rows, max))
    decreases |lines|
  {
    if lines != [] {
      PastTheLimit(lines[1..], if DataRow(lines[0], rows) then rows + 1 else rows, max);
    }
  }

  lemma {:induction false} NoRowsStay(lines: seq<string>, rows: nat, max: int)
    requires NoRows(lines)
    ensures Limited(lines, rows, max) == lines && DataRows(lines, rows) == 0
    decreases |lines|
  {
    if lines != [] {
      NoRowsStay(lines[1..], rows, max);
    }
  }

  /** The kept lines hold as many data rows as there were, up to the limit, and limiting them again
      changes nothing. */
  lemma {:induction false} LimitedTwice(lines: seq<string>, rows: nat, max: int)
    ensures var once := Limited(lines, rows, max);
            && Limited(once, rows, max) == once
            && DataRows(once, rows) ==
               if rows + DataRows(lines, rows) <= max then DataRows(lines, rows)
               else if rows < max then max - rows
               else 0
    decreases |lines|
  {
    if lines != [] {
      var once := Limited(lines, rows, max);
      if DataRow(lines[0], rows) && rows + 1 > max {
        PastTheLimit(lines[1..], rows + 1, max);
        NoRowsStay(once, rows, max);
      } else {
        var rows' := if DataRow(lines[0], rows) then rows + 1 else rows;
        LimitedTwice(lines[1..], rows', max);
        assert once[1..] == Limited(lines[1..], rows', max);
      }
    }
  }

  lemma {:induction false} LimitedLines(lines: seq<string>, rows: nat, max: int)
    requires forall line <- lines :: '\n' !in line
    ensures forall line <- Limited(lines, rows, max) :: '\n' !in line
    ensures |Limited(lines, rows, max)| <= |lines|
    decreases |lines|
  {
    if lines != [] {
      assert lines[0] in lines && forall line <- lines[1..] :: line in lines;
      LimitedLines(lines[1..], if DataRow(lines[0], rows) then rows + 1 else rows, max);
    }
  }

  /** On the text itself, through join and split: a limited report has at most `max` data rows, and
      limiting it again neither changes it nor reports a trim. */
  lemma EnforcedIsStable(content: string, max: int)
    ensures var once := Enforced(content, max);
            && Enforced(once, max) == once
            && |Limited(Split(once), 0, max)| == |Split(once)|
            && (max >= 0 ==> DataRows(Split(once), 0) <= max)
  {
    var kept := Limited(Split(content), 0, max);
    LimitedLines(Split(content), 0, max);
    LimitedTwice(Split(content), 0, max);
    if kept == [] {
      assert Split("") == [""];
      NoRowsStay([""], 0, max);
    } else {
      SplitJoin(kept);
    }
  }

  // ----- Which lines may go -----

  /** Text, separators, and rows that begin with a numbered heading are never dropped. */
  predicate NeverCounted(line: string) {
    !("|" <= line) || "|---" <= line || "| ---" <= line || "| #" <= line
  }

  /** They all stay: as often as they are in the report they are in the result. */
  lemma {:induction false} NeverDropped(lines: seq<string>, rows: nat, max: int, line: string)
    requires NeverCounted(line)
    ensures multiset(Limited(lines, rows, max))[line] == multiset(lines)[line]
    decreases |lines|
  {
    if lines != [] {
      assert lines == [lines[0]] + lines[1..];
      NeverDropped(lines[1..], if DataRow(lines[0], rows) then rows + 1 else rows, max, line);
    }
  }

  /** A header of three bars or more that has #, File or Finding stays, as long as no data row has
      gone before it; behind one it counts as a row, and so does every other row of the table. */
  lemma HeaderStays(line: string, rows: nat)
    requires !NeverCounted(line)
    ensures DataRow(line, rows) <==>
            rows > 0 || Bars(line) < 3 || (Absent(line, "#") && Absent(line, "File") && Absent(line, "Finding"))
  {
  }

  ghost predicate Absent(line: string, word: string) {
    forall i :: !At(line, word, i)
  }

  lemma {:induction false} BarsCount(line: string)
    ensures Bars(line) == multiset(line)['|']
  {
    if line != "" {
      BarsCount(line[1..]);
      assert line == [line[0]] + line[1..];
    }
  }

  /** With data rows only, the first `max` of them are what is left. */
  lemma {:induction false} FirstRowsStay(lines: seq<string>, rows: nat, max: int)
    requires forall i | 0 <= i < |lines| :: DataRow(lines[i], rows + i)
    ensures Limited(lines, rows, max) ==
            if max <= rows then [] else if max - rows < |lines| then lines[..max - rows] else lines
    decreases |lines|
  {
    if lines != [] {
      forall i | 0 <= i < |lines[1..]|
        ensures DataRow(lines[1..][i], rows + 1 + i)
      {
        assert DataRow(lines[i + 1], rows + (i + 1));
      }
      FirstRowsStay(lines[1..], rows + 1, max);
    }
  }
}
