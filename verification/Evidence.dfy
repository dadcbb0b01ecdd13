/** The evidence bundle and its budget of lines. */
module Evidence {
  import opened Strings

  /** A label and what its command printed. */
  datatype Gathered = Gathered(heading: string, output: string)

  const BUDGET := 80
  const NOTHING := "(no evidence gathered)"

  function Lines(s: string): nat {
    |Split(s)|
  }

  function JoinParts(parts: seq<string>): string {
    if |parts| == 0 then ""
    else if |parts| == 1 then parts[0]
    else parts[0] + ("\n" + ("\n" + JoinParts(parts[1..])))
  }

  function Part(heading: string, lines: seq<string>): string {
    "### " + heading + ("\n" + Join(lines))
  }

  /** The parts the loop appends from `gathered` on, when `total` lines are used up. */
  function Parts(gathered: seq<Gathered>, total: nat): seq<string>
    decreases |gathered|
  {
    if gathered == [] then []
    else if gathered[0].output == "" then Parts(gathered[1..], total)
    else if BUDGET - total <= 2 then []
    else
      var lines := Split(gathered[0].output);
      var kept := if |lines| > BUDGET - total - 2 then lines[..BUDGET - total - 2] else lines;
      [Part(gathered[0].heading, kept)] + Parts(gathered[1..], total + |kept| + 2)
  }

  function Bundle(gathered: seq<Gathered>): string {
    if Parts(gathered, 0) == [] then NOTHING else JoinParts(Parts(gathered, 0))
  }

  /** What one turn of the loop adds: nothing, nothing ever again, or one part. */
  lemma PartsStep(done: seq<string>, gathered: seq<Gathered>, i: nat, total: nat)
    requires i < |gathered|
    ensures var g := gathered[i];
      var rest := done + Parts(gathered[i..], total);
      if g.output == "" then rest == done + Parts(gathered[i + 1..], total)
      else if BUDGET - total <= 2 then rest == done
      else
        var lines := Split(g.output);
        var kept := if |lines| > BUDGET - total - 2 then lines[..BUDGET - total - 2] else lines;
        rest == (done + [Part(g.heading, kept)]) + Parts(gathered[i + 1..], total + |kept| + 2)
  {
    assert gathered[i..][0] == gathered[i] && gathered[i..][1..] == gathered[i + 1..];
  }

  method BuildEvidenceBundle(gathered: seq<Gathered>) returns (bundle: string)
    ensures bundle == Bundle(gathered)
  {
    var parts: seq<string> := [];
    var totalLines: nat := 0;
    var i := 0;
    assert gathered[0..] == gathered;
    while i < |gathered|
      invariant 0 <= i <= |gathered|
      invariant parts + Parts(gathered[i..], totalLines) == Parts(gathered, 0)
      invariant i == |gathered| ==> parts == Parts(gathered, 0)
      decreases |gathered| - i
    {
      PartsStep(parts, gathered, i, totalLines);
      var g := gathered[i];
      i := i + 1;
      if g.output != "" {
        var lines := Split(g.output);
        var remaining := BUDGET - totalLines;
        if remaining <= 2 {
          break;
        }
        if |lines| > remaining - 2 {
          lines := lines[..remaining - 2];
        }
        parts := parts + [Part(g.heading, lines)];
        totalLines := totalLines + |lines| + 2;
      }
      assert i == |gathered| ==> gathered[i..] == [];
    }
    assert parts == Parts(gathered, 0);
    if |parts| == 0 {
      return NOTHING;
    }
    bundle := JoinParts(parts);
  }

  // ----- Counting lines in the joined text -----

  lemma LinesAppend(a: string, b: string)
    ensures Lines(a + ("\n" + b)) == Lines(a) + Lines(b)
  {
    SplitAppend(a, b);
  }

  lemma PartLines(heading: string, lines: seq<string>)
    requires '\n' !in heading && lines != [] && forall line <- lines :: '\n' !in line
    ensures Lines(Part(heading, lines)) == 1 + |lines|
  {
    var head := "### " + heading;
    LinesAppend(head, Join(lines));
    SplitLine(head, "");
    SplitJoin(lines);
  }

  /** Lines of the parts joined by blank lines, counted with one blank behind each of them. */
  function JoinedLines(parts: seq<string>): nat {
    if parts == [] then 0 else Lines(parts[0]) + 1 + JoinedLines(parts[1..])
  }

  lemma {:induction false} JoinPartsLines(parts: seq<string>)
    requires parts != []
    ensures Lines(JoinParts(parts)) == JoinedLines(parts) - 1
  {
    if |parts| > 1 {
      JoinPartsLines(parts[1..]);
      LinesAppend(parts[0], "\n" + JoinParts(parts[1..]));
      LinesAppend("", JoinParts(parts[1..]));
      assert "" + ("\n" + JoinParts(parts[1..])) == "\n" + JoinParts(parts[1..]);
    } else {
      assert parts[1..] == [];
    }
  }

  /** The running counter is the line count: a part uses its lines, its label and one blank. */
  lemma {:induction false} PartsStayInBudget(gathered: seq<Gathered>, total: nat)
    requires forall g <- gathered :: '\n' !in g.heading
    requires total <= BUDGET
    ensures total + JoinedLines(Parts(gathered, total)) <= BUDGET
    decreases |gathered|
  {
    if gathered != [] {
      assert gathered[0] in gathered && forall g <- gathered[1..] :: g in gathered;
      if gathered[0].output == "" {
        PartsStayInBudget(gathered[1..], total);
      } else if BUDGET - total > 2 {
        var lines := Split(gathered[0].output);
        var kept := if |lines| > BUDGET - total - 2 then lines[..BUDGET - total - 2] else lines;
        assert forall line <- kept :: line in lines;
        PartLines(gathered[0].heading, kept);
        PartsStayInBudget(gathered[1..], total + |kept| + 2);
        assert Parts(gathered, total)[1..] == Parts(gathered[1..], total + |kept| + 2);
      }
    }
  }

  /** Labels and blank separators counted, the bundle stays under its budget whatever is printed. */
  lemma BundleUnderBudget(gathered: seq<Gathered>)
    requires forall g <- gathered :: '\n' !in g.heading
    ensures Lines(Bundle(gathered)) < 80
  {
    if Parts(gathered, 0) == [] {
      SplitLine(NOTHING, "");
    } else {
      PartsStayInBudget(gathered, 0);
      JoinPartsLines(Parts(gathered, 0));
    }
  }

  // ----- Nothing is cut without need -----

  /** Lines the budget needs to show everything. */
  function Need(gathered: seq<Gathered>): nat {
    if gathered == [] then 0
    else (if gathered[0].output == "" then 0 else Lines(gathered[0].output) + 2) + Need(gathered[1..])
  }

  function WholeParts(gathered: seq<Gathered>): seq<string> {
    if gathered == [] then []
    else if gathered[0].output == "" then WholeParts(gathered[1..])
    else [Part(gathered[0].heading, Split(gathered[0].output))] + WholeParts(gathered[1..])
  }

  /** Evidence that fits is shown whole. */
  lemma {:induction false} NothingLostThatFits(gathered: seq<Gathered>, total: nat)
    requires total + Need(gathered) <= 80
    ensures Parts(gathered, total) == WholeParts(gathered)
    decreases |gathered|
  {
    if gathered != [] {
      if gathered[0].output == "" {
        NothingLostThatFits(gathered[1..], total);
      } else {
        NothingLostThatFits(gathered[1..], total + Lines(gathered[0].output) + 2);
      }
    }
  }

  // ----- What is shown -----

  /** Every part is the label of a command that printed something, and the first lines it printed,
      in the order of the commands. */
  lemma {:induction false} PartsAreFirstLines(gathered: seq<Gathered>, total: nat) returns (at: seq<nat>)
    ensures Shows(Parts(gathered, total), gathered, at)
    decreases |gathered|
  {
    if gathered == [] || (gathered[0].output != "" && BUDGET - total <= 2) {
      return [];
    }
    if gathered[0].output == "" {
      var more := PartsAreFirstLines(gathered[1..], total);
      ShowsBehind(Parts(gathered[1..], total), gathered, more);
      at := OneOn(more);
    } else {
      var lines := Split(gathered[0].output);
      var kept := if |lines| > BUDGET - total - 2 then lines[..BUDGET - total - 2] else lines;
      var more := PartsAreFirstLines(gathered[1..], total + |kept| + 2);
      var parts := Parts(gathered[1..], total + |kept| + 2);
      ShowsBehind(parts, gathered, more);
      IsPart(gathered[0], |kept|);
      assert kept == lines[..|kept|];
      ShowsFirst(Part(gathered[0].heading, kept), parts, gathered, OneOn(more));
      at := [0] + OneOn(more);
    }
  }

  function OneOn(at: seq<nat>): seq<nat> {
    seq(|at|, k requires 0 <= k < |at| => at[k] + 1)
  }

  /** The parts are the first lines of what was gathered at these places, in order. */
  ghost predicate Shows(parts: seq<string>, gathered: seq<Gathered>, at: seq<nat>) {
    && |at| == |parts|
    && (forall k | 0 <= k < |at| :: at[k] < |gathered| && IsFirstLines(parts[k], gathered[at[k]]))
    && (forall j, k | 0 <= j < k < |at| :: at[j] < at[k])
  }

  lemma ShowsBehind(parts: seq<string>, gathered: seq<Gathered>, at: seq<nat>)
    requires gathered != [] && Shows(parts, gathered[1..], at)
    ensures Shows(parts, gathered, OneOn(at))
    ensures forall k <- OneOn(at) :: k > 0
  {
  }

  lemma ShowsFirst(part: string, parts: seq<string>, gathered: seq<Gathered>, at: seq<nat>)
    requires gathered != [] && IsFirstLines(part, gathered[0]) && Shows(parts, gathered, at)
    requires forall k <- at :: k > 0
    ensures Shows([part] + parts, gathered, [0] + at)
  {
    var all := [0] + at;
    forall j, k | 0 <= j < k < |all|
      ensures all[j] < all[k]
    {
      assert all[k] == at[k - 1] && at[k - 1] in at;
    }
  }

  lemma IsPart(g: Gathered, n: nat)
    requires g.output != "" && 1 <= n <= |Split(g.output)|
    ensures IsFirstLines(Part(g.heading, Split(g.output)[..n]), g)
  {
    var body := Join(Split(g.output)[..n]);
    assert "### " + g.heading + ("\n" + body) == "### " + g.heading + "\n" + body;
  }

  ghost predicate IsFirstLines(part: string, g: Gathered) {
    g.output != "" && exists n | 1 <= n <= |Split(g.output)| ::
      part == "### " + g.heading + "\n" + Join(Split(g.output)[..n])
  }

  /** Nothing is left out before the budget of 80 lines is used up but for two. */
  lemma {:induction false} CutOnlyWhenFull(gathered: seq<Gathered>, total: nat)
    requires forall g <- gathered :: '\n' !in g.heading
    requires total <= 80
    ensures Parts(gathered, total) == WholeParts(gathered) || total + JoinedLines(Parts(gathered, total)) >= 78
    decreases |gathered|
  {
    if gathered != [] {
      assert gathered[0] in gathered && forall g <- gathered[1..] :: g in gathered;
      if gathered[0].output == "" {
        CutOnlyWhenFull(gathered[1..], total);
      } else if BUDGET - total > 2 {
        var lines := Split(gathered[0].output);
        var kept := if |lines| > BUDGET - total - 2 then lines[..BUDGET - total - 2] else lines;
        assert forall line <- kept :: line in lines;
        PartLines(gathered[0].heading, kept);
        CutOnlyWhenFull(gathered[1..], total + |kept| + 2);
        assert Parts(gathered, total)[1..] == Parts(gathered[1..], total + |kept| + 2);
        assert Parts(gathered, total)[0] == Part(gathered[0].heading, kept);
      }
    }
  }

  /** The text that says so when nothing was printed, and only then: the batch looks for it. */
  lemma {:induction false} NothingGathered(gathered: seq<Gathered>)
    ensures (forall g <- gathered :: g.output == "") ==> Bundle(gathered) == "(no evidence gathered)"
    ensures (exists g <- gathered :: g.output != "") ==> Parts(gathered, 0) != []
  {
    NoOutputNoPart(gathered);
  }

  lemma {:induction false} NoOutputNoPart(gathered: seq<Gathered>)
    ensures Parts(gathered, 0) == [] <==> forall g <- gathered :: g.output == ""
  {
    if gathered != [] {
      NoOutputNoPart(gathered[1..]);
      assert gathered[0] in gathered && forall g <- gathered[1..] :: g in gathered;
      assert gathered == [gathered[0]] + gathered[1..];
    }
  }

  /** Between two parts there is one blank line. */
  lemma JoinedByBlank(parts: seq<string>)
    requires |parts| > 1
    ensures Split(JoinParts(parts)) == Split(parts[0]) + [""] + Split(JoinParts(parts[1..]))
  {
    SplitBlank(parts[0], JoinParts(parts[1..]));
  }

  lemma SplitBlank(part: string, rest: string)
    ensures Split(part + ("\n" + ("\n" + rest))) == Split(part) + [""] + Split(rest)
  {
    SplitAppend(part, "\n" + rest);
    BlankLine(rest);
    assert Split(part) + ([""] + Split(rest)) == Split(part) + [""] + Split(rest);
  }

  lemma BlankLine(rest: string)
    ensures Split("\n" + rest) == [""] + Split(rest)
  {
    assert ("\n" + rest)[1..] == rest;
  }
}
