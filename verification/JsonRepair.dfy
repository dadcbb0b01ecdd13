/** `repair_truncated_json` up to and including its comma trim, and what it gives on a cut-off object. */
module JsonRepair {
  import opened JsonText
  import opened JsonScan
  import opened Strings

  // ----- Strings that hold brackets -----

  function Count(t: string, c: char): nat {
    if t == "" then 0 else Count(t[..|t| - 1], c) + if t[|t| - 1] == c then 1 else 0
  }

  /** The bodies of all strings in a value, keys included, one after the other. */
  function Bodies(j: Json): string
    decreases j, 1
  {
    match j
    case Scalar(_) => ""
    case Str(body) => body
    case Arr(_, items) => ItemsBodies(items)
    case Obj(_, members) => MembersBodies(members)
  }

  function ItemsBodies(items: seq<Item>): string
    decreases items, 0
  {
    if items == [] then "" else Bodies(items[0].value) + ItemsBodies(items[1..])
  }

  function MembersBodies(members: seq<Member>): string
    decreases members, 0
  {
    if members == [] then ""
    else members[0].key + Bodies(members[0].value) + MembersBodies(members[1..])
  }

  /** Seen through their strings alone, the members close every brace and every bracket they open. */
  predicate StringsBalance(members: seq<Member>) {
    var bodies := MembersBodies(members);
    Count(bodies, '{') == Count(bodies, '}') && Count(bodies, '[') <= Count(bodies, ']')
  }

  // ----- The repair -----

  datatype Outcome =
    | Unchanged(text: string)
    | NoJsonFound
    | BracketTrimmed(text: string)
    | CommaTrimmed(text: string)
    | NotTrimmed  // goes on to the key extraction, which is not modelled

  const FENCE := "```"
  const JSON_FENCE := "```json"

  function DropFence(s: string, fence: string): string {
    if fence <= s then StripLeft(s[|fence|..]) else s
  }

  function DropEndFence(s: string): string {
    if |s| >= 3 && s[|s| - 3..] == FENCE then StripRight(s[..|s| - 3]) else s
  }

  /** The text without surrounding space and without a markdown fence. */
  function Unfence(raw: string): string {
    DropEndFence(DropFence(DropFence(StripRight(StripLeft(raw)), JSON_FENCE), FENCE))
  }

  function FindChar(s: string, c: char): (i: int)
    ensures -1 <= i < |s|
    ensures i >= 0 ==> s[i] == c && c !in s[..i]
    ensures i == -1 ==> c !in s
  {
    if s == "" then -1
    else if s[0] == c then 0
    else
      var i := FindChar(s[1..], c);
      assert forall j | 0 < j < |s| :: s[j] == s[1..][j - 1];
      if i >= 0 then i + 1 else -1
  }

  function FindLastChar(s: string, c: char): (i: int)
    ensures -1 <= i < |s|
    ensures i >= 0 ==> s[i] == c && c !in s[i + 1..]
    ensures i == -1 ==> c !in s
  {
    if s == "" then -1
    else if s[|s| - 1] == c then |s| - 1
    else
      var front := s[..|s| - 1];
      var i := FindLastChar(front, c);
      assert s == front + [s[|s| - 1]];
      assert i >= 0 ==> s[i + 1..] == front[i + 1..] + [s[|s| - 1]];
      i
  }

  function Repeat(c: char, n: int): string {
    if n <= 0 then "" else Repeat(c, n - 1) + [c]
  }

  /** All missing braces first, then all missing brackets, counted without looking at strings. */
  function CloseAll(t: string): string {
    t + Repeat('}', Count(t, '{') - Count(t, '}')) + Repeat(']', Count(t, '[') - Count(t, ']'))
  }

  function TrimToComma(t: string, loads: string -> bool): Outcome {
    var last := LastRootComma(START, t);
    if last > 0 && loads(CloseAll(t[..last])) then CommaTrimmed(CloseAll(t[..last])) else NotTrimmed
  }

  function RepairedBare(s: string, loads: string -> bool): Outcome {
    var start := FindChar(s, '{');
    var end := FindLastChar(s, '}');
    if loads(s) then Unchanged(s)
    else if start < 0 then NoJsonFound
    else if end > start && loads(s[start..end + 1]) then BracketTrimmed(s[start..end + 1])
    else TrimToComma(s[start..], loads)
  }

  function Repaired(raw: string, loads: string -> bool): Outcome {
    RepairedBare(Unfence(raw), loads)
  }

  // ----- The same, with the script's loops -----

  method FindRootComma(t: string) returns (last: int)
    ensures last == LastRootComma(START, t)
  {
    var depth, inStr, esc := 0, false, false;
    last := -1;
    for i := 0 to |t|
      invariant Scan(START, t[..i]) == Mode(depth, inStr, esc)
      invariant last == LastRootComma(START, t[..i])
    {
      assert t[..i + 1][..i] == t[..i];
      var ch := t[i];
      if esc {
        esc := false;
      } else if ch == '\\' && inStr {
        esc := true;
      } else if ch == '\"' && !esc {
        inStr := !inStr;
      } else if inStr {
      } else if ch == '{' || ch == '[' {
        depth := depth + 1;
      } else if ch == '}' || ch == ']' {
        depth := depth - 1;
      } else if ch == ',' && depth == 1 {
        last := i;
      }
    }
    assert t[..|t|] == t;
  }

  method CloseOpenStructures(t: string) returns (repaired: string)
    ensures repaired == CloseAll(t)
  {
    var openB, openBk := 0, 0;
    for i := 0 to |t|
      invariant openB == Count(t[..i], '{') - Count(t[..i], '}')
      invariant openBk == Count(t[..i], '[') - Count(t[..i], ']')
    {
      assert t[..i + 1][..i] == t[..i];
      if t[i] == '{' { openB := openB + 1; }
      else if t[i] == '}' { openB := openB - 1; }
      else if t[i] == '[' { openBk := openBk + 1; }
      else if t[i] == ']' { openBk := openBk - 1; }
    }
    assert t[..|t|] == t;
    repaired := t;
    if openB > 0 { repaired := repaired + Repeat('}', openB); }
    if openBk > 0 { repaired := repaired + Repeat(']', openBk); }
  }

  method RepairTruncatedJson(raw: string, loads: string -> bool) returns (out: Outcome)
    ensures out == Repaired(raw, loads)
  {
    var s := Unfence(raw);
    if loads(s) { return Unchanged(s); }
    var start := FindChar(s, '{');
    if start < 0 { return NoJsonFound; }
    var end := FindLastChar(s, '}');
    if end > start {
      var candidate := s[start..end + 1];
      if loads(candidate) { return BracketTrimmed(candidate); }
    }
    var truncated := s[start..];
    var last := FindRootComma(truncated);
    if last > 0 {
      var repaired := CloseOpenStructures(truncated[..last]);
      if loads(repaired) { return CommaTrimmed(repaired); }
    }
    return NotTrimmed;
  }
}
