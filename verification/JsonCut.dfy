/** What the repair gives when the reply is an object cut off anywhere. */
module JsonCut {
  import opened JsonText
  import opened JsonScan
  import opened JsonRepair
  import opened Strings

  // ----- Counting brackets in printed values -----

  function Net(t: string, open: char, close: char): int {
    Count(t, open) - Count(t, close)
  }

  predicate Pair(open: char, close: char) {
    (open == '{' && close == '}') || (open == '[' && close == ']')
  }

  lemma {:induction false} NetAppend(a: string, b: string, open: char, close: char)
    ensures Net(a + b, open, close) == Net(a, open, close) + Net(b, open, close)
    decreases |b|
  {
    if b == "" {
      assert a + b == a;
    } else {
      NetAppend(a, b[..|b| - 1], open, close);
      assert (a + b)[..|a + b| - 1] == a + b[..|b| - 1];
    }
  }

  lemma {:induction false} PlainNet(t: string, open: char, close: char)
    requires AllPlain(t) && Pair(open, close)
    ensures Net(t, open, close) == 0
  {
    if t != "" {
      assert forall c <- t[..|t| - 1] :: c in t;
      assert t[|t| - 1] in t;
      PlainNet(t[..|t| - 1], open, close);
    }
  }

  lemma BlankNet(t: string, open: char, close: char)
    requires Blank(t) && Pair(open, close)
    ensures Net(t, open, close) == 0
  {
    BlankIsPlain(t);
    PlainNet(t, open, close);
  }

  lemma ColonNet(before: string, after: string, open: char, close: char)
    requires Blank(before) && Blank(after) && Pair(open, close)
    ensures Net(before + ":" + after, open, close) == 0
  {
    BlankNet(before, open, close);
    BlankNet(after, open, close);
    CharNet(':', open, close);
    NetAppend(before, ":", open, close);
    NetAppend(before + ":", after, open, close);
  }

  lemma CharNet(c: char, open: char, close: char)
    ensures Net([c], open, close) == (if c == open then 1 else 0) - if c == close then 1 else 0
  {
    assert [c][..0] == "";
    assert Count([c], open) == if c == open then 1 else 0;
    assert Count([c], close) == if c == close then 1 else 0;
  }

  lemma NetFive(a: string, b: string, c: string, d: string, e: string, open: char, close: char)
    ensures Net(a + b + c + d + e, open, close) ==
            Net(a, open, close) + Net(b, open, close) + Net(c, open, close) + Net(d, open, close) + Net(e, open, close)
  {
    NetAppend(a, b, open, close);
    NetAppend(a + b, c, open, close);
    NetAppend(a + b + c, d, open, close);
    NetAppend(a + b + c + d, e, open, close);
  }

  /** A printed item or member, its comma and what follows. */
  lemma NetHead(head: string, tail: string, open: char, close: char)
    requires Pair(open, close)
    ensures Net(head + ("," + tail), open, close) == Net(head, open, close) + Net(tail, open, close)
  {
    CharNet(',', open, close);
    NetAppend(",", tail, open, close);
    NetAppend(head, "," + tail, open, close);
  }

  lemma BracketedNet(left: char, pad: string, content: string, right: char, open: char, close: char)
    requires Pair(left, right) && Pair(open, close) && Blank(pad)
    ensures Net([left] + pad + content + [right], open, close) == Net(content, open, close)
  {
    NetAppend([left] + pad + content, [right], open, close);
    NetAppend([left] + pad, content, open, close);
    NetAppend([left], pad, open, close);
    BlankNet(pad, open, close);
    CharNet(left, open, close);
    CharNet(right, open, close);
  }

  /** A printed value opens and closes as many brackets as its strings alone do. */
  lemma {:induction false} ValueNet(j: Json, open: char, close: char)
    requires WellFormed(j) && Pair(open, close)
    ensures Net(Text(j), open, close) == Net(Bodies(j), open, close)
    decreases j, 1
  {
    match j
    case Scalar(token) =>
      ScalarIsPlain(token);
      PlainNet(token, open, close);
    case Str(body) =>
      QuotedNet(body, open, close);
    case Arr(pad, items) =>
      ItemsNet(items, open, close);
      BracketedNet('[', pad, ItemsText(items), ']', open, close);
    case Obj(pad, members) =>
      MembersNet(members, open, close);
      BracketedNet('{', pad, MembersText(members), '}', open, close);
  }

  lemma QuotedNet(body: string, open: char, close: char)
    requires Pair(open, close)
    ensures Net(Quoted(body), open, close) == Net(body, open, close)
  {
    NetAppend("\"" + body, "\"", open, close);
    NetAppend("\"", body, open, close);
    CharNet('\"', open, close);
  }

  lemma {:induction false} ItemNet(item: Item, open: char, close: char)
    requires WellFormedItem(item) && Pair(open, close)
    ensures Net(ItemText(item), open, close) == Net(Bodies(item.value), open, close)
    decreases item, 2
  {
    ValueNet(item.value, open, close);
    BlankNet(item.before, open, close);
    BlankNet(item.after, open, close);
    NetAppend(item.before, Text(item.value), open, close);
    NetAppend(item.before + Text(item.value), item.after, open, close);
  }

  lemma {:induction false} ItemsNet(items: seq<Item>, open: char, close: char)
    requires WellFormedItems(items) && Pair(open, close)
    ensures Net(ItemsText(items), open, close) == Net(ItemsBodies(items), open, close)
    decreases items, 0
  {
    if items != [] {
      ItemNet(items[0], open, close);
      ItemsNet(items[1..], open, close);
      NetAppend(Bodies(items[0].value), ItemsBodies(items[1..]), open, close);
      NetHead(ItemText(items[0]), ItemsText(items[1..]), open, close);
    }
  }

  lemma {:induction false} MemberNet(m: Member, open: char, close: char)
    requires WellFormedMember(m) && Pair(open, close)
    ensures Net(MemberText(m), open, close) == Net(m.key + Bodies(m.value), open, close)
    decreases m, 2
  {
    var colon := m.beforeColon + ":" + m.afterColon;
    ValueNet(m.value, open, close);
    BlankNet(m.before, open, close);
    ColonNet(m.beforeColon, m.afterColon, open, close);
    BlankNet(m.after, open, close);
    QuotedNet(m.key, open, close);
    NetFive(m.before, Quoted(m.key), colon, Text(m.value), m.after, open, close);
    NetAppend(m.key, Bodies(m.value), open, close);
  }

  lemma {:induction false} MembersNet(members: seq<Member>, open: char, close: char)
    requires WellFormedMembers(members) && Pair(open, close)
    ensures Net(MembersText(members), open, close) == Net(MembersBodies(members), open, close)
    decreases members, 0
  {
    if members != [] {
      MemberNet(members[0], open, close);
      MembersNet(members[1..], open, close);
      NetAppend(members[0].key + Bodies(members[0].value), MembersBodies(members[1..]), open, close);
      NetHead(MemberText(members[0]), MembersText(members[1..]), open, close);
    }
  }

  // ----- Where the last root comma of a cut lies -----

  /** After a cut at `n`, exactly the first `k` members came through whole, each with its comma. */
  ghost predicate Survive(members: seq<Member>, n: nat, k: nat) {
    && (k > 0 ==> k < |members| && |MembersText(members[..k])| < n)
    && (k + 1 < |members| ==> n <= |MembersText(members[..k + 1])|)
  }

  /** Scanning a cut of the members inside the root finds one comma for every member that
      survived it, and the last of them right behind the last of those members. */
  lemma {:induction false} CutShape(members: seq<Member>, n: nat) returns (k: nat)
    requires WellFormedMembers(members) && n <= |MembersText(members)|
    ensures Shape(members, n, k)
    decreases |members|
  {
    if members == [] {
      CutInNone(members, n);
      return 0;
    }
    if n <= |MemberText(members[0])| {
      CutInFirst(members, n);
      k := 0;
    } else {
      var rest := BehindFirst(members, n);
      var k' := CutShape(members[1..], rest);
      ShapeBehindFirst(members, n, k');
      k := k' + 1;
    }
  }

  ghost predicate Shape(members: seq<Member>, n: nat, k: nat)
    requires n <= |MembersText(members)|
  {
    && k == RootCommas(Clean(1), MembersText(members)[..n])
    && Survive(members, n, k)
    && LastRootComma(Clean(1), MembersText(members)[..n]) == if k == 0 then -1 else |MembersText(members[..k])|
  }

  /** A cut behind the first member and its comma is a cut of the others. */
  lemma BehindFirst(members: seq<Member>, n: nat) returns (rest: nat)
    requires members != [] && |MemberText(members[0])| < n <= |MembersText(members)|
    ensures rest == n - |MemberText(members[0])| - 1
    ensures |members| > 1 && rest <= |MembersText(members[1..])|
  {
    CutBehindFirst(members, n);
    rest := n - |MemberText(members[0])| - 1;
  }

  lemma ShapeBehindFirst(members: seq<Member>, n: nat, k': nat)
    requires members != [] && |MemberText(members[0])| < n <= |MembersText(members)|
    requires |members| > 1 && n - |MemberText(members[0])| - 1 <= |MembersText(members[1..])|
    requires WellFormedMember(members[0])
    requires Shape(members[1..], n - |MemberText(members[0])| - 1, k')
    ensures Shape(members, n, k' + 1)
  {
    MemberIsLevel(1, members[0]);
    CutBehindFirst(members, n);
    HeadCommas(MemberText(members[0]), MembersText(members[1..])[..n - |MemberText(members[0])| - 1]);
    SurviveHead(members, n, k');
  }

  lemma CutInNone(members: seq<Member>, n: nat)
    requires members == [] && n <= |MembersText(members)|
    ensures Shape(members, n, 0)
  {
    assert MembersText(members)[..n] == "";
  }

  lemma CutInFirst(members: seq<Member>, n: nat)
    requires members != [] && n <= |MemberText(members[0])|
    requires WellFormedMember(members[0])
    ensures n <= |MembersText(members)| && Shape(members, n, 0)
  {
    MemberIsLevel(1, members[0]);
    assert members[..1] == [members[0]];
    assert MembersText(members)[..n] == MemberText(members[0])[..n];
    QuietPrefix(Clean(1), MemberText(members[0]), n);
  }

  lemma CutBehindFirst(members: seq<Member>, n: nat)
    requires members != [] && |MemberText(members[0])| < n <= |MembersText(members)|
    ensures |members| > 1
    ensures n - |MemberText(members[0])| - 1 <= |MembersText(members[1..])|
    ensures MembersText(members)[..n] ==
            MemberText(members[0]) + ("," + MembersText(members[1..])[..n - |MemberText(members[0])| - 1])
  {
  }

  lemma SurviveHead(members: seq<Member>, n: nat, k': nat)
    requires members != [] && n > |MemberText(members[0])|
    requires |members| > 1
    requires Survive(members[1..], n - |MemberText(members[0])| - 1, k')
    ensures Survive(members, n, k' + 1)
    ensures |MembersText(members[..k' + 1])| ==
            |MemberText(members[0])| + if k' == 0 then 0 else 1 + |MembersText(members[1..][..k'])|
  {
    assert members[..1] == [members[0]];
    if k' > 0 {
      PrefixText(members, k' + 1);
    }
    if k' + 2 < |members| {
      PrefixText(members, k' + 2);
    }
  }

  lemma HeadCommas(first: string, tail: string)
    requires Level(Clean(1), first) && Quiet(Clean(1), first)
    ensures var cut := first + ("," + tail);
            && RootCommas(Clean(1), cut) == 1 + RootCommas(Clean(1), tail)
            && LastRootComma(Clean(1), cut) == |first| + (1 + LastRootComma(Clean(1), tail))
  {
    ScanChar(Clean(1), ',');
    ScanAppend(Clean(1), first, "," + tail);
    ScanAppend(Clean(1), ",", tail);
  }

  lemma PrefixText(members: seq<Member>, k: nat)
    requires 2 <= k <= |members|
    ensures MembersText(members[..k]) == MemberText(members[0]) + ("," + MembersText(members[1..][..k - 1]))
  {
    assert members[..k][1..] == members[1..][..k - 1];
  }

  lemma {:induction false} PrefixIsPrefix(members: seq<Member>, k: nat)
    requires k <= |members|
    ensures MembersText(members[..k]) <= MembersText(members)
    decreases k
  {
    if k == 1 {
      assert members[..1] == [members[0]];
    } else if k > 1 {
      PrefixText(members, k);
      PrefixIsPrefix(members[1..], k - 1);
    }
  }

  lemma QuietPrefix(m: Mode, t: string, n: nat)
    requires Quiet(m, t) && n <= |t|
    ensures Quiet(m, t[..n]) && LastRootComma(m, t[..n]) == -1
  {
    assert t == t[..n] + t[n..];
    ScanAppend(m, t[..n], t[n..]);
    NoCommaNoLast(m, t[..n]);
  }

  lemma {:induction false} PrefixWellFormed(members: seq<Member>, k: nat)
    requires WellFormedMembers(members) && k <= |members|
    ensures WellFormedMembers(members[..k])
    decreases k
  {
    if k > 0 {
      PrefixWellFormed(members[1..], k - 1);
      assert members[..k][1..] == members[1..][..k - 1];
    }
  }

  // ----- A cut-off object is never valid -----

  lemma {:induction false} ScanShift(m: Mode, t: string, delta: int)
    ensures Scan(m.(depth := m.depth + delta), t) == Scan(m, t).(depth := Scan(m, t).depth + delta)
  {
    if t != "" {
      ScanShift(m, t[..|t| - 1], delta);
    }
  }

  lemma ValidIsBalanced(s: string)
    requires ValidText(s)
    ensures Scan(START, s) == START
  {
    var before, j, after :| Reads(s, before, j, after);
    PlainIsLevel(START, before);
    ValueIsLevel(0, j);
    PlainIsLevel(START, after);
    LevelAppend(START, before, Text(j));
    LevelAppend(START, before + Text(j), after);
  }

  lemma CutBehindBrace(content: string, n: nat)
    requires 0 < n < |"{" + content + "}"|
    ensures ("{" + content + "}")[..n] == "{" + content[..n - 1]
  {
  }

  /** The root's own brace shifts everything by one character and one level. */
  lemma BehindBrace(content: string)
    ensures Scan(START, "{" + content) == Scan(Clean(1), content)
    ensures RootCommas(START, "{" + content) == RootCommas(Clean(1), content)
    ensures LastRootComma(START, "{" + content) ==
            if LastRootComma(Clean(1), content) >= 0 then 1 + LastRootComma(Clean(1), content) else -1
  {
    ScanChar(START, '{');
    ScanAppend(START, "{", content);
  }

  lemma CutIsOpen(pad: string, members: seq<Member>, n: nat)
    requires WellFormed(Obj(pad, members)) && 0 < n < |Text(Obj(pad, members))|
    ensures Scan(START, Text(Obj(pad, members))[..n]).depth >= 1
  {
    var content := pad + MembersText(members);
    assert Text(Obj(pad, members)) == "{" + content + "}";
    CutBehindBrace(content, n);
    assert Scan(Clean(1), content[..n - 1]).depth >= 1 by {
      BlankIsPlain(pad);
      PlainIsLevel(Clean(1), pad);
      MembersAreLevel(1, members);
      LevelAppend(Clean(1), pad, MembersText(members));
    }
    BehindBrace(content[..n - 1]);
  }

  /** No proper prefix of a printed object is itself valid, so nothing before the comma trim
      can take a cut-off reply for a whole one. */
  lemma CutIsInvalid(pad: string, members: seq<Member>, n: nat)
    requires WellFormed(Obj(pad, members)) && n < |Text(Obj(pad, members))|
    ensures !ValidText(Text(Obj(pad, members))[..n])
  {
    var cut := Text(Obj(pad, members))[..n];
    if n == 0 {
      if ValidText(cut) {
        var before, j, after :| Reads(cut, before, j, after);
        BraceMeansObject(j);
        assert false;
      }
    } else {
      CutIsOpen(pad, members, n);
      if ValidText(cut) {
        ValidIsBalanced(cut);
      }
    }
  }

  // ----- Closing what the trim left open -----

  lemma {:induction false} RepeatHolds(c: char, n: nat)
    ensures |Repeat(c, n)| == n
    ensures forall i | 0 <= i < n :: Repeat(c, n)[i] == c
    decreases n
  {
    if n > 0 {
      RepeatHolds(c, n - 1);
    }
  }

  lemma {:induction false} RepeatScan(depth: int, c: char, n: nat)
    requires c == '}' || c == ']'
    ensures Scan(Clean(depth), Repeat(c, n)) == Clean(depth - n)
    decreases n
  {
    if n > 0 {
      RepeatScan(depth, c, n - 1);
      ScanAppend(Clean(depth), Repeat(c, n - 1), [c]);
      ScanChar(Clean(depth - (n - 1)), c);
    }
  }

  function Opened(kept: seq<Member>): string {
    "{" + MembersText(kept)
  }

  lemma OpenedDepth(kept: seq<Member>)
    requires WellFormedMembers(kept)
    ensures Scan(START, Opened(kept)) == Clean(1)
  {
    MembersAreLevel(1, kept);
    BehindBrace(MembersText(kept));
  }

  /** The kept members become a valid text again with one brace and nothing else. */
  lemma OnlyOneBraceCloses(kept: seq<Member>, braces: nat, brackets: nat)
    requires WellFormedMembers(kept)
    ensures ValidText(Opened(kept) + Repeat('}', braces) + Repeat(']', brackets)) <==> braces == 1 && brackets == 0
  {
    var t := Opened(kept) + Repeat('}', braces) + Repeat(']', brackets);
    ClosersDepth(kept, braces, brackets);
    if braces == 1 && brackets == 0 {
      assert Repeat('}', 1) == "}" && Repeat(']', 0) == "";
      assert t == "" + Text(Obj("", kept)) + "";
      assert Reads(t, "", Obj("", kept), "");
    } else if ValidText(t) {
      ValidIsBalanced(t);
      assert braces == 0 && brackets == 1;
      assert Repeat(']', 1) == "]" && t[|t| - 1] == ']';
      ObjectEndsWithBrace(t);
    }
  }

  lemma ClosersDepth(kept: seq<Member>, braces: nat, brackets: nat)
    requires WellFormedMembers(kept)
    ensures Scan(START, Opened(kept) + Repeat('}', braces) + Repeat(']', brackets)) == Clean(1 - braces - brackets)
  {
    OpenedDepth(kept);
    RepeatScan(1, '}', braces);
    RepeatScan(1 - braces, ']', brackets);
    ScanAppend(START, Opened(kept), Repeat('}', braces));
    ScanAppend(START, Opened(kept) + Repeat('}', braces), Repeat(']', brackets));
  }

  lemma BlankEdges(s: string)
    requires Blank(s) && s != ""
    ensures s[0] != '{' && s[|s| - 1] != ']'
  {
    assert s[0] in s && s[|s| - 1] in s;
  }

  lemma ObjectEndsWithBrace(t: string)
    requires ValidText(t) && t != "" && t[0] == '{'
    ensures t[|t| - 1] != ']'
  {
    var before, j, after :| Reads(t, before, j, after);
    if before != "" {
      BlankEdges(before);
    }
    BraceMeansObject(j);
    if after != "" {
      BlankEdges(after);
    }
  }

  lemma CloseAllCounts(kept: seq<Member>)
    requires WellFormedMembers(kept)
    ensures var bodies := MembersBodies(kept);
            CloseAll(Opened(kept)) ==
            Opened(kept) + Repeat('}', 1 + Net(bodies, '{', '}')) + Repeat(']', Net(bodies, '[', ']'))
  {
    MembersNet(kept, '{', '}');
    MembersNet(kept, '[', ']');
    NetAppend("{", MembersText(kept), '{', '}');
    NetAppend("{", MembersText(kept), '[', ']');
    CharNet('{', '{', '}');
    CharNet('{', '[', ']');
  }

  lemma NegativeRepeat(c: char, n: int)
    ensures Repeat(c, n) == Repeat(c, if n < 0 then 0 else n)
  {
  }

  lemma CloseAllValid(kept: seq<Member>)
    requires WellFormedMembers(kept)
    ensures ValidText(CloseAll(Opened(kept))) <==> StringsBalance(kept)
    ensures StringsBalance(kept) ==> CloseAll(Opened(kept)) == Text(Obj("", kept))
  {
    var bodies := MembersBodies(kept);
    var braces, brackets := 1 + Net(bodies, '{', '}'), Net(bodies, '[', ']');
    CloseAllCounts(kept);
    NegativeRepeat('}', braces);
    NegativeRepeat(']', brackets);
    OnlyOneBraceCloses(kept, if braces < 0 then 0 else braces, if brackets < 0 then 0 else brackets);
    if StringsBalance(kept) {
      assert Repeat('}', 1) == "}";
      assert Text(Obj("", kept)) == Opened(kept) + "}";
    }
  }

  // ----- The repair of a cut-off object -----

  /** What the reader is: it accepts exactly the valid texts. */
  ghost predicate Faithful(loads: string -> bool) {
    forall s :: loads(s) <==> ValidText(s)
  }

  lemma OpenedInCut(members: seq<Member>, n: nat, k: nat)
    requires 0 < n <= 1 + |MembersText(members)| && k <= |members|
    requires |MembersText(members[..k])| < n - 1
    ensures ("{" + MembersText(members)[..n - 1])[..|Opened(members[..k])|] == Opened(members[..k])
  {
    PrefixIsPrefix(members, k);
  }

  lemma EmptyRootCut(pad: string, n: nat)
    requires Blank(pad) && 0 < n < |pad| + 2
    ensures var cut := ("{" + pad + "}")[..n]; RootCommas(START, cut) == 0 && LastRootComma(START, cut) == -1
  {
    CutBehindBrace(pad, n);
    BlankIsPlain(pad);
    assert forall c <- pad[..n - 1] :: c in pad;
    PlainIsLevel(Clean(1), pad[..n - 1]);
    NoCommaNoLast(Clean(1), pad[..n - 1]);
    BehindBrace(pad[..n - 1]);
  }

  lemma RootCut(pad: string, members: seq<Member>, n: nat) returns (k: nat)
    requires WellFormed(Obj(pad, members)) && 0 < n < |Text(Obj(pad, members))|
    ensures var cut := Text(Obj(pad, members))[..n];
            && k == RootCommas(START, cut)
            && Survive(members, n - 1, k)
            && (k == 0 ==> LastRootComma(START, cut) == -1)
            && (k > 0 ==> LastRootComma(START, cut) == |Opened(members[..k])|
                          && cut[..LastRootComma(START, cut)] == Opened(members[..k]))
  {
    var t := Text(Obj(pad, members));
    var cut := t[..n];
    if members == [] {
      EmptyRootCut(pad, n);
      assert t == "{" + pad + "}";
      return 0;
    }
    CutBehindBrace(MembersText(members), n);
    assert t == "{" + MembersText(members) + "}";
    BehindBrace(MembersText(members)[..n - 1]);
    k := CutShape(members, n - 1);
    if k > 0 {
      OpenedInCut(members, n, k);
    }
  }

  lemma CutReachesTrim(pad: string, members: seq<Member>, n: nat, loads: string -> bool)
    requires WellFormed(Obj(pad, members)) && 0 < n < |Text(Obj(pad, members))|
    requires Faithful(loads)
    ensures var cut := Text(Obj(pad, members))[..n]; RepairedBare(cut, loads) == TrimToComma(cut, loads)
  {
    var t := Text(Obj(pad, members));
    var cut := t[..n];
    CutIsInvalid(pad, members, n);
    assert cut[0] == '{';
    var end := FindLastChar(cut, '}');
    if end > 0 {
      assert cut[0..end + 1] == t[..end + 1];
      CutIsInvalid(pad, members, end + 1);
    }
    assert cut[0..] == cut;
  }

  /** An object cut off anywhere is never taken for whole; if `k` members survived the cut with
      their commas, the comma trim gives back exactly the object of those members, and it does so
      if and only if the strings among them balance. */
  lemma CutRepair(pad: string, members: seq<Member>, n: nat, loads: string -> bool)
    returns (k: nat)
    requires WellFormed(Obj(pad, members)) && 0 < n < |Text(Obj(pad, members))|
    requires Faithful(loads)
    ensures k == RootCommas(START, Text(Obj(pad, members))[..n])
    ensures Survive(members, n - 1, k)
    ensures RepairedBare(Text(Obj(pad, members))[..n], loads) ==
            if k > 0 && StringsBalance(members[..k]) then CommaTrimmed(Text(Obj("", members[..k])))
            else NotTrimmed
  {
    k := RootCut(pad, members, n);
    CutReachesTrim(pad, members, n, loads);
    if k > 0 {
      PrefixWellFormed(members, k);
      CloseAllValid(members[..k]);
    }
  }

  // ----- The reply around the object: space and a markdown fence -----

  lemma DropEndFenceKeeps(s: string) returns (n: nat)
    requires s != "" && !IsPythonSpace(s[0]) && s[0] != '`'
    ensures 0 < n <= |s| && DropEndFence(s) == s[..n]
    ensures forall c <- s[n..] :: IsPythonSpace(c) || c == '`'
  {
    if |s| >= 3 && s[|s| - 3..] == FENCE {
      var front := s[..|s| - 3];
      assert s[|s| - 3] == s[|s| - 3..][0];
      n := StripRightKeeps("", front);
      assert "" + front == front && "" + front[..n] == s[..n];
      assert s[n..] == front[n..] + FENCE;
    } else {
      n := |s|;
      assert s[..n] == s;
    }
  }

  lemma DropBothFences(fence: string, gap: string, s: string)
    requires s != "" && s[0] == '{' && Spaces(gap)
    requires fence == "" || fence == FENCE || fence == JSON_FENCE
    requires fence == "" ==> gap == ""
    ensures DropFence(DropFence(fence + gap + s, JSON_FENCE), FENCE) == s
  {
    var t := fence + gap + s;
    StripLeftSpaces(gap, s);
    if fence == "" {
      assert t == s;
    } else if fence == FENCE {
      assert t[3] == if gap == "" then '{' else gap[0];
      assert gap != "" ==> gap[0] in gap;
      assert t[3] != JSON_FENCE[3];
      assert t[3..] == gap + s;
    } else {
      assert t[7..] == gap + s;
    }
  }

  lemma UnfenceCut(lead: string, fence: string, gap: string, cut: string) returns (n: nat)
    requires Spaces(lead) && Spaces(gap) && cut != "" && cut[0] == '{'
    requires fence == "" || fence == FENCE || fence == JSON_FENCE
    requires fence == "" ==> gap == ""
    ensures 0 < n <= |cut| && Unfence(lead + fence + gap + cut) == cut[..n]
    ensures ',' !in cut[n..]
  {
    var head := fence + gap;
    assert lead + fence + gap + cut == lead + (head + cut);
    HeadIsNotSpace(head, fence, gap, cut);
    StripLeftSpaces(lead, head + cut);
    var n1 := StripRightKeeps(head, cut);
    assert head + cut[..n1] == fence + gap + cut[..n1];
    DropBothFences(fence, gap, cut[..n1]);
    n := DropEndFenceKeeps(cut[..n1]);
    NoCommaInTail(cut, n1, n);
  }

  lemma HeadIsNotSpace(head: string, fence: string, gap: string, cut: string)
    requires cut != "" && cut[0] == '{' && head == fence + gap
    requires fence == "" || fence == FENCE || fence == JSON_FENCE
    requires fence == "" ==> gap == ""
    ensures !IsPythonSpace((head + cut)[0])
  {
    if fence == "" {
      assert head + cut == cut;
    } else {
      assert (head + cut)[0] == fence[0] == '`';
    }
  }

  lemma NoCommaInTail(cut: string, n1: nat, n: nat)
    requires n <= n1 <= |cut| && Spaces(cut[n1..])
    requires forall c <- cut[..n1][n..] :: IsPythonSpace(c) || c == '`'
    ensures cut[..n1][..n] == cut[..n]
    ensures ',' !in cut[n..]
  {
    assert cut[n..] == cut[..n1][n..] + cut[n1..];
  }

  lemma {:induction false} NoCommaQuiet(m: Mode, t: string)
    requires ',' !in t
    ensures Quiet(m, t)
  {
    if t != "" {
      assert t[|t| - 1] in t;
      NoCommaQuiet(m, t[..|t| - 1]);
    }
  }

  /** The main result on the repair: a reply that is an object cut off anywhere, with space and a
      markdown fence before it, is repaired to the object of exactly the members that survived
      with their commas, if and only if at least one did and their strings balance. */
  lemma ReplyRepair(lead: string, fence: string, gap: string, pad: string, members: seq<Member>, n: nat,
                    loads: string -> bool) returns (k: nat)
    requires WellFormed(Obj(pad, members)) && 0 < n < |Text(Obj(pad, members))|
    requires Spaces(lead) && Spaces(gap)
    requires fence == "" || fence == FENCE || fence == JSON_FENCE
    requires fence == "" ==> gap == ""
    requires Faithful(loads)
    ensures k == RootCommas(START, Text(Obj(pad, members))[..n])
    ensures Survive(members, n - 1, k)
    ensures Repaired(lead + fence + gap + Text(Obj(pad, members))[..n], loads) ==
            if k > 0 && StringsBalance(members[..k]) then CommaTrimmed(Text(Obj("", members[..k])))
            else NotTrimmed
  {
    var t := Text(Obj(pad, members));
    var cut := t[..n];
    k := RootCut(pad, members, n);
    var n' := UnfenceCut(lead, fence, gap, cut);
    assert cut[..n'] == t[..n'];
    TailHasNoComma(t, n', n);
    var k' := CutRepair(pad, members, n', loads);
  }

  lemma DropWholeEnd(t: string, before: string, close: string)
    requires t != "" && t[|t| - 1] == '}' && Spaces(before)
    requires close == FENCE || (close == "" && before == "")
    ensures DropEndFence(t + before + close) == t
  {
    var inner := t + before + close;
    if close == FENCE {
      assert inner[|inner| - 3..] == FENCE && inner[..|inner| - 3] == t + before;
      StripRightSpaces(t, before);
    } else {
      assert inner == t;
      if |t| >= 3 {
        assert t[|t| - 3..][2] == '}';
      }
    }
  }

  /** A whole object keeps its text when the space and the fences around it are removed. */
  lemma UnfenceWhole(lead: string, fence: string, gap: string, t: string, before: string, close: string, after: string)
    requires t != "" && t[0] == '{' && t[|t| - 1] == '}'
    requires Spaces(lead) && Spaces(gap) && Spaces(before) && Spaces(after)
    requires fence == "" || fence == FENCE || fence == JSON_FENCE
    requires fence == "" ==> gap == ""
    requires close == FENCE || (close == "" && before == "")
    ensures Unfence(lead + (fence + gap + (t + before + close)) + after) == t
  {
    var inner := t + before + close;
    var core := fence + gap + inner;
    assert inner[0] == '{' && inner[|inner| - 1] == if close == "" then '}' else '`';
    HeadIsNotSpace(fence + gap, fence, gap, inner);
    assert core[|core| - 1] == inner[|inner| - 1];
    StripBothSides(lead, core, after);
    DropBothFences(fence, gap, inner);
    DropWholeEnd(t, before, close);
  }

  /** A reply that is a whole object, fenced or not, is never repaired: the object comes back as it is. */
  lemma WholeReply(lead: string, fence: string, gap: string, pad: string, members: seq<Member>,
                   before: string, close: string, after: string, loads: string -> bool)
    requires WellFormed(Obj(pad, members)) && Faithful(loads)
    requires Spaces(lead) && Spaces(gap) && Spaces(before) && Spaces(after)
    requires fence == "" || fence == FENCE || fence == JSON_FENCE
    requires fence == "" ==> gap == ""
    requires close == FENCE || (close == "" && before == "")
    ensures var t := Text(Obj(pad, members));
            Repaired(lead + (fence + gap + (t + before + close)) + after, loads) == Unchanged(t)
  {
    var j := Obj(pad, members);
    BraceMeansObject(j);
    UnfenceWhole(lead, fence, gap, Text(j), before, close, after);
    assert Reads(Text(j), "", j, "");
  }

  // ----- Prose before the object -----

  lemma {:induction false} StripLeftProse(prose: string, cut: string)
    requires cut != "" && cut[0] == '{'
    ensures StripLeft(prose + cut) == StripLeft(prose) + cut
    ensures forall c <- StripLeft(prose) :: c in prose
    decreases |prose|
  {
    var s := prose + cut;
    if prose == "" {
      assert s == cut && StripLeft(s) == s;
    } else if IsPythonSpace(prose[0]) {
      assert s[0] == prose[0] && s[1..] == prose[1..] + cut;
      StripLeftProse(prose[1..], cut);
      assert forall c <- StripLeft(prose[1..]) :: c in prose[1..] && c in prose;
    } else {
      assert s[0] == prose[0] && StripLeft(s) == s && StripLeft(prose) == prose;
    }
  }

  /** A fence in front goes; what is left of the prose is still before the object. */
  lemma DropFenceProse(prose: string, cut: string, fence: string) returns (rest: string)
    requires cut != "" && cut[0] == '{' && '{' !in prose && '{' !in fence
    ensures DropFence(prose + cut, fence) == rest + cut && '{' !in rest
  {
    if fence <= prose + cut {
      assert forall i | 0 <= i < |fence| :: (prose + cut)[i] == fence[i] && fence[i] != '{';
      assert (prose + cut)[|prose|] == '{';
      assert (prose + cut)[|fence|..] == prose[|fence|..] + cut;
      StripLeftProse(prose[|fence|..], cut);
      rest := StripLeft(prose[|fence|..]);
    } else {
      rest := prose;
    }
  }

  /** A fence at the end lies behind the first brace. */
  lemma FenceBehindBrace(prose: string, cut: string)
    requires cut != "" && cut[0] == '{'
    requires |prose + cut| >= 3 && (prose + cut)[|prose + cut| - 3..] == FENCE
    ensures |cut| > 3 && cut == cut[..|cut| - 3] + FENCE
  {
    var s := prose + cut;
    assert s[|prose|] == '{' && forall c <- FENCE :: c != '{';
    BeforeTail(s, |s| - 3, |prose|);
    assert cut[|cut| - 3..] == s[|s| - 3..];
  }

  lemma DropEndProse(prose: string, cut: string) returns (n: nat)
    requires cut != "" && cut[0] == '{'
    ensures 0 < n <= |cut| && DropEndFence(prose + cut) == prose + cut[..n]
    ensures forall c <- cut[n..] :: IsPythonSpace(c) || c == '`'
  {
    var s := prose + cut;
    if |s| >= 3 && s[|s| - 3..] == FENCE {
      FenceBehindBrace(prose, cut);
      var front := cut[..|cut| - 3];
      assert s[..|s| - 3] == prose + front;
      n := StripRightKeeps(prose, front);
      assert front[..n] == cut[..n] && cut[n..] == front[n..] + FENCE;
    } else {
      n := |cut|;
      assert cut[..n] == cut;
    }
  }

  /** Space and fences gone, some prose and the object's text are left, without at most a tail
      that holds no comma. */
  lemma UnfenceProse(prose: string, cut: string) returns (rest: string, n: nat)
    requires cut != "" && cut[0] == '{' && '{' !in prose
    ensures 0 < n <= |cut| && Unfence(prose + cut) == rest + cut[..n]
    ensures '{' !in rest && ',' !in cut[n..]
    ensures forall c <- cut[n..] :: IsPythonSpace(c) || c == '`'
  {
    StripLeftProse(prose, cut);
    var p1 := StripLeft(prose);
    var n1 := StripRightKeeps(p1, cut);
    var p2 := DropFenceProse(p1, cut[..n1], JSON_FENCE);
    var p3 := DropFenceProse(p2, cut[..n1], FENCE);
    n := DropEndProse(p3, cut[..n1]);
    NoCommaInTail(cut, n1, n);
    assert cut[n..] == cut[..n1][n..] + cut[n1..];
    rest := p3;
  }

  lemma FirstBrace(prose: string, cut: string)
    requires cut != "" && cut[0] == '{' && '{' !in prose
    ensures FindChar(prose + cut, '{') == |prose|
  {
    var s := prose + cut;
    var start := FindChar(s, '{');
    assert s[|prose|] == '{' && forall i | 0 <= i < |prose| :: s[i] == prose[i] && prose[i] != '{';
    assert forall i | 0 <= i < start :: s[i] == s[..start][i];
  }

  lemma TrimFromFirstBrace(prose: string, cut: string, loads: string -> bool)
    requires cut != "" && cut[0] == '{' && '{' !in prose
    requires forall end | 0 < end <= |cut| :: !loads(cut[..end])
    ensures RepairedBare(prose + cut, loads) ==
            if loads(prose + cut) then Unchanged(prose + cut) else TrimToComma(cut, loads)
  {
    var s := prose + cut;
    FirstBrace(prose, cut);
    assert s[|prose|..] == cut;
    var end := FindLastChar(s, '}');
    if end > |prose| {
      assert s[|prose|..end + 1] == cut[..end + 1 - |prose|];
    }
  }

  /** The repair looks at the text from its first brace on, once the text as a whole is rejected. */
  lemma BareProse(prose: string, pad: string, members: seq<Member>, n: nat, loads: string -> bool)
    requires WellFormed(Obj(pad, members)) && 0 < n < |Text(Obj(pad, members))| && '{' !in prose
    requires Faithful(loads)
    ensures var cut := Text(Obj(pad, members))[..n];
            RepairedBare(prose + cut, loads) ==
            if loads(prose + cut) then Unchanged(prose + cut) else RepairedBare(cut, loads)
  {
    var t := Text(Obj(pad, members));
    var cut := t[..n];
    forall end | 0 < end <= |cut|
      ensures !loads(cut[..end])
    {
      assert cut[..end] == t[..end];
      CutIsInvalid(pad, members, end);
    }
    assert cut[0] == t[0] == '{';
    TrimFromFirstBrace(prose, cut, loads);
    CutReachesTrim(pad, members, n, loads);
  }

  /** A tail without a comma is no matter to the comma count. */
  lemma TailHasNoComma(t: string, n': nat, n: nat)
    requires n' <= n <= |t| && ',' !in t[..n][n'..]
    ensures RootCommas(START, t[..n']) == RootCommas(START, t[..n])
  {
    var tail := t[..n][n'..];
    assert t[..n] == t[..n'] + tail;
    ScanAppend(START, t[..n'], tail);
    NoCommaQuiet(Scan(START, t[..n']), tail);
  }

  /** The same with anything before the object that holds no brace: prose, a heading, fences. If the
      reader takes the whole for something else (a lone string, say) it stays as it is; otherwise
      the repair gives the object of exactly the members that survived. */
  lemma ProseRepair(prose: string, pad: string, members: seq<Member>, n: nat, loads: string -> bool)
    returns (k: nat)
    requires WellFormed(Obj(pad, members)) && 0 < n < |Text(Obj(pad, members))| && '{' !in prose
    requires Faithful(loads)
    ensures k == RootCommas(START, Text(Obj(pad, members))[..n])
    ensures Survive(members, n - 1, k)
    ensures var reply := prose + Text(Obj(pad, members))[..n];
            Repaired(reply, loads) ==
            if loads(Unfence(reply)) then Unchanged(Unfence(reply))
            else if k > 0 && StringsBalance(members[..k]) then CommaTrimmed(Text(Obj("", members[..k])))
            else NotTrimmed
  {
    var t := Text(Obj(pad, members));
    var cut := t[..n];
    k := RootCut(pad, members, n);
    var rest, n' := UnfenceProse(prose, cut);
    assert cut[..n'] == t[..n'];
    TailHasNoComma(t, n', n);
    var k' := CutRepair(pad, members, n', loads);
    BareProse(rest, pad, members, n', loads);
  }

  /** What a tail lacks stands before it. */
  lemma BeforeTail(s: string, n: nat, k: nat)
    requires k < |s| && n <= |s| && s[k] !in s[n..]
    ensures k < n
  {
    forall i | n <= i < |s|
      ensures s[i] in s[n..]
    {
      assert s[n..][i - n] == s[i];
    }
  }

  lemma LastBrace(t: string, after: string)
    requires t != "" && t[|t| - 1] == '}' && '}' !in after
    ensures FindLastChar(t + after, '}') == |t| - 1
  {
    var s := t + after;
    var end := FindLastChar(s, '}');
    assert s[|t| - 1] == '}';
    assert forall i | |t| <= i < |s| :: s[i] == after[i - |t|];
    BeforeTail(s, end + 1, |t| - 1);
  }

  lemma BracesFound(s: string, start: nat, end: nat, loads: string -> bool)
    requires FindChar(s, '{') == start < end == FindLastChar(s, '}')
    ensures loads(s) ==> RepairedBare(s, loads) == Unchanged(s)
    ensures !loads(s) && loads(s[start..end + 1]) ==> RepairedBare(s, loads) == BracketTrimmed(s[start..end + 1])
  {
  }

  lemma CutOutWhole(prose: string, t: string, after: string, loads: string -> bool)
    requires t != "" && t[0] == '{' && t[|t| - 1] == '}' && '{' !in prose && '}' !in after
    requires |t| > 1 && loads(t)
    ensures var whole := prose + (t + after);
            RepairedBare(whole, loads) == if loads(whole) then Unchanged(whole) else BracketTrimmed(t)
  {
    var whole := prose + (t + after);
    FirstBrace(prose, t + after);
    LastBrace(prose + t, after);
    assert whole == (prose + t) + after;
    assert whole[|prose|..|prose| + |t|] == t;
    BracesFound(whole, |prose|, |prose| + |t| - 1, loads);
  }

  /** A whole object with text around it that hides no brace is cut out of it. */
  lemma TrimmedToObject(prose: string, pad: string, members: seq<Member>, after: string, loads: string -> bool)
    requires WellFormed(Obj(pad, members)) && '{' !in prose && '}' !in after
    requires Faithful(loads)
    ensures var t := Text(Obj(pad, members));
            var whole := prose + (t + after);
            RepairedBare(whole, loads) == if loads(whole) then Unchanged(whole) else BracketTrimmed(t)
  {
    var j := Obj(pad, members);
    BraceMeansObject(j);
    assert Text(j)[0] == '{' && |Text(j)| > 1;
    assert Reads(Text(j), "", j, "");
    CutOutWhole(prose, Text(j), after, loads);
  }

  /** The same for the whole function, which takes space and fences away first: a whole object comes
      back alone, whatever text without braces the model puts around it. */
  lemma ProseWhole(prose: string, pad: string, members: seq<Member>, after: string, loads: string -> bool)
    requires WellFormed(Obj(pad, members)) && '{' !in prose && '}' !in after
    requires Faithful(loads)
    ensures var t := Text(Obj(pad, members));
            var reply := prose + (t + after);
            Repaired(reply, loads) ==
            if loads(Unfence(reply)) then Unchanged(Unfence(reply)) else BracketTrimmed(t)
  {
    var t := Text(Obj(pad, members));
    var cut := t + after;
    BraceMeansObject(Obj(pad, members));
    assert t[0] == '{' && cut[0] == '{';
    var rest, n := UnfenceProse(prose, cut);
    CutBehindBraceLast(t, after, n);
    TrimmedToObject(rest, pad, members, after[..n - |t|], loads);
  }

  /** Cutting a tail of spaces and backticks spares a final brace. */
  lemma CutBehindBraceLast(t: string, after: string, n: nat)
    requires t != "" && t[|t| - 1] == '}' && n <= |t + after|
    requires forall c <- (t + after)[n..] :: IsPythonSpace(c) || c == '`'
    ensures |t| <= n && (t + after)[..n] == t + after[..n - |t|]
    ensures forall c <- after[..n - |t|] :: c in after
  {
    BeforeTail(t + after, n, |t| - 1);
  }

  // ----- Any reply at all -----

  predicate Returns(out: Outcome) {
    out.Unchanged? || out.BracketTrimmed? || out.CommaTrimmed?
  }

  /** Whatever the model says, a text that comes back is valid JSON. */
  lemma WhatComesBackIsValid(raw: string, loads: string -> bool)
    requires Faithful(loads)
    ensures Returns(Repaired(raw, loads)) ==> ValidText(Repaired(raw, loads).text)
  {
  }

  /** A reply is given back as it is exactly if it is valid without its space and fences, and it
      is called no JSON exactly if it is not and holds no opening brace. */
  lemma UnchangedExactly(raw: string, loads: string -> bool)
    requires Faithful(loads)
    ensures Repaired(raw, loads).Unchanged? <==> ValidText(Unfence(raw))
    ensures Repaired(raw, loads).Unchanged? ==> Repaired(raw, loads).text == Unfence(raw)
    ensures Repaired(raw, loads) == NoJsonFound <==> !ValidText(Unfence(raw)) && '{' !in Unfence(raw)
  {
  }

  /** The part from the first opening to the last closing brace. */
  ghost predicate Between(s: string, t: string) {
    && |t| > 1 && t[0] == '{' && t[|t| - 1] == '}'
    && exists prose, after :: s == prose + (t + after) && '{' !in prose && '}' !in after
  }

  /** That part comes back exactly if it is valid and the whole is not. */
  lemma BracketTrimmedExactly(raw: string, t: string, loads: string -> bool)
    requires Faithful(loads)
    ensures Repaired(raw, loads) == BracketTrimmed(t) <==>
            !ValidText(Unfence(raw)) && ValidText(t) && Between(Unfence(raw), t)
  {
    var s := Unfence(raw);
    if ValidText(t) && Between(s, t) {
      var prose, after :| s == prose + (t + after) && '{' !in prose && '}' !in after;
      CutOutWhole(prose, t, after, loads);
    }
    TrimmedIsBetween(s, loads);
  }

  lemma TrimmedIsBetween(s: string, loads: string -> bool)
    ensures var out := RepairedBare(s, loads);
            out.BracketTrimmed? ==> !loads(s) && loads(out.text) && Between(s, out.text)
  {
    var start, end := FindChar(s, '{'), FindLastChar(s, '}');
    if 0 <= start < end {
      PartsAround(s, start, end);
    }
  }

  lemma PartsAround(s: string, start: nat, end: nat)
    requires start < end < |s| && s[start] == '{' && s[end] == '}'
    requires '{' !in s[..start] && '}' !in s[end + 1..]
    ensures Between(s, s[start..end + 1])
  {
    assert s == s[..start] + (s[start..end + 1] + s[end + 1..]);
  }

  lemma TrimIsLast(s: string, loads: string -> bool)
    requires RepairedBare(s, loads).CommaTrimmed?
    ensures 0 <= FindChar(s, '{') < |s|
    ensures var cut := s[FindChar(s, '{')..];
            var last := LastRootComma(START, cut);
            0 < last < |cut| && RepairedBare(s, loads).text == CloseAll(cut[..last])
  {
  }

  lemma BareTrimIsPrefix(s: string, loads: string -> bool) returns (prose: string, kept: string, tail: string)
    requires RepairedBare(s, loads).CommaTrimmed?
    ensures s == prose + (kept + ("," + tail)) && '{' !in prose && kept != "" && kept[0] == '{'
    ensures RepairedBare(s, loads).text == CloseAll(kept)
  {
    TrimIsLast(s, loads);
    var start := FindChar(s, '{');
    var last := LastRootComma(START, s[start..]);
    LastIsComma(START, s[start..]);
    prose, kept, tail := s[..start], s[start..][..last], s[start..][last + 1..];
    SplitAtComma(s, start, last);
  }

  lemma CloseAllAppends(t: string) returns (braces: int, brackets: int)
    ensures CloseAll(t) == t + Repeat('}', braces) + Repeat(']', brackets)
  {
    braces, brackets := Count(t, '{') - Count(t, '}'), Count(t, '[') - Count(t, ']');
  }

  /** What the comma trim gives back is the text from the first brace to some comma, and nothing
      behind that but closing braces and then closing brackets. */
  lemma CommaTrimmedIsPrefix(raw: string, loads: string -> bool)
    returns (prose: string, kept: string, tail: string, braces: int, brackets: int)
    requires Repaired(raw, loads).CommaTrimmed?
    ensures Unfence(raw) == prose + (kept + ("," + tail)) && '{' !in prose && kept != "" && kept[0] == '{'
    ensures Repaired(raw, loads).text == kept + Repeat('}', braces) + Repeat(']', brackets)
  {
    prose, kept, tail := BareTrimIsPrefix(Unfence(raw), loads);
    braces, brackets := CloseAllAppends(kept);
  }

  lemma SplitAtComma(s: string, start: nat, last: nat)
    requires start + last < |s| && s[start + last] == ',' && last > 0
    ensures s[start..][..last][0] == s[start]
    ensures s == s[..start] + (s[start..][..last] + ("," + s[start..][last + 1..]))
  {
  }

  lemma {:induction false} LastIsComma(m: Mode, t: string)
    ensures LastRootComma(m, t) >= 0 ==> t[LastRootComma(m, t)] == ','
  {
    if t != "" {
      LastIsComma(m, t[..|t| - 1]);
    }
  }

  const BRACE_IN_STRING := Member("", "a", "", "", Str("{"), "")
  const SECOND := Member("", "b", "", "", Scalar("1"), "")

  lemma SampleText()
    ensures MembersText([BRACE_IN_STRING]) == "\"a\":\"{\""
    ensures Text(Obj("", [BRACE_IN_STRING, SECOND])) == "{\"a\":\"{\",\"b\":1" + "}"
  {
    var members := [BRACE_IN_STRING, SECOND];
    assert members[1..] == [SECOND];
    assert MemberText(BRACE_IN_STRING) == "\"a\":\"{\"" && MemberText(SECOND) == "\"b\":1";
    assert MembersText(members) == MemberText(BRACE_IN_STRING) + ("," + MembersText([SECOND]));
  }

  lemma SampleWellFormed()
    ensures WellFormed(Obj("", [BRACE_IN_STRING, SECOND]))
  {
    assert IsNumber("1") by {
      assert "1" == "" + "1" + "" + "" && IntPart("1");
    }
    assert [BRACE_IN_STRING, SECOND][1..] == [SECOND];
    assert WellFormedMember(BRACE_IN_STRING) && WellFormedMember(SECOND);
    assert WellFormedMembers([SECOND]);
  }

  lemma SampleUnbalanced()
    ensures !StringsBalance([BRACE_IN_STRING])
  {
    assert MembersBodies([BRACE_IN_STRING]) == "a" + "{";
    CharNet('a', '{', '}');
    CharNet('{', '{', '}');
    NetAppend("a", "{", '{', '}');
  }

  /** One brace inside a string is enough to lose a member that came through whole. */
  lemma BraceInStringDefeatsTrim(loads: string -> bool)
    requires Faithful(loads)
    ensures Repaired("{\"a\":\"{\",\"b\":1", loads) == NotTrimmed
  {
    var members := [BRACE_IN_STRING, SECOND];
    var cut := "{\"a\":\"{\",\"b\":1";
    SampleText();
    SampleWellFormed();
    assert Text(Obj("", members))[..14] == cut;
    assert "" + "" + "" + cut == cut;
    var k := ReplyRepair("", "", "", "", members, 14, loads);
    assert members[..1] == [BRACE_IN_STRING];
    assert k == 1;
    SampleUnbalanced();
    assert !StringsBalance(members[..k]);
    assert Repaired(cut, loads) == NotTrimmed;
  }
}
