/** The character scanner of the truncation repair: it tracks string state, escapes and nesting,
    and remembers the last comma that lies directly inside the root object. */
module JsonScan {
  import opened JsonText

  datatype Mode = Mode(depth: int, inString: bool, escaped: bool)

  const START := Clean(0)

  function Clean(d: int): Mode {
    Mode(d, false, false)
  }

  function Step(m: Mode, c: char): Mode {
    if m.escaped then m.(escaped := false)
    else if c == '\\' && m.inString then m.(escaped := true)
    else if c == '\"' then m.(inString := !m.inString)
    else if m.inString then m
    else if c == '{' || c == '[' then m.(depth := m.depth + 1)
    else if c == '}' || c == ']' then m.(depth := m.depth - 1)
    else m
  }

  predicate IsRootComma(m: Mode, c: char) {
    !m.escaped && !m.inString && c == ',' && m.depth == 1
  }

  function Scan(m: Mode, t: string): Mode {
    if t == "" then m else Step(Scan(m, t[..|t| - 1]), t[|t| - 1])
  }

  /** Number of commas at depth 1 outside strings. */
  function RootCommas(m: Mode, t: string): nat {
    if t == "" then 0
    else
      var front := t[..|t| - 1];
      RootCommas(m, front) + if IsRootComma(Scan(m, front), t[|t| - 1]) then 1 else 0
  }

  /** Index of the last such comma, or -1. */
  function LastRootComma(m: Mode, t: string): (last: int)
    ensures -1 <= last < |t|
  {
    if t == "" then -1
    else
      var front := t[..|t| - 1];
      if IsRootComma(Scan(m, front), t[|t| - 1]) then |t| - 1 else LastRootComma(m, front)
  }

  // ----- Scanning in pieces -----

  lemma {:induction false} ScanAppend(m: Mode, a: string, b: string)
    ensures Scan(m, a + b) == Scan(Scan(m, a), b)
    ensures RootCommas(m, a + b) == RootCommas(m, a) + RootCommas(Scan(m, a), b)
    ensures LastRootComma(m, a + b) ==
            if LastRootComma(Scan(m, a), b) >= 0 then |a| + LastRootComma(Scan(m, a), b)
            else LastRootComma(m, a)
    decreases |b|
  {
    if b == "" {
      assert a + b == a;
    } else {
      var front := b[..|b| - 1];
      ScanAppend(m, a, front);
      assert (a + b)[..|a + b| - 1] == a + front;
    }
  }

  lemma ScanChar(m: Mode, c: char)
    ensures Scan(m, [c]) == Step(m, c)
    ensures RootCommas(m, [c]) == if IsRootComma(m, c) then 1 else 0
    ensures LastRootComma(m, [c]) == if IsRootComma(m, c) then 0 else -1
  {
    assert [c][..0] == "";
  }

  lemma NoCommaNoLast(m: Mode, t: string)
    ensures RootCommas(m, t) == 0 <==> LastRootComma(m, t) == -1
  {
  }

  /** Scanning `t` returns to the mode it started in and never dips below that depth. */
  ghost predicate Level(m: Mode, t: string) {
    Scan(m, t) == m && forall n | 0 <= n <= |t| :: Scan(m, t[..n]).depth >= m.depth
  }

  ghost predicate Quiet(m: Mode, t: string) {
    RootCommas(m, t) == 0
  }

  lemma LevelAppend(m: Mode, a: string, b: string)
    requires Level(m, a) && Level(m, b)
    ensures Level(m, a + b)
    ensures Quiet(m, a) && Quiet(m, b) ==> Quiet(m, a + b)
  {
    ScanAppend(m, a, b);
    forall n | 0 <= n <= |a + b|
      ensures Scan(m, (a + b)[..n]).depth >= m.depth
    {
      if n <= |a| {
        assert (a + b)[..n] == a[..n];
      } else {
        assert (a + b)[..n] == a + b[..n - |a|];
        ScanAppend(m, a, b[..n - |a|]);
      }
    }
  }

  /** An opener, a level text one mode further in, and the closer. */
  lemma LevelNest(m: Mode, inner: Mode, open: char, t: string, close: char)
    requires Step(m, open) == inner && Step(inner, close) == m && inner.depth >= m.depth
    requires Level(inner, t)
    ensures Level(m, [open] + t + [close])
    ensures !IsRootComma(m, open) && Quiet(inner, t) && !IsRootComma(inner, close)
            ==> Quiet(m, [open] + t + [close])
  {
    var all := [open] + t + [close];
    assert Scan(m, [open]) == inner by {
      assert [open][..0] == "";
    }
    assert all == [open] + (t + [close]);
    ScanAppend(m, [open], t + [close]);
    ScanAppend(inner, t, [close]);
    assert [close][..0] == "" && [open][..0] == "";
    forall n | 0 <= n <= |all|
      ensures Scan(m, all[..n]).depth >= m.depth
    {
      if n == 0 {
      } else if n <= 1 + |t| {
        assert all[..n] == [open] + t[..n - 1];
        ScanAppend(m, [open], t[..n - 1]);
      } else {
        assert all[..n] == all;
      }
    }
  }

  lemma {:induction false} PlainIsLevel(m: Mode, t: string)
    requires !m.escaped && AllPlain(t)
    ensures Level(m, t) && Quiet(m, t)
  {
    if t != "" {
      var front := t[..|t| - 1];
      var last := t[|t| - 1];
      assert forall c <- front :: c in t;
      PlainIsLevel(m, front);
      assert last in t;
      forall n | 0 <= n <= |t|
        ensures Scan(m, t[..n]).depth >= m.depth
      {
        if n < |t| {
          assert t[..n] == front[..n];
        } else {
          assert t[..n] == t;
        }
      }
    }
  }

  // ----- Values are level, whatever they contain -----

  lemma EscapeIsLevel(d: int, c: char)
    ensures Level(Mode(d, true, false), ['\\', c]) && Quiet(Mode(d, true, false), ['\\', c])
  {
    var m := Mode(d, true, false);
    var t := ['\\', c];
    var slash := ['\\'];
    assert slash[..0] == "";
    assert Scan(m, slash) == Mode(d, true, true);
    assert t[..0] == "" && t[..1] == slash && t[..2] == t;
    assert Scan(m, t) == Step(Scan(m, slash), c);
    assert RootCommas(m, slash) == 0;
    assert RootCommas(m, t) == RootCommas(m, slash);
  }

  lemma {:induction false} BodyIsLevel(d: int, body: string)
    requires IsBody(body)
    ensures Level(Mode(d, true, false), body) && Quiet(Mode(d, true, false), body)
  {
    var m := Mode(d, true, false);
    if body != "" {
      var unit := if body[0] == '\\' then body[..2] else body[..1];
      var rest := body[|unit|..];
      BodyIsLevel(d, rest);
      assert body == unit + rest;
      if body[0] == '\\' {
        assert unit == ['\\', body[1]];
        EscapeIsLevel(d, body[1]);
      } else {
        assert unit[..0] == "" && unit[..1] == unit;
        assert RootCommas(m, unit) == 0;
      }
      LevelAppend(m, unit, rest);
    }
  }

  lemma QuotedIsLevel(d: int, body: string)
    requires IsBody(body)
    ensures Level(Clean(d), Quoted(body)) && Quiet(Clean(d), Quoted(body))
  {
    BodyIsLevel(d, body);
    LevelNest(Clean(d), Mode(d, true, false), '\"', body, '\"');
  }

  lemma CommaIsLevel(d: int)
    ensures Level(Clean(d), ",")
    ensures d != 1 ==> Quiet(Clean(d), ",")
  {
    assert ","[..0] == "" && ","[..1] == ",";
  }

  /** Every value keeps the scanner at its depth, and inside the root no comma of a value counts. */
  lemma {:induction false} ValueIsLevel(d: int, j: Json)
    requires WellFormed(j)
    ensures Level(Clean(d), Text(j))
    ensures d >= 1 ==> Quiet(Clean(d), Text(j))
    decreases j, 1
  {
    match j
    case Scalar(token) =>
      ScalarIsPlain(token);
      PlainIsLevel(Clean(d), token);
    case Str(body) =>
      QuotedIsLevel(d, body);
    case Arr(pad, items) =>
      ItemsAreLevel(d + 1, items);
      BracketedIsLevel(d, '[', pad, ItemsText(items), ']');
    case Obj(pad, members) =>
      MembersAreLevel(d + 1, members);
      BracketedIsLevel(d, '{', pad, MembersText(members), '}');
  }

  lemma BracketedIsLevel(d: int, open: char, pad: string, content: string, close: char)
    requires Blank(pad) && Level(Clean(d + 1), content)
    requires open in "{[" && close in "}]"
    ensures Level(Clean(d), [open] + pad + content + [close])
    ensures d >= 1 && Quiet(Clean(d + 1), content) ==> Quiet(Clean(d), [open] + pad + content + [close])
  {
    PlainIsLevel(Clean(d + 1), pad);
    LevelAppend(Clean(d + 1), pad, content);
    LevelNest(Clean(d), Clean(d + 1), open, pad + content, close);
    assert [open] + pad + content + [close] == [open] + (pad + content) + [close];
  }

  /** Blanks around a level text. */
  lemma PaddedIsLevel(m: Mode, before: string, t: string, after: string)
    requires !m.escaped && Blank(before) && Blank(after) && Level(m, t)
    ensures Level(m, before + t + after)
    ensures Quiet(m, t) ==> Quiet(m, before + t + after)
  {
    BlankIsPlain(before);
    BlankIsPlain(after);
    PlainIsLevel(m, before);
    PlainIsLevel(m, after);
    LevelAppend(m, before, t);
    LevelAppend(m, before + t, after);
  }

  /** A level text, a comma, and a level text. */
  lemma JoinedIsLevel(d: int, head: string, tail: string)
    requires Level(Clean(d), head) && Level(Clean(d), tail)
    ensures Level(Clean(d), head + ("," + tail))
    ensures d != 1 && Quiet(Clean(d), head) && Quiet(Clean(d), tail) ==> Quiet(Clean(d), head + ("," + tail))
  {
    CommaIsLevel(d);
    LevelAppend(Clean(d), ",", tail);
    LevelAppend(Clean(d), head, "," + tail);
  }

  lemma {:induction false} ItemsAreLevel(d: int, items: seq<Item>)
    requires WellFormedItems(items)
    ensures Level(Clean(d), ItemsText(items))
    ensures d >= 2 ==> Quiet(Clean(d), ItemsText(items))
    decreases items, 0
  {
    if items != [] {
      ValueIsLevel(d, items[0].value);
      PaddedIsLevel(Clean(d), items[0].before, Text(items[0].value), items[0].after);
      if |items| > 1 {
        ItemsAreLevel(d, items[1..]);
        JoinedIsLevel(d, ItemText(items[0]), ItemsText(items[1..]));
      }
    }
  }

  lemma {:induction false} MemberIsLevel(d: int, m: Member)
    requires WellFormedMember(m)
    ensures Level(Clean(d), MemberText(m))
    ensures d >= 1 ==> Quiet(Clean(d), MemberText(m))
    decreases m, 2
  {
    var c := Clean(d);
    var colon := m.beforeColon + ":" + m.afterColon;
    QuotedIsLevel(d, m.key);
    ColonIsLevel(d, m.beforeColon, m.afterColon);
    ValueIsLevel(d, m.value);
    LevelAppend(c, Quoted(m.key), colon);
    LevelAppend(c, Quoted(m.key) + colon, Text(m.value));
    PaddedIsLevel(c, m.before, Quoted(m.key) + colon + Text(m.value), m.after);
    assert MemberText(m) == m.before + (Quoted(m.key) + colon + Text(m.value)) + m.after;
  }

  lemma ColonIsLevel(d: int, before: string, after: string)
    requires Blank(before) && Blank(after)
    ensures Level(Clean(d), before + ":" + after) && Quiet(Clean(d), before + ":" + after)
  {
    PlainIsLevel(Clean(d), ":");
    PaddedIsLevel(Clean(d), before, ":", after);
  }

  lemma {:induction false} MembersAreLevel(d: int, members: seq<Member>)
    requires WellFormedMembers(members)
    ensures Level(Clean(d), MembersText(members))
    ensures d >= 2 ==> Quiet(Clean(d), MembersText(members))
    decreases members, 0
  {
    if members != [] {
      MemberIsLevel(d, members[0]);
      if |members| > 1 {
        MembersAreLevel(d, members[1..]);
        JoinedIsLevel(d, MemberText(members[0]), MembersText(members[1..]));
      }
    }
  }
}
