/** `bulk-close-stale`: of every type of finding the newest stays, the others are closed. */
module BulkClose {
  import opened Strings

  /** `created` is the ISO 8601 text the tracker gives; the empty text when it is missing. */
  datatype Issue = Issue(key: string, summary: string, labels: set<string>, created: string)
  datatype Kind = Defect | Batch | Finding(ftype: string)

  const PREFIXES := ["[DAILY-SWEEP] ", "[HOURLY-SCAN] ", "[QUAD-HOURLY-SUMMARY] "]

  // ----- Which issue is what -----

  function Underscored(s: string): string {
    seq(|s|, i requires 0 <= i < |s| => if s[i] == ' ' then '_' else s[i])
  }

  function TypeInBody(body: string): string {
    var colon := RunEnd(body, 0, c => c == ':');
    if colon == |body| then "other" else Underscored(StripRight(StripLeft(body[..colon])))
  }

  function TypeOf(summary: string, prefixes: seq<string>): string {
    if prefixes == [] then "other"
    else if prefixes[0] <= summary then TypeInBody(summary[|prefixes[0]|..])
    else TypeOf(summary, prefixes[1..])
  }

  function KindOf(iss: Issue): Kind {
    if "defect" in iss.labels then Defect
    else if "scheduled-batch" in iss.labels then Batch
    else if "finding" in iss.labels then Finding(TypeOf(iss.summary, PREFIXES))
    else Batch
  }

  /** The issues of one kind, as they were fetched. */
  function Select(issues: seq<Issue>, kind: Kind): seq<Issue> {
    if issues == [] then []
    else
      var last := issues[|issues| - 1];
      Select(issues[..|issues| - 1], kind) + if KindOf(last) == kind then [last] else []
  }

  /** The types of finding in order of first appearance. */
  function Types(issues: seq<Issue>): seq<string> {
    if issues == [] then []
    else
      var types := Types(issues[..|issues| - 1]);
      var kind := KindOf(issues[|issues| - 1]);
      if kind.Finding? && kind.ftype !in types then types + [kind.ftype] else types
  }

  // ----- Newest first -----

  /** Text `a` sorts before text `b`. */
  predicate Before(a: string, b: string) {
    if a == "" || b == "" then a == "" && b != ""
    else a[0] < b[0] || (a[0] == b[0] && Before(a[1..], b[1..]))
  }

  /** `iss` goes behind all that are at least as new. */
  function Insert(sorted: seq<Issue>, iss: Issue): seq<Issue> {
    if sorted == [] then [iss]
    else if Before(sorted[0].created, iss.created) then [iss] + sorted
    else [sorted[0]] + Insert(sorted[1..], iss)
  }

  /** A stable sort by creation text, largest first. */
  function NewestFirst(issues: seq<Issue>): (sorted: seq<Issue>)
    ensures |sorted| == |issues|
  {
    if issues == [] then []
    else
      var rest := NewestFirst(issues[..|issues| - 1]);
      InsertIsPermutation(rest, issues[|issues| - 1]);
      Insert(rest, issues[|issues| - 1])
  }

  lemma {:induction false} InsertIsPermutation(sorted: seq<Issue>, iss: Issue)
    ensures |Insert(sorted, iss)| == |sorted| + 1
    ensures multiset(Insert(sorted, iss)) == multiset(sorted) + multiset{iss}
  {
    if sorted != [] && !Before(sorted[0].created, iss.created) {
      InsertIsPermutation(sorted[1..], iss);
      assert sorted == [sorted[0]] + sorted[1..];
    }
  }

  lemma {:induction false} SortIsPermutation(issues: seq<Issue>)
    ensures multiset(NewestFirst(issues)) == multiset(issues)
  {
    if issues != [] {
      SortIsPermutation(issues[..|issues| - 1]);
      InsertIsPermutation(NewestFirst(issues[..|issues| - 1]), issues[|issues| - 1]);
      assert issues == issues[..|issues| - 1] + [issues[|issues| - 1]];
    }
  }

  lemma {:induction false} BeforeIsTransitive(a: string, b: string, c: string)
    requires !Before(a, b) && !Before(b, c)
    ensures !Before(a, c)
  {
    if a != "" && b != "" && c != "" && a[0] == b[0] == c[0] {
      BeforeIsTransitive(a[1..], b[1..], c[1..]);
    }
  }

  lemma {:induction false} BeforeIsOneWay(a: string, b: string)
    requires Before(a, b)
    ensures !Before(b, a)
  {
    if a != "" && b != "" && a[0] == b[0] {
      BeforeIsOneWay(a[1..], b[1..]);
    }
  }

  lemma {:induction false} BeforeIsIrreflexive(a: string)
    ensures !Before(a, a)
  {
    if a != "" {
      BeforeIsIrreflexive(a[1..]);
    }
  }

  /** No issue is older than one behind it. */
  predicate Sorted(issues: seq<Issue>) {
    forall i, j | 0 <= i < j < |issues| :: !Before(issues[i].created, issues[j].created)
  }

  lemma {:induction false} InsertKeepsSorted(sorted: seq<Issue>, iss: Issue)
    requires Sorted(sorted)
    ensures Sorted(Insert(sorted, iss))
  {
    if sorted != [] {
      var head := sorted[0];
      if Before(head.created, iss.created) {
        BeforeIsOneWay(head.created, iss.created);
        forall j | 0 <= j < |sorted| ensures !Before(iss.created, sorted[j].created) {
          if j > 0 {
            BeforeIsTransitive(iss.created, head.created, sorted[j].created);
          }
        }
      } else {
        var rest := Insert(sorted[1..], iss);
        InsertKeepsSorted(sorted[1..], iss);
        InsertIsPermutation(sorted[1..], iss);
        forall j | 0 <= j < |rest| ensures !Before(head.created, rest[j].created) {
          assert rest[j] in multiset(rest);
          assert rest[j] == iss || rest[j] in sorted[1..];
        }
      }
    }
  }

  lemma {:induction false} SortSorts(issues: seq<Issue>)
    ensures Sorted(NewestFirst(issues))
  {
    if issues != [] {
      SortSorts(issues[..|issues| - 1]);
      InsertKeepsSorted(NewestFirst(issues[..|issues| - 1]), issues[|issues| - 1]);
    }
  }

  /** What is newer than the newest is newer than all. */
  lemma AllAreOlder(issues: seq<Issue>, iss: Issue)
    requires issues != [] && Before(NewestFirst(issues)[0].created, iss.created)
    ensures forall i | 0 <= i < |issues| :: Before(issues[i].created, iss.created)
  {
    var sorted := NewestFirst(issues);
    SortIsPermutation(issues);
    SortSorts(issues);
    forall i | 0 <= i < |issues|
      ensures Before(issues[i].created, iss.created)
    {
      assert issues[i] in multiset(sorted);
      if !Before(issues[i].created, iss.created) {
        BeforeIsIrreflexive(sorted[0].created);
        BeforeIsTransitive(sorted[0].created, issues[i].created, iss.created);
      }
    }
  }

  /** Of several newest issues the one fetched first comes first. */
  lemma {:induction false} TieGoesToFirstFetched(issues: seq<Issue>)
    requires issues != []
    ensures exists k | 0 <= k < |issues| ::
              && NewestFirst(issues)[0] == issues[k]
              && forall i | 0 <= i < k :: Before(issues[i].created, issues[k].created)
  {
    var n := |issues| - 1;
    var front, last := issues[..n], issues[n];
    if n > 0 {
      TieGoesToFirstFetched(front);
      var first := NewestFirst(front)[0];
      if Before(first.created, last.created) {
        AllAreOlder(front, last);
        assert forall i | 0 <= i < n :: issues[i] == front[i];
        assert NewestFirst(issues)[0] == issues[n];
      } else {
        var k :| 0 <= k < n && first == front[k]
          && forall i | 0 <= i < k :: Before(front[i].created, front[k].created);
        assert issues[k] == front[k] && forall i | 0 <= i < k :: issues[i] == front[i];
      }
    }
  }

  // ----- The plan -----

  function Newest(issues: seq<Issue>, ftype: string): seq<Issue> {
    NewestFirst(Select(issues, Finding(ftype)))
  }

  ghost predicate Present(issues: seq<Issue>, types: seq<string>) {
    forall t <- types :: Select(issues, Finding(t)) != []
  }

  lemma FrontIsPresent(issues: seq<Issue>, types: seq<string>)
    requires Present(issues, types) && types != []
    ensures Present(issues, types[..|types| - 1])
    ensures Select(issues, Finding(types[|types| - 1])) != []
  {
    assert forall t <- types[..|types| - 1] :: t in types;
    assert types[|types| - 1] in types;
  }

  /** What stays of these types, one issue each. */
  function Kept(issues: seq<Issue>, types: seq<string>): seq<Issue>
    requires Present(issues, types)
  {
    if types == [] then []
    else
      FrontIsPresent(issues, types);
      Kept(issues, types[..|types| - 1]) + [Newest(issues, types[|types| - 1])[0]]
  }

  function Superseded(issues: seq<Issue>, types: seq<string>): seq<Issue>
    requires Present(issues, types)
  {
    if types == [] then []
    else
      FrontIsPresent(issues, types);
      Superseded(issues, types[..|types| - 1]) + Newest(issues, types[|types| - 1])[1..]
  }

  lemma {:induction false} TypesFit(issues: seq<Issue>)
    ensures Distinct(Types(issues))
    ensures forall t :: t in Types(issues) <==> Select(issues, Finding(t)) != []
  {
    if issues != [] {
      TypesFit(issues[..|issues| - 1]);
    }
  }

  datatype Plan = Plan(defects: seq<Issue>, kept: seq<Issue>, toClose: seq<Issue>)

  function PlanFor(issues: seq<Issue>): Plan {
    TypesFit(issues);
    var types := Types(issues);
    Plan(Select(issues, Defect), Kept(issues, types), Select(issues, Batch) + Superseded(issues, types))
  }

  // ----- The program -----

  method FindingType(summary: string) returns (ftype: string)
    ensures ftype == TypeOf(summary, PREFIXES)
  {
    ftype := "other";
    var p := 0;
    while p < |PREFIXES|
      invariant 0 <= p <= |PREFIXES|
      invariant ftype == "other"
      invariant TypeOf(summary, PREFIXES[p..]) == TypeOf(summary, PREFIXES)
    {
      assert PREFIXES[p..][1..] == PREFIXES[p + 1..];
      if PREFIXES[p] <= summary {
        var body := summary[|PREFIXES[p]|..];
        var colon := RunEnd(body, 0, c => c == ':');
        if colon < |body| {
          ftype := Underscored(StripRight(StripLeft(body[..colon])));
        }
        return;
      }
      p := p + 1;
    }
  }

  /** A name in front of the first colon is the type, whatever space is around it. */
  lemma TypeOfNamed(lead: string, name: string, trail: string, rest: string)
    requires ':' !in lead + name + trail && Spaces(lead) && Spaces(trail)
    requires name != "" && !IsPythonSpace(name[0]) && !IsPythonSpace(name[|name| - 1])
    ensures TypeInBody(lead + name + trail + ":" + rest) == Underscored(name)
    ensures forall i | 0 <= i < |name| :: Underscored(name)[i] == if name[i] == ' ' then '_' else name[i]
  {
    var front := lead + name + trail;
    var body := front + ":" + rest;
    var colon := RunEnd(body, 0, c => c == ':');
    assert body[|front|] == ':';
    assert forall j | 0 <= j < |front| :: body[j] == front[j];
    assert colon == |front| && body[..colon] == front;
    assert front == lead + (name + trail) && (name + trail)[0] == name[0];
    StripLeftSpaces(lead, name + trail);
    StripRightSpaces(name, trail);
  }

  lemma {:induction false} TypeBehindPrefix(summary: string, prefixes: seq<string>, p: nat)
    requires p < |prefixes| && prefixes[p] <= summary
    requires forall q | 0 <= q < p :: !(prefixes[q] <= summary)
    ensures TypeOf(summary, prefixes) == TypeInBody(summary[|prefixes[p]|..])
  {
    if p > 0 {
      TypeBehindPrefix(summary, prefixes[1..], p - 1);
    }
  }

  /** The three scanners' prefixes do not matter: findings of one name are of one type. */
  lemma TypeIgnoresPrefix(prefix: string, lead: string, name: string, trail: string, rest: string)
    requires prefix in ["[DAILY-SWEEP] ", "[HOURLY-SCAN] ", "[QUAD-HOURLY-SUMMARY] "]
    requires ':' !in lead + name + trail && Spaces(lead) && Spaces(trail)
    requires name != "" && !IsPythonSpace(name[0]) && !IsPythonSpace(name[|name| - 1])
    ensures TypeOf(prefix + (lead + name + trail + ":" + rest), PREFIXES) == Underscored(name)
  {
    var p :| 0 <= p < |PREFIXES| && PREFIXES[p] == prefix;
    var body := lead + name + trail + ":" + rest;
    var summary := PREFIXES[p] + body;
    TypeOfNamed(lead, name, trail, rest);
    assert summary[|PREFIXES[p]|..] == body && summary[1] == PREFIXES[p][1];
    assert PREFIXES[0][1] == 'D' && PREFIXES[1][1] == 'H' && PREFIXES[2][1] == 'Q';
    TypeBehindPrefix(summary, PREFIXES, p);
  }

  /** The types seen so far with their issues: a dictionary that keeps its order. */
  ghost predicate Grouped(issues: seq<Issue>, types: seq<string>, byType: map<string, seq<Issue>>) {
    && types == Types(issues)
    && (forall t :: t in byType <==> t in types)
    && (forall t :: t in byType ==> byType[t] == Select(issues, Finding(t)))
  }

  /** One more issue changes the group of its own kind only. */
  lemma GroupedStep(issues: seq<Issue>, n: nat, types: seq<string>, byType: map<string, seq<Issue>>)
    requires n < |issues| && Grouped(issues[..n], types, byType)
    ensures var kind := KindOf(issues[n]);
      if !kind.Finding? then Grouped(issues[..n + 1], types, byType)
      else if kind.ftype in byType then
        Grouped(issues[..n + 1], types, byType[kind.ftype := byType[kind.ftype] + [issues[n]]])
      else Grouped(issues[..n + 1], types + [kind.ftype], byType[kind.ftype := [issues[n]]])
  {
    assert issues[..n + 1][..n] == issues[..n];
    TypesFit(issues[..n]);
  }

  lemma SelectStep(issues: seq<Issue>, n: nat, kind: Kind)
    requires n < |issues|
    ensures Select(issues[..n + 1], kind) ==
            Select(issues[..n], kind) + if KindOf(issues[n]) == kind then [issues[n]] else []
  {
    assert issues[..n + 1][..n] == issues[..n];
  }

  method Categorize(issues: seq<Issue>)
    returns (defects: seq<Issue>, batch: seq<Issue>, types: seq<string>, byType: map<string, seq<Issue>>)
    ensures defects == Select(issues, Defect) && batch == Select(issues, Batch)
    ensures Grouped(issues, types, byType)
  {
    defects, batch, types, byType := [], [], [], map[];
    var n := 0;
    while n < |issues|
      invariant 0 <= n <= |issues|
      invariant defects == Select(issues[..n], Defect) && batch == Select(issues[..n], Batch)
      invariant Grouped(issues[..n], types, byType)
    {
      var iss := issues[n];
      SelectStep(issues, n, Defect);
      SelectStep(issues, n, Batch);
      GroupedStep(issues, n, types, byType);
      n := n + 1;
      if "defect" in iss.labels {
        defects := defects + [iss];
      } else if "scheduled-batch" in iss.labels {
        batch := batch + [iss];
      } else if "finding" in iss.labels {
        var ftype := FindingType(iss.summary);
        if ftype !in byType {
          types, byType := types + [ftype], byType[ftype := []];
          assert byType[ftype := [iss]] == byType[ftype := byType[ftype] + [iss]];
        }
        byType := byType[ftype := byType[ftype] + [iss]];
      } else {
        batch := batch + [iss];
      }
    }
    assert issues[..n] == issues;
  }

  /** What closing the first `n` of them counts, when `accepts` says which transitions go through. */
  function Accepted(accepts: nat -> bool, n: nat): nat {
    if n == 0 then 0 else Accepted(accepts, n - 1) + if accepts(n - 1) then 1 else 0
  }

  lemma PlanStep(issues: seq<Issue>, types: seq<string>, t: nat)
    requires t < |types| && Present(issues, types)
    ensures Present(issues, types[..t]) && Present(issues, types[..t + 1])
    ensures Select(issues, Finding(types[t])) != []
    ensures Kept(issues, types[..t + 1]) == Kept(issues, types[..t]) + [Newest(issues, types[t])[0]]
    ensures Superseded(issues, types[..t + 1]) == Superseded(issues, types[..t]) + Newest(issues, types[t])[1..]
  {
    assert forall u <- types[..t + 1] :: u in types;
    assert types[..t + 1][..t] == types[..t];
    FrontIsPresent(issues, types[..t + 1]);
  }

  method KeepNewest(ghost issues: seq<Issue>, types: seq<string>, byType: map<string, seq<Issue>>)
    returns (kept: seq<Issue>, superseded: seq<Issue>)
    requires Present(issues, types)
    requires forall t <- types :: t in byType && byType[t] == Select(issues, Finding(t))
    ensures kept == Kept(issues, types) && superseded == Superseded(issues, types)
  {
    kept, superseded := [], [];
    var t := 0;
    while t < |types|
      invariant 0 <= t <= |types|
      invariant Present(issues, types[..t])
      invariant kept == Kept(issues, types[..t]) && superseded == Superseded(issues, types[..t])
    {
      PlanStep(issues, types, t);
      assert types[t] in types;
      var sorted := NewestFirst(byType[types[t]]);
      kept := kept + [sorted[0]];
      superseded := superseded + sorted[1..];
      t := t + 1;
    }
    assert types[..t] == types;
  }

  method BulkCloseStale(issues: seq<Issue>, accepts: nat -> bool)
    returns (plan: Plan, closed: nat, errors: nat)
    ensures plan == PlanFor(issues)
    ensures closed == Accepted(accepts, |plan.toClose|) && closed + errors == |plan.toClose|
  {
    var defects, batch, types, byType := Categorize(issues);
    TypesFit(issues);
    var kept, superseded := KeepNewest(issues, types, byType);
    var toClose := batch + superseded;
    plan := Plan(defects, kept, toClose);
    closed, errors := 0, 0;
    for c := 0 to |toClose|
      invariant closed == Accepted(accepts, c) && closed + errors == c
    {
      if accepts(c) {
        closed := closed + 1;
      } else {
        errors := errors + 1;
      }
    }
  }

  // ----- Nothing lost, nothing twice -----

  lemma {:induction false} SelectCount(issues: seq<Issue>, kind: Kind, iss: Issue)
    ensures multiset(Select(issues, kind))[iss] == if KindOf(iss) == kind then multiset(issues)[iss] else 0
  {
    if issues != [] {
      var front, last := issues[..|issues| - 1], issues[|issues| - 1];
      SelectCount(front, kind, iss);
      CountAppend(front, [last], iss);
      CountAppend(Select(front, kind), if KindOf(last) == kind then [last] else [], iss);
      assert issues == front + [last];
    }
  }

  lemma NewestCount(issues: seq<Issue>, ftype: string, iss: Issue)
    requires Select(issues, Finding(ftype)) != []
    ensures var sorted := Newest(issues, ftype);
      multiset{sorted[0]}[iss] + multiset(sorted[1..])[iss] ==
      if KindOf(iss) == Finding(ftype) then multiset(issues)[iss] else 0
  {
    var sorted := Newest(issues, ftype);
    SelectCount(issues, Finding(ftype), iss);
    SortIsPermutation(Select(issues, Finding(ftype)));
    assert sorted == [sorted[0]] + sorted[1..];
  }

  predicate Distinct(types: seq<string>) {
    forall i, j | 0 <= i < j < |types| :: types[i] != types[j]
  }

  lemma FrontIsDistinct(types: seq<string>, t: string)
    requires types != [] && Distinct(types)
    ensures Distinct(types[..|types| - 1])
    ensures t in types <==> (t in types[..|types| - 1] || t == types[|types| - 1])
    ensures types[|types| - 1] !in types[..|types| - 1]
  {
    assert types == types[..|types| - 1] + [types[|types| - 1]];
  }

  lemma CountAppend(a: seq<Issue>, b: seq<Issue>, iss: Issue)
    ensures multiset(a + b)[iss] == multiset(a)[iss] + multiset(b)[iss]
  {
  }

  function Counted(issues: seq<Issue>, types: seq<string>, iss: Issue): nat
    requires Present(issues, types)
  {
    multiset(Kept(issues, types))[iss] + multiset(Superseded(issues, types))[iss]
  }

  lemma CountStep(issues: seq<Issue>, types: seq<string>, iss: Issue)
    requires Present(issues, types) && types != []
    ensures Present(issues, types[..|types| - 1])
    ensures Counted(issues, types, iss) == Counted(issues, types[..|types| - 1], iss)
      + if KindOf(iss) == Finding(types[|types| - 1]) then multiset(issues)[iss] else 0
  {
    var front, last := types[..|types| - 1], types[|types| - 1];
    FrontIsPresent(issues, types);
    NewestCount(issues, last, iss);
    var sorted := Newest(issues, last);
    CountAppend(Kept(issues, front), [sorted[0]], iss);
    CountAppend(Superseded(issues, front), sorted[1..], iss);
  }

  lemma {:induction false} TypesCount(issues: seq<Issue>, types: seq<string>, iss: Issue)
    requires Present(issues, types) && Distinct(types)
    ensures Counted(issues, types, iss) ==
            if KindOf(iss).Finding? && KindOf(iss).ftype in types then multiset(issues)[iss] else 0
  {
    if types != [] {
      CountStep(issues, types, iss);
      FrontIsDistinct(types, types[0]);
      if KindOf(iss).Finding? {
        FrontIsDistinct(types, KindOf(iss).ftype);
      }
      TypesCount(issues, types[..|types| - 1], iss);
    }
  }

  /** Every issue of the backlog is a defect, is kept or is to be closed, and only one of these. */
  lemma PlanIsPartition(issues: seq<Issue>)
    ensures var plan := PlanFor(issues);
      multiset(issues) == multiset(plan.defects) + multiset(plan.kept) + multiset(plan.toClose)
  {
    var plan := PlanFor(issues);
    TypesFit(issues);
    forall iss: Issue
      ensures multiset(issues)[iss] ==
              multiset(plan.defects)[iss] + multiset(plan.kept)[iss] + multiset(plan.toClose)[iss]
    {
      TypesCount(issues, Types(issues), iss);
      SelectCount(issues, Defect, iss);
      SelectCount(issues, Batch, iss);
      if KindOf(iss).Finding? {
        SelectCount(issues, KindOf(iss), iss);
        if iss in issues {
          assert multiset(Select(issues, KindOf(iss)))[iss] > 0;
        }
      }
    }
  }

  // ----- The newest of each type stays -----

  lemma {:induction false} KeptAt(issues: seq<Issue>, types: seq<string>, k: nat)
    requires Present(issues, types)
    requires k < |types|
    ensures |Kept(issues, types)| == |types|
    ensures Kept(issues, types)[k] == Newest(issues, types[k])[0]
  {
    if k < |types| - 1 {
      KeptAt(issues, types[..|types| - 1], k);
    } else if k > 0 {
      KeptAt(issues, types[..|types| - 1], 0);
    }
  }

  /** The one that stays is of its type, and none of its type in the backlog is newer. */
  lemma NewestIsNewest(issues: seq<Issue>, ftype: string)
    requires Select(issues, Finding(ftype)) != []
    ensures var first := Newest(issues, ftype)[0];
      && first in issues && KindOf(first) == Finding(ftype)
      && forall iss <- issues :: KindOf(iss) == Finding(ftype) ==> !Before(first.created, iss.created)
  {
    var selected := Select(issues, Finding(ftype));
    var sorted := Newest(issues, ftype);
    SortIsPermutation(selected);
    SortSorts(selected);
    SelectCount(issues, Finding(ftype), sorted[0]);
    assert sorted[0] in multiset(sorted);
    assert multiset(issues)[sorted[0]] > 0;
    forall iss <- issues | KindOf(iss) == Finding(ftype)
      ensures !Before(sorted[0].created, iss.created)
    {
      SelectCount(issues, Finding(ftype), iss);
      assert multiset(selected)[iss] > 0 && iss in sorted;
      BeforeIsIrreflexive(sorted[0].created);
    }
  }

  /** Every type found in the backlog keeps exactly one issue, and no issue of that type is newer. */
  lemma OneOfEachTypeStays(issues: seq<Issue>, ftype: string)
    requires exists iss <- issues :: KindOf(iss) == Finding(ftype)
    ensures var kept := PlanFor(issues).kept;
      exists k | 0 <= k < |kept| ::
        && KindOf(kept[k]) == Finding(ftype) && kept[k] in issues
        && (forall j | 0 <= j < |kept| && j != k :: KindOf(kept[j]) != Finding(ftype))
        && (forall iss <- issues :: KindOf(iss) == Finding(ftype) ==> !Before(kept[k].created, iss.created))
  {
    TypesFit(issues);
    var types, kept := Types(issues), PlanFor(issues).kept;
    var iss :| iss in issues && KindOf(iss) == Finding(ftype);
    SelectCount(issues, Finding(ftype), iss);
    assert multiset(Select(issues, Finding(ftype)))[iss] > 0;
    var k :| 0 <= k < |types| && types[k] == ftype;
    KeptAt(issues, types, k);
    NewestIsNewest(issues, ftype);
    forall j | 0 <= j < |kept| && j != k ensures KindOf(kept[j]) != Finding(ftype) {
      KeptAt(issues, types, j);
      NewestIsNewest(issues, types[j]);
    }
    assert KindOf(kept[k]) == Finding(ftype);
  }

  /** An issue to be closed is no defect; if it is a finding, one at least as new stays. */
  lemma ClosedIsSuperseded(issues: seq<Issue>, iss: Issue)
    requires iss in PlanFor(issues).toClose
    ensures iss in issues && "defect" !in iss.labels
    ensures KindOf(iss).Finding? ==> exists other <- PlanFor(issues).kept ::
              KindOf(other) == KindOf(iss) && !Before(other.created, iss.created)
  {
    PlanIsPartition(issues);
    assert multiset(PlanFor(issues).toClose)[iss] > 0;
    assert multiset(issues)[iss] > 0;
    SelectCount(issues, Defect, iss);
    if KindOf(iss).Finding? {
      OneOfEachTypeStays(issues, KindOf(iss).ftype);
    }
  }

  // ----- By the labels -----

  lemma {:induction false} SelectedMembers(issues: seq<Issue>, kind: Kind, iss: Issue)
    ensures iss in Select(issues, kind) <==> iss in issues && KindOf(iss) == kind
  {
    SelectCount(issues, kind, iss);
    assert iss in issues <==> multiset(issues)[iss] > 0;
    assert iss in Select(issues, kind) <==> multiset(Select(issues, kind))[iss] > 0;
  }

  /** The label defect keeps an issue, whatever others it has; otherwise scheduled-batch closes it,
      and so does the lack of the label finding. Only of the rest one of each type is kept. */
  lemma LabelsDecide(issues: seq<Issue>, iss: Issue)
    requires iss in issues
    ensures "defect" in iss.labels <==> iss in PlanFor(issues).defects
    ensures "defect" !in iss.labels && ("scheduled-batch" in iss.labels || "finding" !in iss.labels) ==>
              iss in PlanFor(issues).toClose && iss !in PlanFor(issues).kept
    ensures iss in PlanFor(issues).kept ==> "finding" in iss.labels && "scheduled-batch" !in iss.labels
    ensures "defect" in iss.labels ==> iss !in PlanFor(issues).toClose && iss !in PlanFor(issues).kept
  {
    var plan := PlanFor(issues);
    SelectedMembers(issues, Defect, iss);
    SelectedMembers(issues, Batch, iss);
    if KindOf(iss) == Batch {
      assert iss in plan.toClose;
    }
    TypesFit(issues);
    TypesCount(issues, Types(issues), iss);
    assert iss in plan.kept <==> multiset(plan.kept)[iss] > 0;
    if iss in plan.toClose {
      ClosedIsSuperseded(issues, iss);
    }
  }

  /** Defects keep their number and the order they were fetched in. */
  lemma {:induction false} DefectsInOrder(issues: seq<Issue>) returns (at: seq<nat>)
    ensures var defects := Select(issues, Defect);
            && |at| == |defects|
            && (forall i | 0 <= i < |at| :: at[i] < |issues| && defects[i] == issues[at[i]])
            && (forall i, j | 0 <= i < j < |at| :: at[i] < at[j])
            && (forall n | 0 <= n < |issues| :: "defect" in issues[n].labels <==> n in at)
  {
    if issues == [] {
      return [];
    }
    var n := |issues| - 1;
    at := DefectsInOrder(issues[..n]);
    if KindOf(issues[n]) == Defect {
      at := at + [n];
    }
  }

  /** A summary without a known prefix, or without a colon behind it, is of the type other. */
  lemma OtherwiseOther(iss: Issue)
    requires "finding" in iss.labels && "defect" !in iss.labels && "scheduled-batch" !in iss.labels
    requires (forall p <- PREFIXES :: !(p <= iss.summary)) || ':' !in iss.summary
    ensures KindOf(iss) == Finding("other")
  {
    NoColonIsOther(iss.summary, PREFIXES);
  }

  lemma {:induction false} NoColonIsOther(summary: string, prefixes: seq<string>)
    requires (forall p <- prefixes :: !(p <= summary)) || ':' !in summary
    ensures TypeOf(summary, prefixes) == "other"
  {
    if prefixes != [] {
      assert prefixes[0] in prefixes && forall p <- prefixes[1..] :: p in prefixes;
      if prefixes[0] <= summary {
        var body := summary[|prefixes[0]|..];
        assert forall i | 0 <= i < |body| :: body[i] == summary[|prefixes[0]| + i];
        assert RunEnd(body, 0, c => c == ':') == |body|;
      } else {
        NoColonIsOther(summary, prefixes[1..]);
      }
    }
  }

  lemma SupersededAreFindings(issues: seq<Issue>, iss: Issue)
    requires Present(issues, Types(issues)) && iss in Superseded(issues, Types(issues))
    ensures KindOf(iss).Finding?
  {
    TypesFit(issues);
    TypesCount(issues, Types(issues), iss);
    assert multiset(Superseded(issues, Types(issues)))[iss] > 0;
  }

  lemma KindsInTurn(batch: seq<Issue>, rest: seq<Issue>, i: nat, j: nat)
    requires i < j < |batch + rest| && KindOf((batch + rest)[i]).Finding?
    requires forall iss <- batch :: !KindOf(iss).Finding?
    requires forall iss <- rest :: KindOf(iss).Finding?
    ensures KindOf((batch + rest)[j]).Finding?
  {
    assert forall k | 0 <= k < |batch| :: (batch + rest)[k] == batch[k] && batch[k] in batch;
    assert forall k | |batch| <= k < |batch + rest| :: (batch + rest)[k] == rest[k - |batch|];
    assert (batch + rest)[j] in rest;
  }

  /** Batch parents are closed before any finding. */
  lemma BatchesFirst(issues: seq<Issue>, i: nat, j: nat)
    requires i < j < |PlanFor(issues).toClose| && KindOf(PlanFor(issues).toClose[i]).Finding?
    ensures KindOf(PlanFor(issues).toClose[j]).Finding?
  {
    TypesFit(issues);
    var batch, rest := Select(issues, Batch), Superseded(issues, Types(issues));
    forall iss <- batch
      ensures !KindOf(iss).Finding?
    {
      SelectedMembers(issues, Batch, iss);
    }
    forall iss <- rest
      ensures KindOf(iss).Finding?
    {
      SupersededAreFindings(issues, iss);
    }
    KindsInTurn(batch, rest, i, j);
  }

  /** The types come in the order in which their first issues were fetched. */
  lemma {:induction false} TypesInOrder(issues: seq<Issue>, n: nat)
    requires n <= |issues|
    ensures Types(issues[..n]) <= Types(issues)
  {
    if n == |issues| {
      assert issues[..n] == issues;
    } else {
      assert issues[..|issues| - 1][..n] == issues[..n];
      TypesInOrder(issues[..|issues| - 1], n);
    }
  }

  /** The count of closed issues is the number of transitions that went through. */
  lemma {:induction false} AcceptedCounts(accepts: nat -> bool, n: nat)
    ensures Accepted(accepts, n) == |set c: nat | c < n && accepts(c)|
  {
    if n > 0 {
      AcceptedCounts(accepts, n - 1);
      var all, front := set c: nat | c < n && accepts(c), set c: nat | c < n - 1 && accepts(c);
      assert all == if accepts(n - 1) then front + {n - 1} else front;
    } else {
      assert (set c: nat | c < n && accepts(c)) == {};
    }
  }

  // ----- Once is enough -----

  lemma {:induction false} NothingSuperseded(issues: seq<Issue>, types: seq<string>)
    requires forall t <- types :: |Select(issues, Finding(t))| == 1
    ensures Superseded(issues, types) == []
  {
    if types != [] {
      NothingSuperseded(issues, types[..|types| - 1]);
    }
  }

  /** A group with only one possible member, which is there at most once, has at most one entry. */
  lemma {:induction false} SelectAtMostOne(issues: seq<Issue>, ftype: string, only: Issue)
    requires multiset(issues)[only] <= 1
    requires forall i | 0 <= i < |issues| :: KindOf(issues[i]) == Finding(ftype) ==> issues[i] == only
    ensures |Select(issues, Finding(ftype))| <= multiset(issues)[only]
  {
    if issues != [] {
      var front, last := issues[..|issues| - 1], issues[|issues| - 1];
      assert issues == front + [last];
      SelectAtMostOne(front, ftype, only);
    }
  }

  lemma OnceInSequence(s: seq<Issue>, k: nat)
    requires k < |s| && forall j | 0 <= j < |s| && j != k :: s[j] != s[k]
    ensures multiset(s)[s[k]] == 1
  {
    assert s == s[..k] + [s[k]] + s[k + 1..];
    assert s[k] !in s[..k] && s[k] !in s[k + 1..];
  }

  lemma FindingLeftIsKept(issues: seq<Issue>, again: seq<Issue>, iss: Issue)
    requires multiset(again) == multiset(PlanFor(issues).defects) + multiset(PlanFor(issues).kept)
    requires iss in again
    ensures iss in issues && (KindOf(iss).Finding? ==> iss in PlanFor(issues).kept)
    ensures multiset(again)[iss] == multiset(Select(issues, Defect))[iss] + multiset(PlanFor(issues).kept)[iss]
  {
    PlanIsPartition(issues);
    assert multiset(again)[iss] > 0;
    SelectCount(issues, Defect, iss);
    assert multiset(issues)[iss] > 0;
  }

  /** What the plan leaves open holds at most one issue of a type. */
  lemma OneLeft(issues: seq<Issue>, again: seq<Issue>, ftype: string)
    requires multiset(again) == multiset(PlanFor(issues).defects) + multiset(PlanFor(issues).kept)
    requires exists iss <- again :: KindOf(iss) == Finding(ftype)
    ensures |Select(again, Finding(ftype))| <= 1
  {
    var kept := PlanFor(issues).kept;
    forall iss <- again ensures KindOf(iss) == Finding(ftype) ==> iss in kept && iss in issues {
      FindingLeftIsKept(issues, again, iss);
    }
    OneOfEachTypeStays(issues, ftype);
    var k :| 0 <= k < |kept| && KindOf(kept[k]) == Finding(ftype)
      && forall j | 0 <= j < |kept| && j != k :: KindOf(kept[j]) != Finding(ftype);
    OnceInSequence(kept, k);
    assert multiset(again)[kept[k]] == multiset(PlanFor(issues).defects)[kept[k]] + 1;
    SelectCount(issues, Defect, kept[k]);
    SelectAtMostOne(again, ftype, kept[k]);
  }

  lemma NoBatchLeft(issues: seq<Issue>, again: seq<Issue>)
    requires multiset(again) == multiset(PlanFor(issues).defects) + multiset(PlanFor(issues).kept)
    ensures Select(again, Batch) == []
  {
    var plan := PlanFor(issues);
    TypesFit(issues);
    if Select(again, Batch) != [] {
      var iss := Select(again, Batch)[0];
      SelectCount(again, Batch, iss);
      assert multiset(Select(again, Batch))[iss] > 0;
      SelectCount(issues, Defect, iss);
      TypesCount(issues, Types(issues), iss);
      assert false;
    }
  }

  /** What one run leaves open, in whatever order it is fetched, the next run leaves alone. */
  lemma SecondRunClosesNothing(issues: seq<Issue>, again: seq<Issue>)
    requires multiset(again) == multiset(PlanFor(issues).defects) + multiset(PlanFor(issues).kept)
    ensures PlanFor(again).toClose == []
  {
    TypesFit(again);
    NoBatchLeft(issues, again);
    forall t <- Types(again) ensures |Select(again, Finding(t))| == 1 {
      var iss := Select(again, Finding(t))[0];
      SelectCount(again, Finding(t), iss);
      assert multiset(Select(again, Finding(t)))[iss] > 0;
      assert multiset(again)[iss] > 0;
      OneLeft(issues, again, t);
    }
    NothingSuperseded(again, Types(again));
  }
}
