/** How the dispatcher infers target files from a ticket's text. The component table is a Go map,
    so its iteration order is a parameter. */
module Inference {
  import opened Strings
  import Packet
  import PathScan

  type Component = (string, seq<string>)

  const TABLE: seq<Component> := [
    ("scheduler", ["cmd/scheduler/main.go"]),
    ("factory-fill", ["cmd/factory-fill/main.go"]),
    ("foreman", ["cmd/foreman/main.go"]),
    ("readiness", ["internal/readiness/validator.go"]),
    ("docs", ["docs/README.md"]),
    ("config", ["config/policy/README.md"]),
    ("validator", ["internal/readiness/validator.go"]),
    ("auth", ["internal/apiserver/auth.go", "internal/office/jira/auth_check.go"]),
    ("api", ["internal/apiserver/auth.go", "internal/apiserver/server.go"]),
    ("worker", ["cmd/zen-brain/worker.go"]),
    ("analyzer", ["internal/analyzer/analyzer.go"]),
    ("factory", ["internal/factory/factory.go"]),
    ("agent", ["internal/agent/binding.go"]),
    ("jira", ["internal/office/jira/auth_check.go"])]

  const PATTERNS := ["docs/", "internal/", "cmd/", "config/"]
  const LIMIT := 10

  predicate Stops(c: char) {
    c in " \n\t\",)}"
  }

  // ----- What the steps compute -----

  function Hits(component: Component, text: string): seq<string> {
    if IndexFrom(text, component.0, 0) >= 0 then component.1 else []
  }

  function ComponentHits(order: seq<Component>, text: string): seq<string> {
    if order == [] then [] else Hits(order[0], text) + ComponentHits(order[1..], text)
  }

  /** A candidate is cut out of the lower-cased text; its spelling comes from the description. */
  function Restored(candidate: string, desc: string): string {
    var at := IndexFrom(Lower(desc), candidate, 0);
    if at >= 0 then desc[at..at + |candidate|] else candidate
  }

  function Found(text: string, desc: string, pattern: string, idx: nat): seq<string>
    requires idx <= |text|
  {
    var candidate := text[idx..RunEnd(text, idx, Stops)];
    if '.' in candidate && ' ' !in candidate && |candidate| > |pattern| + 3 then [Restored(candidate, desc)]
    else []
  }

  /** The candidates once one pattern is done, from its occurrence at `idx` on. */
  function Scan(text: string, desc: string, pattern: string, idx: int, candidates: seq<string>): seq<string>
    requires pattern != "" && (idx >= 0 ==> At(text, pattern, idx))
    decreases if idx >= 0 then |text| - idx else -1
  {
    if idx < 0 || |candidates| >= LIMIT then candidates
    else Scan(text, desc, pattern, IndexFrom(text, pattern, idx + |pattern|),
              candidates + Found(text, desc, pattern, idx))
  }

  function ScanAll(text: string, desc: string, patterns: seq<string>, n: nat, candidates: seq<string>): seq<string>
    requires n <= |patterns| && forall p | 0 <= p < |patterns| :: patterns[p] != ""
    decreases |patterns| - n
  {
    if n == |patterns| then candidates
    else ScanAll(text, desc, patterns, n + 1,
                 Scan(text, desc, patterns[n], IndexFrom(text, patterns[n], 0), candidates))
  }

  predicate Acceptable(path: string, onDisk: string -> bool) {
    (path == "" || path[|path| - 1] != '/') && onDisk(path)
  }

  function Valid(paths: seq<string>, onDisk: string -> bool): seq<string> {
    if paths == [] then []
    else Valid(paths[..|paths| - 1], onDisk) +
         if Acceptable(paths[|paths| - 1], onDisk) then [paths[|paths| - 1]] else []
  }

  function Dedup(paths: seq<string>): seq<string> {
    if paths == [] then []
    else
      var front := Dedup(paths[..|paths| - 1]);
      if paths[|paths| - 1] in front then front else front + [paths[|paths| - 1]]
  }

  function Candidates(summary: string, desc: string, order: seq<Component>): seq<string> {
    var text := Lower(summary + " " + desc);
    PatternsNonempty();
    ScanAll(text, desc, PATTERNS, 0, ComponentHits(order, text))
  }

  function Inferred(summary: string, desc: string, order: seq<Component>, onDisk: string -> bool): seq<string> {
    Dedup(Valid(Candidates(summary, desc, order), onDisk))
  }

  // ----- The loops -----

  method CollectComponents(order: seq<Component>, text: string) returns (candidates: seq<string>)
    ensures candidates == ComponentHits(order, text)
  {
    candidates := [];
    for i := 0 to |order|
      invariant candidates + ComponentHits(order[i..], text) == ComponentHits(order, text)
    {
      assert order[i..][1..] == order[i + 1..];
      if IndexFrom(text, order[i].0, 0) >= 0 {
        candidates := candidates + order[i].1;
      }
    }
    assert order[|order|..] == [];
  }

  method ScanPattern(text: string, desc: string, pattern: string, before: seq<string>) returns (candidates: seq<string>)
    requires pattern != ""
    ensures candidates == Scan(text, desc, pattern, IndexFrom(text, pattern, 0), before)
  {
    candidates := before;
    var idx := IndexFrom(text, pattern, 0);
    while idx >= 0 && |candidates| < LIMIT
      invariant idx >= 0 ==> At(text, pattern, idx)
      invariant Scan(text, desc, pattern, idx, candidates) ==
                Scan(text, desc, pattern, IndexFrom(text, pattern, 0), before)
      decreases if idx >= 0 then |text| - idx else -1
    {
      candidates := candidates + Found(text, desc, pattern, idx);
      idx := IndexFrom(text, pattern, idx + |pattern|);
    }
  }

  method ScanPatterns(text: string, desc: string, patterns: seq<string>, hits: seq<string>)
    returns (candidates: seq<string>)
    requires forall p | 0 <= p < |patterns| :: patterns[p] != ""
    ensures candidates == ScanAll(text, desc, patterns, 0, hits)
  {
    candidates := hits;
    for n := 0 to |patterns|
      invariant ScanAll(text, desc, patterns, n, candidates) == ScanAll(text, desc, patterns, 0, hits)
    {
      candidates := ScanPattern(text, desc, patterns[n], candidates);
    }
  }

  method Validate(candidates: seq<string>, onDisk: string -> bool) returns (valid: seq<string>)
    ensures valid == Valid(candidates, onDisk)
  {
    valid := [];
    for i := 0 to |candidates|
      invariant valid == Valid(candidates[..i], onDisk)
    {
      assert candidates[..i + 1][..i] == candidates[..i];
      var f := candidates[i];
      if f != "" && f[|f| - 1] == '/' {
        continue;
      }
      if onDisk(f) {
        valid := valid + [f];
      }
    }
    assert candidates[..|candidates|] == candidates;
  }

  method Deduplicate(valid: seq<string>) returns (result: seq<string>)
    ensures result == Dedup(valid)
  {
    var seen: set<string> := {};
    result := [];
    for i := 0 to |valid|
      invariant result == Dedup(valid[..i])
      invariant forall f :: f in seen <==> f in result
    {
      assert valid[..i + 1][..i] == valid[..i];
      if valid[i] !in seen {
        seen := seen + {valid[i]};
        result := result + [valid[i]];
      }
    }
    assert valid[..|valid|] == valid;
  }

  lemma PatternsNonempty()
    ensures forall p | 0 <= p < |PATTERNS| :: PATTERNS[p] != ""
  {
  }

  /** `inferTargetFiles`: distinct paths that exist and do not end in a slash. */
  method InferTargetFiles(summary: string, desc: string, order: seq<Component>, onDisk: string -> bool)
    returns (result: seq<string>)
    ensures result == Inferred(summary, desc, order, onDisk)
    ensures forall f <- result :: onDisk(f) && (f == "" || f[|f| - 1] != '/')
    ensures forall i, j | 0 <= i < j < |result| :: result[i] != result[j]
  {
    var text := Lower(summary + " " + desc);
    var candidates := CollectComponents(order, text);
    PatternsNonempty();
    candidates := ScanPatterns(text, desc, PATTERNS, candidates);
    var valid := Validate(candidates, onDisk);
    result := Deduplicate(valid);
    DedupDistinct(valid);
    ValidMembers(candidates, onDisk);
  }

  // ----- The order of the table does not matter -----

  lemma {:induction false} ValidMembers(paths: seq<string>, onDisk: string -> bool)
    ensures forall f :: f in Valid(paths, onDisk) <==> f in paths && Acceptable(f, onDisk)
  {
    if paths != [] {
      ValidMembers(paths[..|paths| - 1], onDisk);
      assert paths == paths[..|paths| - 1] + [paths[|paths| - 1]];
    }
  }

  lemma {:induction false} DedupDistinct(paths: seq<string>)
    ensures forall f :: f in Dedup(paths) <==> f in paths
    ensures forall i, j | 0 <= i < j < |Dedup(paths)| :: Dedup(paths)[i] != Dedup(paths)[j]
  {
    if paths != [] {
      DedupDistinct(paths[..|paths| - 1]);
      assert paths == paths[..|paths| - 1] + [paths[|paths| - 1]];
    }
  }

  lemma {:induction false} HitsAppend(a: seq<Component>, b: seq<Component>, text: string)
    ensures ComponentHits(a + b, text) == ComponentHits(a, text) + ComponentHits(b, text)
    decreases |a|
  {
    if a == [] {
      assert a + b == b;
    } else {
      HitsAppend(a[1..], b, text);
      assert (a + b)[0] == a[0] && (a + b)[1..] == a[1..] + b;
    }
  }

  lemma {:induction false} HitsOfPermutation(a: seq<Component>, b: seq<Component>, text: string)
    requires multiset(a) == multiset(b)
    ensures multiset(ComponentHits(a, text)) == multiset(ComponentHits(b, text))
    decreases |a|
  {
    if a == [] {
      assert |multiset(b)| == 0;
    } else {
      assert a[0] in multiset(b);
      var j :| 0 <= j < |b| && b[j] == a[0];
      SameRest(a, b, j);
      HitsOfPermutation(a[1..], b[..j] + b[j + 1..], text);
      HitsPick(b, j, text);
    }
  }

  lemma SameRest(a: seq<Component>, b: seq<Component>, j: nat)
    requires a != [] && j < |b| && b[j] == a[0] && multiset(a) == multiset(b)
    ensures multiset(a[1..]) == multiset(b[..j] + b[j + 1..])
  {
    RemoveOne(a, 0);
    RemoveOne(b, j);
    assert a[..0] + a[1..] == a[1..];
  }

  lemma RemoveOne(s: seq<Component>, j: nat)
    requires j < |s|
    ensures multiset(s[..j] + s[j + 1..]) == multiset(s) - multiset{s[j]}
  {
    assert s == s[..j] + [s[j]] + s[j + 1..];
  }

  lemma HitsPick(s: seq<Component>, j: nat, text: string)
    requires j < |s|
    ensures multiset(ComponentHits(s, text)) ==
            multiset(Hits(s[j], text)) + multiset(ComponentHits(s[..j] + s[j + 1..], text))
  {
    var tail := [s[j]] + s[j + 1..];
    assert s == s[..j] + tail && tail[1..] == s[j + 1..];
    HitsAppend(s[..j], tail, text);
    HitsAppend(s[..j], s[j + 1..], text);
  }

  lemma {:induction false} OnceEach(s: seq<string>, f: string)
    requires forall i, j | 0 <= i < j < |s| :: s[i] != s[j]
    ensures multiset(s)[f] == if f in s then 1 else 0
  {
    if s != [] {
      var front := s[..|s| - 1];
      assert s == front + [s[|s| - 1]];
      OnceEach(front, f);
    }
  }

  lemma SameMembersPermute(s: seq<string>, t: seq<string>)
    requires forall i, j | 0 <= i < j < |s| :: s[i] != s[j]
    requires forall i, j | 0 <= i < j < |t| :: t[i] != t[j]
    requires forall f :: f in s <==> f in t
    ensures multiset(s) == multiset(t)
  {
    forall f
      ensures multiset(s)[f] == multiset(t)[f]
    {
      OnceEach(s, f);
      OnceEach(t, f);
    }
  }

  /** The cap looks only at how many candidates there are, so the scan adds the same ones. */
  lemma {:induction false} ScanOfPermutation(text: string, desc: string, pattern: string, idx: int,
                                             a: seq<string>, b: seq<string>)
    requires pattern != "" && (idx >= 0 ==> At(text, pattern, idx))
    requires multiset(a) == multiset(b)
    ensures multiset(Scan(text, desc, pattern, idx, a)) == multiset(Scan(text, desc, pattern, idx, b))
    decreases if idx >= 0 then |text| - idx else -1
  {
    assert |a| == |multiset(a)| == |multiset(b)| == |b|;
    if idx >= 0 && |a| < LIMIT {
      var found := Found(text, desc, pattern, idx);
      ScanOfPermutation(text, desc, pattern, IndexFrom(text, pattern, idx + |pattern|), a + found, b + found);
    }
  }

  lemma {:induction false} ScanAllOfPermutation(text: string, desc: string, patterns: seq<string>, n: nat,
                                                a: seq<string>, b: seq<string>)
    requires n <= |patterns| && forall p | 0 <= p < |patterns| :: patterns[p] != ""
    requires multiset(a) == multiset(b)
    ensures multiset(ScanAll(text, desc, patterns, n, a)) == multiset(ScanAll(text, desc, patterns, n, b))
    decreases |patterns| - n
  {
    if n < |patterns| {
      var first := IndexFrom(text, patterns[n], 0);
      ScanOfPermutation(text, desc, patterns[n], first, a, b);
      ScanAllOfPermutation(text, desc, patterns, n + 1, Scan(text, desc, patterns[n], first, a),
                           Scan(text, desc, patterns[n], first, b));
    }
  }

  /** Two iteration orders of the table infer the same files, in some other order at most. */
  lemma OrderDoesNotMatter(summary: string, desc: string, order: seq<Component>, order': seq<Component>,
                           onDisk: string -> bool)
    requires multiset(order) == multiset(order')
    ensures multiset(Inferred(summary, desc, order, onDisk)) == multiset(Inferred(summary, desc, order', onDisk))
  {
    var text := Lower(summary + " " + desc);
    PatternsNonempty();
    HitsOfPermutation(order, order', text);
    ScanAllOfPermutation(text, desc, PATTERNS, 0, ComponentHits(order, text), ComponentHits(order', text));
    SameFiles(Candidates(summary, desc, order), Candidates(summary, desc, order'), onDisk);
  }

  lemma SameFiles(all: seq<string>, all': seq<string>, onDisk: string -> bool)
    requires multiset(all) == multiset(all')
    ensures multiset(Dedup(Valid(all, onDisk))) == multiset(Dedup(Valid(all', onDisk)))
  {
    forall f
      ensures f in all <==> f in all'
    {
      assert f in multiset(all) <==> f in multiset(all');
    }
    ValidMembers(all, onDisk);
    ValidMembers(all', onDisk);
    DedupDistinct(Valid(all, onDisk));
    DedupDistinct(Valid(all', onDisk));
    SameMembersPermute(Dedup(Valid(all, onDisk)), Dedup(Valid(all', onDisk)));
  }

  // ----- What the candidates are -----

  function First(s: seq<string>, count: int): seq<string> {
    if count <= 0 then [] else if count < |s| then s[..count] else s
  }

  predicate Mentions(text: string, component: Component) {
    IndexFrom(text, component.0, 0) >= 0
  }

  /** The paths the text names with one prefix, from `from` on: every position is looked at. */
  function Named(text: string, desc: string, pattern: string, from: nat): seq<string>
    decreases |text| - from
  {
    if from >= |text| then []
    else (if At(text, pattern, from) then Found(text, desc, pattern, from) else [])
         + Named(text, desc, pattern, from + 1)
  }

  function AllNamed(text: string, desc: string, patterns: seq<string>, n: nat): seq<string>
    requires n <= |patterns|
    decreases |patterns| - n
  {
    if n == |patterns| then [] else Named(text, desc, patterns[n], 0) + AllNamed(text, desc, patterns, n + 1)
  }

  lemma {:induction false} NamedBehind(text: string, desc: string, pattern: string, from: nat, next: int)
    requires from <= |text| && pattern != "" && (next >= 0 ==> from <= next <= |text|)
    requires forall j | from <= j && (next >= 0 ==> j < next) :: !At(text, pattern, j)
    ensures Named(text, desc, pattern, from) == if next < 0 then [] else Named(text, desc, pattern, next)
    decreases |text| - from
  {
    if from < |text| && from != next {
      NamedBehind(text, desc, pattern, from + 1, next);
    }
  }

  /** Stepping over an occurrence skips no other. */
  lemma NamedStep(text: string, desc: string, pattern: string, idx: nat)
    requires PathScan.SlashEnded(pattern) && At(text, pattern, idx)
    ensures idx < |text|
    ensures var next := IndexFrom(text, pattern, idx + |pattern|);
      Named(text, desc, pattern, idx) ==
      Found(text, desc, pattern, idx) + if next < 0 then [] else Named(text, desc, pattern, next)
  {
    var next := IndexFrom(text, pattern, idx + |pattern|);
    forall j | idx < j && (next >= 0 ==> j < next)
      ensures !At(text, pattern, j)
    {
      if j < idx + |pattern| {
        PathScan.NoOverlap(text, pattern, idx, j);
      }
    }
    NamedBehind(text, desc, pattern, idx + 1, next);
  }

  /** The scan for one prefix takes the paths it names until the cap is reached. */
  lemma {:induction false} ScanTakesFirst(text: string, desc: string, pattern: string, idx: int, before: seq<string>)
    requires PathScan.SlashEnded(pattern) && (idx >= 0 ==> At(text, pattern, idx))
    ensures Scan(text, desc, pattern, idx, before) ==
            before + First(if idx < 0 then [] else Named(text, desc, pattern, idx), LIMIT - |before|)
    decreases if idx >= 0 then |text| - idx else -1
  {
    if idx >= 0 && |before| < LIMIT {
      var found := Found(text, desc, pattern, idx);
      var next := IndexFrom(text, pattern, idx + |pattern|);
      var rest := if next < 0 then [] else Named(text, desc, pattern, next);
      NamedStep(text, desc, pattern, idx);
      ScanTakesFirst(text, desc, pattern, next, before + found);
      TakeFound(before, found, rest);
    }
  }

  lemma TakeFound(before: seq<string>, found: seq<string>, rest: seq<string>)
    requires |before| < LIMIT && |found| <= 1
    ensures before + First(found + rest, LIMIT - |before|) ==
            (before + found) + First(rest, LIMIT - |before + found|)
  {
    FirstAppend(found, rest, LIMIT - |before|);
    assert First(found, LIMIT - |before|) == found;
  }

  lemma FirstAppend(a: seq<string>, b: seq<string>, count: int)
    ensures First(a + b, count) == First(a, count) + First(b, count - |First(a, count)|)
  {
  }

  lemma {:induction false} ScanAllTakesFirst(text: string, desc: string, patterns: seq<string>, n: nat,
                                             before: seq<string>)
    requires n <= |patterns| && forall p | 0 <= p < |patterns| :: patterns[p] != ""
    requires forall p | 0 <= p < |patterns| :: PathScan.SlashEnded(patterns[p])
    ensures ScanAll(text, desc, patterns, n, before) ==
            before + First(AllNamed(text, desc, patterns, n), LIMIT - |before|)
    decreases |patterns| - n
  {
    if n < |patterns| {
      var rest := AllNamed(text, desc, patterns, n + 1);
      var named := Named(text, desc, patterns[n], 0);
      var after := before + First(named, LIMIT - |before|);
      OnePattern(text, desc, patterns[n], before);
      ScanAllTakesFirst(text, desc, patterns, n + 1, after);
      TakenInTurn(before, named, rest);
      assert ScanAll(text, desc, patterns, n, before) == ScanAll(text, desc, patterns, n + 1, after);
      assert AllNamed(text, desc, patterns, n) == named + rest;
    } else {
      assert AllNamed(text, desc, patterns, n) == [] && before + [] == before;
    }
  }

  lemma TakenInTurn(before: seq<string>, named: seq<string>, rest: seq<string>)
    ensures var after := before + First(named, LIMIT - |before|);
      after + First(rest, LIMIT - |after|) == before + First(named + rest, LIMIT - |before|)
  {
    FirstAppend(named, rest, LIMIT - |before|);
  }

  lemma OnePattern(text: string, desc: string, pattern: string, before: seq<string>)
    requires PathScan.SlashEnded(pattern)
    ensures Scan(text, desc, pattern, IndexFrom(text, pattern, 0), before) ==
            before + First(Named(text, desc, pattern, 0), LIMIT - |before|)
  {
    var first := IndexFrom(text, pattern, 0);
    NamedBehind(text, desc, pattern, 0, first);
    ScanTakesFirst(text, desc, pattern, first, before);
  }

  /** The paths the text names that come in under the cap. */
  function NamedInTime(summary: string, desc: string, order: seq<Component>): seq<string> {
    var text := Lower(summary + " " + desc);
    First(AllNamed(text, desc, PATTERNS, 0), LIMIT - |ComponentHits(order, text)|)
  }

  /** The candidates are the files of the components mentioned, and behind them the paths named in
      the text, in reading order by prefix, up to ten in all. */
  lemma CandidatesAreTableAndText(summary: string, desc: string, order: seq<Component>)
    ensures Candidates(summary, desc, order) ==
            ComponentHits(order, Lower(summary + " " + desc)) + NamedInTime(summary, desc, order)
  {
    PatternsAreSlashEnded();
    var text := Lower(summary + " " + desc);
    ScanAllTakesFirst(text, desc, PATTERNS, 0, ComponentHits(order, text));
  }

  lemma PatternsAreSlashEnded()
    ensures forall p | 0 <= p < |PATTERNS| :: PathScan.SlashEnded(PATTERNS[p])
  {
  }

  lemma {:induction false} HitsMembers(order: seq<Component>, text: string)
    ensures forall f :: f in ComponentHits(order, text) <==>
              exists i :: 0 <= i < |order| && Mentions(text, order[i]) && f in order[i].1
  {
    if order != [] {
      HitsMembers(order[1..], text);
      forall f
        ensures f in ComponentHits(order, text) <==>
                exists i :: 0 <= i < |order| && Mentions(text, order[i]) && f in order[i].1
      {
        if f in ComponentHits(order[1..], text) {
          var i :| 0 <= i < |order[1..]| && Mentions(text, order[1..][i]) && f in order[1..][i].1;
          assert order[i + 1] == order[1..][i];
        } else if i :| 0 <= i < |order| && Mentions(text, order[i]) && f in order[i].1 {
          assert i > 0 ==> order[i] == order[1..][i - 1];
        }
      }
    }
  }

  /** Inferred are exactly the acceptable ones among the files of the components mentioned and the
      paths named in time. */
  lemma InferredMembers(summary: string, desc: string, order: seq<Component>, onDisk: string -> bool)
    ensures forall f :: f in Inferred(summary, desc, order, onDisk) <==>
              && (f in ComponentHits(order, Lower(summary + " " + desc)) || f in NamedInTime(summary, desc, order))
              && Acceptable(f, onDisk)
  {
    var candidates := Candidates(summary, desc, order);
    ValidMembers(candidates, onDisk);
    DedupDistinct(Valid(candidates, onDisk));
    CandidatesAreTableAndText(summary, desc, order);
  }

  // ----- Directories -----

  /** A directory that passes the check: it is there, and its name does not end in a slash. */
  predicate Trap(f: string, onDisk: string -> bool, isDir: string -> bool) {
    Acceptable(f, onDisk) && isDir(f)
  }

  /** No inferred path is a directory exactly when no file of a component mentioned is one that
      passes the check, and no path named in time is. */
  lemma NoDirectoryExactly(summary: string, desc: string, order: seq<Component>, onDisk: string -> bool,
                           isDir: string -> bool)
    ensures (forall f <- Inferred(summary, desc, order, onDisk) :: !isDir(f)) <==>
            && (forall i | 0 <= i < |order| && Mentions(Lower(summary + " " + desc), order[i]) ::
                  forall f <- order[i].1 :: !Trap(f, onDisk, isDir))
            && (forall f <- NamedInTime(summary, desc, order) :: !Trap(f, onDisk, isDir))
  {
    InferredMembers(summary, desc, order, onDisk);
    HitsMembers(order, Lower(summary + " " + desc));
  }

  /** A path that stands alone in the description is taken as it is written. */
  lemma FoundWhole(path: string)
    requires PATTERNS[0] <= Lower(path) && '.' in path && |path| > |PATTERNS[0]| + 3
    requires forall c <- Lower(path) :: !Stops(c)
    ensures var text := Lower("" + " " + path);
      At(text, PATTERNS[0], 1) && !At(text, PATTERNS[0], 0) && Found(text, path, PATTERNS[0], 1) == [path]
  {
    var text, low := Lower("" + " " + path), Lower(path);
    assert text == " " + low;
    assert text[1..] == low && text[1..1 + |PATTERNS[0]|] == low[..|PATTERNS[0]|];
    assert text[0..|PATTERNS[0]|][0] == ' ';
    assert forall i | 1 <= i < |text| :: text[i] == low[i - 1];
    assert RunEnd(text, 1, Stops) == |text|;
    assert text[1..|text|] == low;
    var i :| 0 <= i < |path| && path[i] == '.';
    assert low[i] == '.';
    assert Stops(' ');
    assert ' ' !in low;
    assert low[0..|low|] == low && path[0..|path|] == path;
    assert At(low, low, 0);
    assert IndexFrom(low, low, 0) == 0;
    assert Restored(low, path) == path;
  }

  lemma WholePathIsNamed(path: string, order: seq<Component>)
    requires PATTERNS[0] <= Lower(path) && '.' in path && |path| > |PATTERNS[0]| + 3
    requires forall c <- Lower(path) :: !Stops(c)
    requires |ComponentHits(order, Lower("" + " " + path))| < LIMIT
    ensures path in NamedInTime("", path, order)
  {
    var text := Lower("" + " " + path);
    var patterns: seq<string> := PATTERNS;
    FoundWhole(path);
    NamedSecond(text, path, patterns[0]);
    AllNamedStarts(text, path, patterns);
    var all := AllNamed(text, path, patterns, 0);
    assert [path] <= all;
    FirstStarts(all, path, LIMIT - |ComponentHits(order, text)|);
  }

  lemma FirstStarts(s: seq<string>, path: string, count: int)
    requires [path] <= s && count >= 1
    ensures path in First(s, count)
  {
    assert First(s, count)[0] == path;
  }

  lemma NamedSecond(text: string, desc: string, pattern: string)
    requires pattern != "" && !At(text, pattern, 0) && At(text, pattern, 1)
    ensures Found(text, desc, pattern, 1) <= Named(text, desc, pattern, 0)
  {
    assert Named(text, desc, pattern, 0) == [] + Named(text, desc, pattern, 1);
    assert Named(text, desc, pattern, 1) == Found(text, desc, pattern, 1) + Named(text, desc, pattern, 2);
  }

  lemma AllNamedStarts(text: string, desc: string, patterns: seq<string>)
    requires patterns != []
    ensures Named(text, desc, patterns[0], 0) <= AllNamed(text, desc, patterns, 0)
  {
  }

  lemma WholePathComesOut(path: string, order: seq<Component>, onDisk: string -> bool)
    requires PATTERNS[0] <= Lower(path) && '.' in path && |path| > |PATTERNS[0]| + 3
    requires forall c <- Lower(path) :: !Stops(c)
    requires Acceptable(path, onDisk)
    requires |ComponentHits(order, Lower("" + " " + path))| < LIMIT
    ensures path in Inferred("", path, order, onDisk)
  {
    WholePathIsNamed(path, order);
    InferredMembers("", path, order, onDisk);
  }

  lemma LetterMissing(text: string, name: string, i: nat)
    requires i < |name| && name[i] !in text
    ensures IndexFrom(text, name, 0) == -1
  {
    var at := IndexFrom(text, name, 0);
    if at >= 0 {
      LetterPresent(text, name, at, i);
    }
  }

  lemma LetterPresent(text: string, name: string, at: int, i: nat)
    requires At(text, name, at) && i < |name|
    ensures name[i] in text
  {
    assert text[at + i] == text[at..at + |name|][i];
  }

  /** Some letter of the component's name is among those the text lacks. */
  predicate Lacks(component: Component, missing: string) {
    exists i :: 0 <= i < |component.0| && component.0[i] in missing
  }

  lemma LackingAddsNothing(order: seq<Component>, k: nat, text: string, missing: string)
    requires k < |order| && forall c <- missing :: c !in text
    ensures |ComponentHits(order[k..], text)| <=
            (if Lacks(order[k], missing) then 0 else |order[k].1|) + |ComponentHits(order[k + 1..], text)|
  {
    assert order[k..][0] == order[k] && order[k..][1..] == order[k + 1..];
    if Lacks(order[k], missing) {
      var i :| 0 <= i < |order[k].0| && order[k].0[i] in missing;
      LetterMissing(text, order[k].0, i);
    }
  }

  /** Files of the components from `k` on whose names have all their letters in the text. */
  lemma {:induction false} FewHits(order: seq<Component>, k: nat, text: string, missing: string, possible: set<nat>)
    requires k <= |order| && forall c <- missing :: c !in text
    requires forall i | k <= i < |order| && i !in possible :: Lacks(order[i], missing)
    requires forall i | 0 <= i < |order| :: |order[i].1| <= 2
    ensures |ComponentHits(order[k..], text)| <= 2 * |possible|
    decreases |order| - k
  {
    if k < |order| {
      LackingAddsNothing(order, k, text, missing);
      FewHits(order, k + 1, text, missing, possible - {k});
    }
  }

  const DIRECTORY := "docs/01-" + "ARCHITECTURE" + "/.backup"
  const LOWERED := "docs/01-" + "architecture" + "/.backup"

  lemma LowerAppend(a: string, b: string)
    ensures Lower(a + b) == Lower(a) + Lower(b)
  {
  }

  lemma DirectoryLowered()
    ensures Lower(DIRECTORY) == LOWERED
  {
    LowerAppend("docs/01-" + "ARCHITECTURE", "/.backup");
    LowerAppend("docs/01-", "ARCHITECTURE");
    assert Lower("docs/01-") == "docs/01-" && Lower("/.backup") == "/.backup";
    assert Lower("ARCHITECTURE") == "architecture";
  }

  lemma DirectoryIsPlain()
    ensures forall c <- LOWERED :: !Stops(c)
    ensures PATTERNS[0] <= LOWERED && '.' in DIRECTORY && Acceptable(DIRECTORY, f => true)
  {
    assert LOWERED[..5] == "docs/" && DIRECTORY[21] == "/.backup"[1];
    forall c <- LOWERED
      ensures !Stops(c)
    {
      assert c in "docs/01-" || c in "architecture" || c in "/.backup";
    }
  }

  lemma TableLacks()
    ensures |TABLE| == 14 && forall k | 0 <= k < 14 :: |TABLE[k].1| <= 2
    ensures forall k | 0 <= k < 14 && k !in {4, 7, 8} :: Lacks(TABLE[k], "lfnwj")
  {
    assert TABLE[0].0[6] == 'l' && TABLE[1].0[0] == 'f' && TABLE[2].0[0] == 'f' && TABLE[3].0[5] == 'n';
    assert TABLE[5].0[2] == 'n' && TABLE[6].0[2] == 'l';
    assert TABLE[9].0[0] == 'w' && TABLE[10].0[1] == 'n' && TABLE[11].0[0] == 'f' && TABLE[12].0[3] == 'n';
    assert TABLE[13].0[0] == 'j';
  }

  /** This repository tracks such a directory: a description that names it gives it as a target file. */
  lemma DirectoryComesOut(onDisk: string -> bool, isDir: string -> bool) returns (desc: string, order: seq<Component>)
    requires onDisk(DIRECTORY) && isDir(DIRECTORY)
    ensures desc == DIRECTORY && order == TABLE
    ensures desc in Inferred("", desc, order, onDisk) && isDir(desc)
  {
    desc, order := DIRECTORY, TABLE;
    var text := Lower("" + " " + desc);
    TableLacks();
    DirectoryLowered();
    DirectoryIsPlain();
    LowerAppend("" + " ", desc);
    assert text == " " + LOWERED;
    TextLacks();
    FewHits(order, 0, text, "lfnwj", {4, 7, 8});
    assert order[0..] == order;
    WholePathComesOut(desc, order, onDisk);
  }

  lemma TextLacks()
    ensures forall c <- "lfnwj" :: c !in " " + LOWERED
  {
    assert forall c <- "lfnwj" :: c !in "docs/01-";
    assert forall c <- "lfnwj" :: c !in "architecture";
    assert forall c <- "lfnwj" :: c !in "/.backup";
  }

  // ----- From inference through the packet to the worker -----

  lemma RestoredIsOneLine(candidate: string, desc: string)
    requires '\n' !in candidate
    ensures '\n' !in Restored(candidate, desc)
  {
    var at := IndexFrom(Lower(desc), candidate, 0);
    if at >= 0 {
      var restored := desc[at..at + |candidate|];
      forall i | 0 <= i < |restored|
        ensures restored[i] != '\n'
      {
        assert Lower(desc)[at..at + |candidate|][i] == candidate[i];
      }
    }
  }

  lemma {:induction false} NamedAreLines(text: string, desc: string, pattern: string, from: nat)
    ensures forall f <- Named(text, desc, pattern, from) :: '\n' !in f
    decreases |text| - from
  {
    if from < |text| {
      NamedAreLines(text, desc, pattern, from + 1);
      var candidate := text[from..RunEnd(text, from, Stops)];
      assert forall i | 0 <= i < |candidate| :: !Stops(candidate[i]);
      assert Stops('\n');
      RestoredIsOneLine(candidate, desc);
    }
  }

  lemma {:induction false} AllNamedAreLines(text: string, desc: string, patterns: seq<string>, n: nat)
    requires n <= |patterns|
    ensures forall f <- AllNamed(text, desc, patterns, n) :: '\n' !in f
    decreases |patterns| - n
  {
    if n < |patterns| {
      NamedAreLines(text, desc, patterns[n], 0);
      AllNamedAreLines(text, desc, patterns, n + 1);
    }
  }

  lemma InferredAreLines(summary: string, desc: string, order: seq<Component>, onDisk: string -> bool)
    requires forall i | 0 <= i < |order| :: forall f <- order[i].1 :: '\n' !in f
    ensures forall f <- Inferred(summary, desc, order, onDisk) :: '\n' !in f
  {
    var text := Lower(summary + " " + desc);
    AllNamedAreLines(text, desc, PATTERNS, 0);
    HitsMembers(order, text);
    InferredMembers(summary, desc, order, onDisk);
  }

  /** If the first inferred path is clean, it is the worker's target, whatever the others are. */
  lemma WorkerGetsFirstInferred(summary: string, desc: string, order: seq<Component>, onDisk: string -> bool,
                                stamp: string)
    requires forall i | 0 <= i < |order| :: forall f <- order[i].1 :: '\n' !in f
    requires var files := Inferred(summary, desc, order, onDisk);
             files != [] && files[0] != "" && Packet.CleanPath(files[0])
    requires '\n' !in stamp && ' ' !in stamp
    ensures var files := Inferred(summary, desc, order, onDisk);
            Packet.FirstPath(Split(Packet.Unlines(Packet.PacketLines(files, stamp)))) == files[0]
  {
    var files := Inferred(summary, desc, order, onDisk);
    InferredAreLines(summary, desc, order, onDisk);
    InferredMembers(summary, desc, order, onDisk);
    assert files[0] in files;
    Packet.CleanIsUsable(files[0]);
    Packet.PacketRoundTrip(files, stamp);
  }

  // ----- What is cut out of a ticket -----

  /** A path in a ticket runs up to a space, a line break, a tab, a quote, a comma, a closing
      parenthesis or a closing brace; it counts if it holds a dot and more than three characters
      behind its prefix. */
  lemma FoundExactly(before: string, run: string, tail: string, desc: string, pattern: string)
    requires forall c <- " \n\t\",)}" :: c !in run
    requires tail != "" ==> tail[0] in " \n\t\",)}"
    ensures Found(before + (run + tail), desc, pattern, |before|) ==
            if '.' in run && |run| > |pattern| + 3 then [Restored(run, desc)] else []
  {
    var text := before + (run + tail);
    var i, n := |before|, |before| + |run|;
    assert forall k | i <= k < n :: text[k] == run[k - i] && text[k] in run;
    assert n < |text| ==> text[n] == tail[0];
    assert forall k | i <= k < n :: !Stops(text[k]);
    assert RunEnd(text, i, Stops) == n;
    assert text[i..n] == run;
    assert ' ' in " \n\t\",)}";
  }

  /** The spelling is the description's, at the first place that agrees but for case. */
  lemma RestoredSpelling(candidate: string, desc: string)
    ensures var at := IndexFrom(Lower(desc), candidate, 0);
            if at < 0 then Restored(candidate, desc) == candidate
            else At(desc, Restored(candidate, desc), at) && Lower(Restored(candidate, desc)) == candidate
  {
    var at := IndexFrom(Lower(desc), candidate, 0);
    if at >= 0 {
      assert Lower(desc)[at..at + |candidate|] == candidate;
      assert forall k | 0 <= k < |candidate| :: Lower(desc)[at + k] == candidate[k];
      assert Lower(Restored(candidate, desc)) == candidate;
    }
  }

  /** A component mentioned brings its files, if they are on disk. */
  lemma MentionedIsInferred(summary: string, desc: string, order: seq<Component>, onDisk: string -> bool,
                            i: nat, f: string)
    requires i < |order| && f in order[i].1 && Acceptable(f, onDisk)
    requires IndexFrom(Lower(summary + " " + desc), order[i].0, 0) >= 0
    ensures f in Inferred(summary, desc, order, onDisk)
  {
    HitsMembers(order, Lower(summary + " " + desc));
    assert Mentions(Lower(summary + " " + desc), order[i]);
    InferredMembers(summary, desc, order, onDisk);
  }

  /** The files of the components, by name; no component is there twice. */
  lemma TableNames()
    ensures |TABLE| == 14 && forall i, j | 0 <= i < j < 14 :: TABLE[i].0 != TABLE[j].0
    ensures ("scheduler", ["cmd/scheduler/main.go"]) in TABLE
    ensures ("factory-fill", ["cmd/factory-fill/main.go"]) in TABLE
    ensures ("foreman", ["cmd/foreman/main.go"]) in TABLE
    ensures ("readiness", ["internal/readiness/validator.go"]) in TABLE
    ensures ("docs", ["docs/README.md"]) in TABLE
    ensures ("config", ["config/policy/README.md"]) in TABLE
    ensures ("validator", ["internal/readiness/validator.go"]) in TABLE
    ensures ("auth", ["internal/apiserver/auth.go", "internal/office/jira/auth_check.go"]) in TABLE
    ensures ("api", ["internal/apiserver/auth.go", "internal/apiserver/server.go"]) in TABLE
    ensures ("worker", ["cmd/zen-brain/worker.go"]) in TABLE
    ensures ("analyzer", ["internal/analyzer/analyzer.go"]) in TABLE
    ensures ("factory", ["internal/factory/factory.go"]) in TABLE
    ensures ("agent", ["internal/agent/binding.go"]) in TABLE
    ensures ("jira", ["internal/office/jira/auth_check.go"]) in TABLE
  {
    var table: seq<Component> := TABLE;
    assert table[0].0[0] == 's' && table[1].0[7] == '-' && table[2].0[2] == 'r' && table[3].0[0] == 'r';
  }

  /** The cap: no path of the text is taken once there are ten candidates. */
  lemma NoMoreThanTen(summary: string, desc: string, order: seq<Component>)
    ensures var hits := ComponentHits(order, Lower(summary + " " + desc));
            |NamedInTime(summary, desc, order)| <= if |hits| < 10 then 10 - |hits| else 0
  {
  }

  /** The prefixes are gone through in this order. */
  lemma PatternOrder()
    ensures |PATTERNS| == 4
    ensures PATTERNS[0] == "docs/" && PATTERNS[1] == "internal/" && PATTERNS[2] == "cmd/" && PATTERNS[3] == "config/"
  {
  }

  /** What is kept of the first `n` candidates. */
  function KeptOf(paths: seq<string>, n: nat, onDisk: string -> bool): seq<string>
    requires n <= |paths|
  {
    Dedup(Valid(paths[..n], onDisk))
  }

  /** The candidates are kept in order: an acceptable one if it is the first of its name. */
  lemma KeptInOrder(paths: seq<string>, n: nat, onDisk: string -> bool)
    requires n < |paths|
    ensures KeptOf(paths, n + 1, onDisk) ==
            KeptOf(paths, n, onDisk)
            + if Acceptable(paths[n], onDisk) && paths[n] !in paths[..n] then [paths[n]] else []
  {
    var front, valid := paths[..n], Valid(paths[..n], onDisk);
    assert paths[..n + 1][..n] == front && paths[..n + 1][n] == paths[n];
    ValidMembers(front, onDisk);
    DedupDistinct(valid);
    if Acceptable(paths[n], onDisk) {
      assert (valid + [paths[n]])[..|valid|] == valid;
      assert paths[n] in Dedup(valid) <==> paths[n] in front;
    } else {
      assert valid + [] == valid;
    }
  }

  lemma {:induction false} KeptStays(paths: seq<string>, i: nat, n: nat, onDisk: string -> bool)
    requires i <= n <= |paths|
    ensures KeptOf(paths, i, onDisk) <= KeptOf(paths, n, onDisk)
    decreases n
  {
    if i < n {
      KeptStays(paths, i, n - 1, onDisk);
      KeptInOrder(paths, n - 1, onDisk);
    }
  }

  lemma {:induction false} NoneKept(paths: seq<string>, n: nat, onDisk: string -> bool)
    requires n <= |paths| && forall j | 0 <= j < n :: !Acceptable(paths[j], onDisk)
    ensures KeptOf(paths, n, onDisk) == []
  {
    if n > 0 {
      NoneKept(paths, n - 1, onDisk);
      KeptInOrder(paths, n - 1, onDisk);
    }
  }

  /** The first path inferred is the first candidate that is acceptable. */
  lemma FirstInferred(summary: string, desc: string, order: seq<Component>, onDisk: string -> bool, n: nat)
    requires var all := Candidates(summary, desc, order);
             n < |all| && Acceptable(all[n], onDisk) && forall j | 0 <= j < n :: !Acceptable(all[j], onDisk)
    ensures Inferred(summary, desc, order, onDisk) != []
    ensures Inferred(summary, desc, order, onDisk)[0] == Candidates(summary, desc, order)[n]
  {
    var all := Candidates(summary, desc, order);
    FirstKept(all, n, onDisk);
    assert all[..|all|] == all;
  }

  lemma FirstKept(paths: seq<string>, n: nat, onDisk: string -> bool)
    requires n < |paths| && Acceptable(paths[n], onDisk) && forall j | 0 <= j < n :: !Acceptable(paths[j], onDisk)
    ensures KeptOf(paths, |paths|, onDisk) != [] && KeptOf(paths, |paths|, onDisk)[0] == paths[n]
  {
    NewName(paths, n, onDisk);
    NoneKept(paths, n, onDisk);
    KeptInOrder(paths, n, onDisk);
    KeptStays(paths, n + 1, |paths|, onDisk);
    HeadStays(KeptOf(paths, n + 1, onDisk), KeptOf(paths, |paths|, onDisk), paths[n]);
  }

  lemma NewName(paths: seq<string>, n: nat, onDisk: string -> bool)
    requires n < |paths| && Acceptable(paths[n], onDisk) && forall j | 0 <= j < n :: !Acceptable(paths[j], onDisk)
    ensures paths[n] !in paths[..n]
  {
    assert forall p <- paths[..n] :: !Acceptable(p, onDisk);
  }

  lemma HeadStays(a: seq<string>, b: seq<string>, path: string)
    requires a == [] + [path] && a <= b
    ensures b != [] && b[0] == path
  {
    assert b[..1] == a;
  }
}
