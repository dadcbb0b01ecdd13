/** The three-pass selection of candidate findings. */
module Candidates {

  datatype Candidate = Candidate(id: int, file: string, line: int, category: string, evidence: string)

  const PER_CATEGORY := 3

  /** The dedup key, as one string. */
  function Key(c: Candidate): string {
    c.file + "|" + c.category
  }

  /** In a key the last bar is the one behind the file. */
  lemma LastBar(c: Candidate)
    requires '|' !in c.category
    ensures Key(c)[|c.file|] == '|'
    ensures forall j | |c.file| < j < |Key(c)| :: Key(c)[j] != '|'
    ensures Key(c)[..|c.file|] == c.file && Key(c)[|c.file| + 1..] == c.category
  {
    assert forall j | |c.file| < j < |Key(c)| :: Key(c)[j] == c.category[j - |c.file| - 1];
  }

  /** Categories hold no bar, so the key says both the file and the category. */
  lemma KeyIsInjective(c: Candidate, d: Candidate)
    requires '|' !in c.category && '|' !in d.category
    ensures Key(c) == Key(d) <==> c.file == d.file && c.category == d.category
  {
    LastBar(c);
    LastBar(d);
    if Key(c) == Key(d) {
      assert |c.file| == |d.file|;
    }
  }

  function Keys(s: seq<Candidate>): set<string> {
    set c <- s :: Key(c)
  }

  function InCategory(s: seq<Candidate>, category: string): nat {
    if s == [] then 0
    else InCategory(s[..|s| - 1], category) + if s[|s| - 1].category == category then 1 else 0
  }

  // ----- The passes -----

  function Firsts(raw: seq<Candidate>): seq<Candidate> {
    if raw == [] then []
    else
      var front, last := raw[..|raw| - 1], raw[|raw| - 1];
      if Key(last) in Keys(front) then Firsts(front) else Firsts(front) + [last]
  }

  function Capped(s: seq<Candidate>): seq<Candidate> {
    if s == [] then []
    else
      var front, last := s[..|s| - 1], s[|s| - 1];
      if InCategory(front, last.category) < PER_CATEGORY then Capped(front) + [last] else Capped(front)
  }

  function Renumbered(s: seq<Candidate>): seq<Candidate> {
    seq(|s|, i requires 0 <= i < |s| => s[i].(id := i + 1))
  }

  function Selection(raw: seq<Candidate>, maxTotal: nat): seq<Candidate> {
    var diverse := Capped(Firsts(raw));
    Renumbered(if |diverse| > maxTotal then diverse[..maxTotal] else diverse)
  }

  method FirstPerKey(raw: seq<Candidate>) returns (deduped: seq<Candidate>)
    ensures deduped == Firsts(raw)
  {
    var seen: set<string> := {};
    deduped := [];
    for i := 0 to |raw|
      invariant deduped == Firsts(raw[..i])
      invariant seen == Keys(raw[..i])
    {
      FirstsStep(raw, i);
      var key := Key(raw[i]);
      if key in seen {
        continue;
      }
      seen := seen + {key};
      deduped := deduped + [raw[i]];
    }
    assert raw[..|raw|] == raw;
  }

  lemma FirstsStep(raw: seq<Candidate>, i: nat)
    requires i < |raw|
    ensures Firsts(raw[..i + 1]) ==
            if Key(raw[i]) in Keys(raw[..i]) then Firsts(raw[..i]) else Firsts(raw[..i]) + [raw[i]]
    ensures Keys(raw[..i + 1]) == Keys(raw[..i]) + {Key(raw[i])}
  {
    assert raw[..i + 1][..i] == raw[..i];
    KeysSnoc(raw[..i], raw[i]);
    assert raw[..i + 1] == raw[..i] + [raw[i]];
  }

  lemma KeysSnoc(s: seq<Candidate>, c: Candidate)
    ensures Keys(s + [c]) == Keys(s) + {Key(c)}
  {
    assert forall d <- s :: d in s + [c];
    assert c in s + [c];
  }

  method CapPerCategory(deduped: seq<Candidate>) returns (diverse: seq<Candidate>)
    ensures diverse == Capped(deduped)
  {
    var catCount: map<string, int> := map[];
    diverse := [];
    for i := 0 to |deduped|
      invariant diverse == Capped(deduped[..i])
      invariant forall c :: InCategory(deduped[..i], c) == if c in catCount then catCount[c] else 0
    {
      assert deduped[..i + 1][..i] == deduped[..i];
      var category := deduped[i].category;
      catCount := catCount[category := (if category in catCount then catCount[category] else 0) + 1];
      if catCount[category] <= PER_CATEGORY {
        diverse := diverse + [deduped[i]];
      }
    }
    assert deduped[..|deduped|] == deduped;
  }

  method DeduplicateCandidates(raw: seq<Candidate>, maxTotal: nat) returns (out: seq<Candidate>)
    ensures out == Selection(raw, maxTotal)
  {
    var deduped := FirstPerKey(raw);
    var diverse := CapPerCategory(deduped);
    if |diverse| > maxTotal {
      diverse := diverse[..maxTotal];
    }
    out := [];
    for i := 0 to |diverse|
      invariant out == Renumbered(diverse[..i])
    {
      out := out + [diverse[i].(id := i + 1)];
    }
    assert diverse[..|diverse|] == diverse;
  }

  // ----- What comes out -----

  /** `s` is made of the elements of `raw` at the rising positions `at`. */
  ghost predicate Selects(at: seq<nat>, raw: seq<Candidate>, s: seq<Candidate>) {
    && |at| == |s|
    && (forall i | 0 <= i < |at| :: at[i] < |raw| && s[i] == raw[at[i]])
    && (forall i, j | 0 <= i < j < |at| :: at[i] < at[j])
  }

  lemma SelectsOneMore(at: seq<nat>, raw: seq<Candidate>, s: seq<Candidate>, c: Candidate)
    requires Selects(at, raw, s)
    ensures Selects(at, raw + [c], s) && Selects(at + [|raw|], raw + [c], s + [c])
  {
  }

  lemma {:induction false} CappedPlaces(s: seq<Candidate>) returns (at: seq<nat>)
    ensures Selects(at, s, Capped(s))
  {
    if s == [] {
      return [];
    }
    var front, last := s[..|s| - 1], s[|s| - 1];
    at := CappedPlaces(front);
    SelectsOneMore(at, front, Capped(front), last);
    assert s == front + [last];
    if InCategory(front, last.category) < PER_CATEGORY {
      at := at + [|front|];
    }
  }

  lemma CategoryOneMore(s: seq<Candidate>, c: Candidate, category: string)
    ensures InCategory(s + [c], category) == InCategory(s, category) + if c.category == category then 1 else 0
  {
    assert (s + [c])[..|s|] == s;
  }

  lemma {:induction false} CappedCount(s: seq<Candidate>, category: string)
    ensures InCategory(Capped(s), category) ==
            if InCategory(s, category) < PER_CATEGORY then InCategory(s, category) else PER_CATEGORY
  {
    if s != [] {
      var front, last := s[..|s| - 1], s[|s| - 1];
      CappedCount(front, category);
      CategoryOneMore(Capped(front), last, category);
    }
  }

  /** What is dropped has a full category. */
  lemma {:induction false} CappedMembers(s: seq<Candidate>, c: Candidate)
    requires c in s && InCategory(s, c.category) < PER_CATEGORY
    ensures c in Capped(s)
  {
    var front, last := s[..|s| - 1], s[|s| - 1];
    assert s == front + [last];
    if c in front {
      CappedMembers(front, c);
    }
  }

  lemma CappedSelects(s: seq<Candidate>) returns (at: seq<nat>)
    ensures Selects(at, s, Capped(s))
    ensures forall c :: InCategory(Capped(s), c) ==
                        if InCategory(s, c) < PER_CATEGORY then InCategory(s, c) else PER_CATEGORY
    ensures forall c <- s :: c in Capped(s) || InCategory(Capped(s), c.category) == PER_CATEGORY
  {
    at := CappedPlaces(s);
    forall c
      ensures InCategory(Capped(s), c) == if InCategory(s, c) < PER_CATEGORY then InCategory(s, c) else PER_CATEGORY
    {
      CappedCount(s, c);
    }
    forall c <- s
      ensures c in Capped(s) || InCategory(s, c.category) >= PER_CATEGORY
    {
      if InCategory(s, c.category) < PER_CATEGORY {
        CappedMembers(s, c);
      }
    }
  }

  lemma CappedStep(s: seq<Candidate>, i: nat)
    requires i < |s|
    ensures Capped(s[..i + 1]) ==
            Capped(s[..i]) + if InCategory(Capped(s[..i]), s[i].category) < PER_CATEGORY then [s[i]] else []
  {
    assert s[..i + 1][..i] == s[..i] && s[..i + 1][i] == s[i];
    CappedCount(s[..i], s[i].category);
  }

  // ----- Keeping one after the other -----

  /** The places below `n` that are kept. */
  function Where(keep: nat -> bool, n: nat): seq<nat> {
    if n == 0 then [] else Where(keep, n - 1) + if keep(n - 1) then [n - 1] else []
  }

  /** `kept(n)` is what is kept of the first `n` candidates. */
  ghost predicate Grows(raw: seq<Candidate>, keep: nat -> bool, kept: nat -> seq<Candidate>) {
    && kept(0) == []
    && forall n: nat {:trigger keep(n)} | n < |raw| :: kept(n + 1) == kept(n) + if keep(n) then [raw[n]] else []
  }

  /** The rising places, below `n`, of the elements of `s`. */
  ghost predicate Places(at: seq<nat>, raw: seq<Candidate>, n: nat, s: seq<Candidate>)
    requires n <= |raw|
  {
    && |at| == |s|
    && (forall i | 0 <= i < |at| :: at[i] < n && s[i] == raw[at[i]])
    && (forall i, j | 0 <= i < j < |at| :: at[i] < at[j])
  }

  lemma PlacesOneMore(at: seq<nat>, raw: seq<Candidate>, n: nat, s: seq<Candidate>, keep: bool)
    requires n < |raw| && Places(at, raw, n, s)
    ensures Places(at + if keep then [n] else [], raw, n + 1, s + if keep then [raw[n]] else [])
  {
  }

  lemma {:induction false} GrowsPlaces(raw: seq<Candidate>, keep: nat -> bool, kept: nat -> seq<Candidate>, n: nat)
    requires Grows(raw, keep, kept) && n <= |raw|
    ensures Places(Where(keep, n), raw, n, kept(n))
  {
    if n > 0 {
      GrowsPlaces(raw, keep, kept, n - 1);
      PlacesOneMore(Where(keep, n - 1), raw, n - 1, kept(n - 1), keep(n - 1));
      assert kept((n - 1) + 1) == kept(n - 1) + if keep(n - 1) then [raw[n - 1]] else [];
    }
  }

  /** What is kept of the first `j` candidates does not depend on the others. */
  lemma {:induction false} GrowsBehind(raw: seq<Candidate>, keep: nat -> bool, kept: nat -> seq<Candidate>,
                                       j: nat, n: nat)
    requires Grows(raw, keep, kept) && j <= n <= |raw|
    ensures kept(j) <= kept(n)
    decreases n
  {
    if j < n {
      GrowsBehind(raw, keep, kept, j, n - 1);
      assert kept((n - 1) + 1) == kept(n - 1) + if keep(n - 1) then [raw[n - 1]] else [];
    }
  }

  lemma {:induction false} WhereMembers(keep: nat -> bool, n: nat, j: nat)
    ensures j in Where(keep, n) <==> j < n && keep(j)
  {
    if n > 0 {
      WhereMembers(keep, n - 1, j);
    }
  }

  lemma {:induction false} WhereBehind(keep: nat -> bool, j: nat, n: nat)
    requires j <= n
    ensures Where(keep, j) <= Where(keep, n)
    decreases n
  {
    if j < n {
      WhereBehind(keep, j, n - 1);
    }
  }

  function CapKeeps(s: seq<Candidate>): nat -> bool {
    (n: nat) => n < |s| && InCategory(Capped(s[..n]), s[n].category) < PER_CATEGORY
  }

  function CappedOf(s: seq<Candidate>): nat -> seq<Candidate> {
    (n: nat) => if n <= |s| then Capped(s[..n]) else []
  }

  lemma CappedGrows(s: seq<Candidate>)
    ensures Grows(s, CapKeeps(s), CappedOf(s))
  {
    forall n: nat | n < |s|
      ensures CappedOf(s)(n + 1) == CappedOf(s)(n) + if CapKeeps(s)(n) then [s[n]] else []
    {
      CappedStep(s, n);
    }
  }

  /** The cap keeps a candidate exactly if fewer than three of its category are kept before it. */
  lemma CappedExactly(s: seq<Candidate>, i: nat)
    requires i < |s|
    ensures Capped(s[..i]) <= Capped(s[..i + 1]) <= Capped(s)
    ensures Capped(s[..i + 1]) ==
            Capped(s[..i]) + if InCategory(Capped(s[..i]), s[i].category) < PER_CATEGORY then [s[i]] else []
  {
    CappedStep(s, i);
    CappedGrows(s);
    GrowsBehind(s, CapKeeps(s), CappedOf(s), i + 1, |s|);
    assert CappedOf(s)(i + 1) == Capped(s[..i + 1]) && CappedOf(s)(|s|) == Capped(s[..|s|]);
    assert s[..|s|] == s;
  }

  lemma {:induction false} PrefixCategory(s: seq<Candidate>, n: nat, category: string)
    requires n <= |s|
    ensures InCategory(s[..n], category) <= InCategory(s, category)
  {
    if n < |s| {
      assert s[..|s| - 1][..n] == s[..n];
      PrefixCategory(s[..|s| - 1], n, category);
    } else {
      assert s[..n] == s;
    }
  }

  lemma {:induction false} RenumberedCategory(s: seq<Candidate>, category: string)
    ensures InCategory(Renumbered(s), category) == InCategory(s, category)
  {
    if s != [] {
      assert Renumbered(s)[..|s| - 1] == Renumbered(s[..|s| - 1]);
      RenumberedCategory(s[..|s| - 1], category);
    }
  }

  lemma SelectionInCategory(s: seq<Candidate>, n: nat, category: string)
    requires n <= |Capped(s)|
    ensures InCategory(Renumbered(Capped(s)[..n]), category) <= PER_CATEGORY
  {
    var at := CappedSelects(s);
    PrefixCategory(Capped(s), n, category);
    RenumberedCategory(Capped(s)[..n], category);
  }

  // ----- What the first two passes keep -----

  /** What they keep of the first `n` candidates. */
  function Kept(raw: seq<Candidate>, n: nat): seq<Candidate>
    requires n <= |raw|
  {
    Capped(Firsts(raw[..n]))
  }

  predicate Keeps(raw: seq<Candidate>, n: nat)
    requires n < |raw|
  {
    Key(raw[n]) !in Keys(raw[..n]) && InCategory(Firsts(raw[..n]), raw[n].category) < PER_CATEGORY
  }

  function KeepsOf(raw: seq<Candidate>): nat -> bool {
    (n: nat) => n < |raw| && Keeps(raw, n)
  }

  function KeptOf(raw: seq<Candidate>): nat -> seq<Candidate> {
    (n: nat) => if n <= |raw| then Kept(raw, n) else []
  }

  /** Where they stand. */
  function KeptAt(raw: seq<Candidate>, n: nat): seq<nat> {
    Where(KeepsOf(raw), n)
  }

  lemma KeptStep(raw: seq<Candidate>, n: nat)
    requires n < |raw|
    ensures Kept(raw, n + 1) == Kept(raw, n) + if Keeps(raw, n) then [raw[n]] else []
  {
    var deduped := Firsts(raw[..n]);
    assert raw[..n + 1][..n] == raw[..n] && raw[..n + 1][n] == raw[n];
    assert (deduped + [raw[n]])[..|deduped|] == deduped;
  }

  lemma KeptGrows(raw: seq<Candidate>)
    ensures Grows(raw, KeepsOf(raw), KeptOf(raw))
  {
    forall n: nat | n < |raw|
      ensures KeptOf(raw)(n + 1) == KeptOf(raw)(n) + if KeepsOf(raw)(n) then [raw[n]] else []
    {
      KeptStep(raw, n);
    }
  }

  lemma KeptAtPlaces(raw: seq<Candidate>, n: nat)
    requires n <= |raw|
    ensures Places(KeptAt(raw, n), raw, n, Kept(raw, n))
  {
    KeptGrows(raw);
    GrowsPlaces(raw, KeepsOf(raw), KeptOf(raw), n);
    assert KeptOf(raw)(n) == Kept(raw, n);
  }

  lemma KeptMembers(raw: seq<Candidate>, n: nat, j: nat)
    requires n <= |raw|
    ensures j in KeptAt(raw, n) <==> j < n && Keeps(raw, j)
  {
    WhereMembers(KeepsOf(raw), n, j);
  }

  lemma KeptSoFar(raw: seq<Candidate>, j: nat, n: nat)
    requires j <= n <= |raw|
    ensures Kept(raw, j) <= Kept(raw, n)
  {
    KeptGrows(raw);
    GrowsBehind(raw, KeepsOf(raw), KeptOf(raw), j, n);
    assert KeptOf(raw)(j) == Kept(raw, j) && KeptOf(raw)(n) == Kept(raw, n);
  }

  lemma RisingPlace(at: seq<nat>, before: seq<nat>, j: nat)
    requires before <= at && (forall i | 0 <= i < |before| :: before[i] < j)
    requires forall i, k | 0 <= i < k < |at| :: at[i] < at[k]
    requires j in at && forall k <- at | k < j :: k in before
    ensures |before| < |at| && at[|before|] == j
  {
    var p :| 0 <= p < |at| && at[p] == j;
    var m := |before|;
    assert before == at[..m] && forall i | 0 <= i < m :: at[i] == before[i] < j;
    assert m <= p;
    assert at[m] !in at[..m] by {
      assert forall i | 0 <= i < m :: at[..m][i] == at[i] < at[m];
    }
    assert at[m] in at;
    assert at[m] >= j;
  }

  /** Of the places kept, those before `j` are the ones kept of the first `j` candidates. */
  lemma KeptBefore(raw: seq<Candidate>, j: nat)
    requires j < |raw|
    ensures var all, m := KeptAt(raw, |raw|), |KeptAt(raw, j)|;
            m <= |all| && FromBefore(all, m, j) && (j in all ==> m < |all| && all[m] == j)
  {
    var all, before := KeptAt(raw, |raw|), KeptAt(raw, j);
    WhereBehind(KeepsOf(raw), j, |raw|);
    KeptAtPlaces(raw, |raw|);
    KeptAtPlaces(raw, j);
    assert forall i | 0 <= i < |before| :: all[i] == before[i];
    if j in all {
      forall k <- all | k < j
        ensures k in before
      {
        KeptMembers(raw, |raw|, k);
        KeptMembers(raw, j, k);
      }
      RisingPlace(all, before, j);
    }
  }

  // ----- Where the output stands -----

  function Cut(at: seq<nat>, maxTotal: nat): seq<nat> {
    if |at| > maxTotal then at[..maxTotal] else at
  }

  function OutputAt(raw: seq<Candidate>, maxTotal: nat): seq<nat> {
    Cut(KeptAt(raw, |raw|), maxTotal)
  }

  lemma OutputStandsAt(raw: seq<Candidate>, maxTotal: nat)
    ensures var out, at := Selection(raw, maxTotal), OutputAt(raw, maxTotal);
            && |at| == |out|
            && (forall i, j | 0 <= i < j < |at| :: at[i] < at[j])
            && (forall i | 0 <= i < |at| :: at[i] < |raw| && out[i] == raw[at[i]].(id := i + 1))
  {
    KeptAtPlaces(raw, |raw|);
    assert raw[..|raw|] == raw;
  }

  lemma OutputInCategory(raw: seq<Candidate>, maxTotal: nat, category: string)
    ensures InCategory(Selection(raw, maxTotal), category) <= PER_CATEGORY
  {
    var diverse := Capped(Firsts(raw));
    var n := if |diverse| > maxTotal then maxTotal else |diverse|;
    assert diverse[..|diverse|] == diverse;
    SelectionInCategory(Firsts(raw), n, category);
  }

  /** The order of the input is kept; each output is, up to its number, the first candidate with its
      file and category, so none comes twice; no category comes more than three times, the total is
      capped, and the numbers are 1, 2, 3 and so on. */
  lemma SelectionIsSound(raw: seq<Candidate>, maxTotal: nat) returns (at: seq<nat>)
    ensures var out := Selection(raw, maxTotal);
            && at == OutputAt(raw, maxTotal) && |at| == |out| <= maxTotal
            && (forall i, j | 0 <= i < j < |at| :: at[i] < at[j])
            && (forall i | 0 <= i < |out| :: at[i] < |raw| && out[i] == raw[at[i]].(id := i + 1))
            && (forall i, j | 0 <= i < |at| && 0 <= j < at[i] :: Key(raw[j]) != Key(raw[at[i]]))
            && (forall c :: InCategory(out, c) <= 3)
  {
    at := OutputAt(raw, maxTotal);
    OutputStandsAt(raw, maxTotal);
    forall i, j | 0 <= i < |at| && 0 <= j < at[i]
      ensures Key(raw[j]) != Key(raw[at[i]])
    {
      assert at[i] in KeptAt(raw, |raw|);
      KeptMembers(raw, |raw|, at[i]);
      assert raw[..at[i]][j] == raw[j] && raw[j] in raw[..at[i]];
    }
    forall c
      ensures InCategory(Selection(raw, maxTotal), c) <= PER_CATEGORY
    {
      OutputInCategory(raw, maxTotal, c);
    }
  }

  // ----- Which ones come out -----

  /** Nothing before `j` has its file and category. */
  ghost predicate IsFirst(raw: seq<Candidate>, j: nat)
    requires j < |raw|
  {
    forall i | 0 <= i < j :: Key(raw[i]) != Key(raw[j])
  }

  predicate FromBefore(at: seq<nat>, p: nat, j: nat)
    requires p <= |at|
  {
    forall i | 0 <= i < p :: at[i] < j
  }

  /** A prefix of the output that comes from before `j` holds three of the category. */
  ghost predicate ThreeBefore(out: seq<Candidate>, at: seq<nat>, j: nat, category: string) {
    exists p :: 0 <= p <= |at| && p <= |out| && FromBefore(at, p, j) && InCategory(out[..p], category) >= 3
  }

  /** The output is full, and all of it comes from before `j`. */
  ghost predicate FullBefore(at: seq<nat>, maxTotal: nat, j: nat) {
    |at| == maxTotal && FromBefore(at, |at|, j)
  }

  lemma FirstIsNew(raw: seq<Candidate>, j: nat)
    requires j < |raw| && IsFirst(raw, j)
    ensures Key(raw[j]) !in Keys(raw[..j])
  {
    forall c <- raw[..j]
      ensures Key(c) != Key(raw[j])
    {
      var i :| 0 <= i < j && raw[..j][i] == c;
      assert raw[i] == c;
    }
  }

  /** Up to the places kept before `j`, the output is what is kept before `j`. */
  lemma PrefixOfOutput(raw: seq<Candidate>, maxTotal: nat, j: nat, p: nat, category: string)
    requires j < |raw| && p <= |OutputAt(raw, maxTotal)| && p <= |KeptAt(raw, j)|
    ensures |Selection(raw, maxTotal)| == |OutputAt(raw, maxTotal)| && p <= |Kept(raw, j)|
    ensures InCategory(Selection(raw, maxTotal)[..p], category) == InCategory(Kept(raw, j)[..p], category)
  {
    OutputStandsAt(raw, maxTotal);
    KeptAtPlaces(raw, j);
    KeptSoFar(raw, j, |raw|);
    assert raw[..|raw|] == raw;
    var diverse := Capped(Firsts(raw));
    var cut := if |diverse| > maxTotal then diverse[..maxTotal] else diverse;
    assert cut[..p] == Kept(raw, j)[..p];
    assert Renumbered(cut)[..p] == Renumbered(cut[..p]);
    RenumberedCategory(cut[..p], category);
  }

  lemma NotThreeBefore(raw: seq<Candidate>, maxTotal: nat, j: nat)
    requires j < |raw| && |KeptAt(raw, j)| < |OutputAt(raw, maxTotal)|
    requires OutputAt(raw, maxTotal)[|KeptAt(raw, j)|] == j
    requires InCategory(Kept(raw, j), raw[j].category) < PER_CATEGORY
    ensures !ThreeBefore(Selection(raw, maxTotal), OutputAt(raw, maxTotal), j, raw[j].category)
  {
    var out, at := Selection(raw, maxTotal), OutputAt(raw, maxTotal);
    forall p | 0 <= p <= |at| && p <= |out| && FromBefore(at, p, j)
      ensures InCategory(out[..p], raw[j].category) < PER_CATEGORY
    {
      assert p <= |KeptAt(raw, j)|;
      PrefixOfOutput(raw, maxTotal, j, p, raw[j].category);
      PrefixCategory(Kept(raw, j), p, raw[j].category);
    }
  }

  /** The first `m` of the places are before `j`: so are those left of them, or all there are left. */
  lemma CutCases(all: seq<nat>, maxTotal: nat, m: nat, j: nat)
    requires m <= |all| && FromBefore(all, m, j)
    ensures var at := Cut(all, maxTotal);
            && (if m <= |at| then FromBefore(at, m, j) else |at| == maxTotal && FromBefore(at, |at|, j))
            && (j !in all ==> j !in at)
            && (m < |all| && all[m] == j ==>
                if m < |at| then at[m] == j else FullBefore(at, maxTotal, j) && j !in at)
  {
  }

  lemma KeptComesOut(raw: seq<Candidate>, maxTotal: nat, j: nat)
    requires j < |raw| && InCategory(Kept(raw, j), raw[j].category) < PER_CATEGORY
    requires var all, m := KeptAt(raw, |raw|), |KeptAt(raw, j)|; m < |all| && all[m] == j && FromBefore(all, m, j)
    ensures var out, at := Selection(raw, maxTotal), OutputAt(raw, maxTotal);
            if j in at then !ThreeBefore(out, at, j, raw[j].category) && !FullBefore(at, maxTotal, j)
            else FullBefore(at, maxTotal, j)
  {
    var at, m := OutputAt(raw, maxTotal), |KeptAt(raw, j)|;
    CutCases(KeptAt(raw, |raw|), maxTotal, m, j);
    if m < |at| {
      assert at[m] in at;
      NotThreeBefore(raw, maxTotal, j);
    }
  }

  lemma IsThreeBefore(raw: seq<Candidate>, maxTotal: nat, j: nat)
    requires j < |raw| && InCategory(Kept(raw, j), raw[j].category) >= PER_CATEGORY
    requires |KeptAt(raw, j)| <= |OutputAt(raw, maxTotal)| && FromBefore(OutputAt(raw, maxTotal), |KeptAt(raw, j)|, j)
    ensures ThreeBefore(Selection(raw, maxTotal), OutputAt(raw, maxTotal), j, raw[j].category)
  {
    var m := |KeptAt(raw, j)|;
    KeptAtPlaces(raw, j);
    PrefixOfOutput(raw, maxTotal, j, m, raw[j].category);
    assert Kept(raw, j)[..m] == Kept(raw, j);
  }

  lemma CappedStaysOut(raw: seq<Candidate>, maxTotal: nat, j: nat)
    requires j < |raw| && InCategory(Kept(raw, j), raw[j].category) >= PER_CATEGORY
    requires j !in KeptAt(raw, |raw|)
    requires var all, m := KeptAt(raw, |raw|), |KeptAt(raw, j)|; m <= |all| && FromBefore(all, m, j)
    ensures var out, at := Selection(raw, maxTotal), OutputAt(raw, maxTotal);
            && j !in at
            && (ThreeBefore(out, at, j, raw[j].category) || FullBefore(at, maxTotal, j))
  {
    CutCases(KeptAt(raw, |raw|), maxTotal, |KeptAt(raw, j)|, j);
    if |KeptAt(raw, j)| <= |OutputAt(raw, maxTotal)| {
      IsThreeBefore(raw, maxTotal, j);
    }
  }

  /** The first candidate with its file and category comes out exactly if three of its category do
      not come out before it and the output is not full before it. */
  lemma SelectedExactly(raw: seq<Candidate>, maxTotal: nat, j: nat)
    requires j < |raw| && IsFirst(raw, j)
    ensures var out, at := Selection(raw, maxTotal), OutputAt(raw, maxTotal);
            j in at <==> !ThreeBefore(out, at, j, raw[j].category) && !FullBefore(at, maxTotal, j)
  {
    KeptMembers(raw, |raw|, j);
    KeptBefore(raw, j);
    FirstIsNew(raw, j);
    CappedCount(Firsts(raw[..j]), raw[j].category);
    if Keeps(raw, j) {
      KeptComesOut(raw, maxTotal, j);
    } else {
      CappedStaysOut(raw, maxTotal, j);
    }
  }

  ghost predicate Has(s: seq<Candidate>, file: string, category: string) {
    exists i :: 0 <= i < |s| && s[i].file == file && s[i].category == category
  }

  /** The first candidate with a given file and category. */
  lemma {:induction false} FirstWithKey(raw: seq<Candidate>, c: Candidate) returns (j: nat)
    requires c in raw
    ensures j < |raw| && IsFirst(raw, j) && Key(raw[j]) == Key(c)
  {
    var n :| 0 <= n < |raw| && raw[n] == c;
    if IsFirst(raw, n) {
      j := n;
    } else {
      var i :| 0 <= i < n && Key(raw[i]) == Key(c);
      j := FirstWithKey(raw[..i + 1], raw[i]);
      assert forall k | 0 <= k <= i :: raw[..i + 1][k] == raw[k];
    }
  }

  /** A file and category that are missing were crowded out: before the first candidate that has them
      the output is full, or holds three of the category already. */
  lemma SelectionIsComplete(raw: seq<Candidate>, maxTotal: nat, c: Candidate) returns (j: nat)
    requires c in raw && forall d <- raw :: '|' !in d.category
    ensures j < |raw| && IsFirst(raw, j) && raw[j].file == c.file && raw[j].category == c.category
    ensures var out, at := Selection(raw, maxTotal), OutputAt(raw, maxTotal);
            && (Has(out, c.file, c.category) || FullBefore(at, maxTotal, j) || ThreeBefore(out, at, j, c.category))
            && (Has(out, c.file, c.category) || |out| == maxTotal || InCategory(out, c.category) == 3)
  {
    var out, at := Selection(raw, maxTotal), OutputAt(raw, maxTotal);
    j := FirstWithKey(raw, c);
    KeyIsInjective(raw[j], c);
    SelectedExactly(raw, maxTotal, j);
    OutputStandsAt(raw, maxTotal);
    if j in at {
      var p :| 0 <= p < |at| && at[p] == j;
      assert out[p].file == c.file && out[p].category == c.category;
    } else if ThreeBefore(out, at, j, c.category) {
      var p :| 0 <= p <= |at| && p <= |out| && FromBefore(at, p, j)
               && InCategory(out[..p], c.category) >= PER_CATEGORY;
      PrefixCategory(out, p, c.category);
      OutputInCategory(raw, maxTotal, c.category);
    }
  }
}
