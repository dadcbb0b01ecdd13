/** How the worker finds its target file in a ticket's description. */
module PathScan {
  import opened Strings

  const PREFIXES := ["docs/", "internal/", "cmd/", "config/", "scripts/", "pkg/"]
  const EXTENSIONS := [".go", ".yaml", ".yml", ".md", ".json", ".toml", ".txt", ".sh", ".py"]

  predicate Stops(c: char) {
    c in " \n\t\",\\})]"
  }

  /** The run of path characters that starts at `i`. */
  function Candidate(s: string, i: nat): string
    requires i <= |s|
  {
    s[i..RunEnd(s, i, Stops)]
  }

  predicate EndsWith(s: string, suffix: string) {
    |suffix| <= |s| && s[|s| - |suffix|..] == suffix
  }

  predicate HasExtension(candidate: string, exts: seq<string>) {
    exts != [] && (EndsWith(candidate, exts[0]) || HasExtension(candidate, exts[1..]))
  }

  predicate IsFile(candidate: string, prefix: string) {
    && HasExtension(candidate, EXTENSIONS)
    && |candidate| > |prefix| + 2
    && '/' in candidate && ' ' !in candidate
  }

  /** A path the scan may return: it starts with the prefix and ends with a known extension. */
  predicate Qualifies(s: string, prefix: string, i: int) {
    At(s, prefix, i) && IsFile(Candidate(s, i), prefix)
  }

  /** A prefix that has its only slash at the end cannot overlap itself. */
  predicate SlashEnded(prefix: string) {
    prefix != "" && prefix[|prefix| - 1] == '/' && '/' !in prefix[..|prefix| - 1]
  }

  lemma NoOverlap(s: string, prefix: string, i: int, j: int)
    requires SlashEnded(prefix) && At(s, prefix, i) && i < j < i + |prefix|
    ensures !At(s, prefix, j)
  {
    var n := |prefix|;
    if j + n <= |s| {
      var d := i - j + n - 1;
      assert s[i..i + n][n - 1] == s[i + n - 1] == s[j..j + n][d];
      assert prefix[d] in prefix[..n - 1];
    }
  }

  /** No occurrence before `end` qualifies; a negative `end` stands for the end of the text. */
  ghost predicate NoneBefore(s: string, prefix: string, end: int) {
    forall j | 0 <= j && (end < 0 || j < end) :: !Qualifies(s, prefix, j)
  }

  /** Going on behind the whole prefix skips no occurrence. */
  lemma StepSkipsNothing(s: string, prefix: string, i: nat)
    requires SlashEnded(prefix) && At(s, prefix, i)
    requires NoneBefore(s, prefix, i) && !Qualifies(s, prefix, i)
    ensures NoneBefore(s, prefix, IndexFrom(s, prefix, i + |prefix|))
  {
    var next := IndexFrom(s, prefix, i + |prefix|);
    forall j | 0 <= j && (next < 0 || j < next)
      ensures !Qualifies(s, prefix, j)
    {
      if i < j < i + |prefix| {
        NoOverlap(s, prefix, i, j);
      }
    }
  }

  /** The next occurrence behind the one at `i`, counted from where that one ends. */
  function NextIndex(s: string, prefix: string, i: nat): (next: int)
    requires i + |prefix| <= |s|
    ensures IndexFrom(s, prefix, i + |prefix|) == if next < 0 then -1 else i + |prefix| + next
  {
    IndexInSuffix(s, prefix, i + |prefix|, 0);
    assert s[i..][|prefix|..] == s[i + |prefix|..];
    IndexFrom(s[i..][|prefix|..], prefix, 0)
  }

  /** From an occurrence that does not qualify to the next one; -1 when there is none. */
  method NextOccurrence(desc: string, prefix: string, idx: nat) returns (next: int)
    requires SlashEnded(prefix) && At(desc, prefix, idx)
    requires NoneBefore(desc, prefix, idx) && !Qualifies(desc, prefix, idx)
    ensures next >= 0 ==> idx < next && At(desc, prefix, next)
    ensures NoneBefore(desc, prefix, next)
  {
    StepSkipsNothing(desc, prefix, idx);
    var nextIdx := NextIndex(desc, prefix, idx);
    next := if nextIdx < 0 then -1 else idx + |prefix| + nextIdx;
  }

  /** The first qualifying occurrence of one prefix. */
  method ScanPrefix(desc: string, prefix: string) returns (idx: int)
    requires SlashEnded(prefix)
    ensures idx >= 0 ==> Qualifies(desc, prefix, idx)
    ensures NoneBefore(desc, prefix, idx)
  {
    idx := IndexFrom(desc, prefix, 0);
    while idx >= 0 && !IsFile(Candidate(desc, idx), prefix)
      invariant idx >= 0 ==> At(desc, prefix, idx)
      invariant NoneBefore(desc, prefix, idx)
      decreases if idx >= 0 then |desc| - idx else -1
    {
      idx := NextOccurrence(desc, prefix, idx);
    }
  }

  lemma PrefixesAreSlashEnded()
    ensures forall p <- PREFIXES :: SlashEnded(p)
  {
  }

  /** `determineTargetFile`: sound, complete, and the first hit of the first prefix that has one. */
  method DetermineTargetFile(desc: string) returns (target: string)
    ensures target == "" <==> forall p, i | 0 <= p < |PREFIXES| :: !Qualifies(desc, PREFIXES[p], i)
    ensures target != "" ==>
              exists p: nat, i: nat ::
                && p < |PREFIXES| && Qualifies(desc, PREFIXES[p], i) && target == Candidate(desc, i)
                && (forall j | 0 <= j < i :: !Qualifies(desc, PREFIXES[p], j))
                && (forall q, j | 0 <= q < p :: !Qualifies(desc, PREFIXES[q], j))
  {
    PrefixesAreSlashEnded();
    if desc == "" {
      return "";
    }
    for p := 0 to |PREFIXES|
      invariant forall q, j | 0 <= q < p :: !Qualifies(desc, PREFIXES[q], j)
    {
      assert PREFIXES[p] in PREFIXES;
      var at := ScanPrefix(desc, PREFIXES[p]);
      if at >= 0 {
        assert Candidate(desc, at) != "";
        return Candidate(desc, at);
      }
    }
    return "";
  }

  // ----- What is cut out of a description -----

  /** A path runs up to a space, a line break, a tab, a quote, a comma, a backslash or a closing
      bracket of any kind, and no further. */
  lemma CutAtStop(before: string, run: string, tail: string)
    requires forall c <- " \n\t\",\\})]" :: c !in run
    requires tail != "" ==> tail[0] in " \n\t\",\\})]"
    ensures Candidate(before + (run + tail), |before|) == run
  {
    var s := before + (run + tail);
    var i, n := |before|, |before| + |run|;
    assert forall k | i <= k < n :: s[k] == run[k - i] && s[k] in run;
    assert n < |s| ==> s[n] == tail[0];
    assert forall k | i <= k < n :: !Stops(s[k]);
    assert RunEnd(s, i, Stops) == n;
    assert s[i..n] == run;
  }

  lemma {:induction false} ExtensionListed(candidate: string, exts: seq<string>, e: nat)
    requires e < |exts| && EndsWith(candidate, exts[e])
    ensures HasExtension(candidate, exts)
  {
    if e > 0 {
      ExtensionListed(candidate, exts[1..], e - 1);
    }
  }

  /** A path that starts with one of these prefixes, ends in one of these extensions, and has more than
      two characters behind its prefix, qualifies wherever it stands, if a stop or nothing follows. */
  lemma ListedPathQualifies(before: string, prefix: string, name: string, ext: string, tail: string)
    requires prefix in ["docs/", "internal/", "cmd/", "config/", "scripts/", "pkg/"]
    requires ext in [".go", ".yaml", ".yml", ".md", ".json", ".toml", ".txt", ".sh", ".py"]
    requires |name| + |ext| > 2
    requires forall c <- " \n\t\",\\})]" :: c !in name
    requires tail != "" ==> tail[0] in " \n\t\",\\})]"
    ensures prefix in PREFIXES
    ensures Qualifies(before + (prefix + name + ext + tail), prefix, |before|)
    ensures Candidate(before + (prefix + name + ext + tail), |before|) == prefix + name + ext
  {
    var run := prefix + name + ext;
    var e :| 0 <= e < |EXTENSIONS| && EXTENSIONS[e] == ext;
    PlainAffixes(prefix, ext);
    assert prefix + name + ext + tail == run + tail;
    CutAtStop(before, run, tail);
    assert run[|run| - |ext|..] == ext;
    ExtensionListed(run, EXTENSIONS, e);
    var s := before + (run + tail);
    assert s[|before|..|before| + |prefix|] == prefix;
    assert run[|prefix| - 1] == '/';
    assert Stops(' ');
  }

  lemma PlainAffixes(prefix: string, ext: string)
    requires prefix in PREFIXES && ext in EXTENSIONS
    ensures prefix != "" && prefix[|prefix| - 1] == '/'
    ensures forall c <- " \n\t\",\\})]" :: c !in prefix && c !in ext
  {
  }

  lemma {:induction false} ExtensionOf(candidate: string, exts: seq<string>) returns (e: nat)
    requires HasExtension(candidate, exts)
    ensures e < |exts| && EndsWith(candidate, exts[e])
  {
    if EndsWith(candidate, exts[0]) {
      e := 0;
    } else {
      e := ExtensionOf(candidate, exts[1..]);
      e := e + 1;
    }
  }

  /** Nothing else qualifies: what does starts with its prefix and ends in a listed extension. */
  lemma QualifiesOnlyListed(s: string, prefix: string, i: nat)
    requires Qualifies(s, prefix, i)
    ensures exists ext <- [".go", ".yaml", ".yml", ".md", ".json", ".toml", ".txt", ".sh", ".py"] ::
              EndsWith(Candidate(s, i), ext)
    ensures |Candidate(s, i)| > |prefix| + 2
  {
    var e := ExtensionOf(Candidate(s, i), EXTENSIONS);
    assert EXTENSIONS[e] in EXTENSIONS;
  }

  /** The prefixes are tried in this order, so the first listed one that has a path wins. */
  lemma PrefixOrder()
    ensures |PREFIXES| == 6 && PREFIXES[0] == "docs/" && PREFIXES[1] == "internal/" && PREFIXES[2] == "cmd/"
    ensures PREFIXES[3] == "config/" && PREFIXES[4] == "scripts/" && PREFIXES[5] == "pkg/"
  {
  }
}
