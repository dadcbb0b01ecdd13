/** The finding ledger of the ticketizer and its 24-hour cool-down. Clock readings are nanoseconds;
    the ledger keeps whole seconds, because it stores times in RFC 3339 without a fraction. */
module Ledger {
  import opened Wrappers

  const SECOND: int := 1_000_000_000
  const COOLDOWN: int := 24 * 3600 * SECOND

  datatype Entry = Entry(fingerprint: string, firstSeen: int, lastSeen: int, linkedJira: string,
                         status: string, sourceReport: string)

  datatype Finding = Finding(fingerprint: string, file: string, description: string, sourceReport: string)

  datatype Decision = IgnoreNoise | UpdateExisting | CreateNew

  /** What one finding meets when it is ticketized: the model's decision if its call succeeds, the
      instant and key of the Jira issue, and the clock of the ledger update. */
  datatype Call = Call(decision: Option<Decision>, createdAt: int, createdKey: string, ledgerAt: int)

  /** A ticket created at `at` and entered into the ledger at `savedAt`. */
  datatype Creation = Creation(fingerprint: string, key: string, at: int, savedAt: int)

  function Stamp(now: int): int {
    now / SECOND
  }

  // ----- Lookup and update -----

  function Lookup(entries: seq<Entry>, fp: string): Option<Entry> {
    if entries == [] then None
    else if entries[0].fingerprint == fp then Some(entries[0])
    else Lookup(entries[1..], fp)
  }

  function Touched(e: Entry, source: string, key: string, status: string, now: int): Entry {
    e.(lastSeen := Stamp(now), sourceReport := source,
       linkedJira := if key != "" then key else e.linkedJira,
       status := if status != "" then status else e.status)
  }

  function Updated(entries: seq<Entry>, fp: string, source: string, key: string, status: string, now: int): seq<Entry> {
    if entries == [] then [Entry(fp, Stamp(now), Stamp(now), key, status, source)]
    else if entries[0].fingerprint == fp then [Touched(entries[0], source, key, status, now)] + entries[1..]
    else [entries[0]] + Updated(entries[1..], fp, source, key, status, now)
  }

  ghost predicate Distinct(entries: seq<Entry>) {
    forall i, j | 0 <= i < j < |entries| :: entries[i].fingerprint != entries[j].fingerprint
  }

  lemma {:induction false} UpdatedLookup(entries: seq<Entry>, fp: string, source: string, key: string,
                                         status: string, now: int, other: string)
    ensures var updated := Updated(entries, fp, source, key, status, now);
            Lookup(updated, other) ==
            if other != fp then Lookup(entries, other)
            else match Lookup(entries, fp)
                 case None => Some(Entry(fp, Stamp(now), Stamp(now), key, status, source))
                 case Some(e) => Some(Touched(e, source, key, status, now))
  {
    if entries != [] && entries[0].fingerprint != fp {
      UpdatedLookup(entries[1..], fp, source, key, status, now, other);
    }
  }

  lemma {:induction false} UpdatedDistinct(entries: seq<Entry>, fp: string, source: string, key: string,
                                           status: string, now: int)
    requires Distinct(entries)
    ensures Distinct(Updated(entries, fp, source, key, status, now))
    ensures forall e <- Updated(entries, fp, source, key, status, now) ::
              e.fingerprint == fp || exists d <- entries :: d.fingerprint == e.fingerprint
  {
    if entries != [] && entries[0].fingerprint != fp {
      var rest := Updated(entries[1..], fp, source, key, status, now);
      UpdatedDistinct(entries[1..], fp, source, key, status, now);
      assert forall e <- rest :: e.fingerprint != entries[0].fingerprint;
    } else if entries != [] {
      assert forall e <- entries[1..] :: e in entries;
    }
  }

  // ----- One run -----

  /** `isLowConfidence`. */
  predicate LowConfidence(f: Finding) {
    || f.file == "" || f.file == "N/A" || f.file == "?" || ("pkg/" <= f.file && |f.file| <= 5)
    || f.description == "" || f.description == "N/A" || f.description == "Unknown"
    || ('.' !in f.file && '/' !in f.file)
  }

  /** The cool-down: a linked finding seen less than 24 hours ago is left alone. */
  predicate Admits(existing: Option<Entry>, now: int) {
    existing.Some? && existing.value.linkedJira != "" ==> now - existing.value.lastSeen * SECOND >= COOLDOWN
  }

  predicate Known(findings: seq<Finding>, fp: string) {
    exists f <- findings :: f.fingerprint == fp
  }

  /** What the filter lets through when it looks at finding `i` at `times[i]`. */
  function Actionable(entries: seq<Entry>, findings: seq<Finding>, times: seq<int>, max: int): seq<Finding>
    requires |findings| == |times|
  {
    if findings == [] then []
    else
      var n := |findings| - 1;
      var front := Actionable(entries, findings[..n], times[..n], max);
      var f := findings[n];
      if Full(front, max) || Known(findings[..n], f.fingerprint)
         || !Admits(Lookup(entries, f.fingerprint), times[n]) || LowConfidence(f)
      then front
      else front + [f]
  }

  /** The cap is tested after each addition, so the first finding always fits. */
  predicate Full(actionable: seq<Finding>, max: int) {
    actionable != [] && |actionable| >= max
  }

  function Match(entries: seq<Entry>, fp: string): string {
    var existing := Lookup(entries, fp);
    if existing.Some? then existing.value.linkedJira else ""
  }

  /** The key a creation ends up with; none if it fails. Without Jira it is a dry-run key. */
  function NewKey(f: Finding, call: Call, enabled: bool): string
    requires |f.fingerprint| >= 8
  {
    if enabled then call.createdKey else "DRY-" + f.fingerprint[..8]
  }

  function Ticketized(entries: seq<Entry>, f: Finding, call: Call, enabled: bool): (seq<Entry>, seq<Creation>)
    requires |f.fingerprint| >= 8
  {
    if call.decision.None? then (entries, [])
    else
      match call.decision.value
      case IgnoreNoise => (Updated(entries, f.fingerprint, f.sourceReport, "", "ignored", call.ledgerAt), [])
      case UpdateExisting =>
        var existing := Match(entries, f.fingerprint);
        if existing != "" then
          (Updated(entries, f.fingerprint, f.sourceReport, existing, "ticketed", call.ledgerAt), [])
        else (entries, [])
      case CreateNew =>
        var key := NewKey(f, call, enabled);
        if key != "" then
          (Updated(entries, f.fingerprint, f.sourceReport, key, "ticketed", call.ledgerAt),
           [Creation(f.fingerprint, key, call.createdAt, call.ledgerAt)])
        else (entries, [])
  }

  predicate LongEnough(findings: seq<Finding>) {
    forall i | 0 <= i < |findings| :: |findings[i].fingerprint| >= 8
  }

  function TicketizedAll(entries: seq<Entry>, actionable: seq<Finding>, calls: seq<Call>, enabled: bool)
    : (seq<Entry>, seq<Creation>)
    requires |actionable| == |calls| && LongEnough(actionable)
  {
    if actionable == [] then (entries, [])
    else
      var n := |actionable| - 1;
      var (e, created) := TicketizedAll(entries, actionable[..n], calls[..n], enabled);
      var (e', more) := Ticketized(e, actionable[n], calls[n], enabled);
      (e', created + more)
  }

  /** Everything a run meets: its findings and when the filter looks at each, the calls in the order
      it makes them, its limit, and whether Jira is configured. */
  datatype Input = Input(findings: seq<Finding>, times: seq<int>, calls: seq<Call>, max: int, enabled: bool)

  predicate Fits(entries: seq<Entry>, input: Input) {
    && |input.times| == |input.findings| && LongEnough(input.findings)
    && |input.calls| >= |Actionable(entries, input.findings, input.times, input.max)|
  }

  function RunOnce(entries: seq<Entry>, input: Input): (seq<Entry>, seq<Creation>)
    requires Fits(entries, input)
  {
    var actionable := Actionable(entries, input.findings, input.times, input.max);
    ActionableLongEnough(entries, input.findings, input.times, input.max);
    TicketizedAll(entries, actionable, input.calls[..|actionable|], input.enabled)
  }

  lemma {:induction false} ActionableLongEnough(entries: seq<Entry>, findings: seq<Finding>, times: seq<int>, max: int)
    requires |findings| == |times| && LongEnough(findings)
    ensures LongEnough(Actionable(entries, findings, times, max))
  {
    if findings != [] {
      var n := |findings| - 1;
      ActionableLongEnough(entries, findings[..n], times[..n], max);
    }
  }

  // ----- The program -----

  class FindingLedger {
    var entries: seq<Entry>

    method FindExistingMatch(fp: string) returns (found: Option<Entry>)
      ensures found == Lookup(entries, fp)
    {
      for i := 0 to |entries|
        invariant Lookup(entries, fp) == Lookup(entries[i..], fp)
      {
        if entries[i].fingerprint == fp {
          return Some(entries[i]);
        }
        assert entries[i..][1..] == entries[i + 1..];
      }
      return None;
    }

    method UpdateLedgerEntry(fp: string, source: string, key: string, status: string, now: int)
      modifies this
      ensures entries == Updated(old(entries), fp, source, key, status, now)
    {
      for i := 0 to |entries|
        invariant entries == old(entries)
        invariant Updated(entries, fp, source, key, status, now) ==
                  entries[..i] + Updated(entries[i..], fp, source, key, status, now)
      {
        if entries[i].fingerprint == fp {
          assert entries[i..][0] == entries[i] && entries[i..][1..] == entries[i + 1..];
          entries := entries[i := Touched(entries[i], source, key, status, now)];
          return;
        }
        assert entries[i..][1..] == entries[i + 1..];
        assert entries[..i] + [entries[i]] == entries[..i + 1];
      }
      entries := entries + [Entry(fp, Stamp(now), Stamp(now), key, status, source)];
    }

    /** The dedup filter of a run. */
    method FilterFindings(findings: seq<Finding>, times: seq<int>, max: int) returns (actionable: seq<Finding>)
      requires |findings| == |times|
      ensures actionable == Actionable(entries, findings, times, max)
    {
      actionable := [];
      var seen: set<string> := {};
      for i := 0 to |findings|
        invariant actionable == Actionable(entries, findings[..i], times[..i], max)
        invariant forall fp :: fp in seen <==> Known(findings[..i], fp)
        invariant !Full(actionable, max)
      {
        ActionableStep(entries, findings, times, max, i);
        var f := findings[i];
        if f.fingerprint in seen {
          continue;
        }
        seen := seen + {f.fingerprint};
        var existing := FindExistingMatch(f.fingerprint);
        if existing.Some? && existing.value.linkedJira != "" {
          if times[i] - existing.value.lastSeen * SECOND < COOLDOWN {
            continue;
          }
        }
        if LowConfidence(f) {
          continue;
        }
        actionable := actionable + [f];
        if |actionable| >= max {
          FullStays(entries, findings, times, max, i + 1);
          return;
        }
      }
      assert findings[..|findings|] == findings && times[..|times|] == times;
    }

    /** One finding through the model, Jira and the ledger. */
    method TicketizeFinding(f: Finding, call: Call, enabled: bool) returns (created: seq<Creation>)
      requires |f.fingerprint| >= 8
      modifies this
      ensures (entries, created) == Ticketized(old(entries), f, call, enabled)
    {
      created := [];
      var existing := FindExistingMatch(f.fingerprint);
      var existingMatch := "";
      if existing.Some? && existing.value.linkedJira != "" {
        existingMatch := existing.value.linkedJira;
      }
      if call.decision.None? {
        return;
      }
      match call.decision.value
      case IgnoreNoise =>
        UpdateLedgerEntry(f.fingerprint, f.sourceReport, "", "ignored", call.ledgerAt);
      case UpdateExisting =>
        if existingMatch != "" {
          UpdateLedgerEntry(f.fingerprint, f.sourceReport, existingMatch, "ticketed", call.ledgerAt);
        }
      case CreateNew =>
        if enabled {
          if call.createdKey != "" {
            created := [Creation(f.fingerprint, call.createdKey, call.createdAt, call.ledgerAt)];
            UpdateLedgerEntry(f.fingerprint, f.sourceReport, call.createdKey, "ticketed", call.ledgerAt);
          }
        } else {
          var dry := "DRY-" + f.fingerprint[..8];
          created := [Creation(f.fingerprint, dry, call.createdAt, call.ledgerAt)];
          UpdateLedgerEntry(f.fingerprint, f.sourceReport, dry, "ticketed", call.ledgerAt);
        }
    }

    /** A run from its findings to the ledger it saves. */
    method Run(input: Input) returns (created: seq<Creation>)
      requires Fits(entries, input)
      modifies this
      ensures (entries, created) == RunOnce(old(entries), input)
    {
      var actionable := FilterFindings(input.findings, input.times, input.max);
      ActionableLongEnough(entries, input.findings, input.times, input.max);
      var calls := input.calls[..|actionable|];
      created := [];
      for i := 0 to |actionable|
        invariant LongEnough(actionable[..i])
        invariant (entries, created) == TicketizedAll(old(entries), actionable[..i], calls[..i], input.enabled)
      {
        assert actionable[..i + 1][..i] == actionable[..i] && calls[..i + 1][..i] == calls[..i];
        var more := TicketizeFinding(actionable[i], calls[i], input.enabled);
        created := created + more;
      }
      assert actionable[..|actionable|] == actionable && calls[..|actionable|] == calls;
    }
  }

  lemma ActionableStep(entries: seq<Entry>, findings: seq<Finding>, times: seq<int>, max: int, i: nat)
    requires |findings| == |times| && i < |findings|
    ensures var front := Actionable(entries, findings[..i], times[..i], max);
            var f := findings[i];
            Actionable(entries, findings[..i + 1], times[..i + 1], max) ==
            if Full(front, max) || Known(findings[..i], f.fingerprint)
               || !Admits(Lookup(entries, f.fingerprint), times[i]) || LowConfidence(f)
            then front else front + [f]
    ensures forall fp :: Known(findings[..i + 1], fp) <==> Known(findings[..i], fp) || fp == findings[i].fingerprint
  {
    assert findings[..i + 1][..i] == findings[..i] && times[..i + 1][..i] == times[..i];
    assert findings[..i + 1] == findings[..i] + [findings[i]];
    assert findings[i] in findings[..i + 1];
    forall fp | Known(findings[..i], fp)
      ensures Known(findings[..i + 1], fp)
    {
      var f :| f in findings[..i] && f.fingerprint == fp;
      assert f in findings[..i + 1];
    }
  }

  lemma {:induction false} FullStays(entries: seq<Entry>, findings: seq<Finding>, times: seq<int>, max: int, n: nat)
    requires |findings| == |times| && n <= |findings|
    requires Full(Actionable(entries, findings[..n], times[..n], max), max)
    ensures Actionable(entries, findings, times, max) == Actionable(entries, findings[..n], times[..n], max)
    decreases |findings|
  {
    if n < |findings| {
      var last := |findings| - 1;
      assert findings[..last][..n] == findings[..n] && times[..last][..n] == times[..n];
      FullStays(entries, findings[..last], times[..last], max, n);
    } else {
      assert findings[..n] == findings && times[..n] == times;
    }
  }

  // ----- What the ledger says afterwards -----

  function Fingerprints(entries: seq<Entry>): seq<string> {
    seq(|entries|, i requires 0 <= i < |entries| => entries[i].fingerprint)
  }

  /** An update keeps every entry in its place; a new fingerprint goes to the end. */
  lemma {:induction false} UpdatedInPlace(entries: seq<Entry>, fp: string, source: string, key: string,
                                          status: string, now: int)
    ensures Fingerprints(Updated(entries, fp, source, key, status, now)) ==
            Fingerprints(entries) + if Lookup(entries, fp).Some? then [] else [fp]
  {
    if entries != [] && entries[0].fingerprint != fp {
      var rest := Updated(entries[1..], fp, source, key, status, now);
      UpdatedInPlace(entries[1..], fp, source, key, status, now);
      FingerprintsBehind(entries[0], entries[1..]);
      FingerprintsBehind(entries[0], rest);
      assert entries == [entries[0]] + entries[1..];
    } else if entries != [] {
      FingerprintsBehind(entries[0], entries[1..]);
      FingerprintsBehind(Touched(entries[0], source, key, status, now), entries[1..]);
      assert entries == [entries[0]] + entries[1..];
    }
  }

  lemma FingerprintsBehind(e: Entry, rest: seq<Entry>)
    ensures Fingerprints([e] + rest) == [e.fingerprint] + Fingerprints(rest)
  {
  }

  /** Every field of the entry after an update: a new key replaces the old one, no key keeps it. */
  lemma EntryTells(entries: seq<Entry>, fp: string, source: string, key: string, status: string, now: int)
    ensures Lookup(Updated(entries, fp, source, key, status, now), fp).Some?
    ensures var e := Lookup(Updated(entries, fp, source, key, status, now), fp).value;
            var before := Lookup(entries, fp);
            && e.fingerprint == fp && e.lastSeen == now / SECOND && e.sourceReport == source
            && (key != "" ==> e.linkedJira == key)
            && (status != "" ==> e.status == status)
            && (before.None? ==> e.firstSeen == now / SECOND && e.linkedJira == key && e.status == status)
            && (before.Some? ==> e.firstSeen == before.value.firstSeen)
            && (before.Some? && key == "" ==> e.linkedJira == before.value.linkedJira)
            && (before.Some? && status == "" ==> e.status == before.value.status)
  {
    UpdatedLookup(entries, fp, source, key, status, now, fp);
    LookupFinds(entries, fp);
  }

  lemma {:induction false} LookupFinds(entries: seq<Entry>, fp: string)
    ensures Lookup(entries, fp).Some? ==> Lookup(entries, fp).value.fingerprint == fp
    ensures Lookup(entries, fp).None? <==> forall e <- entries :: e.fingerprint != fp
  {
    if entries != [] && entries[0].fingerprint != fp {
      LookupFinds(entries[1..], fp);
    }
  }

  /** The key a created ticket gets. */
  predicate CreatedAs(f: Finding, call: Call, enabled: bool, key: string)
    requires |f.fingerprint| >= 8
  {
    key != "" && if enabled then key == call.createdKey else key == "DRY-" + f.fingerprint[..8]
  }

  /** What one decision of the model comes to. A creation is entered under its own key, whatever the
      finding was linked to before; an update keeps the link; noise keeps it too, but is marked. */
  lemma DecisionTells(entries: seq<Entry>, f: Finding, call: Call, enabled: bool)
    requires |f.fingerprint| >= 8
    ensures var (after, created) := Ticketized(entries, f, call, enabled);
            var before := Lookup(entries, f.fingerprint);
            var e := Lookup(after, f.fingerprint);
            && (call.decision == None ==> after == entries && created == [])
            && (call.decision == Some(CreateNew) && enabled && call.createdKey == "" ==>
                after == entries && created == [])
            && (call.decision == Some(CreateNew) && (!enabled || call.createdKey != "") ==>
                && |created| == 1 && CreatedAs(f, call, enabled, created[0].key)
                && created[0].fingerprint == f.fingerprint
                && created[0].at == call.createdAt && created[0].savedAt == call.ledgerAt
                && e.Some? && e.value.linkedJira == created[0].key && e.value.status == "ticketed"
                && e.value.sourceReport == f.sourceReport && e.value.lastSeen == call.ledgerAt / SECOND)
            && (call.decision == Some(UpdateExisting) ==> created == [])
            && (call.decision == Some(UpdateExisting) && before.Some? && before.value.linkedJira != "" ==>
                e == Some(before.value.(lastSeen := call.ledgerAt / SECOND, sourceReport := f.sourceReport,
                                        status := "ticketed")))
            && (call.decision == Some(UpdateExisting) && (before.None? || before.value.linkedJira == "") ==>
                after == entries)
            && (call.decision == Some(IgnoreNoise) ==>
                && created == [] && e.Some? && e.value.status == "ignored"
                && e.value.linkedJira == (if before.Some? then before.value.linkedJira else "")
                && e.value.sourceReport == f.sourceReport && e.value.lastSeen == call.ledgerAt / SECOND)
  {
    if call.decision.Some? {
      var key := match call.decision.value
        case IgnoreNoise => ""
        case UpdateExisting => Match(entries, f.fingerprint)
        case CreateNew => NewKey(f, call, enabled);
      var status := if call.decision.value.IgnoreNoise? then "ignored" else "ticketed";
      UpdatedLookup(entries, f.fingerprint, f.sourceReport, key, status, call.ledgerAt, f.fingerprint);
      EntryTells(entries, f.fingerprint, f.sourceReport, key, status, call.ledgerAt);
    }
  }

  // ----- Which findings pass -----

  /** Four tests decide about confidence; those for an empty file and for "?" are among the last one. */
  lemma ConfidentExactly(f: Finding)
    ensures !LowConfidence(f) <==>
            && ('.' in f.file || '/' in f.file)
            && f.file != "N/A" && !("pkg/" <= f.file && |f.file| <= 5)
            && f.description !in {"", "N/A", "Unknown"}
  {
  }

  /** A finding passes, when it is looked at, exactly if it is the first with its fingerprint, its
      last sighting as a linked finding is a day ago, it is concrete, and there is room. */
  lemma PassesExactly(entries: seq<Entry>, findings: seq<Finding>, times: seq<int>, max: int, i: nat)
    requires |findings| == |times| && i < |findings|
    ensures var front := Actionable(entries, findings[..i], times[..i], max);
            var passes :=
              && (forall k | 0 <= k < i :: findings[k].fingerprint != findings[i].fingerprint)
              && (forall e | Lookup(entries, findings[i].fingerprint) == Some(e) && e.linkedJira != "" ::
                    times[i] - e.lastSeen * SECOND >= 86_400 * 1_000_000_000)
              && !LowConfidence(findings[i]) && (front == [] || |front| < max);
            Actionable(entries, findings[..i + 1], times[..i + 1], max) ==
            front + if passes then [findings[i]] else []
  {
    ActionableStep(entries, findings, times, max, i);
    KnownBefore(findings, i);
  }

  lemma KnownBefore(findings: seq<Finding>, i: nat)
    requires i < |findings|
    ensures Known(findings[..i], findings[i].fingerprint) <==>
            exists k :: 0 <= k < i && findings[k].fingerprint == findings[i].fingerprint
  {
    if k :| 0 <= k < i && findings[k].fingerprint == findings[i].fingerprint {
      assert findings[..i][k] == findings[k] && findings[k] in findings[..i];
    }
  }
}
