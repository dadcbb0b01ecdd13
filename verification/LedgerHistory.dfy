/** What the ledger guarantees over any number of runs that do not overlap. */
module LedgerHistory {
  import opened Wrappers
  import opened Ledger

  /** From one ledger to a later one no entry is lost: it keeps its first sighting, is never seen
      earlier than before, and once linked stays linked. */
  ghost predicate Evolves(entries: seq<Entry>, entries': seq<Entry>) {
    forall fp | Lookup(entries, fp).Some? ::
      && Lookup(entries', fp).Some?
      && var e, e' := Lookup(entries, fp).value, Lookup(entries', fp).value;
         && e'.firstSeen == e.firstSeen && e.lastSeen <= e'.lastSeen
         && (e.linkedJira != "" ==> e'.linkedJira != "")
  }

  ghost predicate NotAhead(entries: seq<Entry>, clock: int) {
    forall fp | Lookup(entries, fp).Some? :: Lookup(entries, fp).value.lastSeen <= Stamp(clock)
  }

  /** The ledger still knows of a creation. */
  ghost predicate Remembers(entries: seq<Entry>, c: Creation) {
    && Lookup(entries, c.fingerprint).Some?
    && Lookup(entries, c.fingerprint).value.linkedJira != ""
    && Lookup(entries, c.fingerprint).value.lastSeen >= Stamp(c.savedAt)
  }

  /** The ledger was last changed for this fingerprint by this creation. */
  ghost predicate JustSaved(entries: seq<Entry>, c: Creation) {
    && Remembers(entries, c)
    && var e := Lookup(entries, c.fingerprint).value;
       e.lastSeen == Stamp(c.savedAt) && e.linkedJira == c.key && e.status == "ticketed"
  }

  /** A later creation for the same fingerprint is 24 hours behind the second in which the earlier
      one was saved. */
  predicate Apart(earlier: Creation, later: Creation) {
    earlier.fingerprint == later.fingerprint ==> later.at - Stamp(earlier.savedAt) * SECOND >= COOLDOWN
  }

  ghost predicate Spaced(history: seq<Creation>) {
    forall i, j | 0 <= i < j < |history| :: Apart(history[i], history[j])
  }

  ghost predicate Sound(entries: seq<Entry>, history: seq<Creation>, clock: int) {
    && Distinct(entries)
    && NotAhead(entries, clock)
    && (forall i | 0 <= i < |history| :: Remembers(entries, history[i]) && history[i].at <= history[i].savedAt)
    && Spaced(history)
  }

  /** The clock of a run: the filter looks before anything is created, every creation comes before
      its ledger update, and the updates come in order, all between the run's begin and end. */
  ghost predicate Timed(times: seq<int>, calls: seq<Call>, begin: int, end: int) {
    && (forall i | 0 <= i < |times| :: begin <= times[i])
    && (forall i, j | 0 <= i < |times| && 0 <= j < |calls| :: times[i] <= calls[j].createdAt)
    && (forall j | 0 <= j < |calls| :: begin <= calls[j].createdAt <= calls[j].ledgerAt <= end)
    && (forall i, j | 0 <= i < j < |calls| :: calls[i].ledgerAt <= calls[j].ledgerAt)
    && begin <= end
  }

  // ----- What passes the filter -----

  ghost predicate Unrepeated(findings: seq<Finding>) {
    forall i, j | 0 <= i < j < |findings| :: findings[i].fingerprint != findings[j].fingerprint
  }

  lemma {:induction false} ActionableAdmitted(entries: seq<Entry>, findings: seq<Finding>, times: seq<int>,
                                              max: int, now: int)
    requires |findings| == |times|
    requires forall i | 0 <= i < |times| :: times[i] <= now
    ensures var actionable := Actionable(entries, findings, times, max);
            && Unrepeated(actionable)
            && (forall f <- actionable :: f in findings && Admits(Lookup(entries, f.fingerprint), now))
            && |actionable| <= if max < 1 then 1 else max
    decreases |findings|
  {
    if findings != [] {
      var n := |findings| - 1;
      ActionableAdmitted(entries, findings[..n], times[..n], max, now);
      assert findings == findings[..n] + [findings[n]];
    }
  }

  // ----- One finding -----

  lemma StampMonotone(a: int, b: int)
    requires a <= b
    ensures Stamp(a) <= Stamp(b)
  {
  }

  /** An update at a later clock keeps all that a ledger promises. */
  lemma UpdateEvolves(entries: seq<Entry>, fp: string, source: string, key: string, status: string, now: int,
                      clock: int)
    requires NotAhead(entries, clock) && clock <= now && Distinct(entries)
    ensures var updated := Updated(entries, fp, source, key, status, now);
            Distinct(updated) && Evolves(entries, updated) && NotAhead(updated, now)
  {
    var updated := Updated(entries, fp, source, key, status, now);
    UpdatedDistinct(entries, fp, source, key, status, now);
    StampMonotone(clock, now);
    forall g
      ensures Lookup(updated, g) ==
              if g != fp then Lookup(entries, g)
              else match Lookup(entries, fp)
                   case None => Some(Entry(fp, Stamp(now), Stamp(now), key, status, source))
                   case Some(e) => Some(Touched(e, source, key, status, now))
    {
      UpdatedLookup(entries, fp, source, key, status, now, g);
    }
  }

  lemma NotAheadLater(entries: seq<Entry>, clock: int, now: int)
    requires NotAhead(entries, clock) && clock <= now
    ensures NotAhead(entries, now)
  {
    StampMonotone(clock, now);
  }

  lemma TicketizedEffect(entries: seq<Entry>, f: Finding, call: Call, enabled: bool, clock: int)
    requires |f.fingerprint| >= 8 && Distinct(entries)
    requires NotAhead(entries, clock) && clock <= call.ledgerAt && call.createdAt <= call.ledgerAt
    ensures var (entries', created) := Ticketized(entries, f, call, enabled);
            && Distinct(entries') && Evolves(entries, entries') && NotAhead(entries', call.ledgerAt)
            && (forall fp | fp != f.fingerprint :: Lookup(entries', fp) == Lookup(entries, fp))
            && (created == [] || (|created| == 1 && created[0].fingerprint == f.fingerprint
                                  && created[0].at == call.createdAt && created[0].savedAt == call.ledgerAt
                                  && JustSaved(entries', created[0])))
  {
    NotAheadLater(entries, clock, call.ledgerAt);
    if call.decision.Some? {
      var key := match call.decision.value
        case IgnoreNoise => ""
        case UpdateExisting => Match(entries, f.fingerprint)
        case CreateNew => NewKey(f, call, enabled);
      var status := if call.decision.value.IgnoreNoise? then "ignored" else "ticketed";
      UpdateEvolves(entries, f.fingerprint, f.sourceReport, key, status, call.ledgerAt, clock);
      forall fp
        ensures fp != f.fingerprint ==>
                  Lookup(Updated(entries, f.fingerprint, f.sourceReport, key, status, call.ledgerAt), fp) ==
                  Lookup(entries, fp)
      {
        UpdatedLookup(entries, f.fingerprint, f.sourceReport, key, status, call.ledgerAt, fp);
      }
      UpdatedLookup(entries, f.fingerprint, f.sourceReport, key, status, call.ledgerAt, f.fingerprint);
      StampMonotone(call.createdAt, call.ledgerAt);
    }
  }

  // ----- One run -----

  lemma EvolvesTransitive(a: seq<Entry>, b: seq<Entry>, c: seq<Entry>)
    requires Evolves(a, b) && Evolves(b, c)
    ensures Evolves(a, c)
  {
  }

  lemma EvolvedRemembers(entries: seq<Entry>, entries': seq<Entry>, c: Creation)
    requires Evolves(entries, entries') && Remembers(entries, c)
    ensures Remembers(entries', c)
  {
  }

  /** The ledger and the creations after some of a run's calls. */
  ghost predicate Progress(entries: seq<Entry>, actionable: seq<Finding>, calls: seq<Call>, clock: int,
                           now: seq<Entry>, created: seq<Creation>)
    requires |actionable| == |calls|
  {
    && Distinct(now) && NotAhead(now, clock) && Evolves(entries, now)
    && (forall fp | (forall i | 0 <= i < |actionable| :: actionable[i].fingerprint != fp) ::
          Lookup(now, fp) == Lookup(entries, fp))
    && (forall i | 0 <= i < |created| :: JustSaved(now, created[i]) && Source(actionable, calls, created[i]))
    && (forall i, j | 0 <= i < j < |created| :: created[i].fingerprint != created[j].fingerprint)
  }

  /** A creation comes from one of the findings and was made by its call. */
  ghost predicate Source(actionable: seq<Finding>, calls: seq<Call>, c: Creation)
    requires |actionable| == |calls|
  {
    exists i :: 0 <= i < |actionable| && actionable[i].fingerprint == c.fingerprint
                && calls[i].createdAt == c.at && calls[i].ledgerAt == c.savedAt
                && |c.fingerprint| >= 8
  }

  lemma {:induction false} CallsProgress(entries: seq<Entry>, actionable: seq<Finding>, calls: seq<Call>,
                                         enabled: bool, times: seq<int>, begin: int, end: int)
    requires |actionable| == |calls| && LongEnough(actionable) && Unrepeated(actionable)
    requires Distinct(entries) && NotAhead(entries, begin) && Timed(times, calls, begin, end)
    ensures var (now, created) := TicketizedAll(entries, actionable, calls, enabled);
            Progress(entries, actionable, calls, if calls == [] then begin else calls[|calls| - 1].ledgerAt,
                     now, created)
  {
    if actionable != [] {
      var n := |actionable| - 1;
      assert LongEnough(actionable[..n]) && Unrepeated(actionable[..n]) && Timed(times, calls[..n], begin, end);
      var (now, created) := TicketizedAll(entries, actionable[..n], calls[..n], enabled);
      CallsProgress(entries, actionable[..n], calls[..n], enabled, times, begin, end);
      var clock := if n == 0 then begin else calls[n - 1].ledgerAt;
      TicketizedEffect(now, actionable[n], calls[n], enabled, clock);
      CallProgress(entries, actionable, calls, enabled, clock, now, created);
    }
  }

  lemma CallProgress(entries: seq<Entry>, actionable: seq<Finding>, calls: seq<Call>, enabled: bool,
                     clock: int, now: seq<Entry>, created: seq<Creation>)
    requires |actionable| == |calls| > 0 && LongEnough(actionable) && Unrepeated(actionable)
    requires var n := |actionable| - 1;
             && Progress(entries, actionable[..n], calls[..n], clock, now, created)
             && clock <= calls[n].ledgerAt && calls[n].createdAt <= calls[n].ledgerAt
    ensures var n := |actionable| - 1;
            var (now', more) := Ticketized(now, actionable[n], calls[n], enabled);
            Progress(entries, actionable, calls, calls[n].ledgerAt, now', created + more)
  {
    var n := |actionable| - 1;
    var (now', more) := Ticketized(now, actionable[n], calls[n], enabled);
    TicketizedEffect(now, actionable[n], calls[n], enabled, clock);
    EvolvesTransitive(entries, now, now');
    forall fp | forall i | 0 <= i < |actionable| :: actionable[i].fingerprint != fp
      ensures Lookup(now', fp) == Lookup(entries, fp)
    {
      assert actionable[n].fingerprint != fp;
      assert forall i | 0 <= i < n :: actionable[..n][i].fingerprint != fp;
    }
    forall i | 0 <= i < |created + more|
      ensures JustSaved(now', (created + more)[i]) && Source(actionable, calls, (created + more)[i])
    {
      if i < |created| {
        var k :| 0 <= k < n && actionable[..n][k].fingerprint == created[i].fingerprint
                 && calls[..n][k].createdAt == created[i].at && calls[..n][k].ledgerAt == created[i].savedAt;
        assert actionable[k].fingerprint == created[i].fingerprint && calls[k].createdAt == created[i].at;
        assert actionable[k].fingerprint != actionable[n].fingerprint;
      } else {
        assert actionable[n].fingerprint == more[0].fingerprint && calls[n].createdAt == more[0].at;
      }
    }
    forall i, j | 0 <= i < j < |created + more|
      ensures (created + more)[i].fingerprint != (created + more)[j].fingerprint
    {
      if j == |created| {
        var k :| 0 <= k < n && actionable[..n][k].fingerprint == created[i].fingerprint
                 && calls[..n][k].createdAt == created[i].at && calls[..n][k].ledgerAt == created[i].savedAt;
        assert actionable[k].fingerprint == created[i].fingerprint;
      }
    }
  }

  /** A finding the filter admits is far enough behind every creation the ledger remembers. */
  lemma AdmittedIsApart(entries: seq<Entry>, earlier: Creation, later: Creation, now: int)
    requires Remembers(entries, earlier) && earlier.fingerprint == later.fingerprint
    requires Admits(Lookup(entries, later.fingerprint), now) && now <= later.at
    ensures Apart(earlier, later)
  {
  }

  /** What one run creates: distinct findings, within its time, each the last change of its entry. */
  lemma RunCreates(entries: seq<Entry>, input: Input, begin: int, end: int)
    requires Distinct(entries) && NotAhead(entries, begin) && Fits(entries, input)
    requires var n := |Actionable(entries, input.findings, input.times, input.max)|;
             Timed(input.times, input.calls[..n], begin, end)
    ensures var actionable := Actionable(entries, input.findings, input.times, input.max);
            var calls := input.calls[..|actionable|];
            var (entries', created) := RunOnce(entries, input);
            && Progress(entries, actionable, calls, end, entries', created)
            && forall i | 0 <= i < |created| ::
                 begin <= created[i].at <= created[i].savedAt <= end && |created[i].fingerprint| >= 8
  {
    var actionable := Actionable(entries, input.findings, input.times, input.max);
    var calls := input.calls[..|actionable|];
    var (entries', created) := RunOnce(entries, input);
    ActionableLongEnough(entries, input.findings, input.times, input.max);
    ActionableAdmitted(entries, input.findings, input.times, input.max, Latest(input.times, begin));
    CallsProgress(entries, actionable, calls, input.enabled, input.times, begin, end);
    NotAheadLater(entries', if calls == [] then begin else calls[|calls| - 1].ledgerAt, end);
    forall i | 0 <= i < |created|
      ensures begin <= created[i].at <= created[i].savedAt <= end && |created[i].fingerprint| >= 8
    {
      assert Source(actionable, calls, created[i]);
    }
  }

  /** One run of the program keeps the ledger sound and its creations spaced. */
  lemma RunKeepsSound(entries: seq<Entry>, history: seq<Creation>, input: Input, clock: int, begin: int, end: int)
    requires Sound(entries, history, clock) && clock <= begin && Fits(entries, input)
    requires var n := |Actionable(entries, input.findings, input.times, input.max)|;
             Timed(input.times, input.calls[..n], begin, end)
    ensures var (entries', created) := RunOnce(entries, input);
            Sound(entries', history + created, end) && Evolves(entries, entries')
  {
    var actionable := Actionable(entries, input.findings, input.times, input.max);
    var calls := input.calls[..|actionable|];
    var (entries', created) := RunOnce(entries, input);
    NotAheadLater(entries, clock, begin);
    var latest := Latest(input.times, begin);
    ActionableAdmitted(entries, input.findings, input.times, input.max, latest);
    RunCreates(entries, input, begin, end);
    HistoryStaysSpaced(entries, history, actionable, calls, created, latest);
    forall i | 0 <= i < |history + created|
      ensures Remembers(entries', (history + created)[i])
      ensures (history + created)[i].at <= (history + created)[i].savedAt
    {
      if i < |history| {
        EvolvedRemembers(entries, entries', history[i]);
      } else {
        assert JustSaved(entries', created[i - |history|]);
      }
    }
  }

  /** An instant no earlier than any of the filter's and no later than any creation. */
  function Latest(times: seq<int>, begin: int): (latest: int)
    ensures begin <= latest
    ensures forall i | 0 <= i < |times| :: times[i] <= latest
    ensures latest == begin || exists i :: 0 <= i < |times| && times[i] == latest
  {
    if times == [] then begin
    else
      var front := Latest(times[..|times| - 1], begin);
      if times[|times| - 1] > front then times[|times| - 1] else front
  }

  lemma HistoryStaysSpaced(entries: seq<Entry>, history: seq<Creation>, actionable: seq<Finding>, calls: seq<Call>,
                           created: seq<Creation>, latest: int)
    requires |actionable| == |calls|
    requires Spaced(history) && forall i | 0 <= i < |history| :: Remembers(entries, history[i])
    requires forall f <- actionable :: Admits(Lookup(entries, f.fingerprint), latest)
    requires forall j | 0 <= j < |calls| :: latest <= calls[j].createdAt
    requires forall i | 0 <= i < |created| :: Source(actionable, calls, created[i])
    requires forall i, j | 0 <= i < j < |created| :: created[i].fingerprint != created[j].fingerprint
    ensures Spaced(history + created)
  {
    forall i, j | 0 <= i < j < |history + created|
      ensures Apart((history + created)[i], (history + created)[j])
    {
      if i < |history| <= j {
        var later := created[j - |history|];
        if history[i].fingerprint == later.fingerprint {
          var k :| 0 <= k < |actionable| && actionable[k].fingerprint == later.fingerprint
                   && calls[k].createdAt == later.at;
          assert actionable[k] in actionable;
          AdmittedIsApart(entries, history[i], later, latest);
        }
      }
    }
  }

  // ----- Any number of runs -----

  datatype Turn = Turn(input: Input, begin: int, end: int)

  /** The runs follow one another: each reads the ledger the one before it saved. */
  ghost predicate Follows(entries: seq<Entry>, turn: Turn, clock: int) {
    && clock <= turn.begin && Fits(entries, turn.input)
    && var n := |Actionable(entries, turn.input.findings, turn.input.times, turn.input.max)|;
       Timed(turn.input.times, turn.input.calls[..n], turn.begin, turn.end)
  }

  function ClockBefore(turns: seq<Turn>, clock: int, n: nat): int
    requires n <= |turns|
  {
    if n == 0 then clock else turns[n - 1].end
  }

  ghost predicate Played(turns: seq<Turn>, ledgers: seq<seq<Entry>>, clock: int, n: nat)
    requires |ledgers| == |turns| + 1 && n < |turns|
  {
    && Follows(ledgers[n], turns[n], ClockBefore(turns, clock, n))
    && ledgers[n + 1] == RunOnce(ledgers[n], turns[n].input).0
  }

  ghost predicate Plays(turns: seq<Turn>, ledgers: seq<seq<Entry>>, clock: int) {
    && |ledgers| == |turns| + 1
    && forall n | 0 <= n < |turns| :: Played(turns, ledgers, clock, n)
  }

  /** All creations of the first `n` runs. */
  ghost function Created(turns: seq<Turn>, ledgers: seq<seq<Entry>>, clock: int, n: nat): seq<Creation>
    requires Plays(turns, ledgers, clock) && n <= |turns|
  {
    if n == 0 then []
    else
      assert Played(turns, ledgers, clock, n - 1);
      Created(turns, ledgers, clock, n - 1) + RunOnce(ledgers[n - 1], turns[n - 1].input).1
  }

  /** Over any sequence of runs the ledger stays distinct and only evolves, and two tickets for one
      fingerprint are 24 hours apart, counted from the second of the first. */
  lemma {:induction false} HistoryIsSound(turns: seq<Turn>, ledgers: seq<seq<Entry>>, clock: int, n: nat)
    requires Plays(turns, ledgers, clock) && n <= |turns|
    requires Distinct(ledgers[0]) && NotAhead(ledgers[0], clock)
    ensures Sound(ledgers[n], Created(turns, ledgers, clock, n), ClockBefore(turns, clock, n))
    ensures Evolves(ledgers[0], ledgers[n])
  {
    if n > 0 {
      var turn := turns[n - 1];
      HistoryIsSound(turns, ledgers, clock, n - 1);
      assert Played(turns, ledgers, clock, n - 1);
      RunKeepsSound(ledgers[n - 1], Created(turns, ledgers, clock, n - 1), turn.input,
                    ClockBefore(turns, clock, n - 1), turn.begin, turn.end);
      EvolvesTransitive(ledgers[0], ledgers[n - 1], ledgers[n]);
    }
  }

  // ----- What the whole seconds cost -----

  /** Two spaced creations for one fingerprint are more than 24 hours less a second apart. */
  lemma SpacedGap(history: seq<Creation>, i: nat, j: nat)
    requires Spaced(history) && i < j < |history| && history[i].fingerprint == history[j].fingerprint
    requires history[i].at <= history[i].savedAt
    ensures history[j].at - history[i].at > (86_400 - 1) * 1_000_000_000
    ensures Prompt(history[i]) ==> history[j].at - history[i].at >= 86_400 * 1_000_000_000
    ensures history[i].at % SECOND == 0 ==> Prompt(history[i])
  {
    assert Apart(history[i], history[j]);
    StampMonotone(history[i].at, history[i].savedAt);
  }

  /** For a ticket created at `at` and saved at `savedAt`, the filter keeps the full 24 hours exactly
      when the save falls into a second that begins no earlier than the creation. */
  lemma CooldownIsExact(e: Entry, at: int, savedAt: int)
    requires e.linkedJira != "" && e.lastSeen == Stamp(savedAt)
    ensures (forall later :: Admits(Some(e), later) ==> later - at >= COOLDOWN) <==> at <= savedAt - savedAt % SECOND
  {
    assert Stamp(savedAt) * SECOND == savedAt - savedAt % SECOND;
    assert Admits(Some(e), Stamp(savedAt) * SECOND + COOLDOWN);
  }

  /** Saved in a second that begins no earlier than the creation. */
  predicate Prompt(c: Creation) {
    c.at <= Stamp(c.savedAt) * SECOND
  }

  /** For a run that ended at `end`: the ledger keeps the 24 hours, or the run itself used them up. */
  predicate Safe(c: Creation, end: int) {
    Prompt(c) || end - c.at >= COOLDOWN
  }

  ghost predicate SafeTurn(entries: seq<Entry>, turn: Turn)
    requires Fits(entries, turn.input)
  {
    forall c <- RunOnce(entries, turn.input).1 :: Safe(c, turn.end)
  }

  /** Any two creations for one fingerprint are a full day apart. */
  ghost predicate DayApart(history: seq<Creation>) {
    forall i, j | 0 <= i < j < |history| && history[i].fingerprint == history[j].fingerprint ::
      history[j].at - history[i].at >= 86_400 * 1_000_000_000
  }

  /** What the first `n` runs and one more run behind them create. */
  ghost function CreatedWith(turns: seq<Turn>, ledgers: seq<seq<Entry>>, clock: int, n: nat, turn: Turn): seq<Creation>
    requires Plays(turns, ledgers, clock) && n <= |turns| && Fits(ledgers[n], turn.input)
  {
    Created(turns, ledgers, clock, n) + RunOnce(ledgers[n], turn.input).1
  }

  ghost predicate SafeBefore(turns: seq<Turn>, ledgers: seq<seq<Entry>>, clock: int, n: nat)
    requires Plays(turns, ledgers, clock) && n <= |turns|
  {
    forall m | 0 <= m < n :: Played(turns, ledgers, clock, m) && SafeTurn(ledgers[m], turns[m])
  }

  lemma SafeLater(history: seq<Creation>, created: seq<Creation>, clock: int, end: int)
    requires clock <= end && (forall c <- history :: Safe(c, clock)) && (forall c <- created :: Safe(c, end))
    ensures forall c <- history + created :: Safe(c, end)
  {
  }

  lemma TurnEndsLater(entries: seq<Entry>, turn: Turn, clock: int)
    requires Follows(entries, turn, clock)
    ensures clock <= turn.end
  {
  }

  lemma {:induction false} SafeStays(turns: seq<Turn>, ledgers: seq<seq<Entry>>, clock: int, n: nat)
    requires Plays(turns, ledgers, clock) && n <= |turns| && SafeBefore(turns, ledgers, clock, n)
    ensures forall c <- Created(turns, ledgers, clock, n) :: Safe(c, ClockBefore(turns, clock, n))
  {
    if n > 0 {
      SafeStays(turns, ledgers, clock, n - 1);
      assert Played(turns, ledgers, clock, n - 1) && SafeTurn(ledgers[n - 1], turns[n - 1]);
      var before, turn := ClockBefore(turns, clock, n - 1), turns[n - 1];
      TurnEndsLater(ledgers[n - 1], turn, before);
      SafeLater(Created(turns, ledgers, clock, n - 1), RunOnce(ledgers[n - 1], turn.input).1, before, turn.end);
    }
  }

  /** If all runs so far are safe, whatever run comes next keeps its creations a full day behind theirs. */
  lemma {:induction false} SafeKeepsDay(turns: seq<Turn>, ledgers: seq<seq<Entry>>, clock: int, n: nat, turn: Turn)
    requires Plays(turns, ledgers, clock) && n <= |turns| && SafeBefore(turns, ledgers, clock, n)
    requires Distinct(ledgers[0]) && NotAhead(ledgers[0], clock)
    requires Follows(ledgers[n], turn, ClockBefore(turns, clock, n))
    ensures DayApart(CreatedWith(turns, ledgers, clock, n, turn))
  {
    var history := Created(turns, ledgers, clock, n);
    var now := ClockBefore(turns, clock, n);
    if n > 0 {
      assert Played(turns, ledgers, clock, n - 1);
      SafeKeepsDay(turns, ledgers, clock, n - 1, turns[n - 1]);
      assert history == CreatedWith(turns, ledgers, clock, n - 1, turns[n - 1]);
    }
    HistoryIsSound(turns, ledgers, clock, n);
    SafeStays(turns, ledgers, clock, n);
    NextKeepsDay(ledgers[n], history, turn, now);
  }

  lemma NextKeepsDay(entries: seq<Entry>, history: seq<Creation>, turn: Turn, clock: int)
    requires Sound(entries, history, clock) && Follows(entries, turn, clock)
    requires DayApart(history) && forall c <- history :: Safe(c, clock)
    ensures DayApart(history + RunOnce(entries, turn.input).1)
  {
    var created := RunOnce(entries, turn.input).1;
    var all := history + created;
    RunKeepsSound(entries, history, turn.input, clock, turn.begin, turn.end);
    NotAheadLater(entries, clock, turn.begin);
    RunCreates(entries, turn.input, turn.begin, turn.end);
    forall i, j | 0 <= i < j < |all|
      ensures all[i].fingerprint == all[j].fingerprint ==> all[j].at - all[i].at >= COOLDOWN
    {
      if j < |history| {
        assert history[i] == all[i] && history[j] == all[j];
      } else if i < |history| {
        assert all[i] in history && all[j] == created[j - |history|];
        if all[i].fingerprint == all[j].fingerprint {
          SpacedGap(all, i, j);
        }
      } else {
        assert created[i - |history|].fingerprint != created[j - |history|].fingerprint;
      }
    }
  }

  /** After an unsafe creation the filter lets the same finding through too early. */
  lemma UnsafeComesAgain(entries: seq<Entry>, c: Creation, end: int) returns (turn: Turn)
    requires JustSaved(entries, c) && !Safe(c, end) && |c.fingerprint| >= 8
    ensures Follows(entries, turn, end)
    ensures RunOnce(entries, turn.input).1 == [Creation(c.fingerprint, "ZB-1", turn.begin, turn.begin)]
    ensures turn.begin - c.at < COOLDOWN
  {
    var free := Stamp(c.savedAt) * SECOND + COOLDOWN;
    var at := if end > free then end else free;
    var f := FLAW.(fingerprint := c.fingerprint);
    FlawIsConfident();
    turn := Turn(Solo(f, at), at, at);
    SoloRun(entries, f, at, end);
  }

  lemma TooCloseTogether(history: seq<Creation>, created: seq<Creation>, later: Creation, c: Creation)
    requires c in created && later.fingerprint == c.fingerprint && later.at - c.at < COOLDOWN
    ensures !DayApart((history + created) + [later])
  {
    var k :| 0 <= k < |created| && created[k] == c;
    var all := (history + created) + [later];
    var i, j := |history| + k, |history| + |created|;
    assert all[i] == c && all[j] == later;
  }

  /** If a run was not safe, a run behind it comes too early. */
  lemma UnsafeLosesDay(turns: seq<Turn>, ledgers: seq<seq<Entry>>, clock: int, n: nat, c: Creation)
    returns (turn: Turn)
    requires Plays(turns, ledgers, clock) && n < |turns| && Played(turns, ledgers, clock, n)
    requires Distinct(ledgers[0]) && NotAhead(ledgers[0], clock)
    requires c in RunOnce(ledgers[n], turns[n].input).1 && !Safe(c, turns[n].end)
    ensures Follows(ledgers[n + 1], turn, ClockBefore(turns, clock, n + 1))
    ensures !DayApart(CreatedWith(turns, ledgers, clock, n + 1, turn))
  {
    var created := RunOnce(ledgers[n], turns[n].input).1;
    HistoryIsSound(turns, ledgers, clock, n);
    NotAheadLater(ledgers[n], ClockBefore(turns, clock, n), turns[n].begin);
    RunCreates(ledgers[n], turns[n].input, turns[n].begin, turns[n].end);
    var k :| 0 <= k < |created| && created[k] == c;
    assert JustSaved(ledgers[n + 1], created[k]);
    turn := UnsafeComesAgain(ledgers[n + 1], c, turns[n].end);
    var later := Creation(c.fingerprint, "ZB-1", turn.begin, turn.begin);
    TooCloseTogether(Created(turns, ledgers, clock, n), created, later, c);
  }

  /** The 24 hours over any number of runs: whatever run comes next at any point of the history, all
      creations for one fingerprint are a full day apart, if and only if every ticket was saved in a
      second that began no earlier than its creation, or by a run that lasted another day. */
  lemma FullDayExactly(turns: seq<Turn>, ledgers: seq<seq<Entry>>, clock: int)
    requires Plays(turns, ledgers, clock)
    requires Distinct(ledgers[0]) && NotAhead(ledgers[0], clock)
    ensures (forall n: nat, turn | n <= |turns| && Follows(ledgers[n], turn, ClockBefore(turns, clock, n)) ::
               DayApart(CreatedWith(turns, ledgers, clock, n, turn)))
            <==> SafeBefore(turns, ledgers, clock, |turns|)
  {
    if SafeBefore(turns, ledgers, clock, |turns|) {
      forall n: nat, turn | n <= |turns| && Follows(ledgers[n], turn, ClockBefore(turns, clock, n))
        ensures DayApart(CreatedWith(turns, ledgers, clock, n, turn))
      {
        SafeKeepsDay(turns, ledgers, clock, n, turn);
      }
    } else {
      var m: nat :| m < |turns| && !(Played(turns, ledgers, clock, m) && SafeTurn(ledgers[m], turns[m]));
      assert Played(turns, ledgers, clock, m);
      var c :| c in RunOnce(ledgers[m], turns[m].input).1 && !Safe(c, turns[m].end);
      var turn := UnsafeLosesDay(turns, ledgers, clock, m, c);
    }
  }

  /** A run over one finding that creates a ticket for it, all at one instant. */
  function Solo(f: Finding, at: int): Input {
    Input([f], [at], [Call(Some(CreateNew), at, "ZB-1", at)], 5, true)
  }

  lemma ActionableOne(entries: seq<Entry>, f: Finding, at: int, max: int)
    requires Admits(Lookup(entries, f.fingerprint), at) && !LowConfidence(f)
    ensures Actionable(entries, [f], [at], max) == [f]
  {
    assert [f][..0] == [] && [at][..0] == [];
    assert Actionable(entries, [], [], max) == [];
  }

  /** The limit on findings is kept, whatever comes in, exactly when it is at least one: the cap is
      tested only after a finding is in, so a limit of zero or less lets one through. */
  lemma LimitHoldsFromOne(max: int)
    ensures (forall entries, findings, times | |findings| == |times| ::
               |Actionable(entries, findings, times, max)| <= max) <==> max >= 1
  {
    if max >= 1 {
      forall entries, findings, times | |findings| == |times|
        ensures |Actionable(entries, findings, times, max)| <= max
      {
        ActionableAdmitted(entries, findings, times, max, Latest(times, 0));
      }
    } else {
      FlawIsConfident();
      ActionableOne([], FLAW, 0, max);
    }
  }

  lemma TicketizedOne(entries: seq<Entry>, f: Finding, call: Call, enabled: bool)
    requires |f.fingerprint| >= 8
    ensures TicketizedAll(entries, [f], [call], enabled) == Ticketized(entries, f, call, enabled)
  {
    assert [f][..0] == [] && [call][..0] == [];
    assert TicketizedAll(entries, [], [], enabled) == (entries, []);
    var more := Ticketized(entries, f, call, enabled).1;
    assert [] + more == more;
  }

  lemma SoloRun(entries: seq<Entry>, f: Finding, at: int, clock: int)
    requires Admits(Lookup(entries, f.fingerprint), at) && !LowConfidence(f) && |f.fingerprint| >= 8
    requires clock <= at
    ensures Follows(entries, Turn(Solo(f, at), at, at), clock)
    ensures RunOnce(entries, Solo(f, at)) ==
            (Updated(entries, f.fingerprint, f.sourceReport, "ZB-1", "ticketed", at),
             [Creation(f.fingerprint, "ZB-1", at, at)])
  {
    ActionableOne(entries, f, at, 5);
    TicketizedOne(entries, f, Solo(f, at).calls[0], true);
    assert Solo(f, at).calls[..1] == [Solo(f, at).calls[0]];
    assert Timed([at], [Solo(f, at).calls[0]], at, at);
  }

  const FLAW := Finding("abcdefgh", "main.go", "unused variable", "daily-sweep")

  lemma FlawIsConfident()
    ensures forall fp :: !LowConfidence(FLAW.(fingerprint := fp))
    ensures !LowConfidence(FLAW) && |FLAW.fingerprint| == 8
  {
    assert FLAW.file == "main.go" && FLAW.file[4] == '.';
  }

  /** Half a second into a second is enough: two runs, the second on the ledger the first saved,
      each creating a ticket for the same finding, less than 24 hours apart. */
  lemma TwoTicketsWithinADay() returns (first: Turn, second: Turn, saved: seq<Entry>)
    ensures Follows([], first, 0) && RunOnce([], first.input).0 == saved
    ensures Follows(saved, second, first.end)
    ensures RunOnce([], first.input).1 == [Creation(FLAW.fingerprint, "ZB-1", SECOND / 2, SECOND / 2)]
    ensures RunOnce(saved, second.input).1 == [Creation(FLAW.fingerprint, "ZB-1", COOLDOWN, COOLDOWN)]
  {
    FlawIsConfident();
    first, second, saved := TwoRuns(FLAW, SECOND / 2, COOLDOWN);
  }

  /** A run, and another one once the second in which the first saved is a day ago. */
  lemma TwoRuns(f: Finding, at: int, again: int) returns (first: Turn, second: Turn, saved: seq<Entry>)
    requires !LowConfidence(f) && |f.fingerprint| >= 8
    requires 0 <= at <= again && again - Stamp(at) * SECOND >= COOLDOWN
    ensures Follows([], first, 0) && RunOnce([], first.input).0 == saved
    ensures Follows(saved, second, first.end)
    ensures RunOnce([], first.input).1 == [Creation(f.fingerprint, "ZB-1", at, at)]
    ensures RunOnce(saved, second.input).1 == [Creation(f.fingerprint, "ZB-1", again, again)]
  {
    first, second := Turn(Solo(f, at), at, at), Turn(Solo(f, again), again, again);
    SoloRun([], f, at, 0);
    saved := RunOnce([], first.input).0;
    assert saved == [Entry(f.fingerprint, Stamp(at), Stamp(at), "ZB-1", "ticketed", f.sourceReport)];
    SoloRun(saved, f, again, at);
  }
}
