/** The dispatcher as the program writes it: one object over Jira, the result directory and the
    counters, whose methods are proved against the protocol. The goroutines of a cycle run here one
    after the other; `FillCycle.EveryInterleaving` gives the same board for every other order. */
module FactoryFill {
  import opened Wrappers
  import opened Protocol
  import opened Sums
  import opened FillCycle
  import opened TicketSort

  class Factory {
    var jira: map<Key, Status>
    var files: map<Key, File>
    var active: int
    var done: int
    var failed: int

    function AsBoard(): Board
      reads this
    {
      Board(jira, files, active, done, failed)
    }

    twostate predicate OnlyTouches(key: Key)
      reads this
    {
      OnlyAt(key, old(AsBoard()), AsBoard())
    }

    method JiraTransition(key: Key, to: Status, accepted: bool) returns (ok: bool)
      requires key in jira
      modifies `jira
      ensures ok == accepted
      ensures jira == if accepted then old(jira)[key := to] else old(jira)
    {
      if accepted { jira := jira[key := to]; }
      ok := accepted;
    }

    method WriteFile(key: Key, file: File)
      modifies `files
      ensures files == old(files)[key := file]
    {
      files := files[key := file];
    }

    method ReadResult(key: Key) returns (file: File)
      requires key in jira
      ensures file == TicketOf(AsBoard(), key).file
    {
      file := if key in files then files[key] else Missing;
    }

    /** The worker process, act by act. */
    method RunWorker(key: Key, acts: seq<Act>)
      requires key in jira
      modifies `jira, `files
      ensures OnlyTouches(key)
      ensures key in jira && TicketOf(AsBoard(), key) == AllActed(old(TicketOf(AsBoard(), key)), acts)
    {
      for i := 0 to |acts|
        invariant OnlyTouches(key) && key in jira
        invariant AllActed(TicketOf(AsBoard(), key), acts[i..]) == AllActed(old(TicketOf(AsBoard(), key)), acts)
      {
        assert acts[i..][1..] == acts[i + 1..];
        match acts[i]
        case Move(to) => jira := jira[key := to];
        case Write(file) => WriteFile(key, file);
      }
      assert acts[|acts|..] == [];
    }

    /** `handleTerminalResult`, class by class. */
    method HandleTerminalResult(key: Key, r: Result, accepted: bool) returns (ok: bool)
      requires key in jira
      modifies `jira
      ensures OnlyTouches(key) && key in jira
      ensures (TicketOf(AsBoard(), key), ok) == Handled(r, old(TicketOf(AsBoard(), key)), accepted)
    {
      ok := false;
      var moved;
      match r.cls
      case ClassDone | ClassNeedsReview =>
        if HasGitEvidence(r) {
          ok := true;
        } else {
          moved := JiraTransition(key, Paused, accepted);
        }
      case ClassPaused | ClassBlockedPayload =>
        if r.claimed != Paused { moved := JiraTransition(key, Paused, accepted); }
      case ClassRetrying =>
        if r.claimed != Retrying { moved := JiraTransition(key, Retrying, accepted); }
      case ClassToEscalate =>
        if r.claimed != ToEscalate { moved := JiraTransition(key, ToEscalate, accepted); }
      case ClassFailed =>
        moved := JiraTransition(key, Retrying, accepted);
      case OtherClass(_) =>
        moved := JiraTransition(key, Paused, accepted);
    }

    /** `dispatchTicket`. */
    method DispatchTicket(key: Key, env: Env) returns (ok: bool)
      requires key in jira
      modifies `jira, `files
      ensures OnlyTouches(key) && key in jira
      ensures (TicketOf(AsBoard(), key), ok) == Dispatched(env, old(TicketOf(AsBoard(), key)))
    {
      var moved;
      if env.normalization == NoTargetFiles {
        moved := JiraTransition(key, NeedsHumanContext, env.firstAccepted);
        WriteFile(key, Holds(MISSING_TARGET));
        return false;
      }
      moved := JiraTransition(key, InProgress, env.firstAccepted);
      if !moved { return false; }
      WriteFile(key, Missing);
      if !env.binFound {
        moved := JiraTransition(key, Paused, env.secondAccepted);
        WriteFile(key, Holds(MISSING_WORKER));
        return false;
      }
      RunWorker(key, env.acts);
      ok := ReadAndHandle(key, env);
    }

    /** What follows the worker's exit, clean or not. */
    method ReadAndHandle(key: Key, env: Env) returns (ok: bool)
      requires key in jira
      modifies `jira
      ensures OnlyTouches(key) && key in jira
      ensures (TicketOf(AsBoard(), key), ok) == AfterWorker(env, old(TicketOf(AsBoard(), key)))
    {
      var moved;
      var read := ReadResult(key);
      if env.crashed {
        if !read.Holds? {
          moved := JiraTransition(key, Retrying, env.secondAccepted);
          return false;
        }
        ok := HandleTerminalResult(key, read.result, env.secondAccepted);
        return;
      }
      if !read.Holds? {
        moved := JiraTransition(key, Retrying, env.secondAccepted);
        return false;
      }
      ok := HandleTerminalResult(key, read.result, env.secondAccepted);
    }

    /** One round of the loop in `reconcileDispatchedStates`. */
    method ReconcileTicket(key: Key, env: Env)
      requires key in jira
      modifies `jira
      ensures OnlyTouches(key) && key in jira
      ensures TicketOf(AsBoard(), key) == Reconciled(env, old(TicketOf(AsBoard(), key)))
    {
      var moved;
      var read := ReadResult(key);
      if !env.searchFinds { return; }
      var status := jira[key];
      if read.Holds? {
        if status == InProgress {
          match read.result.cls
          case ClassDone | ClassNeedsReview => moved := JiraTransition(key, Done, env.thirdAccepted);
          case ClassPaused | ClassBlockedPayload => moved := JiraTransition(key, Paused, env.thirdAccepted);
          case ClassRetrying | ClassFailed => moved := JiraTransition(key, Retrying, env.thirdAccepted);
          case ClassToEscalate => moved := JiraTransition(key, ToEscalate, env.thirdAccepted);
          case OtherClass(_) =>
        }
        return;
      }
      if status == Done {
      } else if status == InProgress && env.labels.remediated && env.labels.blocked {
        moved := JiraTransition(key, Paused, env.thirdAccepted);
      } else if status == InProgress && env.labels.remediated && env.labels.ready {
        moved := JiraTransition(key, Done, env.thirdAccepted);
      } else if status == InProgress && !env.labels.remediated {
        moved := JiraTransition(key, Retrying, env.thirdAccepted);
      }
    }

    method ReconcileDispatchedStates(c: Cycle)
      requires Proper(c, AsBoard())
      modifies `jira
      ensures Reconciles(c, old(AsBoard()), AsBoard())
    {
      ghost var start := AsBoard();
      for i := 0 to |c.keys|
        invariant Proper(c, AsBoard())
        invariant ReconciledUpTo(c, start, AsBoard(), i)
        invariant active == start.active && done == start.done && failed == start.failed
      {
        ghost var before := AsBoard();
        ReconcileTicket(c.keys[i], c.envs[i]);
        ReconciledStep(c, start, before, AsBoard(), i);
      }
    }

    /** One round of the loop in `reconcileStuckInProgress`. */
    method UnstickTicket(key: Key, labels: Labels, accepted: bool) returns (fixed: bool)
      requires key in jira
      modifies `jira
      ensures OnlyTouches(key) && key in jira
      ensures TicketOf(AsBoard(), key) == Unstuck(labels, old(TicketOf(AsBoard(), key)), accepted)
      ensures fixed == accepted
    {
      var read := ReadResult(key);
      if read.Holds? {
        match read.result.cls
        case ClassDone | ClassNeedsReview =>
          fixed := JiraTransition(key, Done, accepted);
          return;
        case ClassPaused | ClassBlockedPayload =>
          fixed := JiraTransition(key, Paused, accepted);
          return;
        case ClassRetrying | ClassFailed =>
          fixed := JiraTransition(key, Retrying, accepted);
          return;
        case ClassToEscalate =>
          fixed := JiraTransition(key, ToEscalate, accepted);
          return;
        case OtherClass(_) =>
      }
      if labels.remediated && labels.blocked {
        fixed := JiraTransition(key, Paused, accepted);
      } else if labels.remediated && labels.ready {
        fixed := JiraTransition(key, Done, accepted);
      } else if labels.remediated {
        fixed := JiraTransition(key, Done, accepted);
      } else {
        fixed := JiraTransition(key, Retrying, accepted);
      }
    }

    /** `reconcileStuckInProgress`: every ticket the search finds is moved on, unless Jira refuses;
        no other ticket, file or counter changes. */
    method ReconcileStuckInProgress(found: seq<Key>, labelsOf: Key -> Labels, accepts: Key -> bool)
      returns (fixed: nat)
      requires forall k <- found :: k in jira
      modifies `jira
      ensures jira.Keys == old(jira.Keys)
      ensures forall k | k in jira :: TicketOf(AsBoard(), k) ==
                if k in found then Unstuck(labelsOf(k), old(TicketOf(AsBoard(), k)), accepts(k))
                else old(TicketOf(AsBoard(), k))
      ensures forall k <- found | accepts(k) :: jira[k] != InProgress
      ensures fixed == Sum((k: Key) => if accepts(k) then 1 else 0, found)
    {
      fixed := 0;
      ghost var start := AsBoard();
      var counts := (k: Key) => if accepts(k) then 1 else 0;
      for i := 0 to |found|
        invariant UnstuckUpTo(found, labelsOf, accepts, start, AsBoard(), i)
        invariant fixed == Sum(counts, found[..i])
      {
        SumPrefix(counts, found, i);
        ghost var before := AsBoard();
        var ok := UnstickTicket(found[i], labelsOf(found[i]), accepts(found[i]));
        UnstuckStep(found, labelsOf, accepts, start, before, AsBoard(), i);
        if ok {
          fixed := fixed + 1;
        }
      }
      assert found[..|found|] == found;
      UnstuckFrees(found, labelsOf, accepts, start, AsBoard());
    }

    /** One goroutine from its launch to its exit. */
    method RunGoroutine(key: Key, env: Env)
      requires key in jira
      modifies this
      ensures OnlyTouches(key) && key in jira
      ensures TicketOf(AsBoard(), key) == Dispatched(env, old(TicketOf(AsBoard(), key))).0
      ensures active == old(active)
      ensures done == old(done) + BackedWeight(env)
      ensures failed == old(failed) + 1 - BackedWeight(env)
    {
      TrueMeansBacked(env, TicketOf(AsBoard(), key));
      active := active + 1;
      var ok := DispatchTicket(key, env);
      if ok { done := done + 1; } else { failed := failed + 1; }
      active := active - 1;
    }

    /** The goroutines of one cycle, one after the other. */
    method RunDispatches(c: Cycle)
      requires Proper(c, AsBoard())
      modifies this
      ensures Dispatches(c, old(AsBoard()), AsBoard())
    {
      ghost var start := AsBoard();
      for i := 0 to |c.keys|
        invariant Proper(c, AsBoard())
        invariant DispatchedUpTo(c, start, AsBoard(), i)
        invariant active == start.active
        invariant done == start.done + Sum(BackedWeight, c.envs[..i])
        invariant failed == start.failed + (i - Sum(BackedWeight, c.envs[..i]))
      {
        SumPrefix(BackedWeight, c.envs, i);
        ghost var before := AsBoard();
        RunGoroutine(c.keys[i], c.envs[i]);
        DispatchedStep(c, start, before, AsBoard(), i);
      }
      assert c.envs[..|c.envs|] == c.envs;
    }

    /** `runFillCycle`: `desired` is the controller's answer, `envOf` what each dispatch would meet.
        The tickets picked fill the free slots, and none left out outranks one of them. */
    method RunFillCycle(fetched: Option<seq<ClassifiedTicket>>, desired: int, envOf: Key -> Env)
      returns (picked: seq<ClassifiedTicket>, ghost leftOut: seq<ClassifiedTicket>)
      requires fetched.Some? ==>
                 && (forall t <- fetched.value :: t.key in jira)
                 && DistinctKeys(fetched.value)
      modifies this
      ensures fetched.None? ==> picked == [] && AsBoard() == old(AsBoard())
      ensures fetched.Some? ==>
                && multiset(picked) + multiset(leftOut) == multiset(Ready(fetched.value))
                && (forall t <- picked, u <- leftOut :: Rank(t) <= Rank(u))
                && (picked != [] ==> |picked| <= desired - old(active))
                && (leftOut != [] ==> |picked| >= desired - old(active))
      ensures CycleStep(CycleOf(picked, envOf), old(AsBoard()), AsBoard())
      ensures jira.Keys == old(jira.Keys) && (forall t <- picked :: t.key in jira)
      ensures forall t <- picked ::
                TicketOf(AsBoard(), t.key) == Cycled(envOf(t.key), old(TicketOf(AsBoard(), t.key)))
      ensures forall k | k in jira && (forall t <- picked :: t.key != k) ::
                TicketOf(AsBoard(), k) == old(TicketOf(AsBoard(), k))
      ensures active == old(active) && done + failed == old(done) + old(failed) + |picked|
    {
      ghost var start := AsBoard();
      picked, leftOut := [], [];
      if fetched.None? {
        NothingDispatched(AsBoard(), envOf);
        return;
      }
      var slots := desired - active;
      if slots < 0 { slots := 0; }
      picked, leftOut := PickTickets(fetched.value, slots);
      var c := CycleOf(picked, envOf);
      RunDispatches(c);
      ghost var mid := AsBoard();
      ReconcileDispatchedStates(c);
      assert Dispatches(c, start, mid) && Proper(c, mid) && Reconciles(c, mid, AsBoard());
      PickedAreCycled(picked, envOf, start, AsBoard());
    }
  }

  // ----- One ticket at a time -----

  /** The first `i` tickets of the cycle are dispatched, the others are as they were. */
  ghost predicate DispatchedUpTo(c: Cycle, start: Board, b: Board, i: nat)
    requires Proper(c, start) && Proper(c, b) && i <= |c.keys|
  {
    && SameElsewhere(c, start, b)
    && (forall j | 0 <= j < |c.keys| ::
          TicketOf(b, c.keys[j]) ==
          if j < i then Dispatched(c.envs[j], TicketOf(start, c.keys[j])).0 else TicketOf(start, c.keys[j]))
  }

  lemma DispatchedStep(c: Cycle, start: Board, b: Board, b': Board, i: nat)
    requires Proper(c, start) && Proper(c, b) && i < |c.keys| && DispatchedUpTo(c, start, b, i)
    requires OnlyAt(c.keys[i], b, b')
    requires TicketOf(b', c.keys[i]) == Dispatched(c.envs[i], TicketOf(b, c.keys[i])).0
    ensures Proper(c, b') && DispatchedUpTo(c, start, b', i + 1)
  {
    forall j | 0 <= j < |c.keys| && j != i
      ensures TicketOf(b', c.keys[j]) == TicketOf(b, c.keys[j])
    {
      assert c.keys[j] != c.keys[i];
    }
  }

  /** The first `i` tickets of the cycle are reconciled, the others are as they were. */
  ghost predicate ReconciledUpTo(c: Cycle, start: Board, b: Board, i: nat)
    requires Proper(c, start) && Proper(c, b) && i <= |c.keys|
  {
    && SameElsewhere(c, start, b)
    && (forall j | 0 <= j < |c.keys| ::
          TicketOf(b, c.keys[j]) ==
          if j < i then Reconciled(c.envs[j], TicketOf(start, c.keys[j])) else TicketOf(start, c.keys[j]))
  }

  lemma ReconciledStep(c: Cycle, start: Board, b: Board, b': Board, i: nat)
    requires Proper(c, start) && Proper(c, b) && i < |c.keys| && ReconciledUpTo(c, start, b, i)
    requires OnlyAt(c.keys[i], b, b')
    requires TicketOf(b', c.keys[i]) == Reconciled(c.envs[i], TicketOf(b, c.keys[i]))
    ensures Proper(c, b') && ReconciledUpTo(c, start, b', i + 1)
  {
    forall j | 0 <= j < |c.keys| && j != i
      ensures TicketOf(b', c.keys[j]) == TicketOf(b, c.keys[j])
    {
      assert c.keys[j] != c.keys[i];
    }
  }

  /** Among the first `i` tickets found each is moved on, and no other ticket differs. */
  ghost predicate UnstuckUpTo(found: seq<Key>, labelsOf: Key -> Labels, accepts: Key -> bool,
                              start: Board, b: Board, i: nat)
    requires i <= |found|
  {
    && b.jira.Keys == start.jira.Keys
    && forall k | k in start.jira ::
         TicketOf(b, k) ==
         if k in found[..i] then Unstuck(labelsOf(k), TicketOf(start, k), accepts(k)) else TicketOf(start, k)
  }

  /** Finding a ticket twice changes nothing. */
  lemma UnstuckTwice(labels: Labels, t: Ticket, accepted: bool)
    ensures Unstuck(labels, Unstuck(labels, t, accepted), accepted) == Unstuck(labels, t, accepted)
  {
  }

  lemma UnstuckStep(found: seq<Key>, labelsOf: Key -> Labels, accepts: Key -> bool,
                    start: Board, b: Board, b': Board, i: nat)
    requires i < |found| && found[i] in b.jira && UnstuckUpTo(found, labelsOf, accepts, start, b, i)
    requires OnlyAt(found[i], b, b')
    requires TicketOf(b', found[i]) ==
             Unstuck(labelsOf(found[i]), TicketOf(b, found[i]), accepts(found[i]))
    ensures UnstuckUpTo(found, labelsOf, accepts, start, b', i + 1)
  {
    var key := found[i];
    UnstuckTwice(labelsOf(key), TicketOf(start, key), accepts(key));
    forall k | k in start.jira
      ensures k in found[..i + 1] <==> k in found[..i] || k == key
    {
      assert found[..i + 1] == found[..i] + [key];
    }
  }

  lemma UnstuckFrees(found: seq<Key>, labelsOf: Key -> Labels, accepts: Key -> bool, start: Board, b: Board)
    requires UnstuckUpTo(found, labelsOf, accepts, start, b, |found|)
    requires forall k <- found :: k in b.jira
    ensures forall k <- found | accepts(k) :: b.jira[k] != InProgress
  {
    forall k <- found | accepts(k)
      ensures b.jira[k] != InProgress
    {
      assert k in found[..|found|];
      assert TicketOf(b, k) == Unstuck(labelsOf(k), TicketOf(start, k), accepts(k));
    }
  }

  /** The ready tickets in order, cut to the free slots. */
  method PickTickets(tickets: seq<ClassifiedTicket>, slots: nat)
    returns (picked: seq<ClassifiedTicket>, ghost leftOut: seq<ClassifiedTicket>)
    requires DistinctKeys(tickets)
    ensures multiset(picked) + multiset(leftOut) == multiset(Ready(tickets))
    ensures forall t <- picked, u <- leftOut :: Rank(t) <= Rank(u)
    ensures |picked| <= slots && (leftOut != [] ==> |picked| == slots)
    ensures DistinctKeys(picked) && forall t <- picked :: t in tickets
  {
    var ready := FilterReady(tickets);
    var a := new ClassifiedTicket[|ready|](i requires 0 <= i < |ready| => ready[i]);
    assert a[..] == ready;
    SortTicketsByPriority(a);
    var sorted := a[..];
    ReadyKeysDistinct(tickets, sorted);
    CutOutranks(sorted, if |sorted| > slots then slots else |sorted|);
    picked, leftOut := sorted, [];
    if |sorted| > slots {
      picked, leftOut := sorted[..slots], sorted[slots..];
    }
  }

  /** Cutting an ordered list leaves behind nothing that outranks what stays. */
  lemma CutOutranks(sorted: seq<ClassifiedTicket>, cut: nat)
    requires Ordered(sorted) && cut <= |sorted|
    ensures multiset(sorted[..cut]) + multiset(sorted[cut..]) == multiset(sorted)
    ensures forall t <- sorted[..cut], u <- sorted[cut..] :: Rank(t) <= Rank(u)
  {
    assert sorted == sorted[..cut] + sorted[cut..];
    forall t <- sorted[..cut], u <- sorted[cut..]
      ensures Rank(t) <= Rank(u)
    {
      var i :| 0 <= i < cut && sorted[..cut][i] == t;
      var j :| 0 <= j < |sorted| - cut && sorted[cut..][j] == u;
      assert t == sorted[i] && u == sorted[cut + j];
    }
  }

  function CycleOf(picked: seq<ClassifiedTicket>, envOf: Key -> Env): Cycle {
    Cycle(seq(|picked|, i requires 0 <= i < |picked| => picked[i].key),
          seq(|picked|, i requires 0 <= i < |picked| => envOf(picked[i].key)))
  }

  /** What a cycle does, ticket by ticket. */
  lemma PickedAreCycled(picked: seq<ClassifiedTicket>, envOf: Key -> Env, b: Board, b': Board)
    requires CycleStep(CycleOf(picked, envOf), b, b')
    ensures b'.jira.Keys == b.jira.Keys && (forall t <- picked :: t.key in b.jira)
    ensures forall t <- picked :: TicketOf(b', t.key) == Cycled(envOf(t.key), TicketOf(b, t.key))
    ensures forall k | k in b.jira && (forall t <- picked :: t.key != k) :: TicketOf(b', k) == TicketOf(b, k)
    ensures b'.active == b.active && b'.done + b'.failed == b.done + b.failed + |picked|
  {
    var c := CycleOf(picked, envOf);
    AfterCycle(c, b, b');
    forall t <- picked
      ensures t.key in b.jira && TicketOf(b', t.key) == Cycled(envOf(t.key), TicketOf(b, t.key))
    {
      var i :| 0 <= i < |picked| && picked[i] == t;
      assert c.keys[i] == t.key && c.envs[i] == envOf(t.key);
    }
    forall k | k in b.jira && forall t <- picked :: t.key != k
      ensures TicketOf(b', k) == TicketOf(b, k)
    {
      assert k !in c.keys;
    }
  }

  lemma NothingDispatched(b: Board, envOf: Key -> Env)
    ensures CycleStep(CycleOf([], envOf), b, b)
  {
    var c := CycleOf([], envOf);
    assert Dispatches(c, b, b) && Proper(c, b) && Reconciles(c, b, b);
  }

  // ----- Distinct keys survive the filter and the sort -----

  ghost predicate DistinctKeys(s: seq<ClassifiedTicket>) {
    forall i, j | 0 <= i < j < |s| :: s[i].key != s[j].key
  }

  lemma {:induction false} ReadyIsSelection(tickets: seq<ClassifiedTicket>)
    ensures forall t :: t in Ready(tickets) <==> t in tickets && IsReady(t)
    ensures DistinctKeys(tickets) ==> DistinctKeys(Ready(tickets))
  {
    if tickets != [] {
      var front, last := tickets[..|tickets| - 1], tickets[|tickets| - 1];
      ReadyIsSelection(front);
      assert tickets == front + [last];
      if DistinctKeys(tickets) {
        assert forall t <- front :: t.key != last.key;
        assert DistinctKeys(front);
      }
    }
  }

  /** With distinct keys a multiset of tickets fixes that any arrangement of it has them too. */
  lemma RearrangedDistinct(s: seq<ClassifiedTicket>, t: seq<ClassifiedTicket>)
    requires DistinctKeys(s) && multiset(s) == multiset(t)
    ensures DistinctKeys(t)
  {
    forall i, j | 0 <= i < j < |t|
      ensures t[i].key != t[j].key
    {
      if t[i].key == t[j].key {
        assert t[i] in multiset(s) && t[j] in multiset(s);
        var x :| 0 <= x < |s| && s[x] == t[i];
        var y :| 0 <= y < |s| && s[y] == t[j];
        assert x == y;
        TwiceInMultiset(t, i, j);
        OnceInMultiset(s, x);
      }
    }
  }

  lemma TwiceInMultiset(t: seq<ClassifiedTicket>, i: nat, j: nat)
    requires i < j < |t| && t[i] == t[j]
    ensures multiset(t)[t[i]] >= 2
  {
    assert t == t[..i] + [t[i]] + t[i + 1..j] + [t[j]] + t[j + 1..];
  }

  lemma OnceInMultiset(s: seq<ClassifiedTicket>, x: nat)
    requires x < |s| && DistinctKeys(s)
    ensures multiset(s)[s[x]] == 1
  {
    assert s == s[..x] + [s[x]] + s[x + 1..];
    assert s[x] !in s[..x] && s[x] !in s[x + 1..];
  }

  lemma ReadyKeysDistinct(tickets: seq<ClassifiedTicket>, sorted: seq<ClassifiedTicket>)
    requires DistinctKeys(tickets) && multiset(sorted) == multiset(Ready(tickets))
    ensures DistinctKeys(sorted)
    ensures forall t <- sorted :: t in tickets
  {
    ReadyIsSelection(tickets);
    RearrangedDistinct(Ready(tickets), sorted);
    forall t <- sorted
      ensures t in tickets
    {
      assert t in multiset(sorted);
    }
  }
}
