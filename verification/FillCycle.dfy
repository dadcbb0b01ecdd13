/** The dispatch goroutines of one fill cycle as interleaved atomic steps, and what holds in
    every interleaving. */
module FillCycle {
  import opened Protocol
  import opened Sums

  /** Jira, the result directory and the factory's counters. */
  datatype Board = Board(jira: map<Key, Status>, files: map<Key, File>, active: int, done: int, failed: int)

  function TicketOf(b: Board, k: Key): Ticket
    requires k in b.jira
  {
    Ticket(b.jira[k], if k in b.files then b.files[k] else Missing)
  }

  function Put(b: Board, k: Key, t: Ticket): Board {
    b.(jira := b.jira[k := t.status], files := b.files[k := t.file])
  }

  /** The tickets dispatched this cycle, each with what its dispatch meets. */
  datatype Cycle = Cycle(keys: seq<Key>, envs: seq<Env>)

  ghost predicate Proper(c: Cycle, b: Board) {
    && |c.keys| == |c.envs|
    && (forall i | 0 <= i < |c.keys| :: c.keys[i] in b.jira)
    && (forall i, j | 0 <= i < j < |c.keys| :: c.keys[i] != c.keys[j])
  }

  // ----- The outcome of a cycle, one ticket at a time -----

  function BackedWeight(env: Env): int {
    if Backed(env) then 1 else 0
  }

  ghost predicate SameElsewhere(c: Cycle, b: Board, b': Board) {
    && b'.jira.Keys == b.jira.Keys
    && forall k | k in b.jira && k !in c.keys :: TicketOf(b', k) == TicketOf(b, k)
  }

  /** Only the ticket `key` may differ. */
  ghost predicate OnlyAt(key: Key, b: Board, b': Board) {
    && b'.jira.Keys == b.jira.Keys
    && forall k | k in b.jira && k != key :: TicketOf(b', k) == TicketOf(b, k)
  }

  /** Every dispatched ticket ends as its own dispatch alone would have left it, no other ticket
      changes, Active is back, Done grew by the backed dispatches and Failed by the others. */
  ghost predicate Dispatches(c: Cycle, b: Board, b': Board)
    requires Proper(c, b)
  {
    && SameElsewhere(c, b, b')
    && (forall i | 0 <= i < |c.keys| ::
          TicketOf(b', c.keys[i]) == Dispatched(c.envs[i], TicketOf(b, c.keys[i])).0)
    && b'.active == b.active
    && b'.done == b.done + Sum(BackedWeight, c.envs)
    && b'.failed == b.failed + (|c.keys| - Sum(BackedWeight, c.envs))
  }

  ghost predicate Reconciles(c: Cycle, b: Board, b': Board)
    requires Proper(c, b)
  {
    && SameElsewhere(c, b, b')
    && (forall i | 0 <= i < |c.keys| ::
          TicketOf(b', c.keys[i]) == Reconciled(c.envs[i], TicketOf(b, c.keys[i])))
    && b'.active == b.active && b'.done == b.done && b'.failed == b.failed
  }

  // ----- The goroutines -----

  datatype PC =
    | Waiting | Normalizing | Skipping | Starting | Cleaning | Launching | FailingClosed
    | Working(n: nat) | Reading | Handling(read: File)
    | Returning(ok: bool)   // dispatchTicket has returned
    | Counted(ok: bool)     // Done or Failed is added
    | Released(ok: bool)    // Active is given back
    | Exited(ok: bool)      // the wait group knows

  predicate Finished(pc: PC) {
    pc.Returning? || pc.Counted? || pc.Released? || pc.Exited?
  }

  predicate InDispatch(pc: PC) {
    pc != Waiting && !Finished(pc)
  }

  /** One atomic step inside `dispatchTicket`. */
  function Step(env: Env, pc: PC, t: Ticket): (PC, Ticket)
    requires InDispatch(pc)
  {
    match pc
    case Normalizing =>
      if env.normalization == NoTargetFiles then (Skipping, Moved(t, NeedsHumanContext, env.firstAccepted))
      else (Starting, t)
    case Skipping => (Returning(false), t.(file := Holds(MISSING_TARGET)))
    case Starting =>
      if env.firstAccepted then (Cleaning, t.(status := InProgress)) else (Returning(false), t)
    case Cleaning => (Launching, t.(file := Missing))
    case Launching =>
      if env.binFound then (Working(0), t) else (FailingClosed, Moved(t, Paused, env.secondAccepted))
    case FailingClosed => (Returning(false), t.(file := Holds(MISSING_WORKER)))
    case Working(n) =>
      if n < |env.acts| then (Working(n + 1), Acted(t, env.acts[n])) else (Reading, t)
    case Reading => (Handling(t.file), t)
    case Handling(read) =>
      if read.Holds? then
        var (u, ok) := Handled(read.result, t, env.secondAccepted);
        (Returning(ok), u)
      else (Returning(false), Moved(t, Retrying, env.secondAccepted))
  }

  /** Steps left inside `dispatchTicket`. */
  function Left(env: Env, pc: PC): nat {
    match pc
    case Normalizing => 9 + |env.acts|
    case Starting => 8 + |env.acts|
    case Cleaning => 7 + |env.acts|
    case Launching => 6 + |env.acts|
    case Working(n) => if n <= |env.acts| then 5 + |env.acts| - n else 5
    case Reading => 4
    case Handling(_) => 3
    case Skipping | FailingClosed => 1
    case _ => 0
  }

  /** Where the rest of a dispatch takes its ticket when nothing else touches it. */
  function Remaining(env: Env, pc: PC, t: Ticket): (Ticket, bool)
    requires pc != Waiting
    decreases Left(env, pc)
  {
    if Finished(pc) then (t, pc.ok)
    else
      var (pc', t') := Step(env, pc, t);
      Remaining(env, pc', t')
  }

  lemma {:induction false} WorkingRemaining(env: Env, n: nat, t: Ticket)
    requires n <= |env.acts|
    ensures Remaining(env, Working(n), t) == AfterWorker(env, AllActed(t, env.acts[n..]))
    decreases |env.acts| - n
  {
    if n < |env.acts| {
      WorkingRemaining(env, n + 1, Acted(t, env.acts[n]));
      assert env.acts[n..][1..] == env.acts[n + 1..];
    } else {
      assert env.acts[n..] == [];
      assert Remaining(env, Working(n), t) == Remaining(env, Reading, t);
      assert Remaining(env, Reading, t) == Remaining(env, Handling(t.file), t);
      var (pc', t') := Step(env, Handling(t.file), t);
      assert Remaining(env, Handling(t.file), t) == Remaining(env, pc', t') == (t', pc'.ok);
    }
  }

  /** The steps of a dispatch, taken together, are the dispatch. */
  lemma StepsAreDispatch(env: Env, t: Ticket)
    ensures Remaining(env, Normalizing, t) == Dispatched(env, t)
  {
    if env.normalization == NoTargetFiles {
      var skipped := Moved(t, NeedsHumanContext, env.firstAccepted);
      assert Remaining(env, Normalizing, t) == Remaining(env, Skipping, skipped);
      assert Remaining(env, Skipping, skipped) == (skipped.(file := Holds(MISSING_TARGET)), false);
    } else {
      assert Remaining(env, Normalizing, t) == Remaining(env, Starting, t);
      if env.firstAccepted {
        var clean := Ticket(InProgress, Missing);
        assert Remaining(env, Starting, t) == Remaining(env, Cleaning, t.(status := InProgress));
        assert Remaining(env, Cleaning, t.(status := InProgress)) == Remaining(env, Launching, clean);
        if env.binFound {
          WorkingRemaining(env, 0, clean);
          assert env.acts[0..] == env.acts;
        } else {
          var closed := Moved(clean, Paused, env.secondAccepted);
          assert Remaining(env, Launching, clean) == Remaining(env, FailingClosed, closed);
          assert Remaining(env, FailingClosed, closed) == (closed.(file := Holds(MISSING_WORKER)), false);
        }
      } else {
        assert Remaining(env, Starting, t) == Remaining(env, Returning(false), t) == (t, false);
      }
    }
  }

  // ----- All goroutines together -----

  /** The cycle has launched the first `next` goroutines. */
  datatype State = State(board: Board, pcs: seq<PC>, next: nat)

  function Start(c: Cycle, b: Board): State {
    State(b, seq(|c.keys|, i => Waiting), 0)
  }

  predicate CanSpawn(s: State) {
    s.next < |s.pcs|
  }

  /** The main loop counts the goroutine as active and launches it. */
  function Spawn(s: State): State
    requires CanSpawn(s)
  {
    State(s.board.(active := s.board.active + 1), s.pcs[s.next := Normalizing], s.next + 1)
  }

  predicate CanRun(s: State, i: nat) {
    i < |s.pcs| && s.pcs[i] != Waiting && !s.pcs[i].Exited?
  }

  function Run(c: Cycle, s: State, i: nat): State
    requires CanRun(s, i) && |s.pcs| == |c.keys| == |c.envs| && c.keys[i] in s.board.jira
  {
    var b, pc := s.board, s.pcs[i];
    if pc.Returning? then
      State(if pc.ok then b.(done := b.done + 1) else b.(failed := b.failed + 1), s.pcs[i := Counted(pc.ok)], s.next)
    else if pc.Counted? then
      State(b.(active := b.active - 1), s.pcs[i := Released(pc.ok)], s.next)
    else if pc.Released? then
      State(b, s.pcs[i := Exited(pc.ok)], s.next)
    else
      var (pc', t) := Step(c.envs[i], pc, TicketOf(b, c.keys[i]));
      State(Put(b, c.keys[i], t), s.pcs[i := pc'], s.next)
  }

  ghost predicate Next(c: Cycle, s: State, s': State)
    requires |s.pcs| == |c.keys| == |c.envs| && forall k <- c.keys :: k in s.board.jira
  {
    || (CanSpawn(s) && s' == Spawn(s))
    || exists i: nat :: CanRun(s, i) && s' == Run(c, s, i)
  }

  predicate Quiescent(s: State) {
    forall i | 0 <= i < |s.pcs| :: s.pcs[i].Exited?
  }

  // ----- The invariant -----

  function ActiveWeight(pc: PC): int {
    if pc == Waiting || pc.Released? || pc.Exited? then 0 else 1
  }

  function DoneWeight(pc: PC): int {
    if (pc.Counted? || pc.Released? || pc.Exited?) && pc.ok then 1 else 0
  }

  function FailedWeight(pc: PC): int {
    if (pc.Counted? || pc.Released? || pc.Exited?) && !pc.ok then 1 else 0
  }

  ghost predicate Shape(c: Cycle, b: Board, s: State) {
    && Proper(c, b)
    && |s.pcs| == |c.keys| && s.next <= |s.pcs|
    && (forall i | 0 <= i < |s.pcs| :: s.pcs[i] == Waiting <==> s.next <= i)
    && SameElsewhere(c, b, s.board)
  }

  /** What is left of dispatch `i` still leads where the whole dispatch would have led. */
  ghost predicate OnCourse(c: Cycle, b: Board, s: State, i: nat)
    requires Shape(c, b, s) && i < |c.keys|
  {
    var now, start := TicketOf(s.board, c.keys[i]), TicketOf(b, c.keys[i]);
    if s.pcs[i] == Waiting then now == start
    else Remaining(c.envs[i], s.pcs[i], now) == Dispatched(c.envs[i], start)
  }

  ghost predicate CountersMatch(b: Board, s: State) {
    && s.board.active == b.active + Sum(ActiveWeight, s.pcs)
    && s.board.done == b.done + Sum(DoneWeight, s.pcs)
    && s.board.failed == b.failed + Sum(FailedWeight, s.pcs)
  }

  ghost predicate Inv(c: Cycle, b: Board, s: State) {
    && Shape(c, b, s)
    && (forall i | 0 <= i < |c.keys| :: OnCourse(c, b, s, i))
    && CountersMatch(b, s)
  }

  lemma {:induction false} SumWaiting(f: PC -> int, pcs: seq<PC>)
    requires f(Waiting) == 0 && forall i | 0 <= i < |pcs| :: pcs[i] == Waiting
    ensures Sum(f, pcs) == 0
  {
    if pcs != [] {
      SumWaiting(f, pcs[..|pcs| - 1]);
    }
  }

  lemma StartInv(c: Cycle, b: Board)
    requires Proper(c, b)
    ensures Inv(c, b, Start(c, b))
  {
    var s := Start(c, b);
    SumWaiting(ActiveWeight, s.pcs);
    SumWaiting(DoneWeight, s.pcs);
    SumWaiting(FailedWeight, s.pcs);
  }

  lemma SumsUpdate(pcs: seq<PC>, i: nat, pc: PC)
    requires i < |pcs|
    ensures Sum(ActiveWeight, pcs[i := pc]) == Sum(ActiveWeight, pcs) - ActiveWeight(pcs[i]) + ActiveWeight(pc)
    ensures Sum(DoneWeight, pcs[i := pc]) == Sum(DoneWeight, pcs) - DoneWeight(pcs[i]) + DoneWeight(pc)
    ensures Sum(FailedWeight, pcs[i := pc]) == Sum(FailedWeight, pcs) - FailedWeight(pcs[i]) + FailedWeight(pc)
  {
    SumUpdate(ActiveWeight, pcs, i, pc);
    SumUpdate(DoneWeight, pcs, i, pc);
    SumUpdate(FailedWeight, pcs, i, pc);
  }

  lemma SpawnKeepsInv(c: Cycle, b: Board, s: State)
    requires Inv(c, b, s) && CanSpawn(s)
    ensures Inv(c, b, Spawn(s))
  {
    var s' := Spawn(s);
    SumsUpdate(s.pcs, s.next, Normalizing);
    forall i | 0 <= i < |c.keys|
      ensures OnCourse(c, b, s', i)
    {
      assert OnCourse(c, b, s, i);
      assert TicketOf(s'.board, c.keys[i]) == TicketOf(s.board, c.keys[i]);
      StepsAreDispatch(c.envs[i], TicketOf(b, c.keys[i]));
    }
  }

  lemma RunKeepsShape(c: Cycle, b: Board, s: State, i: nat)
    requires Inv(c, b, s) && CanRun(s, i)
    ensures Shape(c, b, Run(c, s, i))
    ensures forall j | 0 <= j < |c.keys| && j != i ::
              TicketOf(Run(c, s, i).board, c.keys[j]) == TicketOf(s.board, c.keys[j])
  {
  }

  lemma RunKeepsCounters(c: Cycle, b: Board, s: State, i: nat)
    requires CanRun(s, i) && |s.pcs| == |c.keys| == |c.envs| && c.keys[i] in s.board.jira
    requires CountersMatch(b, s)
    ensures CountersMatch(b, Run(c, s, i))
  {
    var pc' := Run(c, s, i).pcs[i];
    assert Run(c, s, i).pcs == s.pcs[i := pc'];
    SumsUpdate(s.pcs, i, pc');
  }

  lemma RunKeepsInv(c: Cycle, b: Board, s: State, i: nat)
    requires Inv(c, b, s) && CanRun(s, i)
    ensures Inv(c, b, Run(c, s, i))
  {
    var s' := Run(c, s, i);
    RunKeepsShape(c, b, s, i);
    RunKeepsCounters(c, b, s, i);
    forall j | 0 <= j < |c.keys|
      ensures OnCourse(c, b, s', j)
    {
      assert OnCourse(c, b, s, j);
    }
  }

  lemma NextKeepsInv(c: Cycle, b: Board, s: State, s': State)
    requires Inv(c, b, s) && Next(c, s, s')
    ensures Inv(c, b, s')
  {
    if CanSpawn(s) && s' == Spawn(s) {
      SpawnKeepsInv(c, b, s);
    } else {
      var i: nat :| CanRun(s, i) && s' == Run(c, s, i);
      RunKeepsInv(c, b, s, i);
    }
  }

  // ----- Every interleaving -----

  /** A run: any order of launches and goroutine steps, stopped anywhere. */
  ghost predicate IsRun(c: Cycle, b: Board, run: seq<State>)
    requires Proper(c, b)
  {
    && run != [] && run[0] == Start(c, b)
    && forall n | 0 < n < |run| :: Steps(c, run[n - 1], run[n])
  }

  ghost predicate Steps(c: Cycle, s: State, s': State) {
    |s.pcs| == |c.keys| == |c.envs| && (forall k <- c.keys :: k in s.board.jira) && Next(c, s, s')
  }

  lemma {:induction false} RunsKeepInv(c: Cycle, b: Board, run: seq<State>, n: nat)
    requires Proper(c, b) && IsRun(c, b, run) && n < |run|
    ensures Inv(c, b, run[n])
  {
    if n == 0 {
      StartInv(c, b);
    } else {
      RunsKeepInv(c, b, run, n - 1);
      assert Steps(c, run[n - 1], run[n]);
      NextKeepsInv(c, b, run[n - 1], run[n]);
    }
  }

  /** Active never leaves its bounds, whatever the order of the steps. */
  lemma ActiveInBounds(c: Cycle, b: Board, run: seq<State>, n: nat, desired: int)
    requires Proper(c, b) && IsRun(c, b, run) && n < |run|
    requires |c.keys| <= desired - b.active
    ensures b.active <= run[n].board.active <= desired
  {
    RunsKeepInv(c, b, run, n);
    SumBounds(ActiveWeight, run[n].pcs);
  }

  lemma QuiescentSums(c: Cycle, b: Board, s: State)
    requires Inv(c, b, s) && Quiescent(s)
    ensures Sum(ActiveWeight, s.pcs) == 0
    ensures Sum(DoneWeight, s.pcs) == Sum(BackedWeight, c.envs)
    ensures Sum(FailedWeight, s.pcs) == |c.keys| - Sum(BackedWeight, c.envs)
  {
    var zero := (pc: PC) => 0;
    SumMatch(ActiveWeight, s.pcs, zero, s.pcs);
    ZeroSum(s.pcs);
    forall i | 0 <= i < |s.pcs|
      ensures DoneWeight(s.pcs[i]) == BackedWeight(c.envs[i])
    {
      assert OnCourse(c, b, s, i);
      TrueMeansBacked(c.envs[i], TicketOf(b, c.keys[i]));
    }
    SumMatch(DoneWeight, s.pcs, BackedWeight, c.envs);
    SumSplit(DoneWeight, FailedWeight, s.pcs);
  }

  lemma {:induction false} ZeroSum(pcs: seq<PC>)
    ensures Sum((pc: PC) => 0, pcs) == 0
  {
    if pcs != [] {
      ZeroSum(pcs[..|pcs| - 1]);
    }
  }

  /** However the goroutines interleave, once the wait group lets the cycle go on, the board is
      what the dispatches taken one at a time would have made it. */
  lemma EveryInterleaving(c: Cycle, b: Board, run: seq<State>)
    requires Proper(c, b) && IsRun(c, b, run) && Quiescent(run[|run| - 1])
    ensures Dispatches(c, b, run[|run| - 1].board)
  {
    var s := run[|run| - 1];
    RunsKeepInv(c, b, run, |run| - 1);
    QuiescentSums(c, b, s);
    forall i | 0 <= i < |c.keys|
      ensures TicketOf(s.board, c.keys[i]) == Dispatched(c.envs[i], TicketOf(b, c.keys[i])).0
    {
      assert OnCourse(c, b, s, i);
    }
  }

  /** Until every goroutine has left, some step can be taken. */
  lemma NeverBlocked(c: Cycle, b: Board, run: seq<State>) returns (s': State)
    requires Proper(c, b) && IsRun(c, b, run) && !Quiescent(run[|run| - 1])
    ensures Steps(c, run[|run| - 1], s')
  {
    var s := run[|run| - 1];
    RunsKeepInv(c, b, run, |run| - 1);
    var i :| 0 <= i < |s.pcs| && !s.pcs[i].Exited?;
    if CanSpawn(s) {
      s' := Spawn(s);
    } else {
      assert CanRun(s, i);
      s' := Run(c, s, i);
    }
  }

  /** Steps a goroutine may still take, its launch included. */
  function Work(p: (Env, PC)): int {
    match p.1
    case Waiting => 13 + |p.0.acts|
    case Returning(_) => 3
    case Counted(_) => 2
    case Released(_) => 1
    case Exited(_) => 0
    case pc => 3 + Left(p.0, pc)
  }

  function Paired(c: Cycle, pcs: seq<PC>): seq<(Env, PC)>
    requires |pcs| == |c.envs|
  {
    seq(|pcs|, i requires 0 <= i < |pcs| => (c.envs[i], pcs[i]))
  }

  lemma PairedUpdate(c: Cycle, pcs: seq<PC>, i: nat, pc: PC)
    requires |pcs| == |c.envs| && i < |pcs|
    ensures Sum(Work, Paired(c, pcs[i := pc])) ==
            Sum(Work, Paired(c, pcs)) - Work((c.envs[i], pcs[i])) + Work((c.envs[i], pc))
  {
    assert Paired(c, pcs[i := pc]) == Paired(c, pcs)[i := (c.envs[i], pc)];
    SumUpdate(Work, Paired(c, pcs), i, (c.envs[i], pc));
  }

  lemma StepUsesWork(env: Env, pc: PC, t: Ticket)
    requires InDispatch(pc)
    ensures Work((env, Step(env, pc, t).0)) < Work((env, pc))
  {
  }

  lemma StepWorks(c: Cycle, s: State, s': State)
    requires Steps(c, s, s')
    requires CanSpawn(s) ==> s.pcs[s.next] == Waiting
    ensures |s'.pcs| == |s.pcs| && Sum(Work, Paired(c, s'.pcs)) < Sum(Work, Paired(c, s.pcs))
  {
    if CanSpawn(s) && s' == Spawn(s) {
      PairedUpdate(c, s.pcs, s.next, Normalizing);
    } else {
      var i: nat :| CanRun(s, i) && s' == Run(c, s, i);
      var pc' := s'.pcs[i];
      assert s'.pcs == s.pcs[i := pc'];
      if InDispatch(s.pcs[i]) {
        StepUsesWork(c.envs[i], s.pcs[i], TicketOf(s.board, c.keys[i]));
      }
      PairedUpdate(c, s.pcs, i, pc');
    }
  }

  lemma {:induction false} WorkShrinks(c: Cycle, b: Board, run: seq<State>, n: nat)
    requires Proper(c, b) && IsRun(c, b, run) && n < |run|
    ensures |run[n].pcs| == |c.envs|
    ensures Sum(Work, Paired(c, run[n].pcs)) <= Sum(Work, Paired(c, run[0].pcs)) - n
  {
    if n > 0 {
      WorkShrinks(c, b, run, n - 1);
      RunsKeepInv(c, b, run, n - 1);
      assert Steps(c, run[n - 1], run[n]);
      StepWorks(c, run[n - 1], run[n]);
    }
  }

  lemma {:induction false} WorkIsPositive(s: seq<(Env, PC)>)
    ensures Sum(Work, s) >= 0
  {
    if s != [] {
      WorkIsPositive(s[..|s| - 1]);
    }
  }

  /** No run outlasts the work it starts with, so every wait ends, and it ends quiescent. */
  lemma RunsAreFinite(c: Cycle, b: Board, run: seq<State>)
    requires Proper(c, b) && IsRun(c, b, run)
    ensures |run| <= Sum(Work, Paired(c, Start(c, b).pcs)) + 1
  {
    WorkShrinks(c, b, run, |run| - 1);
    WorkIsPositive(Paired(c, run[|run| - 1].pcs));
  }

  // ----- All at once -----

  /** The main loop waits for nobody: all tickets picked can be in dispatch at the same time. */
  lemma {:induction false} AllAtOnce(c: Cycle, b: Board, n: nat) returns (run: seq<State>)
    requires Proper(c, b) && n <= |c.keys|
    ensures IsRun(c, b, run) && |run| == n + 1
    ensures run[n].next == n && run[n].board == b.(active := b.active + n)
    ensures |run[n].pcs| == |c.keys| && forall i | 0 <= i < n :: run[n].pcs[i] == Normalizing
  {
    if n == 0 {
      run := [Start(c, b)];
    } else {
      var front := AllAtOnce(c, b, n - 1);
      RunsKeepInv(c, b, front, n - 1);
      var s := front[n - 1];
      run := front + [Spawn(s)];
      assert Steps(c, s, Spawn(s));
      forall m | 0 < m < |run|
        ensures Steps(c, run[m - 1], run[m])
      {
        if m < n {
          assert run[m - 1] == front[m - 1] && run[m] == front[m] && Steps(c, front[m - 1], front[m]);
        }
      }
    }
  }

  /** The first steps of a dispatch that launches its worker, one by one: the ticket is In Progress
      before its old result is removed, and the result is gone before the worker acts. */
  lemma FirstSteps(env: Env, t: Ticket)
    requires Launched(env)
    ensures Step(env, Normalizing, t) == (Starting, t)
    ensures Step(env, Starting, t) == (Cleaning, Ticket(InProgress, t.file))
    ensures Step(env, Cleaning, Ticket(InProgress, t.file)) == (Launching, Ticket(InProgress, Missing))
    ensures Step(env, Launching, Ticket(InProgress, Missing)) == (Working(0), Ticket(InProgress, Missing))
  {
  }

  // ----- Reconciliation, and any number of cycles -----

  /** One whole cycle: the dispatches in some interleaving, then the reconciler. */
  ghost predicate CycleStep(c: Cycle, b: Board, b': Board) {
    && Proper(c, b)
    && exists mid :: Dispatches(c, b, mid) && Proper(c, mid) && Reconciles(c, mid, b')
  }

  /** No cycle leaves a ticket it dispatched In Progress, and the counters say what happened. */
  lemma AfterCycle(c: Cycle, b: Board, b': Board)
    requires CycleStep(c, b, b')
    ensures forall i | 0 <= i < |c.keys| ::
              TicketOf(b', c.keys[i]) == Cycled(c.envs[i], TicketOf(b, c.keys[i]))
    ensures SameElsewhere(c, b, b')
    ensures b'.active == b.active
    ensures b'.done == b.done + Sum(BackedWeight, c.envs)
    ensures b'.done + b'.failed == b.done + b.failed + |c.keys|
    ensures forall i | 0 <= i < |c.keys| && Answers(c.envs[i]) && b.jira[c.keys[i]] != InProgress ::
              b'.jira[c.keys[i]] != InProgress
  {
    var mid :| Dispatches(c, b, mid) && Proper(c, mid) && Reconciles(c, mid, b');
    forall i | 0 <= i < |c.keys| && Answers(c.envs[i]) && b.jira[c.keys[i]] != InProgress
      ensures b'.jira[c.keys[i]] != InProgress
    {
      NeverStuck(c.envs[i], TicketOf(b, c.keys[i]));
      assert TicketOf(b', c.keys[i]).status == b'.jira[c.keys[i]];
    }
  }

  function TotalBacked(cycles: seq<Cycle>): int {
    if cycles == [] then 0
    else TotalBacked(cycles[..|cycles| - 1]) + Sum(BackedWeight, cycles[|cycles| - 1].envs)
  }

  function TotalDispatched(cycles: seq<Cycle>): int {
    if cycles == [] then 0 else TotalDispatched(cycles[..|cycles| - 1]) + |cycles[|cycles| - 1].keys|
  }

  ghost predicate History(cycles: seq<Cycle>, boards: seq<Board>) {
    && |boards| == |cycles| + 1
    && forall n | 0 <= n < |cycles| :: CycleStep(cycles[n], boards[n], boards[n + 1])
  }

  lemma CycleCounts(c: Cycle, b: Board, b': Board)
    requires CycleStep(c, b, b')
    ensures b'.active == b.active
    ensures b'.done == b.done + Sum(BackedWeight, c.envs)
    ensures b'.done + b'.failed == b.done + b.failed + |c.keys|
  {
    AfterCycle(c, b, b');
  }

  lemma HistoryPrefix(cycles: seq<Cycle>, boards: seq<Board>)
    requires History(cycles, boards) && cycles != []
    ensures History(cycles[..|cycles| - 1], boards[..|cycles|])
    ensures CycleStep(cycles[|cycles| - 1], boards[|cycles| - 1], boards[|cycles|])
  {
    forall m | 0 <= m < |cycles| - 1
      ensures CycleStep(cycles[..|cycles| - 1][m], boards[..|cycles|][m], boards[..|cycles|][m + 1])
    {
      assert CycleStep(cycles[m], boards[m], boards[m + 1]);
    }
    var n := |cycles| - 1;
    assert CycleStep(cycles[n], boards[n], boards[n + 1]);
  }

  /** Over any sequence of cycles Done counts exactly the backed dispatches, Done and Failed together
      count all of them, and every cycle starts with no goroutine active if the first one did. */
  lemma {:induction false} HistoryCounts(cycles: seq<Cycle>, boards: seq<Board>)
    requires History(cycles, boards)
    ensures boards[|cycles|].done == boards[0].done + TotalBacked(cycles)
    ensures boards[|cycles|].done + boards[|cycles|].failed ==
            boards[0].done + boards[0].failed + TotalDispatched(cycles)
    ensures boards[|cycles|].active == boards[0].active
    decreases |cycles|
  {
    if cycles != [] {
      var n := |cycles| - 1;
      HistoryPrefix(cycles, boards);
      CycleCounts(cycles[n], boards[n], boards[n + 1]);
      HistoryCounts(cycles[..n], boards[..n + 1]);
    }
  }
}
