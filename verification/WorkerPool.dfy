/** The semaphore-bounded pool that runs the batch tasks, as interleaved atomic steps. */
module WorkerPool {
  import opened Wrappers
  import opened Sums

  /** Where a task's goroutine is; `ok` is the success flag of its result. */
  datatype PC =
    | Idle
    | Live                // holds a slot, working
    | Scored(ok: bool)    // a success is added to the counter
    | Stored(ok: bool)    // the result is in its slot
    | Released(ok: bool)  // the semaphore slot is free again
    | Exited(ok: bool)    // the wait group knows

  /** `added`: the main loop has called Add for task `next` and waits for a slot. */
  datatype State = State(pcs: seq<PC>, next: nat, added: bool, tokens: int, waiting: int,
                         succeeded: int, results: seq<Option<bool>>)

  function Start(tasks: nat): State {
    State(seq(tasks, i => Idle), 0, false, 0, 0, 0, seq(tasks, i => None))
  }

  // ----- The steps -----

  predicate CanAdd(s: State) {
    s.next < |s.pcs| && !s.added
  }

  function Add(s: State): State {
    s.(added := true, waiting := s.waiting + 1)
  }

  /** Sending into the semaphore blocks while all slots are taken. */
  predicate CanLaunch(s: State, workers: nat) {
    s.next < |s.pcs| && s.added && s.tokens < workers
  }

  function Launch(s: State): State
    requires s.next < |s.pcs|
  {
    s.(added := false, tokens := s.tokens + 1, pcs := s.pcs[s.next := Live], next := s.next + 1)
  }

  predicate CanRun(s: State, i: nat) {
    i < |s.pcs| && s.pcs[i] != Idle && !s.pcs[i].Exited?
  }

  /** One step of goroutine `i`; `ok` is how its task turns out, if this is where that shows. */
  function Run(s: State, i: nat, ok: bool): State
    requires CanRun(s, i) && |s.results| == |s.pcs|
  {
    var pc := s.pcs[i];
    if pc == Live then
      s.(succeeded := if ok then s.succeeded + 1 else s.succeeded, pcs := s.pcs[i := Scored(ok)])
    else if pc.Scored? then
      s.(results := s.results[i := Some(pc.ok)], pcs := s.pcs[i := Stored(pc.ok)])
    else if pc.Stored? then
      s.(tokens := s.tokens - 1, pcs := s.pcs[i := Released(pc.ok)])
    else
      s.(waiting := s.waiting - 1, pcs := s.pcs[i := Exited(pc.ok)])
  }

  ghost predicate Next(workers: nat, s: State, s': State) {
    && |s.results| == |s.pcs|
    && (|| (CanAdd(s) && s' == Add(s))
        || (CanLaunch(s, workers) && s' == Launch(s))
        || exists i: nat, ok: bool :: CanRun(s, i) && s' == Run(s, i, ok))
  }

  ghost predicate IsRun(tasks: nat, workers: nat, run: seq<State>) {
    && run != [] && run[0] == Start(tasks)
    && forall n | 0 < n < |run| :: Next(workers, run[n - 1], run[n])
  }

  /** Everything is launched and `wg.Wait` returns. */
  predicate Over(s: State) {
    s.next == |s.pcs| && s.waiting == 0
  }

  // ----- The invariant -----

  function TokenWeight(pc: PC): int {
    if pc == Live || pc.Scored? || pc.Stored? then 1 else 0
  }

  function WaitWeight(pc: PC): int {
    if pc == Idle || pc.Exited? then 0 else 1
  }

  function SuccessWeight(pc: PC): int {
    if pc != Idle && pc != Live && pc.ok then 1 else 0
  }

  predicate SlotFits(pc: PC, slot: Option<bool>) {
    if pc == Idle || pc == Live || pc.Scored? then slot == None else slot == Some(pc.ok)
  }

  ghost predicate Inv(tasks: nat, workers: nat, s: State) {
    && |s.pcs| == |s.results| == tasks && s.next <= tasks
    && (forall i | 0 <= i < tasks :: s.pcs[i] == Idle <==> s.next <= i)
    && (forall i | 0 <= i < tasks :: SlotFits(s.pcs[i], s.results[i]))
    && (s.added ==> s.next < tasks)
    && s.tokens == Sum(TokenWeight, s.pcs) && s.tokens <= workers
    && s.waiting == Sum(WaitWeight, s.pcs) + (if s.added then 1 else 0)
    && s.succeeded == Sum(SuccessWeight, s.pcs)
  }

  lemma {:induction false} IdleSum(f: PC -> int, pcs: seq<PC>)
    requires f(Idle) == 0 && forall i | 0 <= i < |pcs| :: pcs[i] == Idle
    ensures Sum(f, pcs) == 0
  {
    if pcs != [] {
      IdleSum(f, pcs[..|pcs| - 1]);
    }
  }

  lemma StartInv(tasks: nat, workers: nat)
    ensures Inv(tasks, workers, Start(tasks))
  {
    var s := Start(tasks);
    IdleSum(TokenWeight, s.pcs);
    IdleSum(WaitWeight, s.pcs);
    IdleSum(SuccessWeight, s.pcs);
  }

  lemma SumsUpdate(pcs: seq<PC>, i: nat, pc: PC)
    requires i < |pcs|
    ensures Sum(TokenWeight, pcs[i := pc]) == Sum(TokenWeight, pcs) - TokenWeight(pcs[i]) + TokenWeight(pc)
    ensures Sum(WaitWeight, pcs[i := pc]) == Sum(WaitWeight, pcs) - WaitWeight(pcs[i]) + WaitWeight(pc)
    ensures Sum(SuccessWeight, pcs[i := pc]) == Sum(SuccessWeight, pcs) - SuccessWeight(pcs[i]) + SuccessWeight(pc)
  {
    SumUpdate(TokenWeight, pcs, i, pc);
    SumUpdate(WaitWeight, pcs, i, pc);
    SumUpdate(SuccessWeight, pcs, i, pc);
  }

  lemma LaunchKeepsInv(tasks: nat, workers: nat, s: State)
    requires Inv(tasks, workers, s) && CanLaunch(s, workers)
    ensures Inv(tasks, workers, Launch(s))
  {
    SumsUpdate(s.pcs, s.next, Live);
  }

  /** A goroutine's step keeps the shape: who is launched, and which slots are filled. */
  lemma RunKeepsSlots(tasks: nat, workers: nat, s: State, i: nat, ok: bool)
    requires Inv(tasks, workers, s) && CanRun(s, i)
    ensures var s' := Run(s, i, ok);
      && |s'.pcs| == |s'.results| == tasks
      && (forall j | 0 <= j < tasks :: s'.pcs[j] == Idle <==> s.next <= j)
      && (forall j | 0 <= j < tasks :: SlotFits(s'.pcs[j], s'.results[j]))
  {
    var s' := Run(s, i, ok);
    assert SlotFits(s.pcs[i], s.results[i]) && (s.pcs[i] == Idle <==> s.next <= i);
    forall j | 0 <= j < tasks
      ensures s'.pcs[j] == Idle <==> s.next <= j
      ensures SlotFits(s'.pcs[j], s'.results[j])
    {
      assert SlotFits(s.pcs[j], s.results[j]) && (s.pcs[j] == Idle <==> s.next <= j);
    }
  }

  lemma RunKeepsCounters(s: State, i: nat, ok: bool)
    requires CanRun(s, i) && |s.results| == |s.pcs|
    requires s.tokens == Sum(TokenWeight, s.pcs) && s.succeeded == Sum(SuccessWeight, s.pcs)
    requires s.waiting == Sum(WaitWeight, s.pcs) + (if s.added then 1 else 0)
    ensures var s' := Run(s, i, ok);
      && s'.tokens == Sum(TokenWeight, s'.pcs) <= s.tokens
      && s'.succeeded == Sum(SuccessWeight, s'.pcs)
      && s'.waiting == Sum(WaitWeight, s'.pcs) + (if s'.added then 1 else 0)
  {
    var pc' := Run(s, i, ok).pcs[i];
    assert Run(s, i, ok).pcs == s.pcs[i := pc'];
    SumsUpdate(s.pcs, i, pc');
  }

  lemma RunKeepsInv(tasks: nat, workers: nat, s: State, i: nat, ok: bool)
    requires Inv(tasks, workers, s) && CanRun(s, i)
    ensures Inv(tasks, workers, Run(s, i, ok))
  {
    RunKeepsSlots(tasks, workers, s, i, ok);
    RunKeepsCounters(s, i, ok);
  }

  lemma NextKeepsInv(tasks: nat, workers: nat, s: State, s': State)
    requires Inv(tasks, workers, s) && Next(workers, s, s')
    ensures Inv(tasks, workers, s')
  {
    if CanAdd(s) && s' == Add(s) {
    } else if CanLaunch(s, workers) && s' == Launch(s) {
      LaunchKeepsInv(tasks, workers, s);
    } else {
      var i: nat, ok: bool :| CanRun(s, i) && s' == Run(s, i, ok);
      RunKeepsInv(tasks, workers, s, i, ok);
    }
  }

  lemma {:induction false} RunsKeepInv(tasks: nat, workers: nat, run: seq<State>, n: nat)
    requires IsRun(tasks, workers, run) && n < |run|
    ensures Inv(tasks, workers, run[n])
  {
    if n == 0 {
      StartInv(tasks, workers);
    } else {
      RunsKeepInv(tasks, workers, run, n - 1);
      NextKeepsInv(tasks, workers, run[n - 1], run[n]);
    }
  }

  // ----- What every interleaving gives -----

  /** At no moment do more than `workers` tasks hold a slot. */
  lemma AtMostWorkersLive(tasks: nat, workers: nat, run: seq<State>, n: nat)
    requires IsRun(tasks, workers, run) && n < |run|
    ensures Sum(TokenWeight, run[n].pcs) <= workers
  {
    RunsKeepInv(tasks, workers, run, n);
  }

  /** A result slot is written at most once: a step that changes it finds it empty. */
  lemma SlotsAreWrittenOnce(tasks: nat, workers: nat, run: seq<State>, n: nat, i: nat)
    requires IsRun(tasks, workers, run) && 0 < n < |run| && i < tasks
    ensures |run[n - 1].results| == |run[n].results| == tasks
    ensures run[n].results[i] != run[n - 1].results[i] ==> run[n - 1].results[i] == None
  {
    RunsKeepInv(tasks, workers, run, n - 1);
    RunsKeepInv(tasks, workers, run, n);
    assert Next(workers, run[n - 1], run[n]);
  }

  function ResultWeight(r: Option<bool>): int {
    if r == Some(true) then 1 else 0
  }

  lemma {:induction false} ZeroWeights(f: PC -> int, pcs: seq<PC>)
    requires (forall pc :: f(pc) >= 0) && Sum(f, pcs) == 0
    ensures forall i | 0 <= i < |pcs| :: f(pcs[i]) == 0
  {
    if pcs != [] {
      NonnegativeSum(f, pcs[..|pcs| - 1]);
      ZeroWeights(f, pcs[..|pcs| - 1]);
    }
  }

  lemma {:induction false} NonnegativeSum(f: PC -> int, pcs: seq<PC>)
    requires forall pc :: f(pc) >= 0
    ensures Sum(f, pcs) >= 0
  {
    if pcs != [] {
      NonnegativeSum(f, pcs[..|pcs| - 1]);
    }
  }

  /** When the wait is over every slot holds its task's result, no slot of the semaphore is taken,
      and the counter is the number of results marked as success. */
  lemma OverMeansComplete(tasks: nat, workers: nat, run: seq<State>)
    requires IsRun(tasks, workers, run) && Over(run[|run| - 1])
    ensures var s := run[|run| - 1];
            && |s.pcs| == |s.results| == tasks
            && (forall i | 0 <= i < tasks :: s.pcs[i].Exited? && s.results[i] == Some(s.pcs[i].ok))
            && s.tokens == 0
            && s.succeeded == Sum(ResultWeight, s.results)
  {
    var s := run[|run| - 1];
    RunsKeepInv(tasks, workers, run, |run| - 1);
    ZeroWeights(WaitWeight, s.pcs);
    assert forall i | 0 <= i < tasks :: WaitWeight(s.pcs[i]) == 0;
    SumMatch(TokenWeight, s.pcs, WaitWeight, s.pcs);
    SumMatch(SuccessWeight, s.pcs, ResultWeight, s.results);
  }

  // ----- Progress -----

  ghost predicate Stuck(workers: nat, s: State) {
    !Over(s) && forall s' :: !Next(workers, s, s')
  }

  lemma LiveMeansRunnable(tasks: nat, workers: nat, s: State) returns (i: nat)
    requires Inv(tasks, workers, s) && Sum(WaitWeight, s.pcs) > 0
    ensures CanRun(s, i)
  {
    i := SomeWeight(WaitWeight, s.pcs);
  }

  lemma {:induction false} SomeWeight(f: PC -> int, pcs: seq<PC>) returns (i: nat)
    requires Sum(f, pcs) > 0
    ensures i < |pcs| && f(pcs[i]) > 0
  {
    if f(pcs[|pcs| - 1]) > 0 {
      i := |pcs| - 1;
    } else {
      i := SomeWeight(f, pcs[..|pcs| - 1]);
    }
  }

  lemma {:induction false} TokensWait(pcs: seq<PC>)
    ensures Sum(TokenWeight, pcs) <= Sum(WaitWeight, pcs)
  {
    if pcs != [] {
      TokensWait(pcs[..|pcs| - 1]);
    }
  }

  lemma NotStuck(tasks: nat, workers: nat, s: State)
    requires Inv(tasks, workers, s) && (workers >= 1 || tasks == 0)
    ensures !Stuck(workers, s)
  {
    if !Over(s) {
      if CanAdd(s) {
        assert Next(workers, s, Add(s));
      } else if CanLaunch(s, workers) {
        assert Next(workers, s, Launch(s));
      } else {
        TokensWait(s.pcs);
        if s.next == |s.pcs| {
          assert s.waiting != 0;
          NonnegativeSum(WaitWeight, s.pcs);
        } else {
          assert s.tokens >= workers >= 1;
        }
        var i := LiveMeansRunnable(tasks, workers, s);
        assert Next(workers, s, Run(s, i, true));
      }
    }
  }

  /** The state after the first Add: with no slot at all, nothing can follow it. */
  lemma NoWorkersIsStuck(tasks: nat)
    requires tasks > 0
    ensures IsRun(tasks, 0, [Start(tasks), Add(Start(tasks))]) && Stuck(0, Add(Start(tasks)))
  {
    var s := Start(tasks);
    var run := [s, Add(s)];
    assert Next(0, run[0], run[1]);
  }

  /** The pool never deadlocks if and only if it has a worker, or nothing to do. */
  lemma DeadlockFree(tasks: nat, workers: nat)
    ensures (forall run | IsRun(tasks, workers, run) :: !Stuck(workers, run[|run| - 1])) <==>
            workers >= 1 || tasks == 0
  {
    if workers >= 1 || tasks == 0 {
      forall run | IsRun(tasks, workers, run)
        ensures !Stuck(workers, run[|run| - 1])
      {
        RunsKeepInv(tasks, workers, run, |run| - 1);
        NotStuck(tasks, workers, run[|run| - 1]);
      }
    } else {
      NoWorkersIsStuck(tasks);
      var run := [Start(tasks), Add(Start(tasks))];
      assert IsRun(tasks, workers, run) && Stuck(workers, run[|run| - 1]);
    }
  }

  // ----- Every run ends -----

  function Work(pc: PC): int {
    match pc
    case Idle => 6
    case Live => 4
    case Scored(_) => 3
    case Stored(_) => 2
    case Released(_) => 1
    case Exited(_) => 0
  }

  function WorkLeft(s: State): int {
    Sum(Work, s.pcs) - if s.added then 1 else 0
  }

  lemma StepUsesWork(tasks: nat, workers: nat, s: State, s': State)
    requires Inv(tasks, workers, s) && Next(workers, s, s')
    ensures WorkLeft(s') < WorkLeft(s)
  {
    if CanAdd(s) && s' == Add(s) {
    } else if CanLaunch(s, workers) && s' == Launch(s) {
      SumUpdate(Work, s.pcs, s.next, Live);
    } else {
      var i: nat, ok: bool :| CanRun(s, i) && s' == Run(s, i, ok);
      SumUpdate(Work, s.pcs, i, s'.pcs[i]);
    }
  }

  lemma {:induction false} IdleWork(pcs: seq<PC>)
    requires forall i | 0 <= i < |pcs| :: pcs[i] == Idle
    ensures Sum(Work, pcs) == 6 * |pcs|
  {
    if pcs != [] {
      IdleWork(pcs[..|pcs| - 1]);
    }
  }

  lemma {:induction false} RunUsesWork(tasks: nat, workers: nat, run: seq<State>, n: nat)
    requires IsRun(tasks, workers, run) && n < |run|
    ensures WorkLeft(run[n]) <= 6 * tasks - n
  {
    if n == 0 {
      IdleWork(run[0].pcs);
    } else {
      RunUsesWork(tasks, workers, run, n - 1);
      RunsKeepInv(tasks, workers, run, n - 1);
      assert Next(workers, run[n - 1], run[n]);
      StepUsesWork(tasks, workers, run[n - 1], run[n]);
    }
  }

  /** No run is longer than six steps a task. */
  lemma RunsAreFinite(tasks: nat, workers: nat, run: seq<State>)
    requires IsRun(tasks, workers, run)
    ensures |run| <= 6 * tasks + 1
  {
    var s := run[|run| - 1];
    RunUsesWork(tasks, workers, run, |run| - 1);
    RunsKeepInv(tasks, workers, run, |run| - 1);
    NonnegativeSum(Work, s.pcs);
    if s.added {
      SumUpdate(Work, s.pcs, s.next, Exited(true));
      NonnegativeSum(Work, s.pcs[s.next := Exited(true)]);
    }
  }

  // ----- All places are used -----

  /** The pool runs as many tasks at once as it has places, and does not wait before: so many can be
      live together, for every number up to the places and the tasks. */
  lemma {:induction false} AllPlacesUsable(tasks: nat, workers: nat, n: nat) returns (run: seq<State>)
    requires n <= tasks && n <= workers
    ensures IsRun(tasks, workers, run)
    ensures var s := run[|run| - 1];
            s.next == n && !s.added && |s.pcs| == |s.results| == tasks && s.tokens == n == Sum(TokenWeight, s.pcs)
  {
    if n == 0 {
      run := [Start(tasks)];
      StartInv(tasks, workers);
    } else {
      var front := AllPlacesUsable(tasks, workers, n - 1);
      var s := front[|front| - 1];
      RunsKeepInv(tasks, workers, front, |front| - 1);
      var longer := OneMore(tasks, workers, front, Add(s));
      run := OneMore(tasks, workers, longer, Launch(Add(s)));
      RunsKeepInv(tasks, workers, run, |run| - 1);
    }
  }

  lemma OneMore(tasks: nat, workers: nat, run: seq<State>, s: State) returns (longer: seq<State>)
    requires IsRun(tasks, workers, run) && Next(workers, run[|run| - 1], s)
    ensures IsRun(tasks, workers, longer) && longer == run + [s]
  {
    longer := run + [s];
    forall n | 0 < n < |longer|
      ensures Next(workers, longer[n - 1], longer[n])
    {
      if n < |run| {
        assert longer[n - 1] == run[n - 1] && longer[n] == run[n];
      }
    }
  }

  // ----- The results are the tasks' own -----

  /** Task `i` turns out as `outcome(i)`. */
  ghost predicate Decided(workers: nat, outcome: nat -> bool, s: State, s': State) {
    && |s.results| == |s.pcs|
    && (|| (CanAdd(s) && s' == Add(s))
        || (CanLaunch(s, workers) && s' == Launch(s))
        || exists i: nat :: CanRun(s, i) && s' == Run(s, i, outcome(i)))
  }

  ghost predicate IsDecidedRun(tasks: nat, workers: nat, outcome: nat -> bool, run: seq<State>) {
    && IsRun(tasks, workers, run)
    && forall n | 0 < n < |run| :: Decided(workers, outcome, run[n - 1], run[n])
  }

  lemma {:induction false} FlagsAreOutcomes(tasks: nat, workers: nat, outcome: nat -> bool, run: seq<State>, n: nat)
    requires IsDecidedRun(tasks, workers, outcome, run) && n < |run|
    ensures forall i | 0 <= i < |run[n].pcs| && run[n].pcs[i] != Idle && run[n].pcs[i] != Live ::
              run[n].pcs[i].ok == outcome(i)
  {
    if n > 0 {
      FlagsAreOutcomes(tasks, workers, outcome, run, n - 1);
      assert Decided(workers, outcome, run[n - 1], run[n]);
    }
  }

  /** When all is over slot `i` holds how task `i` turned out, in whatever order they finished. */
  lemma SlotsHoldOutcomes(tasks: nat, workers: nat, outcome: nat -> bool, run: seq<State>)
    requires IsDecidedRun(tasks, workers, outcome, run) && Over(run[|run| - 1])
    ensures var results := run[|run| - 1].results;
            |results| == tasks && forall i | 0 <= i < tasks :: results[i] == Some(outcome(i))
  {
    OverMeansComplete(tasks, workers, run);
    FlagsAreOutcomes(tasks, workers, outcome, run, |run| - 1);
  }
}
