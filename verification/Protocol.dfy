/** One dispatch as the dispatcher, the worker and the reconciler make it together. Everything the
    dispatcher does not decide (Jira's answers, the worker's behaviour) is in an `Env`. */
module Protocol {
  import opened Wrappers

  type Key = string

  datatype Status =
    | Backlog | InProgress | Done | Paused | Retrying | ToEscalate | NeedsHumanContext
    | OtherStatus(name: string)

  datatype TerminalClass =
    | ClassDone | ClassNeedsReview | ClassPaused | ClassBlockedPayload
    | ClassRetrying | ClassToEscalate | ClassFailed
    | OtherClass(name: string)

  datatype ExecutionMode = GitBacked | OtherMode(name: string)

  /** The worker's terminal result; `claimed` is the Jira state it says the ticket is in. */
  datatype Result = Result(cls: TerminalClass, mode: ExecutionMode, commit: string, remoteBranch: string,
                           filesChanged: seq<string>, claimed: Status)

  /** A ticket's file in the result directory. */
  datatype File = Missing | Corrupt | Holds(result: Result)

  datatype Ticket = Ticket(status: Status, file: File)

  /** A worker may move its ticket and write its file, in any order and any number of times. */
  datatype Act = Move(to: Status) | Write(file: File)

  datatype Normalization = Enriched | NoTargetFiles | NormalizeError

  datatype Labels = Labels(remediated: bool, blocked: bool, ready: bool)

  /** What one dispatch meets: the answers to its transitions, in order, and its worker's acts.
      `crashed` says that the worker process ended with an error. */
  datatype Env = Env(normalization: Normalization, firstAccepted: bool, binFound: bool,
                     acts: seq<Act>, crashed: bool, secondAccepted: bool,
                     searchFinds: bool, labels: Labels, thirdAccepted: bool)

  predicate HasGitEvidence(r: Result) {
    r.mode == GitBacked && r.commit != "" && r.remoteBranch != "" && |r.filesChanged| > 0
  }

  /** A class that counts as success when git evidence comes with it. */
  predicate Success(cls: TerminalClass) {
    cls == ClassDone || cls == ClassNeedsReview
  }

  const MISSING_TARGET := Result(OtherClass("needs_human_context"), OtherMode(""), "", "", [], OtherStatus(""))
  const MISSING_WORKER := Result(ClassPaused, OtherMode(""), "", "", [], OtherStatus(""))

  function Moved(t: Ticket, to: Status, accepted: bool): Ticket {
    if accepted then t.(status := to) else t
  }

  // ----- The worker's acts -----

  function Acted(t: Ticket, act: Act): Ticket {
    match act
    case Move(to) => t.(status := to)
    case Write(file) => t.(file := file)
  }

  function AllActed(t: Ticket, acts: seq<Act>): Ticket
    decreases |acts|
  {
    if acts == [] then t else AllActed(Acted(t, acts[0]), acts[1..])
  }

  /** The file a worker leaves when it starts from an empty slot. */
  function LeftFile(acts: seq<Act>): File {
    AllActed(Ticket(InProgress, Missing), acts).file
  }

  // ----- The dispatcher -----

  /** The state a terminal class asks for, if the dispatcher knows the class. */
  function Wanted(cls: TerminalClass): Option<Status> {
    match cls
    case ClassDone | ClassNeedsReview => Some(Done)
    case ClassPaused | ClassBlockedPayload => Some(Paused)
    case ClassRetrying | ClassFailed => Some(Retrying)
    case ClassToEscalate => Some(ToEscalate)
    case OtherClass(_) => None
  }

  /** `handleTerminalResult`: no move when the worker claims the state already, except for a failure. */
  function Handled(r: Result, t: Ticket, accepted: bool): (Ticket, bool) {
    if Success(r.cls) then
      if HasGitEvidence(r) then (t, true) else (Moved(t, Paused, accepted), false)
    else
      match Wanted(r.cls)
      case None => (Moved(t, Paused, accepted), false)
      case Some(to) =>
        if r.claimed == to && r.cls != ClassFailed then (t, false) else (Moved(t, to, accepted), false)
  }

  function AfterWorker(env: Env, t: Ticket): (Ticket, bool) {
    if t.file.Holds? then Handled(t.file.result, t, env.secondAccepted)
    else (Moved(t, Retrying, env.secondAccepted), false)
  }

  /** `dispatchTicket`: where it leaves the ticket, and what it returns. */
  function Dispatched(env: Env, t: Ticket): (Ticket, bool) {
    if env.normalization == NoTargetFiles then
      (Moved(t, NeedsHumanContext, env.firstAccepted).(file := Holds(MISSING_TARGET)), false)
    else if !env.firstAccepted then (t, false)
    else if !env.binFound then
      (Moved(Ticket(InProgress, Missing), Paused, env.secondAccepted).(file := Holds(MISSING_WORKER)), false)
    else AfterWorker(env, AllActed(Ticket(InProgress, Missing), env.acts))
  }

  // ----- The reconcilers -----

  /** `reconcileDispatchedStates` on one ticket. */
  function Reconciled(env: Env, t: Ticket): Ticket {
    if !env.searchFinds || t.status != InProgress then t
    else if t.file.Holds? then
      match Wanted(t.file.result.cls)
      case None => t
      case Some(to) => Moved(t, to, env.thirdAccepted)
    else if env.labels.remediated && env.labels.blocked then Moved(t, Paused, env.thirdAccepted)
    else if env.labels.remediated && env.labels.ready then Moved(t, Done, env.thirdAccepted)
    else if !env.labels.remediated then Moved(t, Retrying, env.thirdAccepted)
    else t
  }

  /** `reconcileStuckInProgress` on one ticket found In Progress at start-up. */
  function Unstuck(labels: Labels, t: Ticket, accepted: bool): Ticket {
    if t.file.Holds? && Wanted(t.file.result.cls).Some? then
      Moved(t, Wanted(t.file.result.cls).value, accepted)
    else if !labels.remediated then Moved(t, Retrying, accepted)
    else if labels.blocked then Moved(t, Paused, accepted)
    else Moved(t, Done, accepted)
  }

  /** What a ticket looks like once its cycle is over. */
  function Cycled(env: Env, t: Ticket): Ticket {
    Reconciled(env, Dispatched(env, t).0)
  }

  // ----- What the composition guarantees -----

  /** Jira answers every question that decides where a finished ticket ends up. */
  predicate Answers(env: Env) {
    env.secondAccepted && env.searchFinds && env.thirdAccepted
  }

  predicate Launched(env: Env) {
    env.normalization != NoTargetFiles && env.firstAccepted && env.binFound
  }

  /** The dispatch launched its worker, and that worker left a success with git evidence. */
  predicate Backed(env: Env) {
    && Launched(env)
    && LeftFile(env.acts).Holds?
    && Success(LeftFile(env.acts).result.cls)
    && HasGitEvidence(LeftFile(env.acts).result)
  }

  /** Whatever the worker does, a ticket that was not In Progress before its cycle is not after it. */
  lemma NeverStuck(env: Env, t: Ticket)
    requires t.status != InProgress && Answers(env)
    ensures Cycled(env, t).status != InProgress
  {
    if Launched(env) {
      var after := AllActed(Ticket(InProgress, Missing), env.acts);
      assert Dispatched(env, t) == AfterWorker(env, after);
    }
  }

  /** A true return is backed by a result of this dispatch's own worker: never by a leftover file. */
  lemma TrueMeansBacked(env: Env, t: Ticket)
    ensures Dispatched(env, t).1 <==> Backed(env)
  {
  }

  /** Done at the end of a cycle, for a worker that leaves Jira alone. */
  lemma DoneMeansBacked(env: Env, t: Ticket)
    requires t.status != InProgress && t.status != Done && Answers(env)
    requires forall a <- env.acts :: a.Write?
    ensures Cycled(env, t).status == Done <==> Backed(env)
  {
    WritesKeepStatus(Ticket(InProgress, Missing), env.acts);
  }

  /** Where a launched ticket belongs, going by the file its worker leaves: the states by name. */
  function Destination(file: File): Status {
    match file
    case Missing | Corrupt => Retrying
    case Holds(r) =>
      match r.cls
      case ClassDone | ClassNeedsReview =>
        if r.mode == GitBacked && r.commit != "" && r.remoteBranch != "" && r.filesChanged != [] then Done else Paused
      case ClassPaused | ClassBlockedPayload => Paused
      case ClassRetrying | ClassFailed => Retrying
      case ClassToEscalate => ToEscalate
      case OtherClass(_) => Paused
  }

  /** The dispatcher leaves Jira alone: a backed success, or a claim to be there already. */
  predicate TakenAtWord(file: File) {
    && file.Holds?
    && var r := file.result;
       match r.cls
       case ClassDone | ClassNeedsReview => Destination(file) == Done
       case ClassFailed | OtherClass(_) => false
       case _ => r.claimed == Destination(file)
  }

  /** The state a worker claims does not matter: where the dispatcher believes it, the reconciler
      makes it true. Class and evidence alone decide. */
  lemma ClassDecides(env: Env, t: Ticket)
    requires Launched(env) && Answers(env)
    requires forall a <- env.acts :: a.Write?
    ensures Cycled(env, t).status == Destination(LeftFile(env.acts))
  {
    var left := AllActed(Ticket(InProgress, Missing), env.acts);
    WritesKeepStatus(Ticket(InProgress, Missing), env.acts);
    assert Dispatched(env, t) == AfterWorker(env, left);
  }

  /** Where every cycle ends, whatever its worker writes and whichever way it moves its ticket. */
  lemma CycleEnds(env: Env, t: Ticket)
    requires Answers(env) && t.status != InProgress
    ensures var left := AllActed(Ticket(InProgress, Missing), env.acts);
            Cycled(env, t).status ==
            if env.normalization == NoTargetFiles then if env.firstAccepted then NeedsHumanContext else t.status
            else if !env.firstAccepted then t.status
            else if !env.binFound then Paused
            else if TakenAtWord(left.file) && left.status != InProgress then left.status
            else Destination(left.file)
  {
    if Launched(env) {
      var left := AllActed(Ticket(InProgress, Missing), env.acts);
      assert Dispatched(env, t) == AfterWorker(env, left);
    }
  }

  /** What a dispatch leaves in the result directory. */
  lemma FileLeft(env: Env, t: Ticket)
    ensures var file := Cycled(env, t).file;
            if env.normalization == NoTargetFiles then
              file.Holds? && file.result.cls == OtherClass("needs_human_context") && !HasGitEvidence(file.result)
            else if !env.firstAccepted then file == t.file
            else if !env.binFound then file.Holds? && file.result.cls == ClassPaused && !HasGitEvidence(file.result)
            else file == LeftFile(env.acts)
  {
    if Launched(env) {
      var left := AllActed(Ticket(InProgress, Missing), env.acts);
      assert Dispatched(env, t) == AfterWorker(env, left);
    }
  }

  // ----- Tickets that cannot be worked on -----

  /** The states the backlog search asks for. */
  predicate Fetched(status: Status) {
    status == Backlog || status == Retrying
  }

  /** A ticket without target files goes to a human, and the next search does not fetch it. */
  lemma NoTargetGoesToHuman(env: Env, t: Ticket)
    requires env.normalization == NoTargetFiles && env.firstAccepted && t.status != InProgress
    ensures Cycled(env, t).status == NeedsHumanContext && !Fetched(Cycled(env, t).status)
    ensures !Dispatched(env, t).1
  {
  }

  /** Without a worker binary a ticket is held back, and not fetched again either. */
  lemma NoWorkerIsPaused(env: Env, t: Ticket)
    requires env.normalization != NoTargetFiles && env.firstAccepted && !env.binFound && env.secondAccepted
    ensures Cycled(env, t).status == Paused && !Fetched(Cycled(env, t).status)
    ensures !Dispatched(env, t).1
  {
  }

  /** Fetched again is, of the tickets a cycle launched with a worker that leaves Jira alone, exactly
      one without a readable result, or with a class that asks for another try. */
  lemma FetchedAgainExactly(env: Env, t: Ticket)
    requires Launched(env) && Answers(env)
    requires forall a <- env.acts :: a.Write?
    ensures Fetched(Cycled(env, t).status) <==>
            var file := LeftFile(env.acts);
            !file.Holds? || file.result.cls == ClassRetrying || file.result.cls == ClassFailed
  {
    ClassDecides(env, t);
  }

  lemma {:induction false} WritesKeepStatus(t: Ticket, acts: seq<Act>)
    requires forall a <- acts :: a.Write?
    ensures AllActed(t, acts).status == t.status
    decreases |acts|
  {
    if acts != [] {
      assert acts[0] in acts;
      WritesKeepStatus(Acted(t, acts[0]), acts[1..]);
    }
  }

  const QUIET_ENV := Env(Enriched, true, true, [], false, true, true, Labels(false, false, false), true)

  /** The dispatcher alone leaves a ticket In Progress: it believes the worker's claim. */
  lemma DispatcherAloneIsNotEnough()
    ensures exists env: Env, t: Ticket ::
              Answers(env) && t.status != InProgress && Dispatched(env, t).0.status == InProgress
  {
    var r := Result(ClassPaused, GitBacked, "", "", [], Paused);
    var env := QUIET_ENV.(acts := [Write(Holds(r))]);
    var t := Ticket(Backlog, Missing);
    assert AllActed(Ticket(InProgress, Missing), env.acts) == Ticket(InProgress, Holds(r));
    assert Answers(env) && t.status != InProgress && Dispatched(env, t).0.status == InProgress;
  }

  /** The reconciler alone leaves one too: it does nothing about a class it does not know. */
  lemma ReconcilerAloneIsNotEnough()
    ensures exists env: Env, t: Ticket :: Answers(env) && Reconciled(env, t).status == InProgress
  {
    assert Answers(QUIET_ENV) && Reconciled(QUIET_ENV, Ticket(InProgress, Holds(MISSING_TARGET))).status == InProgress;
  }

  // ----- After a dispatcher crash -----

  /** What the start-up pass goes by: a class it knows, otherwise the labels. */
  predicate TakenForDone(file: File, labels: Labels) {
    if file.Holds? && Wanted(file.result.cls).Some? then Success(file.result.cls)
    else labels.remediated && !labels.blocked
  }

  /** If the dispatcher crashes with its worker launched, the start-up pass frees the ticket, but it
      does not look for git evidence. For every file and all labels this says when it gives Done
      to a ticket whose worker left no backed success, and what the dispatch it replaces would have
      given instead: PAUSED where there is a result, RETRYING where there is none. */
  lemma CrashLosesEvidenceCheck(env: Env, labels: Labels)
    requires Launched(env)
    requires forall a <- env.acts :: a.Write?
    ensures var left := AllActed(Ticket(InProgress, Missing), env.acts);
            var started := Unstuck(labels, left, true).status;
            && started != InProgress
            && (started == Done && !Backed(env) <==>
                if left.file.Holds? && Wanted(left.file.result.cls).Some?
                then Success(left.file.result.cls) && !HasGitEvidence(left.file.result)
                else labels.remediated && !labels.blocked)
            && (started == Done && env.secondAccepted ==>
                AfterWorker(env, left).0.status ==
                if Backed(env) then InProgress else if left.file.Holds? then Paused else Retrying)
  {
    WritesKeepStatus(Ticket(InProgress, Missing), env.acts);
  }

  /** If it crashes before it has removed the old result, the start-up pass goes by that: then even
      evidence is none, being that of an earlier dispatch. */
  lemma CrashKeepsLeftover(labels: Labels, t: Ticket)
    ensures var crashed := Moved(t, InProgress, true);
            && Unstuck(labels, crashed, true).status != InProgress
            && (Unstuck(labels, crashed, true).status == Done <==> TakenForDone(t.file, labels))
  {
  }

  /** Two inputs of the label kind: no result at all, and one whose class is no success. */
  lemma LabelsGiveDone() returns (silent: Env, unknown: Env, labels: Labels)
    ensures Launched(silent) && Launched(unknown) && Answers(silent) && Answers(unknown)
    ensures var left := AllActed(Ticket(InProgress, Missing), silent.acts);
            && left.file == Missing && AfterWorker(silent, left).0.status == Retrying
            && Unstuck(labels, left, true).status == Done
    ensures var left := AllActed(Ticket(InProgress, Missing), unknown.acts);
            && left.file.Holds? && !Success(left.file.result.cls) && AfterWorker(unknown, left).0.status == Paused
            && Unstuck(labels, left, true).status == Done
  {
    silent, unknown := QUIET_ENV, QUIET_ENV.(acts := [Write(Holds(MISSING_TARGET))]);
    labels := Labels(true, false, true);
    assert unknown.acts[1..] == [];
  }

  // ----- When the dispatcher's own transition is refused -----

  /** Nothing in the file or the labels says where the ticket belongs. */
  predicate Undecided(file: File, labels: Labels) {
    if file.Holds? then Wanted(file.result.cls).None?
    else labels.remediated && !labels.blocked && !labels.ready
  }

  /** With a worker that leaves Jira alone, and as long as the reconciler gets its answers, a ticket
      is left In Progress exactly when Jira refused the dispatcher and nothing decides for it. */
  lemma StuckExactly(env: Env, t: Ticket)
    requires t.status != InProgress && env.searchFinds && env.thirdAccepted
    requires forall a <- env.acts :: a.Write?
    ensures Cycled(env, t).status == InProgress <==>
            Launched(env) && !env.secondAccepted && Undecided(LeftFile(env.acts), env.labels)
  {
    WritesKeepStatus(Ticket(InProgress, Missing), env.acts);
  }

  /** The start-up pass does to a ticket In Progress what the reconciler of a cycle does, exactly
      where that one does anything; and it leaves none stuck. */
  lemma StartupAgreesWithReconciler(env: Env, t: Ticket)
    requires t.status == InProgress && env.searchFinds && env.thirdAccepted
    ensures Unstuck(env.labels, t, true) == Reconciled(env, t) <==> !Undecided(t.file, env.labels)
    ensures Unstuck(env.labels, t, true).status != InProgress
    ensures Reconciled(env, t).status == InProgress <==> Undecided(t.file, env.labels)
  {
  }

  /** Done without a success of its own worker that git evidence backs: exactly when Jira refused
      the dispatcher's move, and then the reconciler, which does not look for evidence, went by the
      class, or by the labels where there is no result. */
  lemma UnbackedDoneExactly(env: Env, t: Ticket)
    requires t.status != InProgress && t.status != Done && env.searchFinds && env.thirdAccepted
    requires forall a <- env.acts :: a.Write?
    ensures Cycled(env, t).status == Done && !Backed(env) <==>
            && Launched(env) && !env.secondAccepted
            && var file := LeftFile(env.acts);
               if file.Holds? then Success(file.result.cls) && !HasGitEvidence(file.result)
               else env.labels.remediated && !env.labels.blocked && env.labels.ready
  {
    WritesKeepStatus(Ticket(InProgress, Missing), env.acts);
  }

  // ----- The labels, and refusals -----

  /** Without a class to go by, a ticket In Progress is moved by its labels: blocked comes before
      ready, and one that no worker has touched is tried again. What is neither blocked nor ready
      the reconciler of a cycle leaves where it is; the start-up pass takes it for done. */
  lemma LabelsDecide(env: Env, t: Ticket)
    requires t.status == InProgress && env.searchFinds && env.thirdAccepted
    requires t.file.Holds? ==> t.file.result.cls.OtherClass?
    ensures var l := env.labels;
            && (!l.remediated ==> Unstuck(l, t, true).status == Retrying)
            && (l.remediated && l.blocked ==> Unstuck(l, t, true).status == Paused)
            && (l.remediated && !l.blocked ==> Unstuck(l, t, true).status == Done)
    ensures !t.file.Holds? ==>
            var l := env.labels;
            && (!l.remediated ==> Reconciled(env, t).status == Retrying)
            && (l.remediated && l.blocked ==> Reconciled(env, t).status == Paused)
            && (l.remediated && !l.blocked && l.ready ==> Reconciled(env, t).status == Done)
            && (l.remediated && !l.blocked && !l.ready ==> Reconciled(env, t) == t)
    ensures t.file.Holds? ==> Reconciled(env, t) == t
  {
  }

  /** With a class to go by, both passes go by it and by nothing else. */
  lemma ClassBeforeLabels(env: Env, t: Ticket)
    requires t.status == InProgress && env.searchFinds && env.thirdAccepted
    requires t.file.Holds? && !t.file.result.cls.OtherClass?
    ensures var to := if Success(t.file.result.cls) then Done else Destination(t.file);
            Reconciled(env, t) == Unstuck(env.labels, t, true) == t.(status := to)
  {
  }

  /** A refused transition changes nothing, and the reconciler touches only what is In Progress. */
  lemma RefusedChangesNothing(env: Env, t: Ticket)
    ensures !env.firstAccepted ==> Dispatched(env, t).0.status == t.status && !Dispatched(env, t).1
    ensures Launched(env) && !env.secondAccepted ==>
              Dispatched(env, t).0 == AllActed(Ticket(InProgress, Missing), env.acts)
    ensures t.status != InProgress || !env.searchFinds || !env.thirdAccepted ==> Reconciled(env, t) == t
    ensures Unstuck(env.labels, t, false) == t
  {
    if Launched(env) {
      var left := AllActed(Ticket(InProgress, Missing), env.acts);
      assert Dispatched(env, t) == AfterWorker(env, left);
    }
  }

  /** The acts of a worker take effect one after the other: the last of each kind stays. */
  lemma {:induction false} LastActStays(t: Ticket, acts: seq<Act>, act: Act)
    ensures AllActed(t, acts + [act]) ==
            match act
            case Move(to) => AllActed(t, acts).(status := to)
            case Write(file) => AllActed(t, acts).(file := file)
    decreases |acts|
  {
    if acts == [] {
      assert acts + [act] == [act] && [act][1..] == [];
    } else {
      LastActStays(Acted(t, acts[0]), acts[1..], act);
      assert (acts + [act])[0] == acts[0] && (acts + [act])[1..] == acts[1..] + [act];
    }
  }
}
