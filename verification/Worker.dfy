/** The canonical worker (`zen-brain worker remediate`): what it writes, and where its ticket ends up
    once the dispatcher and the reconciler have read it. */
module Worker {
  import opened Wrappers
  import opened Protocol
  import opened FillCycle
  import opened Sums
  import opened Strings
  import Packet
  import Inference

  /** What `git diff --exit-code` says, if it can be run at all. */
  datatype Diff = SameContent | Differs | DidNotRun

  datatype Validation = NoCommand | ToolsMissing | Passed | Rejected

  /** What one run meets: the packet as text, the file the description names, and the answers of git,
      model and files. `generated` is the hash of the produced content, `commit` the commit id. */
  datatype World = World(
    fetched: bool,
    repoPresent: bool, identitySet: bool, pushEnabled: bool, remoteReachable: bool,
    resultsWritable: bool, worktreeWritable: bool,
    publisherMade: bool, branchMade: bool, packet: string, describedTarget: string, read: bool,
    oldHash: string, generated: Option<string>, written: bool, diff: Diff,
    validation: Validation, commit: Option<string>, pushAccepted: bool, remote: string, branch: string)

  /** The file the packet names, if there is a packet and it names one. */
  function PacketTarget(w: World): string {
    if w.packet == "" then "" else Packet.FirstPath(Split(w.packet))
  }

  function Target(w: World): string {
    if PacketTarget(w) != "" then PacketTarget(w) else w.describedTarget
  }

  predicate Preflight(w: World) {
    && w.repoPresent && w.identitySet && w.pushEnabled && w.remoteReachable
    && w.resultsWritable && w.worktreeWritable
  }

  /** Everything up to the new content is in hand. */
  predicate Prepared(w: World) {
    && w.fetched && Preflight(w) && w.publisherMade && w.branchMade
    && Target(w) != "" && w.read && w.generated.Some?
  }

  /** The content differs by hash and, once written, git does not report an empty diff. */
  predicate Changed(w: World) {
    w.generated.Some? && w.generated.value != w.oldHash && w.written && w.diff != SameContent
  }

  /** The content differs by hash and git reports the difference. */
  predicate ChangeConfirmed(w: World) {
    Changed(w) && w.diff == Differs
  }

  predicate Validated(w: World) {
    w.validation != Rejected
  }

  /** The commit went through and its id has the seven characters the log line slices off. */
  predicate Committed(w: World) {
    w.commit.Some? && |w.commit.value| >= 7
  }

  predicate Delivered(w: World) {
    Prepared(w) && Changed(w) && Validated(w) && Committed(w) && w.pushAccepted
  }

  predicate Held(w: World) {
    Prepared(w) && Changed(w) && (!Validated(w) || (Committed(w) && !w.pushAccepted))
  }

  // ----- The results it can write -----

  const FAILED := Result(ClassFailed, OtherMode("proposal_only"), "", "", [], Retrying)
  const PREFLIGHT_FAILED := Result(ClassFailed, OtherMode("none"), "", "", [], Retrying)
  const NO_CHANGE := Result(ClassRetrying, GitBacked, "", "", [], Retrying)

  function ForReview(w: World): Result
    requires w.commit.Some?
  {
    Result(ClassNeedsReview, GitBacked, w.commit.value,
           if w.pushEnabled && w.pushAccepted then w.remote + "/" + w.branch else "",
           [Target(w)], OtherStatus("Needs Review"))
  }

  function ForRejection(w: World): Result {
    Result(ClassPaused, GitBacked, "", "", [Target(w)], Paused)
  }

  /** The one result a run leaves, if any. */
  function Report(w: World): Option<Result> {
    if !w.fetched then if w.resultsWritable then Some(FAILED) else None
    else if !Preflight(w) then if w.resultsWritable then Some(PREFLIGHT_FAILED) else None
    else if !Prepared(w) then None
    else if w.generated.value == w.oldHash then Some(NO_CHANGE)
    else if !w.written then None
    else if w.diff == SameContent then Some(NO_CHANGE)
    else if !Validated(w) then Some(ForRejection(w))
    else if !Committed(w) then None
    else Some(ForReview(w))
  }

  function ReportActs(w: World): seq<Act> {
    if Report(w).Some? then [Write(Holds(Report(w).value))] else []
  }

  // ----- The run itself -----

  method WriteTerminalResult(w: World, r: Result) returns (acts: seq<Act>)
    ensures acts == if w.resultsWritable then [Write(Holds(r))] else []
  {
    acts := if w.resultsWritable then [Write(Holds(r))] else [];
  }

  /** `runWorkerRemediate`, outside its proposal-only mode. */
  method RunWorkerRemediate(w: World) returns (acts: seq<Act>, crashed: bool)
    ensures acts == ReportActs(w)
    ensures crashed <==> !w.fetched || !Preflight(w) || Report(w).None?
  {
    if !w.fetched {
      acts := WriteTerminalResult(w, FAILED);
      return acts, true;
    }
    if !Preflight(w) {
      acts := WriteTerminalResult(w, PREFLIGHT_FAILED);
      return acts, true;
    }
    acts, crashed := RunBoundedExecution(w);
  }

  method RunBoundedExecution(w: World) returns (acts: seq<Act>, crashed: bool)
    requires w.fetched && Preflight(w)
    ensures acts == ReportActs(w)
    ensures crashed <==> Report(w).None?
  {
    if !w.publisherMade || !w.branchMade { return [], true; }
    var target := "";
    if w.packet != "" {
      target := Packet.ExtractTargetFileFromPacket(w.packet);
    }
    if target == "" { target := w.describedTarget; }
    if target == "" || !w.read || w.generated.None? { return [], true; }
    var newHash := w.generated.value;
    if w.oldHash == newHash {
      acts := WriteTerminalResult(w, NO_CHANGE);
      return acts, false;
    }
    if !w.written { return [], true; }
    if w.diff == SameContent {
      acts := WriteTerminalResult(w, NO_CHANGE);
      return acts, false;
    }

    var validationPassed := w.validation == Passed;
    if w.validation == NoCommand || w.validation == ToolsMissing { validationPassed := true; }

    var commitSHA, remoteBranch := "", "";
    if validationPassed {
      if w.commit.None? || |w.commit.value| < 7 { return [], true; }
      commitSHA := w.commit.value;
      if w.pushEnabled && w.pushAccepted { remoteBranch := w.remote + "/" + w.branch; }
    }
    var result := Result(ClassNeedsReview, GitBacked, commitSHA, remoteBranch, [target], OtherStatus("Needs Review"));
    if !validationPassed {
      result := result.(cls := ClassPaused, claimed := Paused);
    }
    acts := WriteTerminalResult(w, result);
    crashed := false;
  }

  // ----- End to end -----

  lemma OneWrite(t: Ticket, r: Result)
    ensures AllActed(t, [Write(Holds(r))]) == t.(file := Holds(r))
  {
    assert [Write(Holds(r))][1..] == [];
  }

  /** Over worker, dispatcher and reconciler together: a launched ticket finishes its cycle Done
      exactly when the change was real, validation did not reject it, and commit and push went
      through; PAUSED exactly when the change was rejected or not pushed; RETRYING otherwise. */
  lemma EndToEnd(w: World, env: Env, t: Ticket)
    requires Launched(env) && Answers(env) && env.acts == ReportActs(w)
    requires t.status != InProgress
    ensures Cycled(env, t).status == if Delivered(w) then Done else if Held(w) then Paused else Retrying
    ensures Dispatched(env, t).1 <==> Delivered(w)
  {
    if Report(w).Some? {
      OneWrite(Ticket(InProgress, Missing), Report(w).value);
      if Report(w).value == NO_CHANGE || Report(w).value == FAILED || Report(w).value == PREFLIGHT_FAILED {
      } else if Validated(w) {
        assert w.remote + "/" + w.branch != "";
      }
    }
  }

  // ----- What a result tells -----

  /** All that has to go right for a delivery. */
  lemma DeliveredNeeds(w: World)
    ensures Delivered(w) <==>
            && w.fetched && w.repoPresent && w.identitySet && w.pushEnabled && w.remoteReachable
            && w.resultsWritable && w.worktreeWritable && w.publisherMade && w.branchMade
            && (PacketTarget(w) != "" || w.describedTarget != "") && w.read
            && w.generated.Some? && w.generated != Some(w.oldHash) && w.written && w.diff != SameContent
            && w.validation != Rejected && w.commit.Some? && |w.commit.value| >= 7 && w.pushAccepted
  {
  }

  /** What is held back got that far too, and was rejected or not pushed. */
  lemma HeldNeeds(w: World)
    ensures Held(w) <==>
            && w.fetched && Preflight(w) && w.publisherMade && w.branchMade
            && (PacketTarget(w) != "" || w.describedTarget != "") && w.read
            && w.generated.Some? && w.generated != Some(w.oldHash) && w.written && w.diff != SameContent
            && (w.validation == Rejected || (w.commit.Some? && |w.commit.value| >= 7 && !w.pushAccepted))
  {
  }

  /** The class and the claim of every result, by the place where the run ended, and where it ends
      without one. */
  lemma ReportsByOutcome(w: World)
    ensures Report(w).Some? ==> Report(w).value.cls in {ClassFailed, ClassRetrying, ClassPaused, ClassNeedsReview}
    ensures Report(w).Some? && Report(w).value.cls == ClassFailed <==>
              (!w.fetched || !Preflight(w)) && w.resultsWritable
    ensures Report(w).Some? && Report(w).value.cls == ClassRetrying <==>
              Prepared(w) && (w.generated == Some(w.oldHash) || (w.written && w.diff == SameContent))
    ensures Report(w).Some? && Report(w).value.cls == ClassPaused <==> Prepared(w) && Changed(w) && !Validated(w)
    ensures Report(w).Some? && Report(w).value.cls == ClassNeedsReview <==>
              Prepared(w) && Changed(w) && Validated(w) && Committed(w)
    ensures Report(w).Some? ==>
              Report(w).value.claimed ==
              if Report(w).value.cls == ClassPaused then Paused
              else if Report(w).value.cls == ClassNeedsReview then OtherStatus("Needs Review")
              else Retrying
  {
  }

  /** A result for review names the commit made, the branch if it was pushed, and the one file; no
      other result names a commit or a branch. */
  lemma ReportNames(w: World)
    requires Report(w).Some?
    ensures var r := Report(w).value;
            if r.cls == ClassNeedsReview then
              && Some(r.commit) == w.commit && r.mode == GitBacked
              && r.remoteBranch == (if w.pushAccepted then w.remote + "/" + w.branch else "")
              && |r.filesChanged| == 1
            else
              r.commit == "" && r.remoteBranch == "" && (r.filesChanged == [] <==> r.cls != ClassPaused)
  {
  }

  /** The packet comes before the description: what a result lists as changed is the packet's file,
      and the description's only where the packet names none. */
  lemma PacketBeforeDescription(w: World)
    requires Report(w).Some? && Report(w).value.filesChanged != []
    ensures Report(w).value.filesChanged ==
            [if w.packet == "" || Packet.FirstPath(Split(w.packet)) == "" then w.describedTarget
             else Packet.FirstPath(Split(w.packet))]
  {
  }

  /** From the ticket's text to the file changed: it is the first path the dispatcher inferred, if that
      is clean, whatever file the description names. */
  lemma ChangesFirstInferred(w: World, summary: string, desc: string, order: seq<Inference.Component>,
                             onDisk: string -> bool, stamp: string)
    requires forall i | 0 <= i < |order| :: forall f <- order[i].1 :: '\n' !in f
    requires var files := Inference.Inferred(summary, desc, order, onDisk);
             && files != [] && files[0] != "" && Packet.CleanPath(files[0])
             && w.packet == Packet.Unlines(Packet.PacketLines(files, stamp))
    requires '\n' !in stamp && ' ' !in stamp
    requires Report(w).Some? && Report(w).value.filesChanged != []
    ensures Report(w).value.filesChanged == [Inference.Inferred(summary, desc, order, onDisk)[0]]
  {
    Inference.WorkerGetsFirstInferred(summary, desc, order, onDisk, stamp);
    PacketBeforeDescription(w);
    assert Packet.FirstPath(Split("")) == "" by {
      assert Split("") == [""];
    }
  }

  // ----- A diff that did not run -----

  /** What the design asks of a Done ticket: a change that hash and git confirm, not rejected,
      committed and pushed. */
  predicate Earned(w: World) {
    Prepared(w) && ChangeConfirmed(w) && Validated(w) && Committed(w) && w.pushAccepted
  }

  /** A ticket is Done exactly when its change is earned, if and only if the diff ran or something
      else kept the change from being delivered: a diff that could not run counts as a change. */
  lemma DoneIsEarnedExactly(w: World, env: Env, t: Ticket)
    requires Launched(env) && Answers(env) && env.acts == ReportActs(w)
    requires t.status != InProgress
    ensures Earned(w) ==> Cycled(env, t).status == Done
    ensures (Cycled(env, t).status == Done <==> Earned(w)) <==> w.diff != DidNotRun || !Delivered(w)
  {
    EndToEnd(w, env, t);
  }

  /** In every world that gets as far as the diff, the answer lies with the diff alone. */
  lemma UnrunDiffIsBelieved(w: World, env: Env, t: Ticket)
    requires Launched(env) && Answers(env) && env.acts == ReportActs(w.(diff := DidNotRun))
    requires t.status != InProgress && Earned(w)
    ensures Cycled(env, t).status == Done && !ChangeConfirmed(w.(diff := DidNotRun))
  {
    EndToEnd(w.(diff := DidNotRun), env, t);
  }

  const UNRUN := World(true, true, true, true, true, true, true, true, true, "", "docs/README.md", true,
                       "0a1b", Some("2c3d"), true, DidNotRun, Passed, Some("0123456789"), true, "origin", "zb-1")

  /** A concrete world in which a ticket is Done although no diff ever ran. */
  lemma DoneWithoutDiff() returns (env: Env, t: Ticket)
    ensures Launched(env) && Answers(env) && env.acts == ReportActs(UNRUN) && t.status == Backlog
    ensures Cycled(env, t).status == Done && UNRUN.diff == DidNotRun && !Earned(UNRUN)
  {
    env, t := QUIET_ENV.(acts := ReportActs(UNRUN)), Ticket(Backlog, Missing);
    EndToEnd(UNRUN, env, t);
  }

  /** Going by what the diff said, whatever else the worlds are like: Done is for earned changes, and
      only for them, exactly if the diff ran. */
  lemma DoneMeansEarnedExactly(d: Diff)
    ensures (forall w: World, env: Env, t: Ticket |
               w.diff == d && Launched(env) && Answers(env)
               && env.acts == ReportActs(w) && t.status != InProgress ::
               Cycled(env, t).status == Done <==> Earned(w))
            <==> d != DidNotRun
  {
    if d == DidNotRun {
      var env, t := DoneWithoutDiff();
      assert UNRUN.diff == d && Cycled(env, t).status == Done && !Earned(UNRUN);
    } else {
      forall w: World, env: Env, t: Ticket |
        w.diff == d && Launched(env) && Answers(env)
        && env.acts == ReportActs(w) && t.status != InProgress
        ensures Cycled(env, t).status == Done <==> Earned(w)
      {
        DoneIsEarnedExactly(w, env, t);
      }
    }
  }

  // ----- A whole cycle of workers -----

  function DeliveredWeight(w: World): int {
    if Delivered(w) then 1 else 0
  }

  /** Every dispatched ticket runs the worker above, and Jira answers. */
  ghost predicate Employs(c: Cycle, worlds: seq<World>, b: Board)
    requires Proper(c, b)
  {
    && |worlds| == |c.envs|
    && forall i | 0 <= i < |worlds| ::
         && Launched(c.envs[i]) && Answers(c.envs[i]) && c.envs[i].acts == ReportActs(worlds[i])
         && b.jira[c.keys[i]] != InProgress
  }

  /** However its goroutines interleave, a cycle takes every ticket where its worker's world sends
      it, and Done grows by the number of delivered changes. */
  lemma WholeCycle(c: Cycle, worlds: seq<World>, b: Board, b': Board)
    requires CycleStep(c, b, b') && Employs(c, worlds, b)
    ensures forall i | 0 <= i < |worlds| ::
              b'.jira[c.keys[i]] ==
              if Delivered(worlds[i]) then Done else if Held(worlds[i]) then Paused else Retrying
    ensures b'.done == b.done + Sum(DeliveredWeight, worlds)
  {
    AfterCycle(c, b, b');
    forall i | 0 <= i < |worlds|
      ensures TicketOf(b', c.keys[i]).status ==
              if Delivered(worlds[i]) then Done else if Held(worlds[i]) then Paused else Retrying
      ensures BackedWeight(c.envs[i]) == DeliveredWeight(worlds[i])
    {
      EndToEnd(worlds[i], c.envs[i], TicketOf(b, c.keys[i]));
      TrueMeansBacked(c.envs[i], TicketOf(b, c.keys[i]));
    }
    SumMatch(BackedWeight, c.envs, DeliveredWeight, worlds);
  }
}
