# Verified model of the zen-brain factory

The factory moves tickets through Jira with the help of small language models. Around the models
sits ordinary code that must not lose, repeat or falsely report work. This project models that code
and proves what it keeps. `dafny verify dfyconfig.toml` checks everything.

| File | What it models |
|---|---|
| `JsonText`, `JsonScan`, `JsonRepair`, `JsonCut` | the repair of a model reply that was cut off in the middle of a JSON object |
| `Protocol`, `Worker`, `FillCycle`, `Factory` | dispatcher, worker and reconcilers, alone, together and interleaved |
| `TicketSort` | the readiness filter and the sort that decides which tickets get a slot |
| `Inference`, `Packet`, `PathScan` | how a ticket's target file is inferred, sent and read |
| `Candidates`, `FindingLimit`, `Evidence`, `WorkerPool` | the batch that prepares evidence and runs report jobs |
| `Ledger`, `LedgerHistory` | the finding ledger and its cool-down |
| `BulkClose`, `CreationTime` | the clean-up that keeps the newest finding of each type, and what its text order has to do with time |
| `Strings`, `Sums`, `Wrappers` | string operations of Go and Python, weighted sums for counters that concurrent steps share, optional values |

Where the source works step by step, a method does the same and is proved equal to a specification
function; the lemmas are about that function. Everything the programs cannot decide is a parameter:
whether Jira accepts a transition, what a worker does and in which order, what the clock reads, what
a JSON reader accepts, which paths exist.

Main results:

- A JSON object cut off anywhere is never taken for a whole one, with space and a fence before it.
  With `k` root commas in the cut, the comma trim returns exactly the object of the first `k`
  members, **if and only if** `k` is positive and the strings in those members hold as many `{` as
  `}` and no more `[` than `]`. The script counts braces without looking at strings, so this
  condition is exact. The same holds behind any prose without a brace, unless the whole reply happens
  to be something else that is valid. A whole object comes back alone, whatever such text is around it.
- Whatever its worker does, no ticket a cycle dispatches is In Progress after it, if Jira answers;
  neither the dispatcher nor the reconciler alone gives this. A true dispatch is backed by a result of
  that dispatch's own worker. Over worker, dispatcher and reconciler a ticket ends Done exactly when
  content changed, validation did not reject it, and commit and push went through. That the
  change was confirmed by git holds in all worlds with a given outcome of its diff **if and only if**
  that outcome is not "did not run".
- The file a worker changes is the first path the dispatcher inferred from the ticket, if that is a
  clean one, whatever file the description names.
- All of this holds in every interleaving of the dispatch goroutines. Every run is finite, none
  blocks, and the counters of any number of cycles add up.
- The worker pool is free of deadlock if and only if it has a worker or nothing to do.
- Which files are inferred for a ticket does not depend on the order of a Go map. They are existing paths; that
  none is a directory holds **if and only if** no file of a component mentioned, and no path named in
  the text before ten are found, is one without a final slash. This repository tracks such a directory.
- Over any number of runs of the ticketizer, two tickets for one finding are 24 hours apart counted
  from the second in which the first was saved. Because the ledger stores whole seconds, they are a
  full day apart, whatever run comes next at any point, **if and only if** every ticket was saved in a
  second that began no earlier than its creation, or by a run that lasted another day. Two concrete
  runs show the gap.
- Every decision of the ticketizer leaves the ledger saying exactly what it came to; a created ticket
  is entered under its own key.
- A candidate that is the first with its file and category is selected **if and only if** three of its
  category are not selected before it and the output is not full before it.
- The bulk close is a partition that keeps one issue per type, the newest by creation text; run again
  on what it leaves open, it closes nothing. The one that stays is the newest in time, whatever the
  backlog, **if and only if** all creation texts have one UTC offset.

Where code and comments or documents disagree, the model follows the code:

- `docs/05-OPERATIONS/BACKLOG_DRAIN_MODE.md` describes a guess from the worker's output when its
  result file is missing; the dispatcher moves such a ticket to RETRYING.
- The worker says git confirms a change whenever `git diff` fails, also when it could not run
  (`Worker.DoneIsEarnedExactly`, `Worker.DoneWithoutDiff`).
- The limit on findings holds if and only if it is at least one: a limit of zero or less still lets
  one finding through to the ticketizer (`LedgerHistory.LimitHoldsFromOne`).
- The inference skips directories by their final slash only (`Inference.DirectoryComesOut`).
- When Jira refuses the dispatcher's move to PAUSED, the reconciler gives Done without git evidence
  (`Protocol.UnbackedDoneExactly`).
- `scripts/jira-drain.py` uses `EMAIL` (line 45), which it defines nowhere, so every call to the
  tracker ends in a NameError before the steps modelled here; they are modelled as if it were defined.
- The start-up reconciler promises authoritative classification, but gives Done without looking for
  git evidence: to a success by class, and by the labels where there is no result or its class is
  unknown (`Protocol.CrashLosesEvidenceCheck`, `Protocol.LabelsGiveDone`).
- Its comment says it runs at the start of every cycle (`cmd/factory-fill/main.go:1331`); `main` calls
  it once, before the first. A ticket left as `Protocol.StuckExactly` says waits for the next start.
- "Keep latest" in the bulk close compares texts, not instants (`CreationTime.StaysNewestExactly`).

## Model

| member | source | states |
|---|---|---|
| JsonText.ScalarIsPlain | scripts/l1-corrective-retry.py:124-138 | a literal or number of RFC 8259 (sections 3 and 6) holds no character the scanner reacts to |
| JsonText.BraceMeansObject | scripts/l1-corrective-retry.py:66-74 | a value whose text starts with a brace is an object, and an object ends with a brace |
| JsonScan.ScanAppend | scripts/l1-corrective-retry.py:118-138 | depth, string and escape state, comma count and last comma of a text follow from its two parts |
| JsonScan.BodyIsLevel | scripts/l1-corrective-retry.py:125-132 | a whole string body, escapes included, leaves the scanner inside the string and shows it no comma |
| JsonScan.ValueIsLevel | scripts/l1-corrective-retry.py:124-138 | after any well-formed value the scanner is back at the depth it started from, never went below it, and saw no root comma inside |
| JsonScan.MembersAreLevel | scripts/l1-corrective-retry.py:124-138 | the same for a list of members; below the root none of their commas counts |
| JsonRepair.FindRootComma | scripts/l1-corrective-retry.py:118-138 | the loop finds the last comma directly inside the root object |
| JsonRepair.CloseOpenStructures | scripts/l1-corrective-retry.py:142-153 | appends the missing braces, then the missing brackets, by plain counts |
| JsonRepair.RepairTruncatedJson | scripts/l1-corrective-retry.py:47-159 | fence removal, direct parse, bracket trim and comma trim in this order, for any reader; the three `JsonCut` lemmas ending in `Exactly`, `WhatComesBackIsValid` and the cut results say what comes out |
| JsonCut.ValueNet | scripts/l1-corrective-retry.py:143-149 | in a well-formed value the plain count of braces (or brackets) is the count in its strings alone |
| JsonCut.MembersNet | scripts/l1-corrective-retry.py:143-149 | the same for members, keys included |
| JsonCut.CutShape | scripts/l1-corrective-retry.py:118-141 | for every cut of a member list, as many members survive whole as there are root commas, and the last comma stands right behind them |
| JsonCut.CutIsOpen | scripts/l1-corrective-retry.py:120-138 | the root of a cut-off object is still open at the cut |
| JsonCut.CutIsInvalid | scripts/l1-corrective-retry.py:59-64 | no proper prefix of an object's text is valid JSON, so the direct parse takes none |
| JsonCut.OnlyOneBraceCloses | scripts/l1-corrective-retry.py:150-157 | at a root comma only the root is open: exactly one brace and no bracket makes it valid |
| JsonCut.CloseAllValid | scripts/l1-corrective-retry.py:142-157 | closing by plain counts gives valid JSON if and only if the kept strings balance, and then it gives the object of the kept members |
| JsonCut.RootCut | scripts/l1-corrective-retry.py:118-141 | the root commas of a cut-off object are its whole surviving members, and cutting at the last one keeps their text |
| JsonCut.CutReachesTrim | scripts/l1-corrective-retry.py:59-82 | a cut-off object gets past the direct parse and the bracket trim to the comma trim; `JsonCut.BareProse` is the same behind prose |
| JsonCut.BareProse | scripts/l1-corrective-retry.py:59-82 | behind any prose without a brace too, unless the reader accepts the whole, neither direct parse nor bracket trim takes it and the repair is that of the bare object |
| JsonCut.CutRepair | scripts/l1-corrective-retry.py:59-157 | the repair of a cut-off object is exactly the object of its whole members, if and only if their strings balance |
| JsonCut.UnfenceCut | scripts/l1-corrective-retry.py:53-57 | removing space and fences from a cut-off reply drops nothing but spaces and backticks at its end |
| JsonCut.ReplyRepair | scripts/l1-corrective-retry.py:47-159 | the same result for the whole function, with any leading space and either fence; `JsonCut.ProseRepair` has prose before the object |
| JsonCut.ProseRepair | scripts/l1-corrective-retry.py:47-159 | the same for the whole function behind any text without a brace: it is returned as it is if the reader accepts it, else exactly the whole members come back, if and only if their strings balance |
| JsonCut.WholeReply | scripts/l1-corrective-retry.py:53-64 | a reply that is a whole object comes back unchanged, without the space and fences around it |
| JsonCut.TrimmedToObject | scripts/l1-corrective-retry.py:66-79 | a whole object in text that hides no brace is cut out of it, unless the reader accepts all of it |
| JsonCut.ProseWhole | scripts/l1-corrective-retry.py:47-79 | the same for the whole function, with space and fences |
| JsonCut.WhatComesBackIsValid | scripts/l1-corrective-retry.py:59-159 | for every reply: a text that comes back is valid JSON |
| JsonCut.UnchangedExactly | scripts/l1-corrective-retry.py:53-69 | a reply comes back as it is if and only if it is valid without space and fences, and is called no JSON if and only if it is not and holds no opening brace |
| JsonCut.BracketTrimmedExactly | scripts/l1-corrective-retry.py:66-79 | the bracket trim gives exactly the part from the first opening to the last closing brace, if and only if that is valid and the whole is not |
| JsonCut.CommaTrimmedIsPrefix | scripts/l1-corrective-retry.py:140-157 | for every reply: what the comma trim gives is the text from the first brace to a comma, and closing braces and brackets behind it |
| JsonCut.BraceInStringDefeatsTrim | scripts/l1-corrective-retry.py:143-157 | a concrete reply with one brace in a string that the comma trim does not repair |
| Protocol.NeverStuck | cmd/factory-fill/main.go:390-575 | for every worker behaviour a ticket is not In Progress after its cycle, if Jira answers |
| Protocol.TrueMeansBacked | cmd/factory-fill/main.go:421-502 | a dispatch returns true if and only if its own worker left a success with git evidence; a leftover file never counts |
| Protocol.DoneMeansBacked | cmd/factory-fill/main.go:507-530 | with a worker that leaves Jira alone, Done at the end of a cycle means exactly that |
| Protocol.ClassDecides | cmd/factory-fill/main.go:511-574 | class and evidence alone decide where a ticket ends, whatever Jira state its worker claims |
| Protocol.CycleEnds | cmd/factory-fill/main.go:390-575 | where every cycle ends, state by state, for every worker, also one that moves its ticket, for tickets without target files, refused ones and a missing worker |
| Protocol.FileLeft | cmd/factory-fill/main.go:595-621 | which result every dispatch leaves, and that the two the dispatcher writes are no evidence |
| Protocol.NoTargetGoesToHuman | cmd/factory-fill/main.go:398-406 | a ticket without target files goes to needs_human_context, and the next search (lines 1129-1147) does not fetch it |
| Protocol.NoWorkerIsPaused | cmd/factory-fill/main.go:432-438 | without a worker binary a ticket is PAUSED, and not fetched again |
| Protocol.FetchedAgainExactly | cmd/factory-fill/main.go:1129-1147 | a launched ticket is fetched again if and only if there is no readable result or its class is retrying or failed |
| Protocol.DispatcherAloneIsNotEnough | cmd/factory-fill/main.go:532-565 | a worker's false claim leaves a ticket In Progress until the reconciler looks |
| Protocol.ReconcilerAloneIsNotEnough | cmd/factory-fill/main.go:756-784 | the reconciler leaves a ticket of unknown class In Progress |
| Protocol.CrashLosesEvidenceCheck | cmd/factory-fill/main.go:1348-1424 | for every file and all labels: the start-up pass frees the ticket, gives Done without a backed success exactly for a class of success without evidence or, where no known class decides, for remediated tickets not blocked, and the dispatch would have given PAUSED or RETRYING |
| Protocol.CrashKeepsLeftover | cmd/factory-fill/main.go:416-425 | after a crash before the old result is removed, the pass goes by that, evidence or not |
| Protocol.LabelsGiveDone | cmd/factory-fill/main.go:1379-1423 | two inputs that become Done by their labels: no result at all, and one of unknown class |
| Protocol.StuckExactly | cmd/factory-fill/main.go:734-848 | with a worker that leaves Jira alone, a ticket stays In Progress exactly when the dispatcher's own transition was refused and neither a known class nor the labels decide |
| Protocol.StartupAgreesWithReconciler | cmd/factory-fill/main.go:1348-1424 | the start-up pass does what the reconciler of a cycle does exactly where that one acts, and leaves nothing stuck |
| Protocol.LabelsDecide | cmd/factory-fill/main.go:814-847 | without a class to go by: untouched tickets are tried again, blocked comes before ready, and the start-up pass takes what is neither for done |
| Protocol.ClassBeforeLabels | cmd/factory-fill/main.go:756-784 | with a class to go by both passes go by it, state by state |
| Protocol.RefusedChangesNothing | cmd/factory-fill/main.go:416-419 | a refused transition changes nothing; the reconciler moves only what is In Progress and found |
| Protocol.LastActStays | cmd/zen-brain/worker.go:1049-1056 | of a worker's writes the last one is what the dispatcher reads |
| Protocol.UnbackedDoneExactly | cmd/factory-fill/main.go:756-837 | a ticket ends Done without evidence exactly when the dispatcher's own transition was refused and the class, or the labels where there is no result, say so |
| Worker.RunWorkerRemediate | cmd/zen-brain/worker.go:73-127 | what the worker writes and when it exits with an error |
| Worker.RunBoundedExecution | cmd/zen-brain/worker.go:368-615 | the one result of every outcome: no-op, rejected, committed, pushed or aborted |
| Worker.EndToEnd | cmd/zen-brain/worker.go:449-608 | over worker, dispatcher and reconciler: Done exactly for a delivered change (one git does not deny), PAUSED exactly for a rejected or unpushed one, RETRYING otherwise |
| Worker.DeliveredNeeds | cmd/zen-brain/worker.go:110-559 | everything that has to go right for a delivery, check by check |
| Worker.HeldNeeds | cmd/zen-brain/worker.go:541-606 | and for a change that is held back |
| Worker.ReportsByOutcome | cmd/zen-brain/worker.go:95-127 | class and claim of the result for every place where a run can end |
| Worker.ReportNames | cmd/zen-brain/worker.go:565-583 | a result for review names the commit made, the branch if it was pushed, and one file; no other names a commit or branch |
| Worker.PacketBeforeDescription | cmd/zen-brain/worker.go:388-409 | the file changed is the packet's, and the description's only where the packet names none |
| Worker.ChangesFirstInferred | cmd/zen-brain/worker.go:388-409 | it is the first path the dispatcher inferred, whatever the description names |
| Worker.DoneIsEarnedExactly | cmd/zen-brain/worker.go:485-513 | in one world: Done exactly for a change that hash and git confirm, unless it was delivered with a diff that did not run |
| Worker.DoneMeansEarnedExactly | cmd/zen-brain/worker.go:485-513 | over all worlds with one outcome of the diff: Done exactly for changes that hash and git confirm, if and only if the diff ran |
| Worker.UnrunDiffIsBelieved | cmd/zen-brain/worker.go:485-513 | every change that would be Done is Done too when its diff cannot run |
| Worker.DoneWithoutDiff | cmd/zen-brain/worker.go:485-513 | a concrete world and dispatch that end Done although no diff ran |
| Worker.WholeCycle | cmd/factory-fill/main.go:710-728 | a whole cycle takes every ticket where its worker's world sends it, and Done grows by the deliveries |
| FillCycle.StepsAreDispatch | cmd/factory-fill/main.go:390-503 | the atomic steps of a goroutine, taken together, are the dispatch |
| FillCycle.RunsKeepInv | cmd/factory-fill/main.go:710-725 | in every reachable state each dispatch is on course and the counters equal what the goroutines have done |
| FillCycle.ActiveInBounds | cmd/factory-fill/main.go:666-716 | Active stays between its starting value and the desired concurrency |
| FillCycle.EveryInterleaving | cmd/factory-fill/main.go:710-725 | after the wait, in any interleaving, every ticket is as its own dispatch alone leaves it, Active is back, Done and Failed count the dispatches |
| FillCycle.NeverBlocked | cmd/factory-fill/main.go:710-725 | until all goroutines have exited one of them can step |
| FillCycle.AllAtOnce | cmd/factory-fill/main.go:710-724 | the main loop waits for nobody: all tickets picked can be in dispatch at once |
| FillCycle.FirstSteps | cmd/factory-fill/main.go:416-425 | a ticket is In Progress before its old result is removed, and that is gone before the worker acts |
| FillCycle.RunsAreFinite | cmd/factory-fill/main.go:710-725 | no interleaving outlasts the work it starts with |
| FillCycle.AfterCycle | cmd/factory-fill/main.go:625-853 | after dispatch and reconciliation no dispatched ticket is In Progress, others are untouched, counters add up |
| FillCycle.HistoryCounts | cmd/factory-fill/main.go:1493-1500 | over any sequence of cycles Done and Failed grow by what was dispatched and Active is always back |
| FactoryFill.Factory.HandleTerminalResult | cmd/factory-fill/main.go:507-575 | the branch table over terminal classes; only this ticket changes |
| FactoryFill.Factory.ReadAndHandle | cmd/factory-fill/main.go:476-502 | a missing or unreadable result gives RETRYING, whether the worker crashed or not |
| FactoryFill.Factory.DispatchTicket | cmd/factory-fill/main.go:390-503 | the dispatch as the protocol has it: old result removed first, fail closed without a worker, only this ticket touched |
| FactoryFill.Factory.ReconcileTicket | cmd/factory-fill/main.go:739-848 | one ticket's reconciliation by file, else by labels |
| FactoryFill.Factory.ReconcileDispatchedStates | cmd/factory-fill/main.go:734-853 | every dispatched ticket is reconciled and nothing else changes |
| FactoryFill.Factory.UnstickTicket | cmd/factory-fill/main.go:1348-1424 | one ticket of the start-up pass |
| FactoryFill.Factory.ReconcileStuckInProgress | cmd/factory-fill/main.go:1333-1430 | every ticket found is moved on if Jira accepts, nothing else changes, and the count is right |
| FactoryFill.Factory.RunGoroutine | cmd/factory-fill/main.go:714-723 | one dispatch adds one to Done or to Failed and gives its Active back |
| FactoryFill.Factory.RunDispatches | cmd/factory-fill/main.go:710-725 | the goroutines in launch order |
| FactoryFill.Factory.RunFillCycle | cmd/factory-fill/main.go:625-729 | picks at most the free slots, leaves out nothing that outranks a picked ticket, takes every picked ticket through its own cycle and changes no other |
| FactoryFill.PickTickets | cmd/factory-fill/main.go:697-706 | picked and left out are together the ready tickets, no ticket left out outranks a picked one |
| FactoryFill.ReadyIsSelection | cmd/factory-fill/main.go:1149-1157 | the filter keeps exactly the ready tickets, and distinct keys stay distinct |
| TicketSort.FilterReady | cmd/factory-fill/main.go:1149-1157 | the loop builds the ready tickets in order |
| TicketSort.OutOfOrder | cmd/factory-fill/main.go:1180-1189 | the comparison of the loop is the order by readiness, then priority |
| TicketSort.SortTicketsByPriority | cmd/factory-fill/main.go:1159-1192 | the in-place exchange sort permutes and orders |
| TicketSort.TwoKindsPass | cmd/factory-fill/main.go:1152 | nothing but the two kinds of readiness is dispatched |
| TicketSort.RankByName | cmd/factory-fill/main.go:1160-1177 | ready for execution before ready with review, and then highest, high, medium and the rest |
| Inference.ScanPattern | cmd/factory-fill/main.go:931-961 | the scan for one prefix, capped by how many candidates came before |
| Inference.InferTargetFiles | cmd/factory-fill/main.go:894-999 | the inferred paths exist, do not end in a slash and are pairwise distinct |
| Inference.CandidatesAreTableAndText | cmd/factory-fill/main.go:919-962 | the candidates are the files of the components mentioned and then every path the text names, by prefix and position, up to ten in all; no occurrence is skipped |
| Inference.NoDirectoryExactly | cmd/factory-fill/main.go:968-984 | no inferred path is a directory if and only if none among those files and paths exists as one without a final slash |
| Inference.DirectoryComesOut | cmd/factory-fill/main.go:968-1005 | a description naming the directory `docs/01-ARCHITECTURE/.backup` gives it as a target file |
| Inference.FoundExactly | cmd/factory-fill/main.go:934-952 | a path runs exactly up to a space, line break, tab, quote, comma or closing parenthesis or brace, and counts if it has a dot and more than three characters behind its prefix |
| Inference.RestoredSpelling | cmd/factory-fill/main.go:946-950 | its spelling is the description's, at the first place that agrees but for case |
| Inference.MentionedIsInferred | cmd/factory-fill/main.go:919-925 | a component mentioned brings its files that are on disk |
| Inference.TableNames | cmd/factory-fill/main.go:902-917 | the components and their files |
| Inference.PatternOrder | cmd/factory-fill/main.go:928 | the prefixes in the order they are gone through |
| Inference.NoMoreThanTen | cmd/factory-fill/main.go:932 | no path of the text is taken once there are ten candidates |
| Inference.KeptInOrder | cmd/factory-fill/main.go:968-994 | a candidate is kept, in its place, if it is acceptable and the first of its name |
| Inference.FirstInferred | cmd/factory-fill/main.go:968-994 | the first path inferred is the first acceptable candidate |
| Inference.DedupDistinct | cmd/factory-fill/main.go:986-994 | removing duplicates keeps exactly the same paths, each once |
| Inference.HitsOfPermutation | cmd/factory-fill/main.go:919-925 | any order of the component map finds the same paths |
| Inference.ScanAllOfPermutation | cmd/factory-fill/main.go:927-962 | the explicit paths found do not depend on the order of the candidates before them |
| Inference.OrderDoesNotMatter | cmd/factory-fill/main.go:894-999 | for any two orders of the component map the results are permutations of each other |
| Inference.InferredAreLines | cmd/factory-fill/main.go:934-952 | no inferred path holds a line break, if no file of the table does |
| Inference.WorkerGetsFirstInferred | cmd/zen-brain/worker.go:391-400 | the worker reads out of the packet the first path the dispatcher inferred, if that is clean, whatever the others are |
| Packet.GenerateExecutionPacket | cmd/factory-fill/main.go:1008-1033 | the text written is the listed lines |
| Packet.ExtractTargetFileFromPacket | cmd/zen-brain/worker.go:747-771 | the loop returns the first usable path of the lines |
| Packet.FilesRead | cmd/zen-brain/worker.go:750-769 | reading back the file entries gives the first usable one, or goes on behind them |
| Packet.TailLinesFixed | cmd/factory-fill/main.go:1021-1030 | no other line of the packet can be taken for a path entry |
| Packet.PacketRoundTrip | cmd/zen-brain/worker.go:747-771 | for any paths without a line break, extraction of the generated packet gives the first usable path |
| Packet.CleanRoundTrip | cmd/factory-fill/main.go:1008-1033 | for paths without space or outer quotes that is the first non-empty one that does not end in a slash, or none |
| Packet.PacketShape | cmd/factory-fill/main.go:1011-1030 | which line of the packet is which, for any number of files |
| Packet.QuotesGo | cmd/zen-brain/worker.go:755-757 | a pair of quotes of either kind around a path is not part of it |
| Packet.PassedOver | cmd/zen-brain/worker.go:758-766 | an entry that is empty, a directory or holds a space is passed over |
| PathScan.NoOverlap | cmd/zen-brain/worker.go:734-739 | an occurrence of a prefix cannot overlap another one |
| PathScan.StepSkipsNothing | cmd/zen-brain/worker.go:734-739 | stepping by the length of the prefix skips no occurrence that qualifies |
| PathScan.ScanPrefix | cmd/zen-brain/worker.go:711-741 | finds the first occurrence of a prefix that qualifies, or there is none |
| PathScan.DetermineTargetFile | cmd/zen-brain/worker.go:698-744 | sound and complete: empty exactly when no occurrence of any prefix qualifies, else the first of the first prefix |
| PathScan.CutAtStop | cmd/zen-brain/worker.go:717-724 | a path runs exactly up to one of the nine characters that stop it |
| PathScan.ListedPathQualifies | cmd/zen-brain/worker.go:708-733 | every path with a listed prefix and extension, and more than two characters behind the prefix, qualifies wherever it stands |
| PathScan.QualifiesOnlyListed | cmd/zen-brain/worker.go:726-731 | nothing without a listed extension does |
| PathScan.PrefixOrder | cmd/zen-brain/worker.go:708 | the prefixes in the order they are tried |
| Candidates.KeyIsInjective | cmd/useful-batch/main.go:300 | keys are equal exactly for the same file and category |
| Candidates.FirstPerKey | cmd/useful-batch/main.go:298-306 | the first pass |
| Candidates.CapPerCategory | cmd/useful-batch/main.go:308-316 | the second pass |
| Candidates.CappedSelects | cmd/useful-batch/main.go:308-316 | the cap selects in order and keeps three of a category or all of it |
| Candidates.CappedExactly | cmd/useful-batch/main.go:311-316 | it keeps a candidate exactly if fewer than three of its category are kept before it |
| Candidates.DeduplicateCandidates | cmd/useful-batch/main.go:294-328 | the three passes and the new numbers |
| Candidates.SelectionIsSound | cmd/useful-batch/main.go:294-328 | an order-keeping selection of first occurrences, at most three a category, at most the total, numbered from 1, standing at `OutputAt` |
| Candidates.SelectedExactly | cmd/useful-batch/main.go:294-328 | a first occurrence comes out if and only if three of its category do not come out before it and the output is not full before it |
| Candidates.SelectionIsComplete | cmd/useful-batch/main.go:294-328 | a missing file and category: before its first candidate three earlier ones fill the category, or the output is full |
| FindingLimit.LimitLines | cmd/useful-batch/main.go:462-478 | the loop over lines; trimmed says exactly whether a line went |
| FindingLimit.EnforceMaxFindings | cmd/useful-batch/main.go:456-481 | the same on text |
| FindingLimit.OnlyDataRowsGo | cmd/useful-batch/main.go:462-478 | the result is a subsequence that lacks nothing but counted data rows beyond the limit |
| FindingLimit.LimitedTwice | cmd/useful-batch/main.go:462-478 | limiting again changes nothing, and exactly the allowed number of data rows stays |
| FindingLimit.EnforcedIsStable | cmd/useful-batch/main.go:456-481 | the same through join and split |
| FindingLimit.NeverDropped | cmd/useful-batch/main.go:464 | text, separators and rows that begin with a numbered heading all stay, however often they occur |
| FindingLimit.HeaderStays | cmd/useful-batch/main.go:465-470 | a header stays exactly while no data row has gone before it |
| FindingLimit.FirstRowsStay | cmd/useful-batch/main.go:471-477 | of data rows the first ones, up to the limit, are left |
| Evidence.BuildEvidenceBundle | cmd/useful-batch/main.go:377-405 | the loop with its running counter builds the bundle |
| Evidence.PartsStayInBudget | cmd/useful-batch/main.go:388-398 | the running counter bounds the lines of all parts with their labels and separators |
| Evidence.JoinPartsLines | cmd/useful-batch/main.go:404 | the line count of the joined text |
| Evidence.BundleUnderBudget | cmd/useful-batch/main.go:377-405 | whatever the commands print, the bundle has fewer than 80 lines |
| Evidence.NothingLostThatFits | cmd/useful-batch/main.go:382-399 | evidence that fits into the budget is shown whole |
| Evidence.CutOnlyWhenFull | cmd/useful-batch/main.go:388-394 | something is cut or left out only if 78 of the 80 lines are used |
| Evidence.PartsAreFirstLines | cmd/useful-batch/main.go:382-399 | every part is a label and the first lines its own command printed, in the order of the commands |
| Evidence.NothingGathered | cmd/useful-batch/main.go:401-403 | the text that says nothing was gathered, when nothing was printed |
| Evidence.JoinedByBlank | cmd/useful-batch/main.go:404 | one blank line between two parts |
| WorkerPool.RunsKeepInv | cmd/useful-batch/main.go:664-736 | in every reachable state semaphore, wait group, results and success counter agree with the goroutines |
| WorkerPool.AtMostWorkersLive | cmd/useful-batch/main.go:665-676 | never more goroutines hold the semaphore than it has places |
| WorkerPool.SlotsAreWrittenOnce | cmd/useful-batch/main.go:826 | a result slot that changes was empty before |
| WorkerPool.OverMeansComplete | cmd/useful-batch/main.go:874-887 | after the wait every slot is filled and `succeeded` is the number of successes in them |
| WorkerPool.DeadlockFree | cmd/useful-batch/main.go:664-676 | no reachable state is stuck if and only if there is a worker or nothing to do |
| WorkerPool.NoWorkersIsStuck | cmd/useful-batch/main.go:665-673 | with no worker the first send blocks for good |
| WorkerPool.RunsAreFinite | cmd/useful-batch/main.go:671-874 | no interleaving is longer than six steps a report job, and one |
| WorkerPool.AllPlacesUsable | cmd/useful-batch/main.go:665-676 | as many tasks as there are places can be live at once |
| WorkerPool.SlotsHoldOutcomes | cmd/useful-batch/main.go:775-826 | in the end slot `i` holds how task `i` turned out, in whatever order they finished |
| Ledger.UpdatedLookup | cmd/finding-ticketizer/main.go:230-257 | an update sets one fingerprint's entry and no other |
| Ledger.UpdatedDistinct | cmd/finding-ticketizer/main.go:230-257 | fingerprints stay distinct |
| Ledger.UpdatedInPlace | cmd/finding-ticketizer/main.go:232-256 | entries keep their places, and a new fingerprint goes to the end |
| Ledger.EntryTells | cmd/finding-ticketizer/main.go:234-256 | every field of the entry after an update: a new key replaces the old one, no key keeps it |
| Ledger.DecisionTells | cmd/finding-ticketizer/main.go:914-946 | what every decision comes to: a creation is entered under its own key whatever was linked before, an update keeps the link, noise is marked |
| Ledger.ConfidentExactly | cmd/finding-ticketizer/main.go:957-971 | when a finding is concrete enough; two of the tests never decide |
| Ledger.PassesExactly | cmd/finding-ticketizer/main.go:857-882 | a finding passes if and only if it is the first with its fingerprint, a linked one was last seen a day ago, it is concrete, and there is room |
| Ledger.FindingLedger.FindExistingMatch | cmd/finding-ticketizer/main.go:221-228 | the first entry of a fingerprint, if any |
| Ledger.FindingLedger.UpdateLedgerEntry | cmd/finding-ticketizer/main.go:230-257 | the in-place update or the append |
| Ledger.FindingLedger.FilterFindings | cmd/finding-ticketizer/main.go:853-882 | which findings pass the filter |
| Ledger.FindingLedger.TicketizeFinding | cmd/finding-ticketizer/main.go:889-948 | what one decision does to the ledger, and whether it creates a ticket |
| Ledger.FindingLedger.Run | cmd/finding-ticketizer/main.go:852-951 | a whole run from findings to saved ledger |
| LedgerHistory.ActionableAdmitted | cmd/finding-ticketizer/main.go:853-882 | what passes the filter is distinct, out of its cool-down and within the limit |
| LedgerHistory.UpdateEvolves | cmd/finding-ticketizer/main.go:230-257 | an update keeps FirstSeen, never moves LastSeen back and never unlinks |
| LedgerHistory.RunCreates | cmd/finding-ticketizer/main.go:889-948 | what a run creates is for distinct findings, within its time, and is what the saved ledger says: its own key, its own stamp, ticketed |
| LedgerHistory.RunKeepsSound | cmd/finding-ticketizer/main.go:852-951 | a run keeps the ledger sound and its creations apart from all earlier ones |
| LedgerHistory.HistoryIsSound | cmd/finding-ticketizer/main.go:852-951 | so does any sequence of runs that do not overlap |
| LedgerHistory.SpacedGap | cmd/finding-ticketizer/main.go:863-871 | two creations for a fingerprint are more than 24 hours less one second apart, and 24 hours if the first was saved in a second that began no earlier, as after a creation on a whole second |
| LedgerHistory.SafeKeepsDay | cmd/finding-ticketizer/main.go:853-951 | if all runs so far saved in time, all creations with those of any next run are a full day apart |
| LedgerHistory.UnsafeLosesDay | cmd/finding-ticketizer/main.go:853-951 | if one did not, there is a run behind it that creates a second ticket within the day |
| LedgerHistory.FullDayExactly | cmd/finding-ticketizer/main.go:230-257 | over any sequence of runs, with any run next at any point: a full day between tickets for one fingerprint if and only if every ticket was saved in a second that began no earlier than its creation, or by a run that lasted another day |
| LedgerHistory.CooldownIsExact | cmd/finding-ticketizer/main.go:864-871 | the same for one entry and the filter's test |
| LedgerHistory.LimitHoldsFromOne | cmd/finding-ticketizer/main.go:878-881 | the limit on findings is kept for all inputs if and only if it is at least one |
| LedgerHistory.TwoTicketsWithinADay | cmd/finding-ticketizer/main.go:863-869 | two concrete runs that create two tickets for a finding within 24 hours |
| BulkClose.FindingType | scripts/jira-drain.py:151-158 | the type in a finding's summary |
| BulkClose.TypeOfNamed | scripts/jira-drain.py:155-157 | the name before the first colon is the type, without the space around it and with underscores |
| BulkClose.TypeIgnoresPrefix | scripts/jira-drain.py:152-158 | findings of one name are of one type under any of the three prefixes |
| BulkClose.Categorize | scripts/jira-drain.py:130-166 | one pass sorts the issues into defects, batches and types, in order of first appearance |
| BulkClose.KeepNewest | scripts/jira-drain.py:171-179 | the first of each sorted group stays, the rest goes |
| BulkClose.BulkCloseStale | scripts/jira-drain.py:120-208 | the plan, and closed plus errors is its length |
| BulkClose.SortSorts | scripts/jira-drain.py:176 | largest creation text first |
| BulkClose.TieGoesToFirstFetched | scripts/jira-drain.py:176 | among several issues with the largest creation text the one fetched first stays |
| BulkClose.PlanIsPartition | scripts/jira-drain.py:130-179 | every issue is a defect, is kept or is to be closed, with its multiplicity |
| BulkClose.OneOfEachTypeStays | scripts/jira-drain.py:171-179 | every type keeps exactly one issue, and none of its type has a larger creation text |
| BulkClose.ClosedIsSuperseded | scripts/jira-drain.py:171-179 | an issue to be closed is no defect, and if it is a finding one of its type stays whose creation text is at least as large |
| BulkClose.LabelsDecide | scripts/jira-drain.py:142-166 | defect keeps an issue whatever else it is labelled; otherwise scheduled-batch, or the lack of finding, closes it |
| BulkClose.DefectsInOrder | scripts/jira-drain.py:142-144 | the defects are exactly the issues labelled so, in the order they were fetched |
| BulkClose.OtherwiseOther | scripts/jira-drain.py:152-158 | a finding without a known prefix or a colon is of the type other |
| BulkClose.BatchesFirst | scripts/jira-drain.py:172-178 | batch parents are closed before any finding |
| BulkClose.TypesInOrder | scripts/jira-drain.py:160-162 | the types come in the order of their first issues |
| BulkClose.AcceptedCounts | scripts/jira-drain.py:187-204 | closed is the number of transitions that went through |
| BulkClose.SecondRunClosesNothing | scripts/jira-drain.py:120-179 | what one run leaves, fetched in any order, the next run leaves alone |
| CreationTime.FieldsOrder | internal/office/jira/types.go:24-29 | the order of two texts in the tracker's layout is that of their fields, then of what follows |
| CreationTime.LocalOrder | internal/office/jira/types.go:24-29 | the order of the fields is that of local time, by the calendar |
| CreationTime.TextOrderIsTimeOrderExactly | scripts/jira-drain.py:176 | text order is time order for all local times if and only if the offsets agree |
| CreationTime.OlderStays | scripts/jira-drain.py:174-178 | for any two offsets a backlog of which the older issue stays |
| CreationTime.StaysNewestExactly | scripts/jira-drain.py:174-178 | in every backlog the issue that stays is the newest of its type in time, if and only if all creation texts have one offset |

## Left out

- HTTP, Jira, language-model and git calls, files, environment and credentials: parameters of the model.
- The commands that gather evidence and their own line caps: any output is allowed.
- The JSON repair's unused first scan (lines 87-116) and its key extraction (lines 161-192): a reply that gets there is `NotTrimmed`.
- JSON readers are taken to accept exactly the texts of RFC 8259 and the three literals Python adds; limits on nesting and digits are not modelled.
- Text is a sequence of characters. Byte offsets, and letters outside ASCII whose lower case is longer or shorter, are not modelled.
- The worker's proposal-only mode, which hands over to another program.
- A dispatch sees no writer of its result file or its ticket other than its own worker; removing the old file and writing the dispatcher's own results succeed; the backlog search returns distinct keys; worker and dispatcher share one result directory.
- FactoryFill.Factory.RunDispatches: runs the goroutines one after the other; the interleavings are states and steps in `FillCycle`, which is proved to give the same board.
- The desired concurrency is an arbitrary number; the controller behind it, dashboards, metrics and log lines are not modelled.
- Inference.InferTargetFiles: does not promise that no path is a directory, because the code does not; `Inference.NoDirectoryExactly` says when it holds.
- LedgerHistory.HistoryIsSound: counts the 24 hours from the start of the second of the first save, because the code keeps no more; `LedgerHistory.FullDayExactly` says when that is a full day.
- Worker.EndToEnd: takes a diff that could not run for a change, as the code does; `Worker.DoneIsEarnedExactly` says when that matters.
- The ticketizer's counters of updated and skipped findings, and its roadmap pass, which shares the ledger functions.
- The source of findings, fingerprints and file hashes: any values, a fingerprint with at least eight characters.
- WorkerPool models each report job as one outcome; evidence, prompt, validation and telemetry within it touch no shared state.
- Evidence.BundleUnderBudget: labels are taken to hold no line break, as all of those in the source do.
- The bulk close's comments, pauses, progress lines and search, and the evidence file it saves.
- BulkClose.OneOfEachTypeStays: speaks of the order of the creation texts, because the code does; `CreationTime.StaysNewestExactly` says when that is time. Only the first layout of `internal/office/jira/types.go` is modelled, the one its comment says Jira returns.
- Readiness classification, report validation, the other stewards and gates, schedulers and pilots: short branch tables or near copies of what is modelled.
