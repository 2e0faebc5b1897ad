# Evaluation pipeline, contest data and reference solutions: a Dafny model

This project models the judging back end of a programming contest platform and proves what its parts promise one
another. It has four parts.

* **The staged pipeline** (`Pipeline*.dfy`, `AdmissionGate.dfy`, `ProgressCounter.dfy`, `PollWindow.dfy`,
  `RetryBudget.dfy`). SUBMIT sends the testcases of a submission to Judge0 and schedules it in Redis, a poller dispatches PERSIST when the results are
  in or the deadline has passed, and PERSIST writes the verdict and gives the capacity back. `PipelineService` holds
  the stages as methods of a class with the Redis and database state in mutable fields; each method is proved against
  a function of `PipelineState` on the value of that state. `PipelineRuns` lets the stages interleave with
  redelivered SUBMITs, duplicate or stray PERSISTs, workers that die, expiring contexts, new bulk runs, deleted rows,
  replaced testcases and manual scores. The other `Pipeline` modules prove what holds of every such run:
  `PipelineGates` about capacity, `PipelineProgress` and `PipelineClaims` about bulk runs, `PipelineNoLoss` and
  `PipelineStanding` about single submissions, `PipelineRows` about verdicts and rows, and `PipelineRedelivery` and
  `PipelineOverlap` give runs in which something goes wrong. `PipelineMeaning` says what every stage and every event does
  field by field, without the functions the stages are proved against. `AdmissionGate`, `ProgressCounter` and `PollWindow` look at
  the counters and the schedule once more, one Redis command at a time.
* **Attribution and verdicts** (`Judge0Repository.dfy`, `Evaluation.dfy`, `Attribution.dfy`, `Verdict.dfy`): chunked
  Judge0 calls, the alignment of tokens and testcases, the aggregation loop, and the three definitions of a verdict.
* **Derived contest data** (`QuestionOrder.dfy`, `ContestOrders.dfy`, `MemberScores.dfy`, `Ranking.dfy`): the two-step
  reordering under a unique constraint, the live score recompute, and the two ways a team's rank is computed.
* **Reference solutions** (`SubarraySum.dfy`, `MinWindow.dfy`, `UniqueTriplets.dfy`): three loop programs of the
  question bank, each against its problem statement.

`Collections.dfy` holds a few facts about finite sets, maps and sums. `dafny verify dfyconfig.toml` checks everything.

## Assumptions

* In the `Pipeline` modules one SUBMIT, poll pass or PERSIST, or the part of it a dying worker completes, is one step.
  `AdmissionGate`, `ProgressCounter` and `PollWindow` lift this for the gates, for progress and for the poller's
  dispatch.
* A context leaves Redis only through PERSIST or through the event `Expire`. A worker that dies inside SUBMIT, after
  cleaning the row or after taking one or both gates, is the event `SubmitCrash`; one that dies between two commands of
  PERSIST is `PersistCrash`. Both keep their message, and so does a SUBMIT or PERSIST that is handled but not
  acknowledged (`acked` is false).
* The terminal write of SUBMIT and of the give-up path succeeds. PERSIST may fail before or after its own write of
  SYSTEM_ERROR (`CollectFails`).
* Judge0 answers one item per posted submission, in order, and a fetch answers under the token asked for. Whole
  requests may fail. The batch size is positive.
* Run ids and submission ids are fresh (uuid4). A bulk run lists each submission once.
* Replacing a question's testcases removes all testcase rows of the submissions it affects.
* The clock, the answers of Judge0, the score formula, the comparison made by the execution strategy and the row order
  of an UPDATE are parameters, so every statement holds for all of them.

## Where the code does not do what it says

Each of these is proved, with the exact condition where one exists.

* `persist` documents that an unresolved testcase of a timed-out submission becomes TLE. That holds exactly for
  testcases Judge0 reports nothing about; one that is still queued or running is recorded as SYSTEM_ERROR
  (`Attribution.TimedOutUnresolvedIff`).
* A question without testcases is published as AC, and `Submission.status` then reads SYSTEM_ERROR, because no rows
  are stored (`Attribution.EarlyExitShownIff`). The same happens when every testcase was deleted before PERSIST
  (`Attribution.ShownAsPublishedIff`).
* `Submission.status` is the first failing row, but the relationship it reads has no order, and the two SQL verdicts
  use a severity order (`Verdict.OrderFreeIff`, `Verdict.AgreeOnFailureIff`). The analytics columns leave out
  pending submissions and evaluated ones without rows (`Verdict.AnalyticsColumnsCoverAllIff`).
* A bulk SUBMIT that finds its submission pending for another owner returns without counting it, and the run can then
  never complete (`PipelineOverlap.RunStalls`, exactly when by `PipelineClaims.OverlapStalls`, and for every way of
  losing a claim `PipelineClaims.BulkCompletes`).
* A submission can be left with neither a verdict nor anything that would still produce one, for instance when its
  live SUBMIT is dropped because a bulk run has it pending and that run is then superseded
  (`PipelineOverlap.LiveStranded`, exactly when by `PipelineStanding.StrandedIff`).
* A PERSIST whose worker dies after deleting the context is delivered again and then finds nothing to do: the capacity
  it had not given back leaks, and its run has lost the submission (`PipelineGates.GatesBalance`,
  `PipelineClaims.StepRobbedIff`).
* The poller removes a schedule entry after sending the PERSIST message. A registration in between can be lost
  (`PollWindow.AbandonedIff`).
* A late redelivered bulk SUBMIT can wipe a verdict that its run has already counted, and the run completes without
  one (`PipelineStanding.CountedLostIff`, `PipelineRedelivery.RedeliveryLosesVerdict`). Single delivery excludes this
  (`PipelineStanding.BulkJudgedIff`).
* The clamp at zero repairs a surplus release only where it comes into play. Clamped at once, a surplus release costs a
  unit exactly when it finds the counter positive (`AdmissionGate.SurplusCostsIff`); until the gate has drained, as many
  more than the cap as it has cost can hold (`AdmissionGate.OverAdmitsIff`); and a drained gate owes nothing, unless a
  rejected attempt, whose DECRBY nothing clamps, has left the counter below zero (`AdmissionGate.DrainedOwesIff`,
  `AdmissionGate.UndercutLeavesDebt`). A late SET forgets the workers admitted since its DECRBY, and then one surplus
  release admits any number (`AdmissionGate.ClampForgets`).
* A worker that dies between SADD and INCR leaves its run short for good (`ProgressCounter.QuietCompletedIff`).
* The two-step reordering is documented to avoid constraint violations, and by itself it removes conflicts among the old
  orders only (`QuestionOrder.ReorderSafeIff`). Its one caller makes up for that: every reordering the service accepts
  goes through (`ContestOrders.ServiceHistory`).
* The live recompute counts questions that have left the contest, the contest-wide one does not
  (`MemberScores.RecomputesAgreeIff`). A re-evaluation that ends in an early exit rescores the submission to 0 with
  no recompute, and a reopening is not followed by one either (`MemberScores.SilentZeroStaleIff`,
  `MemberScores.ReopenStaleIff`).
* Replacing a question's testcases turns the verdict of its evaluated submissions into SYSTEM_ERROR
  (`PipelineRows.ReplacementShownIff`).
* The leaderboard is ordered by score and name, and names need not be unique: scrolling through its pages can show a
  team twice and miss another (`Ranking.PagingCompleteIff`, `Ranking.LeaderboardPagingIff`).

## Model

| member | source | states |
|---|---|---|
| `PipelineGates.GatesBalance` | worker/redis_helper.py:160-220 | In every run from an empty pipeline the global counter is the number of live contexts plus the capacity leaked so far, each slot counter is that for its own run, both stay within their caps, releasing a live context would be clamped in neither, and SUBMIT's entry condition `Healthy` holds |
| `PipelineGates.StepLedger` | worker/evaluation_service.py:583-668 | No single event changes a counter's excess over its holders except by the leak defined for that event |
| `PipelineGates.SubmitGates` | worker/evaluation_service.py:597-668 | A SUBMIT that does not register, whatever the exit, leaves both gates, the contexts and the run records as it found them; one that registers was admitted by both gates |
| `PipelineGates.RegisterLedger` | worker/evaluation_service.py:583-644 | Registering raises the holders and the counters together; only registering over a live context leaks one unit, of the run that owned that context |
| `PipelineGates.DropLedger` | worker/evaluation_service.py:746-751 | Cleaning up gives back exactly what the context held, so no excess appears |
| `PipelineGates.NeverClamps` | worker/redis_helper.py:179-220 | While the ledger holds, a live context stands for at least one unit of each gate that admitted it |
| `PipelineProgress.RunOwns` | worker/redis_helper.py:226-355 | As long as no new run of the contest starts, the counted set stays inside the run's submissions, the processed counter is its size, and only the run's own submissions are queued or registered for it |
| `PipelineProgress.StartOwns` | app/service/contest_service.py:1017-1060 | Starting a run establishes that ownership for exactly the listed submissions, with nothing counted |
| `PipelineProgress.CompletedIff` | worker/redis_helper.py:266-281 | A run reads COMPLETED exactly when every one of its submissions is counted, and an uncounted submission always sees its run as valid |
| `PipelineProgress.StatusIff` | worker/redis_helper.py:266-281 | A run reads PENDING exactly while nothing of it is counted, RUNNING exactly while something but not everything is, and COMPLETED from then on; over no submissions it is COMPLETED at once |
| `PipelineProgress.NeverCompletes` | worker/redis_helper.py:284-355 | Once some submission of the run is uncounted and nothing queued or registered could count it, the run stays current and never reads COMPLETED, whatever events follow |
| `PipelineClaims.StepRobbedIff` | worker/evaluation_service.py:509-526 | For every kind of event: it leaves a submission of a current run with nothing that could count it exactly when it robs the last claim, by an acknowledged SUBMIT that finds it pending elsewhere, a foreign SUBMIT that registers over the run's context, a PERSIST that dies after deleting it, or its expiry |
| `PipelineClaims.UnclaimedIff` | worker/evaluation_service.py:509-526 | Over a whole run that stays current a claim is gone exactly when it was missing at the start or some event robbed it |
| `PipelineClaims.DrainedIff` | worker/redis_helper.py:329-355 | Over a whole run that stays current: once drained it is COMPLETED exactly when no event on the way robbed a submission of its last claim, and a robbed one keeps it from completing at any time |
| `PipelineClaims.BulkCompletes` | worker/evaluation_service.py:852-858 | For a run started in any state, over submissions that may be queued or registered for other owners: it reads COMPLETED exactly when its counted set is its submissions, and once drained exactly when none of them was robbed |
| `PipelineClaims.BulkNotLost` | worker/evaluation_service.py:479-668 | Every submission of such a run is queued for it, registered for it or counted exactly as long as it has not been robbed, and sees the run as valid while uncounted; if it was idle at the start and nothing else takes it up, single delivery keeps it in exactly one of four places |
| `PipelineClaims.StartedOnlyClaim` | app/service/contest_service.py:1046-1060 | Starting a run, in any state, makes its one message the only claim it has on each of its submissions |
| `PipelineClaims.OverlapStalls` | worker/evaluation_service.py:521-526 | A run's one message for a submission stays its only claim for any number of events; its first delivery, acknowledged, loses the submission for good exactly when that is pending at that moment, and then the run does not complete, whatever follows |
| `PipelineOverlap.RunStalls` | worker/evaluation_service.py:521-526 | Four events from an empty pipeline stall a run: a live submission is accepted and registers, a run takes it up, and the run's SUBMIT finds it pending |
| `PipelineProgress.ClaimLostIff` | worker/evaluation_service.py:509-526 | Delivering the last claim of a submission loses it exactly when the submission is already pending, which is then for another owner |
| `PipelineProgress.SubmitEffect` | worker/evaluation_service.py:479-713 | What one delivery of SUBMIT does to contexts, schedule, counted set and counter: exactly the concluding exits count, once, and only for a current run |
| `PipelineProgress.PersistEffect` | worker/evaluation_service.py:718-858 | PERSIST removes the context, and counts its submission, once, exactly when the context's run was valid on entry |
| `PipelineProgress.CutEffect` | worker/evaluation_service.py:746-751 | A PERSIST whose worker dies between two commands counts nothing, and drops the context exactly when it got as far as deleting it |
| `PipelineProgress.CutIsPrefix` | worker/evaluation_service.py:746-858 | A whole PERSIST is its longest cut followed by the progress step |
| `PipelineProgress.SubmitDb` | worker/evaluation_service.py:422-461 | A SUBMIT leaves the database alone, cleans the row, or puts the terminal verdict on the cleaned row, by exit |
| `PipelineStanding.StepMoves` | worker/evaluation_service.py:479-858 | For every event and every submission, whoever owns it: exactly when it gains a verdict, loses one, is stranded with neither a verdict nor a message nor a context, or is taken up again |
| `PipelineStanding.StrandedIff` | worker/evaluation_service.py:479-858 | At the end of any run a submission is stranded exactly when some event stranded it (a SUBMIT turned away, a PERSIST that drops it, or expiry) and no later run or deletion took it up |
| `PipelineOverlap.LiveStranded` | worker/evaluation_service.py:753-759 | Seven events from an empty pipeline strand a live submission: a run's SUBMIT registers first, the live one is dropped, the run is superseded, and PERSIST drops the context |
| `PipelineStanding.LiveNotLost` | app/service/student/contest_question.py:755-773 | From acceptance on, with redelivery, crashes and bulk runs that take it up, a live submission is judged, queued or registered unless an event has stranded it for good; it is always collectable; and with single delivery and no other owner it is in exactly one of four places |
| `PipelineStanding.BulkJudgedIff` | worker/evaluation_service.py:753-859 | Once nothing is queued or registered for a submission of a run, it has its verdict exactly when no event stranded it for good, which single delivery without another owner rules out |
| `PipelineStanding.SubmitUnsettlesIff` | worker/evaluation_service.py:158-163 | A delivery takes an existing verdict away exactly when it is a re-evaluation that the guards let through, that reads the row, and that does not conclude |
| `PipelineStanding.CountedLostIff` | worker/evaluation_service.py:753-759 | A counted submission with its verdict stays counted; it ends with neither a verdict nor anything under way exactly when an event wipes the verdict and a later one strands what that left |
| `PipelineNoLoss.StepHeld` | worker/evaluation_service.py:495-713 | One event cannot make an owned submission disappear from the queue, from Redis and from the concluded ones at once |
| `PipelineNoLoss.StepSingle` | worker/evaluation_service.py:514-526 | With acknowledged deliveries at most one SUBMIT or context ever stands for a submission, none once it is counted, and with neither its verdict is in |
| `PipelineNoLoss.RunCollectable` | worker/poller.py:136-148 | Throughout every run that starts so, as an empty pipeline does, a registered submission that is off the schedule has a PERSIST message queued |
| `PipelineNoLoss.StepCollectable` | worker/poller.py:136-148 | No event, of any kind, breaks that |
| `PipelineNoLoss.OnePlace` | worker/evaluation_service.py:479-858 | The four places cover every held submission and exclude one another |
| `PipelineNoLoss.PersistDropsIff` | worker/evaluation_service.py:753-759 | PERSIST takes an unjudged submission out of Redis without a verdict exactly when its run is superseded or complete, or SYSTEM_ERROR cannot be written |
| `PipelineRedelivery.RedeliveryLosesVerdict` | worker/evaluation_service.py:158-163 | For any two submissions there is a run of six events, delivery by delivery, in which a redelivered bulk SUBMIT costs one of them its verdict although the run reads COMPLETED and every queue is empty: an instance of what `CountedLostIff` characterises |
| `PipelineMeaning.ExitMeans` | worker/evaluation_service.py:495-668 | For each of the seven ways out of SUBMIT the condition on the message, the stores and Judge0's answer under which it is taken, in both directions |
| `PipelineMeaning.SubmitMeans` | worker/evaluation_service.py:619-644 | A registering SUBMIT takes one unit of each of its gates, schedules the submission with its deadline, and stores as many entries as the shorter of testcases and tokens, the i-th pairing the i-th token with the i-th testcase; any other leaves gates, contexts and schedule alone; exactly the exits with nothing left to wait for count, once, for a current run |
| `PipelineMeaning.SubmitRowMeans` | worker/evaluation_service.py:119-163 | The row after SUBMIT, for every exit: untouched until the delivery starts on it, then wiped if it is a re-evaluation, and given the terminal verdict with score 0 when the exit is final; no other row changes |
| `PipelineMeaning.DeliveryMeans` | worker/evaluation.py:91-131 | What one delivery leaves queued, and that giving up writes the terminal verdict, counts once and touches nothing else |
| `PipelineMeaning.PersistMeans` | worker/evaluation_service.py:718-858 | PERSIST of a context removes it and its schedule entry, gives back one unit of each gate but never below zero, and counts the submission once exactly if its run is open; without a context it changes nothing |
| `PipelineMeaning.PersistRowMeans` | worker/evaluation_service.py:769-808 | The row after PERSIST: unchanged if its run is not open, it has a verdict or the write fails; otherwise evaluated with the collected score and rows, which say of every entry whose testcase is still there what Judge0 reports for that entry's own token, or with score 0 and no new rows when collecting fails |
| `PipelineMeaning.RegisteredEndToEnd` | worker/evaluation_service.py:632-794 | For the entries of the context that SUBMIT itself registers: each row PERSIST writes from them is about one submitted testcase and the token issued for that testcase's payload, each testcase still there has one row, and the rows keep the order |
| `PipelineMeaning.PollMeans` | worker/poller.py:107-148 | A pass dispatches a submission early exactly when Judge0 answered, it has a usable token and every usable token of it is reported with a status from 3 to 14; as timed out exactly when its deadline has passed and that is not so; and keeps scheduled exactly the other entries with a context |
| `PipelineMeaning.PassMeans` | worker/poller.py:136-148 | The messages of a pass go behind what is queued, one per dispatched submission, with the timed-out flag just described |
| `PipelineMeaning.PassCanHappen` | worker/poller.py:57-160 | A pass is possible in every state, whatever Judge0 answers and whichever messages cannot be sent |
| `PipelineMeaning.CanHappen` | worker/evaluation.py:51-148 | Every queued message can be taken at any time with any answers, acknowledged or not, and its worker can die at each point it reaches |
| `PipelineMeaning.StartMeans` | app/service/contest_service.py:1017-1060 | A new run queues one re-evaluation per submission, in order, resets exactly those that have a verdict, and becomes the contest's run with fresh counters |
| `PipelineMeaning.OutsideMeans` | app/repositories/question.py:403-431 | Expiry, deletion, replacement of testcases and manual scores change just the context, row, testcase rows or score they name |
| `PipelineRows.VerdictStable` | worker/evaluation_service.py:444-461 | In every run an unevaluated submission has no rows, and an evaluated one stays so until it is re-evaluated, reset or deleted; without a manual score or a replacement of its testcases it keeps its rows and score as well |
| `PipelineRows.ReplacementShownIff` | app/repositories/question.py:403-431 | Replacing a question's testcases leaves its evaluated submissions without rows, so the verdict shown survives exactly when it was SYSTEM_ERROR |
| `PipelineRows.StepRow` | worker/evaluation_service.py:769-808 | One event leaves a row alone, gives it the outcome of that event's own evaluation of the submission, reopens it empty, strips its rows or overrides its score; an evaluated row changes only by a reopening or one of the last two |
| `PipelineRows.RowsOriginIff` | worker/evaluation_service.py:782-808 | At the end of any run an evaluated submission has given testcase rows exactly when it started with them and nothing took them, or one event of the run collected exactly them from the submission's own context and nothing took them since |
| `PipelineRows.StepRows` | worker/evaluation_service.py:119-138 | One event leaves given rows in place exactly when it collects them, or finds them and is no re-evaluation that reaches the row, reset, replacement or deletion |
| `PipelineRows.StepRowsOk` | app/repositories/contest.py:289-323 | Every event keeps unevaluated submissions free of testcase rows |
| `PipelineRows.PollOutcome` | worker/poller.py:91-148 | After a pass each listed entry is pruned for want of a context, still scheduled with its deadline for one of three stated reasons, or dispatched with the right timed-out flag, and these exclude one another; what being done means is `Attribution.DoneMeans` |
| `PipelineRows.NothingOverdue` | worker/poller.py:125-133 | When Judge0 answers and every message is sent, nothing past its deadline stays scheduled |
| `PipelineRows.PassIsEvent` | worker/poller.py:112-148 | The messages that the pass of `PollOnce` sends are those the run model queues for it, each dispatched submission once |
| `PipelineService.EvaluationService.Submit` | worker/evaluation_service.py:479-668 | The stage, command by command, takes the exit its guards decide and leaves exactly the specified state; when it registers, entry i of the stored context is the i-th token with the i-th testcase, up to the shorter list |
| `PipelineService.EvaluationService.AdmitAndPost` | worker/evaluation_service.py:583-668 | Either the submission is registered with both units taken and each token stored with the testcase it was posted for, or the whole state is as it was found |
| `PipelineService.EvaluationService.PrepareEvaluation` | worker/evaluation_service.py:140-237 | Which submissions are evaluated, refused or failed, and that only a re-evaluation that reads the row resets it |
| `PipelineService.EvaluationService.SubmitGiveUp` | worker/evaluation_service.py:679-713 | The give-up verdict is written once and counted once |
| `PipelineService.EvaluationService.SubmitEvaluation` | worker/evaluation.py:51-131 | One delivery, with its retry policy, leaves exactly the state and the messages that the run model gives a SUBMIT event |
| `PipelineService.EvaluationService.TerminalExit` | worker/evaluation_service.py:528-542 | A terminal verdict on the row, if there is one without a verdict, and one step of progress |
| `PipelineService.EvaluationService.PersistTerminalStatus` | worker/evaluation_service.py:422-461 | Only a row that is there and not evaluated changes |
| `PipelineService.EvaluationService.CleanupSubmission` | worker/evaluation_service.py:119-138 | The row is unevaluated and without testcase rows, everything else as before |
| `PipelineService.EvaluationService.CompleteSubmission` | app/repositories/question.py:361-381 | The row is evaluated with the score, and the new rows are appended |
| `PipelineService.EvaluationService.Persist` | worker/evaluation_service.py:718-858 | The stage, with its guard, its failure branch and its finally block, leaves exactly the specified state |
| `PipelineService.EvaluationService.CleanupContext` | worker/evaluation_service.py:746-751 | Schedule entry, context and one unit of each of its gates are gone |
| `PipelineService.EvaluationService.Collect` | worker/poller.py:91-104 | The loop prunes exactly the entries without a context, gathers the others with their deadlines, and has a token to ask about exactly when some gathered context has one |
| `PipelineService.EvaluationService.PollOnce` | worker/poller.py:57-160 | The pass leaves exactly the undispatched entries scheduled and sends one message for each dispatched one |
| `PipelineService.EvaluationService.ListPending` | worker/redis_helper.py:126-130 | Every scheduled submission is listed once, with its deadline |
| `PipelineService.EvaluationService.RegisterPending` | worker/redis_helper.py:92-112 | Context and schedule entry replaced, nothing else touched |
| `PipelineService.EvaluationService.ClearPending` | worker/redis_helper.py:144-148 | Context and schedule entry removed, nothing else touched |
| `PipelineService.EvaluationService.TryAcquireInflight` | worker/redis_helper.py:160-176 | Succeeds exactly when one more fits the cap, and otherwise leaves the counter as it was |
| `PipelineService.EvaluationService.ReleaseInflight` | worker/redis_helper.py:179-185 | One unit less, never below zero |
| `PipelineService.EvaluationService.TryAcquireContestSlot` | worker/redis_helper.py:188-209 | The same for the slot counter of one run, other runs untouched |
| `PipelineService.EvaluationService.ReleaseContestSlot` | worker/redis_helper.py:212-220 | One unit less of that run, never below zero |
| `PipelineService.EvaluationService.CreateEvaluation` | worker/redis_helper.py:226-247 | The contest's record is the new run, its counters are zero and its counted set is gone |
| `PipelineService.EvaluationService.ResetSubmissions` | app/repositories/contest.py:289-323 | The listed rows are unevaluated, scoreless and without testcase rows, all others as before |
| `PipelineService.EvaluationService.TriggerEvaluation` | app/service/contest_service.py:1006-1060 | With override all of the scope, without it exactly what has no verdict, each as often as listed, makes up the new run: total, messages and reset rows are those of a run event over that list |
| `PipelineService.VerdictCounts` | app/service/contest_service.py:1006-1022 | The two lists of a scope part it: each submission is in the one its verdict says, as often as it was listed |
| `PipelineService.EvaluationService.IsEvaluationValid` | worker/redis_helper.py:284-326 | True exactly for the current run while it is not completed |
| `PipelineService.EvaluationService.AdvanceProgress` | worker/redis_helper.py:329-355 | Counts a submission for the current run at most once |
| `PipelineService.Decides` | worker/poller.py:115-133 | An entry is dispatched exactly when all its tokens are terminal or its deadline has passed and its message can be sent, and it is marked timed out exactly in the second case |
| `PollWindow.AbandonedIff` | worker/poller.py:136-147 | Between the poller's send and its removal of the schedule entry, a registration is lost exactly when every PERSIST message of the submission is delivered in between and the submission registers again after the last of them |
| `PollWindow.OneDeliveryAndOneSubmit` | worker/poller.py:136-147 | One delivery and one SUBMIT in that window are enough |
| `AdmissionGate.GateSafe` | worker/redis_helper.py:160-220 | For any number of workers and any interleaving of INCRBY, comparison and DECRBY in which each holder releases once, the counter is holders plus attempts under way, is never clamped, and never more than the cap hold |
| `AdmissionGate.StepSound` | worker/redis_helper.py:172-176 | Each single command keeps the counter equal to the workers inside and the admitted within the cap |
| `AdmissionGate.GateLedger` | worker/redis_helper.py:160-220 | Every interleaving whatever, surplus releases and late clamps included: the workers inside are the counter plus the deficit of the run, holders exceed the cap by the deficit at most, and while each SET meets a counter at or below zero the deficit is at most the number of surplus releases |
| `AdmissionGate.OverAdmitsIff` | worker/redis_helper.py:160-185 | From a gate at rest, by ordinary releases with prompt clamps, more than the cap can come to hold exactly when there is a deficit; cap plus deficit is reached and never exceeded |
| `AdmissionGate.SurplusCostsIff` | worker/redis_helper.py:179-185 | A surplus release that is clamped at once adds to the deficit exactly when its DECRBY finds a positive counter; on an idle gate it is undone |
| `AdmissionGate.DrainedOwesIff` | worker/redis_helper.py:160-185 | Once all workers have left, after any run, the deficit is what the counter lies below zero, and nothing is owed unless some rejected attempt took its unit off a counter that was not positive |
| `AdmissionGate.UndercutLeavesDebt` | worker/redis_helper.py:172-176 | That happens: a run with two surplus releases and prompt clamps in which a rejected attempt leaves an idle gate at -1 |
| `AdmissionGate.SurplusOverAdmits` | worker/redis_helper.py:179-185 | That bound is reached: on a full gate any number of surplus releases let in as many workers too many |
| `AdmissionGate.ClampForgets` | worker/redis_helper.py:182-185 | Without prompt clamps there is no bound: for every n, one surplus release on an idle gate is enough for n holders at once, because each late SET forgets the workers admitted since its DECRBY |
| `ProgressCounter.ProgressSafe` | worker/redis_helper.py:329-355 | Under any interleaving, retries, duplicates and deaths: processed is at most the counted set, which stays inside the run; both only grow; the status derived from the run's record only moves PENDING, RUNNING, COMPLETED |
| `ProgressCounter.StepInStep` | worker/redis_helper.py:346-355 | processed plus the workers between SADD and INCR, dead ones included, is the size of the counted set, for every run id |
| `ProgressCounter.ReportCounts` | worker/redis_helper.py:329-355 | One report left alone counts a submission of the current run that is not counted yet, set and counter by one, and changes nothing for one that is counted or for a run that is not current |
| `ProgressCounter.StepTouches` | worker/redis_helper.py:346-351 | Only a step of a run itself moves that run's counters, so late steps of a superseded run leave the new one alone |
| `ProgressCounter.QuietCompletedIff` | worker/redis_helper.py:352-355 | With everything counted and nobody under way the run reads COMPLETED exactly when no worker died between SADD and INCR |
| `RetryBudget.SubmitEvaluation` | worker/evaluation.py:75-131 | A delivery gives up exactly on a transient failure with the budget spent; a retry after a transient failure uses one unit of the budget and never waits longer than the cap; backpressure leaves the budget alone |
| `RetryBudget.BudgetKept` | worker/evaluation.py:91-131 | In any interleaving of backpressure and transient failures at most one failure more than the budget is met, exactly that one gives up, and the time waited is the sum of the backoffs used, at most the budget times the cap |
| `RetryBudget.CountGrows` | worker/evaluation.py:91-131 | The transient counter never goes down, backpressure does not touch it, nothing follows the end, and a message ends exactly by finishing or by the failure after its last retry |
| `RetryBudget.BackoffDoubles` | worker/evaluation.py:112-115 | The first wait is five seconds and each further one twice the last, up to the cap |
| `RetryBudget.DefaultWait` | app/core/config.py:235-243 | With the configured defaults the transient waits total at most 315 seconds, and exactly that when the message gives up |
| `RetryBudget.RunsUseThisPolicy` | worker/evaluation.py:91-131 | The messages the run model requeues after each exit are those of this policy |
| `Judge0Repository.SubmitBatch` | app/repositories/judge0.py:414-445 | On success position i holds the token issued for submission i, for every batch size; it fails exactly when one of the requests it needs fails |
| `Judge0Repository.GetBatchResults` | app/repositories/judge0.py:488-513 | On success the mapping holds exactly the tokens Judge0 reports, each with its own result, for every batch size |
| `Evaluation.BuildEvaluationResult` | worker/judge0_service.py:105-214 | Row i stands for testcase i and token i: AC for status 3 when the strategy agrees, WA for 4 or for 3 when it does not, TLE for 5, CE for 6, RE for 7 to 12 and 14, SYSTEM_ERROR for the rest, and TLE or SYSTEM_ERROR when nothing is reported; stdout, milliseconds and memory are the reported ones; the verdict is the first failing row, passed counts the AC rows, and total time and memory are the greatest of the rows or 0 |
| `Evaluation.JudgedBy` | worker/judge0_service.py:172-189 | A testcase passes exactly when Judge0 accepted it and the strategy agrees, and is a SYSTEM_ERROR exactly when its result is unfinished, unknown or Judge0's internal error |
| `Evaluation.RowMeans` | worker/judge0_service.py:140-200 | The same for one row, for every report and strategy |
| `Attribution.SubmitTestcases` | worker/judge0_service.py:65-103 | One token per testcase, issued for that testcase's payload |
| `Attribution.EndToEnd` | worker/evaluation_service.py:782-794 | For any testcases deleted or added between SUBMIT and PERSIST, each row pairs a submitted testcase with the token issued for it and that token's result, every submitted testcase still present has exactly one row, no other has any, and the rows keep the order of submission |
| `Attribution.Aligned` | worker/evaluation_service.py:785-794 | The two filtered lists have one length and agree entry by entry |
| `Attribution.RowOfEntry` | worker/evaluation_service.py:764-804 | The j-th row written stands for the j-th entry whose testcase still exists |
| `Attribution.FetchIsLookup` | worker/evaluation_service.py:763-767 | Looking a stored token up in the fetched batch finds what Judge0 reports for that very token |
| `Attribution.DoneMeansJudged` | worker/poller.py:117-120 | When the poller found everything terminal and such results stay, PERSIST finds a result for exactly the testcases that have a token, with the status the poller saw |
| `Attribution.DoneMeans` | worker/poller.py:117-120 | The all-done test holds exactly when some entry has a usable token and every usable token is reported with a status from 3 to 14, accepted or not |
| `Attribution.ByIdLast` | worker/evaluation_service.py:783-784 | The dictionary by id holds the last testcase of each id |
| `Attribution.TimedOutUnresolvedIff` | worker/evaluation_service.py:727-730 | An unresolved testcase of a timed-out submission becomes TLE exactly when Judge0 reports nothing for it, and SYSTEM_ERROR otherwise |
| `Attribution.ShownAsPublishedIff` | app/models/question.py:218-227 | The published verdict and the stored one agree exactly when a row was written |
| `Attribution.EarlyExitShownIff` | worker/evaluation_service.py:432-461 | Of the verdicts written without rows only SYSTEM_ERROR reads back unchanged |
| `Verdict.AgreeOnAccepted` | app/models/question.py:218-235 | The model property and the team SQL agree on AC and on not evaluated for all rows, and AC means evaluated with some row and all rows passed |
| `Verdict.AgreeOnFailureIff` | app/repositories/team.py:618-689 | Property and SQL name the same failure exactly when no row outranks the first failing one |
| `Verdict.AgreeOnOneKind` | app/repositories/team.py:618-689 | They coincide when only one kind of failure occurs |
| `Verdict.LadderIsGreatest` | app/repositories/submission.py:287-362 | The case ladder is the greatest status present in its severity order |
| `Verdict.LadderMeans` | app/repositories/submission.py:287-362 | For each status the rows for which the ladder picks it, in both directions |
| `Verdict.VerdictsMean` | app/models/question.py:205-235 | The three verdicts of unevaluated, rowless and other submissions, and passed as the number of AC rows |
| `Verdict.LadderPermutes` | app/repositories/submission.py:287-362 | The SQL verdict is the same for every order of the rows |
| `Verdict.OrderFreeIff` | app/models/question.py:205-227 | The property's verdict is the same for every order of the rows exactly when all failing rows have one status |
| `Verdict.PropertyDependsOnOrder` | app/models/question.py:205-227 | The smallest row list for which it is not |
| `Verdict.FirstFailureSplits` | worker/judge0_service.py:202-205 | The aggregated verdict is a row's own status with only AC before it, or AC when all rows are |
| `Verdict.AcceptedIffAllPass` | worker/judge0_service.py:202-210 | The verdict is AC exactly when passed equals total |
| `Verdict.TeamColumnsCoverAll` | app/repositories/team.py:708-767 | The statistics put every submission in exactly one column |
| `Verdict.TeamColumnsMean` | app/repositories/team.py:708-767 | Each column is the number of submissions with that verdict, and the pending one of those without |
| `Verdict.DashboardsAgree` | app/repositories/submission.py:387-481 | The team and the analytics counts agree on every verdict but SYSTEM_ERROR, where they differ by the evaluated submissions without rows |
| `Verdict.AnalyticsColumnsCoverAllIff` | app/repositories/submission.py:387-481 | The analytics columns add up to the total exactly when nothing is pending and nothing evaluated is without rows |
| `QuestionOrder.ContestQuestions.ReorderQuestionsInContest` | app/repositories/contest.py:1737-1795 | For every row order of both statements: on success each listed question has the last order the list names for it and every other row is untouched, still unique; on a violation nothing changed; safe targets always succeed |
| `QuestionOrder.ContestQuestions.UpdateOrders` | app/repositories/contest.py:1767-1793 | One UPDATE, row by row, fails exactly when some row meets a value in use at that moment |
| `QuestionOrder.ContestQuestions.GetMaxQuestionOrder` | app/repositories/contest.py:1290-1303 | The greatest stored order, 0 without questions |
| `QuestionOrder.UpdateSafeIff` | app/models/contest.py:218-219 | One UPDATE goes through for every row order exactly when no new value is another row's old or new one |
| `QuestionOrder.TargetsMean` | app/repositories/contest.py:1757-1783 | The i-th entry parks its question i + 1 places above the maximum and then gives it its order, unless a later entry names the same question |
| `QuestionOrder.ReorderSafeIff` | app/repositories/contest.py:1737-1795 | The parking step always goes through, and the final step does for every row order exactly when no target is shared, kept by an unlisted row, or another row's parking place |
| `QuestionOrder.TempsGoThrough` | app/repositories/contest.py:1757-1778 | Parking above the maximum succeeds in every row order and keeps the orders unique |
| `QuestionOrder.RewriteKeeps` | app/repositories/contest.py:1767-1793 | An UPDATE that succeeds leaves unique orders, the targets on the listed rows and the rest as it was |
| `QuestionOrder.UpToMaximumIsSafe` | app/repositories/contest.py:1737-1795 | Distinct targets that are unused outside the list and at most the current maximum are safe |
| `QuestionOrder.ServiceOrdersAreSafe` | app/service/contest_question_service.py:578-594 | Targets 1 to N over all questions are safe when the stored orders are positive |
| `QuestionOrder.ServiceOrdersCanFail` | app/repositories/contest.py:1737-1795 | For the repository method alone the hypothesis of positive orders cannot be dropped, as orders 0 and 1 show; no writer of the column produces a 0 |
| `ContestOrders.ServiceHistory` | app/service/contest_question_service.py:296-357 | From an empty contest, after any sequence of additions, removals and reorderings, orders are unique and at least 1, and after every accepted reordering each requested question has the last order the request gives it and every other one its own, whatever the row orders |
| `ContestOrders.AcceptedIsSafe` | app/service/contest_question_service.py:572-594 | A request that the service accepts can violate the constraint in neither statement, for any row order |
| `ContestOrders.AcceptsMeans` | app/service/contest_question_service.py:560-589 | The service accepts a request exactly when it is empty, or every question is in the contest and the orders that honour the request take each place from 1 to the number of questions |
| `ContestOrders.PlacedKeeps` | app/service/contest_question_service.py:313-348 | The placing loop keeps every present order, honours explicit wishes, and gives all new questions unique positive orders |
| `ContestOrders.PlacedStep` | app/service/contest_question_service.py:313-348 | Item by item: refused exactly when its question is there already or its wish is taken; otherwise a wish is granted and no wish means one place behind the greatest order; nothing placed before moves |
| `ContestOrders.ContestQuestionService.AddQuestions` | app/service/contest_question_service.py:296-357 | The loop places the batch so, or refuses it as a whole and changes nothing |
| `ContestOrders.ContestQuestionService.RemoveQuestions` | app/repositories/contest.py:1715-1735 | Exactly the listed questions go, and the orders stay unique and positive |
| `ContestOrders.ContestQuestionService.ReorderContestQuestions` | app/service/contest_question_service.py:536-594 | It fails exactly when the service refuses the request and then changes nothing; otherwise each requested question has the last order requested for it and every other keeps its own |
| `MemberScores.LatestScores` | app/repositories/contest.py:1532-1645 | For any interleaving of scoring, manual scores, reopenings, early exits and recomputes: a member with no recompute due and no silent change since has at most one row, one if it has a score, and it holds the sum over questions of the best evaluated score |
| `MemberScores.StepSynced` | worker/evaluation_service.py:305-351 | Each of these moves keeps every member in sync, due a recompute, or marked as silently changed, and rows unique under their member's team |
| `MemberScores.RecomputeFacts` | app/repositories/contest.py:1576-1645 | After a recompute there is one row per team and member, every accepted member has one, the member's rows hold the total, and other rows are unchanged |
| `MemberScores.LeaderOnlyRecompute` | app/repositories/contest.py:1630-1644 | In LEADER_ONLY mode the row of the team without a member is there and holds the submitting member's total, and every other row is as it was |
| `MemberScores.MemberRecompute` | app/repositories/contest.py:1576-1645 | In the other mode all rows of the submitting member hold its total and there is one under its team, every accepted member has a row, new ones of others hold 0, and every other row is as it was |
| `MemberScores.TotalStep` | app/repositories/contest.py:1607-1628 | A score adds to the total by what it exceeds the best other one on its question, all of it if there is none; without scores the total is 0 |
| `MemberScores.MovesMean` | worker/evaluation_service.py:305-351 | When each move is possible and what it does to the submissions, the rows, the recomputes due and the silent changes |
| `MemberScores.RecomputeIdempotent` | app/repositories/contest.py:1532-1645 | Recomputing again changes nothing |
| `MemberScores.RecomputesAgreeIff` | app/service/contest_service.py:1183-1199 | The live and the contest-wide total differ by the scores on removed questions, and agree exactly when those add up to 0 |
| `MemberScores.SilentZeroStaleIff` | worker/evaluation_service.py:444-461 | After an early exit of a re-evaluation the stored total is still right exactly when the zeroed submission was not the only best one on its question |
| `MemberScores.ReopenStaleIff` | worker/evaluation_service.py:119-138 | After a reopening the stored total is still right under the same condition |
| `MemberScores.BestIsGreatest` | app/repositories/contest.py:1607-1622 | The grouped maximum is attained by an evaluated submission of the member and question, and no such submission exceeds it |
| `MemberScores.EnsuredFacts` | app/repositories/contest.py:1433-1530 | Ensuring rows keeps the existing ones as a prefix, keeps uniqueness, covers everyone asked for and adds only zero scores |
| `MemberScores.ContestScores.RecomputeMemberScore` | app/repositories/contest.py:1532-1645 | The row-by-row update leaves exactly the rows the facts above speak about |
| `MemberScores.ContestScores.EnsureRows` | app/repositories/contest.py:1433-1530 | The inserts, one by one with conflicts ignored, leave exactly the ensured rows |
| `Ranking.RanksAgree` | app/repositories/contest.py:1970-2041 | A ranked team's windowed rank is one plus the number of ranked teams whose score is lower, if ascending, or higher, which is one plus the index of the first team of its score in the unfiltered leaderboard, so the name tie-break is irrelevant; other teams have none |
| `Ranking.LeaderOnlyScore` | app/repositories/contest.py:1908-1942 | In LEADER_ONLY mode the rounded average is the one team row's score, for any number of accepted members |
| `Ranking.LeaderOnlyShown` | app/repositories/contest.py:1630-1942 | After a LEADER_ONLY recompute the team's score on the leaderboard is the submitting member's total |
| `Ranking.IndividualScore` | app/repositories/contest.py:1908-1942 | Once every accepted member has a row the average has exactly the accepted members in its denominator |
| `Ranking.UnscoredTeam` | app/repositories/contest.py:1908-1910 | A team without progress rows has score 0 in both modes |
| `Ranking.RoundedIsNearest` | app/repositories/contest.py:1908-1910 | The rounded average is the nearest integer, halves away from zero |
| `Ranking.FirstIndexCounts` | app/repositories/contest.py:2002-2009 | In an ordered list the rows ahead of the first of a score are exactly the better ones |
| `Ranking.SortedKeeps` | app/repositories/contest.py:1954-1959 | Ordering permutes the teams and keeps the number of better ones for every score, with and without the name |
| `Ranking.BoardOrder` | app/repositories/contest.py:1954-1959 | Whatever answer the database gives, scores rise in ascending contests and fall in others, and equal scores are in order of name |
| `Ranking.PageMeans` | app/repositories/contest.py:1961-1965 | A page is what follows the skipped entries, as many as there are up to the limit |
| `Ranking.PagesJoin` | app/repositories/contest.py:1961-1965 | Consecutive pages of one list put together are the list |
| `Ranking.PagingCompleteIff` | app/repositories/contest.py:1954-1965 | When each page is a query of its own that may order ties as it likes, scrolling with a page size shows every ranked team exactly once exactly when no page boundary splits a tie of score and name |
| `Ranking.LeaderboardPagingIff` | app/repositories/contest.py:1954-1965 | It does so for every page size exactly when no two ranked teams share score and name |
| `Ranking.ScrollingIsComplete` | app/repositories/contest.py:1868-1968 | In that case any answers to as many page queries as the total count asks for are, put together, the leaderboard: in order, every ranked team once, as many as the count says |
| `SubarraySum.CountSlices` | scripts/seed_question_bank.py:854-863 | The result is the number of index pairs i < j whose slice sums to k, for all integers |
| `SubarraySum.SlicesStep` | scripts/seed_question_bank.py:859-862 | The new slices at each step are as many as the earlier prefixes with the complementary sum |
| `SubarraySum.SliceSum` | scripts/seed_question_bank.py:860-861 | A slice's sum is the difference of two prefix sums |
| `MinWindow.MinWindowLength` | scripts/seed_question_bank.py:1214-1235 | The least length of a substring that contains t with duplicates, 0 when there is none or t is empty |
| `MinWindow.Grow` | scripts/seed_question_bank.py:1224-1227 | Taking a character in keeps the dictionary equal to the count in t minus the count in the window, and missing equal to the sum of the positive needs |
| `MinWindow.Shrink` | scripts/seed_question_bank.py:1231-1234 | So does giving one up on the left |
| `MinWindow.BestExtended` | scripts/seed_question_bank.py:1228-1234 | Once the window no longer covers t, every covering window with this end has been measured |
| `MinWindow.CountNeeds` | scripts/seed_question_bank.py:1218-1220 | The dictionary starts as the counts of t |
| `UniqueTriplets.CountUniqueTriplets` | scripts/seed_question_bank.py:1014-1037 | The result is the number of distinct value triples that sum to zero and stand at three different positions |
| `UniqueTriplets.TripletsByPosition` | scripts/seed_question_bank.py:1016-1019 | Those triples are the ones found by ascending positions of the sorted array |
| `UniqueTriplets.CountEnds` | scripts/seed_question_bank.py:1025-1032 | Two fitting ends are one value pair, and the skips pass over that pair and no other |
| `UniqueTriplets.FromRepeated` | scripts/seed_question_bank.py:1020-1021 | Skipping a repeated first value misses no triple |
| `UniqueTriplets.FromNew` | scripts/seed_question_bank.py:1022-1024 | A new first value adds one triple per value pair behind it |
| `UniqueTriplets.DropLeft` | scripts/seed_question_bank.py:1033-1034 | Moving the left end past a sum too low loses no pair |
| `UniqueTriplets.DropRight` | scripts/seed_question_bank.py:1035-1036 | Moving the right end past a sum too high loses no pair |

## Left out

- HTTP to Judge0, Redis, Celery and SQLAlchemy themselves, SSE events, caches, logging and telemetry: each is a step, a
  parameter or an oracle here.
- `calculate_submission_score` and its weights: the score of a PERSIST is an input, so floating-point rounding is not
  modelled.
- Interleaving inside one stage other than at the gates, in progress counting and in the poller's dispatch; and a
  registration that fails between its two Redis writes.
- Failure of the terminal database write in SUBMIT and in the give-up path.
- TTLs of the per-run counters (24 hours); expiry of contexts is an event.
- The poller lock and its renewal: overlapping passes appear as stray PERSIST messages.
- Redaction of stderr, stored output details, and NULL in a row's status.
- Execution limits and language validation: they only decide whether loading fails.
- The retired combined evaluation entry points, which do not retry on backpressure.
- PipelineService.EvaluationService.PollOnce: the order of the messages within one pass is that of an arbitrary listing,
  not of the deadlines.
- MemberScores.LatestScores: stated for INDIVIDUAL_WORKSPACE; for LEADER_ONLY only one recompute is covered, by
  LeaderOnlyRecompute.
- MemberScores.RecomputesAgreeIff: the contest-wide sum over a LEADER_ONLY team is not modelled.
- Ranking.RanksAgree: for the unfiltered leaderboard; a search term changes the list but not the windowed rank.
- ContestOrders.ContestQuestionService.AddQuestions: the look-up of each question on the platform and the limit on the
  batch size, which only refuse more.
- The secondary Python solutions (longest substring, sorted two sum), the C++ and Java ones, and the drivers: they would
  only add easier members.
- Mappers, schemas, list endpoints, users, audiences, question banks, migrations and load scripts: field copying and
  filters.
