# The scheduling and integrity kernel of the harness, in Dafny

This project models the parts of the agent harness that schedule work and guard its
records, and proves what they promise: the workflow engine, the cron engine and the
schedules built on it, the hash-chained audit log, the concurrent task queue and runner,
the sub-task manager, and the text and stream loops of the executor (streaming, patching,
paging, watching, redaction). `dafny verify dfyconfig.toml` checks all of it.

How it is laid out:

- `Sets`, `Dag`, `Payload`, `Plan`: sizes of finite sets; dependency graphs and longest
  chains; `${nodes.x.y}` references; validation and the layered sort.
- `Workflow`: the runner as a step machine (launch pass, completion of any batch, cancel,
  drain) with `execute` an arbitrary function, and a recursive reference evaluation it is
  proved to refine. `Resolution`: what reaches `execute`, every reference in a payload
  replaced by the value it names, said without the code that does it. `Parallelism`: how many
  slots a plan needs. `Runner`: the runner as a class with its loop, every run of which is a
  run of the machine.
- `Audit`: `record` and `verify_chain`; the MAC is any function with non-empty output, and
  the theorem assumes no collision on the recorded messages only.
- `Calendar`, `CronField`, `CronTimes`, `Cron`: the Gregorian calendar, the field grammar,
  the minute search and exactly when it gives up. `Schedules`, `ScheduleTable`,
  `Scheduler`: how a schedule rolls forward through ticks, pauses and restarts; histories of
  the whole table; the table updated in place, and its file.
- `Queueing` (file `TaskQueue.dfy`), `Dispatch`, `TaskRunner`: the queue as a class; the
  interleaving of one submitting, cancelling and pumping thread with any number of workers,
  down to the record of cancel requests; the retry loop and its trace.
- `Subtasks`: the bounded pool of children.
- `Replace`, `Redaction`, `Patch`, `Stream`, `StreamLaws`, `Buffers`: string replacement,
  redaction of secrets, edits, streamed output, the watch buffer and paging.
- `Templates`, `TemplatePlans`: parameters filled into a workflow before it is validated.

Results a reader may not expect:

- A skipped node uses up a launch slot (agent/workflow.py:402-410), and the drain branch
  (agent/workflow.py:341-360) then gives up on nodes that could run. No plan of `n` nodes
  is affected exactly when `n <= max_parallel + 1`, or `max_parallel >= 2` and
  `n == max_parallel + 2` (`Parallelism.SlotsNeeded`); for every other pair a concrete
  plan and run that lose a runnable node are given (`Parallelism.TooFewSlotsStarve`).
- The comment at agent/scheduler.py:179 (four years cover every 29 February) does not hold
  across 2100: `Cron.LeapDay2096GivesUp`, for every such text and skipped century
  `Cron.LeapDayGivesUp`. `Cron.GivesUpIff` gives the exact condition
  with and without such a gap.
- Two steps lose an accepted task, neither running nor reporting it, and no other does
  (`Dispatch.DroppedIff`, `Dispatch.EveryLossHasACause`). One is a cancel of an id that is
  queued again while the worker of its previous run, past `mark_completed`, is still
  registered (agent/runner.py:149-159, agent/runner.py:286, agent/runner.py:363-364):
  `Dispatch.WindowDropsATask`. The other is the clock: both callers pump without a time
  (agent/main.py:172, agent/runner.py:392), so `next_task` reads the clock again, and its own
  `drain_expired` (agent/taskqueue.py:381) throws away a task whose deadline has passed
  since the pump drained the queue: `Dispatch.DeadlineDropsATask`. A caller that gives each
  pump its time and cancels no id in that window loses nothing in any run:
  `Dispatch.CarefulRunsLoseNothing`.
- A cancel of an id that is queued, or of one nobody knows, stays on record
  (agent/runner.py:149-150) until the next run of that id has ended
  (agent/runner.py:287-288). That run makes one attempt
  (`TaskRunner.TaskRunner.RunTask`), and if it succeeds it is settled as cancelled and its
  dependents stay blocked: `Dispatch.StaleCancelSpoilsARun`, and exactly when,
  `Dispatch.SuccessCountsIffNotAsked`.
- A log whose last line was cut off before its newline (agent/audit.py:209-214) loses the
  next event too, since it is written on the same line: `Audit.CutTailSwallowsOne`.
- `load` (agent/scheduler.py:475-501) does not check the limit of 200 schedules that
  `add` keeps.
- Redaction of one value is complete on every text exactly when the value cannot overlap the
  mark `***REDACTED***`: neither is part of the other, and no end of one is a beginning of
  the other (`Redaction.CleanIffApart`). For values without `*` that is: the value is not
  part of the mark (`Redaction.CleanIffOutsideTheMark`, for any number of values).
- A secret with a newline before its end streams out in clear, line by line, unless a
  registered secret of one line is part of it (agent/executor_v2.py:703-744):
  `StreamLaws.ManyLinesLeave`. One secret alone never leaves, not even in two chunks,
  exactly when it cannot overlap the mark and has no newline but at its end:
  `StreamLaws.NeverLeavesIff`; for several, `StreamLaws.NeverLeaveIff`.
- A template value that holds a `${nodes...}` text adds a reference:
  `Templates.ValueCanAddAReference`. Values without `$` never do, so that a plan filled in
  with them is valid iff the template was (`TemplatePlans.ValidationSurvivesRendering`);
  `Templates.HarmlessIff` says exactly which values add none.
- A reference embedded in text prints zero and false as nothing, because of the
  `or ""` at agent/workflow.py:267; the model does the same.

## Model

| member | source | states |
|---|---|---|
| Dag.DoneIffShortChains | agent/workflow.py:226-238 | a node is resolved within k rounds iff no dependency chain from it is longer than k and none ends at an unknown name |
| Dag.StuckIffHopeless | agent/workflow.py:229-232 | the nodes never resolved are exactly those from which a cycle or an unknown name can be reached |
| Dag.AllDoneIff | agent/workflow.py:229-238 | every node resolves iff every dependency is known and the relation is acyclic |
| Dag.ClosedIsKnown | agent/workflow.py:184-190 | where every dependency is known, only cycles hold the sort up |
| Dag.HeightIsLongestChain | agent/workflow.py:229-238 | the round of a node is the length of its longest dependency chain |
| Plan.TopologicalOrder | agent/workflow.py:218-238 | succeeds iff every dependency is known and there is no cycle; the result is the permutation sorted by (longest chain, declaration index) with dependencies first; otherwise names exactly the nodes that reach a cycle or an unknown name |
| Plan.LayersAreSorted | agent/workflow.py:230-237 | the layers put together list each resolved id once, by (longest chain, declaration index) |
| Plan.SortedRespectsDeps | agent/workflow.py:218-238 | in such an order every dependency stands before its dependents |
| Plan.ParseWorkflow | agent/workflow.py:125-215 | accepts a spec iff it has 1 to 100 nodes of different names, each with a name, a kind and an object for a payload, each dependency and reference to another node of the plan, references only to one of six fields of a node waited for, no nodes that wait in a circle, and at least one slot; a rejection names a flaw that is really there; names come trimmed, one made up from its place when missing |
| Plan.ValidIsWellPlanned | agent/workflow.py:125-215 | validity by ids, links and the graph is that condition, written over the nodes alone |
| Plan.FlawsInvalidate | agent/workflow.py:137-209 | every flaw a rejection can name makes the spec invalid |
| Plan.LinksAreKnown | agent/workflow.py:184-190 | a spec that passes the link checks has only known dependencies |
| Payload.MatchIffSpelled | agent/workflow.py:45 | the reference pattern matches at a position exactly when a reference with a well-formed id and field is spelled there |
| Payload.WholeIsTheOnlyReference | agent/workflow.py:263-265 | a string that is one reference up to whitespace holds that reference and no other |
| Payload.ReadsAreReferences | agent/workflow.py:241-286 | on any nested payload, `substitute` looks up exactly the references that validation collected, in order |
| Payload.SubstituteFrame | agent/workflow.py:255-286 | the resolved payload depends on nothing but the values of its references |
| Resolution.CutIsPieces | agent/workflow.py:45 | scanning a text finds its one cutting into references and single characters, leftmost reference first |
| Resolution.WholeIff | agent/workflow.py:263-265 | a string counts as one reference iff that reference is written in it with nothing but blanks around |
| Resolution.PrintedShows | agent/workflow.py:266-268 | a value embedded in a text is shown as itself: a number in its decimal digits, true as `True`; null, false, zero and nothing show as nothing |
| Resolution.SubstituteResolves | agent/workflow.py:255-286 | a payload resolves to exactly one: the same objects and lists, a string that is one reference replaced by the value of that field (stdout, stderr, exit_code, ok, error, decision) in its own type, any other string with the shown value in the place of each reference |
| Resolution.EmbeddedReference | agent/workflow.py:266-268 | `a${nodes.x.f}b` resolves to a, what shows the value, and b |
| Workflow.RunNodeFrame | agent/workflow.py:427-448 | what a node does depends on the outcomes of its direct dependencies only |
| Resolution.NodeRunsOnResolved | agent/workflow.py:427-448 | a node is executed on its payload so resolved by the outcomes its worker saw, and its outcome is what the reply makes of it: ok and result, the error text or its stand-in, or the exception |
| Resolution.ExecutedOnResolved | agent/workflow.py:314-448 | in any run, whatever executed did so on its payload resolved by what the named nodes ended with |
| Workflow.NextKeepsInv | agent/workflow.py:326-370 | every step keeps: each node in exactly one of pending, in flight, resolved; started at most once; in flight at most `max_parallel`; the stop flag set iff an unforgiven failure under `fail_fast` |
| Workflow.RunIsSafe | agent/workflow.py:314-370 | that invariant holds in every reachable state |
| Workflow.ExecutedIsReference | agent/workflow.py:314-425 | in any run, whatever executed did so once, has exactly the reference result, and all it transitively depends on succeeded |
| Workflow.RunIsBounded | agent/workflow.py:320-370 | in flight never exceeds `max_parallel`; at the exit every node of the plan has an outcome |
| Workflow.NothingStartsAfterFailure | agent/workflow.py:326-370 | under `fail_fast`, once a node that is not `continue_on_error` has run and failed, nothing starts any more |
| Workflow.NothingStartsAfterCancel | agent/workflow.py:310-312 | once cancelled, no step starts a node |
| Workflow.CancelInsideAPass | agent/workflow.py:327-339 | a cancel between two nodes of a pass leaves the state a cancel right behind the pass leaves, and what starts after it is the rest of that pass at most |
| Workflow.StepsTerminate | agent/workflow.py:326-370 | 2*pending + in-flight never grows and drops with each turn of the loop |
| Workflow.ReferencesResolve | agent/workflow.py:184-203 | every reference a worker resolves names a succeeded node that has a result, and a supported field |
| Workflow.RunsIffAncestorsSucceed | agent/workflow.py:412-425 | in the reference evaluation a node runs iff everything it transitively depends on succeeded |
| Parallelism.EveryScheduleAgrees | agent/workflow.py:326-370 | with enough slots, no cancel and no stop, every schedule ends in the reference outcome of every node |
| Parallelism.TooFewSlotsStarve | agent/workflow.py:341-360 | with too few slots a plan and a run exist in which a node whose dependencies all succeed is skipped |
| Parallelism.SlotsNeeded | agent/workflow.py:402-410 | the exact number of slots with which no plan of n nodes loses a runnable node |
| Runner.WorkflowRunner.Run | agent/workflow.py:314-448 | the loop performs a run of the step machine to its exit and returns the summary of its outcomes: whatever executed has the reference outcome, ran behind dependencies that all succeeded, and on its payload with every reference replaced by the value it names; with enough slots, no cancel and no failure that stops the plan every node has the reference outcome; ok iff no node failed that was not `continue_on_error`, and no cancel; a runner cancelled before reports that and is not ok |
| Runner.WorkflowRunner.Summary | agent/workflow.py:372-390 | outcomes in declaration order, the number of outcomes that ran ok, ran and failed, were skipped, were cancelled, the plan's order; ok only without a failure that is not `continue_on_error` and without a cancel seen before |
| Runner.CountsAddUp | agent/workflow.py:382-388 | succeeded + failed + skipped + cancelled is the number of outcomes |
| Runner.ExitedRunIsSettled | agent/workflow.py:326-372 | an exited run has an outcome for every node; executed ones are the reference ones, on resolved payloads; an undisturbed run with enough slots has all of them; nothing is cancelled that was not asked for |
| Runner.CancelledInTheLoop | agent/workflow.py:341-360 | in a run cancelled before its exit a node is skipped only for a dependency that did not succeed; what else never ran is cancelled |
| Audit.VerifyChain | agent/audit.py:264-294 | accepts iff every line is intact; otherwise reports the first line that is not, and why |
| Audit.AuditLog.Record | agent/audit.py:161-195 | appends one line chained onto the last, changes nothing before that line, and keeps an intact file intact; behind a line cut off before its newline the two become one unreadable line |
| Audit.RecordedVerifies | agent/audit.py:153-215 | any sequence of records on one file verifies |
| Audit.GarbledTailStaysVisible | agent/audit.py:197-216 | what is recorded behind an unreadable line that ends in a newline is what an empty log would get, and verification stops at that line |
| Audit.CutTailSwallowsOne | agent/audit.py:190-191 | behind a tail cut off before its newline, readable or not, the first event is lost with it; the rest is what an empty log would get, and verification stops at that one line |
| Audit.MessageInjective | agent/audit.py:153-159 | the hashed text determines both the previous digest and the hashed fields |
| Audit.PositionsDiffer | agent/audit.py:197-216 | on a recorded log every position chains onto a different digest |
| Audit.PassesIffSame | agent/audit.py:264-294 | behind a faithful prefix a line passes iff it is the log's next line |
| Audit.VerifiedIffPrefix | agent/audit.py:264-294 | if no MAC was made outside the log, a file is accepted iff it is a prefix of the log on the hashed fields, and the reported line is exactly the first that departs |
| Audit.RecordSays | agent/audit.py:161-195 | a record holds seven keys: the time, actor, action, resource and meta of the event with every text of the caller's masked, its outcome if it is ok or deny and else error, and the last line's digest |
| Audit.LogSaysTheEvents | agent/audit.py:161-216 | line i of a log says what event i was and is chained onto the line before |
| Audit.SameLineSameFields | agent/audit.py:58-75 | the same line on the hashed fields means the same digest and the same value under each of the seven keys, and back |
| Audit.AlteredFieldIsReported | agent/audit.py:264-294 | where the lines before it are the log's and no MAC was made outside it, changing the time, actor, action, resource, outcome, meta or link of a line makes that line the reported one |
| Calendar.OrdinalInjective | agent/scheduler.py:178-185 | different dates have different day numbers |
| Calendar.NextMinuteFollows | agent/scheduler.py:178-185 | adding a minute gives the calendar's next minute, over days, months and leap years |
| Calendar.MonthLengths | agent/scheduler.py:173-185 | the day after a date, by the lengths of the twelve months and the rule for leap years |
| Calendar.WeekdayIsCounted | agent/scheduler.py:162 | the weekday the cron engine reads is the one counted day by day from Saturday 1 January 2000, on or back, with Sunday 0 |
| CronField.ParseCronField | agent/scheduler.py:85-115 | the loop over the parts computes the union of their values, or the first part's error |
| CronField.AcceptedIffWritten | agent/scheduler.py:85-124 | a field is accepted iff each comma-separated part writes a well-formed element: star, number, name, range or step, in range and not inverted |
| CronField.FieldIsItsGrammar | agent/scheduler.py:85-124 | and it then yields precisely the integers those elements denote: from the first on in steps, up to the last |
| CronField.FieldInRange | agent/scheduler.py:108-114 | an accepted field matches something and nothing outside its range |
| CronField.NamesAreNumbers | agent/scheduler.py:46-50 | any word that begins with the three letters of a weekday, Sunday first, or of a month, January first, reads as its number |
| CronField.SplitIsCutting | agent/scheduler.py:88 | the parts hold no comma and joined by commas are the field |
| CronField.DigitsAreRead | agent/scheduler.py:122-124 | the decimal digits of a number read as that number |
| CronField.NumbersRange | agent/scheduler.py:102-112 | two numbers with a dash are all between them, or refused as inverted or out of range, each for its own cause |
| CronField.PartRefused | agent/scheduler.py:89-98 | an element is refused for its step iff what follows the slash is no positive number, and an empty one as empty |
| Cron.ValidateCron | agent/scheduler.py:127-143 | accepts iff there are five fields and each is accepted for its range and names |
| Cron.MatchesIsAllows | agent/scheduler.py:146-170 | on an accepted expression matching never fails and is the field-wise rule with day of month or day of week; Sunday as 7 never arises |
| Cron.NextCronTime | agent/scheduler.py:173-186 | the minute search returns the least matching minute of the window, or gives up iff it has none |
| Cron.NextIsLeast | agent/scheduler.py:173-186 | the result matches, lies strictly after the start, and is the least such minute |
| Cron.MatchesOnTheCalendar | agent/scheduler.py:146-170 | a minute matches iff minute, hour and month are in their fields and, where day fields are restricted, its day of month or its counted weekday is |
| Cron.NextOnTheCalendar | agent/scheduler.py:173-186 | the minute found is the first later one of those, at most four times 366 days ahead, and none is found iff none is there |
| Cron.WeekdayFires | agent/scheduler.py:146-186 | an expression for one weekday, by number or name, always fires, and at the first later moment of that weekday that its time fields and months allow |
| CronTimes.FirstMatchIsNext | agent/scheduler.py:182-184 | the first match met is the least one |
| CronTimes.FiresAreAll | agent/scheduler.py:173-186 | iterating the search enumerates all matching minutes in order, without repeat or omission |
| CronTimes.FiresIff | agent/scheduler.py:178-186 | the search finds a minute iff the day is not restricted by day of month alone, or some (month, day) exists every year, or 29 February is asked for and lies in the window |
| CronTimes.WindowHasLeapDay | agent/scheduler.py:179-181 | away from skipped leap years the window holds a 29 February |
| CronTimes.NeverFiresIff | agent/scheduler.py:173-186 | there, it gives up iff day of month is restricted, day of week is not, and no (month, day) of the fields exists |
| CronTimes.CenturySkipGivesUp | agent/scheduler.py:179-186 | around every century the leap rule skips: from 29 February four years before, past the day's last slot, the search for 29 February gives up although that of four years after matches |
| Cron.GivesUpIff | agent/scheduler.py:173-186 | both conditions, stated on the expression itself |
| Cron.LeapDayGivesUp | agent/scheduler.py:179-186 | so does every accepted text that asks for one time of 29 February |
| Cron.LeapDay2096GivesUp | agent/scheduler.py:179-186 | `0 0 29 2 *` gives up from any moment of 29 February 2096 |
| Cron.AcceptedIffFieldsWritten | agent/scheduler.py:127-143 | a text is accepted iff its five fields are written in the grammar, each with its own range and names |
| Schedules.FiringMovesOn | agent/scheduler.py:395-418 | a firing counts one run and sets the next slot from now: the first later minute of its cron text, else an interval later; strictly later, or the schedule is off for good where it was the last run or has no slot; it is not due again at that time or earlier |
| Schedules.LimitsHold | agent/scheduler.py:209-214 | over any history of one schedule the run count is the number of firings and never exceeds `max_runs`; a one-shot fires at most once |
| ScheduleTable.RowsHaveHistories | agent/scheduler.py:337-433 | whatever is added, removed, paused, ticked and reloaded, a row of the table is the row last put in under its id with the history of its own operations since, and no row is there otherwise |
| ScheduleTable.TableLimitsHold | agent/scheduler.py:337-433 | in every history of the table each row keeps its limits, and its run count is the one it came with plus its firings |
| ScheduleTable.TableFiringsAreSpaced | agent/scheduler.py:337-433 | with a clock that does not go back, the firings of each row have slots of their own between them, whatever happens to the other rows |
| ScheduleTable.TableIsBounded | agent/scheduler.py:337-346 | no history from an empty table goes beyond the limit |
| Schedules.FiringsAreSpaced | agent/scheduler.py:395-418 | with a clock that does not go back, successive firings are at least an interval apart and have a cron minute of their own between them, through pauses and restarts |
| Schedules.ApplyKeeps | agent/scheduler.py:368-418 | no operation changes id, task, triggers or limit, and each keeps the limits |
| Scheduler.ParseSchedule | agent/scheduler.py:241-294 | accepts iff exactly one trigger is given, it, the interval of a second at least and the limit are usable, and a cron text finds a minute; each rejection iff its own cause comes first; the result is new, within its limits and has the slot counted from now |
| Scheduler.NextSlot | agent/scheduler.py:297-306 | cron before interval before single time, and the errors |
| Scheduler.Scheduler.Add | agent/scheduler.py:337-346 | replaces a schedule of the same id, refuses a new one at the limit |
| Scheduler.Scheduler.Remove | agent/scheduler.py:348-354 | removes that id and no other |
| Scheduler.Scheduler.SetEnabled | agent/scheduler.py:368-378 | pauses or resumes that schedule alone, giving it a slot if it has none, and fails iff there is none to give |
| Scheduler.Scheduler.Due | agent/scheduler.py:382-393 | exactly the schedules that are on, have a run left and a slot at or before now, soonest first |
| Scheduler.Scheduler.MarkFired | agent/scheduler.py:395-418 | one schedule counted and rolled forward from now |
| Scheduler.Scheduler.RunDue | agent/scheduler.py:420-433 | exactly these fire, once each, soonest first, counted and moved on to their next slot, and no other changes |
| Scheduler.SecondTickFiresNothing | agent/scheduler.py:420-433 | a second tick at the same or an earlier time changes nothing |
| Scheduler.RowRoundTrip | agent/scheduler.py:216-238 | reading back what was written gives the schedule, whatever unknown keys were added or the derived one changed to |
| Scheduler.MissingKeysAreDefaults | agent/scheduler.py:234-238 | some of the keys of what was written read back as they were and the others as their defaults; without id or task there is no schedule |
| Scheduler.Scheduler.Load | agent/scheduler.py:475-501 | a file that cannot be read leaves the table; any other replaces it by new schedules, the readable records with a later one replacing an earlier one of its id, each given the slot it lacks or disabled |
| Scheduler.SavedThenLoaded | agent/scheduler.py:461-501 | loading what was saved, in whatever order, restores every row of the table and no other |
| Queueing.TaskQueue.Add | agent/taskqueue.py:265-283 | queues at the end of the arrival order; refuses an id that is queued or running, and never the empty one |
| Queueing.TaskQueue.Remove | agent/taskqueue.py:288-296 | takes that task out and forgets its id |
| Queueing.TaskQueue.MarkCompleted | agent/taskqueue.py:298-307 | remembers a success and frees the id; the queue keeps one entry for each id iff that id was not queued |
| Queueing.TaskQueue.DrainExpired | agent/taskqueue.py:337-372 | removes exactly the entries of normal or low priority whose deadline has passed |
| Queueing.TaskQueue.DependenciesMet | agent/taskqueue.py:324-335 | true iff every dependency completed or is vouched for; remembers only such ids |
| Queueing.TaskQueue.NextTask | agent/taskqueue.py:374-390 | of the entries not past their deadline, whose time has come and whose dependencies have succeeded, pops a high one if there is one, else a normal one, else a low one, and of these the first to arrive; leaves every other in place, or pops nothing iff there is none |
| Queueing.FirstInOrder | agent/taskqueue.py:382-389 | the first eligible entry of the sorted queue is the one owed the slot |
| Queueing.PoppedInTurn | agent/taskqueue.py:33-34 | whatever `next_task` may do serves high before normal before low, and equals in order of arrival |
| Dispatch.StepKeepsInv | agent/runner.py:142-374 | every step of the pump, the canceller and the workers keeps the pool, identity, place and registry invariants |
| Dispatch.PoolAndExclusion | agent/runner.py:326-374 | in every interleaving free slots, the pump's slot and the workers' slots add up to the pool, the peak stays within it, no id but the empty one executes twice at once, and the known ids are exactly the queued and dispatched ones |
| Dispatch.Conservation | agent/runner.py:142-334 | every accepted task is in exactly one of queued, held by the pump, running unreported, settled; settled as run, cancelled, past its deadline, or lost |
| Dispatch.SettledIsFinal | agent/runner.py:232-291 | no step settles a task twice or differently |
| Dispatch.DroppedIff | agent/runner.py:149-168 | a step loses a task iff it cancels its id while a worker of that id is registered, or is a `next_task` that finds it past its deadline |
| Dispatch.LossNeedsAWindow | agent/taskqueue.py:381-382 | the cancel loses only while that worker is past `mark_completed` and still registered, and the clock only a task whose deadline lies between the pump's first reading and a later one |
| Dispatch.EveryLossHasACause | agent/runner.py:317-334 | in every run, whatever was lost was lost by one of these steps |
| Dispatch.OneTimeLosesNothing | agent/runner.py:317-334 | a pump that uses one time throughout loses nothing by the clock |
| Dispatch.CarefulRunsLoseNothing | agent/runner.py:142-334 | a run whose pumps keep one time each and in which no id is cancelled while its worker is in that window loses no task |
| Dispatch.SuccessCountsIffNotAsked | agent/runner.py:267-288 | in every reachable state a successful run is settled ok and unblocks its dependents iff no cancel of its id was asked for since the last run of that id ended; otherwise it is settled as cancelled |
| Dispatch.StaleCancelSpoilsARun | agent/runner.py:149-150 | a run in which a cancel of an id nobody knows turns the later success of that id into a cancellation |
| Dispatch.DeadlineDropsATask | agent/taskqueue.py:374-390 | for every deadline between two readings, a run in which the task is lost |
| Dispatch.WindowDropsATask | agent/runner.py:286-366 | a run in which that happens |
| Dispatch.DependenciesFirst | agent/taskqueue.py:298-307 | whatever enters the executor had each dependency reported with status ok before, or vouched for from outside |
| Dispatch.CyclesNeverRun | agent/taskqueue.py:324-335 | nothing on or downstream of a dependency cycle nobody outside vouches for is ever dispatched |
| Dispatch.DispatchIsFirst | agent/taskqueue.py:374-390 | each dispatch of the pump takes a high task before a normal one before a low one, and equals in order of arrival, among the unexpired entries that are eligible, and leaves the other unexpired ones queued |
| TaskRunner.TaskRunner.ShouldRetry | agent/runner.py:293-301 | retries only a retryable failure of a task not seen cancelled |
| TaskRunner.TaskRunner.RunTask | agent/runner.py:232-291 | k calls, all but the last retryable failures, the last one's result settled and the queue told whether the status is ok; it stops early only for a final result, the limit or a cancellation; cancelled iff a cancellation was on record or the result says so; a cancel on record at its start leaves one attempt and the status cancelled |
| TaskRunner.OkIff | agent/runner.py:52-61 | the status is ok iff the last call succeeded, nothing was cancelled and the decision neither blocked nor asked; and when it is each of the others |
| TaskRunner.RetryTrace | agent/runner.py:244-286 | calls 1 to k, k-1 retries counted, for k > 1 attempt files for exactly 1 to k, and the waits: the backoff list as far as there are retries, its last entry repeated when it is too short, entries of zero not slept; one wait more when a cancel ends it |
| TaskRunner.WaitsBeforeCalls | agent/taskqueue.py:86-95 | before call j stand the calls before it and the first j-1 of those waits |
| TaskRunner.SentIffNotStreamed | agent/runner.py:305-315 | the result is sent once, last before the queue is told, unless a final chunk is out |
| Subtasks.AdmissionBound | agent/subtasks.py:202-223 | in every reachable state queued and running children together fit the pool |
| Subtasks.NoStarvation | agent/subtasks.py:194-223 | in every reachable state with a queued child some worker is not inside `execute` |
| Subtasks.PromisedNeverRuns | agent/subtasks.py:330-347 | a child for which `cancel` returned True at one point of a run is not executed at any later one |
| Subtasks.TerminalIsAbsorbing | agent/subtasks.py:236-258 | a record finished at one point of a run is unchanged at every later one |
| Subtasks.StepKeepsValid | agent/subtasks.py:202-347 | every step of the manager keeps its invariant |
| Subtasks.RunIsValid | agent/subtasks.py:184-198 | so the invariant holds in every reachable state |
| Subtasks.SubtaskManager.Spawn | agent/subtasks.py:202-223 | accepted iff within depth, its id not queued or running and fewer children going than the limit; then a new queued record under the id; refused for the first of these causes, without effect, otherwise |
| Subtasks.SubtaskManager.ActiveCount | agent/subtasks.py:320-323 | counts the unfinished records |
| Subtasks.SubtaskManager.BeginRun | agent/subtasks.py:236-244 | the oldest item starts, unless its id was cancelled, which ends it |
| Subtasks.SubtaskManager.EndRun | agent/subtasks.py:245-258 | that record alone changes: it succeeds or fails with the call |
| Subtasks.SubtaskManager.Cancel | agent/subtasks.py:330-347 | answers whether the latest child of the id was queued, and then ends it; changes no other record and remembers the id |
| Replace.ReplaceIsSplitJoin | agent/executor_v2.py:1113-1136 | replacing is cutting at the counted occurrences and joining by the new text; joining by the old text gives the original |
| Replace.ReplaceLength | agent/executor_v2.py:1135-1136 | the length changes by the count times the difference |
| Replace.OneIsAll | agent/executor_v2.py:1135 | with one occurrence, replacing the first replaces all |
| Replace.CountIffOccurs | agent/executor_v2.py:1122-1128 | the count is positive iff the text occurs |
| Patch.TextFile.PatchFile | agent/executor_v2.py:1091-1163 | the file becomes the fold of all edits, with the sum of their replacements, or the first failing edit is reported and the file and its backups are untouched |
| Patch.AcceptedReplacesAll | agent/executor_v2.py:1113-1136 | an accepted edit replaces every occurrence whether or not it asked to |
| Patch.LengthIsConserved | agent/executor_v2.py:1113-1136 | final length = initial length + sum of replacements times the change |
| Patch.OneCallOrTwo | agent/executor_v2.py:1113-1136 | two lists of edits in one call do what two successful calls do |
| Patch.ReverseUndoes | agent/executor_v2.py:1135 | the reverse edit undoes an edit whose new text shares no character with the file |
| Patch.ReverseUndoesIff | agent/executor_v2.py:1135 | the reverse edit undoes an edit iff the new text occurs in no piece of the file between the replaced occurrences, nor where a piece meets the text put behind it |
| Redaction.NeverBuilt | agent/secrets_vault.py:127-129 | one replacement removes its value and builds no other value that cannot overlap the mark |
| Redaction.NoneIsLeft | agent/secrets_vault.py:120-130 | after the loop, in any order, no value apart from the mark is left |
| Redaction.CleanIsUnchanged | agent/secrets_vault.py:120-130 | a text that holds none of the values is unchanged |
| Redaction.RedactingTwiceIsOnce | agent/secrets_vault.py:120-130 | redacting again, in any order, changes nothing |
| Redaction.CleanIffOutsideTheMark | agent/secrets_vault.py:120-130 | for values without `*`, redaction is complete on every text iff no value is part of the mark |
| Redaction.CleanIffApart | agent/secrets_vault.py:120-130 | redacting one value, any value, is complete on every text iff the value cannot overlap the mark |
| Redaction.NotApartComesBack | agent/secrets_vault.py:127-129 | for every value that can overlap a mark that begins and ends with one character, a text in which replacing it leaves it |
| Redaction.ValueBecomesTheMark | agent/secrets_vault.py:127 | longest first, a value on its own becomes the mark and nothing else |
| Redaction.RedactedInTurn | agent/secrets_vault.py:127-130 | the loop leaves the text with each value in turn cut out and `***REDACTED***` put in its places, and nothing else changed |
| Redaction.ShortestFirstLeaksTheRest | agent/secrets_vault.py:127 | in the other order the end of a longer secret would stay |
| Redaction.ValueRegistry.RegisterValue | agent/secrets_vault.py:101-111 | remembers values of at least four characters, and only those |
| Redaction.ValueRegistry.Redact | agent/secrets_vault.py:120-130 | the loop's result over registered and extra values, longest first, with none of the star-free ones left |
| Stream.StreamingExecutor.ShellStream | agent/executor_v2.py:650-806 | exactly one final chunk and it is last; gapless numbers; every line taken from a pipe in exactly one chunk of its channel, whole and in order; the final statistics are the totals; status by ending and exit code |
| Stream.StreamingExecutor.Take | agent/executor_v2.py:719-744 | one queue item: buffered, and sent as soon as there is a newline or enough text, or on a quiet interval |
| Stream.StreamingExecutor.EmitFinal | agent/executor_v2.py:625-640 | one chunk with the task's next number |
| StreamLaws.EachPipeInOrder | agent/executor_v2.py:719-744 | whatever the interleaving, what is taken from a pipe is the beginning of what was written to it, and all of it if the call was not cut short |
| StreamLaws.InterleavingIsIrrelevant | agent/executor_v2.py:703-748 | absent secrets, any two calls on interleavings of the same pipes send the same text per channel, namely what was written |
| StreamLaws.NoSecretLeaves | agent/executor_v2.py:703-717 | a secret without `*`, with no newline but at its end, and not part of the mark occurs nowhere in what a call sends on a channel, not even across chunks |
| StreamLaws.NeverLeavesIff | agent/executor_v2.py:703-748 | one scrubbed value, any value, never leaves on any call iff it cannot overlap the mark and has no newline but at its end |
| StreamLaws.NeverLeaveIff | agent/executor_v2.py:703-748 | of several values, each unable to overlap the mark or part of it, none ever leaves iff each of one line is not part of the mark and each of several lines has one of these for a part |
| StreamLaws.NoneApartLeaves | agent/executor_v2.py:703-748 | with values that cannot overlap the mark, `*` or not, each of one line never leaves, neither in a chunk nor across chunks |
| StreamLaws.OneLineEach | agent/executor_v2.py:737-741 | lines that end in a newline go out one to a chunk, whatever the chunk size |
| StreamLaws.ManyLinesLeave | agent/executor_v2.py:703-717 | a secret with a newline before its end leaves in clear unless a registered value of one line is part of it |
| StreamLaws.PartOfTheMarkLeaves | agent/secrets_vault.py:75 | a secret that is part of the mark shows in it, whatever else is scrubbed |
| Buffers.FileWatch.Record | agent/executor_v2.py:267-277 | one event more; when full the oldest is forgotten and counted |
| Buffers.FileWatch.Drain | agent/executor_v2.py:279-284 | hands out the oldest buffered events in order, each once, with the losses since the last call; nothing else is lost |
| Buffers.PageMovesOn | agent/executor_v2.py:1391-1404 | a page that is not the last is full and moves the offset on; the last is flagged |
| Buffers.PagesAreTheFile | agent/executor_v2.py:1383-1405 | following the offsets reads every byte once, in exactly as many pages as the size asks for |
| Templates.TokensAreFound | agent/workflow.py:241-252 | in a text whose `$` all begin references, the pattern finds exactly the node references written |
| Templates.TokensAreRendered | agent/templates.py:334-339 | rendering replaces exactly the known parameters written and keeps the node references |
| Templates.RenderingKeepsReferences | agent/templates.py:323-356 | filling in values without `$` leaves the node references of any payload unchanged |
| TemplatePlans.ValidationSurvivesRendering | agent/templates.py:347-358 | a template with parameters in its payloads only, filled in with values without `$`, renders to a document of nodes that is a valid plan iff the template is one |
| Templates.RenderedIsGood | agent/templates.py:323-345 | no known parameter is left after rendering |
| Templates.ValueCanAddAReference | agent/templates.py:333-336 | a value with a reference in it adds one |
| Templates.HarmlessIff | agent/templates.py:333-339 | a value adds no reference wherever it is put iff none begins in it, neither a whole one nor one that what follows could complete |
| Templates.ResolveParams | agent/templates.py:291-320 | every declared parameter, of two of a name the later, gets the given value unless it is null, else its default; or exactly the undeclared names given, or else the required ones lacking, are reported |
| Templates.StringBecomes | agent/templates.py:333-339 | a string that is one known parameter, blanks aside, becomes its value in its own type; any other becomes a text |
| Templates.TooDeepIff | agent/templates.py:331-344 | rendering is refused iff the value is nested more than twenty deep |

## Left out

- Processes, pipes, signals, sessions, watch backends, HTTP, git, reporters, the bridge, the CLI: foreign calls. Readers are a script of lines and end marks; a reporter never fails.
- Cryptography: the MAC is an abstract function; the theorem names the assumption it needs (no collision among the recorded messages).
- Audit rotation, the `TypeError` of a comparison with a non-string `hmac`, and JSON text: one file as a sequence of records and unreadable lines.
- `croniter`: only the built-in parser. Cron text is ASCII and already split on whitespace.
- Dates after the year 9999, where Python raises `OverflowError`: the calendar is unbounded.
- Floating point: timestamps and intervals are whole microseconds, delays are reals; JSON numbers in payloads are integers.
- Node timeouts, `on_node_done`, durations and the texts of `skipped_because`: parsed or reported, never decisive.
- Truncations of output to a number of characters, the diff and the byte counts of a patch result: they do not affect the laws above.
- `await_tasks` and `forget_finished` of the sub-task manager: no claim is made about early return, and forgetting a cancelled child that is still in the pool is not modelled.
- Dispatch.Conservation: the retry loop inside a worker is in `TaskRunner`, not in this machine; a worker between attempts may try again or settle with any status of its own. Reading the cancel record and reporting are one step.
- TaskRunner.TaskRunner.RunTask: other threads are a point at which ids may be added to the cancelled set; metrics other than the retry count are left out.
- Dispatch: `pump`, `cancel` and the worker thread are steps on values rather than methods, because the point is their interleaving. Readings of the clock are not assumed to grow.
- Dispatch.PoolAndExclusion: says nothing about the empty id, which the queue never registers, so that two such tasks may run at once.
- Plan.TopologicalOrder: does not model a list that repeats an id, on which the source fails with a `KeyError`; validation refuses it before.
- Workflow.NothingStartsAfterCancel: a launch pass is one step; a cancel inside one is `Workflow.CancelInsideAPass`.
- Workflow.StepsTerminate: assumes that every call of `execute` returns.
- Stream.StreamingExecutor.ShellStream: several attempts of one task each close their own stream; the flush on elapsed time without force is never requested by the source and is not modelled. The process exit code is given.
- Stream.StreamingExecutor.Take: the clock is a script; when it is exhausted the deadline has passed.
- Buffers.PagesAreTheFile: states bytes; decoding each page on its own can split a character at a page boundary.
- Scheduler.ParseSchedule: reading numbers and timestamps from text, and generated ids, are left out.
- Scheduler.RowRoundTrip: a cron text is its five fields; a known key with a value of another kind is unreadable here, while the source would accept any value.
- Scheduler.Scheduler.Load: every record is restored at one time, where the source reads the clock for each; an entry that is no object, on which the source fails, is not modelled.
- Scheduler.Scheduler.RunDue: called with an explicit time; without one the source reads the clock again for each firing. A dispatch does not call back into the scheduler.
- Templates.RenderingKeepsReferences: how a value prints inside a longer text is a parameter.
- TemplatePlans.ValidationSurvivesRendering: a parameter written in an id, a kind or a dependency is left out; ids that become equal by rendering make a plan invalid.
- StreamLaws.NeverLeaveIff: of several values one that overlaps an end of the mark, which takes a `*`, is decided only when it is scrubbed alone.
- SecretVault: storage, `resolve` and placeholder masking are left out; the values it would register are the arguments of redaction.
- Redaction.ValueRegistry.Redact: the order among values of equal length is left open, as it is in the source.
- Plan.ParseWorkflow: type checks of raw JSON beyond those of ids, kinds, payloads and dependencies are part of reading the packet.
