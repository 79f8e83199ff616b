# A verified model of the orchestration runtime

This project models the in-memory core of the backend in Dafny 4.11 and proves what it promises: the task
manager and the planning king above it, the workflow engine, the event bus, the rate limiter, the scheduler
with its cron trigger, the memory façade, the token service and the skill files. `dafny verify dfyconfig.toml`
checks everything.

Code that updates objects is modelled by classes whose methods are proved against a value-level machine (for
coroutines, one step from one suspension point to the next); the theorems are lemmas about that machine, for
every input, every schedule and every reachable state.

## The parts

- **Tasks** (`TaskGraphs`, `TaskRuns`, `TaskInvariant`, `TaskMeaning`, `TaskLayers`, `TaskLedger`,
  `TaskManagement`). The depth-first validation accepts exactly the closed acyclic graphs. A wave is a set of
  coroutines resumed in any order; the executor is a function of a task and its attempt number. Every schedule
  ends, meets no forbidden transition, and leaves the states of the dataflow reading of the graph.
- **King** (`ClauseCuts`, `Planning`, `PlanMeanings`, `PlanGraphs`, `Aggregators`, `King`, `Monitors`,
  `ProgressLedger`, `KingRequests`). The objective is cut at all matches of the two regular expressions, plans
  are layered graphs, waves are their groups, every line of the report follows from the replies of the generals
  to three attempts, and the report, the events and the snapshot of a monitor on the bus balance.
- **Workflows** (`Workflows`, `WorkflowMeaning`, `WorkflowResume`, `WorkflowEngines`). What an undisturbed run
  calls and computes, in terms of its steps' own functions; and a run interrupted by transient failures and
  resumed, in mid-loop or not, makes the calls of the undisturbed run if and only if every call is made on a
  state on which its step would be entered. Conditions that stay true across their own loops are enough for
  that, and there is a workflow that loses work without it.
- **Event bus** (`EventBuses`, `EventBusTheorems`, `EventBusCalls`, `EventBusLosses`,
  `EventBusObject`). Conservation, order, retries, isolation of groups and draining, in every interleaving of
  calls and consumers; and exactly when a payload is dead-lettered and when a cancelled subscription loses some.
- **Rate limiter** (`RateLimits`, `RateLimiters`). The token bucket as a minimum over windows, in exact
  arithmetic, and its consequences for the limiter over many keys.
- **Scheduler** (`Calendar`, `Crons`, `CronTexts`, `CronHorizons`, `Schedules`, `SingleFires`,
  `SchedulerObjects`). The proleptic Gregorian calendar, the cron expressions by their text and the search with
  its 366 days, histories of replicas that share a lock, and exactly when a job fires once across them.
- **Memory** (`Dicts`, `Rankings`, `Embeddings`, `Memories`, `MemoryObjects`). Two stores that stand for one
  table; recall is a stable top-k; scores lie between 0 and 1.
- **Codecs** (`Base64Urls`, `Jwts`, `SkillFiles`). Round trips for base64url (section 5 of RFC 4648), compact
  tokens (RFC 7515) and SKILL.md files. `Texts` and `Common` hold what several parts share.

## Where the code and its own words differ

The model follows the code.

- The scheduler's lock is said to guarantee a single fire across replicas. It spaces the fires of a job id by
  its TTL; a replica that was turned away keeps its run and takes it later. Once a one-shot job has fired it
  fires no more if and only if no other replica that still waits is visited when it is due and the TTL is over
  (`SingleFires.OneShotFiresOnceExactlyWhen`, for jobs of any kind `SingleFires.QuietExactlyWhen`);
  `Schedules.TwoReplicasFireTwice` is an instance where it fires twice.
- The cron search is said to look about a year ahead. For 29 February that is too short: asked at a leap day,
  the trigger gives up and the job is disabled (`CronHorizons.LeapDayIsLast`).
- `history` is said to be chronological. It is newest first (`Memories.HistoryIsNewestFirst`), so it is
  chronological if and only if it is empty or the records of the scope and owner with the latest time stamp are
  at least as many as it returns (`Memories.HistoryIsChronologicalExactlyWhen`); two records of different times
  come back the other way round (`Memories.HistoryIsNotChronological`).
- The event bus is said to deliver at least once. A cancelled subscription has all it was sent settled if and
  only if nothing was queued or in delivery at the call
  (`EventBusLosses.UnsubscribeLosesNothingExactlyWhen`) and, after a shutdown, nothing was published to it
  afterwards (`EventBusLosses.ShutdownLosesNothingExactlyWhen`). `EventBusLosses.UnsubscribeDropsAPayload` is
  an instance of a loss, and in `EventBusLosses.DroppedIsNotDeadLettered` all allowed calls have failed before.
- Weekdays of a cron expression count from Monday = 0, as Python's do.
- A maximum of zero attempts or less still allows one attempt.

## Model

| member | source | states |
|---|---|---|
| `TaskGraphs.TopologicalOrder` | backend/core/task_manager/tasks.py:63-81 | validation succeeds exactly on graphs whose dependencies all exist and that have no cycle; the order lists every task once, after its dependencies; each error has its cause |
| `TaskGraphs.Search.Visit` | backend/core/task_manager/tasks.py:67-77 | the nested search with its shared sets: a cycle error means a cycle, a missing key means a dangling dependency, and the recursion ends because the tasks off the stack shrink |
| `TaskGraphs.TopologicalIsAcyclic` | backend/core/task_manager/tasks.py:63-81 | only closed acyclic graphs have an order with dependencies first |
| `TaskRuns.TransitionTable` | backend/core/task_manager/tasks.py:18-25 | the eight transitions a task can make, and no other |
| `TaskRuns.AttemptsMeaning` | backend/core/task_manager/tasks.py:115-130 | the retry loop returns the first success among the allowed attempts, at least one, keeping the error of the attempt before it, or fails with the last error after all of them |
| `TaskRuns.ResumeKeepsOutlook` | backend/core/task_manager/tasks.py:112-130 | a coroutine resumed at any suspension point meets no forbidden transition and stays on course for the result its retry loop would have alone |
| `TaskInvariant.NextKeepsInv` | backend/core/task_manager/tasks.py:101-130 | what every single step of a run keeps for every task: untouched, on course, or finished, with its events |
| `TaskInvariant.RunKeepsInv` | backend/core/task_manager/tasks.py:101-130 | safety over whole runs under any interleaving; `InvalidTransition` is never raised |
| `TaskInvariant.RunsEnd` | backend/core/task_manager/tasks.py:104-130 | no run is longer than the retry budget of its graph, so every schedule ends |
| `TaskInvariant.Progress` | backend/core/task_manager/tasks.py:104-110 | a state has no next step exactly when the loop of `run_graph` has been left |
| `TaskMeaning.EveryScheduleComputesDataflow` | backend/core/task_manager/tasks.py:101-130 | confluence: every finished run of an acyclic graph leaves the states, attempts, results and errors of running one task after the other |
| `TaskMeaning.SettledIsDataflow` | backend/core/task_manager/tasks.py:104-110 | an acyclic graph has exactly one state in which every task has the outcome its dependencies call for |
| `TaskMeaning.ThreeFates` | backend/core/task_manager/tasks.py:54-57 | a task is completed, failed or pending and untouched, each if and only if its own allowed attempts and failures upstream say so |
| `TaskMeaning.EventsOfFates` | backend/core/task_manager/tasks.py:112-130 | the events of a task in a finished run: announced and completed, announced and given up, or none |
| `TaskMeaning.RunRespectsDeps` | backend/core/task_manager/tasks.py:112-121 | in every state of every run a task is announced only after each of its dependencies was reported complete |
| `TaskMeaning.RerunStartsNothing` | backend/core/task_manager/tasks.py:54-61 | running a graph again retries nothing: failed tasks stay failed |
| `TaskManagement.TaskGraph.ReadyTasks` | backend/core/task_manager/tasks.py:54-57 | the pending tasks all of whose dependencies are completed, each once, in creation order |
| `TaskManagement.ChosenMeaning` | backend/core/task_manager/tasks.py:56-57 | the chosen tasks are those at the chosen positions of the creation order, in that order |
| `TaskManagement.TaskManager.RunOne` | backend/core/task_manager/tasks.py:112-130 | the coroutine between two suspension points takes exactly one step of the machine on its task object and the log |
| `TaskManagement.TaskManager.Gather` | backend/core/task_manager/tasks.py:109 | one wave, its coroutines resumed in an arbitrary order until all have returned |
| `TaskManagement.TaskManager.RunGraph` | backend/core/task_manager/tasks.py:101-110 | a rejected graph is left alone; an accepted one ends, under any schedule, in the dataflow states, with the events of a reachable run |
| `TaskLayers.RunFollowsLayers` | backend/core/task_manager/tasks.py:104-109 | in a layered graph the waves of every run are its layers, in order |
| `TaskLayers.LayersRunInOrder` | backend/core/task_manager/tasks.py:104-109 | a run of a layered graph stops after the first layer with a task that fails for good; earlier layers completed, later ones were never started |
| `TaskLedger.LedgerBalances` | backend/core/task_manager/tasks.py:112-139 | announcements = completions + dead letters, and each count is the number of tasks with that outcome |
| `ClauseCuts.CutMeaning` | backend/king/planner.py:33-34 | splitting by either regular expression leaves what lies between its matches, and every match begins in a part that is cut out |
| `ClauseCuts.MatchMeaning` | backend/king/planner.py:33-34 | the patterns match "then", or "and" or a mark, in any case and as words of their own |
| `Planning.Plan` | backend/king/planner.py:48-67 | the nested loops over the cut text build a plan in which every step waits for exactly the steps of the group before its own and goes to the general its clause is routed to; text without clauses becomes one step for the default general |
| `PlanMeanings.PlanMeaning` | backend/king/planner.py:48-67 | the plan in terms of the objective's pieces: groups are the pieces that are not blank and clauses their parts that are not, in order; each step has its clause, its route, and as dependencies exactly the numbers of the steps of the group before; with nothing but blanks it is one step of the whole objective for the default general |
| `Planning.Route` | backend/king/planner.py:41-46 | a clause goes to the general of the first keyword it contains, or to the default general when it contains none |
| `Planning.PlanIsContiguous` | backend/king/planner.py:48-67 | every objective has a non-empty plan whose groups follow one another without gaps |
| `Planning.StepsAreAtomic` | backend/king/planner.py:48-67 | the clause of any step, planned again, is a plan of one step: nothing is left to cut |
| `PlanGraphs.PlanIsAcyclic` | backend/king/king.py:94-101 | the graph built from any plan is closed and acyclic, creation order being topological |
| `PlanGraphs.PlanRunsInGroups` | backend/king/king.py:94-108 | wave w of any finished run is the w-th group; before the first failing group all steps completed, in it each is decided alone, after it none was dispatched |
| `PlanGraphs.FirstFailingGroupExists` | backend/king/king.py:94-108 | every executor has a first group with a step it cannot complete, or completes the steps of all groups |
| `King.BuildGraph` | backend/king/king.py:94-101 | growing the graph step by step gives the plan's graph, all pending, every task with three attempts |
| `Aggregators.Merge` | backend/king/aggregator.py:14-55 | every task is listed once in creation order with its outcome and counted as completed or not; the summary joins the answers there are, or accounts for the run; the action is that of the first task whose result has one |
| `Aggregators.FirstAction` | backend/king/aggregator.py:40-45 | the action handed out is the first there is in creation order, and there is none if and only if no result has one |
| `Aggregators.FailingCount` | backend/king/aggregator.py:57-64 | the summary names one general for each step that is not completed |
| `Aggregators.FailingMeaning` | backend/king/aggregator.py:61-63 | the generals named are those of the lines that are not completed, in their order |
| `Aggregators.AnswersMeaning` | backend/king/aggregator.py:35-36 | the answers are those of the results that have one, in their order |
| `Aggregators.SummaryMeaning` | backend/king/aggregator.py:37-38 | the text of the summary: the answers with blank lines between, or the objective, the counts and the generals that failed |
| `King.SucceedsExactlyWhenDelivered` | backend/king/king.py:126-139 | the executor that dispatches to the generals completes a step if and only if its general replies `completed` within the allowed attempts |
| `King.RepliesDecide` | backend/king/king.py:94-139 | for any plan and any replies there is a first group with an undelivered step, and it decides how every step ends: completed before it, each alone in it, never started after it |
| `King.RepliesTell` | backend/king/king.py:94-139 | the final state of every step from the replies alone: if every step of the earlier groups is completed at attempt 1, 2 or 3 it is completed by its first completion, or failed after exactly three attempts with the error of the third; else it is pending |
| `King.ReportTells` | backend/king/king.py:94-114 | the same for the lines of the report: status, attempts, result and error of every step |
| `King.PlanAndRun` | backend/king/king.py:93-114 | for every objective and any replies of the generals the graph is accepted and run to a finished state; the first undelivered group decides how every step ends; the report has the line of every step as the replies to its three attempts tell it, balances against the events emitted, and takes its summary and its action from the results |
| `King.ReportIsBalanced` | backend/king/aggregator.py:19-54 | completed steps are the completion events; failed steps are the dead letters plus the steps never started |
| `Monitors.ProgressMonitor.OnEvent` | backend/king/monitor.py:27-31 | a handled event is appended with its whole payload and its topic's tally follows, the tallies staying the counts of the events |
| `Monitors.ProgressMonitor.Snapshot` | backend/king/monitor.py:39-45 | the tallies are the numbers of events seen per topic and together account for all of them |
| `ProgressLedger.SubscriberSeesTopic` | backend/core/event_bus/event_bus.py:38-52 | a kept subscription is sent exactly what is published on its topic from then on |
| `ProgressLedger.PublishedIsLogged` | backend/core/task_manager/tasks.py:112-139 | publishing the manager's events one by one puts on each task topic exactly the tasks logged under it, whatever else the bus carries |
| `ProgressLedger.PublishedUnderTheirNames` | backend/core/task_manager/tasks.py:117-127 | the same by the names of the topics |
| `ProgressLedger.HeardIsCalls` | backend/king/monitor.py:21-31 | in any run of the bus the monitor hears of a topic as often as the handler of its subscription is called |
| `ProgressLedger.TalliesMatchReport` | backend/king/king.py:103-115 | for a request whose drain ended idle, the tallies of what the monitor's handlers were run on balance among themselves and with the report |
| `ProgressLedger.SnapshotMatchesReport` | backend/king/king.py:103-115 | a monitor object whose handler runs once per handler call on the bus ends with a snapshot that balances and matches the report |
| `KingRequests.Execute` | backend/king/king.py:84-124 | a whole request: the context recalled before it, the answer with the report of the run, line by line from the replies, and the monitor's snapshot, and a memory that gains exactly the exchange, as question and answer |
| `KingRequests.ContextIsTopFive` | backend/king/king.py:88-91 | the context is the best five records of the owner's conversation, or all when they are fewer, with their rounded scores |
| `KingRequests.ProgressMatchesReport` | backend/king/king.py:103-115 | if what the monitor heard is what the bus carried of the run, the progress in the answer balances and matches the report |
| `WorkflowMeaning.CleanRun` | backend/core/workflow_engine/engine.py:67-94 | what an undisturbed execution does from any cursor: a step is called if it has no condition or it holds, and then once more for every time its loop asks; the run ends at the end, or fails at the first loop that asks more often than allowed, with that step's error under `_error`; calls and states are those |
| `WorkflowMeaning.SucceedsExactlyWhen` | backend/core/workflow_engine/engine.py:67-86 | a run with such a history to the end succeeds with its last state and its calls; a history is unique |
| `WorkflowMeaning.PlainRunFolds` | backend/core/workflow_engine/engine.py:67-86 | without conditions and loops every step is called once and the run ends in the fold of the step functions |
| `Workflows.FaultStops` | backend/core/workflow_engine/engine.py:67-91 | a transient failure of the k-th call leaves the calls before it, the cursor at its step and the state it was given |
| `Workflows.GoAlike` | backend/core/workflow_engine/engine.py:67-85 | states that agree up to the error key are executed alike, and restarting a loop count never exhausts the loop sooner |
| `WorkflowResume.ResumesInPlaceExactlyWhen` | backend/core/workflow_engine/engine.py:63-75 | after one crash the resumed run does the rest of the undisturbed one if and only if the condition of the interrupted step holds of the saved state |
| `WorkflowResume.ResumeEquivalence` | backend/core/workflow_engine/engine.py:63-94 | if every call left is made on a state on which its step would be entered, then, interrupted any number of times, also in mid-loop, the calls made and the final state are those of the uninterrupted run up to the error key, and no loop is exhausted |
| `WorkflowResume.ResumesExactlyWhen` | backend/core/workflow_engine/engine.py:63-94 | that condition is exact: a run comes to the same under all transient failures if and only if it holds |
| `WorkflowResume.StableConditionsResume` | backend/core/workflow_engine/engine.py:63-94 | conditions that stay true across the iterations of their own loops are enough |
| `WorkflowResume.UnstableConditionLosesWork` | backend/core/workflow_engine/engine.py:73-81 | a workflow whose condition changes in its own loop loses iterations when it is resumed |
| `WorkflowEngines.WorkflowEngine.ExecuteRun` | backend/core/workflow_engine/engine.py:67-94 | from any cursor, also one past the end, the loop over steps with its inner loop updates the run object as one execution from the cursor does, which `WorkflowMeaning.CleanRun` describes, and raises exactly when the run is not completed |
| `WorkflowEngines.WorkflowEngine.Resume` | backend/core/workflow_engine/engine.py:63-65 | an unknown id is refused; a kept run is executed from its cursor, whatever the length of the workflow it is resumed with |
| `EventBusTheorems.RunKeepsInv` | backend/core/event_bus/event_bus.py:38-85 | in every run each subscription is in order, the dead letters are those of its failed payloads, and `_inflight` is the number of consumers in a delivery |
| `EventBusTheorems.Conservation` | backend/core/event_bus/event_bus.py:38-85 | what was published to a subscription is, in order, what it settled, has in hand and has queued; in numbers delivered + dead-lettered + in hand + queued |
| `EventBusTheorems.HandlerCalls` | backend/core/event_bus/event_bus.py:71-83 | in every run, also of a cancelled consumer, a handler sees payloads in publish order, all retries of one before the next, no more than allowed; the dead letters are the settled payloads of which every allowed call failed, and a dropped delivery is not among them even when all its calls failed |
| `EventBusCalls.CallsAreOutcomes` | backend/core/event_bus/event_bus.py:71-82 | in every run the calls recorded for a handler are the payloads in hand with the outcomes the trace has for them |
| `EventBusCalls.DeadLetteredExactlyWhen` | backend/core/event_bus/event_bus.py:71-83 | a settled payload is delivered if and only if the last of its calls in the trace returned, and dead-lettered if and only if all the allowed calls were made and every one raised |
| `EventBusTheorems.IdleMeansSettled` | backend/core/event_bus/event_bus.py:94-97 | when a running bus is idle, everything sent to a registered group was delivered or dead-lettered |
| `EventBusTheorems.Isolation` | backend/core/event_bus/event_bus.py:38-85 | what one group observes does not depend on the handlers and consumers of the others |
| `EventBusTheorems.Drains` | backend/core/event_bus/event_bus.py:59-85 | a bus left alone comes to rest after a bounded number of resumptions, whatever the handlers do |
| `EventBusTheorems.QuietIsIdle` | backend/core/event_bus/event_bus.py:94-97 | a running bus at rest is idle |
| `EventBusLosses.UnsubscribeLosesNothingExactlyWhen` | backend/core/event_bus/event_bus.py:54-69 | once the consumer of an unsubscribed group has stopped, all it was sent is settled if and only if its queue was empty and it was in no delivery at the call; nothing is settled or sent after the call |
| `EventBusLosses.ShutdownLosesNothingExactlyWhen` | backend/core/event_bus/event_bus.py:108-113 | the same for a shutdown, where in addition nothing may be published to the group afterwards |
| `EventBusLosses.UnsubscribeDropsAPayload` | backend/core/event_bus/event_bus.py:54-65 | a payload published and then dropped by unsubscribing is neither handled nor dead-lettered |
| `EventBusLosses.DroppedIsNotDeadLettered` | backend/core/event_bus/event_bus.py:54-83 | a payload of which every allowed call failed is not dead-lettered when the group unsubscribes during the last pause |
| `EventBusLosses.ShutDownStartsNothing` | backend/core/event_bus/event_bus.py:59-60 | a group that subscribes after a shutdown is never delivered anything |
| `EventBusObject.EventBus.PublishTo` | backend/core/event_bus/event_bus.py:38-45 | the loop over groups puts the payload in the queue of every group registered for the topic and in no other |
| `EventBusObject.EventBus.ResumeConsumer` | backend/core/event_bus/event_bus.py:59-85 | a consumer between two suspension points takes one step of the machine on queue, counter and dead letters, with the outcome its handler call has |
| `EventBusObject.EventBus.SubscribeAs` | backend/core/event_bus/event_bus.py:47-52 | a group is accepted once per topic and starts with an empty queue and a consumer that has not begun |
| `EventBusObject.EventBus.Stop` | backend/core/event_bus/event_bus.py:108-113 | the loop over groups cancels the consumer of every registered group and no other |
| `EventBusObject.EventBus.UnsubscribeFrom` | backend/core/event_bus/event_bus.py:54-57 | the group is forgotten and its consumer finds a cancellation; an unknown group is ignored |
| `EventBusObject.EventBus.IsIdle` | backend/core/event_bus/event_bus.py:94-97 | idle exactly when no registered queue holds a payload and no delivery is in flight |
| `RateLimits.AvailableIsLeastAllowance` | backend/tools/rate_limit.py:40-47 | the tokens a check finds are the least, over all windows ending there, of capacity plus what the window earned less what it was granted |
| `RateLimits.GrantedExactlyWhen` | backend/tools/rate_limit.py:43-47 | a call is let through if and only if no window ending with it would exceed its allowance |
| `RateLimits.WindowBound` | backend/tools/rate_limit.py:43-47 | no window is granted more than the capacity and what its length earns |
| `RateLimits.RefusalsAreInvisible` | backend/tools/rate_limit.py:40-47 | leaving out all refused checks changes no remaining decision and no later token count |
| `RateLimiters.KeysAreIndependent` | backend/tools/rate_limit.py:30-47 | what one key experiences depends on the operations on that key alone |
| `RateLimiters.AllowedExactlyWhen` | backend/tools/rate_limit.py:34-47 | the window law for the whole limiter, from the time a key has no bucket |
| `RateLimiters.ConstructedLaw` | backend/tools/rate_limit.py:25-47 | for a limiter just constructed and a key that is never configured, a check is let through if and only if for every check of the key up to it, the checks let through since, with it, are at most the constructor's capacity and what its rate earns in between |
| `RateLimiters.ConfiguringStartsAfresh` | backend/tools/rate_limit.py:30-32 | configuring a key starts the law anew with the new limit, whatever came before |
| `RateLimiters.ConfiguredLaw` | backend/tools/rate_limit.py:30-47 | the same with the capacity and rate the key was last configured with |
| `RateLimiters.TokenBucketRateLimiter.CheckKey` | backend/tools/rate_limit.py:34-47 | a check updates the bucket object of its key, made full on first use, and no other, and refuses when less than one token is there |
| `Calendar.DateOfOrdinal` | backend/core/scheduler/scheduler.py:57-61 | every valid date is the date of its ordinal |
| `Calendar.AtOfParts` | backend/core/scheduler/scheduler.py:57-61 | every minute is the minute of its date, hour and minute |
| `Calendar.MonthLengths` | backend/core/scheduler/scheduler.py:57-61 | the lengths of the months |
| `Calendar.GregorianCycle` | backend/core/scheduler/scheduler.py:57-61 | the leap years of the Gregorian cycle of 400 years |
| `Calendar.Anchors` | backend/core/scheduler/scheduler.py:57-61 | 1 January 1970 is a Thursday, counted 3; the last minute is that before the end of year 9999 |
| `Calendar.WeekdaysFollow` | backend/core/scheduler/scheduler.py:61 | the weekday lasts all day and the next day has the next one |
| `Crons.Matches` | backend/core/scheduler/scheduler.py:44-53 | the loop over the parts of the field's text accepts, turns down or raises as the parsed field does |
| `Crons.MatchFieldMeaning` | backend/core/scheduler/scheduler.py:44-53 | a field accepts a value, or raises on it, if and only if some part does and all parts before it turn the value down |
| `CronTexts.FieldMeaning` | backend/core/scheduler/scheduler.py:44-53 | by the text of a field: it accepts a value if and only if a part is `*`, a step of which the value is a multiple, or the value in digits, and no part before raises |
| `CronTexts.ExprMeaning` | backend/core/scheduler/scheduler.py:55-61 | by the text of an expression: it accepts a time if and only if its five fields accept its minute, hour, day, month and weekday |
| `CronTexts.ExprRaising` | backend/core/scheduler/scheduler.py:44-61 | an expression without five fields raises; another raises on a time if and only if a field does and all before accept |
| `CronTexts.EveryMinutesNext` | backend/core/scheduler/scheduler.py:49-63 | the next run of `*/n * * * *` is the first whole minute after now whose minute of the hour is a multiple of n |
| `Crons.NextRun` | backend/core/scheduler/scheduler.py:55-64 | for the text of an expression, the minute-by-minute loop gives the answer of the specified search, with its exceptions |
| `Crons.NextIsLeast` | backend/core/scheduler/scheduler.py:55-64 | the next run is the least accepted whole minute after now within the horizon; there is none exactly when every minute in it is turned down |
| `Crons.NextIsMonotone` | backend/core/scheduler/scheduler.py:55-64 | a later question never has an earlier answer, and the same one until it is past |
| `Crons.RunsEnumerate` | backend/core/scheduler/scheduler.py:55-64 | asking again at each answer lists all accepted minutes in order, none skipped, none repeated, stopping only where nothing is found |
| `CronHorizons.YearlyIsFound` | backend/core/scheduler/scheduler.py:58-64 | 366 days are enough, at every time of the calendar, for every expression that accepts a minute of some yearly date other than 29 February on any weekday |
| `CronHorizons.YearlyFoundExactlyWhen` | backend/core/scheduler/scheduler.py:55-64 | for one such date the search finds a run if and only if the date has not come up for the last time in the calendar |
| `CronHorizons.DailyIsFoundInADay` | backend/core/scheduler/scheduler.py:58-64 | with every day accepted the next run is less than 1440 minutes off |
| `CronHorizons.HorizonIsTight` | backend/core/scheduler/scheduler.py:58 | across every leap day the search needs its very last minute |
| `CronHorizons.LeapDayFoundExactlyWhen` | backend/core/scheduler/scheduler.py:58-64 | a job for 29 February has a next run if and only if the leap day of this year or the next is within reach |
| `CronHorizons.LeapDayIsLast` | backend/core/scheduler/scheduler.py:58-64 | asked at any leap day, the trigger for it finds nothing |
| `Schedules.FiresAreSpaced` | backend/core/scheduler/scheduler.py:73-79 | whatever replicas and wall clocks do, two fires of one job id are at least one TTL apart on the lock's clock |
| `Schedules.FiresAreAnswers` | backend/core/scheduler/scheduler.py:124-142 | every fire of a job answers what its trigger announced at the fire before, whatever the other jobs and replicas do |
| `Schedules.FiresGoForward` | backend/core/scheduler/scheduler.py:124-142 | for cron, date and positive un-anchored interval jobs fires go forward in time even when the clock is set back, and the next run lies after the last |
| `Schedules.NextIsLater` | backend/core/scheduler/scheduler.py:25-36 | the answer of a trigger is later than the question exactly when it is not an interval whose base plus length is already past |
| `Schedules.IntervalAnswers` | backend/core/scheduler/scheduler.py:29-36 | an interval answers its length after its anchor, or after the question, and raises outside the calendar |
| `Schedules.IntervalFiresApart` | backend/core/scheduler/scheduler.py:124-142 | the fires of an un-anchored interval job are at least its length apart, and its next run is due its length after the last |
| `Schedules.FiresFromItsTime` | backend/core/scheduler/scheduler.py:124-142 | a job whose lock is free is fired by a visit exactly from its time on, which takes the lock for 30 seconds and leaves the job as its trigger answers |
| `Schedules.DateFiresOnce` | backend/core/scheduler/scheduler.py:22-26 | a one-shot job fires at most once on its replica and never before its time |
| `Schedules.ScheduleBegins` | backend/core/scheduler/scheduler.py:107-112 | scheduling arms the job with its trigger's first answer, or raises and changes nothing |
| `Schedules.TwoReplicasFireTwice` | backend/core/scheduler/scheduler.py:129-138 | a one-shot job held by two replicas fires on both once the TTL is over |
| `SingleFires.QuietExactlyWhen` | backend/core/scheduler/scheduler.py:124-142 | after the lock of an id was taken, for jobs of any kind on any replicas and any events, the id does not fire again if and only if no visit finds its job due with the TTL over |
| `SingleFires.OneShotFiresOnceExactlyWhen` | backend/core/scheduler/scheduler.py:124-142 | a one-shot job that has fired fires no second time if and only if no other replica still waiting for it is visited at or after its time with the TTL over; a replica that scheduled it too late does not wait |
| `SchedulerObjects.InMemoryLock.Acquire` | backend/core/scheduler/scheduler.py:73-79 | the lock is granted exactly when it is free, and then held for the TTL |
| `SchedulerObjects.Scheduler.Tick` | backend/core/scheduler/scheduler.py:124-142 | the loop visits every job once in order up to the first whose trigger raises, and returns the names of those that fired |
| `SchedulerObjects.NamesAreOfFires` | backend/core/scheduler/scheduler.py:124-142 | the names returned are those of the jobs that fire, one for each fire, in order |
| `SchedulerObjects.EditIsStep` | backend/core/scheduler/scheduler.py:107-115 | scheduling and cancelling on one replica are steps of the common history of the replicas |
| `SchedulerObjects.TickIsRun` | backend/core/scheduler/scheduler.py:124-142 | a tick is the visits of its jobs in the common history of the replicas |
| `Rankings.RankedIsStableSort` | backend/memory/semantic/store.py:35 | the ranking is descending and keeps, score by score, the same elements in the same order |
| `Rankings.StableSortIsUnique` | backend/memory/semantic/store.py:35 | there is only one such list |
| `Embeddings.Embed` | backend/memory/embedding.py:23-28 | counting into an array and dividing gives the normalised bag of hashed tokens |
| `Embeddings.EmbeddedCounts` | backend/memory/embedding.py:23-28 | each component is the number of occurrences of tokens that fall into its cell, over a length that all components share |
| `Embeddings.CauchySchwarz` | backend/memory/embedding.py:31-32 | the square of an inner product is at most the product of the norms squared |
| `Embeddings.ScoreBound` | backend/memory/embedding.py:23-32 | the score of any two texts lies between 0 and 1, whatever the token hash |
| `Embeddings.SelfScore` | backend/memory/embedding.py:23-32 | a text with a token scores 1 against itself, a text without any scores 0 |
| `Memories.StoresAreOneTable` | backend/core/memory_manager/memory.py:48-76 | after any run of remember and forget the two stores hold the same ids with matching tags and vectors, and stand for one table |
| `Memories.SearchIsTableRecall` | backend/core/memory_manager/memory.py:60-70 | searching the index and hydrating the hits is the stable top-k of the matching records of the table; no hit is lost |
| `Memories.RecallIsTopK` | backend/core/memory_manager/memory.py:60-70 | recall returns live records of its scope and owner only, as many as there are up to k, best first, none left out being better |
| `Memories.MatchedInOrder` | backend/memory/semantic/store.py:27-36 | records are matched in the order in which they were first remembered, which ties keep |
| `MemoryObjects.InMemorySemanticStore.Search` | backend/memory/semantic/store.py:27-36 | the loop over the index, the sort and the slice give the first k tagged ids by score |
| `MemoryObjects.InMemoryLongTermStore.Hydrate` | backend/memory/long_term/store.py:26-27 | exactly the rows of the ids that have one, in the order of the ids |
| `MemoryObjects.MemoryManager.History` | backend/core/memory_manager/memory.py:78-80 | the latest records of the table in a scope, newest first |
| `MemoryObjects.InMemoryLongTermStore.Query` | backend/memory/long_term/store.py:29-32 | the latest records of a scope and owner, newest first |
| `Memories.HistoryIsNewestFirst` | backend/core/memory_manager/memory.py:78-80 | the history is descending in time, for any limit |
| `Memories.HistoryIsChronologicalExactlyWhen` | backend/core/memory_manager/memory.py:78-80 | the history is ascending if and only if it is empty or at least as many records of the scope and owner carry the latest time stamp as it returns |
| `Memories.HistoryIsNotChronological` | backend/core/memory_manager/memory.py:78-80 | two records of different times come back with the later one first |
| `Memories.HistoryIsLatest` | backend/memory/long_term/store.py:29-32 | as many records of the scope and owner as there are up to the limit, none left out being later |
| `MemoryObjects.MemoryManager.Remember` | backend/core/memory_manager/memory.py:48-58 | both stores are updated together and the table gains the record |
| `MemoryObjects.MemoryManager.Forget` | backend/core/memory_manager/memory.py:72-74 | both stores drop the id and the table loses the record |
| `Memories.ForgottenIsNotRecalled` | backend/core/memory_manager/memory.py:72-74 | what is recalled after an id was forgotten never includes it |
| `Memories.TableKeepsOrder` | backend/core/memory_manager/memory.py:48-74 | a new record goes last, an old id is overwritten where it is, and forgetting leaves the order of the rest |
| `MemoryObjects.MemoryManager.Recall` | backend/core/memory_manager/memory.py:60-70 | records and rounded scores, joined again by id, are the recall of the one table |
| `Base64Urls.RoundTrip` | backend/security/jwt_service.py:28-34 | every byte string comes back through strip and re-pad |
| `Base64Urls.PaddingComesBack` | backend/security/jwt_service.py:32-34 | padding by the length modulo 4 restores exactly the characters that were stripped |
| `Base64Urls.EncodingIsUrlSafe` | backend/security/jwt_service.py:28-29 | an encoding uses the URL-safe alphabet only, so neither `.` nor `=` |
| `Base64Urls.DigitsAreTheAlphabet` | backend/security/jwt_service.py:28-29 | the 64 digits are the URL-safe alphabet of RFC 4648, in its order |
| `Base64Urls.EncodesThree` | backend/security/jwt_service.py:28-29 | three bytes become the four digits of the number of 24 bits they are, and the rest follows |
| `Base64Urls.EncodesTwo` | backend/security/jwt_service.py:28-29 | two bytes at the end become the three digits of their bits and two zeros |
| `Base64Urls.EncodesOne` | backend/security/jwt_service.py:28-29 | one byte at the end becomes the two digits of its bits and four zeros |
| `Base64Urls.StandardDecodes` | backend/security/jwt_service.py:32-34 | the decoder reads `+` and `/` like `-` and `_` |
| `Jwts.IssuedHasThreeParts` | backend/security/jwt_service.py:47-55 | an issued token splits into exactly header, claims and signature; they decode to the header, to the subject, scopes, times and type that were asked for, and to the signature of the first two |
| `Jwts.VerifyIssued` | backend/security/jwt_service.py:47-70 | verifying an issued token returns the subject, scopes and type it was issued with while the clock is at most the time of issue plus the lifetime, and reports expiry after that |
| `Jwts.AcceptedExactlyWhen` | backend/security/jwt_service.py:57-70 | a token is accepted if and only if it is two dot-free segments and their own signature, with a payload that has not expired |
| `Jwts.ExpiredExactlyWhen` | backend/security/jwt_service.py:57-70 | a token is reported expired if and only if the service signed it and its payload's expiry is past |
| `Jwts.CrashesExactlyWhen` | backend/security/jwt_service.py:57-70 | verifying raises another error if and only if the signature is not ASCII or a signed payload has no usable expiry |
| `Jwts.SignatureIsDetermined` | backend/security/jwt_service.py:57-63 | two accepted tokens that agree on the signed segments are the same |
| `SkillFiles.SaveThenParse` | backend/core/skill_registry.py:23-78 | a saved skill is read back with its trimmed name, the same description and the trimmed content |
| `SkillFiles.NameComesBackExactlyWhen` | backend/core/skill_registry.py:23-78 | the name comes back if and only if it is free of line breaks |
| `SkillFiles.OwnHeaderIsKept` | backend/core/skill_registry.py:71-72 | content that begins with three dashes, after blanks, is saved as it is |
| `SkillFiles.FrontMatterMeaning` | backend/core/skill_registry.py:25 | what the pattern takes for front matter and body, and that it finds none if and only if there is no line of dashes with another after it |
| `SkillFiles.FrontMeaning` | backend/core/skill_registry.py:28-33 | the name and the description are those of the last lines that give them |
| `SkillFiles.LineThenRest` | backend/core/skill_registry.py:28 | a line ends at its first break, a carriage return and a newline together being one |
| `SkillFiles.Match` | backend/core/skill_registry.py:80-94 | the first of the best-scoring skills, or none exactly when no score is positive and high enough; the score counts common words and adds 3 when the request contains the name |
| `SkillFiles.ScoreMeaning` | backend/core/skill_registry.py:82-91 | the score of a skill is the number of words it shares with the request, and 3 more if the request contains its name with spaces for hyphens |
| `SkillFiles.WordsMeaning` | backend/core/skill_registry.py:83-88 | the words of a text are exactly its maximal runs of at least four letters |

## Left out

- KingRequests.Execute: the message bus, a missing task manager and the response envelope are not modelled; a general is its reply to each attempt, and what the monitor hears is an argument.
- Aggregators.Merge: a `Reader` says what a result holds under "answer" and "action"; `str` of an answer and the truth of a value are behind it.
- Planning.Plan: the word characters of the regular expressions and `lower` are parameters.
- TaskManagement.TaskManager.RunOne: publishing an event is assumed not to raise; an exception there inside the `try` would be taken for a failed attempt.
- TaskInvariant.RunsEnd: executors are assumed to return or raise; one that never ends is outside the model, as are backoff durations.
- WorkflowMeaning.CleanRun: names in error messages are put in quotes as they are; the escapes of `repr` are not modelled.
- WorkflowResume.ResumeEquivalence: conditions and loop predicates are total functions; one that raises is outside the model. Steps are functions of the state.
- EventBusTheorems.HandlerCalls: handlers are assumed not to swallow the cancellation of their consumer. Payloads are immutable values, so a handler that changes its payload, and with it the next retry and the dead letter, is outside the model.
- EventBusTheorems.Isolation: payloads are immutable values; the source copies a payload one level deep, so groups share what is nested in it.
- EventBusTheorems.Drains: `drain` with its timeout and polling is not modelled; the lemma bounds the number of effective resumptions instead.
- EventBusObject.EventBus.ResumeConsumer: a handler that unsubscribes its own group or shuts the bus down and returns without awaiting finishes its delivery in the source, and its consumer may go on until it next suspends; the model drops the payload.
- ProgressLedger.SnapshotMatchesReport: that the drain ended idle and that no handler of the monitor failed are hypotheses, as `drain` may time out.
- RateLimits.AvailableIsLeastAllowance: floats are real numbers; rounding is not modelled.
- Embeddings.ScoreBound: floats are real numbers and the square root is exact; tokenising is a parameter.
- MemoryObjects.MemoryManager.Recall: rounding is a parameter; metadata is one opaque value.
- MemoryObjects.MemoryManager.Remember: ids and time stamps are arguments; the short-term store, scope facades and external stores are left out.
- Schedules.FiresAreAnswers: naive and time-zone-aware datetimes are not told apart; interval lengths are whole microseconds.
- CronHorizons.DailyIsFoundInADay: says nothing about the last day of year 9999, where the search may run off the calendar and raise.
- Crons.Matches: `int` and `isdigit` are parameters.
- SchedulerObjects.Scheduler.Tick: acquiring the lock and publishing are atomic, as they are in memory; a job cancelled during a tick is outside the model, as is the `start` loop.
- Jwts.VerifyIssued: HMAC and JSON are functions of the service; JSON is assumed to read back the claims it wrote, and nothing is said about forging.
- SkillFiles.SaveThenParse: the file system, `reload` and the slug's pattern are left out; a slug of nothing is "skill".
- SkillFiles.Match: lower-casing is a parameter.
- Logging, metrics, wall-clock reads, UUIDs, routes, agents, network adapters and front ends.
