# Intraday notification engine: a verified model

The system receives contact-centre events, keeps one row per queue and per agent, evaluates rules over those rows when
events arrive and when the clock ticks, runs one episode automaton per (rule, subject) pair, and notifies. This project
models that engine end to end in Dafny and proves what its design promises about whole runs.

The model has two layers.

* **Functions on table values.** `Tables` holds rules, subject rows, the event log, episodes with their notifications
  (grouped by pair), counters and the replay watermark. The modules `Domain`, `Facts`, `Rules`, `Evaluation`,
  `Episodes`, `Incidents`, `Engine`, `Ingest`, `Scheduling`, `Replay` and `DueTime` define what each part computes.
  `Comparisons`, `Readings`, `Triggers` and `SeedRules` say what those definitions mean in terms of values, rows and rules;
  `PairRuns`, `SubjectRows`, `AgentOrder`, `Tallies`, `ScanRuns`, `Latency`, `NotifyOnce`, `Runs`, `Crashes`,
  `Reruns` and `Intake` prove what follows over runs.
* **The program.** `Store` has the database connection with its open transaction (`working`) and its durable image
  (`committed`), the channels, and the replay clock, as classes. `Service` and `Driver` have the methods that work on
  them step by step: the evaluation, the event and tick loops, the scan, ingest, disabling, and the replay driver.
  Each method is proved to leave the tables and the deliveries the functions describe. The ghost field
  `EngineDeps.trail` records every durable state on the way, which is what a crash at that moment leaves; every method
  keeps all of them safe.

Conventions: instants are integers in microseconds, the resolution of the stored timestamps; numbers are reals. An
episode's generated id is modelled by its pair and its creation number, so no two ids are ever equal. Results the
original takes from unordered sets (`due`, result sets without ORDER BY) are any enumeration of the set; the order is
proved not to matter. "Rows" below means the episode rows of a pair with their notification rows.

Where code and comments disagree, the model follows the code:

* The engine's comment speaks of exactly-once delivery. The code sends after commit, so a kill in between loses the
  delivery for good (`Crashes.LostDeliveryStaysLost`); delivery is exactly once if and only if there is no such kill
  (`Crashes.DeliveredExactlyOnceIff`).
* The comment on notify-once episodes says time cannot change their outcome. It can
  (`DueTime.NotifyOnceMissesRecovery`); `NotifyOnce.NoWakeUpNeededIff` says for exactly which rules it cannot.
* The replay driver's comment promises idempotent reruns. The watermark is written only at the end of a run, so the rerun
  of a replay killed just before that walks old ticks over final rows and reports a false recovery
  (`Reruns.KilledReplayReopens`); `Reruns.RerunUnchangedIff` says exactly when a rerun changes nothing.
* The scan tests only left-hand facts for being time-derived. A rule that reads the clock through a `fact_ref` is
  accepted and then missed in silence (`ScanRuns.HiddenClockIsMissed`); `ScanRuns.ScanRefinesFullScan` excludes such rules.
* `due` also returns active pairs whose subject has left the selector or whose rule is disabled, so the full scan it is
  compared with is the active pairs together with every enabled rule on every selected subject.
* A queue rule with a queue-membership selector selects every queue, as the resolver falls through.

## Model

| member | source | states |
|---|---|---|
| Replay.Resumption | app/cli/replay.py:101-160 | Replaying a prefix to completion and then the whole file into the same tables ends with the rules, subject rows, event log, episodes, notifications and watermark of one clean replay, and the same multiset of sends; only the duplicate, mismatch and validation counters run ahead, by exactly what re-reading the prefix adds |
| Replay.ReplayingTwiceChangesNothing | app/cli/replay.py:51-62 | A second replay of the same file sends nothing, evaluates nothing and changes only counters |
| Replay.RereadingOnlyCounts | app/ingest/pipeline.py:86-110 | Reading lines whose ids are all logged changes nothing but the duplicate and validation counters, by a stated amount per counter |
| Reruns.RerunUnchangedIff | app/cli/replay.py:116-160 | A file whose valid ids are all logged, replayed again from whatever watermark is on record, leaves episodes and notifications as they are if and only if none of its ticks would stir a due pair of the tables as they are; and then nothing is sent |
| Reruns.RerunBehindWatermark | app/cli/replay.py:51-62 | With the watermark at or past every line a rerun sends nothing and changes only counters, by stated amounts |
| Reruns.RereadUnchangedIff | app/cli/replay.py:137-152 | The same for any arrivals of logged lines and ticks |
| Reruns.KilledReplayReopens | app/cli/replay.py:153-160 | A replay killed before it writes its watermark, run again: the open episode is reported recovered before it opened, and a second one opens for the same silence |
| Reruns.TickResolvesIff | app/episodes/machine.py:135-153 | A tick on an open episode sends RESOLVED if and only if the rule does not match and no declared fact is missing, and closes it at the tick's instant however much later it opened |
| Reruns.RunGoesForward | app/episodes/machine.py:77-189 | Over any run rows are never lost, closed rows never change, and every row's weight of suppressions, reminders and state never falls |
| Replay.TickTimesLaw | app/cli/replay.py:122-128 | Stepping from c to T ticks exactly floor((T-c)/tick) times, at c+k*tick, and stops less than one tick short of T |
| Replay.TicksNeverGoBack | app/cli/replay.py:137-147 | Whatever the order of the lines, ticks strictly advance and stay between the starting and the final clock |
| Replay.DenseStreamsStarveTicks | app/cli/replay.py:122-147 | A file produces no tick at all if and only if every forward gap is shorter than the tick interval |
| Replay.ScriptSplit | app/cli/replay.py:137-152 | The arrivals and ticks of a concatenated file are those of its first part followed by those of the rest from the clock the first part reached |
| Replay.RunKeepsLog | app/storage/sqlite/events.py:24-33 | Over any run, logged ids stay logged and every valid line that arrives is logged |
| Intake.ReplayIngests | app/cli/replay.py:137-152 | Whatever its ticks and evaluations do, a replay's subject rows, log and ingest counters are those of ingesting its lines in order, numbered from one |
| Intake.ReplayAccounts | app/ingest/pipeline.py:87-163 | The books of a first replay balance, and its log holds the first carriers with their line numbers |
| Intake.ReplayClock | app/cli/replay.py:116-160 | Every tick is later than the first line and than the watermark on record; a file that starts at or past the watermark is not preceded by ticks; the watermark left is the latest of the one on record and the lines' timestamps |
| Latency.ThresholdLatency | app/cli/replay.py:122-147 | In a silent gap, a rule whose > or >= duration threshold is crossed at X opens no earlier than its for-duration d after X and no later than one tick after X + d, two with a for-duration, and is open at the end |
| Latency.OpensInTime | app/engine/engine.py:218-222 | The same for any ticked pair that comes to match at some instant of the gap |
| Latency.PendingOpens | app/episodes/machine.py:105-130 | A pending episode whose condition goes on holding opens at the first tick at which its for-duration has passed |
| Latency.StaysOpen | app/cli/replay.py:122-128 | Through the remaining ticks of the gap the episode stays open with its opening instant |
| Latency.MatchingStep | app/episodes/machine.py:90-130 | A matching evaluation opens an episode or starts its clock, opens a pending one exactly when its for-duration has passed, and leaves the open one open since when it opened |
| ScanRuns.ScanRefinesFullScan | app/scheduling/scan.py:47-65 | Over any arrivals and ticks, ticking only the due set gives the same subject rows, log, episodes, notifications and multiset of sends as ticking every enabled rule on every selected subject |
| ScanRuns.NoSubjectsIsCaughtUp | app/scheduling/scan.py:52-62 | Before any event the starting condition of the refinement holds |
| ScanRuns.EventDrivenIgnoresClock | app/scheduling/scan.py:26-28 | A pair the scan leaves to events evaluates alike at every instant when no rule reads the clock on the right-hand side only |
| ScanRuns.HiddenClockIsMissed | app/scheduling/scan.py:26-28 | An accepted rule that reads the clock through a fact_ref: the scan misses what the full evaluation opens |
| Scheduling.ScanAgreesIff | app/scheduling/scan.py:47-65 | At one tick, the scan and the full evaluation leave the same rows if and only if no skipped pair matches at that instant |
| Scheduling.IdlePairsDoNotMatter | app/scheduling/scan.py:47-65 | Skipping pairs whose evaluation does nothing changes neither rows nor sends |
| Scheduling.EvaluationEffect | app/engine/engine.py:174-180 | A matching evaluation leaves an active row; a non-matching one without an active row changes and sends nothing |
| Triggers.SelectedMeans | app/scheduling/selectors.py:4-23 | A list of ids selects exactly those, stored or not; otherwise a queue rule every stored queue, an agent rule every stored agent or those sharing a wanted queue |
| Triggers.DueMeans | app/scheduling/scan.py:26-65 | A tick evaluates exactly the pairs with a pending or open row and those selected by an enabled rule with a duration or an age on the left of some condition |
| Triggers.FullMeans | app/scheduling/scan.py:47-65 | The full scan evaluates exactly those with a pending or open row and those selected by an enabled rule |
| Triggers.AffectedMeans | app/engine/engine.py:205-215 | A change of a subject evaluates it under exactly the enabled rules of its kind that select it |
| Triggers.UnlistedSubjectsKeepRows | app/scheduling/selectors.py:14-19 | A subject outside the ids a rule lists keeps its rows under that rule, whatever changes |
| Triggers.TriggersCount | app/engine/engine.py:126-132 | An event counts its evaluations as event evaluations, a tick as due ones, and neither touches another counter |
| Triggers.TickSendsAt | app/engine/engine.py:218-222 | Everything a tick sends carries its instant |
| Triggers.ArrivalSendsAt | app/ingest/pipeline.py:160-161 | Everything a line makes the engine send carries the event's own timestamp, wherever the clock is |
| Triggers.OtherLinesEvaluateNothing | app/ingest/pipeline.py:86-133 | A line that is invalid, logged before or overtaken sends nothing and leaves the episodes as they are |
| Triggers.ChangesAt | app/ingest/pipeline.py:86-163 | A line is projected exactly when it is valid, new and not older than its subject's row, and is evaluated at its event's timestamp |
| Triggers.ArrivalEvaluates | app/ingest/pipeline.py:135-161 | Such a line evaluates its subject, under each rule that concerns it, on the row the event leaves and at the event's timestamp |
| Triggers.ArrivalOpensIff | app/engine/engine.py:205-215 | A rule without for-duration and without an active row opens on such a line exactly when its conditions hold on the new row, at the event's timestamp |
| Triggers.RowAfterArrival | app/ingest/pipeline.py:135-151 | The row such a line leaves is the snapshot, or the projection of the event on the agent's row before |
| Engine.EvaluationOrderIrrelevant | app/engine/engine.py:218-222 | Every order of the same set of pairs gives the same tables and the same multiset of sends |
| Engine.RunEvalsShape | app/engine/engine.py:205-222 | Evaluating distinct pairs in turn is evaluating each against the tables before, and writes nothing but their rows and one counter |
| Engine.NothingRaises | app/engine/engine.py:146-197 | On good tables no evaluation raises: rule and stored episode load, the conditions evaluate, the message renders, both unique indexes accept the writes, and every transition inserts a row and is sent |
| Readings.ReadingMeans | app/engine/engine.py:138-154 | On good tables an enabled rule with a subject row is read: it matches exactly when every condition holds on the row at the instant, the missing facts are exactly the declared ones whose value is missing, the snapshot is the declared facts at their values, and every piece of the message shows what its placeholder names |
| Readings.UnreadIff | app/engine/engine.py:138-153 | Nothing is read exactly when the rule is gone or disabled or the subject has no row; then nothing is written or sent |
| Readings.EvaluationOpensIff | app/engine/engine.py:156-180 | With no active row an evaluation opens an episode with one notification, or without one starts its clock when there is a for-duration, if and only if every condition holds; otherwise it does nothing |
| Readings.EvaluationOfActive | app/episodes/machine.py:105-189 | What becomes of a pending or open episode, field by field, from whether the conditions hold, whether a declared fact is missing, and the clock; no other row changes |
| Readings.EvaluationMeans | app/engine/engine.py:119-202 | Both together: rows and transitions of one evaluation from the conditions and the row |
| Readings.SendsSay | app/engine/engine.py:182-197 | Everything an evaluation sends carries its instant, the declared facts at their values and the filled-in message |
| Engine.EvaluateKeepsGood | app/engine/engine.py:119-202 | Evaluation keeps the tables good: rules accepted, at most the last row of a pair active, every row consistent with its notifications |
| Engine.DisableKeepsGood | app/api/routes_rules.py:39-47 | Disabling keeps the tables good and leaves the rule no active row |
| Triggers.DisablingMeans | app/api/routes_rules.py:39-47 | The rule is off with its version counted; its pending and open rows are closed at the instant keeping everything else; no other row changes |
| Engine.SilentCloseStaysValidIff | app/api/routes_rules.py:46-47 | An active episode closed by disabling is inactive and closed at that instant, and still a valid episode if and only if it was not frozen |
| Incidents.ActiveAt | app/storage/sqlite/episodes.py:17-23 | Finds a pending or open row if there is one |
| Incidents.ActiveIsLast | app/storage/schema.sql:72-77 | In a reachable pair only the last row can be active |
| Incidents.StepShape | app/engine/engine.py:156-197 | One evaluation in closed form: nothing, one new last row, or the last row renewed with at most one notification appended; no index rejects it |
| Incidents.StepKeepsPair | app/engine/engine.py:156-197 | Evaluation keeps ids, the single active row, row validity and the notification script of every row |
| Incidents.RowSurvives | app/episodes/machine.py:105-189 | Advancing an active row never refuses, keeps its id, emits at most one transition with an unused key, and keeps the row consistent with its notifications |
| Incidents.NotifyAtMostOne | app/storage/sqlite/notifications.py:11-28 | A transition with an unused key inserts exactly one row and queues exactly that send |
| Incidents.CloseKeepsPair | app/api/routes_rules.py:39-47 | Silent closing keeps the pair's rows in order and leaves none active |
| PairRuns.AfterFits | app/episodes/machine.py:77-189 | Every run of evaluations and closings of a pair keeps its rows in order |
| PairRuns.ActiveAfter | app/episodes/machine.py:77-189 | The active episode after a run follows from the one before and the last step alone |
| PairRuns.LoadRejectsIff | app/domain/episodes.py:35-46 | A stored row is rejected exactly when it lacks an instant its state needs, or is frozen without being open or without saying since when |
| PairRuns.AdvanceKeepsValid | app/episodes/machine.py:112-189 | The automaton accepts every row that loads and makes one that loads, although its copies skip the check |
| PairRuns.AdvanceRefusesIff | app/episodes/machine.py:65-75 | Advancing is refused exactly for another pair's episode or one lacking the instant its state needs |
| PairRuns.ClearedEpisodesAreDone | app/episodes/machine.py:81-103 | A cleared episode is kept while nothing matches, and a match starts anew as from none |
| PairRuns.OpenedOnlyAfterContinuousTruth | app/episodes/machine.py:81-130 | OPENED is emitted only when every evaluation since first_true_at matched, the step before did not, and at least for_duration_sec has passed |
| PairRuns.PendingClock | app/episodes/machine.py:98-122 | A pending row's clock started with the current unbroken block of matches; any non-match restarts it |
| PairRuns.NotificationScript | app/engine/engine.py:182-197 | Each episode's notifications are OPENED/0, REMINDER/1..notify_seq and then at most one RESOLVED/0 |
| PairRuns.NotificationsReport | app/engine/engine.py:182-197 | Every notification row carries the instant, facts, message and recipient of one evaluation of its pair: a match for OPENED and REMINDER, a founded non-match for RESOLVED |
| PairRuns.ReminderRate | app/episodes/machine.py:158-189 | With no assumption on clock order, notify_seq * cooldown <= last_notified_at - opened_at, and cooldown 0 means no reminder |
| PairRuns.EvaluationsConserved | app/episodes/machine.py:90-130 | Matching evaluations of an episode = 1 + suppressed + notify_seq + (1 if it opened out of pending), over any run |
| PairRuns.AdvanceAccounts | app/episodes/machine.py:112-189 | Each matching evaluation of an active episode is booked exactly once, a non-matching one not at all |
| PairRuns.StaleSinceFirstFreeze | app/episodes/machine.py:142-147 | In every run an open row is stale exactly during a streak of unfounded non-matches, since the first of that streak |
| PairRuns.MissingFactsAreDriving | app/episodes/machine.py:136-144 | The evaluator's missing facts are always facts the rule depends on |
| PairRuns.ResolveIsFounded | app/episodes/machine.py:135-153 | RESOLVED is emitted exactly when every declared fact was present and the Kleene conjunction is false; Kleene-unknown always freezes |
| PairRuns.KleeneFalseMayFreeze | app/episodes/machine.py:142-147 | Freezing is more cautious than Kleene logic: a Kleene-false condition list with another fact missing still freezes |
| PairRuns.OpenedInOrder | app/episodes/machine.py:90-130 | In every run, in clock order or not, first_true_at <= opened_at <= last_notified_at for every opened episode |
| PairRuns.ClosedInOrderIff | app/episodes/machine.py:149-153 | Every closed episode that was opened has a closing step; it is closed no earlier than it opened, or last notified, if and only if that step's instant is not before the open row's opened_at, or last_notified_at |
| PairRuns.ClosedInClockOrder | app/episodes/machine.py:112-189 | When a pair's evaluations come in clock order, closed_at is not before last_notified_at |
| PairRuns.ClosedBeforeOpened | app/ingest/pipeline.py:160-161 | An input without clock order that closes an episode before it opened |
| Runs.CrashSafety | app/engine/engine.py:166-200 | Killing the process at any point of any evaluations leaves good tables, every delivery with a committed row, and no key delivered twice to a channel |
| Runs.EvaluationRetains | app/engine/engine.py:182-197 | Evaluation only adds notification rows, and each send is an added row with a key never committed before |
| Runs.EveryPairRunsAlone | app/engine/engine.py:119-202 | In any run of the system, crashes included, a pair's rows are those of its own automaton run on what the run showed of it |
| Runs.ActsAreRuns | app/cli/replay.py:137-152 | Arrivals and ticks are runs of the durable steps, with the same tables and deliveries |
| Crashes.DeliveredExactlyOnceIff | app/engine/engine.py:166-200 | From a state in which every channel received every committed notification exactly once, a run keeps it so if and only if no evaluation with something to send is killed between its commit and its last delivery |
| Crashes.UndisturbedRunsDeliver | app/engine/engine.py:199-200 | Arrivals and ticks that run to their end deliver everything they commit, exactly once to every channel |
| Crashes.StepDelivers | app/routing/dispatcher.py:43-46 | A step not killed short of a channel delivers to it what it commits |
| Crashes.LostDeliveryStaysLost | app/engine/engine.py:173-200 | Killed after its commit and k deliveries, an evaluation leaves a committed notification that the channels from the k-th on never receive, whatever runs later |
| Crashes.NothingIsEverResent | app/storage/sqlite/notifications.py:11-28 | A committed notification a channel has missed stays missed by it in every later run |
| Crashes.TouchesIffStirs | app/engine/engine.py:156-197 | An evaluation changes its pair's rows if and only if it matches, or finds an active episode that is not already frozen with a declared fact missing |
| Crashes.LostEvaluationIff | app/ingest/pipeline.py:135-161 | Killed between the ingest commit and the callback, reading the line again recovers the undisturbed rows if and only if no affected pair matches and every active one is already frozen with a declared fact still missing |
| Crashes.IngestStandsAlone | app/ingest/pipeline.py:56-163 | Whatever else a run does, its subject rows, log and ingest counters are those of ingesting its lines alone |
| Ingest.IngestIsAFold | app/ingest/pipeline.py:96-151 | After any input each row is the fold of the projections over the subject's first-write events that were not overtaken, and its watermark is the greatest timestamp logged for it |
| Ingest.LogHoldsFirstPayloads | app/ingest/pipeline.py:96-110 | The log holds, for every id carried by a valid line, the payload and position of the first line carrying it |
| Ingest.IngestAccounting | app/ingest/pipeline.py:87-163 | Every line is in exactly one of four buckets; accepted plus late is the size of the log; the callback fires once per accepted event |
| Tallies.DiagnosticsAreTallies | app/ingest/pipeline.py:98-142 | The mismatch counter counts the valid lines repeating an id with another payload than its first carrier's, and the disagreement counter the checks projected against a contradicting state |
| Ingest.IngestIsLocal | app/ingest/pipeline.py:93-151 | Two tables with the same subject rows and log treat a line alike and move every counter by the same amount |
| Ingest.QueueRowIsLatestSnapshot | app/projection/queue.py:5-20 | A queue's row is its latest snapshot, whatever arrived in between |
| Ingest.QueuesConverge | app/projection/queue.py:5-20 | Any order and any redelivery of the same lines leaves the same queue table, given distinct snapshot times per queue |
| AgentOrder.AgentRowsAgreeIff | app/ingest/pipeline.py:127-142 | Same lines in two orders, the second with the agent's latest change and check on time: queues and watermark agree; the state's entry time agrees if and only if the first order has its latest state change before every later-stamped event; the rows agree if and only if, besides, both remember the same verdict |
| AgentOrder.AgentsConverge | app/projection/agent.py:10-66 | Latest state change and latest check on time in both orders give equal rows |
| AgentOrder.NothingLateConverges | app/ingest/pipeline.py:127-133 | An agent none of whose events is late, in either order, has the same row |
| AgentOrder.NoneLateIffInOrder | app/ingest/pipeline.py:118-133 | Nothing of an agent is late if and only if its first-write events arrive in timestamp order |
| AgentOrder.InOrderOnTime | app/ingest/pipeline.py:127-133 | In timestamp order everything is on time |
| Ingest.AgentsMayDiverge | app/ingest/pipeline.py:127-133 | An input whose overtaken state change is dropped, the current state staying unknown |
| SubjectRows.AgentRowAfterIngest | app/projection/agent.py:10-66 | After any input an agent's row is the last not overtaken state change, adherence check and queue list, each kept independently of the others |
| SubjectRows.AgentRowRemembers | app/projection/agent.py:10-66 | Folding the projections keeps state changes and adherence checks from touching each other's fields |
| SubjectRows.DisagreementMeaning | app/projection/agent.py:69-77 | A check counts as a disagreement exactly when it contradicts the last state change that was not overtaken |
| SubjectRows.AgentFactsAfterIngest | app/evaluation/facts_agent.py:7-28 | After any input an agent's facts are those of its last state change and last check that were not overtaken; a violation whose start is unknown has no duration |
| SubjectRows.QueueFactsAfterSnapshot | app/evaluation/facts_queue.py:7-59 | After a snapshot every queue fact is known and has the snapshot's value, except a null forecast and a risk against a zero target |
| SubjectRows.AgentFactsOfAnyRow | app/evaluation/facts_agent.py:7-28 | Which agent facts of any stored row are missing: without the column they read, and for the violation duration without a start from a known source |
| SubjectRows.QueueFactsOfAnyRow | app/evaluation/facts_queue.py:7-59 | Which queue facts of any stored row are missing: without the column they read, and for the SLA risk without a target other than zero |
| SubjectRows.NormalizationMeans | app/ingest/normalize.py:4-26 | The six state names stand for themselves, any other reads as unknown |
| SubjectRows.CurrentStateHolds | app/evaluation/operators.py:8-40 | After any input current_state eq x holds exactly when the last state change that was not overtaken reads as x, and neq x exactly when it reads as something else |
| Comparisons.EqualityMeans | app/evaluation/operators.py:8-16 | Two texts, two numbers or two flags compare equal exactly when they are the same |
| Comparisons.EqualityAcrossSorts | app/evaluation/operators.py:8-16 | A flag equals the number 1 or 0, a text equals no number and no flag |
| Comparisons.MembershipMeans | app/evaluation/operators.py:8-16 | Membership in a list of values of one sort is being one of them |
| Comparisons.ContainmentMeans | app/evaluation/operators.py:8-16 | Membership of a text in a text is containment |
| Comparisons.TextsCompare | app/evaluation/operators.py:8-16 | Texts are ordered lexicographically, totally, and the four comparisons follow that order |
| Comparisons.NumbersCompare | app/evaluation/operators.py:8-16 | Each operator on two numbers is that relation of the numbers |
| Comparisons.FlagsCompare | app/evaluation/operators.py:8-16 | A flag is ordered as the number 1 or 0 |
| Comparisons.MissingIsFalse | app/evaluation/operators.py:35-40 | A missing operand makes every comparison false |
| Comparisons.RaisesIff | app/evaluation/operators.py:35-40 | Which comparisons of known values raise a type error |
| Evaluation.RunEvaluator | app/evaluation/evaluator.py:41-65 | The loop with its three accumulators computes the evaluation, failing exactly when a lookup or comparison fails |
| Evaluation.EvaluateMeaning | app/evaluation/evaluator.py:41-65 | The match is the conjunction; the snapshot is exactly the declared facts at their values; the missing facts are exactly the declared ones whose value is missing |
| Evaluation.MatchedIsKleeneTrue | app/evaluation/operators.py:35-40 | A rule matches exactly when the strong Kleene conjunction is true, and then no fact is missing |
| Evaluation.KleeneMeaning | app/evaluation/operators.py:35-40 | The Kleene conjunction is false if some condition is, else unknown if some condition is, else true |
| Evaluation.MissingIffSomeUnknown | app/evaluation/evaluator.py:50-65 | Some fact is reported missing exactly when some condition is unknown |
| Evaluation.TypeSoundness | app/domain/rules.py:147-273 | An accepted rule evaluates on any row of its subject type without a failed lookup or ill-typed comparison, and its message renders |
| Evaluation.StaticRulesIgnoreTheClock | app/scheduling/due_time.py:37 | Conditions declaring no time-derived fact evaluate alike at every instant |
| Facts.BuildRegistry | app/domain/facts.py:45-58 | The registry refuses a fact registered twice for one subject type and otherwise answers exactly its specs |
| Facts.RegistryAnswersRegistered | app/evaluation/facts_agent.py:31-39 | The registered facts and their types are exactly the listed specs |
| Facts.NoFactRegisteredTwice | app/evaluation/facts_queue.py:62-72 | The registry of the system's facts is built without a duplicate |
| Facts.OnlyTimeDerivedFactsMove | app/scheduling/due_time.py:33-37 | Every fact outside the time-derived set is independent of the clock |
| Facts.TimeDerivedIff | app/scheduling/due_time.py:33-37 | A registered fact is time-derived exactly when on some row its value differs between two instants |
| Rules.Validate | app/domain/rules.py:147-273 | Reports no error exactly for accepted rules, and then has collected exactly the declared facts; an error names the first thing that is wrong, in the order conditions, routing, message |
| SeedRules.AcceptedIff | app/domain/rules.py:147-273 | A rule passes exactly when it has conditions, each passes, it sends to the subject only on agent rules and to a channel only with a non-empty name, and its message mentions only facts its conditions mention |
| SeedRules.ConditionAcceptedIff | app/domain/rules.py:164-250 | A condition passes exactly when its fact is registered for the subject type and its other side is a fact of the same type, a literal of it, or, for membership and only there, a list of such |
| Evaluation.TemplateCheckIsExact | app/domain/rules.py:252-273 | For a rule whose conditions pass, the message renders exactly when every placeholder is declared |
| SeedRules.SeedRulesAreAccepted | seeds/rules.json:1-181 | The seven shipped rules pass validation |
| SeedRules.WaitingRulesMean | seeds/rules.json:2-127 | The two queue-length rules hold of a snapshot exactly when more than 20, or 15, tickets wait |
| SeedRules.BreachingMeans | seeds/rules.json:27-50 | The SLA rule holds of a snapshot exactly when the longest wait exceeds the target |
| SeedRules.UnderstaffedMeans | seeds/rules.json:128-154 | The understaffing rule holds exactly with no agent available and a ticket waiting |
| SeedRules.AtRiskMeans | seeds/rules.json:155-181 | The at-risk rule holds exactly when the target is not zero and the wait is at least 0.8 of it and below it |
| SeedRules.AgentRulesMean | seeds/rules.json:51-104 | After any input the long-call rule holds exactly when the last state change that was not overtaken was to on_call more than 45 minutes ago, and the adherence rule exactly when the last check reported a violation known to have started more than ten minutes ago |
| Rules.RenderTotal | app/routing/renderer.py:8-17 | Rendering fails exactly when some placeholder names a fact outside the snapshot; otherwise each piece shows its text, the subject, the fact's value, or "unknown" for a missing one |
| DueTime.ActiveWakeUp | app/scheduling/due_time.py:58-66 | With the condition held true, a pending episode opens and a cooldown episode reminds exactly from its wake-up time on |
| DueTime.IdleWakeUpMeans | app/scheduling/due_time.py:68-82 | The wake-up time of an idle agent is the crossing of the first literal threshold on its state duration, failing that on its violation duration; of a queue, on its snapshot's age; there is none exactly when there is no such crossing |
| DueTime.DecidingConditionBeforeWakeUp | app/scheduling/due_time.py:68-80 | Before the wake-up time the condition that set it holds if and only if its duration is known and its operator is <, <= or != |
| DueTime.NoMatchBeforeWakeUp | app/scheduling/due_time.py:68-82 | With no active episode and an unchanged row, no evaluation before the wake-up time matches, for operators that wait for the threshold |
| DueTime.WakeUpIsExact | app/scheduling/due_time.py:68-80 | With the other conditions holding, the rule matches at every instant after the wake-up time and none before; at the instant itself, when the threshold was rounded up to it, or is met exactly and the operator is >= |
| DueTime.FallingThresholdMatchesEarly | app/scheduling/due_time.py:40-46 | For a falling threshold the rule matches before its wake-up time |
| NotifyOnce.NoWakeUpNeededIff | app/scheduling/due_time.py:62-66 | An open notify-once episode has no wake-up time; on an unchanged row it stays open and silent at every later instant if and only if each condition is lasting: no side or both move with the clock, or the moving side is asked to be the greater, or to differ from a number it has passed or never takes |
| NotifyOnce.MatchLastsIff | app/evaluation/evaluator.py:50-65 | A rule that matches goes on matching for ever on an unchanged row if and only if each condition is lasting |
| DueTime.NotifyOnceMissesRecovery | app/scheduling/due_time.py:62-66 | A rule for which time alone ends the match of an open notify-once episode |
| Store.ManualClock.Set | app/clock.py:34-35 | The clock shows the given instant |
| Store.ManualClock.Advance | app/clock.py:37-38 | The clock moves by the given span |
| Store.EngineDeps.constructor | app/storage/db.py:9-27 | A connection opened on good tables is at rest and safe |
| Store.EngineDeps.Commit | app/storage/db.py:57-73 | The connection's view becomes the durable state |
| Store.EngineDeps.Rollback | app/storage/db.py:74-76 | The connection's view returns to the durable state |
| Store.EngineDeps.Increment | app/ingest/counters.py:25-28 | One counter grows by one, the others and everything else stay |
| Store.EngineDeps.AppendEvent | app/storage/sqlite/events.py:24-33 | The row is added unless its id is already logged |
| Store.EngineDeps.ListActive | app/storage/sqlite/episodes.py:53-57 | Every pending or open row once, in any order |
| Store.EngineDeps.CreateEpisode | app/storage/sqlite/episodes.py:25-38 | The row is added unless it is active and the pair already has an active row |
| Store.EngineDeps.UpdateEpisode | app/storage/sqlite/episodes.py:40-51 | The row with that id is replaced, nothing else changes |
| Store.EngineDeps.InsertIfAbsent | app/storage/sqlite/notifications.py:11-28 | The row is added unless its key is present, and the answer says which |
| Store.EngineDeps.DispatchSend | app/routing/dispatcher.py:43-46 | The notification reaches every channel once, in order, and each prefix of that is a durable state |
| Service.Read | app/engine/engine.py:138-154 | Reloads rule and subject row and evaluates; on good tables nothing raises, and a stored enabled pair reads as its conditions say |
| Service.Persist | app/engine/engine.py:182-197 | Inserts the notification rows in the open transaction, queues exactly the inserted ones, and leaves other pairs alone |
| Service.WriteRow | app/engine/engine.py:174-180 | Creates or updates the episode row; the unique index is never in the way |
| Service.Transact | app/engine/engine.py:156-197 | Commits episode and notification rows together, or rolls back and changes nothing |
| Service.SendAll | app/engine/engine.py:199-200 | Delivers every queued notification to every channel; at each moment the durable state has a prefix of that |
| Service.EvaluateRule | app/engine/engine.py:119-202 | Rows and transitions become what the conditions, the row and the clock say; nothing raises on good tables; every durable state on the way is one that a cut of the evaluation describes |
| Driver.OnEvent | app/engine/engine.py:205-215 | Evaluates exactly the enabled rules of the subject's kind that select it, and is safe to kill at any moment |
| Driver.Due | app/scheduling/scan.py:47-65 | Each due pair once: exactly those with a pending or open row and the subjects selected by enabled rules with a duration or an age on the left of some condition |
| Driver.ResolveSelector | app/scheduling/selectors.py:4-23 | The listed ids as they are; or every stored queue; or every stored agent; or the agents sharing a wanted queue |
| Driver.OnTick | app/engine/engine.py:218-222 | Evaluates the due set, with a result that does not depend on the order; what it sends carries the tick's instant; safe to kill at any moment |
| Driver.Gauntlet | app/ingest/pipeline.py:87-151 | One transaction per line, with the tables and the outcome the admission function gives; exactly a valid, new, not overtaken line is handed on, with its event's timestamp |
| Driver.IngestEvent | app/ingest/pipeline.py:56-163 | Admission followed, for such a line only, by the event trigger at the event's timestamp, which everything sent carries; says whether the line was accepted and which subject changed |
| Driver.CloseActiveSilently | app/api/routes_rules.py:39-47 | Closes exactly the active rows of the rule, with no notification |
| Driver.Disable | app/api/routes_rules.py:89-100 | Switches the rule off and closes its active rows in one transaction, or finds no rule and changes nothing; nothing is sent |
| Driver.StepTo | app/cli/replay.py:122-128 | Ticks the engine at each step of the clock's way to the target and stops less than a tick short of it |
| Driver.ReplayLine | app/cli/replay.py:137-152 | The clock only moves forward, ticking on its way; the line is ingested regardless |
| Driver.ReplayFile | app/cli/replay.py:74-163 | Leaves the tables of the replay function, watermark included, and hands out the same deliveries; safe to kill at any moment |
| Driver.ResumeBesideClean | app/cli/replay.py:74-163 | Of two deployments in the same state, one replays a prefix and then the file, the other the file once: equal tables but for the counters of what was read twice, and the same multiset of deliveries |
| Driver.DeliveryCount | app/routing/dispatcher.py:43-46 | Every channel receives each notification as often as it was sent |

## Left out

- SQL text, PRAGMAs, WAL and migrations: tables are maps; the unique indexes, the foreign key of notifications and the transaction boundary are modelled.
- JSON, ISO-8601 and pydantic parsing: a line carries its timestamp, its canonical text and the event it parses to, if it does; a line whose timestamp cannot be read ends the original's replay and is not modelled.
- Rule parsing from stored JSON: a stored rule is its value, revalidated at every evaluation; unknown fields and selector parsing are not modelled.
- HTTP routes other than creating (`Runs.Apply`, `Installing`) and disabling a rule, HTML, notification listing and grouping, seeding, settings, logging, `_field_diff`, sleeping between steps: no effect on evaluation.
- The no_eval replay mode: ticks then run before the stored rows' own timestamps, so durations can be negative.
- Format specifications and nested braces in templates: templates are literal text, `{subject_id}` and fact names; a message body is the sequence of what its pieces show, and `render_suppression_summary` is not modelled.
- Floating point: numbers are exact reals, and thresholds given in seconds become microseconds rounded to nearest, ties to even.
- Generated notification ids and `created_at`: the pair, episode number, transition and occurrence identify a row; `created_at` equals the event time.
- The lists of transitions that `on_event` and `on_tick` return: their callers ignore them; `Service.EvaluateRule` returns its own.
- Running processes on one database at the same time: the original is single-threaded.
- The heap scheduler and full three-valued logic: only described, not built. `schedule` and the `note_*` hooks do nothing.
- Driver.IngestEvent: the change callback is the event trigger, the only one the replay driver passes.
- Driver.OnTick, Driver.OnEvent and Driver.Due need good tables, the invariant every method here keeps; on a database corrupted from outside an exception would end the loop.
- Replay.Resumption: holds for a prefix replay that completed. A replay killed halfway can lose the evaluation of one event (`Crashes.LostEvaluationIff`), deliveries (`Crashes.DeliveredExactlyOnceIff`), and its watermark, after which old ticks are walked again (`Reruns.RerunUnchangedIff`).
- ScanRuns.ScanRefinesFullScan: rules are fixed during the run, no rule reads the clock only through a fact_ref, and it starts from tables whose event-driven pairs that match already have an active row; for one tick `Scheduling.ScanAgreesIff` gives the exact condition.
- Latency.ThresholdLatency: the bound is per silent gap; a stream without gaps of a tick never ticks (`Replay.DenseStreamsStarveTicks`).
- Store.EngineDeps.PutAgent: an agent row is stored under the id it was read with.
