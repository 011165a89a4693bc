# RoboGrid event core: a model and its proofs

RoboGrid is an IoT fleet platform. This project models the part of it that decides what operators are told:
telemetry ingest, the alert engine and its notification fan-out, the device-command lifecycle over MQTT, the
background jobs (liveness watchdog, battery/health backstop, command expiry, retention), and the two small
algorithms these lean on, the topic scheme and the device-group path.

How the pieces fit:

- `Redelivery` is a theory of at-least-once delivery to handlers that may raise after any of their writes. A handler
  tolerates any redelivery that keeps the final copies in publish order if it satisfies one law about two messages; a
  QoS 1 session always delivers that way. `Commands` and `TelemetryRedelivery` show that the result handler and the
  ingest satisfy the law, `BridgeRedelivery` that telemetry, heartbeats and results handled together do.
- `Alerts` is the alert table and the single statements issued against it. `AlertRace` interleaves those statements
  for any number of callers; `AlertService` runs whole calls one at a time, as a class; `RaceRefinement` shows that a
  call nothing interleaves with does what the serial service does. `RaceCooldown`, `GenerousClock` and
  `CooldownSchedules` say which schedules of racing callers keep a rule's cooldown.
- `History` looks at the table one (rule, device) at a time. `EdgeDetector`, `Cooldown`, `KeyCooldown`,
  `Notifications` and `Evaluation` are theorems about serial runs, `AlertLifecycle` about serial and interleaved ones;
  `Rules` is the rule lookup, `EvaluationRun` shows an evaluation to be a serial run, `Platform` joins ingest and
  evaluation.
- `Telemetry`, `LatestValues` and `Jobs` (with `Demands`) are ingestion, retention and the background jobs;
  `LivenessRace` interleaves the three writers of a device row.
- `Topics` and `Groups` stand alone.

Conventions. The wall clock is an arbitrary function from the number of the reading to the time read; theorems that
need a clock that never goes back say so. An alert's id is its position in the table. Sensors are keyed by
(serial, payload key), the pair that is unique in the database. `IndexHolds` is the partial unique index on open
alerts: `AlertRace.IndexHoldsThroughout` shows that every interleaving keeps it, and other theorems assume it.
Serial runs, sensor queries and rule queries come in the order the database returns them, an arbitrary one.

## Where the documentation and the code differ

The model follows the code.

- "At most one open alert per (rule, device)" holds for non-null keys only. An offline alert raised without a rule has
  a NULL key, and two racing calls open two rows; while both stay live and open every lookup for the key fails
  (`AlertRace.DedupIffIndexed`, `AlertRace.FailsWhileDuplicated`, `Demands.RaiseAnyKey`, `Jobs.DetectOfflineDevices`).
- The index also counts soft-deleted rows, which the default manager hides: a soft-deleted open row silences its rule
  for that device (`AlertRace.DeletedRowSilences`; the `Blocked` and `Refused` conditions).
- The cooldown is compared on a copy read earlier, and the call that creates a row does not compare at all. It binds
  exactly the schedules in which no call announces a row that another call, announcing it later, already holds
  (`CooldownSchedules.KeepsCooldownIffNoOverlap`): serial callers, callers that take turns on a row, and some others
  (`RaceCooldown.TakingTurnsKeepsCooldown`). Two calls that read the row before either emits
  (`AlertRace.CooldownDoesNotBindRaces`), or a creator overtaken before it emits
  (`CooldownSchedules.CreatorBreaksCooldown`), announce it twice at once.
- "A flapping sensor can't spam operators": each rising edge opens a new row and announces it without any comparison.
  The announcements of a key are the cooldown apart exactly if its rows are opened that far from its last announcement
  (`KeyCooldown.KeySpacedIffEdgesApart`); n flaps are n announcements (`KeyCooldown.EveryFlapIsAnnounced`).
- "Handlers are idempotent on command_id / time": a repeated result moves the time stamp
  (`Commands.SecondCopyRestamps`); a repeated heartbeat moves `last_seen` and nothing else
  (`Jobs.SecondBeatRestamps`); a repeated batch that carries no time of its own adds samples
  (`TelemetryRedelivery.SecondCopyAddsSamples`); a repeated batch that carries one still adds rows
  (`TelemetryRedelivery.CopiesAccumulate`).
- "Fails commands the device never acknowledged": a command whose answer is saved before its SENT mark can expire
  although it completed (`Commands.CompletedCommandExpires`), and such runs are the only ones
  (`Commands.SparedIffNotMarkedLate`).
- The denormalised latest values leave the stream when an ingest meets a soft-deleted key half-way
  (`LatestValues.AbortedIngestAgrees`, `LatestValues.RetiredKeyBreaksAgreement`) and when a purge passes a sensor's last
  reading (`LatestValues.PurgeAgrees`, `LatestValues.PurgeBreaksAgreement`).
- Ingest, heartbeat and watchdog save a status computed from a copy: a status a device reported can be overwritten
  (`LivenessRace.ReportedStatusIsLost`) and a device just seen put offline (`LivenessRace.SeenDeviceGoesOffline`),
  exactly when a save is made from a copy that no longer serves (`LivenessRace.AtomicIffCurrent`).

## Model

| member | source | states |
|---|---|---|
| Redelivery.EarlyCopyIsInvisible | apps/mqtt/client.py:59-68 | If no single message can tell an early copy, cut off anywhere up to where the later one gets, from none, no sequence of messages can |
| Redelivery.OnlyFinalCopiesMatter | apps/mqtt/client.py:59-68 | Striking out every copy but the last of each packet leaves the same final state, if no copy got further than the last |
| Redelivery.FinalCopiesSuffice | apps/mqtt/client.py:59-68 | Any arrivals whose final copies are in publish order, and got as far as any copy, leave the state of exactly-once delivery |
| Redelivery.SessionKeepsOrder | apps/mqtt/client.py:44-62 | In every run of a durable QoS 1 session (transmissions, acknowledgements, reconnections) the final copies stay in publish order |
| Redelivery.AtLeastOnceIsExactlyOnce | apps/mqtt/client.py:44-68 | A fully acknowledged session leaves a handler that obeys the two-message law where handling each message once, as far as its final copy got, would; early copies may raise anywhere up to there |
| Redelivery.LostMessagesAreStruckOut | apps/mqtt/client.py:64-68 | So a message whose every copy raises before it writes is as if it had not been published |
| Redelivery.WholeOnce | apps/mqtt/client.py:64-68 | And where every final copy is handled to its end the state is that of handling each message once to its end |
| Redelivery.CompletedCopiesSuffice | apps/mqtt/client.py:59-68 | Where handlings write all or nothing, every handler with the law converges if the final copies among those handled are all packets in publish order |
| Redelivery.OnlyPublishOrderConverges | apps/mqtt/client.py:59-68 | Nothing weaker will do: some handler with the law converges exactly on those arrivals |
| Redelivery.ViewOverwrites | apps/mqtt/client.py:59 | A handler with the law has it through every view that hides nothing the handler goes by |
| Commands.CommandTable.Dispatch | apps/devices/services.py:26-52 | A new command is SENT with its stamp if publishing returned, else stays QUEUED with the error; other commands are untouched; with nothing in between it is that run of the interleaving model |
| Commands.CommandTable.TransitionCommand | apps/devices/services.py:68-80 | Saving writes the whole row from the caller's copy: status, the stamp of that status, result and error only if given |
| Commands.CommandTable.HandleResult | apps/mqtt/handlers.py:73-104 | A result updates exactly the command it names, and none if it names no stored one: COMPLETED with its stamp for ok, completed and done, FAILED with that stamp for error and failed, ACKED with its stamp for any other word; result and error only if given, all other columns as before |
| Commands.CommandTable.ExpireStale | apps/devices/tasks.py:88-96 | Exactly the commands that are QUEUED or SENT with a deadline before now become EXPIRED, and the count is theirs |
| Commands.DeliverOverwrites | apps/devices/services.py:68-80 | The result handler obeys the two-message law on a table of any commands |
| Commands.ProgressIgnoresTimes | apps/devices/services.py:70-80 | Status, result, error and the set of stamped columns do not depend on when the messages are handled |
| Commands.ResultsConverge | apps/mqtt/handlers.py:83-104 | Whatever a QoS 1 session delivers, every command ends with the status, result, error and stamped columns of handling each result once as its final copy was |
| Commands.LastAnswerWins | apps/devices/services.py:68-80 | A command is COMPLETED, FAILED or ACKED by the word of the last message naming it that was written, whatever that overwrites; with none its status is unchanged |
| Commands.SaveWritesOldCopy | apps/devices/services.py:68-80 | In every interleaving a saved answer writes back the whole row as its handler read it, however long ago, save the columns the answer sets |
| Commands.UndisturbedAnswer | apps/mqtt/handlers.py:83-104 | With nothing in between the two steps of a handler are the service's handling of the result |
| Commands.SecondCopyRestamps | apps/mqtt/client.py:59 | A second copy leaves the row alone exactly if it is handled at the same instant or names no stored command |
| Commands.DeviceStatusIffAnswerStands | apps/devices/services.py:42-52 | In every interleaving of dispatch, handlers and expiry the status is a device's exactly when some answer was saved with no SENT mark behind it |
| Commands.StatusIsLastWord | apps/mqtt/handlers.py:90-104 | In every interleaving a command is COMPLETED exactly if the last saved answer has no SENT mark behind it and bore ok, completed or done, FAILED exactly if it bore error or failed, ACKED exactly if it bore any other word |
| Commands.StatusIsStamped | apps/devices/services.py:45-80 | In every interleaving SENT, ACKED, COMPLETED and FAILED each come with their time stamp |
| Commands.NoAnswerNoStamp | apps/devices/services.py:68-80 | Until an answer is saved neither the row nor any handler's copy has an answer stamp |
| Commands.AnswersSurvive | apps/devices/tasks.py:88-96 | If SENT is never written after an answer, answered commands show a device status for good and EXPIRED means never answered |
| Commands.SparedIffNotMarkedLate | apps/devices/services.py:42-52 | An answered command shows a device status at every moment, and no expiry at any moment fails an answered command, exactly in the runs where SENT is never written after an answer |
| Commands.CompletedCommandExpires | apps/devices/services.py:42-48 | A run in which a command completes before its SENT mark is saved and ends EXPIRED |
| Alerts.FindLive | apps/alerts/services.py:79-80 | The newest live open row of the key, or none exactly if there is none |
| Alerts.Get | apps/alerts/services.py:68-76 | The one live open row of the key; missing exactly if there is none; an error only if there are two |
| AlertRace.StepNeverReopens | apps/alerts/services.py:86-95 | No statement changes a key or moves an existing row back to OPEN, however stale its caller's copy |
| AlertRace.NeverReopens | apps/alerts/services.py:86-129 | The same between any two moments of a run |
| AlertRace.IndexHoldsThroughout | apps/alerts/models.py:141-148 | In every interleaving at most one open row, soft-deleted ones included, exists per non-null (rule, device) |
| AlertRace.ReturnedWasOpen | apps/alerts/services.py:68-95 | Every alert a call works on or returns has its (rule, device) and was open at some moment while the call was under way |
| AlertRace.FoundIsRefreshed | apps/alerts/services.py:86-92 | In every interleaving a call that returns a row it found has written its value, and its message if it has one, into that row by one of its own statements, which changes nothing else |
| AlertRace.CallProgresses | apps/alerts/services.py:57-95 | In every interleaving each statement of its own brings a call closer to its return, whatever others do in between |
| AlertRace.ReturnsWithinSeven | apps/alerts/services.py:57-95 | So a call has returned after at most seven of its own statements |
| AlertRace.NoAlertOnlyIfRowHidden | apps/alerts/services.py:77-84 | A call returns no alert only if its insert collided with an open row that at its last look was soft-deleted or no longer open |
| AlertRace.StatementEffect | apps/alerts/services.py:68-95 | One statement moves only its own call, inserts at most one row, emits at most once, and a creating call cannot return without emitting |
| AlertRace.CreatedOnceEmittedOnce | apps/alerts/services.py:70-95 | Each new row has exactly one creating call, and a creating call that has returned has made exactly one emission |
| AlertRace.DedupIffIndexed | apps/alerts/models.py:141-148 | De-duplication of a key survives every interleaving exactly if rule and device are both non-null |
| AlertRace.TwoOpenRows | apps/alerts/services.py:98-108 | Two calls without a rule that both look before either inserts leave two open rows |
| AlertRace.LookupFailsIffDuplicated | apps/alerts/services.py:70-76 | In any state of any run a lookup fails exactly if two live open rows have its key |
| AlertRace.FailsWhileDuplicated | apps/alerts/services.py:70-76 | From the moment two live open rows have a key every lookup for it fails until one of them is closed or soft-deleted |
| AlertRace.DuplicateBreaksNextCall | apps/alerts/services.py:70-76 | A run in which the third call for a key without a rule fails in its first lookup |
| AlertRace.DeletedRowSilences | apps/alerts/services.py:77-84 | A run in which a soft-deleted open row makes the next call for an indexed key return no alert |
| AlertRace.IndexedCallsNeverFail | apps/alerts/services.py:68-84 | A call with a rule and a device never fails that way |
| AlertRace.CooldownDoesNotBindRaces | apps/alerts/services.py:86-95 | A run in which two calls that read the row before either emits both emit, at the same time, whatever the cooldown |
| RaceCooldown.SpacedWithoutOverlap | apps/alerts/services.py:86-95 | In every interleaving from an empty table in which no call is overtaken on a row it announces later, under any clock that never goes back, every row's announcements are at least the cooldown apart |
| RaceCooldown.TakingTurnsKeepsCooldown | apps/alerts/services.py:86-95 | So they are if no two calls are ever at work on the same row |
| GenerousClock.OverlapsUnderGenerous | apps/alerts/services.py:57-95 | A schedule that overlaps under any clock overlaps under the one whose readings are a cooldown apart: rows and points of calls do not depend on the clock |
| CooldownSchedules.OverlapBreaks | apps/alerts/services.py:86-95 | A schedule that overlaps under some clock breaks the cooldown under some clock that never goes back |
| CooldownSchedules.KeepsCooldownIffNoOverlap | apps/alerts/services.py:86-95 | From an empty table a schedule keeps a rule's cooldown under every clock that never goes back exactly if the cooldown is zero or it has no overlap under the generous clock |
| CooldownSchedules.CreatorDoesNotWait | apps/alerts/services.py:70-95 | A run in which a call announces a row between its creator's insert and the creator's own announcement, without any comparison, under any clock |
| CooldownSchedules.CreatorBreaksCooldown | apps/alerts/services.py:70-95 | That schedule breaks every positive cooldown |
| RaceRefinement.SoloCallIsSerial | apps/alerts/services.py:57-95 | A call nothing interleaves with ends with the rows, clock readings, announcements (alert by alert, time by time) and outcome of the serial service |
| AlertService.AlertEngine.GetOrCreate | apps/alerts/services.py:68-76 | Finds, creates or is rejected: created exactly if nothing live is open and the index allows it, rejected exactly if it does not |
| AlertService.AlertEngine.RaiseAlert | apps/alerts/services.py:57-95 | The in-place call does exactly what the function on the stored state does, outcome included |
| AlertService.RaiseRefreshes | apps/alerts/services.py:86-95 | A raise that finds a row writes its value, its message if the call has one, and the announcement's time if it announces; all other columns and rows are as before |
| AlertService.RaiseWaits | apps/alerts/services.py:203-207 | It announces the row exactly if that was never announced, no rule gives a cooldown, or the cooldown's seconds have passed |
| AlertService.RaiseInserts | apps/alerts/services.py:68-84 | A raise that finds no row appends one with the call's rule, device, organisation, sensor, severity, title, message and value, open and announced at the time read, unless the index refuses it |
| AlertService.AlertEngine.EmitAlert | apps/alerts/services.py:133-152 | Stamps the row and no other column, records one announcement at the time read, picks the targets and fans out, as the function does |
| AlertService.TargetsAreOwn | apps/alerts/services.py:141-149 | The channels chosen by the caller or its rule are the targets; without any, the active in-app channels of the alert's organisation are, and no other |
| AlertService.AlertEngine.FanOut | apps/alerts/services.py:155-183 | The loop appends exactly the notifications and deliveries of the targets the severity admits, in the order of severities; each notification is for an active human user of the alert's organisation, each delivery for an external target |
| AlertService.AlertEngine.AutoResolveAlerts | apps/alerts/services.py:197-200 | Resolves the live open rows of the key and nothing else |
| AlertService.AlertEngine.AcknowledgeAlert | apps/alerts/services.py:111-119 | A visible row becomes ACKNOWLEDGED by that user at the time read, whatever its status was, with every other column and row as before; any other id changes nothing |
| AlertService.AlertEngine.ResolveAlert | apps/alerts/services.py:122-129 | A visible row becomes RESOLVED at the time read, with every other column and row as before; any other id changes nothing |
| AlertLifecycle.StatusIsLastWriters | apps/alerts/services.py:111-129 | Over any serial run a row's status is what the last operation that wrote it writes: ACKNOWLEDGED an acknowledgement, RESOLVED a resolve or an auto-resolve; without one it is as it began |
| AlertLifecycle.SerialStatusIff | apps/alerts/services.py:111-129 | So a row the run inserted is ACKNOWLEDGED exactly if the last operation that wrote its status was an acknowledgement, RESOLVED exactly if it was a resolve or an auto-resolve, and OPEN exactly if there was none |
| AlertLifecycle.RaceStatusIsLastWriters | apps/alerts/services.py:57-129 | The same of the statements of any interleaving, soft deletions included |
| AlertLifecycle.RaceStatusIff | apps/alerts/services.py:57-129 | And of a row inserted in the interleaving: OPEN, ACKNOWLEDGED or RESOLVED exactly by its last writer |
| Notifications.FanOutConserves | apps/alerts/services.py:155-183 | One emission gives each active human user of the alert's organisation one notification per in-app target whose minimum severity is not above the alert's, nobody else any, and each such external target one delivery |
| Notifications.OutsidersReceiveNothing | apps/alerts/services.py:166-169 | Adding users of other organisations, inactive users or service accounts changes nothing |
| Notifications.TotalsConserve | apps/alerts/services.py:133-183 | Over any run the notifications and deliveries are the sums of the emissions' shares |
| Notifications.RecipientsAreMembers | apps/alerts/services.py:166-174 | Every notification of a run was created by an operation announcing its alert, for a user who then was active, no service account and of the alert's organisation |
| Cooldown.CooldownHolds | apps/alerts/services.py:86-95 | In serial runs each alert is announced at least once, its notification time is its last announcement, and announcements are at least the cooldown apart |
| Cooldown.WindowBound | apps/alerts/services.py:203-207 | Any window holds at most width / cooldown + 1 announcements of one alert |
| KeyCooldown.KeySpacedIffEdgesApart | apps/alerts/services.py:70-95 | In serial runs the announcements of all alerts of a key are at least the cooldown apart exactly if each alert of the key is opened that long after the key's last announcement |
| KeyCooldown.EveryFlapIsAnnounced | apps/alerts/services.py:41-54 | n flaps of a sensor are n announcements, at every other reading of any clock |
| KeyCooldown.FlappingBreaksCooldown | apps/alerts/services.py:41-54 | Two flaps while the clock stands still break every positive cooldown |
| History.RaiseInStory | apps/alerts/services.py:57-95 | Raising in the whole table is raising in the history of its own key, and nothing in the history of any other |
| History.AutoResolveInStory | apps/alerts/services.py:197-200 | The same for auto-resolving |
| EdgeDetector.AlertsAreEdges | apps/alerts/services.py:41-54 | Over serial runs on any keys, from any table where at most the key's newest row is open and that one not soft-deleted, its rows are the rising edges of a one-bit machine; only the newest can be open, exactly while the bit is set, with the latest matching value |
| EdgeDetector.CreatedLessClosedIsBit | apps/alerts/services.py:111-129 | Alerts created less alerts that have left OPEN is the bit |
| Rules.OperatorsDivide | apps/alerts/models.py:85-96 | The six operators divide the values around the threshold, an unknown one matches nothing, and a missing value or threshold never matches |
| Rules.SignIsComparison | apps/alerts/models.py:37-43 | The sign in an alert's title is that of the comparison that was made |
| Rules.LookupIsExact | apps/alerts/services.py:210-232 | Prefilter and second stage together give exactly the sensors in the rule's scope, in the order of the sensor query |
| Evaluation.RaiseOutcome | apps/alerts/services.py:57-95 | After a raise a live row is open with the raised value exactly if no soft-deleted open row blocks it; other keys are untouched |
| Evaluation.AutoResolveOutcome | apps/alerts/services.py:197-200 | After auto-resolving nothing live is open for the key; other keys are untouched |
| Evaluation.JudgeAllDecides | apps/alerts/services.py:41-54 | Over a rule's sensors the last numeric value decides, and each sensor whose number matches while nothing is open opens an alert that bears it |
| Evaluation.EvaluateDecides | apps/alerts/services.py:25-54 | After the loop every rule with a numeric value in scope is open exactly if its last one matches, with that value; the others are untouched. The rows added for a rule are its rising edges, each with the rule's severity and organisation and the sensor whose number opened it; rows there were keep these columns |
| EvaluationRun.EvaluationIsRun | apps/alerts/services.py:25-54 | The nested loops are the serial run that, rule by rule and sensor by sensor in scope, raises with the rule's key, organisation, severity, cooldown and channels and the sensor's value where it matches, and auto-resolves the key where it does not |
| Evaluation.OrderDoesNotMatter | apps/alerts/services.py:41-54 | Any order of the rules leaves every key the same rows but for time stamps |
| Platform.EvaluateDeviceReadings | apps/alerts/services.py:25-54 | The nested loops do what the function does, which is the serial run of exactly the raises and auto-resolves the rules in scope call for; no raise in them fails |
| Platform.BatchDecidesAlerts | apps/telemetry/services.py:67-104 | End to end: the last number the batch reports in a rule's scope decides whether that rule's alert is open, and its value; alerts opened bear the rule's severity and organisation and the reporting sensor |
| Platform.IngestPayload | apps/telemetry/services.py:23-106 | The whole call: the ingest as specified, alerts untouched unless it completes, and decided by the batch if it does, severity, organisation and sensor included |
| Telemetry.Coerce | apps/telemetry/services.py:109-120 | Exactly one bucket is filled: number with what booleans, numbers and numeric texts read as, structure with structures, text with the rest |
| Telemetry.TelemetryStore.TouchDevice | apps/telemetry/services.py:39-57 | Exactly the columns the batch carries are written, last seen becomes its time, and an offline or provisioning device goes online while any other status stays |
| Telemetry.TelemetryStore.WriteReadings | apps/telemetry/services.py:59-85 | The loop saves the sensors and collects the rows up to the first key a soft-deleted sensor holds, and reports that key; each row keeps its raw value as number, text or JSON at the batch's time |
| Telemetry.TelemetryStore.IngestPayload | apps/telemetry/services.py:23-106 | Unknown serials change nothing; an aborted loop leaves its saved sensors and no reading; a completed one appends every row |
| Telemetry.IngestKeepsNumbered | apps/telemetry/services.py:87-88 | An ingest, completed or not, keeps the ids of the readings apart, as the purge by id requires |
| Telemetry.WrittenAt | apps/telemetry/services.py:67-83 | After the loop a sensor holds the last value for its key, keeps its name and type, and is otherwise as before |
| Telemetry.SensorShowsLast | apps/telemetry/services.py:67-83 | It shows the last raw value for its key as number or text at the batch's time; a sensor the batch creates is named by its key |
| Telemetry.FirstNeedleDecides | apps/telemetry/services.py:123-139 | A new sensor's type is that of the first listed needle its key contains, custom if none is |
| Telemetry.TelemetryStore.SelectOld | apps/telemetry/tasks.py:31-35 | At most the limit of ids, all of old readings, and those of all of them if fewer than the limit |
| Telemetry.TelemetryStore.PurgeRound | apps/telemetry/tasks.py:30-37 | A round deletes at most 10000 readings, none inside the window, and fewer only if nothing old is left |
| Telemetry.TelemetryStore.PurgeOldTelemetry | apps/telemetry/tasks.py:18-40 | The loop ends, leaves exactly the readings not older than the cutoff, and returns exactly the number removed |
| LatestValues.IngestAgrees | apps/telemetry/services.py:76-88 | A completed ingest keeps every sensor showing its most recently appended reading |
| LatestValues.AbortedIngestAgrees | apps/telemetry/services.py:67-88 | An ingest that meets a retired key keeps the agreement exactly if each sensor before it already showed what it was sent |
| LatestValues.RetiredKeyBreaksAgreement | apps/telemetry/services.py:67-88 | A store and a batch with a soft-deleted second key after which the first sensor shows a reading that was never stored |
| LatestValues.LatestValuesAgree | apps/telemetry/models.py:16-17 | In every state reached by completed ingests every sensor shows its last reading |
| LatestValues.LatestIsMaximal | apps/telemetry/models.py:60-63 | If a sensor's time stamps never decrease, what it shows is also the latest in time |
| LatestValues.PurgeAgrees | apps/telemetry/tasks.py:28-37 | A purge keeps a sensor's agreement exactly if it was never read or its last reading is inside the window |
| LatestValues.PurgeBreaksAgreement | apps/telemetry/tasks.py:28-37 | A store and a cutoff after whose purge a sensor shows a reading that is gone |
| LatestValues.PurgeBreaksOnlyEmptied | apps/telemetry/tasks.py:28-37 | With time stamps that never decrease, that fails exactly for the streams the purge empties |
| TelemetryRedelivery.WholeIsIngest | apps/telemetry/services.py:39-88 | The ingest cut off after any number of its writes (device, then each sensor's creation and values, then the readings) is the ingest itself when it is not cut off |
| TelemetryRedelivery.FirstWriteIsDevice | apps/telemetry/services.py:39-57 | Cut off after its first write it has touched the device and nothing else |
| TelemetryRedelivery.CutGrowsByOneWrite | apps/telemetry/services.py:67-83 | Cut off one write later it has made one write more: in turn the creation of a reading's sensor, if it has none, and the saving of its values, up to a retired key |
| TelemetryRedelivery.IngestIsAbsorb | apps/telemetry/services.py:23-88 | What an ingest, wherever it stops, does to devices, sensors and the set of samples depends on nothing else |
| TelemetryRedelivery.AbsorbOverwrites | apps/telemetry/services.py:39-88 | Ingesting obeys the two-message law, over any devices and retired keys, wherever early copies stop |
| TelemetryRedelivery.TelemetryConverges | apps/mqtt/handlers.py:20-38 | Whatever a QoS 1 session delivers of batches that carry their time, devices, sensors and the set of samples end as after ingesting each once as far as its final copy was |
| BridgeRedelivery.BridgeOverwrites | apps/mqtt/client.py:59-62 | Telemetry, heartbeats and results handled together obey the two-message law, although two of them write the same device rows |
| BridgeRedelivery.DatedBridgeConverges | apps/mqtt/client.py:44-68 | Whatever one session delivers of all three, everything but `last_seen` ends as after handling each message once as far as its final copy was, if batches carry their time |
| BridgeRedelivery.BridgeConverges | apps/mqtt/client.py:44-68 | And for any messages at all everything but time stamps does |
| TelemetryRedelivery.SecondCopyAddsSamples | apps/telemetry/services.py:35-37 | A second copy at a fresh moment adds no sample exactly if the batch carries its time or stores nothing |
| TelemetryRedelivery.CopiesAccumulate | apps/telemetry/services.py:87-88 | The reading rows themselves grow with every copy |
| Demands.RaiseAnyKey | apps/alerts/services.py:57-95 | A raise for any key fails exactly if two live rows are open for it; otherwise one is open with the value unless a soft-deleted row refuses it |
| Demands.RaiseAllSupplies | apps/alerts/tasks.py:35-52 | A job's raises for distinct keys fail exactly if a key was duplicated before; if not, each is supplied, and nothing is closed |
| Demands.SecondRunCreatesNothing | apps/alerts/tasks.py:35-52 | The same job run again creates no alert |
| Demands.RefusedMeansDeleted | apps/core/models.py:50-54 | What refuses an insert while nothing live is open is a soft-deleted open row |
| Jobs.DetectOfflineDevices | apps/devices/tasks.py:24-43 | Exactly the devices believed alive and not seen for 120 seconds go offline, the count is theirs, each has its alert unless refused. The pass is a serial run of one raise for each of them, with the severity, key, cooldown and channels of the first active offline rule of its organisation, critical and without a rule if there is none; every row added bears these. No count exactly if a stale device's key is duplicated, and then the devices up to the first such are offline, those before it have their alerts and the others are untouched |
| Jobs.MarkedIsPassedOver | apps/devices/tasks.py:24-30 | A device marked offline, its raise failed or not, is in no later pass |
| Jobs.HandleStatus | apps/mqtt/handlers.py:41-70 | A heartbeat writes exactly the reported columns of the device (status, battery, signal, firmware, IP) and last seen; one that names no status brings an offline or provisioning device online and leaves any other status |
| Jobs.SecondBeatRestamps | apps/mqtt/handlers.py:56-70 | A second copy of a heartbeat leaves the device alone exactly if it is handled at the same instant, and else moves `last_seen` only |
| Jobs.SignOfLifeStatus | apps/devices/models.py:156-162 | After a batch, or a heartbeat that names no status, an offline, provisioning or online device is online and any other keeps its status |
| Jobs.OfflineIffSilent | apps/devices/tasks.py:24-31 | Over any serial run from provisioning a device is OFFLINE exactly if a sweep found it alive but silent, or a heartbeat reported it offline, and it was not heard of otherwise since |
| Jobs.AliveHasBeenSeen | apps/devices/models.py:156-162 | From provisioning, under any ingests, heartbeats and sweeps, an online or degraded device has been seen, and after a sweep since the cutoff |
| Jobs.OutOfServiceIsReported | apps/mqtt/handlers.py:57-65 | A device is in maintenance, error or decommissioned exactly by its last reported status, operations done one at a time |
| LivenessRace.SaveIsAtomicIffCurrent | apps/telemetry/services.py:39-57 | A save from a copy is the whole operation done at that moment exactly if the copy's status serves as well as the row's |
| LivenessRace.AtomicIffCurrent | apps/devices/tasks.py:24-31 | In an interleaving of ingests, heartbeats and watchdog the row is always what the saved operations done one at a time make of it, exactly if every save had such a copy |
| LivenessRace.OnlyStatusIsLost | apps/telemetry/services.py:42-57 | In every interleaving all columns but the status are those of the saved operations done one at a time |
| LivenessRace.NoOverlapIsAtomic | apps/devices/tasks.py:24-31 | They are as good as atomic if no writer saves while another is between its read and its save |
| LivenessRace.AliveHasBeenSeenInRaces | apps/devices/models.py:156-162 | In every interleaving from provisioning an online or degraded device has been seen |
| LivenessRace.OutOfServiceWasReported | apps/mqtt/handlers.py:57-65 | In every interleaving an out-of-service status was reported by a saved heartbeat |
| LivenessRace.OutOfServiceIsLastReport | apps/mqtt/handlers.py:57-65 | And it is the last reported one where every save had a current copy |
| LivenessRace.ReportedStatusIsLost | apps/telemetry/services.py:39-57 | A run in which an ingest puts a device that has reported maintenance back online |
| LivenessRace.SeenDeviceGoesOffline | apps/devices/tasks.py:24-31 | A run in which the watchdog puts offline a device seen since its query |
| Jobs.EvaluateThresholdAlerts | apps/alerts/tasks.py:20-52 | Returns the number of matching pairs of a device in service and a battery or health rule of its organisation, and is the serial run of their raises |
| Jobs.BackstopSupplies | apps/alerts/tasks.py:27-52 | Every pair's demand is supplied unless refused, nothing is closed, and a second run on unchanged devices creates nothing |
| Jobs.BackstopAddsPairs | apps/alerts/tasks.py:35-52 | Every row it adds bears the rule, device, organisation, severity, level and text of such a pair, and the rows there were keep theirs |
| Jobs.PairIsSupplied | apps/alerts/tasks.py:35-51 | Each matching pair ends with a live open alert at the device's current level, or is refused |
| Topics.SplitJoin | apps/mqtt/topics.py:38 | Splitting undoes joining |
| Topics.SerialIsMatchedLevel | apps/mqtt/topics.py:20-43 | For every topic a subscription matches, the serial read back is the level the wildcard matched unless a level "devices" comes before |
| Topics.ReadsMatchedIffBasePlain | apps/mqtt/topics.py:20-43 | Every matched topic is read back rightly exactly if the base has no level "devices" and no wildcard level |
| Topics.SerialRoundTrip | apps/mqtt/topics.py:32-43 | A command topic's serial is read back exactly if it has no slash |
| Topics.RoundTripIffBaseClean | apps/mqtt/topics.py:32-43 | Every slash-free serial survives the round trip exactly if the base has no level "devices" |
| Topics.MatchedTopicIsRouted | apps/mqtt/handlers.py:107-116 | A topic a subscription matches goes to that subscription's handler |
| Groups.FullPath | apps/devices/models.py:68-74 | The loop ends for every group whose parents lead to a root, and computes the parent's path, " / " and the name |
| Groups.AddKeepsAcyclic | apps/devices/models.py:56-58 | A new group, at the root or under an existing one, keeps the forest acyclic |
| Groups.MoveKeepsAcyclicIff | apps/devices/models.py:56-58 | Moving a group keeps the forest acyclic exactly if it is neither the new parent nor one of its ancestors |

## Left out

- Isolation below the statement: in `AlertRace` each SQL statement is atomic, and an INSERT commits with its transaction.
- Hard deletes, and the deletion of a rule or device that rewrites an alert's foreign key.
- Concurrent ingests: `Platform.IngestPayload` is one call at a time; raising, resolving, the command lifecycle and the writers of a device row are interleaved.
- Redelivery.AtLeastOnceIsExactlyOnce: does not cover a final copy that raises earlier than a copy before it, except where handlings write all or nothing.
- Commands.ResultsConverge: one bridge handles the results one at a time, as its single network thread does; handlers that overlap are in the interleaving model.
- BridgeRedelivery.DatedBridgeConverges: alerts are not compared; a batch handled again is evaluated again, and a flap replayed that way is announced again, as `KeyCooldown.EveryFlapIsAnnounced` counts.
- Telemetry.GuessType: lower-cases ASCII letters only.
- Telemetry.Coerce: takes parsed JSON; whether a text reads as a float is part of the input, and NaN and infinities are excluded.
- Platform.IngestPayload: evaluates in the order the sensor query returns, for every such order; collation by name is the database's.
- Rules.Breach: numbers are not rendered into titles and messages, here and in `Jobs.LevelDemand`.
- Channel fan-out ends with an enqueued delivery; e-mail, webhook and retry belong to foreign services.
- WebSocket broadcasts, signals and audit rows: output only, except that `raised` plays the part of the "Raised" audit entries.
- `for_seconds`, `_compute_health_score` and the health rollup: the first is never read, the others are one expression.
- Roles and permissions, tokens, serializers, views, pagination, admin, migrations, seeding and deployment: thin case tables.
