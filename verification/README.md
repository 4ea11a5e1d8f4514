# Asterion flight, ground and twin: a verified model

This project models the parts of the system whose correctness rests on state and arithmetic
over time, and proves what they promise.

- **Store and forward** (`FileNames`, `QueueDirectory`, `DiskQueue`, `StoreForward`, `WireOrder`,
  `ZeroLoss`, `RunRecords`, `Latency`, `CommsClient`, `FlightSegment`). The flight client
  numbers messages, sends them or files them on disk, replays after a reconnect and purges on
  cumulative acknowledgements. The protocol is a step system in which sends, link drops, connects, single replayed messages, gateway steps and
  receipts interleave freely; the objects refine its actions, an assembly of them is a
  run of the protocol call by call, and the disk queue refines a bounded map, down to the
  single file-system operations of an enqueue. What client and gateway hold after a run
  (counters, latencies, plans, answers) is told from the events alone.
- **FDIR** (`Fdir`, `FaultResponse`, `FswCore`). The BOOT, NOMINAL, SAFE and CRITICAL machine
  with its hysteresis, stability timer, rate limiter and restart counter, over whole lifetimes and over
  sequences of lifetimes. Each tick has one reading of a clock that does not go back.
- **Audit chain** (`AuditChain`, `AuditLoggers`). The hash is a parameter. What the last hash
  commits to is proved for hashes without a collision on the records at hand; the three
  verifiers are compared on every list of entries.
- **Canonical JSON and signatures** (`JsonText`, `CanonicalJson`, `SignedText`, `JsonReader`,
  `SigningAgreement`, `KeyTexts`, `CommandExecution`). Browser and flight each print a command
  list in a canonical form. A reader written from the grammar, not from the printers, reads both
  texts as the sorted value; both determine the value up to the order of object members, and
  they are the same text exactly for the values called portable.
- **Plans** (`CommandExecution`, `PlanExecution`, `PlanGates`, `PlanLifecycle`). Gates, handler
  runs and audit events of plan execution on board; the life of a plan's row on the ground.
- **Contact windows** (`ContactWindows`). Natural phases with a forced closure laid over them.
- **Digital twin** (`RealPower`, `Thermal`, `Energy`, `Forecasts`, `Alerts`). Both integrators,
  the breach search and the alert severity over exact reals.

Objects that change their fields are classes; each of their methods is proved equal to a
function on a state value, and the claims about runs are lemmas about those functions. `Abs()`,
`View()` and the `Machine` value are the connections.

Where a promise does not hold of the code, there is an input that breaks it and a theorem
saying exactly when it holds:

- a positive loss report can hide an overflow: `ZeroLoss.ReportMissesOverflow`, exactly when in
  `ZeroLoss.ReportRightIff`; and a trailing message that is not telemetry is never
  acknowledged, so the report stays negative: `ZeroLoss.QuietOutcome`;
- queue files sort wrongly from id one million on: `FileNames.FirstNameOutOfOrder`,
  `FileNames.NameOrder`; the queue bound needs max_depth of at least 1:
  `QueueDirectory.DepthStaysBounded`;
- an audit record written behind unterminated text is lost: `AuditLoggers.NoneLostIff`,
  `AuditLoggers.LostRecordBreaksChain`; and a flight event in the ground's table breaks its
  chain: `AuditLoggers.FlightRowBreaksChain`;
- browser and flight print different texts for array-index keys, `__proto__` and text beyond
  ASCII: `SigningAgreement.TextsAgreeIff`;
- the browser writes keys and signatures as Base64 and flight reads hexadecimal, so every plan
  signed in the browser is refused: `PlanExecution.BrowserPlanRefused`, exactly when a key text
  is trusted in `CommandExecution.Base64KeyTrustedIff` and `CommandExecution.TrustedIffListed`;
  respelled, such a plan verifies: `CommandExecution.RespelledPlanVerifies`;
- the flight client names the acknowledged command `sequence_id`, the gateway reads
  `command_seq_id`, so no plan completes: `PlanLifecycle.FlightAcksChangeNothing`, exactly when
  a payload matters in `PlanLifecycle.AckChangesIff`;
- a negative hysteresis lets a faulty reading recover: `Fdir.ClearMeansNoFault`; T6 and
  CRITICAL_HALT are documented but cannot be logged, and an escalation at start is logged as
  "T?": `Fdir.TransitionCodes`, `Fdir.HaltNeverLogged`;
- steps longer than RC break the temperature comparison and the grading of alerts:
  `Thermal.OrderKeptIff`, `Alerts.GradedByLastIff`; a start outside [0, 1] breaks the closed
  form of the charge: `Energy.FollowsLineIff`;
- an opening is announced while a force is on: `ContactWindows.AnnouncementRightIff`.

Side conditions, as the code forces them: the client is fresh and its queue empty
(`Comms.CommsClient.constructor`), ids stay below one million (`Comms.CommsClient.Send`), one
thread drives the client (`ZeroLoss.SecondThreadLosesMessage` shows why), and the link delivers
in order what `send` accepted, as `InProcessTransport` does. The gateway is the mock gateway,
with its `highest_ack_seq_id`; ground/src/ws/gateway.js:221-228 sends `acked_seq_id`, which the
client does not read.

Check with `dafny verify dfyconfig.toml`.

## Model

| member | source | states |
|---|---|---|
| `FileNames.NameRoundTrip` | flight/disk_queue.py:130-135 | the file name of any id is a listed queue file name and reads back as that id |
| `FileNames.NameOrder` | flight/disk_queue.py:109-116 | for all ids a < b: the names sort like the ids if and only if a does not exceed b cut to as many leading digits as a's name has |
| `FileNames.NameOrderBelowLimit` | flight/disk_queue.py:37-37 | below one million, six padded digits make name order id order |
| `FileNames.FirstNameOutOfOrder` | flight/disk_queue.py:37-37 | 1 000 000 sorts before 999 999: where the padding gives out |
| `FileNames.TmpNameHidden` | flight/disk_queue.py:109-116 | a temporary file is never listed and never has the name of a message file |
| `FileNames.QueueNameIff` | flight/disk_queue.py:109-116 | a file counts as a queue file if and only if its name is something other than nothing before ".json" |
| `QueueDirectory.EnqueueCrashSafe` | flight/disk_queue.py:28-50 | stop enqueue after any file-system step: a reopened queue shows the old files, or those without the oldest (only when full), or those with the complete new message; never a partial one |
| `QueueDirectory.EnqueueRefines` | flight/disk_queue.py:28-50 | enqueue on the directory is insertion into a bounded map from id to message, the least id dropped when full |
| `QueueDirectory.GetFromIsReplayList` | flight/disk_queue.py:52-63 | get_from(n) returns exactly the stored messages with id at least n, ascending |
| `QueueDirectory.ReplayListIs` | flight/disk_queue.py:52-63 | that list ascends strictly and holds a message if and only if it is stored in the range |
| `QueueDirectory.GetFromHas` | flight/disk_queue.py:52-63 | in any directory, also with torn or oddly named files, get_from gives exactly the parseable messages of queue files numbered from that id on |
| `QueueDirectory.RemoveUpToContents` | flight/disk_queue.py:65-78 | remove_up_to(n) removes exactly the stored ids up to n |
| `QueueDirectory.DepthIsSize` | flight/disk_queue.py:80-82 | the file count is the number of stored messages |
| `QueueDirectory.DepthStaysBounded` | flight/disk_queue.py:40-43 | a queue within max_depth stays within it if and only if max_depth is at least 1 |
| `QueueDirectory.OverflowKeepsNewest` | flight/disk_queue.py:121-128 | enqueuing any increasing ids from empty leaves, for a reader, exactly the last min(count, max_depth) messages in order |
| `DiskQueues.DiskQueue.constructor` | flight/disk_queue.py:17-26 | opening takes the directory as an earlier process left it |
| `DiskQueues.DiskQueue.Enqueue` | flight/disk_queue.py:28-50 | the object performs the directory operations in their order (trace of every intermediate directory) and refuses a message without seq_id unchanged |
| `DiskQueues.DiskQueue.GetFrom` | flight/disk_queue.py:52-63 | the listing loop returns the matching readable messages, in name order |
| `DiskQueues.DiskQueue.RemoveUpTo` | flight/disk_queue.py:65-78 | the purge loop removes exactly the names up to the id and counts them |
| `DiskQueues.DiskQueue.Peek` | flight/disk_queue.py:87-93 | the least name's message if it can be read; nothing on an empty queue |
| `DiskQueues.DiskQueue.IsEmpty` | flight/disk_queue.py:84-85 | true exactly when no queue file is listed |
| `DiskQueues.DiskQueue.CountFiles` | flight/disk_queue.py:118-119 | the number of listed files |
| `StoreForward.RunInv` | flight/comms_client.py:188-412 | every reachable state of every interleaving satisfies the protocol invariant: integrity, gap-free wire, acknowledged ids received, bookkeeping |
| `StoreForward.StepInv` | flight/comms_client.py:278-391 | each send, drop, connect, replayed message, gateway step and receipt keeps that invariant |
| `StoreForward.CoveredBelow` | flight/comms_client.py:345-361 | an id seen on the wire implies every smaller id was on it before (overflow apart): why a cumulative ACK is safe |
| `StoreForward.GatewayInv` | flight/comms_client.py:149-183 | a gateway step keeps the acknowledgement invariant: every pending cumulative ACK names a received id |
| `StoreForward.ReplayCovers` | flight/comms_client.py:377-391 | the replay list read at connect covers every stored id above the highest ACK |
| `ZeroLoss.LossIsExactlyOverflow` | flight/comms_client.py:248-296 | in every reachable state a message is received, in flight or on disk, except exactly those that overflow dropped before they were sent |
| `ZeroLoss.LossIsPermanent` | flight/comms_client.py:373-375 | a message lost that way stays lost |
| `ZeroLoss.RoomMeansNoDrop` | flight/disk_queue.py:40-43 | nothing is ever dropped if and only if no message is queued while the queue is full |
| `ZeroLoss.NoMessageLost` | flight/comms_client.py:248-296 | with room for every send no message is lost, whatever link, replays, gateway and ACKs do |
| `ZeroLoss.PurgeOnlyReceived` | flight/comms_client.py:345-361 | an ACK deletes from disk only messages the gateway has received |
| `WireOrder.RunAscends` | flight/comms_client.py:278-391 | in every run, also with overflow, ids appear on the wire for the first time in ascending order |
| `WireOrder.AddedAscends` | flight/comms_client.py:377-391 | a fresh number exceeds all on the wire, and a replayed one that is new there was never overtaken |
| `ZeroLoss.ReceivedBelow` | flight/comms_client.py:345-361 | below any received id, a message was received if and only if it is not lost |
| `ZeroLoss.ReceivedInOrder` | flight/comms_client.py:377-391 | in every run, repeats apart, the gateway has received exactly the log up to the highest received id without the lost messages, in order; with room for every send a prefix of the log |
| `ZeroLoss.ReportSound` | flight/comms_client.py:402-411 | under a positive verify_zero_loss(n), each of 1..n was received if and only if it was not dropped by overflow before it was ever sent |
| `ZeroLoss.ReportRightIff` | flight/comms_client.py:402-411 | a positive report on n is right if and only if no message up to n was dropped before it was ever sent |
| `ZeroLoss.ReportTrueMeansReceived` | flight/comms_client.py:402-411 | with room for every send, a positive report means 1..n were received |
| `ZeroLoss.QuietOutcome` | flight/comms_client.py:402-411 | once nothing is under way all messages are delivered (overflow apart) and the report on all is positive if and only if the newest is telemetry |
| `ZeroLoss.QuietAck` | flight/comms_client.py:345-361 | with nothing under way the counter has reached the newest id exactly when that message was telemetry |
| `ZeroLoss.RecoverQuiet` | flight/comms_client.py:248-263 | from any reachable state as many steps as the queues are long end with link up and nothing under way |
| `ZeroLoss.RecoveryDelivers` | flight/comms_client.py:248-412 | convergence: after those steps all of 1..n are received (overflow apart), with the exact condition for a positive report |
| `ZeroLoss.RecoverSameLosses` | flight/comms_client.py:248-412 | recovery from any reachable state loses nothing more and brings nothing back |
| `ZeroLoss.RecoveryDeliversAll` | flight/comms_client.py:248-412 | after recovery the gateway has exactly the log without the messages lost before, in order; with room for every send, exactly the log |
| `ZeroLoss.LatencyBookkeeping` | flight/comms_client.py:345-371 | always: one latency per ACK that moved the counter, timestamps for exactly the sent ids above it, transmissions are fresh sends plus replays |
| `RunRecords.LatenciesAre` | flight/comms_client.py:345-371 | in every run the counter is the highest ACK read, each kept time stamp is the clock of that id's last transmission, and the latencies are, in order, 1000 times the receipt clock minus that clock, one per ACK that moved the counter |
| `RunRecords.MovingAddsOne` | flight/comms_client.py:348-356 | every ACK that moves the counter finds its time stamp and adds exactly one latency, and nothing else does |
| `RunRecords.LatenciesNotNegative` | flight/comms_client.py:354-356 | under a clock that never runs backwards no recorded latency is negative, in any run |
| `RunRecords.AnswersAre` | flight/comms_client.py:149-183 | in every run what the client has read and what is still on the link are the gateway's answers, in order: per telemetry message one ACK of the highest telemetry id so far, and behind it the latest plan queued since |
| `RunRecords.PlansArrive` | flight/comms_client.py:340-343 | every plan the gateway hands over reaches the client once and in order; the rest are on the link; plans_received counts them |
| `RunRecords.CountersAre` | flight/comms_client.py:209-296 | in every run the link flag, the numbered log and the counters tell exactly what the events did: sends, sends to disk, replayed messages, connects, drops, gateway receipts |
| `ZeroLoss.ReportMissesOverflow` | flight/comms_client.py:402-411 | the failing input of the report: positive for 2 after overflow dropped message 1 unsent |
| `ZeroLoss.SecondThreadLosesMessage` | flight/comms_client.py:377-391 | a second thread sending during a replay can lose a message: why one thread must drive the client |
| `Latency.P95IsPercentile` | flight/comms_client.py:395-400 | the p95 value is a sample, more than 95% of the samples do not exceed it, at least 5% are not below it |
| `Latency.Index95` | flight/comms_client.py:399-400 | the sample index is within the list and at the 95% position |
| `Comms.InProcessTransport.Send` | flight/comms_client.py:41-45 | accepts exactly when the link is up, appending to the queue towards the ground |
| `Comms.InProcessTransport.Recv` | flight/comms_client.py:47-53 | hands over the oldest message exactly when the link is up and one waits |
| `Comms.InProcessTransport.GroundRecv` | flight/comms_client.py:59-63 | the ground takes the oldest message whatever the link state |
| `Comms.MockGateway.LoopOnce` | flight/comms_client.py:149-183 | one turn of the receive loop is the gateway step of the protocol |
| `Comms.CommsClient.constructor` | flight/comms_client.py:191-224 | a fresh client over an empty queue is the initial protocol state |
| `Comms.CommsClient.Send` | flight/comms_client.py:278-296 | send refines the protocol's send: transmitted when the link is up, else into the bounded queue |
| `Comms.CommsClient.Connect` | flight/comms_client.py:248-263 | connect refines the protocol's connect followed by the uninterrupted replay |
| `Comms.CommsClient.ReplayQueued` | flight/comms_client.py:377-391 | the replay loop sends what get_from returns, in order, and counts it |
| `Comms.CommsClient.SendPending` | flight/comms_client.py:384-388 | the loop stops at the first refused message and leaves the rest to replay |
| `Comms.CommsClient.HandleTelemetryAck` | flight/comms_client.py:345-361 | the cumulative ACK refines the protocol's: counter, latency, timestamps, purge |
| `Comms.CommsClient.Receive` | flight/comms_client.py:318-343 | one receive refines the protocol's receive |
| `Comms.CommsClient.DrainReceives` | flight/comms_client.py:329-332 | up to max_count receives, ending at the first that finds nothing |
| `Comms.DrainReads` | flight/comms_client.py:329-332 | a drain reads the oldest replies, as many as allowed and present, and none with the link down |
| `Comms.CommsClient.Disconnect` | flight/comms_client.py:265-274 | the link goes down, queues and disk untouched |
| `Comms.CommsClient.VerifyZeroLoss` | flight/comms_client.py:402-411 | the report's fields in terms of the abstract state |
| `Comms.CommsClient.ComputeP95` | flight/comms_client.py:395-400 | the object reports the percentile function of its latencies |
| `FlightSegments.FlightSegment.constructor` | flight/comms_client.py:191-224 | client, link and gateway over an empty queue are the start of a protocol run |
| `FlightSegments.FlightSegment.Send` | flight/comms_client.py:278-296 | a send on the objects is one event of the run |
| `FlightSegments.FlightSegment.Connect` | flight/comms_client.py:248-263 | a connect on the objects is the connect event and one event per turn of the replay loop |
| `FlightSegments.FlightSegment.Disconnect` | flight/comms_client.py:265-274 | a disconnect on the objects is one event of the run |
| `FlightSegments.FlightSegment.GatewayTurn` | flight/comms_client.py:149-183 | a gateway turn on the objects is one event of the run |
| `FlightSegments.FlightSegment.DrainReceives` | flight/comms_client.py:329-332 | a drain on the objects is one receive event per message it finds |
| `FlightSegments.FlightSegment.VerifyZeroLoss` | flight/comms_client.py:402-411 | when the object reports zero loss, the gateway object holds each of 1..n if and only if it is not lost |
| `FlightSegments.FlightSegment.Resynchronise` | flight/comms_client.py:248-332 | connecting, pumping the gateway empty and draining leaves the gateway object with every message that is not lost, in order |
| `FlightSegments.ReplayIsRun` | flight/comms_client.py:377-391 | the uninterrupted replay loop is the run of its single turns |
| `FlightSegments.DrainIsRun` | flight/comms_client.py:329-332 | the drain loop is the run of its single receives |
| `Fdir.ClearMeansNoFault` | flight/fsw_core.py:280-369 | a reading that permits recovery raises no fault, if and only if the temperature hysteresis is not negative |
| `Fdir.FaultAfterClearMoves` | flight/fsw_core.py:280-369 | between a clear and a faulty reading some sensor moved by more than its margin |
| `Fdir.TimerMeaning` | flight/fsw_core.py:355-369 | a running stability timer marks an evaluation since which the machine stayed in SAFE and every evaluation was clear |
| `Fdir.RecoveryNeedsStability` | flight/fsw_core.py:229-262 | SAFE to NOMINAL fires only after a clear evaluation at least STABILITY_TIMER_SEC earlier in the same stay, all between clear |
| `Fdir.RecoveriesApart` | flight/fsw_core.py:229-262 | two recoveries of one lifetime are at least STABILITY_TIMER_SEC apart |
| `Fdir.BoundedRecovery` | flight/fsw_core.py:229-262 | in SAFE with ticks at most d apart and clear readings, NOMINAL by t0 + STABILITY + 2 (RATE + d) |
| `Fdir.RecoveryWithTimer` | flight/fsw_core.py:323-369 | the same with the timer already running: by its start + STABILITY + RATE + d |
| `Fdir.RecoveryInLifetime` | flight/fsw_core.py:123-262 | the bound holds after any start and any ticks before |
| `Fdir.TimesInPast` | flight/fsw_core.py:438-442 | no time the machine has written down lies ahead of the clock |
| `Fdir.WatchdogRun` | flight/fsw_core.py:123-152 | over any number of lifetimes the file's counter is the number of recovery starts since the last reset |
| `Fdir.EscalationIsCounted` | flight/fsw_core.py:123-152 | a start enters CRITICAL if and only if it is a recovery start and those since the last reset exceed MAX_WD_RESTARTS |
| `Fdir.EscalationSticks` | flight/fsw_core.py:123-152 | once escalated, everything short of a normal start leaves CRITICAL |
| `Fdir.TickCodes` | flight/fsw_core.py:158-181 | a tick that changes state logs exactly one of T1, T2, T3, T5; any other tick logs none |
| `Fdir.TransitionCodes` | flight/fsw_core.py:373-411 | T6 is never logged in any history; every entry into CRITICAL carries no listed code |
| `Fdir.HaltNeverLogged` | flight/fsw_core.py:264-276 | CRITICAL_HALT is never logged in any history: only start enters CRITICAL, and it leaves the process not running |
| `FaultResponse.NominalTick` | flight/fsw_core.py:208-227 | a NOMINAL tick enters SAFE if and only if temperature, voltage, charge or error rate is beyond its limit (defaults for missing readings), logged as T3 with exactly those limits named; otherwise one telemetry frame and nothing else |
| `FaultResponse.SafeTick` | flight/fsw_core.py:229-262 | a SAFE tick: nothing within the telemetry interval, T6 beyond the restart limit, T5 exactly if every reading is inside its limit by its margin and the timer has run out, else telemetry and the timer started, kept or stopped |
| `FaultResponse.BootTick` | flight/fsw_core.py:192-206 | a BOOT tick: T1 with the restart count cleared in memory and file, or T2, by the self-test |
| `FaultResponse.CriticalTick` | flight/fsw_core.py:264-276 | a CRITICAL tick halts a running process once and changes nothing else |
| `FaultResponse.StartIs` | flight/fsw_core.py:123-152 | the whole state after a process start, for every content of the counter file |
| `FaultResponse.StartAgainIs` | flight/fsw_core.py:123-152 | the whole state after `start` on a used object |
| `FaultResponse.NominalUntilFault` | flight/fsw_core.py:208-227 | over any ticks the machine stays in NOMINAL if and only if no reading on the way is beyond a limit |
| `FaultResponse.FaultsNamedInSafe` | flight/fsw_core.py:215-223 | through a stay in SAFE entered from NOMINAL the active faults are exactly the limits exceeded at the entering tick, each once and in order |
| `FaultResponse.RecoversIff` | flight/fsw_core.py:323-369 | over any ticks: a SAFE tick recovers if and only if it looks, sees all readings inside by their margins, and so did every tick that looked since one at least the stability time earlier in the same stay |
| `FaultResponse.LogIsWalk` | flight/fsw_core.py:373-411 | in every lifetime the logged transitions are a connected walk from BOOT to the present state |
| `FaultResponse.SafeFramesApart` | flight/fsw_core.py:229-235 | a telemetry frame emitted in SAFE comes at least TELEMETRY_RATE_SAFE_SEC after every earlier frame |
| `FlightCore.FswCore.constructor` | flight/fsw_core.py:33-86 | a new object is the machine before its first start, with the counter file of earlier lives |
| `FlightCore.FswCore.Start` | flight/fsw_core.py:123-152 | start on the object, new or used, is the machine's start, counter file included |
| `FlightCore.FswCore.Tick` | flight/fsw_core.py:158-181 | tick on the object is the machine's tick in every state |
| `FlightCore.FswCore.DoBoot` | flight/fsw_core.py:192-206 | T1 resets count and file, T2 keeps them |
| `FlightCore.FswCore.DoNominal` | flight/fsw_core.py:208-227 | a fault enters SAFE and is remembered, otherwise telemetry |
| `FlightCore.FswCore.DoSafe` | flight/fsw_core.py:229-262 | the rate limiter gates everything; escalation, recovery, or telemetry |
| `FlightCore.FswCore.DoCritical` | flight/fsw_core.py:264-276 | halts once and then nothing |
| `FlightCore.FswCore.EvaluateRecovery` | flight/fsw_core.py:323-369 | the stability timer starts, runs, resets and fires as in the machine |
| `AuditChain.VerdictsAgree` | ground/src/api/routes/events.js:26-67 | link-first and hash-first verifiers agree on validity, total and break index; on the reported hashes exactly when not both checks fail differently |
| `AuditChain.RecordDecodes` | flight/audit_logger.py:49-55 | with no bar in the first four fields the hashed text determines all five |
| `AuditChain.AmbiguousRecords` | ground/src/services/auditHash.js:12-19 | a bar inside a field, and the ground's unseparated text always, make two records hash alike |
| `AuditChain.HeadCommits` | flight/audit_logger.py:47-74 | without hash collisions, two verified chains with one last hash have equal length and equal hashed fields throughout |
| `AuditChain.HashesDistinct` | flight/audit_logger.py:47-74 | no hash repeats in a verified chain, and none is GENESIS |
| `AuditChain.DroppedEntryFound` | flight/audit_logger.py:169-197 | losing one entry is reported at exactly its index, unless it was the last: then the shorter log verifies |
| `AuditChain.RewriteFoundIff` | flight/audit_logger.py:78-124 | rewriting an entry under its old hashes goes unnoticed if and only if no hashed field changed; otherwise reported at its index |
| `AuditChain.AppendVerified` | ground/src/services/audit.js:55-72 | appending a linked entry to a verified chain gives a verified chain |
| `AuditLoggers.AuditLogger.constructor` | flight/audit_logger.py:20-33 | a restarted logger continues at the last readable entry |
| `AuditLoggers.AuditLogger.Log` | flight/audit_logger.py:37-76 | one record written at the end of the file, linked to the previous hash; glued to unterminated text if the file ends in it; the model's logging step |
| `AuditLoggers.AuditLogger.VerifyChain` | flight/audit_logger.py:78-124 | the loop reports the least bad index, link before hash, with the hashes it compared |
| `AuditLoggers.AuditLogger.ReadAllEntries` | flight/audit_logger.py:169-197 | exactly the parseable lines, in order |
| `AuditLoggers.LogsVerify` | flight/audit_logger.py:37-76 | on a file that ends in a line break or white space, any interleaving of logs and restarts keeps the chain verified, one entry more per log, none lost |
| `AuditLoggers.NoneLostIff` | flight/audit_logger.py:151-167 | over any logs and restarts with at least one log, there is one entry more per log if and only if the file did not end in unterminated text |
| `AuditLoggers.FirstLogKeptIff` | flight/audit_logger.py:164-167 | a new logger's first entry is kept under that condition only; otherwise it is lost with whatever record the text may have been |
| `AuditLoggers.LostRecordBreaksChain` | flight/audit_logger.py:72-76 | after such a loss the logger's next entry is the first break, at the index of the lost one |
| `AuditLoggers.CrashLeaves` | flight/audit_logger.py:151-167 | a crash inside a write leaves verified readable entries, at most one more; the next log is safe only if nothing was written |
| `AuditLoggers.CrashReadable` | flight/audit_logger.py:151-167 | what is readable after a crash at any point of a write, on any file |
| `AuditLoggers.AuditService.LogEvent` | ground/src/services/audit.js:37-75 | accepts exactly non-empty fields with known source and severity, and appends a linked row; refusals change nothing; a verified table stays verified |
| `AuditLoggers.AuditService.VerifyChain` | ground/src/services/audit.js:82-136 | the ground loop reports the least bad index, link before hash |
| `AuditLoggers.AuditService.InsertFlightEvent` | ground/src/ws/gateway.js:339-365 | a flight event with no empty field becomes a row under the message's time stamp with flight's own hashes; others are refused |
| `AuditLoggers.FlightTextDiffers` | ground/src/services/auditHash.js:12-19 | the text flight hashed differs from the one the ground recomputes, time stamps without bars |
| `AuditLoggers.FlightRowBreaksChain` | ground/src/ws/gateway.js:339-365 | a flight row breaks a verified ground table at exactly its index, whatever follows |
| `AuditLoggers.VerifyRoute` | ground/src/api/routes/events.js:26-80 | the route's loop reports the least bad index, hash before link |
| `JsonText.JsDecodable` | ground/ui/src/lib/crypto.js:71-73 | JavaScript's string escapes are prefix-free and never begin like the closing quote |
| `JsonText.PyDecodable` | flight/crypto_verifier.py:82-82 | so are Python's ASCII escapes, surrogate pairs included |
| `JsonText.Decode` | ground/ui/src/lib/crypto.js:71-73 | printed text reads back uniquely, also with text behind it, for numbers that are safe integers; what it reads back as is JsonReader.PrintParses |
| `JsonText.TextDecidesValue` | ground/ui/src/lib/crypto.js:71-73 | different values have different compact texts, for numbers that are safe integers |
| `JsonReader.JsReadable` | ground/ui/src/lib/crypto.js:71-73 | a reader of RFC 8259 strings (section 7), written without the printers, reads every character back from JavaScript's escape, whatever follows |
| `JsonReader.PyReadable` | flight/crypto_verifier.py:82-82 | and from Python's ASCII escape, surrogate pairs included |
| `JsonReader.PrintParses` | ground/ui/src/lib/crypto.js:71-73 | a reader of compact RFC 8259 text (sections 3 to 7: literals, safe integers, strings, brackets, commas, colons) reads the printed text of every value as that value |
| `JsonReader.JsEscapeForm` | ground/ui/src/lib/crypto.js:71-73 | JavaScript escapes exactly quote, backslash and control characters, seven of them in two characters and the rest as `\u` with lower-case digits |
| `JsonReader.PyEscapeForm` | flight/crypto_verifier.py:82-82 | Python escapes those and everything outside printable ASCII, in one code unit or two, with lower-case digits |
| `CanonicalJson.CanonDecides` | ground/ui/src/lib/crypto.js:81-92 | canonical forms are equal if and only if the values are equal up to object key order at every depth |
| `CanonicalJson.CanonTextDecides` | ground/ui/src/lib/crypto.js:71-92 | the canonical text decides the value up to key order, for every total key order and decodable escape |
| `CanonicalJson.CanonIsCanonical` | ground/ui/src/lib/crypto.js:81-92 | after sorting, keys ascend at every depth |
| `CanonicalJson.CanonKeepsMeaning` | ground/ui/src/lib/crypto.js:81-92 | sorting keys changes no key, no value and no array order |
| `CanonicalJson.CanonIdempotent` | ground/ui/src/lib/crypto.js:81-92 | sorting again changes nothing |
| `SignedText.PropertyOrderTotal` | ground/ui/src/lib/crypto.js:85-88 | the enumeration order of a sorted object, array-index keys first, is a strict total order |
| `SignedText.ArrayIndexIs` | ground/ui/src/lib/crypto.js:85-88 | exactly the shortest decimal texts of 0 to 2^32 - 2 are array indices |
| `SignedText.SortDeep` | ground/ui/src/lib/crypto.js:81-92 | the recursive loop, property by property, builds the canonical form of the visible value |
| `SignedText.PutAscending` | ground/ui/src/lib/crypto.js:86-88 | assigning keys in UTF-16 order keeps the enumeration order, also when array indices jump ahead |
| `SignedText.JsTextDecides` | ground/ui/src/lib/crypto.js:71-73 | the browser's text decides the value up to key order, `__proto__` members aside |
| `SignedText.DumpIsSortedPrint` | flight/crypto_verifier.py:80-83 | json.dumps with sort_keys is sorting first and printing then |
| `SignedText.PyTextDecides` | flight/crypto_verifier.py:80-83 | the flight text decides the value up to key order |
| `JsonReader.JsTextParses` | ground/ui/src/lib/crypto.js:71-73 | the text the browser signs is JSON text of the sorted visible value |
| `JsonReader.PyTextParses` | flight/crypto_verifier.py:80-83 | the text the flight software hashes is JSON text of the sorted value |
| `SigningAgreement.SortDeepIdempotent` | ground/ui/src/lib/crypto.js:81-92 | sortDeep twice is sortDeep once |
| `SigningAgreement.TextsAgreeIff` | flight/crypto_verifier.py:80-83 | for values whose numbers are integers up to 2^53 - 1 in size, browser and flight print one text if and only if every text is ASCII without delete, no key is `__proto__` and key orders agree |
| `SigningAgreement.PlainNamesAgree` | ground/ui/src/lib/crypto.js:86-88 | ASCII keys that are no array index always agree |
| `SigningAgreement.IndexKeysDisagree` | ground/ui/src/lib/crypto.js:86-88 | keys "10" and "9" come out in different orders |
| `KeyTexts.FromHexToHex` | flight/crypto_verifier.py:60-71 | hexadecimal text of a key reads back as the key |
| `KeyTexts.WrittenByHexIff` | flight/crypto_verifier.py:60-71 | a text is what bytes.hex writes if and only if it is an even number of lower-case digits |
| `KeyTexts.ReadsAsHexIff` | flight/crypto_verifier.py:43-51 | a text without white space is readable by bytes.fromhex if and only if it is an even number of digits of either case |
| `KeyTexts.HexAlphabet` | flight/crypto_verifier.py:43-51 | the hexadecimal digits of both cases, written out |
| `KeyTexts.FromHexConcat` | flight/crypto_verifier.py:43-51 | a readable text in front of another reads on its own and stays in front |
| `KeyTexts.FromHexPieces` | flight/crypto_verifier.py:43-51 | white space is no byte, a pair of digits is 16 times the first plus the second, anything else does not read |
| `KeyTexts.FromBase64ToBase64` | ground/ui/src/lib/crypto.js:36-37 | Base64 text reads back as the bytes (RFC 4648 section 4) |
| `KeyTexts.Base64Alphabet` | ground/ui/src/lib/crypto.js:148-156 | the 64 digits, written out (Table 1 of RFC 4648) |
| `KeyTexts.Base64OfThree` | ground/ui/src/lib/crypto.js:148-156 | the text of three bytes is the four base-64 digits of the number they make, then the rest |
| `KeyTexts.Base64OfTwo` | ground/ui/src/lib/crypto.js:148-156 | two last bytes: three digits of the number with a zero byte behind, and one equals sign |
| `KeyTexts.Base64OfOne` | ground/ui/src/lib/crypto.js:148-156 | one last byte: two digits and two equals signs |
| `KeyTexts.Base64ReadsAsHexIff` | ground/ui/src/lib/crypto.js:148-156 | Base64 text is readable as hexadecimal if and only if its digits happen to be hexadecimal; never for 32 or 64 bytes |
| `CommandExecution.TrustedIffListed` | flight/crypto_verifier.py:112-126 | after loading, a plan's key text is trusted if and only if it reads as hexadecimal and the file lists the lower-case spelling of those bytes |
| `CommandExecution.EntryTrustsIff` | flight/crypto_verifier.py:122-126 | a listed text makes some plan's key trusted if and only if it is a non-empty even number of lower-case digits |
| `CommandExecution.OtherSpellingTrustsNobody` | flight/crypto_verifier.py:122-126 | a file that spells a key in upper case or with spaces trusts nobody, not even that spelling |
| `CommandExecution.CryptoVerifier.constructor` | flight/crypto_verifier.py:112-126 | exactly the non-empty listed key texts are trusted |
| `CommandExecution.CryptoVerifier.Verify` | flight/crypto_verifier.py:32-58 | true exactly for non-empty parts, a trusted key and a signature that checks over the canonical hash |
| `CommandExecution.CryptoVerifier.AddTrustedKey` | flight/crypto_verifier.py:69-71 | adds that key, others unchanged |
| `CommandExecution.CryptoVerifier.RemoveTrustedKey` | flight/crypto_verifier.py:73-75 | removes that key, others unchanged |
| `CommandExecution.HashBindsCommands` | flight/crypto_verifier.py:80-83 | without a collision, command lists share a signed hash if and only if they are the same commands up to payload key order |
| `CommandExecution.Base64KeyTrustedIff` | ground/ui/src/lib/crypto.js:148-156 | a browser's key text is trusted if and only if its Base64 digits happen to be hexadecimal and spell a trusted key; a 32-byte key never is |
| `CommandExecution.Base64SignatureNeverVerifies` | ground/ui/src/lib/crypto.js:152-156 | no plan with the browser's text of a 64-byte signature verifies on board |
| `CommandExecution.HexSignatureVerifiesIff` | flight/crypto_verifier.py:32-58 | if both texts were hexadecimal, a plan of portable commands would verify if and only if its key is trusted and its signature checks over the browser's text |
| `CommandExecution.RespelledPlanVerifies` | ground/ui/src/lib/crypto.js:126-156 | only the spelling is wrong: a browser plan of portable commands under a trusted key verifies on board once its key and signature texts are respelled in hexadecimal |
| `PlanExecution.BrowserPlanRefused` | flight/cmd_executor.py:64-95 | every plan signed in the browser with a 32-byte key is refused as UNKNOWN_KEY and runs nothing, in any history and whatever keys are trusted |
| `PlanExecution.CmdExecutor.ExecuteSingle` | flight/cmd_executor.py:157-214 | runs a registered handler, logs EXECUTED or FAILED; a type without a handler counts as executed |
| `PlanExecution.CmdExecutor.RunCommands` | flight/cmd_executor.py:119-155 | handlers run for the commands up to and including the first that raises; EXECUTED entries are the successful prefix |
| `PlanExecution.CmdExecutor.ExecutePlan` | flight/cmd_executor.py:30-155 | gates in order, each reason exactly under its own condition on state, key bytes, texts and signature check; behind them COMPLETED if and only if no command fails; whole log and calls stated |
| `PlanExecution.FailFromIsFirst` | flight/cmd_executor.py:121-140 | the index at which execution stops is the first failing command, or the end |
| `PlanExecution.EveryCallAuthorised` | flight/cmd_executor.py:46-122 | over any history of plans, keys and handlers, every handler run comes from a NOMINAL, trusted, verified plan and a command up to the first failure |
| `PlanExecution.EmptyPlanRefused` | flight/crypto_verifier.py:39-40 | a plan without commands is refused as SIG_INVALID and runs nothing |
| `PlanExecution.CompletedPlansHaveCommands` | flight/cmd_executor.py:142-155 | in any history every completed plan had commands |
| `PlanExecution.RemovedKeyRefused` | flight/crypto_verifier.py:73-75 | once its key is removed, plans under it are refused as UNKNOWN_KEY throughout any history that does not add it again |
| `PlanGates.SubmitIs` | flight/cmd_executor.py:30-155 | receiving a plan: each of NOT_IN_NOMINAL, UNKNOWN_KEY and SIG_INVALID exactly under its own condition on state, key text and signature, with its log entries and no handler run; a plan past them runs one handler per registered command, in order, up to and including the first that raises, and logs PLAN_COMPLETED if and only if none does |
| `PlanGates.EveryPlanReceived` | flight/cmd_executor.py:30-155 | in any history every submitted plan does exactly that and its runs and entries stay: the converse of EveryCallAuthorised |
| `PlanGates.OnlyPlansRun` | flight/cmd_executor.py:218-224 | no other operation runs a handler; trusted keys and handlers are exactly those last added and not removed |
| `PlanGates.CommandsTextReads` | flight/crypto_verifier.py:80-83 | the hashed text is JSON text of the list of commands, each with command_type, payload and sequence_id in this order and the payload sorted |
| `PlanLifecycle.StatusNeverGoesBack` | ground/src/db/manager.js:283-308 | over any signs, uploads, ACKs and NACKs every change of status goes strictly forwards; COMPLETED and REJECTED stay |
| `PlanLifecycle.StatusEntered` | ground/src/ws/gateway.js:240-312 | each status is entered from another exactly so: SIGNED by a complete signature of a DRAFT, UPLOADED by a connected upload of a SIGNED plan in an open window, COMPLETED by the ACK that leaves an uploaded plan's commands all executed, REJECTED by a NACK of an uploaded plan; EXECUTING and DRAFT never remain entered |
| `PlanLifecycle.CommandsAfter` | ground/src/ws/gateway.js:240-312 | what each operation does to each command row: SENT by an upload, the named one by an ACK, FAILED by a NACK in whatever plan status |
| `PlanLifecycle.HowFarItCame` | ground/src/db/manager.js:246-308 | over any operations a draft has left DRAFT if and only if it was signed completely, and has gone beyond SIGNED if and only if an upload that went through followed such a signature |
| `PlanLifecycle.DraftLives` | ground/src/ws/gateway.js:240-312 | the whole life from DRAFT: signed and uploaded, EXECUTED-ACKs complete the plan if and only if they cover its commands, a NACK rejects it and fails them all, and flight's own ACKs leave it UPLOADED |
| `PlanLifecycle.StatusReads` | ground/src/ws/gateway.js:256-257 | a payload's status is read as the one it names, and as EXECUTED if it is absent, empty or zero |
| `PlanLifecycle.CompletesExactlyWhenCovered` | ground/src/ws/gateway.js:240-277 | from UPLOADED, EXECUTED-ACKs in any order, repeated or unknown, complete the plan exactly when every sequence_id was acknowledged |
| `PlanLifecycle.UploadStartsClean` | ground/src/api/routes/commandPlans.js:156-163 | an upload leaves UPLOADED with no command executed |
| `PlanLifecycle.AckChangesIff` | ground/src/ws/gateway.js:240-277 | an ACK payload changes a plan if and only if it carries command_seq_id as a known number and a readable status, and that command had another status or completion is due |
| `PlanLifecycle.FlightAckReads` | flight/comms_client.py:304-308 | from the payload flight builds, the gateway reads the plan and the status but no command number |
| `PlanLifecycle.FlightAcksChangeNothing` | flight/comms_client.py:304-308 | any number of flight's own ACK payloads, naming any commands and statuses, changes no plan |
| `PlanLifecycle.UploadedPlanLives` | ground/src/ws/gateway.js:240-277 | a signed plan, uploaded: under the gateway's field name it completes exactly when all are acknowledged, under flight's it stays UPLOADED |
| `PlanLifecycle.Store.SignPlan` | ground/src/db/manager.js:246-270 | a DRAFT with both texts becomes SIGNED with its commands unchanged; each refusal exactly under its own condition, changing nothing |
| `PlanLifecycle.Store.UpdateStatus` | ground/src/db/manager.js:283-308 | the six listed transitions happen, any other fails and changes nothing |
| `PlanLifecycle.Store.BulkUpdate` | ground/src/db/manager.js:359-363 | every command of the plan, and of no other |
| `PlanLifecycle.Gateway.HandleCommandAck` | ground/src/ws/gateway.js:240-288 | the handler is the model's ACK on that plan, other plans untouched |
| `PlanLifecycle.Gateway.HandleCommandNack` | ground/src/ws/gateway.js:290-315 | the handler is the model's NACK on that plan, other plans untouched |
| `PlanLifecycle.Gateway.UploadPlan` | ground/src/api/routes/commandPlans.js:108-163 | uploads exactly a SIGNED plan over a connected link in an active window, all commands SENT |
| `ContactWindows.LazyExpiryIsHistory` | flight/window_scheduler.py:65-71 | is_open is the natural phase and no unexpired latest force of the history |
| `ContactWindows.ForcesLeaveWindows` | flight/window_scheduler.py:141-214 | erasing all forces, clears and queries leaves natural phase, counters and transitions unchanged |
| `ContactWindows.RunConsistent` | flight/window_scheduler.py:174-214 | natural transitions alternate, each phase lasts at least its duration, counters count the log |
| `ContactWindows.CountersDiffer` | flight/window_scheduler.py:243-250 | window_id and total_completed differ by what phase and start mode dictate |
| `ContactWindows.NotesTell` | flight/window_scheduler.py:141-214 | in every history the callback has been told exactly what the log says: each natural change with its window, each forced closure, each release in an open phase |
| `ContactWindows.ForcesAreLogged` | flight/window_scheduler.py:141-214 | in every history the log holds all its forces and releases, in order |
| `ContactWindows.ChangesAreAtTicks` | flight/window_scheduler.py:141-214 | in every history natural changes are logged at times of ticks only |
| `ContactWindows.PhasesOnTime` | flight/window_scheduler.py:174-214 | with ticks at most g apart every phase also lasts less than its duration plus g, whatever is forced |
| `ContactWindows.RemainingTimesExact` | flight/window_scheduler.py:73-103 | unforced, the next tick changes the phase if and only if the reported time has passed |
| `ContactWindows.ForcedTimeIsForceEnd` | flight/window_scheduler.py:78-83 | under a timed force the reported time is when the force ends, the next opening only if the natural window is open |
| `ContactWindows.AnnouncementRightIff` | flight/window_scheduler.py:198-212 | the callback announces every natural opening and is right if and only if no force is on |
| `ContactWindows.WindowScheduler.constructor` | flight/window_scheduler.py:35-61 | the initial state |
| `ContactWindows.WindowScheduler.DoTick` | flight/window_scheduler.py:174-214 | one tick is the model's; true exactly when the phase changed |
| `ContactWindows.WindowScheduler.QueryOpen` | flight/window_scheduler.py:65-71 | the answer and the settled force |
| `ContactWindows.WindowScheduler.QueryTimeUntilNextOpen` | flight/window_scheduler.py:73-91 | the model's remaining time, a force end of zero read as no end |
| `ContactWindows.WindowScheduler.QueryTimeUntilClose` | flight/window_scheduler.py:93-103 | the model's remaining time |
| `ContactWindows.WindowScheduler.ForceWindowClosed` | flight/window_scheduler.py:141-157 | the latest force replaces any earlier one |
| `ContactWindows.WindowScheduler.ClearForce` | flight/window_scheduler.py:159-170 | the force is gone, the callback told only if the natural window is open |
| `RealPower.PowVanishes` | twin/twin_engine.py:55-61 | powers of a factor below one fall below every positive bound |
| `Thermal.ThermalModel.Predict` | twin/twin_engine.py:47-63 | the filled array is the Euler recursion; errors exactly for no steps, or a needed but empty profile |
| `Thermal.StepContracts` | twin/twin_engine.py:59-61 | one step leaves the share 1 - dt/(RC) of the distance to equilibrium |
| `Thermal.HeatBalance` | twin/twin_engine.py:54-60 | for every profile and step: what the node stores is what that step's power, or the profile's last, brings in less what flows off |
| `Thermal.ClosedForm` | twin/twin_engine.py:55-61 | constant power: T[n] - T_eq = (1 - dt/(RC))^n (T[0] - T_eq) |
| `Thermal.MonotoneTowards` | twin/twin_engine.py:55-61 | for 0 < dt <= RC the trajectory moves monotonically to T_eq |
| `Thermal.NeverCrossesIff` | twin/twin_engine.py:55-61 | it never crosses T_eq if and only if dt <= RC or it starts there |
| `Thermal.NeverReachesIff` | twin/twin_engine.py:132-138 | no horizon ever breaches if and only if start and equilibrium stay below the threshold (equality read exactly) |
| `Thermal.EventuallyReaches` | twin/twin_engine.py:132-138 | an equilibrium above the threshold breaches at some horizon |
| `Thermal.PowerMonotone` | twin/twin_engine.py:55-61 | pointwise larger power gives pointwise no lower temperature |
| `Thermal.OrderKeptIff` | twin/twin_engine.py:55-61 | that comparison holds for all profiles if and only if dt <= RC |
| `Thermal.BurstOvershoots` | twin/twin_engine.py:55-61 | with dt > RC a burst of power leaves a lower temperature than none |
| `Energy.EnergyModel.constructor` | twin/twin_engine.py:68-72 | a missing or zero capacity or charge power is replaced by the default |
| `Energy.EnergyModel.Predict` | twin/twin_engine.py:74-89 | the filled array is the clipped recursion, with the same errors |
| `Energy.SocInRange` | twin/twin_engine.py:85-87 | after one step the charge is in [0, 1] for any start and loads |
| `Energy.SocClosedForm` | twin/twin_engine.py:82-87 | constant load, start in [0, 1]: the clipped loop is clip(SOC0 + n rate) at every n |
| `Energy.SocFromAnyStart` | twin/twin_engine.py:79-87 | constant load, any start: from the first step on, clip(clip(SOC0 + rate) + (n - 1) rate) |
| `Energy.EnergyConserved` | twin/twin_engine.py:74-90 | for every load profile, while the charge stays off both ends the stored joules change by exactly what charging brings in over what the loads take |
| `Energy.FollowsLineIff` | twin/twin_engine.py:79-87 | the forecast is clip(SOC0 + n rate) at every step if and only if the start is in [0, 1] |
| `Energy.SocAntitone` | twin/twin_engine.py:82-87 | more load at every step never leaves more charge |
| `Energy.DepletedExactly` | twin/twin_engine.py:207-213 | step n is at or below the threshold if and only if the unclipped line is |
| `Energy.NeverDepletesIff` | twin/twin_engine.py:207-213 | no horizon ever depletes if and only if the start is above the threshold and load does not exceed charging |
| `Forecasts.FindBreach` | twin/twin_engine.py:132-138 | the search returns the first value at or beyond the threshold, above it for a temperature and below it for a charge, or none |
| `Forecasts.MeanPowerIs` | twin/twin_engine.py:249-266 | the mean is over the latest five records, or all if fewer, with missing readings replaced |
| `Forecasts.AssumedPower` | twin/twin_engine.py:249-270 | which power each forecast assumes, with the constants 2 W, 0.03 W per percent, 50 percent and 4 W |
| `Forecasts.StepsFit` | twin/twin_engine.py:104-104 | the forecast has as many whole steps as fit into the horizon |
| `Forecasts.MeanPowerBounds` | twin/twin_engine.py:249-266 | the assumed power lies between the least and greatest of the recent readings |
| `Forecasts.PredictionEngine.PredictThermal` | twin/twin_engine.py:99-174 | the thermal forecast: constant assumed power, first breach, lead time; flat without telemetry |
| `Forecasts.PredictionEngine.PredictEnergy` | twin/twin_engine.py:176-246 | the energy forecast likewise |
| `Forecasts.LongerHorizonKeepsBreach` | twin/twin_engine.py:176-246 | a longer horizon extends the energy forecast and keeps a found breach |
| `Forecasts.LongerHorizonKeepsThermalBreach` | twin/twin_engine.py:99-174 | so for the thermal forecast |
| `Forecasts.MorePowerBreachesNoLater` | twin/twin_engine.py:132-138 | pointwise larger power breaches no later |
| `Forecasts.MoreLoadDepletesNoLater` | twin/twin_engine.py:207-213 | pointwise larger load depletes no later |
| `Alerts.AlertIff` | twin/alert_engine.py:40-78 | an alert is raised if and only if the forecast starts off the threshold and reaches it later; it tells kind, first breach and lead time, is CRITICAL if and only if some value reaches the critical limit, and meets the requirement if and only if the lead is at least the useful minimum |
| `Alerts.ThermalCriticalIff` | twin/alert_engine.py:91-97 | for dt <= RC a thermal alert is CRITICAL if and only if the last predicted value reaches the critical temperature |
| `Alerts.GradedByLastIff` | twin/alert_engine.py:91-97 | that holds of every alert of a step length and horizon if and only if dt <= RC, or there are at most two steps, or dt = 2RC with an even number of steps |
| `Alerts.OvershootPeaksEarly` | twin/alert_engine.py:93-97 | in every other case one telemetry record and thresholds give a CRITICAL alert whose last value is below critical |
| `Alerts.LastIsPeak` | twin/alert_engine.py:93-95 | where the condition holds no value of an alerting forecast exceeds the last |
| `Alerts.EnergyCriticalIff` | twin/alert_engine.py:99-103 | an energy alert is CRITICAL if and only if the last predicted charge is at the critical level or below |

## Left out

- WebSocketTransport, Express routing, Knex and PostgreSQL, HTTP, systemd and subprocess calls: plumbing; rows, files and queues are abstract state.
- A socket that loses accepted data, and the Node gateway's acknowledgement payload: outside the zero-loss claim.
- SHA-256 and Ed25519: parameters, with the assumptions stated where they are used.
- React views, fault-injection scripts, evidence data, sensor simulation: readings are arbitrary inputs of each tick.
- Timestamps, rationale strings, rounding to 2, 4 or 6 decimals, IEEE floating point: times and temperatures are reals.
- JSON numbers other than integers up to 2^53 - 1 in size: fractions and larger magnitudes, which the two printers write differently, are not modelled.
- Strings with lone surrogates, and `undefined`, in JSON values.
- Thread locks: locked methods are atomic steps; `current_window_info`, which enters its own lock again, is not modelled.
- Comms.CommsClient.constructor: a client over a non-empty queue is not modelled; its numbering restarts at 1 and collides with the stored ids.
- Comms.CommsClient.Send: ids from one million on are not modelled, where the file names of the queue sort wrongly.
- DiskQueues.DiskQueue.RemoveUpTo: an unlink that fails, which the source skips and does not count, is not modelled.
- Other failing file operations than a crash between them, unreadable or malformed key files, and `DiskQueue.clear`.
- Queue file names that Python's `int` accepts and decimal digits do not cover (signs, spaces, underscores), and negative ids.
- JSON text of envelopes and audit lines: a file or line is a whole record, or does not parse; an audit line that is JSON but no object, which makes the reader raise, is not modelled.
- Audit events of connect, disconnect and self-test, state-change callbacks of the flight core, and a callback that raises.
- FlightCore.FswCore.Tick: one clock reading a tick, where the source takes one per test of the time; so for the window scheduler's calls.
- The unseparated ground records as a commitment: they are ambiguous, so commitment is proved for the flight form only.
- Plan commands lacking a field, the null public key that the upload route sends when the request names none, an audit logger that raises while a command is logged, and handlers' own effects: a handler is a run in the trace and whether it raised.
- Command rows after late messages: a rejection rewrites them even when the plan is already final, so nothing ties them to the plan status there.
- Telemetry values of null, and the forecast's metadata, timestamps and rate per minute.
- Contact-window records, telemetry queries, configuration parsing.
- A queued plan without content, which the mock gateway takes for none.
- Comms.CommsClient.DrainReceives: the clock is an arbitrary reading per receive, so it says nothing about elapsed time.
- Forecasts.PredictionEngine.PredictThermal: the lead time is exact, not rounded to two decimals.
- Forecasts.PredictionEngine.PredictEnergy: the lead time is exact, not rounded to two decimals.
- Comms.CommsClient.ComputeP95: the sample is not rounded to two decimals.
- PlanLifecycle.Gateway.HandleCommandAck: an executed_at that the database refuses, which undoes the update, is not modelled.
- Thermal.ThermalModel.Predict: a thermal resistance or capacitance of zero, where floating point yields infinities, is not modelled.
- Energy.EnergyModel.Predict: no division by a capacity of zero is modelled; with the shipped defaults none can occur.
