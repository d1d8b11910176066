# Phantex: a verified model of delivery, limiting and the engines around them

This project states and proves what the telemetry pipeline of the Phantex backend, its Go SDK and its
scripts promise. Every theorem is about all inputs, all interleavings or all runs; where the code does
not keep a promise, the exact condition under which it does is proved instead, with the failing case as
a witness.

`dafny verify dfyconfig.toml` checks the whole project.

## Layout

| file | about |
|---|---|
| `Decoding.dfy`, `DeliveryProtocol.dfy`, `ProtocolSteps.dfy`, `Durability.dfy`, `ConsumerMetrics.dfy`, `StorageConsumer.dfy` | the Kafka consumer: decoding one message; the protocol as a state machine over its await points (reads, retries, dead letters, commits, reconnects, `stop`, cancellation, death of the process); what each step moves; what a commit promises and how the counters balance; and the object with its buffer and counters, each method of which is proved to be a run of that machine |
| `PgWriter.dfy`, `AgentRows.dfy`, `StoredColumns.dfy`, `Replays.dfy`, `PostgresStore.dfy`, `ExactlyOnce.dfy` | the Postgres writer as a list of statements, what it leaves column by column, several batches and deliveries that start over, the methods that run them row by row, and the composition: at-least-once delivery over first-wins inserts stores every message exactly once |
| `TokenBuckets.dfy`, `SlidingLog.dfy`, `FixedWindow.dfy` | the rate limiters and why the state they forget cannot be noticed |
| `SiemFanout.dfy` | the SIEM fan-out: buffering per tenant, deliveries whose retries run into the limiter made for them, the integration cache |
| `Transports.dfy`, `TransportProgress.dfy`, `TransportOrder.dfy`, `Subsequences.dfy` | the Go SDK's HTTP, gRPC and in-memory transports, what they get done, and exactly when gRPC keeps the order |
| `TrustGraph.dfy`, `Flows.dfy` | damped propagation for any graph and any number of steps, penalties, injection, decay |
| `Cef.dfy`, `CefFields.dfy`, `Utf8.dfy`, `CodePoints.dfy`, `Uuid7.dfy`, `Bits.dfy`, `Text.dfy` | printing and reading back |
| `Subscriptions.dfy`, `KeyedRows.dfy` | keyset polling and the drop-oldest alert queue |
| `Schedule.dfy`, `PolicyEngine.dfy`, `PolicyScope.dfy`, `PolicyConsumer.dfy` | policy schedules, the policy fold on values, what each policy and rule contributes, and the same fold on the heap with the references it shares with its caller |
| `RuleEngine.dfy` | capped evaluation, counters and hot reload |
| `Compliance.dfy`, `ScoreCache.dfy`, `OrderedDict.dfy` | scan locks with eviction, the scorecard cache, and the insertion-ordered dictionary under both |
| `McpRegistrar.dfy` | deriving servers from tool names and counting sightings |
| `ModelPackages.dfy`, `MemberPaths.dfy`, `Paths.dfy` | model packages: install and roll back, and where their members go |
| `Options.dfy` | the optional value the other files share |

Where the source updates an object, a class does; each method's contract equates the new state with a
function of the old one, and the lemmas are about that function. Clocks, storage outcomes, the rule
evaluator and the network's answers are parameters. Clocks do not run backwards, and times are reals.

## Where the code and its own text disagree

- The base consumer asks `process_batch` to be idempotent. The Postgres writer is, for a batch, exactly when the
  batch has no event with an id, or the timestamps of its events with an id and of those with an agent parse
  (`PgWriter.IdempotentIff`; for the events table alone those with an id suffice, `PgWriter.AbsorbedIffStampsParse`).
  The MCP registrar is exactly when the batch sights nothing (`McpRegistrar.RedeliveryAbsorbedIff`).
- An offset may be committed for an event that is kept nowhere, because a failed dead-letter send is only
  logged. For every configuration committed events are kept exactly when such sends cannot fail
  (`Durability.KeepsCommittedIff`).
- `apply_policy_rules` says that the original event is not mutated. Its metadata list and parameter dictionary
  are shared: `PolicyConsumer.ApplyPoliciesToEvent` says what the caller finds, also when the call raises, and for
  exactly which inputs that is what it passed in.
- The comment on INV-3 claims its bound for N >= 1; it holds exactly for N >= 3 (`TrustGraph.InjectionFailsIff`).
- `SafeSerialize` promises at most `maxBytes` bytes; it panics for a limit below 3, and its text for a value that
  cannot be marshalled ignores the limit (`Utf8.SafeSerialize`).
- The SIEM fan-out names a dead-letter queue after its retries; there is none, the batch only enters the error
  count. Its per-minute limit is kept in an object made anew for each delivery, so it bounds the attempts of one
  delivery window by window (`SiemFanout.RetriesCutByLimit`) and a minute only delivery by delivery
  (`SiemFanout.FreshBound`). For n deliveries, retries counted, the limit is kept in every minute exactly when
  n is at most 1 and the attempts within a minute share a window, or nothing can be sent at all
  (`SiemFanout.LimitKeptIff`).
- The event stream orders and pages by (created_at, id), but the table's key is (id, timestamp), so two rows may share
  a cursor. A run of polls delivers all it should exactly when no page ends between two such rows
  (`Subscriptions.PollingRefinesScan`); otherwise a row is never delivered (`Subscriptions.SplitPageLosesRow`).
- The bound d / (N + 1) on what an injected node adds is taken for granted; a step keeps it, for every graph, exactly
  when the node's score is at most 1 / (N + 1) (`TrustGraph.LiftBoundIff`).
- The path check of the model installer compares strings. A relative member that it accepts stays inside the target;
  an absolute one exactly when a separator follows the target's name (`MemberPaths.AcceptedInsideIff`).
- The SDK treats its transports as interchangeable. HTTP keeps the order of the sends exactly for a well-formed
  endpoint (`Transports.HttpFifoIffEndpointOk`), gRPC exactly in the runs in which no call succeeds after one that
  failed in the same flush (`TransportOrder.GrpcInOrderIff`).
- An active-hours string with nothing after its only dash raises instead of being allowed as malformed
  (`Schedule.RaisesIff`).

## Model

| member | source | states |
|---|---|---|
| Decoding.AcceptedOnTenantTopic | backend/app/consumers/base_consumer.py:319-372 | on a tenant topic only JSON objects or decoded protobufs reach the buffer, always with a tenant, and a message's own tenant is never overwritten by the topic's |
| Decoding.AcceptedIff | backend/app/consumers/base_consumer.py:302-372 | exactly which messages reach the buffer, and as what: none over 1 MiB and none from a topic whose suffix is not a UUID; JSON first if it starts with a brace, then protobuf, then JSON; on a tenant topic an object, given the topic's tenant unless it has one, all else kept |
| Decoding.RejectedIff | backend/app/consumers/base_consumer.py:302-371 | exactly which messages are counted as errors and skipped: oversized ones, bytes that are neither JSON nor protobuf, and readable ones on a topic whose suffix is not a UUID |
| Decoding.RaisesIff | backend/app/consumers/base_consumer.py:306-370 | exactly which messages make decoding raise and so end the read loop, on every topic: uncaught decoder errors, and on a tenant topic also empty values and JSON that is not an object |
| DeliveryProtocol.StepKeepsOneFlush | backend/app/consumers/base_consumer.py:204-394 | the consumer coroutine and `stop` both start flushes, yet at most one is ever in progress |
| DeliveryProtocol.StepKeepsInv | backend/app/consumers/base_consumer.py:204-434 | every step of the protocol keeps: all committed offsets are settled, all read ones are settled or still in memory, and only one flush runs |
| DeliveryProtocol.CommitPositionSafe | backend/app/consumers/base_consumer.py:374-379 | committing all positions is safe at the moment the loop does it, because nothing read is in memory then |
| DeliveryProtocol.RunKeepsInv | backend/app/consumers/base_consumer.py:204-434 | the invariant holds along every run |
| DeliveryProtocol.CommitNeverOvertakes | backend/app/consumers/base_consumer.py:204-434 | in every run from start-up, whatever the crashes, reconnects, failures and stops, each offset below the committed one was stored by a successful batch, refused by the decoder, or offered to the dead-letter queue |
| ProtocolSteps.CommittedMoves | backend/app/consumers/base_consumer.py:204-379 | the committed offsets move exactly when a commit on its way reaches the broker, unseen ones included, and then to the positions |
| ProtocolSteps.PositionMoves | backend/app/consumers/base_consumer.py:260-302 | a position moves by one for each message read, and back to the committed offset on connecting |
| ProtocolSteps.ProducerIs | backend/app/consumers/base_consumer.py:277-384 | there is a producer from connecting until the read loop is left |
| ProtocolSteps.StopSteps | backend/app/consumers/base_consumer.py:204-239 | stopping first flushes what waits, then cancels the coroutine and drops the batch it had in flight |
| ProtocolSteps.DeathLeaves | backend/app/consumers/base_consumer.py:204-434 | the death of the process leaves the log and what became of the messages, and nothing in memory |
| Durability.CommittedIsDurable | backend/app/consumers/base_consumer.py:387-434 | if no dead-letter send fails, everything below the committed offset is stored, refused or acknowledged by the dead-letter topic |
| Durability.FailedSendLosesCommittedEvent | backend/app/consumers/base_consumer.py:414-434 | and that condition is needed: for every configuration a run with one failed send commits an event kept nowhere |
| Durability.KeepsCommittedIff | backend/app/consumers/base_consumer.py:387-434 | for every configuration, whatever is committed in any run is kept somewhere if and only if dead-letter sends cannot fail |
| Durability.NoCommitPastRaising | backend/app/consumers/base_consumer.py:240-379 | a message whose decoding raises stops its partition for ever: no run commits past it, whatever restarts and reconnects it has |
| ConsumerMetrics.RunKeepsBalance | backend/app/consumers/base_consumer.py:300-434 | in every state of every run each message consumed is in exactly one place, and the acknowledged dead letters never exceed the offered ones |
| ConsumerMetrics.ConsumerAccounting | backend/app/consumers/base_consumer.py:300-434 | at every loop head of a run without `stop` whose messages decode to objects, consumed = rejected + buffered + written + offered, and the buffer is shorter than the batch size |
| StorageConsumer.BaseStorageConsumer.HandleMessage | backend/app/consumers/base_consumer.py:300-379 | one turn of the read loop is a run of the protocol; for each decoding outcome what the buffer, the fates, the counters, the position and the committed offsets are afterwards, and whether the loop goes on |
| StorageConsumer.BaseStorageConsumer.Buffer | backend/app/consumers/base_consumer.py:372-379 | when the batch is full or the interval is over it is flushed and the offsets are committed up to the positions: the loop goes on if the commit succeeds and is left if it does not, with the offsets moved or not; else the event waits and nothing is committed |
| StorageConsumer.BaseStorageConsumer.FlushAndCommit | backend/app/consumers/base_consumer.py:376-379 | the flush is followed by the commit, whatever became of the batch |
| StorageConsumer.BaseStorageConsumer.FlushBuffer | backend/app/consumers/base_consumer.py:387-434 | the batch leaves the buffer; it is stored and counted if any attempt succeeds, else each event is offered and the acknowledged ones are counted; offsets stay |
| StorageConsumer.BaseStorageConsumer.Store | backend/app/consumers/base_consumer.py:396-412 | the retry loop stores the batch once exactly when one of the allowed attempts succeeds |
| StorageConsumer.BaseStorageConsumer.SendToDlq | backend/app/consumers/base_consumer.py:417-434 | every event is offered once, acknowledged ones are counted, failed ones only logged |
| StorageConsumer.BaseStorageConsumer.Stop | backend/app/consumers/base_consumer.py:213-239 | stopping an idle consumer flushes what waits, stored or offered, and commits nothing |
| PgWriter.FirstWins | backend/app/consumers/pg_writer.py:118-133 | a new key of the events table holds the first row inserted under it |
| PgWriter.InsertAllKeeps | backend/app/consumers/pg_writer.py:118-133 | inserting only adds: old rows stay as they are and every inserted key is there |
| PgWriter.InsertPrefixAbsorbed | backend/app/consumers/pg_writer.py:118-133 | inserting any prefix of the rows and then all of them is inserting them all |
| PgWriter.AgentsTwice | backend/app/consumers/pg_writer.py:135-213 | running all agent statements of a batch twice leaves the agents table as once |
| PgWriter.AgentPrefixAbsorbed | backend/app/consumers/pg_writer.py:135-213 | so does running any prefix of them first |
| PgWriter.FailedAttemptAbsorbed | backend/app/consumers/pg_writer.py:78-213 | when the timestamps of events with an id or an agent parse, an attempt that got any part of the way, then a complete one, leave both tables as the complete one alone |
| PgWriter.RedeliveryAbsorbed | backend/app/consumers/pg_writer.py:78-213 | when the timestamps of events with an id or an agent parse, processing a batch twice leaves both tables as after once |
| PgWriter.AbsorbedIffStampsParse | backend/app/consumers/pg_writer.py:85-133 | the events table absorbs a redelivery at any time if and only if every event with an id has a timestamp that parses |
| PgWriter.UpdatedAtLeast | backend/app/consumers/pg_writer.py:139-157 | a known agent is updated no earlier than any of the batch's events of it |
| PgWriter.IdempotentIff | backend/app/consumers/pg_writer.py:23-157 | whatever the two tables hold and whenever it comes, a second delivery changes neither if and only if the batch has no event with an id, or the timestamps of its events with an id and of those with an agent all parse |
| StoredColumns.NewRowTells | backend/app/consumers/pg_writer.py:85-133 | every row a batch adds is that of one of its events, column by column: id, tenant, agent, sensor, type, payload, its timestamp or the clock's, and the severity by the type or else lower-cased, "info" by default |
| StoredColumns.EventHasRow | backend/app/consumers/pg_writer.py:85-133 | every event with an id has a row under its id and timestamp, and old rows stay as they were |
| StoredColumns.AgentColumns | backend/app/consumers/pg_writer.py:135-213 | every agent after a batch, column by column: created by its first discovery, each known field the latest known, last seen at the latest of its events, active again if it was stale or offline |
| StoredColumns.LatestIs | backend/app/consumers/pg_writer.py:196-203 | a field of an agent is what the last discovery that knows it says, and as before if none does |
| StoredColumns.NothingToInsert | backend/app/consumers/pg_writer.py:115-116 | a batch without an event with an id writes nothing, to the agents neither |
| Replays.RanTwice | backend/app/consumers/pg_writer.py:135-213 | any mix of agent upserts and touches, run twice, leaves the agents table as once |
| Replays.BatchesRedelivered | backend/app/consumers/pg_writer.py:78-213 | any number of batches whose used timestamps parse, delivered again in order and cut at the same places, leave both tables as once |
| Replays.ReplayAbsorbed | backend/app/consumers/pg_writer.py:78-213 | at-least-once: batches, the next one up to any statement, then all of them again from the start, leave both tables as each of them once |
| Replays.RecutNotAbsorbed | backend/app/consumers/pg_writer.py:135-213 | cut at other places a replay is not absorbed: any event of an agent followed by a discovery of it with an older timestamp, first in one batch and then in two, changes the agents table |
| PostgresStore.Store.ProcessBatch | backend/app/consumers/pg_writer.py:78-157 | the loops that build the statements and run them row by row compute `PgWriter.Process` |
| PostgresStore.Store.InsertRows | backend/app/consumers/pg_writer.py:119-133 | the executed inserts leave the table of the insert fold |
| PostgresStore.Store.UpsertAgents | backend/app/consumers/pg_writer.py:135-137 | likewise for the agent upserts |
| PostgresStore.Store.TouchAgents | backend/app/consumers/pg_writer.py:147-157 | likewise for the last-seen updates |
| ExactlyOnce.RunKeepsHistory | backend/app/consumers/base_consumer.py:300-412 | in every run, whatever is buffered, in flight or stored was read at the offset it claims, and everything settled as handled is in a stored batch |
| ExactlyOnce.StoredExactlyOnce | backend/app/consumers/pg_writer.py:85-133 | from an empty table, through any run and any redelivery, every handled message with an id has its own row under its id and timestamp, each column the event's field, if the messages read with an id have timestamps that parse and do not clash |
| ExactlyOnce.NothingInvented | backend/app/consumers/pg_writer.py:85-133 | and every row of the table is, column by column, that of some message read |
| ExactlyOnce.CommittedIsStored | backend/app/consumers/base_consumer.py:374-442 | below the committed offset a message with an id is in the events table unless it was refused or dead-lettered |
| TokenBuckets.TokensConserved | backend/app/middleware/rate_limit.py:27-43 | over any call sequence, admitted calls plus tokens left are at most the tokens at the start plus the refill, and stored tokens stay within the capacity |
| TokenBuckets.WindowBound | backend/app/middleware/rate_limit.py:27-43 | any stretch of length T of one key's calls admits at most capacity + rate * T of them |
| TokenBuckets.KeyWindowBound | backend/app/middleware/rate_limit.py:27-50 | and so it is for each key within any run over any keys, with cleanups in between at ages by which an entry has filled up |
| TokenBuckets.KeyWindowBoundIff | backend/app/middleware/rate_limit.py:27-50 | for cleanups at one age that bound holds in every run if and only if an entry that old has filled up, or the capacity is 0 |
| TokenBuckets.BurstFromFull | backend/app/middleware/rate_limit.py:31-40 | a key that finds k tokens is admitted its next n <= k calls at once, which cost exactly n |
| TokenBuckets.BurstRefused | backend/app/middleware/rate_limit.py:38-43 | and a burst larger than the tokens is refused somewhere |
| TokenBuckets.RefusedCallUnobservable | backend/app/middleware/rate_limit.py:27-43 | deleting a refused call from a run changes no other answer |
| TokenBuckets.CleanupUnobservable | backend/app/middleware/rate_limit.py:45-50 | cleanups interleaved with calls on any keys change no answer when rate * max_age covers the capacity |
| TokenBuckets.EarlyCleanupObservable | backend/app/middleware/rate_limit.py:45-50 | and otherwise some run has an answer changed by one |
| TokenBuckets.DeployedLimitersForgettable | backend/app/middleware/rate_limit.py:52-62 | all three deployed limiters meet the condition at the default age |
| TokenBuckets.TokenBucket.Allow | backend/app/middleware/rate_limit.py:27-43 | the method answers and updates one key as the step function, leaving all other keys |
| TokenBuckets.TokenBucket.CleanupStale | backend/app/middleware/rate_limit.py:45-50 | exactly the keys idle for longer than the age are removed, the others stay as they were |
| SlidingLog.PruningUnobservable | backend/app/routers/cloud_telemetry.py:86-94 | a pruned log shows the same last minute as the full history, from now on |
| SlidingLog.RefusedIffHistoryFull | backend/app/routers/cloud_telemetry.py:86-94 | a request is refused if and only if 120 accepted requests of the unpruned history lie in the last minute |
| SlidingLog.MinuteBound | backend/app/routers/cloud_telemetry.py:75-94 | no half-open minute of any run of one IP's requests, without evictions, admits more than 120, wherever it starts |
| SlidingLog.EvictionUnobservableIff | backend/app/routers/cloud_telemetry.py:81-84 | evicting an IP changes none of its later answers if and only if its last accepted request is at least a minute old |
| SlidingLog.OldestIs | backend/app/routers/cloud_telemetry.py:79-86 | the IP that is evicted is one whose last request is longest ago |
| SlidingLog.IndependentUnlessEvicted | backend/app/routers/cloud_telemetry.py:81-94 | an IP that is never evicted is limited by its own requests alone, whatever the others do |
| SlidingLog.RefusedIffOwnHistoryFull | backend/app/routers/cloud_telemetry.py:75-94 | in any run over the table, a request of an IP that was evicted, if ever, only when idle for a minute is refused if and only if 120 of its accepted requests, none forgotten, lie in the last minute |
| SlidingLog.IpMinuteBound | backend/app/routers/cloud_telemetry.py:75-94 | and no half-open minute of such a run admits more than 120 of its requests |
| SlidingLog.IpLimiter.Check | backend/app/routers/cloud_telemetry.py:75-94 | the whole check: its answer, the evicted IP (one idle for longest, only for a new IP in a full table) and the new table, which stays within its cap with sorted, non-empty logs |
| SlidingLog.IpLimiter.EvictOldest | backend/app/routers/cloud_telemetry.py:82-84 | the scan removes an IP whose newest entry is the oldest, and nothing else |
| FixedWindow.MinuteInvariant | backend/app/integrations/base.py:55-68 | what any given minute has used up is bounded by the current window's start and count, after every call |
| FixedWindow.TwiceTheLimit | backend/app/integrations/base.py:55-68 | any closed 60 s interval of any run admits at most twice the limit |
| FixedWindow.TwiceTheLimitReached | backend/app/integrations/base.py:55-68 | and some run reaches that |
| FixedWindow.CountIsAdmittedSinceReset | backend/app/integrations/base.py:55-68 | the counter is exactly what was admitted since the last reset, and at most the limit |
| FixedWindow.SIEMIntegration.CheckRateLimit | backend/app/integrations/base.py:55-68 | the weighted limiter's answer and new state |
| FixedWindow.NotificationChannel.CheckRateLimit | backend/app/notifications/base.py:51-61 | the notification limiter is step for step the weighted one at count 1 |
| SiemFanout.BufferPartitions | backend/app/consumers/siem_consumer.py:125-146 | each tenant's list holds that tenant's alerts, all of them, in order of arrival |
| SiemFanout.AlertsAre | backend/app/consumers/siem_consumer.py:132-146 | a tenant's list has exactly the alerts that came under its topic |
| SiemFanout.CountedOnceIff | backend/app/consumers/siem_consumer.py:184-223 | for exactly which platforms and retry numbers a delivery enters the totals once, as sent or as errors, read off the first attempt that does not pass, whether closing raises, and whether any attempt is allowed |
| SiemFanout.EndIsDecided | backend/app/consumers/siem_consumer.py:196-212 | a delivery ends at the first attempt its limiter refuses or the platform does not answer with a retryable error, or at the last one allowed, and as that attempt says |
| SiemFanout.AttemptsUseUpLimit | backend/app/consumers/siem_consumer.py:189-200 | every attempt of a delivery, failed or not, uses up the batch's size again in the limiter's window it falls into, one that is refused nothing |
| SiemFanout.RetriesCutByLimit | backend/app/consumers/siem_consumer.py:196-212 | against a platform that keeps failing a delivery makes all its retries if and only if those that share a window of its limiter fit the limit together; otherwise it ends at the first that does not |
| SiemFanout.PauseIs | backend/app/consumers/siem_consumer.py:212 | the pauses between attempts: 2, 4, 8, 16, and then 30 s each |
| SiemFanout.OneWindowBound | backend/app/consumers/siem_consumer.py:189-212 | a delivery whose attempts in an interval share a window brings at most its limit in it, retries included |
| SiemFanout.FreshBound | backend/app/consumers/siem_consumer.py:189-212 | with a limiter made for each delivery, a minute admits, retries included, at most the limit for each delivery whose attempts in it share a window, and twice the limit for each other one that attempts in it |
| SiemFanout.FreshBoundReached | backend/app/consumers/siem_consumer.py:189-212 | both bounds are reached: n deliveries can bring n times the limit in one minute, and twice that when they try again as their windows end, the pauses between attempts kept |
| SiemFanout.LimitKeptIff | backend/app/consumers/siem_consumer.py:189-212 | n deliveries keep the limit in every minute, whatever their times, sizes and answers, if and only if nothing may be sent, nothing is attempted, or there is at most one and its attempts within a minute share a window |
| SiemFanout.NoBoundPerMinute | backend/app/consumers/siem_consumer.py:189-212 | so for any amount there is a minute in which more is admitted |
| SiemFanout.CacheIsolatesTenants | backend/app/consumers/siem_consumer.py:225-248 | what a tenant's lookups answer depends on its own lookups alone |
| SiemFanout.CachedIsSuccessfulRead | backend/app/consumers/siem_consumer.py:225-248 | a cached answer is a successful read of this very tenant, and on a hit one younger than 60 s |
| SiemFanout.CacheIsYoung | backend/app/consumers/siem_consumer.py:225-248 | whenever the database could be read something is cached that is less than 60 s older |
| SiemFanout.AnswerIs | backend/app/consumers/siem_consumer.py:225-248 | a lookup answers what is cached while that is younger than 60 s, else what the database says, else what is cached however old, else nothing |
| SiemFanout.SIEMFanoutConsumer.SendToIntegration | backend/app/consumers/siem_consumer.py:174-223 | the retry loop with its limiter object and counters computes that delivery |
| SiemFanout.SIEMFanoutConsumer.GetIntegrations | backend/app/consumers/siem_consumer.py:225-248 | the lookup, falling back to a stale answer when the read fails |
| SiemFanout.SIEMFanoutConsumer.BufferAlert | backend/app/consumers/siem_consumer.py:135-146 | one alert into its tenant's list, malformed ones and those without a tenant dropped |
| Transports.HttpExactFifo | sdk/go/transport.go:289-348 | in every state delivered bodies followed by the buffer are the accepted sends in order, minus what cannot be serialized |
| Transports.HttpFifoIffEndpointOk | sdk/go/transport.go:328-331 | that holds for all runs if and only if the endpoint is well formed: a malformed one drops its batch |
| TransportProgress.SerializableIs | sdk/go/transport.go:316-326 | posted are exactly the events that serialize, in order and as often as they were sent |
| TransportProgress.HttpAccepts | sdk/go/transport.go:286-300 | accepted are the sends before the first close, whatever becomes of the flushes |
| TransportProgress.HttpRefusesClosed | sdk/go/transport.go:286-300 | from the first close on a send is refused and changes nothing |
| TransportProgress.HttpDrains | sdk/go/transport.go:286-348 | after any run, a flush that is answered, asked for or by a full batch or by closing, leaves nothing waiting and everything accepted posted; one that is not answered posts nothing and loses nothing |
| TransportProgress.LessThanABatch | sdk/go/transport.go:286-348 | while all flushes are answered less than a batch waits |
| TransportProgress.MalformedPostsNothing | sdk/go/transport.go:328-331 | over a malformed endpoint nothing is ever posted and each flush forgets its batch |
| Transports.HTTPTransport.SendEvent | sdk/go/transport.go:289-300 | the method is the send step, and exactly when it returns an error |
| Transports.HTTPTransport.FlushLocked | sdk/go/transport.go:308-348 | the method is the flush step: truncate, serialize, post, put the batch back in front on failure |
| Transports.HTTPTransport.CloseTransport | sdk/go/transport.go:363-370 | closing flushes once and refuses later sends |
| Transports.GrpcConserves | sdk/go/transport.go:138-207 | sends = delivered + unconvertible + buffered as multisets, and the buffer is a subsequence of the sends, in every state |
| Transports.GrpcReorders | sdk/go/transport.go:166-184 | delivery order is not always kept: a failed call lets later events overtake |
| TransportProgress.GrpcAccepts | sdk/go/transport.go:138-149 | gRPC too accepts exactly the sends before the first close |
| TransportProgress.GrpcRefusesClosed | sdk/go/transport.go:138-149 | and refuses a send from then on, changing nothing |
| TransportProgress.GrpcDrains | sdk/go/transport.go:138-185 | after any run a flush gives each waiting event its fate: delivered if its own call succeeds, waiting again if that fails, dropped if it cannot be converted; without a flush nothing happens but that an accepted send waits |
| TransportOrder.FlushInOrderIff | sdk/go/transport.go:162-183 | a flush of distinct events keeps deliveries and buffer in the order of the sends if and only if no call succeeds after one that failed |
| TransportOrder.GrpcInOrderIff | sdk/go/transport.go:138-207 | at the end of any run of distinct sends deliveries followed by the buffer are the convertible sends in order if and only if that held of every flush: order once lost is never regained |
| TransportOrder.GrpcKeepsOrder | sdk/go/transport.go:138-207 | the one half for any sends, repeated ones included |
| Transports.RebufferedKeepsOrder | sdk/go/transport.go:166-183 | what one flush puts back, and what it delivers, keep the batch's order |
| Transports.BatchConserved | sdk/go/transport.go:166-183 | one flush delivers, drops as unconvertible or puts back each occurrence of each event |
| Transports.GRPCTransport.Append | sdk/go/transport.go:144 | appending writes into the spare cells of the slice or moves it to a larger array |
| Transports.GRPCTransport.SendEvent | sdk/go/transport.go:138-149 | the method is the send step |
| Transports.GRPCTransport.FlushLocked | sdk/go/transport.go:157-185 | truncating the slice and re-filling it in place while sending the copied batch is the flush step |
| Transports.GRPCTransport.CloseTransport | sdk/go/transport.go:200-207 | closing flushes once more and refuses later sends |
| Transports.BufferTransport.SendEvent | sdk/go/transport.go:49-61 | the buffer always holds exactly the last maxSize serializable sends since the last drain |
| Transports.BufferTransport.Drain | sdk/go/transport.go:67-73 | draining returns the buffer and starts over |
| TrustGraph.ReceivedIsMass | verification/z3/trust_graph.py:213-220 | in a graph whose out-degrees are the sums of its out-weights all trust that is there is received by somebody |
| TrustGraph.MassStep | verification/z3/trust_graph.py:213-220 | one step takes total trust M to (1 - d) + d * M |
| TrustGraph.MassConserved | verification/z3/trust_graph.py:213-220 | total 1 is kept for any number of steps, nodes and edges |
| TrustGraph.ScoresStayInUnitInterval | verification/z3/trust_graph.py:213-220 | so every score stays in [0, 1] |
| TrustGraph.StepContracts | verification/z3/trust_graph.py:213-220 | one step shrinks the L1 distance of two score vectors by the damping factor at least |
| TrustGraph.Contraction | verification/z3/trust_graph.py:213-220 | after k steps two vectors are within d^k of their initial distance |
| TrustGraph.TenantIsolation | verification/z3/trust_graph.py:181-233 | without edges into a tenant its scores after any number of steps do not depend on anybody else's |
| TrustGraph.IsolatedIffNoEdgesInto | verification/z3/trust_graph.py:181-233 | and one step isolates a tenant for all score vectors if and only if there are no such edges |
| TrustGraph.ScoreBetweenFactors | verification/z3/trust_graph.py:78-85 | the trust score lies between its least and its greatest factor |
| TrustGraph.FactorWeights | verification/z3/trust_graph.py:56-85 | history and behaviour weigh 0.3 each, permissions and reputation 0.2 each |
| TrustGraph.HitsAccumulate | verification/z3/trust_graph.py:100-138 | any number of penalties amounts to one of their sum, and the score strictly falls with each until behaviour is at the floor |
| TrustGraph.InjectionFailsIff | verification/z3/trust_graph.py:278-336 | injecting a node never pays off if and only if the graph has at least three nodes |
| TrustGraph.LiftBoundIff | verification/z3/trust_graph.py:304-307 | the bound on what an injected node adds to another's score holds for a step of every graph if and only if the injected node's score is at most 1 / (n + 1) |
| TrustGraph.DecayLaws | verification/z3/trust_graph.py:433-485 | decay composes over time, never moves away from neutral or crosses it, and arrives exactly when the distance is used up |
| Cef.SanitizedFacts | backend/app/integrations/formatter.py:175-186 | sanitized fields have no pipe, sanitized values no '=' and no line break, and the two cuts of a message are one |
| Cef.PairsRoundTrip | backend/app/integrations/formatter.py:110-131 | any list of clean keys and values without '=' is read back exactly, spaces and pipes in values included |
| Cef.HeaderRoundTrip | backend/app/integrations/formatter.py:133-139 | fields without pipes are read back by splitting at as many pipes, whatever follows |
| Cef.ToCefRoundTrip | backend/app/integrations/formatter.py:97-139 | for every event the printed line parses back to the sanitized header fields and exactly the printed key/value list |
| CefFields.HeaderFields | backend/app/integrations/formatter.py:106-139 | the header of a line has the rule's name, else the event's type, else "unknown", its words titled, and the number of the severity: 10, 8, 5, 3, and 1 for all else |
| CefFields.ReadBack | backend/app/integrations/formatter.py:110-139 | reading back the line of any event, each entry with a text is found under its own key with its label, made fit, in order, and nothing else is there |
| CefFields.SanitizersAre | backend/app/integrations/formatter.py:175-186 | character by character what the two sanitizers do, and where they cut |
| Cef.ValueComesBackIff | backend/app/integrations/formatter.py:182-186 | an extension value survives printing and parsing if and only if it has no '=' |
| Cef.FieldComesBackIff | backend/app/integrations/formatter.py:175-180 | a header field does if and only if it has no pipe |
| Cef.ToCef | backend/app/integrations/formatter.py:97-139 | the code that appends parts and joins them prints that line |
| Utf8.PrefixValidIff | sdk/go/events.go:134-138 | a prefix of valid UTF-8 is valid if and only if it does not end before a continuation byte |
| CodePoints.FirstIff | sdk/go/events.go:136 | the byte patterns of a character are exactly the shortest encodings of Unicode scalar values: no overlong forms, no surrogates, nothing beyond U+10FFFF (section 3 of RFC 3629) |
| Utf8.FewContinuations | sdk/go/events.go:136-138 | backtracking stops within three bytes |
| Utf8.LongestOnce | sdk/go/events.go:133-140 | there is one longest valid prefix within a limit |
| Utf8.SafeSerialize | sdk/go/events.go:128-142 | the result is valid UTF-8 within the limit: the input, or its longest valid prefix that leaves room for the dots; exactly when it panics, and exactly when the limit is not kept |
| Bits.BitByBit | scripts/agent-simulator.py:299-300 | the masks and ors of the model are those of the code, bit by bit, on integers of any size |
| Bits.BitIs | scripts/agent-simulator.py:299-300 | a bit is what is left on the right after shifting |
| Uuid7.HalvesAreSums | scripts/agent-simulator.py:299-300 | the shifted, masked and or-ed fields of the two halves do not overlap: each half is their sum |
| Uuid7.GroupsAreDigits | scripts/agent-simulator.py:301 | the shifts and masks that cut the halves into groups are their digits |
| Uuid7.RoundTrip | scripts/agent-simulator.py:294-301 | reading the string back gives version 7, variant 10, the low 48 bits of the timestamp and all 62 random bits, 12 of which it carries twice |
| Uuid7.Layout | scripts/agent-simulator.py:301 | dashes, version and variant digits are where section 5.7 of RFC 9562 wants them |
| Uuid7.HexOrder | scripts/agent-simulator.py:301 | fixed-width hexadecimal compares as the numbers do |
| Uuid7.StringsSortByTime | scripts/agent-simulator.py:294-301 | one string is lexicographically below another if and only if its timestamp is smaller, or equal with smaller random bits |
| Subscriptions.PollLosesNothingIff | backend/app/graphql/subscriptions.py:115-145 | a poll leaves exactly the rest of the pending rows for the next one if and only if its page does not end between two rows with one key |
| Subscriptions.PageIsAsked | backend/app/graphql/subscriptions.py:114-132 | every row of a page is a row of the table, of the subscriber's tenant, with the severity, type and agent asked for, above the cursor; at most 100, in order of creation time and id |
| Subscriptions.AskedIsInPage | backend/app/graphql/subscriptions.py:114-132 | and every such row is in the page unless 100 rows that are not behind it fill it |
| Subscriptions.DeliveredIsAsked | backend/app/graphql/subscriptions.py:114-145 | in every run only rows of the subscriber's tenant, with what was asked for, are delivered |
| Subscriptions.DeliveredInOrder | backend/app/graphql/subscriptions.py:114-145 | whatever is inserted in between, keys come in order and each poll's rows are strictly above all earlier ones |
| Subscriptions.PollingRefinesScan | backend/app/graphql/subscriptions.py:110-145 | after any run of polls and inserts, delivered rows then pending rows are in order the matching rows that came in above the cursor if and only if no page so far ended between two rows with one key; a page that does loses rows for good |
| Subscriptions.SplitPageLosesRow | backend/migrations/001_initial_schema.sql:128-142 | the table may hold rows with one creation time and id, and then some run loses a row that is due: no later poll ever delivers it |
| Subscriptions.DistinctNeverSplits | backend/app/graphql/subscriptions.py:115-125 | with distinct keys no page ever ends between equal keys |
| Subscriptions.CatchesUp | backend/app/graphql/subscriptions.py:114-145 | once inserts stop, enough polls deliver all that is due, in order, if and only if no page has ended between two rows with one key |
| Subscriptions.LateIsNeverDelivered | backend/app/graphql/subscriptions.py:118-145 | a row that comes in at or below the cursor is never delivered |
| Subscriptions.EventStream.PollOnce | backend/app/graphql/subscriptions.py:135-145 | the loop over a page yields it, rows of the subscriber's tenant with what was asked for, and leaves the cursor at its last key |
| Subscriptions.DropsOldest | backend/app/graphql/subscriptions.py:65-77 | after any run the queue holds the newest alerts, and every alert was received, is queued or was dropped |
| Subscriptions.GotInOrder | backend/app/graphql/subscriptions.py:65-82 | alerts are received in order, each at most once, before anything still queued |
| Subscriptions.AlertQueue.OnAlert | backend/app/graphql/subscriptions.py:70-77 | put, or on a full queue drop the oldest and put |
| Subscriptions.AlertQueue.Next | backend/app/graphql/subscriptions.py:82 | the subscriber gets the oldest alert still queued |
| Schedule.HoursRoundTrip | backend/app/consumers/policy_engine.py:31-86 | any window printed with or without a time zone is read back as itself |
| Schedule.ReadsIff | backend/app/consumers/policy_engine.py:31-38 | what reads as a time is exactly a printed one with white space around it |
| Schedule.OutsideIff | backend/app/consumers/policy_engine.py:53-92 | an event is outside the schedule exactly on suppressed weekends, or, except on weekends that only alert, outside the window of well-formed hours; and exactly when the check raises |
| Schedule.RaisesIff | backend/app/consumers/policy_engine.py:71-77 | the hours cannot be read at all if and only if there is one dash with only white space behind it |
| Schedule.StripIs | backend/app/consumers/policy_engine.py:71-75 | stripping removes white space at the ends and nothing else |
| Schedule.SwappedWindowsCover | backend/app/consumers/policy_engine.py:84-92 | a window and its swapped window cover the day and overlap exactly at the two endpoints |
| Schedule.ActiveMinutes | backend/app/consumers/policy_engine.py:84-92 | a window has ((end - start) mod 1440) + 1 active minutes, overnight included |
| PolicyEngine.SuppressedIff | backend/app/consumers/policy_engine.py:147-251 | an event leaves suppressed if and only if some enabled policy in scope is out of schedule or has an event rule switched off |
| PolicyEngine.FirstSuppressionWins | backend/app/consumers/policy_engine.py:242-251 | after the first suppressing policy no later one changes anything, an unreadable one included |
| PolicyEngine.RaisesIffUnreadable | backend/app/consumers/policy_engine.py:242-251 | the fold raises if and only if it meets an unreadable schedule in an enabled policy in scope before any suppression |
| PolicyEngine.PoliciesAccumulate | backend/app/consumers/policy_engine.py:164-214 | without suppression the event ends with the last valid override, the severity just before it as original, all parameters merged and the last notifications |
| PolicyEngine.MergeIsRightBiased | backend/app/consumers/policy_engine.py:195-198 | a merged key has the value of the last rule that sets it, else its own |
| PolicyEngine.MetadataGrows | backend/app/consumers/policy_engine.py:205-251 | metadata only grows, by at least one entry for each policy that runs, and an event no policy runs on is unchanged, whether the fold ends or raises |
| PolicyEngine.ReachStops | backend/app/consumers/policy_engine.py:242-251 | which policies run is read off the inputs: the fold goes on exactly past policies that do not apply, or that can be read and do not suppress |
| PolicyEngine.ReachParams | backend/app/consumers/policy_engine.py:164-198 | the parameters end merged with those of exactly the rules that run, up to the first suppression or unreadable schedule |
| PolicyScope.ElsewhereIrrelevant | backend/app/consumers/policy_engine.py:96-121 | a policy that is switched off, or scoped to no tag of the agent and not to its framework, can be taken out of any list without changing anything |
| PolicyScope.OneMorePolicy | backend/app/consumers/policy_engine.py:127-251 | a policy in scope that is reached runs: out of schedule it suppresses, in schedule its rules run, and that none has the event's name is noted; an unreadable schedule raises |
| PolicyScope.InScopeLeavesItsMark | backend/app/consumers/policy_engine.py:142-224 | and leaves new metadata entries, all of which name it |
| PolicyScope.OneMoreRule | backend/app/consumers/policy_engine.py:153-213 | what one more rule does, entry by entry: nothing unless it has the event's name; disabled it suppresses and ends the policy; enabled it overrides the severity if it is one of the five, merges its parameters, replaces the notifications |
| PolicyConsumer.ApplyPolicyRules | backend/app/consumers/policy_engine.py:127-226 | one policy on the heap: the result's contents, and that it shares with the input exactly the mutable objects the input had |
| PolicyConsumer.ApplyPolicies | backend/app/consumers/policy_engine.py:228-251 | the loop over the policies on the heap computes the fold on values, as far as it gets |
| PolicyConsumer.ApplyPoliciesToEvent | backend/app/consumers/policy_engine.py:141-251 | what the caller finds in the event it passed in, whether the call returns or raises; and it is unchanged if and only if it came without metadata or no policy runs, and it came without parameters or merging those of all rules that run changes nothing |
| RuleEngine.FirstMatches | backend/engine/rule_engine.py:361-413 | unless a rule raises, the result is the first max(cap, 1) matches in table order among enabled rules that are global or of the event's tenant |
| RuleEngine.CountsReached | backend/engine/rule_engine.py:364-411 | an evaluation counts for exactly the rules it reaches, by their verdict, and touches no other |
| RuleEngine.MatchedAreMine | backend/engine/rule_engine.py:361-413 | what an evaluation returns are matching, enabled rules that are global or of the event's tenant, at most the cap and one at least possible; and all of them if it returns fewer |
| RuleEngine.NotMineUntouched | backend/engine/rule_engine.py:361-411 | a rule that is disabled or another tenant's is neither returned nor counted |
| RuleEngine.CountersAdded | backend/engine/rule_engine.py:364-411 | an evaluation adds to a rule's counters nothing, or one evaluation and one match or error as it was judged; rules returned are counted |
| RuleEngine.ReloadKeepsParsed | backend/engine/rule_engine.py:850-890 | a completed reload leaves exactly the rules whose source still parses |
| RuleEngine.CountersAreTallies | backend/engine/rule_engine.py:349-436 | over any run of evaluations, reloads and single loads each rule's counters tally its verdicts since it appeared: evaluations = matches + misses + errors + raises |
| RuleEngine.Engine.EvaluateEvent | backend/engine/rule_engine.py:349-413 | the loop over rule objects updating counters in place computes that evaluation |
| RuleEngine.Engine.LoadRules | backend/engine/rule_engine.py:831-901 | building a new table beside the old one and swapping carries the counters over, or changes nothing on failure |
| RuleEngine.Engine.LoadRule | backend/engine/rule_engine.py:415-436 | loading one rule resets its counters; a parse error changes nothing |
| Compliance.EvictionSparesHeld | backend/app/routers/compliance.py:499-503 | eviction removes no held lock and changes no entry it keeps |
| Compliance.LockAdded | backend/app/routers/compliance.py:496-504 | a tenant without a lock gets a new one; only in a table of 200 or more, half of the unlocked locks go, those that came first; all else stays |
| Compliance.UnlockedAre | backend/app/routers/compliance.py:499 | what may go are the unlocked entries, all of them, in order of insertion |
| Compliance.RefusedIffRunning | backend/app/routers/compliance.py:497-511 | a scan request is refused if and only if a scan of its tenant is running |
| Compliance.ScansExclude | backend/app/routers/compliance.py:497-516 | in every interleaving of requests, endings and evictions at most one scan per tenant runs, because its lock stays the tenant's table entry |
| Compliance.RunningIs | backend/app/routers/compliance.py:497-516 | in every run exactly those scans are in progress that were requested while their tenant had none and have not ended: the locks behave as if there were none to forget |
| Compliance.ScanLocks.TryStart | backend/app/routers/compliance.py:497-513 | the code over lock objects is the request step |
| Compliance.ScanLocks.Release | backend/app/routers/compliance.py:513-516 | leaving the lock is the ending step |
| ScoreCache.EvictsOlderHalf | backend/app/routers/compliance.py:260-264 | exactly half of the entries go, and none of them is newer than one that stays |
| ScoreCache.CacheBounded | backend/app/routers/compliance.py:259-265 | after any run the cache holds at most 200 entries |
| ScoreCache.HitIsYoungLastStore | backend/app/routers/compliance.py:220-224 | a hit is what was last stored for this very tenant, less than 60 s ago |
| ScoreCache.YoungLastStoreIsHit | backend/app/routers/compliance.py:220-265 | and while the cache has not been full every such store is a hit |
| ScoreCache.ScoreCache.Get | backend/app/routers/compliance.py:220-224 | the lookup |
| ScoreCache.ScoreCache.Update | backend/app/routers/compliance.py:259-265 | evicting key by key and storing is the store step |
| McpRegistrar.KnownOrdered | backend/app/consumers/mcp_registrar.py:42-68 | the table of known servers, longest first, meets what the next two rows ask of a table |
| McpRegistrar.DeriveIsLongestMatch | backend/app/consumers/mcp_registrar.py:64-77 | a tool of a known server derives to the longest such name, any other MCP tool to its first two segments, nothing else to a server |
| McpRegistrar.DeriveIdempotent | backend/app/consumers/mcp_registrar.py:51-77 | deriving a second time changes nothing |
| McpRegistrar.CountedIff | backend/app/consumers/mcp_registrar.py:104-128 | which events count, for which tenant and server: tool calls with a tenant whose tool starts with "mcp_"; the tool's category makes no difference |
| McpRegistrar.ConnectionsAfter | backend/app/consumers/mcp_registrar.py:104-189 | a batch adds its sightings to a server's connection count; a failed upsert loses all of that server's |
| McpRegistrar.BatchingIrrelevant | backend/app/consumers/mcp_registrar.py:96-189 | connection counts do not depend on how events fell into batches |
| McpRegistrar.CapabilitiesAgreeIff | backend/app/consumers/mcp_registrar.py:147-173 | capabilities do, except when the later batch used all tools of the earlier one |
| McpRegistrar.RedeliveryAbsorbedIff | backend/app/consumers/mcp_registrar.py:142-182 | a redelivered batch is absorbed if and only if it sights nothing |
| McpRegistrar.McpRegistrar.ProcessBatch | backend/app/consumers/mcp_registrar.py:96-189 | collecting sightings and upserting them one by one, in any order, is the batch step |
| ModelPackages.RollbackUndoesIff | packaging/models/package_models.py:291-374 | rolling back undoes an install exactly when it verified, found a tree to back up and has the newest stamp; or was refused with no backup around |
| ModelPackages.InstallLeaves | packaging/models/package_models.py:291-346 | what an install says and leaves, path by path: when it is refused, what is backed up, what a bad member leaves half done, and the marker last |
| ModelPackages.BadMemberStops | packaging/models/package_models.py:318-337 | the members behind a bad one are not extracted |
| ModelPackages.BalancedRunRestores | packaging/models/package_models.py:291-374 | last in, first out: from a tree that exists, any run of installs with the newest stamp each, failed extractions included, all rolled back, restores the tree and the backups |
| ModelPackages.ExtractedFile | packaging/models/package_models.py:318-337 | extraction overlays: each path holds the package's last content for it, else its own |
| MemberPaths.RelativeAcceptedIff | packaging/models/package_models.py:321-336 | a member with a relative name is accepted if and only if no part of its name is "..", and then stays in the target |
| MemberPaths.AcceptedInsideIff | packaging/models/package_models.py:321-336 | an accepted member stays in the target if and only if its name is relative or its path has a separator, or ends, where the target's path ends |
| MemberPaths.AlwaysInsideIff | packaging/models/package_models.py:321-336 | all accepted members of all packages stay in the target if and only if it is the root |
| ModelPackages.ModelStore.CmdInstall | packaging/models/package_models.py:291-346 | the command's outcome and the state it leaves, half-done installs included |
| ModelPackages.ModelStore.CmdRollback | packaging/models/package_models.py:358-374 | the latest backup replaces the target and is gone; without a backup nothing changes |

## Left out

- Kafka, Postgres, the HTTP and gRPC clients and logging: their outcomes are parameters.
- Partition rebalances, offset gaps left by compaction, and a second `start` while `stop` is still waiting: not steps of the delivery protocol.
- A consumer whose Kafka library is missing (it stops itself at once), and timed flushes while the read loop is idle: no flush deadline is claimed.
- StorageConsumer.BaseStorageConsumer.Stop: covers stopping a consumer with no batch in flight; the interleavings of `stop` with a flush or a commit of the consumer coroutine are in the state machine only.
- PgWriter.RedeliveryAbsorbed: an agent upsert that fails is only logged by the source; here agent statements succeed or end the attempt.
- Replays.ReplayAbsorbed: for replays cut into the same batches; `Replays.RecutNotAbsorbed` shows what another cut can change.
- Mixing time-zone-aware with naive timestamps, which raises in the source, and lower-casing beyond ASCII.
- ExactlyOnce.StoredExactlyOnce: assumes that the messages read with an id have timestamps that parse, and that two different ones never claim one (id, timestamp) with different contents; the first one would win.
- SiemFanout.LimitKeptIff: the deliveries are independent of each other; that one consumer makes its own one after the other is not used.
- Rounding: trust scores, tokens and clocks are reals; the distributed limiter that replaces the token buckets is not modelled.
- Transports.HttpExactFifo: any response counts as delivery, as in the source, which ignores the status code; an HTTP buffer is a sequence, so sharing between a slice and its copy shows in the gRPC transport only.
- The transports' mutexes and timers: each locked call is one step.
- Cef.ToCef: title-casing is a parameter, and values are strings: a rule name or address of another type raises in the source.
- Schedule.HoursRoundTrip: white space and digits are ASCII; the source also accepts other Unicode ones.
- PolicyConsumer.ApplyPoliciesToEvent: the moment is given once; without one the source reads the clock for each policy. Metadata that is not a list, or parameters that are not a dictionary, raise in the source.
- RuleEngine.FirstMatches: the evaluator, its context and its function state are one verdict per rule and evaluation; `last_matched_at` and the alerts created from matches are left out.
- Compliance.ScansExclude: does not claim that the lock table keeps its size limit; with every lock held eviction removes nothing.
- Which of several equally old IPs is evicted, and the order in which a set of upserts runs: any choice is covered.
- Subscriptions.PollingRefinesScan: rows are never deleted or changed, and a poll sees every committed row.
- ModelPackages.BalancedRunRestores: signatures are one flag, and members are either extracted into the target or refused; `MemberPaths` says which are neither. Directories, links and files left by a failing file system are left out.
- The SIEM fan-out's read loop and commits, which follow the storage consumer's, and its flush over integrations.
- Notification routing (a filter and a first-occurrence list, which would add only easy members), the PRL language, the audit chain, dashboards, connectors and ML consumers: not modelled.
