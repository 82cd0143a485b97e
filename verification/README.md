# State-keeping kernel of the WhatsApp platform: a model and its proofs

The platform runs WhatsApp sessions on several replicas. Redis holds leases, counters and
small hashes; Postgres holds sessions, chats, contacts and messages; a Baileys socket is
either open or not. This project models the parts that keep that state consistent and proves
what they promise. Sockets, Redis and Postgres appear only through the effect each command has
on an explicit state.

Where the source mutates an object or runs a loop, the model has a class or a method with the
same steps, proved against a specification function or relation (`Now() == Step(...)`). The
properties are lemmas about those specifications, over every input, run or interleaving.
Protocols between concurrent parties (the lease, the creation race, progress reports) are
transition systems over their single commands.

| files | subject |
|---|---|
| `Lease`, `LeaseFencing`, `LeaseHeartbeat`, `LeaseSafety`, `LeaseNecessity` | the Redis lease on a session, in real time |
| `Supervisor`, `SupervisorEffects`, `Reconnection`, `Registries`, `SessionManager` | sockets, timers, workers and retry counters of one replica |
| `Jids`, `LidMapping` | JID strings and the LID-to-phone table |
| `ChatTables`, `ChatMerge`, `MergeOrder`, `ContactMerge` | merging a LID identity into its phone identity |
| `ChatCreation` | the race to create a chat |
| `KeyCache` | the signal-key store and its cache |
| `Receipts` | delivery and read receipts |
| `MessageStore`, `Unread`, `MessageRows`, `SyncProgress` | inserts, unread counts, stored rows, history-sync accounting |
| `Pagination` | keyset pages of messages |
| `RateLimiter`, `Throttle` | inbound sliding window, outbound pacing |
| `Options` | a value that may be missing |

## Assumptions and findings

**Lease.** The environment is a parameter (`Lease.Params`): the longest gap between the first
GET and the SET, the longest time from Redis executing a heartbeat to its reply being handled,
the longest delay of a due watchdog tick, whether the lease outlives the way from the second
GET to the first heartbeat (`covered`), and whether no termination lands between the second GET
and the creation of the socket (`undisturbed`). `ExactMargins` shows that for two or more
replicas mutual exclusion holds exactly when gap < 1500 ms, latency + slack < 1500 ms, `covered`
and `undisturbed`. `covered` is a real demand because `startLockRenewal` stamps the current time
without renewing the key (`src/modules/sessions/session.manager.ts:1981`). The model has one
clock for all, timers that are never early, commands of one replica executed in order, and a
key that is live while now < expiry. Safety is proved with heartbeats and terminations allowed at
any time. The runs that show each assumption necessary are `Ordinary`: a heartbeat reaches Redis
no sooner than its 3 s timer sends it, and a termination comes from a socket, a timer or a worker
(a destroy command that arrives while a reconnect initializes, for example). `ExactMargins` holds
of both classes of runs.

**Supervisor.** Each handler is one step. A close with code 401 is terminal whether it means
logged out or banned. Once nothing of a session runs, only two steps bring it back
(`StaysDownIff`): a start that gets as far as a socket, and a reconciliation visit to a free key
with a row that carries no flag. The first includes the automatic restore when the
process starts, which does not look at the flag and selects sessions that are `disconnected`, the
status `forceTerminateSocket` leaves behind (`src/modules/sessions/session.manager.ts:584-604`,
`2088`). The second is possible because a reconciliation pass reads all rows first
(`StaleVisitRevives`), and because three handlers write a session's whole metadata back from an
earlier SELECT (sync-retry, `src/modules/sessions/session.routes.ts:662-705`; giving up and manual
restart, `src/modules/sessions/session.manager.ts:1562-1593`, `1630-1650`): while a session is down
its flag stays exactly if no copy taken before it was set is written back (`StaysFlaggedIff`), and
with the flag gone the next visit revives it (`VisitRevivesIff`). The restart command that the stored message recommends does not: it is
consumed only by the session's own control worker, which has been stopped
(`src/modules/sessions/session.manager.ts:1551`, `2436-2448`).

The maps of the session manager are `Registries.Registry` values: next to what a map holds stands
what has been started and not stopped, each thing with a handle of its own. Starting something
leaks exactly if the map still held its predecessor (`LeaksIff`). In every state any sequence of
events can lead to, what runs is exactly what the maps hold (`SessionManager.Run`).

**Merge.** Merging a JID with itself would delete the chat with all of its messages; the guard
in `saveLidMapping` is what prevents it (`LosesNothingIff`). Read-audit rows of the LID chat go
with it by cascade. Preview text and contact fields depend on the order of merges, so
order independence is stated of unread counts, times and messages. The transaction does not keep
other writers out: a message inserted under the LID chat after the rows were moved is deleted with
the chat, and only such a one (`ArrivalIsLostIff`).

**Chat creation.** The unique key is (session, JID) but both SELECTs also filter on the
organization; a caller of another organization gets no id (`RaceSafe`). Deletions of other chats
do not matter. With deletions of its own chat a caller gets an id exactly if it does not come, after
a conflict, to a second SELECT with no row for its chat (`GetsAnIdIff`).

**Receipts.** Receipts of all kinds may come in any order and number exactly if no message is both
named by a failure receipt and covered by a read receipt (`Confluence`).

**Sync accounting.** A run may hold any number of syncs, cleanups and retries, from any state in
which the hashes match. They go on matching exactly if every chunk is finished in the stretch
between two cleanups in which it was begun, with its own message count (`MatchedIffOrderly`). The
database counters go back exactly when sync-retry zeroes one that is not 0
(`src/modules/sessions/session.routes.ts:689-702`) or a rewrite of the whole metadata puts back a
copy that a report has overtaken (`RisingIff`). The two statements of such a rewrite are not in a
transaction (`src/modules/sessions/session.manager.ts:1562-1593`, `1630-1650`) and history jobs run
in another process; done at once it would keep the counters (`RewriteAtOnceIsIdle`), with a report
in between it loses that report (`OvertakenRewriteLoses`).

**Unread counts.** Besides live messages and marks as read, `upsertChat`, `updateChat`, merges and
deletions write the count, and it may start or be set at any integer. `UnreadIsExact` covers all of
them: the count is what it was last settled at, plus the counts merged in since, plus the distinct
inbound messages first inserted live since.

**Pagination.** The cursor drops microseconds and is exact for a row exactly when the row's time is
a whole number of milliseconds (`CursorIsExactIff`). Both inserts into the table take the time from
a JavaScript date, so every row meets that (`WrittenIsWhole`), and exactness is claimed of every
table the program can write.

**Rate limits.** The set member is the timestamp, so the window bounds distinct instants. Requests
are bounded by `max` exactly if at most one arrives at an instant, unless nothing is admitted at
all or the window has too few milliseconds (`BoundsRequestsIff`); with `b` at an instant the bound
is `b` times the lesser of `max` and the window's milliseconds, and is met
(`RequestCapacityIsMet`).

For the outbound counter TTL rounds to whole seconds and a result of 0 deletes the key up to 499 ms
early; a life of the counter therefore lasts at least 59 501 ms, and 59 501 ms hold at most
2 * limit - 1 sends. A run of the counter loop meets that bound (`SpanIsTight`; the sends are at one
instant, as they can be with a gap of 0). With a limit below 1, which the configuration allows, the
loop never lets a send pass (`PassesIff`).

## Model

| member | source | states |
|---|---|---|
| LeaseNecessity.ExactMargins | src/modules/sessions/session.manager.ts:296-323 | for two or more replicas, every timed run keeps at most one socket open if and only if gap and latency + slack stay below the 1500 ms fencing pause, the first heartbeat comes in time and no termination hits an initialization past its second GET; the same of the runs whose heartbeats and terminations the program's own timers and callers produce |
| LeaseSafety.MutualExclusion | src/modules/sessions/session.manager.ts:1978-2033 | under those margins at most one replica has a socket in every state of every run of any number of replicas |
| LeaseSafety.Always | src/modules/sessions/session.manager.ts:296-323 | the lease invariant (who may be committed, when a socket without the key must be dead) holds in every reachable state |
| LeaseSafety.DeadInTime | src/modules/sessions/session.manager.ts:2020-2030 | a socket that has had a heartbeat is gone less than 1500 ms after its last lease ends |
| LeaseSafety.FencingDone | src/modules/sessions/session.manager.ts:313-323 | when an owner's fencing pause is over, nobody else is committed and nobody is about to overwrite its key |
| LeaseSafety.KeepsAcquire | src/modules/sessions/session.manager.ts:303-308 | SET NX and SET XX keep the invariant even when the key changed hands since the GET |
| LeaseSafety.KeepsBeat | src/modules/sessions/session.manager.ts:1989-1995 | compare-and-expire keeps the invariant |
| LeaseSafety.KeepsHandle | src/modules/sessions/session.manager.ts:1997-2004 | a late heartbeat reply, good or bad, keeps the invariant |
| LeaseSafety.KeepsRelease | src/modules/sessions/session.manager.ts:2093-2107 | compare-and-delete keeps the invariant |
| LeaseHeartbeat.LostLeaseEndsSocket | src/modules/sessions/session.manager.ts:1997-2004 | in every run a socket whose heartbeat Redis executed without the key is gone once that reply is handled, no later than the reply's latency after it |
| LeaseHeartbeat.NegativeReplyEnds | src/modules/sessions/session.manager.ts:2000-2002 | after any negative heartbeat reply the replica has no socket and no timers and a release is on its way, whatever it was doing |
| LeaseHeartbeat.SocketEndsIff | src/modules/sessions/session.manager.ts:2051-2091 | a socket ends exactly by reinitialization, a negative reply, the overdue watchdog, termination, a reconnect, a terminal close or a crash |
| LeaseHeartbeat.SocketOpensIff | src/modules/sessions/session.manager.ts:386-416 | and opens exactly by the end of an initialization |
| LeaseHeartbeat.EndingsClean | src/modules/sessions/session.manager.ts:2035-2091 | with the socket the timers end except in a reconnect, and terminations give the key back |
| LeaseHeartbeat.TimersGoOn | src/modules/sessions/session.manager.ts:1985-2030 | good replies stamp, ticks come every 2 s and heartbeats every 3 s |
| LeaseHeartbeat.KeyMoves | src/modules/sessions/session.manager.ts:303-308 | the key changes only by a successful SET, its owner's renewal for 10 s or its owner's release |
| LeaseHeartbeat.InitializationSteps | src/modules/sessions/session.manager.ts:296-323 | where each command of an initialization leads, and that it touches no other replica |
| LeaseFencing.AlwaysWaiting | src/modules/sessions/session.manager.ts:297-308 | if the GET-to-SET gap is below the pause, whoever took the key after our GET is still waiting (or crashed) when we SET |
| LeaseFencing.OverwrittenRivalAborts | src/modules/sessions/session.manager.ts:303-323 | a rival whose key SET XX overwrites is still in its pause, and its second GET fails |
| LeaseFencing.FencedOut | src/modules/sessions/session.manager.ts:319-323 | a waiting replica that does not hold the key never passes its second GET in that pause |
| LeaseFencing.PasserIsAlone | src/modules/sessions/session.manager.ts:319-323 | whoever passes the second GET owns the key at that instant and every replica then waiting fails its own |
| LeaseNecessity.NeedsCovered | src/modules/sessions/session.manager.ts:1978-1985 | without an in-time first heartbeat some run opens two sockets |
| LeaseNecessity.NeedsUndisturbed | src/modules/sessions/session.manager.ts:2051-2091 | with a termination of a reconnecting replica between second GET and socket some ordinary run opens two sockets |
| LeaseNecessity.NeedsLatency | src/modules/sessions/session.manager.ts:1985-2030 | with latency + slack of 1500 ms or more some ordinary run, its first heartbeat sent 3 s after opening and the next ones lost, opens two sockets |
| LeaseNecessity.NeedsGap | src/modules/sessions/session.manager.ts:297-308 | with a GET-to-SET gap of 1500 ms or more some ordinary run, in which a reconnecting replica is terminated in the gap, opens two sockets |
| Supervisor.AlwaysSupervised | src/modules/sessions/session.manager.ts:1978-2082 | in every reachable state a socket or pending reconnect has heartbeat and watchdog, the three kinds of helpers run for the same sessions, and the counters are below their limits |
| Supervisor.StepKeeps | src/modules/sessions/session.manager.ts:795-1002 | every handler keeps that invariant |
| Supervisor.BackoffIsRespected | src/session-runner.ts:71-93 | while running heartbeats keep their leases, a reconciliation visit changes nothing for a session with a socket or a pending backoff timer |
| Supervisor.GivingUpIsClean | src/modules/sessions/session.manager.ts:1534-1621 | giving up leaves no timer, socket, renewal, worker or counter, and sets the flag reconciliation looks at |
| Supervisor.StaysDownIff | src/session-runner.ts:72-90 | a session on which nothing runs stays so through a run if and only if no start gets as far as a socket and no visit to a free key carries an unflagged row |
| Supervisor.StaysFlaggedIff | src/modules/sessions/session.routes.ts:662-705 | while a session given up is down its flag stays if and only if no rewrite of its metadata puts back a copy without it |
| Supervisor.VisitRevivesIff | src/session-runner.ts:71-93 | a visit with its current row leaves a session down if and only if the key is owned or the row carries a flag |
| Supervisor.StaleVisitRevives | src/session-runner.ts:66-90 | a visit with a row read before the flag was set starts the session again |
| Supervisor.ReconnectHandsOver | src/modules/sessions/session.manager.ts:965-987 | a reconnect that opens a socket leaves the session with socket and helpers, without a timer, and changes nothing else |
| Supervisor.FailedReconnectStrands | src/modules/sessions/session.manager.ts:987-996 | a reconnect that fails leaves heartbeat and worker running without socket or timer, and while the lease is kept no reconciliation visit changes that |
| Supervisor.LogoutIsClean | src/modules/sessions/session.manager.ts:801-825 | a close with code 401 leaves no timer, socket, renewal, worker or counter |
| Supervisor.OtherStep | src/modules/sessions/session.manager.ts:795-1002 | a step for one session leaves every other session alone |
| SupervisorEffects.EndsIff | src/modules/sessions/session.manager.ts:444-513 | a session of which something runs is down after a step if and only if it is a forced termination, an auth failure, a destroy or an unopened restart that a worker takes, a final close, or a failed initialization of an active session |
| SupervisorEffects.JitterIs | src/modules/sessions/session.manager.ts:1432-1440 | the delay of the n-th retry is, to half a millisecond, n squared seconds or 3 s for the first, times 0.8 to 1.2 by the draw |
| SupervisorEffects.CloseEndsIff | src/modules/sessions/session.manager.ts:801-863 | a close is final if and only if its code is 401, it is the fifth 428 before pairing or the eleventh other failure |
| SupervisorEffects.CloseSchedules | src/modules/sessions/session.manager.ts:71-91 | any other close leaves a timer: by the table of 30 s, 2, 5 and 15 minutes, at once for 515, else within 20 per cent of n squared seconds (3 s for the first) |
| SupervisorEffects.CloseCounts | src/modules/sessions/session.manager.ts:1506-1524 | it counts one attempt of its kind, none for 515, and keeps a timer already there |
| SupervisorEffects.FlagsAfter | src/modules/sessions/session.manager.ts:1562-1593 | after every step connectionFailed and authStateError of a session are as giving up, restarts, auth failures and rewrites leave them |
| SupervisorEffects.DestroyIsClean | src/modules/sessions/session.manager.ts:444-513 | a destroy leaves nothing running and no counter, and the row as it was |
| SupervisorEffects.TerminationIsClean | src/modules/sessions/session.manager.ts:2051-2091 | a forced termination leaves nothing running, and counters and row as they were |
| SupervisorEffects.OpeningRuns | src/modules/sessions/session.manager.ts:386-417 | an initialization that gets as far as a socket leaves socket and helpers, no timer, and the rest untouched |
| SupervisorEffects.ConnectingSettles | src/modules/sessions/session.manager.ts:731-745 | a connection that opens clears timer and counters and nothing else |
| SupervisorEffects.RestartStartsOver | src/modules/sessions/session.manager.ts:1626-1651 | a restart that gets as far as a socket runs unflagged with nothing counted |
| SupervisorEffects.NothingToDo | src/modules/sessions/session.manager.ts:2436-2448 | events without a socket, timer or worker to take them, and visits a flag or an owner turns away, change nothing |
| Reconnection.BoundedReconnection | src/modules/sessions/session.manager.ts:862-998 | between two resets at most 4 never-paired and 10 ordinary counted reconnects are scheduled, waiting at most 1350 s and 464.4 s in all |
| Reconnection.WithinBudget | src/modules/sessions/session.manager.ts:71-91 | from any state on, scheduled timers and their delays stay within what the counted attempts leave |
| Reconnection.DelayRange | src/modules/sessions/session.manager.ts:1432-1440 | every counted delay is within 20 per cent of max(3 s, n squared s), and the 300 s cap never binds |
| Reconnection.EveryTimerIsCounted | src/modules/sessions/session.manager.ts:887-998 | no handler sets a reconnect timer that is not counted |
| Reconnection.ResetsOnly | src/modules/sessions/session.manager.ts:1506-1528 | a retry counter goes down only when its own session connects, is destroyed, restarted, logged out or given up |
| Reconnection.ResetsClear | src/modules/sessions/session.manager.ts:1516-1528 | each of these clears both counters of a running session |
| Reconnection.ScheduledIsPending | src/modules/sessions/session.manager.ts:887-998 | the timers that are counted are those the step adds to the pending ones |
| SessionManagers.SessionManager.ConnectionClose | src/modules/sessions/session.manager.ts:795-998 | performs the close step for every status code |
| SessionManagers.SessionManager.NeverPairedClose | src/modules/sessions/session.manager.ts:849-939 | performs the close step on the escalating 428 branch; the table index is in range |
| SessionManagers.SessionManager.OrdinaryClose | src/modules/sessions/session.manager.ts:942-998 | performs the close step on the ordinary branch |
| SessionManagers.SessionManager.ConnectionOpen | src/modules/sessions/session.manager.ts:731-745 | performs the open step |
| SessionManagers.SessionManager.ReconnectTimer | src/modules/sessions/session.manager.ts:965-996 | performs the timer step |
| SessionManagers.SessionManager.InitializeSocket | src/modules/sessions/session.manager.ts:325-417 | performs the initialization step for each way it can end |
| SessionManagers.SessionManager.ForceTerminateSocket | src/modules/sessions/session.manager.ts:2051-2091 | performs the termination step |
| SessionManagers.SessionManager.RemoveActiveSession | src/modules/sessions/session.manager.ts:1844-1867 | clears renewal and workers, but only of a session with a socket |
| SessionManagers.SessionManager.TerminateSessionDueToMaxRetries | src/modules/sessions/session.manager.ts:1534-1621 | performs the giving-up step |
| SessionManagers.SessionManager.TerminateSessionDueToAuthFailure | src/modules/sessions/session.manager.ts:1657-1704 | performs the auth-failure step |
| SessionManagers.SessionManager.RestartCommand | src/modules/sessions/session.manager.ts:2443-2446 | performs the manual-restart step |
| SessionManagers.SessionManager.DestroySession | src/modules/sessions/session.manager.ts:444-513 | clears timer, counters, socket, renewal and workers, whether or not the session has any |
| SessionManagers.SessionManager.DestroyCommand | src/modules/sessions/session.manager.ts:2447-2448 | performs the destroy step when a control worker exists |
| SessionManagers.SessionManager.StartLockRenewal | src/modules/sessions/session.manager.ts:1978-2033 | leaves one heartbeat and one watchdog running for the session, the ones in the maps, whatever ran before |
| SessionManagers.SessionManager.StartDynamicWorkers | src/modules/sessions/session.manager.ts:2191-2192 | leaves one set of workers running for the session, whatever ran before |
| SessionManagers.SessionManager.RunReconciliation | src/session-runner.ts:64-98 | one pass is the sequence of visits to the rows read at its start, and keeps the invariants |
| SessionManagers.SessionManager.Run | src/modules/sessions/session.manager.ts:795-1002 | any sequence of events takes the object where the steps go, and after each of them the heartbeats, watchdogs, workers, sockets and timers that run are exactly those in its maps |
| Registries.LeaksIff | src/modules/sessions/session.manager.ts:1978-1980 | starting something leaves a stray one running if and only if the map still held its predecessor |
| Registries.OnlyOne | src/modules/sessions/session.manager.ts:2035-2049 | where map and world agree, at most one thing runs under a name, the one in the map |
| Registries.StopExact | src/modules/sessions/session.manager.ts:2035-2049 | stopping what the map holds keeps them in agreement |
| Jids.TrimNormalize | src/modules/sessions/session.events.ts:367-382 | normalizing is idempotent and may be done before or after trimming |
| Jids.NormalizesTo | src/modules/sessions/session.events.ts:370-381 | user, device suffix and server become user and server |
| Jids.NormalForm | src/modules/sessions/session.events.ts:371-379 | a JID without device suffix is left alone |
| Jids.NormalizeKeepsSuffix | src/modules/sessions/session.events.ts:367-382 | normalizing keeps every server suffix |
| Jids.Split | src/modules/sessions/lid-mapping.ts:18-27 | a JID changed by normalization is user, device suffix and server, none ambiguous |
| Jids.TrimIs | src/modules/sessions/lid-mapping.ts:35-36 | trimming cuts white space off both ends, and all of it |
| Jids.DevicesNormalizeAlike | src/modules/sessions/session.events.ts:370-381 | whatever device a JID names, it normalizes to the user's own |
| LidMapping.LidTable.SaveLidMapping | src/modules/sessions/lid-mapping.ts:32-93 | the hash and the contact metadata after a save, and that canonical tables stay canonical |
| LidMapping.LidTable.ResolveLidJid | src/modules/sessions/lid-mapping.ts:115-153 | the answer from hash, then contacts, then the JID itself, with write-back; canonical tables stay canonical |
| LidMapping.AlwaysCanonical | src/modules/sessions/lid-mapping.ts:60-93 | in every reachable state keys end in @lid and values in @s.whatsapp.net |
| LidMapping.NoChains | src/modules/sessions/lid-mapping.ts:54-62 | nothing a mapping leads to is itself mapped, so there are no chains or cycles |
| LidMapping.PhoneIsFixed | src/modules/sessions/lid-mapping.ts:118-121 | a normalized phone JID resolves to itself |
| LidMapping.ResolveIsIdempotent | src/modules/sessions/lid-mapping.ts:115-153 | in every reachable state canonicalizing any string twice gives what once gives |
| LidMapping.SavedIsFound | src/modules/sessions/lid-mapping.ts:60-63 | what a save stores is found under every spelling of the LID |
| LidMapping.SurvivesLossOfHash | src/modules/sessions/lid-mapping.ts:65-88 | with a contact row and no rival for the LID the mapping survives the loss of the Redis hash, and the next lookup restores it |
| LidMapping.OthersStay | src/modules/sessions/lid-mapping.ts:62-88 | a save leaves what the hash says of every other LID, and every contact but the phone's |
| LidMapping.LidSpellings | src/modules/sessions/lid-mapping.ts:35-50 | bare, with the server or with a device, a user's LID comes to user@lid |
| LidMapping.PhoneSpellings | src/modules/sessions/lid-mapping.ts:36-53 | bare, with either server or with a device, a user's phone comes to user@s.whatsapp.net |
| LidMapping.UsersAreFound | src/modules/sessions/lid-mapping.ts:32-128 | a LID and a phone saved in any spelling: the LID resolves to the phone |
| LidMapping.UnmappedStays | src/modules/sessions/lid-mapping.ts:118-152 | what no mapping is known for is answered unchanged, and nothing is written |
| ChatTables.Database.MergeLidChatAndContact | src/modules/chats/chat.service.ts:825-988 | the transaction's statements come to the specified merge of both tables |
| ChatTables.Database.MergeContactRows | src/modules/chats/chat.service.ts:853-904 | the contact part: fill, delete or rename |
| ChatTables.Database.MergeChatRows | src/modules/chats/chat.service.ts:906-987 | the chat part: delete conflicts, move, combine, delete or rename |
| ChatTables.Database.DeleteChatRow | src/db/schema.ts:322 | deleting a chat takes its messages and read events along |
| ChatMerge.NothingConflicts | src/modules/chats/chat.service.ts:935-942 | the conflict DELETE matches nothing in a valid database |
| ChatMerge.MessagesFollow | src/modules/chats/chat.service.ts:944-948 | no message is lost or altered; those under the LID move to the phone JID, all others stay |
| ChatMerge.MergeKeepsValid | src/db/schema.ts:267 | all unique keys and references survive a merge |
| ChatMerge.ListMerges | src/modules/chats/chat.service.ts:950-969 | the phone chat ends with the summed unread count and the later time |
| ChatMerge.LidIsGone | src/modules/chats/chat.service.ts:971-983 | nothing of the session is left under the LID and no other session is touched |
| ChatMerge.ContactFieldsKept | src/modules/chats/chat.service.ts:880-891 | the phone contact keeps each non-empty field and takes each one it lacks |
| ContactMerge.ContactRowsAfter | src/modules/chats/chat.service.ts:878-904 | row by row: the LID row is only renamed if the phone has none and goes exactly if it has one, the phone row keeps what it has, every other row of any session stays and none is added |
| ContactMerge.ContactIdsAfter | src/modules/chats/chat.service.ts:893-902 | the row ids are the old ones less the LID row exactly when both existed |
| ContactMerge.ContactSurvives | src/modules/chats/chat.service.ts:880-904 | whoever had a contact under either JID has one under the phone JID, with every field present in any of the rows |
| ContactMerge.ConflictsAreGone | src/modules/chats/chat.service.ts:933-942 | the DELETE before the move leaves no message id in both chats, and takes only messages of the old chat whose id the new one has |
| ContactMerge.FoldKeepsContacts | src/modules/chats/chat.service.ts:878-904 | after any fold every contact survives under its mapped JID with every field it had |
| ContactMerge.FoldLeavesContacts | src/modules/chats/chat.service.ts:878-904 | a fold adds no contact and leaves every one whose JID is in no pair |
| ContactMerge.ChatsJoin | src/modules/chats/chat.service.ts:950-972 | two chats become one with summed count, and time and preview of the LID chat exactly if it is the later; other chats stay, and only the LID chat's read events go |
| ContactMerge.ChatIsRenamed | src/modules/chats/chat.service.ts:977-982 | a LID chat without a phone chat changes its JID only |
| ChatMerge.MergeAbsent | src/modules/chats/chat.service.ts:878-987 | with nothing under the LID a merge changes nothing |
| ChatMerge.LosesNothingIff | src/modules/sessions/lid-mapping.ts:55-60 | a merge that nothing interrupts loses no message if and only if the JIDs differ or nothing is filed under them |
| ChatMerge.ArrivalIsLostIff | src/modules/chats/chat.service.ts:944-972 | of the messages inserted between the move and the DELETE exactly those under the LID chat are lost, and none that was there before |
| MergeOrder.OrderIndependence | src/modules/chats/chat.service.ts:825-988 | two orders of the same mappings, repeats or not, leave the same chat list and file every message under its mapped JID |
| MergeOrder.FoldGathers | src/modules/chats/chat.service.ts:950-969 | after any fold each chat's unread count is the sum and its time the null-bottom maximum of the chats merged into it |
| MergeOrder.FoldFollows | src/modules/chats/chat.service.ts:944-948 | any fold sends each message's JID through the mapping |
| MergeOrder.FoldRemoves | src/modules/chats/chat.service.ts:971-983 | no chat or contact is left under any mapped LID |
| MergeOrder.SecondFoldIsIdle | src/modules/chats/chat.service.ts:825-988 | folding the same mappings again changes no table |
| ChatCreation.RaceSafe | src/modules/chats/chat.service.ts:131-176 | in every interleaving in which its own chat is not deleted, a finished call has exactly one row for its chat and its id, unless that row belongs to another organization or the JID is excluded |
| ChatCreation.GetsAnIdIff | src/modules/chats/chat.service.ts:162-176 | with any deletions, a finished call of the session's organization has an id if and only if it did not come, after a conflict, to a second SELECT with no row for its chat |
| ChatCreation.KnownChat | src/modules/chats/chat.service.ts:131-145 | a call whose chat is there with its organization has the id after its first command, and no later deletion takes it back |
| ChatCreation.CallersAgree | src/modules/chats/chat.service.ts:131-176 | where sessions belong to one organization, calls on one chat return one and the same id |
| ChatCreation.OnlyAsked | src/modules/chats/chat.service.ts:149-160 | every row of any run is an old one or a chat some caller asked for, of the right type |
| ChatCreation.AlwaysPlaced | src/modules/chats/chat.service.ts:131-176 | one row per chat, and the position of every caller on a chat that is not deleted fits the table |
| ChatCreation.CallsEnd | src/modules/chats/chat.service.ts:131-176 | a call is over after three commands of its own and commands of one caller leave the others' progress alone |
| ChatCreation.ExcludedServers | src/modules/chats/chat.service.ts:122-129 | newsletters, broadcasts and the status get no chat; groups, people and LIDs do |
| ChatCreation.DevicesShareAChat | src/modules/chats/chat.service.ts:119-120 | calls that name one user with different devices are calls on one chat |
| ChatCreation.DeletionLosesTheRace | src/modules/chats/chat.service.ts:164-176 | a row deleted after the conflict always leaves its caller without an id |
| ChatCreation.ChatService.EnsureChatExists | src/modules/chats/chat.service.ts:114-176 | with other callers inserting between its commands the call returns the id of the chat's row |
| ChatCreation.ChatService.InsertIfAbsent | src/modules/chats/chat.service.ts:149-160 | inserts one row exactly if there was none for session and JID, and says so |
| KeyCache.KeyStore.Get | src/modules/sessions/session.auth-state.ts:96-182 | answers exactly the decodable rows of the ids asked for (after a failed query: the cached part of them), keeps the cache coherent, leaves every id asked for in it and never answers anything but the stored value |
| KeyCache.KeyStore.Set | src/modules/sessions/session.auth-state.ts:188-258 | deletes by type and upserts in batches come to one simultaneous update of the rows named and no others, and values written can be read from the cache at once |
| KeyCache.KeyStore.Lookup | src/modules/sessions/session.auth-state.ts:103-110 | splits the ids into cached and missing ones |
| KeyCache.KeyStore.ReadRows | src/modules/sessions/session.auth-state.ts:124-157 | adds exactly the decodable rows to result and cache |
| KeyCache.KeyStore.MarkMissing | src/modules/sessions/session.auth-state.ts:159-164 | null markers never contradict the table |
| KeyCache.KeyStore.Collect | src/modules/sessions/session.auth-state.ts:197-226 | sorts the changes into deletes and upserts and updates the cache to match |
| KeyCache.KeyStore.DeleteAll | src/modules/sessions/session.auth-state.ts:228-241 | removes exactly the rows named |
| KeyCache.KeyStore.UpsertAll | src/modules/sessions/session.auth-state.ts:243-258 | writes every row given and no other, whatever the batches |
| KeyCache.Settled | src/modules/sessions/session.auth-state.ts:228-258 | deletes followed by upserts leave each key as its change says and all others alone |
| KeyCache.StaysCoherent | src/modules/sessions/session.auth-state.ts:197-226 | a write keeps every cached value equal to the stored one and every cached null without a decodable row |
| KeyCache.UpdatedOneWay | src/modules/sessions/session.auth-state.ts:188-258 | the update relation determines the resulting map |
| KeyCache.Replay | src/modules/sessions/session.auth-state.ts:69-258 | a fresh store answers every sequence of calls as a plain map does |
| Receipts.MessageTable.ProcessMessageReceiptUpdate | src/modules/sessions/session.manager.ts:1873-1950 | the table after one receipt |
| Receipts.MessageTable.MessagesUpdate | src/modules/sessions/session.manager.ts:1368-1397 | a batch of status events is the fold of its receipts in order |
| Receipts.StatusAfter | src/modules/sessions/session.manager.ts:1905-1950 | one receipt of any kind, message by message: the covered ones move as their status and the receipt's say, the others stay |
| Receipts.TouchesIff | src/modules/sessions/session.manager.ts:1905-1950 | exactly which messages a receipt changes, in their own fields, and to what |
| Receipts.StatusOfClimbs | src/modules/sessions/session.manager.ts:1381-1389 | 0 is failed, 1 to 4 climb from pending to read, 5 is read, anything else sent |
| Receipts.PointwiseMax | src/modules/sessions/session.manager.ts:1905-1950 | without failures a receipt is a pointwise maximum on the messages it covers |
| Receipts.FoldSettles | src/modules/sessions/session.manager.ts:1905-1950 | after compatible receipts of any kind the status of a message follows from which receipts there were |
| Receipts.FoldReaches | src/modules/sessions/session.manager.ts:1905-1950 | after receipts without failures a message has a level if and only if it had it or a covering receipt grants it |
| Receipts.Confluence | src/modules/sessions/session.manager.ts:1368-1426 | every order and repetition of a set of receipts leaves the same table if and only if no message is both named by a failure receipt and covered by a read receipt |
| Receipts.NeverDown | src/modules/sessions/session.manager.ts:1930-1939 | no status goes down |
| Receipts.StaysClosed | src/modules/sessions/session.manager.ts:1906-1929 | the read, and the at least delivered, outbound messages of a chat stay closed towards earlier ones |
| Receipts.FailureCommutesIff | src/modules/sessions/session.manager.ts:1930-1940 | a failure receipt commutes with another receipt if and only if that is not a read receipt covering the failed message |
| MessageStore.MessageService.UpsertMessage | src/modules/messages/message.service.ts:49-86 | a new message with its chat there is stored as it came and fires the trigger, a known one takes the new body and keeps chat and sender flag, and no other is touched |
| MessageStore.MessageService.BulkInsert | src/modules/messages/message.service.ts:111-158 | the batches come to the specified import; inserted is the growth of the table, errors the rows of broken batches, and the three counts sum to the list length with none negative |
| MessageStore.MessageService.MarkChatAsRead | src/modules/chats/chat.service.ts:454-457 | only that chat's count becomes 0 |
| MessageStore.BatchedEqualsOneShot | src/modules/messages/message.service.ts:119-154 | batching does not show: the import is one insert-if-absent pass over the batches that did not fail, over the whole list without failures, and inserted is the number of new distinct keys |
| MessageStore.FirstWins | src/modules/messages/message.service.ts:143-145 | of several entries with one new key, in one batch or several, the first is kept |
| MessageStore.InsertAllSplits | src/modules/messages/message.service.ts:119-120 | inserting a list is inserting its parts in turn |
| MessageStore.SurvivorsAre | src/modules/messages/message.service.ts:119-153 | the entries imported are those at positions whose batch of 100 did not fail |
| MessageRows.RowsAreTold | src/modules/messages/message.service.ts:49-90 | over every history each stored row is the one it came with, carried through upserts of its key and merges of its chat |
| MessageRows.BodyIsLast | src/modules/messages/message.service.ts:72-85 | the body is that of the last live upsert since the message was last inserted |
| MessageRows.SenderStays | src/modules/messages/message.service.ts:72-85 | the sender flag never changes, and without a live upsert the body does not either |
| MessageRows.RowMoves | src/modules/messages/message.service.ts:72-85 | what one event does to a row that stays |
| MessageRows.NewRows | src/modules/messages/message.service.ts:51-71 | a new row is a live message as it came, its chat there, or an entry of a history import |
| MessageRows.GoesIff | src/db/schema.ts:322 | a message goes only with its chat |
| MessageRows.AlwaysFiled | src/db/schema.ts:322 | every message is in a chat that exists, after any history |
| MessageRows.CountAfter | src/db/migrate.ts:161-167 | what each event does to a chat's unread count |
| Unread.UnreadIsExact | src/db/migrate.ts:139-167 | over every history of live messages, imports, marks as read, written counts, merges and deletions the unread count is what it was last settled at, the counts of the chats merged in since, and the number of distinct inbound messages first inserted live since |
| Unread.UnreadIsWaiting | src/db/migrate.ts:139-167 | with live messages, imports and marks as read alone and nothing unread at the start, it is the number of distinct inbound messages first inserted live since the last outbound live insert or mark-as-read |
| Unread.MergeAddsUp | src/modules/chats/chat.service.ts:950-969 | right after a merge the count is the sum of what both chats were settled at and the messages waiting in either, none counted twice |
| Unread.WaitingFiled | src/modules/messages/message.service.ts:72-85 | a waiting message is stored under its chat until that is settled |
| SyncProgress.Classify | src/modules/messages/message.sync.ts:270-334 | the entries stand for strictly increasing positions, exactly those of the messages with JID, id and chat, no reaction and no excluded JID, each with its message's id, chat, sender flag and content; the skipped count is that of the others |
| SyncProgress.StorablesAre | src/modules/messages/message.sync.ts:273-334 | the same of what a chunk imports |
| SyncProgress.ProcessChunk | src/modules/messages/message.sync.ts:270-401 | the value recorded for a chunk is its message count, whatever batches fail |
| SyncProgress.NeverAhead | src/modules/messages/message.sync.ts:79-89 | from any honest state and through any number of syncs, cleanups and retries, orderly work never shows more processed than expected, in Redis, in a report, in a copy of the metadata or in the database, and expected counts each chunk begun since the last cleanup once |
| SyncProgress.MatchedIffOrderly | src/modules/messages/message.sync.ts:398-408 | at every moment each recorded chunk has a total, and the same, if and only if each chunk is finished with its own count in the stretch in which it was begun |
| SyncProgress.HashesAre | src/modules/messages/message.sync.ts:81-82 | the hashes hold exactly the chunks begun and finished since the last cleanup |
| SyncProgress.DatabaseMonotone | src/modules/sessions/session.manager.ts:2637-2650 | over a run without such a retry or rewrite the database counters never go back, cleanups included |
| SyncProgress.RisingIff | src/modules/sessions/session.manager.ts:1562-1593 | the database counters never go back if and only if no sync-retry finds one to zero and no rewrite of the metadata puts back a copy that is below them |
| SyncProgress.OvertakenRewriteLoses | src/modules/sessions/session.manager.ts:1630-1650 | a report that raises a counter between the SELECT and the UPDATE of a rewrite is lost |
| SyncProgress.RewriteAtOnceIsIdle | src/modules/sessions/session.manager.ts:1630-1650 | a rewrite with nothing in between keeps the counters |
| SyncProgress.RetryIsIdle | src/modules/messages/message.sync.ts:81-82 | a chunk tried again moves neither sum, in whatever stretch |
| SyncProgress.SumsAreReported | src/modules/messages/message.sync.ts:400-408 | a chunk begun or finished sends off the sums of both hashes as they are then |
| SyncProgress.LastChunkReportsAll | src/modules/messages/message.sync.ts:400-408 | when the last begun chunk is finished the report shows everything processed |
| SyncProgress.CompletionReportsAll | src/modules/messages/message.sync.ts:410-412 | so does the completion of a sync, whatever is missing |
| SyncProgress.WriteReaches | src/modules/sessions/session.manager.ts:2637-2650 | a report that is written raises each counter to its value if that is higher |
| SyncProgress.CleanupOvertakes | src/modules/sessions/session.manager.ts:2656-2660 | a chunk begun before a cleanup and finished after it is ahead of the total |
| SyncProgress.ExpiryReports | src/modules/sessions/session.manager.ts:1779-1803 | when the wait for the history ends, the report shows everything if the higher of the processed counts of database and hashes has reached the higher of their totals, and zeros, which raise no counter, otherwise |
| SyncProgress.CleanupEmpties | src/modules/sessions/session.manager.ts:2656-2661 | a cleanup empties both hashes and leaves counters and reports alone |
| Pagination.PageIs | src/modules/messages/message.service.ts:170-234 | a page holds the greatest rows below the cursor in strict order, and hasMore tells exactly whether one is left |
| Pagination.PageShows | src/modules/messages/message.service.ts:170-227 | a page shows visible rows beyond the cursor, newest first, at most what was asked for and 100 |
| Pagination.PageLeavesOut | src/modules/messages/message.service.ts:203-227 | a visible row beyond the cursor that is not shown is older than all on the page, and there is more |
| Pagination.RowAfter | src/modules/messages/message.service.ts:48-81 | a row is moved by no change to another, keeps its time under a second upsert, is hidden or gone exactly when that is asked of it |
| Pagination.NextIsLastRow | src/modules/messages/message.service.ts:228-234 | the cursor is the last row shown, its time cut to the millisecond |
| Pagination.WrittenIsWhole | src/modules/messages/message.service.ts:70 | every table that upserts, imports and deletions can write has its times in whole milliseconds |
| Pagination.PagingIsExact | src/modules/messages/message.service.ts:203-234 | following the cursor over changing tables the program has written yields every row present throughout exactly once, in strictly descending order, and nothing that was never there |
| Pagination.StaticPaging | src/modules/messages/message.service.ts:203-234 | on a static table the pages end and concatenate to the whole sorted list |
| Pagination.CursorAdvances | src/modules/messages/message.service.ts:228-234 | the number of rows below the cursor shrinks from page to page |
| Pagination.CursorIsExactIff | src/modules/messages/message.service.ts:231 | the cursor selects the rows below its row if and only if the row's time is in whole milliseconds |
| Pagination.MicrosecondsWouldLoseRows | src/modules/messages/message.service.ts:231 | what the whole milliseconds are for: of two rows at one microsecond inside a millisecond the second would never be shown |
| RateLimiter.Limiter.Handle | src/security/rate-limiter.ts:79-136 | the set and expiry after a request; admitted if and only if the count is within the limit; the delay reported is the least that covers the oldest entry |
| RateLimiter.Limiter.Refusal | src/security/rate-limiter.ts:105-115 | the delay is the least whole number of seconds, at least 1, after which the oldest entry has left |
| RateLimiter.SetIsWindow | src/security/rate-limiter.ts:83-87 | the sorted set is exactly the distinct instants of all requests in (now - window, now] |
| RateLimiter.ExpiryIsInvisible | src/security/rate-limiter.ts:87 | key expiry never changes a decision |
| RateLimiter.WindowCapacity | src/security/rate-limiter.ts:94-136 | every window-long half-open interval holds at most max distinct admitted instants |
| RateLimiter.BurstIsAdmitted | src/security/rate-limiter.ts:85 | any number of requests in one millisecond are all admitted |
| RateLimiter.RequestCapacity | src/security/rate-limiter.ts:83-136 | with at most b requests at an instant every window admits at most b times the lesser of max and its milliseconds |
| RateLimiter.RequestCapacityIsMet | src/security/rate-limiter.ts:83-136 | some history meets that bound |
| RateLimiter.BoundsRequestsIff | src/security/rate-limiter.ts:83-136 | max bounds the requests of every window if and only if b times the lesser of max and the window's milliseconds does not exceed max, or nothing is admitted; for windows of max milliseconds or more, if and only if b is at most 1 or max below 1 |
| RateLimiter.OldestIsGone | src/security/rate-limiter.ts:107-115 | after the reported delay the reported oldest entry has left the window |
| Throttle.SpanCapacity | src/modules/sessions/session.manager.ts:2126-2150 | lives of at most limit passes, at least 59 501 ms apart, put at most 2 * limit - 1 passes into any 59 501 ms |
| Throttle.RunCapacity | src/modules/sessions/session.manager.ts:2126-2150 | so does every run of the counter loop |
| Throttle.AlwaysInv | src/modules/sessions/session.manager.ts:2126-2150 | every command and sleep of the loop keeps the counter in step with the passes and the lives apart |
| Throttle.SpanIsTight | src/modules/sessions/session.manager.ts:2126-2150 | for every positive limit some run of the loop meets that bound |
| Throttle.FirstDeletable | src/modules/sessions/session.manager.ts:2136-2141 | a counter may be deleted from 59 501 ms after its EXPIRE on, and no sooner |
| Throttle.SleepsOutTheLife | src/modules/sessions/session.manager.ts:2136-2149 | a wait ends within half a second of the end of the counter's life |
| Throttle.PassesIff | src/modules/sessions/session.manager.ts:2126-2134 | some run of the loop records a pass if and only if the limit is positive |
| Throttle.GapRange | src/modules/sessions/session.manager.ts:2160-2162 | the drawn gap lies between the configured minimum and the larger of the two bounds |
| Throttle.GapReaches | src/modules/sessions/session.manager.ts:2160-2162 | every whole number of milliseconds between the bounds can be drawn |
| Throttle.NoNeedlessWait | src/modules/sessions/session.manager.ts:2164-2173 | with no live stamp, or one as old as the gap, a send is not held back |
| Throttle.GapIsKeptIff | src/modules/sessions/session.manager.ts:2164-2169 | consecutive stamps are never closer than the minimum if and only if the minimum does not exceed the key's life |
| Throttle.OutboundThrottle.WaitForSlot | src/modules/sessions/session.manager.ts:2126-2150 | it is a run of the loop, it ends, it records exactly one pass, and no life of the counter admits more than the limit |
| Throttle.OutboundThrottle.WaitOut | src/modules/sessions/session.manager.ts:2136-2149 | each wait takes time off the counter's remaining life |
| Throttle.OutboundThrottle.CountSend | src/modules/sessions/session.manager.ts:2129-2133 | one pass more, in the running life or the first of a new one |
| Throttle.OutboundThrottle.PaceGap | src/modules/sessions/session.manager.ts:2159-2170 | waits until the gap since the stored stamp is over and stores the new one |
| Throttle.OutboundThrottle.ThrottleOutboundSend | src/modules/sessions/session.manager.ts:2120-2154 | cap then gap: a run of the loop with one pass, the span bound, and the minimum distance to the previous stamp |

## Left out

- Liveness of reconnection: "eventually connected or given up" does not hold, as `Supervisor.FailedReconnectStrands` shows.
- The 2 to 5 s stagger between the owner check and the initialization in `runReconciliation`: a visit is one step.
- The status column of sessions; `forceTerminateSocket` rewrites `connection_failed` to `disconnected`, so the model relies on the metadata flags. Reconciliation may visit any session here; the source's query skips some statuses.
- Lease.Params: no clock drift between replicas, and no SET whose reply is lost after Redis has executed it; that would break the order of commands the protocol relies on.
- The unconditional deletion of the owner key when a session is deleted (`src/modules/sessions/session.routes.ts:537`); its row is removed next.
- Supervisor.Step: handlers are atomic, except that a copy of a session's metadata may be written back at any later time; awaits inside them, the `initializingSessions` guard and the presence, sync and credential timers are not modelled.
- Reconnection.BoundedReconnection: restart-required reconnects (code 515) are immediate and not counted, in the source as in the model.
- LidMapping.LidTable.ResolveLidJid: errors of Redis or the database, which return the JID unchanged, are not modelled; of several contacts with the same lid any may be found.
- LidMapping.LidTable.SaveLidMapping: the merge it triggers is a separate step (ChatTables.Database.MergeLidChatAndContact).
- ChatTables.Merge: the transaction is one step, apart from messages that arrive before its DELETE (ChatMerge.ArrivalIsLostIff); `updatedAt`, contact metadata, broadcasts and a rolled-back transaction are not modelled.
- MergeOrder.OrderIndependence: preview text and contact fields depend on the order and are not part of the claim.
- ChatCreation.RaceSafe: database errors, which make a call return null, chats that `upsertChat` inserts and renames of chats by merges are not modelled.
- KeyCache.KeyStore.Set: a failing write and calls that overlap are not modelled; a read waiting on the database can then put a null marker over a fresh write. Ids named like members of Object.prototype, encryption (a row opens to what was sealed or to nothing) and the credentials row are left out as well.
- Receipts.Confluence: status writes by upserts, which may lower a status. The resolved JID of a receipt is only logged.
- Unread.UnreadIsExact: the guard in `upsertChat` that writes the count only during history sync or when it is 0 is not modelled; any count may be written.
- SyncProgress.NeverAhead: the HSET and the two HVALS of one report, and the two DELs of a cleanup, are one step each; two chunks with one key are one chunk.
- SyncProgress.Classify: extraction of message content and previews, and the sender's JID; the answers of resolveLidJid and ensureChatExists come with the message.
- Pagination.PagingIsExact: the UUID order is modelled on naturals; `getChatList` and `listReadEvents` have cursors that do not match their sort order, so no such claim holds of them.
- RateLimiter.Limiter.Handle: the path that lets a request through on a Redis error, the fallback delay when the oldest entry cannot be read, `skip` and the choice of bucket.
- Throttle.OutboundThrottle.WaitForSlot: one worker per session; a failure between INCR and EXPIRE, which would leave a counter without expiry, is not modelled.
- Baileys, BullMQ, Drizzle, ioredis, MinIO, mail, media conversion and cryptography; routes, dashboards, logging, metrics and repair scripts.
- The event bus's job counters and the webhook breaker, which would only add easy members.
