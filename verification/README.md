# LikeGoChat, modelled and verified in Dafny

LikeGoChat is a chat system of four layers: clients on WebSockets, Connect nodes that hold the
connections and the chat rooms, a Logic service for logins, groups and message ids, and a Task
service that reads the message logs, stores messages and fans them out. Its difficulty lies in a
handful of small concurrent protocols over shared maps. This project models those protocols and
proves what they keep.

## How the model is built

Every stretch of code that one lock, one Redis script or one SQL statement makes atomic is a pure
function. The functions are used twice:

* **as the specification of the code.** A class has the fields of the Go struct, and each method is
  proved to take the old contents to what the function says (`Room`, `RoomManager`, `Connections`,
  `SendQueue`, `PersistConsumer`, `SessionStore`, `GroupServer`, `MessageId`, `Fanout`, `ClientPool`);
* **as the steps of a protocol.** A state machine has any number of threads with program counters,
  each action runs one atomic section of one thread, and the theorems are about every run
  (`RoomProtocol`, `RoomLinearizability`, `ClientRooms`, `ClientMembership`, `ClientMembershipLimits`,
  `ConnectionProtocol`, `ConnectionRouting`, `PersistProtocol`,
  `PersistDraining`, `PersistConfluence`, `SessionProtocol`, `GroupCacheProtocol`, `GroupOwnerProtocol`,
  `GroupCacheLimits`, `ClientPoolProtocol`).

`Roster` and `RoomSpec` hold what rooms mean as values; `MessageTable` holds the table with two unique
keys; `Delivery` joins the fan-out plan to the pushes that carry it out.

Results of I/O and of scheduling are parameters: the outcome of an insert, whether Redis was reached,
whether a connection could be dialled, which ready case a `select` takes, the order of a map iteration,
the clock. The room hash is an arbitrary function to 32-bit numbers, the partitioner an arbitrary function
of the destination, and decoding a partial function.

## Main results

1. **The room registry is linearizable.** Each call is split at its lock boundaries. A leave or a broadcast that holds a
   room which another thread unmaps takes effect at that unmapping, so the proof performs waiting calls
   on other threads' behalf (`RegistryIsLinearizable`). The object it is linearizable to is one flat map from room and user
   to channel with assignment and conditional delete (`PerformIsFlat`).
2. **No stranded members, no leaked rooms.** Unmapped rooms are empty for good, empty mapped rooms always have a
   thread due to fill or reap them, and a quiet registry has neither empty rooms nor members outside a mapped room.
3. **Teardown is complete and takes out nobody else.** A connection that has left all its rooms is in no room object, mapped or not, and
   none of the steps with which it leaves removes another connection's membership. But a user has one place in a room: a connection
   between commands is in a room if and only if the room is in its set and the last join of that room by its user was its own
   (`MemberIffLastJoin`). So a late join of an older connection, followed by its teardown, leaves the newer one out (`LateJoinEvictsNewer`).
4. **Persisting has an exactly-once effect** under failed writes that landed or land late, crashes before the mark, redelivery and
   overlapping consumers: in every run the table is one insert-or-ignore pass over an order-keeping merge of log prefixes
   (`EveryRunIsOnePass`, with no assumption on ids). Fully consumed logs give the same rows in every interleaving if and only if no two
   partitions' survivors share a server id (`DrainedRunsAgreeIff`), and of each client message the earliest is stored if and only if
   these earliest messages have server ids of their own (`EarliestOfEachKeyPersistsIff`).
5. **Sessions.** The two indexes are one map from user to session, on which login, logout and the two-read check are each atomic.
6. **Group cache.** Never more than the members and the placeholder; with refills shorter than 200 ms never less than
   the users whose second delete is done, nor less than the owner from 200 ms and a placeholder's life after the creation on;
   and exactly when a settled user or the owner is denied.
7. **Every connection is accounted for**, both client connections and pooled connections to nodes: in the table, or in the hands of
   one thread that will close it, or closed once.

## Facts about the code worth knowing

* `CreateGroup` deletes no cached members. The cached members lack the owner exactly while they are the placeholder
  (`OwnerIsHiddenIff`), whether it was cached before the group was created or by a refill that had read the database before. With refills
  under 200 ms that is over by 199 ms and the placeholder's five minutes after the creation (`OwnerIsCachedFrom`), and not a
  millisecond sooner (`PlaceholderShutsOutOwner`). `OwnerAnswerIsRightUnless` says which questions about the owner are denied.
* `IsGroupMember` denies a settled member exactly if the cache was empty at its first read and present at its second
  (`SettledAnswerIsRightUnless`, and `RefillBetweenReadsDeniesMember` for a run).
* The 200 ms before the second delete is a tight bound on refills (`SlowRefillHidesSettledUser`).
* Message ids have no node bits, so two Logic processes can issue the same id. If the two messages are in different partitions, which of them
  is stored depends on the order of arrival (`SharedIdsMakeOrderMatter`). If they are in one partition and have different client keys,
  the second is lost for good (`EarliestSurvivesIff`).
* Callers read the clock and draw from the counter in two steps. A caller that is slow in between can draw an id that was issued
  already, although no two draws exactly 2^20 apart share a millisecond (`LateDrawCollides`).
* A comment at `internal/logic/chatserver.go:23` says 2^20 - 1 ids per millisecond. The code gives 2^20 different ones, and the counter
  is not reset per millisecond (`UniqueInClockOrderIff`).
* Unregistering deletes the user's route whoever is connected by then. It hits a newer connection if and only if one was admitted after the
  withdrawal and is still there (`UnregisterHitsIff`); that connection is then live and routed nowhere (`UnregisterStripsNewer`).
* The unused `RevokeActiveSessionForUser` followed by `CreateSession` loses concurrent logins, as the comment at
  `internal/logic/auth.go:81` says (`SeparateCommandsLoseALogin`).
* `bucketByRoomID` truncates the bucket count to 32 bits and would divide by zero exactly for requests of a
  positive multiple of 2^32 (`UnusableCountIff`).

## Model

| member | source | states |
|---|---|---|
| RoomLinearizability.RegistryIsLinearizable | internal/connect/room_manager.go:51-114 | every interleaving of any number of joins, leaves and broadcasts, split at their locks, shows the same calls and returns as whole calls done at one instant each on one flat map |
| RoomLinearizability.ReturnedWasPerformed | internal/connect/room_manager.go:51-114 | whatever a call of such a run returns is the answer of the one instant at which it was performed |
| RoomLinearizability.ReturnedBroadcastAnswers | internal/connect/room_manager.go:104-114 | a broadcast that returns in any run was sent to exactly the channels of the members other than the sender, as many as there are, of the room at that instant |
| RoomProtocol.EventsAreVisible | internal/connect/room_manager.go:51-114 | every call and every return of a run is seen from outside, in order, and nothing else |
| RoomLinearizability.StepLifts | internal/connect/room_manager.go:51-114 | each atomic section is a run of the atomic object: its own call, nothing, or the calls of the threads that wait on the room it unmaps |
| RoomLinearizability.HelpOne | internal/connect/room_manager.go:84-100 | a leave or broadcast that waits on the room being unmapped can be performed at that moment, with the effect and response that the code gives it later |
| RoomLinearizability.StaleRoomLifts | internal/connect/room.go:50-93 | a leave or broadcast that runs on an unmapped room finds it empty and changes nothing that can be seen |
| RoomLinearizability.SectionEffect | internal/connect/room_manager.go:51-114 | only a thread's own call changes the flat map; calls it performs for others are on a room without members |
| RoomLinearizability.EmptyRoomsAreLookedAfter | internal/connect/room_manager.go:82-101 | in every run unmapped rooms are empty, and an empty mapped room has a thread due to run the double-checked delete on it or to join it |
| RoomLinearizability.UnmappedForGood | internal/connect/room_manager.go:51-64 | a room object that has been unmapped is never mapped again |
| RoomLinearizability.QuiescentIsTidy | internal/connect/room_manager.go:82-101 | with no call half done, no mapped room is empty and no member is outside a mapped room |
| RoomProtocol.NextKeepsInv | internal/connect/room_manager.go:51-114 | every section keeps: one object per mapped id, unique members, empty unmapped rooms, bucket locks exclusive, empty rooms looked after |
| RoomSpec.PerformIsFlat | internal/connect/room.go:31-66 | a join is an assignment to (room, user) and a leave a delete that depends on the channel, and nothing else of the map changes |
| RoomSpec.PerformAnswers | internal/connect/room.go:70-81 | a broadcast answers with the channels of all members but the sender, and with no others; a join and a leave answer nothing |
| RoomSpec.ObeyIsObeyed | internal/connect/ws_handler.go:220-236 | a command sets or conditionally deletes the client's own place in that one room, books or unbooks that one room, and leaves every other user, room and booking alone |
| RoomSpec.OneMoreCommand | internal/connect/ws_handler.go:206-237 | each command of a sequence is obeyed in the state that the ones before it leave |
| RoomSpec.PerformKeepsUnique | internal/connect/room.go:31-66 | no call puts a user into a room twice |
| RoomSpec.TargetsAreTheOthers | internal/connect/room.go:70-81 | a broadcast goes to every member but the sender |
| RoomSpec.TargetsDiffer | internal/connect/room.go:74-80 | with a channel per member no channel is targeted twice and the sender's is not targeted |
| RoomSpec.LeftEntries | internal/connect/room.go:50-66 | a leave on a channel removes that channel and no other entry |
| RoomSpec.SessionLeavesNothing | internal/connect/ws_handler.go:222-235 | after any commands and the final leaving of all rooms, the connection's channel is nowhere and all others are where they were |
| Roster.FindJoined | internal/connect/room.go:31-46 | after a join the user is found on the new channel and everybody else as before |
| Roster.FindLeft | internal/connect/room.go:50-66 | a leave removes the user if served on the expected channel, or on any if none is given, and nobody else |
| Roster.UsersJoined | internal/connect/room.go:35-45 | a rejoin keeps the place in the list, a first join goes to the back |
| Roster.UsersLeft | internal/connect/room.go:58-65 | a leave keeps the order of the others, and on a mismatch the whole list |
| Room.Room.Join | internal/connect/room.go:31-46 | the list of nodes and its index, updated in place, stay in step and hold the roster after the join |
| Room.Room.Leave | internal/connect/room.go:50-66 | the same for the leave; the result tells whether the room is empty, on all three paths |
| Room.Room.Broadcast | internal/connect/room.go:70-93 | every other member's queue gets the payload as far as it has room, and the result is the number of sends that went through |
| Room.OneCopyEach | internal/connect/room.go:83-92 | with a channel per member, each gets one copy at most and the count is the number of queues that had room |
| Room.BroadcastCountsQueues | internal/connect/room.go:70-93 | when the members' channels differ the reported number is that of the other members' queues with room, each extended once, and the sender's is untouched |
| Room.UnlinkKeepsLinked | internal/connect/room.go:63-64 | removing one node from list and index keeps them in step |
| RoomManager.BucketOf | internal/connect/room_manager.go:35-49 | the bucket index is in range for every hash and every usable count |
| RoomManager.BucketIsRemainder | internal/connect/room_manager.go:35-49 | for counts below 2^32 it is the remainder of the hash by the count |
| RoomManager.BucketCount | internal/connect/room_manager.go:24-33 | any requested count, also zero or less, gives at least one bucket |
| RoomManager.UnusableCountIff | internal/connect/room_manager.go:24-49 | the 32-bit count is zero exactly for requests of a positive multiple of 2^32 |
| RoomManager.RoomManager.constructor | internal/connect/room_manager.go:24-33 | a new manager is empty and has the requested or the default number of buckets |
| RoomManager.RoomManager.JoinRoom | internal/connect/room_manager.go:51-64 | over all buckets the manager is one map, and a join does on it what the flat specification says |
| RoomManager.RoomManager.LeaveRoom | internal/connect/room_manager.go:67-102 | the three sections of a leave, run one after the other, do on that map what the flat specification says, and map no empty room if none was mapped before |
| RoomManager.RoomManager.BroadcastRoom | internal/connect/room_manager.go:104-114 | a broadcast reaches the other members of that room in that map, and of no room if there is none |
| RoomManager.RoomManager.Reap | internal/connect/room_manager.go:84-101 | the room goes exactly if it is still the one mapped and still empty, which never shows in the map of members |
| RoomManager.FileOne | internal/connect/room_manager.go:52-61 | filing a room in its own bucket puts it into the one map and frames all other ids and buckets |
| RoomManager.UnfileOne | internal/connect/room_manager.go:98-100 | deleting from its bucket takes exactly that id out of the one map |
| ClientRooms.ClosedClientIsNowhere | internal/connect/ws_handler.go:293-306 | in every interleaving, when a connection has gone through all its rooms no room object, mapped or unmapped, holds its channel |
| ClientRooms.HeldRoomsAreBooked | internal/connect/ws_handler.go:220-236 | between commands, a room that holds a connection's channel is in the connection's own set of rooms |
| ClientRooms.ReceiveStartsTheCall | internal/connect/ws_handler.go:220-236 | a join or leave command with a positive room id starts that call for the client's own user and channel; any other command changes nothing |
| ClientMembership.MemberIffLastJoin | internal/connect/ws_handler.go:222-236 | in every run a connection between commands is in a room if and only if the room is in its set and no other connection of its user has joined that room after it |
| ClientMembership.OnlyConnectionIsMember | internal/connect/ws_handler.go:222-236 | so a user's only connection is, between commands, in exactly the rooms of its set |
| ClientMembership.DoKeepsTrack | internal/connect/ws_handler.go:190-237 | every step of read loops, registry calls and broadcasters keeps track of whose join was the last |
| ClientMembershipLimits.LateJoinEvictsNewer | internal/connect/ws_handler.go:222-235 | a run in which an older connection's late join and teardown leave a newer connection of the same user, with the room in its set, in no room |
| ClientRooms.TeardownSparesOthers | internal/connect/ws_handler.go:229-235 | no step of a leaving connection removes or changes another connection's membership, its user's newer ones included |
| ClientRooms.ChannelsInARoomDiffer | internal/connect/ws_handler.go:227 | in every run the members of a room have different channels, as a client joins only with its own |
| ClientRooms.DoKeepsInv | internal/connect/ws_handler.go:190-237 | every step of read loops, registry calls and broadcasters keeps the bookkeeping invariant |
| Connections.Client.LeaveAllRooms | internal/connect/ws_handler.go:293-306 | the set of rooms is taken and every room in it left, whatever the order |
| Connections.Client.Execute | internal/connect/ws_handler.go:220-236 | after a join command the user is in the room on this connection's channel and the room is booked; after a leave command the user is gone if served on this channel, and the room is not booked; all else stays, and room ids of zero or less change nothing |
| Connections.Client.ReadPump | internal/connect/ws_handler.go:190-237 | the loop does all commands in order and then leaves all rooms |
| Connections.Client.CloseConn | internal/connect/ws_handler.go:94-99 | closes the done channel at most once |
| Connections.Client.TrySend | internal/connect/ws_handler.go:125-135 | never blocks; enqueues exactly if there is room and the runtime does not choose a done client's done case |
| Connections.ConnectionManager.AddClient | internal/connect/ws_handler.go:72-86 | the newcomer is mapped, whoever was displaced is closed, and adding a client twice closes nobody |
| Connections.ConnectionManager.RemoveClientIfMatch | internal/connect/ws_handler.go:102-122 | removes and closes exactly a matching entry and says whether it did |
| Connections.ConnectionManager.PushMsg | internal/connect/grpcserver.go:15-29 | succeeds exactly if the user is here and takes the message, which is then the last of the queue |
| Connections.ConnectionManager.PushMsgToUsers | internal/connect/grpcserver.go:31-51 | each queue found holds what it held and one copy per offer it took; success means that no client found refused |
| Connections.PushOffersOnce | internal/connect/grpcserver.go:31-51 | a push to different users offers each one's queue one copy and nobody else's any |
| Connections.AtMostOneCopy | internal/connect/grpcserver.go:44-49 | offers to different queues leave one copy where there was room and no refusal, and none elsewhere |
| Connections.AllAdmittedIff | internal/connect/grpcserver.go:44-51 | a push to different queues is a success exactly if nobody refuses and every queue has room |
| Connections.AdmitKeepsOwnQueues | internal/connect/ws_handler.go:72-122 | users keep having queues of their own when clients with new queues come and clients go |
| ConnectionProtocol.EveryConnectionIsAccountedFor | internal/connect/ws_handler.go:72-122 | in every run an admitted connection is mapped, or has exactly one thread about to close it, or was closed exactly once |
| ConnectionProtocol.AllGoneAllClosed | internal/connect/ws_handler.go:176-196 | when all connections are done the table is empty and each was closed once, also after failed registrations |
| ConnectionProtocol.FailedRegistrationWithdraws | internal/connect/ws_handler.go:177-183 | a connection whose registration fails withdraws next, is closed once, and never unregisters its user |
| ConnectionProtocol.LiveIsRegistered | internal/connect/ws_handler.go:176-187 | exactly a successful registration makes a connection live and routes its user here |
| ConnectionProtocol.DisplacedLeavesSuccessorAlone | internal/connect/ws_handler.go:190-196 | a displaced connection takes nobody out of the table and never unregisters its user |
| ConnectionRouting.UnregisterHitsIff | internal/connect/ws_handler.go:190-196 | at a connection's unregistering its user is connected again if and only if a connection was admitted since the withdrawal and has neither been displaced nor withdrawn; the route is deleted all the same |
| ConnectionRouting.UnregisterStripsNewer | internal/connect/registry.go:32-35 | a run that ends with a live, mapped connection whose user has no route |
| ConnectionProtocol.NextKeepsInv | internal/connect/ws_handler.go:72-122 | every step of admitting, registering, withdrawing, closing and unregistering keeps that accounting |
| MessageTable.ClashMeans | sql/schema.sql:46-48 | two rows clash exactly if they agree in the server's id, or in sender, destination and client message id |
| MessageTable.InsertMeans | internal/task/consumer.go:478 | a row is appended as it is exactly if no row has its server id or all three parts of its client key; otherwise nothing happens |
| MessageTable.InsertTakesIn | sql/schema.sql:46-48 | inserting again does nothing, and a message that clashes goes on clashing |
| MessageTable.AbsorbTakesIn | internal/task/consumer.go:478 | after a pass every decodable message of the log is stored or clashes with a stored one |
| MessageTable.AddedRows | sql/schema.sql:46-48 | a row that a pass adds comes from the log and clashes with no row before it |
| MessageTable.EarliestSurvivesIff | sql/schema.sql:46-48 | a pass stores exactly the earliest message of each client key if and only if these messages have server ids of their own |
| MessageTable.IdsFollowKeysSuffices | internal/logic/chatserver.go:22-26 | they have if equal server ids occur only on copies of one client message |
| PersistConsumer.PersistConsumer.Process | internal/task/consumer.go:519-541 | one attempt: what is written, and when it counts as done, for both topics, unknown topics, undecodable messages and a missing database |
| PersistConsumer.PersistConsumer.ConsumeClaim | internal/task/consumer.go:508-576 | the nested loops leave the tables and the number of marked messages that the account of a session gives; successes are marked until all is, and when every attempt settles its message the whole claim is handled and marked |
| PersistConsumer.PersistConsumer.OneMoreAttempt | internal/task/consumer.go:515-574 | each attempt is for the first unmarked message, writes it unless the insert did not get through, and marks it exactly if it is settled; otherwise the next attempt is for the same message |
| PersistConsumer.PersistConsumer.SuccessesAreMarked | internal/task/consumer.go:550-574 | every success is for a message that is then marked, until all are |
| PersistConsumer.PersistConsumer.AllSettled | internal/task/consumer.go:508-576 | with enough attempts that each settle their message, the whole claim is handled and marked |
| PersistConsumer.PersistConsumer.HandleMeans | internal/task/consumer.go:523-541 | a message of either topic is inserted into that topic's table if it can be decoded, and nothing else does anything |
| PersistConsumer.PersistConsumer.SessionIsOnePass | internal/task/consumer.go:508-576 | however the attempts end, a session leaves one in-order pass over the marked messages and at most one more |
| PersistConsumer.PersistConsumer.HandleAllIsOnePass | internal/task/consumer.go:519-541 | such a pass is, for each of the two tables, one insert-or-ignore pass over the rows that the messages of its topic decode to |
| PersistConsumer.PersistConsumer.NoDatabaseNoMark | internal/task/consumer.go:465-467 | without a database only messages that need no insert are marked |
| PersistProtocol.EveryRunIsOnePass | internal/task/consumer.go:508-576 | in every run, with ambiguous and late writes, crashes, redelivery and overlapping consumers, and for any ids and keys, the table is one insert-or-ignore pass over a merge of log prefixes that keeps each log's order and covers what is committed |
| PersistProtocol.FailedAttempt | internal/task/consumer.go:555-571 | an attempt reported to have failed leaves the consumer with the same message to retry, its row in the table, or not there but able to land later |
| PersistDraining.CanAlwaysGetOn | internal/task/consumer.go:515-574 | whatever went wrong before, a consumer with a message in hand can still store it, mark it and go on to the next |
| PersistProtocol.OnePartitionOnePass | internal/task/consumer.go:508-576 | with one partition the whole table is such a pass over a prefix of the log |
| PersistProtocol.MarkedIsStored | internal/task/consumer.go:545-574 | what a consumer has marked is stored, clashes with a stored message, or cannot be decoded |
| PersistProtocol.CommittedIsStored | internal/task/consumer.go:545-574 | and so is what is committed |
| PersistProtocol.NextKeepsInv | internal/task/consumer.go:508-576 | every claim, attempt, retry, mark, commit, crash and late write keeps the table such a pass with nobody ahead of it |
| PersistConfluence.ExactlyOnceEffect | internal/task/consumer.go:508-576 | when no two partitions' survivors share a server id, the rows a run adds from one partition are what one in-order pass over a prefix of its log alone adds |
| PersistConfluence.EarliestOfEachKeyPersists | sql/schema.sql:103-105 | and in every run they are the messages that came first with their client key, given that those of the partition have server ids of their own |
| PersistConfluence.EarliestOfEachKeyPersistsIff | sql/schema.sql:103-105 | in a drained run they are that if and only if those messages have server ids of their own |
| PersistConfluence.DrainedRunsAgree | internal/logic/producer.go:13 | once all is committed the rows are the same whatever the interleaving of partitions and the failures were, when survivors share no id |
| PersistConfluence.DrainedRunsAgreeIff | internal/logic/producer.go:13 | and all drained runs store the same rows if and only if no two partitions' survivors share a server id |
| PersistConfluence.ApartIff | internal/task/consumer.go:478 | where each partition's firsts have ids of their own, that is: no two firsts of different partitions share an id |
| PersistConfluence.UnsharedIdsSuffice | internal/logic/chatserver.go:129-133 | it is enough that no server id occurs in two partitions' logs |
| PersistConfluence.ClashIsOwn | internal/logic/chatserver.go:65-70 | as the partition is chosen by a part of the client key, a message then clashes exactly if it clashes with its partition's own rows |
| PersistConfluence.FirstComeFirstServed | internal/logic/chatserver.go:22-26 | if survivors of two partitions share an id, a run that drains one partition first stores its row and never the other's |
| PersistConfluence.SharedIdsMakeOrderMatter | internal/logic/chatserver.go:22-26 | two drained runs over two partitions, each with a message of the same id, store one message each, and not the same one |
| SessionStore.Store.RefreshSession | internal/logic/store.go:104-132 | the script replaces the user's session in both indexes and drops the old entry |
| SessionStore.Store.IsSessionActive | internal/logic/store.go:135-158 | the outcome of the two reads, in each of its four forms |
| SessionStore.Store.DeleteSession | internal/logic/store.go:161-195 | drops the session, and the user's entry only while it is this session |
| SessionProtocol.CallsAreAtomic | internal/logic/store.go:104-195 | in every run each login, check and logout takes effect, with the answer it gives, at its last step on one map from user to session |
| SessionProtocol.BegunIsTheCall | internal/logic/store.go:104-195 | what a thread begins is the very call it was asked for, with nothing done yet |
| SessionProtocol.LoginLasts | internal/logic/store.go:119-122 | a session that nobody replaces or ends is current for exactly the time to live |
| SessionProtocol.FirstReadFindsCurrent | internal/logic/store.go:136-142 | the first read succeeds exactly on a current session, so a failure at the second read means that it ended in between |
| SessionProtocol.VerdictIsExact | internal/logic/store.go:135-158 | success means that this is now the user's one and only current session, "invalid" and "expired or revoked" that nobody has this session, the latter also that its user has none, and "another device" that its user has another one |
| SessionProtocol.NextKeepsInv | internal/logic/store.go:104-195 | the live parts of the indexes stay mutually inverse with equal expiry, through every step and any passing of time |
| SessionProtocol.LoginStep | internal/logic/store.go:111-125 | the login script sets exactly the user's current session |
| SessionProtocol.LogoutStep | internal/logic/store.go:178-189 | a logout however late ends its own session and never a newer one |
| SessionProtocol.ExpiryIsShared | internal/logic/store.go:119-122 | time ends sessions in both indexes at once |
| SessionProtocol.SeparateCommandsLoseALogin | internal/logic/store.go:74-101 | revoking and creating in separate commands throws a concurrent login out |
| GroupServer.GroupServer.CreateGroup | internal/logic/groupserver.go:158-201 | creates group and owner together or neither, with the exact refusals under whatever collation compares names, and keeps the count of members right |
| GroupServer.GroupServer.AddGroup | internal/logic/groupserver.go:19-107 | adds an absent user to an active group, counts only new rows, and for those deletes the cache and schedules the second delete |
| GroupServer.GroupServer.SecondDelete | internal/logic/groupserver.go:95-105 | the deferred delete removes the cached members of its group |
| GroupServer.GroupServer.RefreshGroupMembersCache | internal/logic/groupserver.go:110-156 | answers with the active members and caches them, or a placeholder; fails when real members could not be cached |
| GroupServer.GroupServer.IsGroupMember | internal/logic/store.go:198-265 | undisturbed, answers from a present cache and otherwise from the database, which it caches |
| GroupServer.WithMember | internal/logic/groupserver.go:39-60 | an absent user gets an active row, and every row that was there stays as it is |
| GroupServer.EntryServes | internal/logic/groupserver.go:128-147 | cached members are served for a day, the placeholder, which is no member, for five minutes |
| GroupCacheProtocol.AnswersFollowBasis | internal/logic/store.go:198-265 | in every run an answer is yes exactly if the user was in the cache or in what the joined refill read |
| GroupCacheProtocol.FirstReadFinds | internal/logic/store.go:202-208 | a first read says yes exactly to whom an unexpired cache holds |
| GroupCacheProtocol.NeverMoreThanMembers | internal/logic/store.go:198-265 | in every run cached members and positive answers are members, the placeholder aside |
| GroupCacheProtocol.SettledUserIsCached | internal/logic/groupserver.go:86-107 | with refills under 200 ms, no cache entry lacks a user for whom both deletes are done |
| GroupCacheProtocol.SettledAnswerIsRightUnless | internal/logic/store.go:198-265 | a settled user is denied if and only if the cache was empty at the first read and present at the second |
| GroupCacheProtocol.NextKeepsInv | internal/logic/groupserver.go:86-156 | every timely step keeps settled users in the cache and in every refill read since the first delete |
| GroupOwnerProtocol.OwnerIsHiddenIff | internal/logic/groupserver.go:158-201 | in every run the owner is an active member, and cached members lack the owner if and only if they are the placeholder |
| GroupOwnerProtocol.OwnerAnswerIsRightUnless | internal/logic/store.go:198-265 | in every run a question about an existing group's owner is denied if and only if it missed and then found the cache present, or a refill gave it no members at all |
| GroupOwnerProtocol.OwnerIsCachedFrom | internal/logic/groupserver.go:128-136 | with refills under 200 ms, no present entry lacks the owner from 199 ms and a placeholder's life after the creation on |
| GroupOwnerProtocol.LateOwnerAnswerIsRightUnless | internal/logic/store.go:201-218 | from then on the owner is denied only as a settled user is: if and only if the cache was empty at the first read and present at the second |
| GroupOwnerProtocol.NextKeepsOwnerTimes | internal/logic/groupserver.go:110-201 | every timely step keeps placeholders short-lived once there is an owner |
| GroupCacheLimits.SlowRefillHidesSettledUser | internal/logic/groupserver.go:96 | a refill of exactly 200 ms can hide a settled user |
| GroupCacheLimits.RefillBetweenReadsDeniesMember | internal/logic/store.go:202-218 | a run in which a settled member is denied although every refill is quick |
| GroupCacheLimits.PlaceholderShutsOutOwner | internal/logic/groupserver.go:158-201 | timely runs in which the owner is denied, up to the last millisecond before the bound above |
| MessageId.IdSource.NextMessageID | internal/logic/chatserver.go:20-26 | raises the counter by one, wrapping at 64 bits, and packs its low 20 bits under the millisecond |
| MessageId.DrawAll | internal/logic/chatserver.go:20-26 | consecutive calls give exactly the ids that the results on runs of draws are about |
| MessageId.Decode | internal/logic/chatserver.go:22-26 | an id gives back millisecond and sequence, for milliseconds below 2^43 |
| MessageId.CollideIff | internal/logic/chatserver.go:22-26 | ids are equal exactly for the same millisecond and counters equal modulo 2^20, and grow with the millisecond |
| MessageId.DrawsCollideIff | internal/logic/chatserver.go:20-26 | two draws of one process collide exactly if they share the millisecond and lie a multiple of 2^20 draws apart, wherever the counter started |
| MessageId.UniqueIff | internal/logic/chatserver.go:20-26 | for any clock readings below 2^43, ids of one process are unique if and only if no two draws of one millisecond lie a multiple of 2^20 draws apart |
| MessageId.UniqueIfCloseTogether | internal/logic/chatserver.go:20-26 | ids are unique if the draws of each millisecond lie within 2^20 consecutive draws, in whatever order the readings come |
| MessageId.UniqueInClockOrderIff | internal/logic/chatserver.go:20-26 | if draws come in the order of their clock readings, ids are unique if and only if no millisecond sees more than 2^20 draws |
| MessageId.LateDrawCollides | internal/logic/chatserver.go:46-47 | a draw that comes late for its clock reading can repeat an id, although no draw shares the millisecond of the one 2^20 before it |
| MessageId.ShiftWrapsAround | internal/logic/chatserver.go:25 | milliseconds 2^44 apart give the same ids |
| Fanout.GetOnlineRoutingMap | internal/task/consumer.go:579-617 | groups the users by the node each is routed to, in order, leaving out those with no or an empty route |
| Fanout.HandleSmallGroupMessage | internal/task/consumer.go:183-268 | the node calls made on a cache hit, a miss and the placeholder, and the errors |
| Fanout.MakeCalls | internal/task/consumer.go:234-266 | one call per node that has anybody left once the sender is out |
| Fanout.PlanIsExact | internal/task/consumer.go:183-268 | every routed member but the sender is called once, on its own node, and no node in vain |
| Fanout.ParsedAreNamed | internal/task/consumer.go:435-442 | on a cache hit the recipients are exactly the users whom some entry names |
| Fanout.AnyPathSamePlan | internal/task/consumer.go:421-449 | for a cache that agrees with the members, hit, miss and placeholder lead to the same calls |
| Delivery.FanoutOffersOnce | internal/task/consumer.go:234-267 | across fan-out and push, a user's queue on a node is offered the message exactly if the user is a member routed there and not the sender, and once |
| Delivery.FanoutDeliversAtMostOnce | internal/connect/grpcserver.go:31-51 | across fan-out and push, each queue grows by one copy if its user is meant, has room and does not refuse, and else by none |
| ClientPool.ConnectClientPool.GetClient | internal/task/rpc_client.go:34-60 | returns the pooled connection, or a new open one that is then pooled, or none if it cannot be dialled |
| ClientPool.ConnectClientPool.CloseClient | internal/task/rpc_client.go:61-73 | takes the node's connection out and closes it, leaving the others pooled |
| ClientPool.ConnectClientPool.CloseAll | internal/task/rpc_client.go:75-90 | empties the pool and closes everything that was in it |
| ClientPoolProtocol.EveryConnectionIsAccountedFor | internal/task/rpc_client.go:34-90 | in every interleaving each connection created is pooled, or detached by exactly one closing thread, or was closed exactly once |
| ClientPoolProtocol.GetsAgreeIff | internal/task/rpc_client.go:34-90 | in every run, two gets for a node return the same connection if and only if nobody closes that node's connection in between |
| ClientPoolProtocol.GetEnds | internal/task/rpc_client.go:45-59 | under the write lock a get ends with the pooled connection, with a new open one that is then pooled, or, exactly if there is none and dialling fails, with none |
| ClientPoolProtocol.ClosedLeavesPool | internal/task/rpc_client.go:61-90 | a connection that was closed is never pooled again, under no node |
| ClientPoolProtocol.NextKeepsInv | internal/task/rpc_client.go:34-90 | every locked section and every closing keeps that accounting |

## Left out

- RoomManager.RoomManager.JoinRoom: bucket counts that are a positive multiple of 2^32, on which the code panics, are excluded by `Valid`.
- RoomManager.RoomManager.BroadcastRoom: the sends happen in one go here. In the protocol a broadcast ends with its snapshot of the targets, and the sends after it, which take no lock, are not interleaved with other calls.
- RoomLinearizability.RegistryIsLinearizable: the protocol keeps a room's members as a value. The classes are proved against the same functions, section by section; that Go's locks make the sections atomic is assumed.
- ConnectionProtocol.EveryConnectionIsAccountedFor: `RemoveClient`, the unconditional removal that nothing calls, is in the class but not in the protocol, and so are connections that the write loop alone closes.
- Connections.Client.TrySend: delivery after enqueueing is not claimed; the write loop, heartbeats, deadlines and WebSocket framing are not modelled.
- Room.Room.Join: the doubly linked list of the standard library is abstracted to a sequence of nodes, and removing an element to a search for it.
- PersistProtocol.EveryRunIsOnePass: runs start from an existing committed offset, since `cmd/task/main.go:119` otherwise starts at the newest message, and with no insert under way; each topic's table and log is a run of its own.
- PersistConfluence.ExactlyOnceEffect: needs that no two partitions' survivors share a server id, which several Logic processes can break; `DrainedRunsAgreeIff` and `FirstComeFirstServed` say what then happens.
- PersistConfluence.EarliestOfEachKeyPersists: needs besides that the first messages of each client key in the partition have server ids of their own; otherwise the later one with an id is never stored, as `EarliestOfEachKeyPersistsIff` says.
- PersistConsumer.PersistConsumer.ConsumeClaim: a permanently failing insert is retried until the session ends; that retries end is not claimed. An insert that lands after its attempt was given up is a step of `PersistProtocol` only. The database is fixed for the consumer's lifetime, and values that MySQL would reject or convert are not modelled.
- SessionStore.Store.IsSessionActive: errors of Redis itself, and a stored user id that is not a number, which the scripts never write, are not modelled; they change nothing.
- SessionProtocol.CallsAreAtomic: session ids are fresh, the time to live is positive, and a script sees one clock value.
- GroupServer.GroupServer.AddGroup: a transaction is one step and its failures inside MySQL are left out; users never leave a group, as no code makes them. A group name is a sequence of bytes, and the collation of the name column an arbitrary function whose images are compared.
- GroupServer.GroupServer.RefreshGroupMembersCache: a write that reaches Redis but is reported as failed is not in the class; the protocol does not look at the report. Failing reads of MySQL change nothing and are left out.
- GroupCacheProtocol.SettledUserIsCached: assumes less than 200 ms from a refill's read to its write and to the last question that joins it, and counts a user as settled only if the second delete reached Redis.
- GroupCacheProtocol.NeverMoreThanMembers: the protocol follows one group; groups share no rows and no cache keys.
- MessageId.IdSource.NextMessageID: the bitwise or of two numbers with no common bits is an addition here.
- MessageId.DrawAll: has no counterpart in the code; it stands for any number of calls one after the other, and the counter's atomicity makes concurrent calls such a sequence.
- MessageId.UniqueIff: ids of several Logic processes are not unique, and ids are not monotonic within a millisecond. The draws are taken as given; that a caller reads the clock some time before it draws is why no order of the readings is assumed.
- Fanout.HandleSmallGroupMessage: the calls to the nodes are what it returns; that at most ten run at once, that failing calls are logged and dropped, and cancellation of the context are left out, as is the sharing of one refresh by concurrent consumers.
- Fanout.AnyPathSamePlan: assumes a cache that agrees with the members; `GroupCacheProtocol` says how far it does.
- ClientPool.ConnectClientPool.CloseAll: errors of closing are not collected.
- ConnectionRouting.UnregisterHitsIff: routes of one node are followed; that another node may have routed the user meanwhile, and that routes expire after a day, is left out.
- The consumers for single chat and chat rooms: lookups and pushes without state of their own.
- HTTP handlers, configuration, logging, process start, generated protobuf and gRPC code, and password hashing: plumbing and libraries.
- The value of the room hash, and the internals of Kafka, Redis and MySQL beyond atomic commands, scripts and transactions.
