# Watch-room backend: model and proofs

A backend for watching videos together: rooms are rows in a database, and everything that
happens in a room lives in Redis (playback state, who is present, chat) and is announced to
clients through a publisher. This project models the stateful protocols of that backend in
Dafny and proves what every run of them keeps. Where the code falls short of what its
documentation or its design promises, the exact condition under which the promise holds is
proved, together with a concrete run that breaks it.

`dafny verify dfyconfig.toml` checks the whole project.

## Parts

| Part | Files | What is established |
|---|---|---|
| Chat outbox | `ChatStore`, `SortedSet`, `ChatService`, `ChatOutbox`, `ChatFaults`, `ChatOverflow`, `ChatAlone`, `ChatDrain`, `ChatPaging`, `ChatClient` | In every interleaving of senders, drains and deletes no stored message is dropped without a named fault, and each kind of fault does drop one; alone, a send or a drain is what the service does in one piece; the pending bound, and that it is met; how many drains empty the set and exactly when they starve; a client following `before_id` ends and is shown everything. |
| Presence | `Presence`, `PresenceMemory`, `PresenceRedis`, `PresenceAgreement`, `PresenceInterleaving` | The in-memory class refines a map from user to room; the Redis form agrees with it exactly under well-directed leaves; exactly which steps keep everybody where they are when its commands interleave. |
| Playback | `PlaybackQueue`, `PlaybackProjection`, `PlaybackControl`, `ControlInterleaving` | The orbits of the queue walk, projection in seconds and as a flow in time, what one control and a run of versioned controls stores, and when concurrent controls lose one. |
| Rooms | `RoomStore`, `RoomHub`, `CleanupConvergence`, `ForgottenRoom`, `Lifecycle`, `RequestInterleaving`, `RoomHandlers` | One cleanup as a loop over three sources; repeated cleanups stop, and where; no key of a room outlives its row, unless the room goes away under a request; when a cleanup closes a room somebody joined; who may change a room, and who gets into a private one. |
| Limits | `SlidingWindow`, `FixedWindow`, `DailyQuota`, `EmailCodeStore` | The pruned log decides as the full history does; the tight bound of the fixed window; the exact bound of the daily quota under concurrency, across midnight and expiry; memory and Redis answer alike. |

Services and caches whose methods update their fields are classes; each method's contract
ties the new state to a function of the old one, and the theorems are about those functions.
A protocol that spreads over several Redis commands is a state machine with one step per
command, each process carrying the command it is about to issue.

## Where the code falls short of its intent

* The cleanup asks the database for 500 rooms, but `normalizePage` turns any limit above
  100 into 50. The model follows the code; `CleanupConvergence.RowSurvivesIff` says which
  empty rooms therefore stay for ever, and `ForgottenRoom.EmptyRoomStaysForEver` builds one.
* The design asks for N chat messages per user, room and second. A fixed window lets 2N - 1
  through in one second (`FixedWindow.BoundIsMet`), so the promise holds for N = 1 only
  (`FixedWindow.NeverMoreThanMaxIffOne`). And if EXPIRE is lost a user can be locked out for
  good (`FixedWindow.UserRecoversIff`).
* The per-address limiter reads the clock before it takes its lock. If requests can arrive out
  of order, be it by one tick, its bound holds for a limit of 1 only
  (`SlidingWindow.NeverMoreThanLimitIff`); with a clock that does not go back it always holds.
* The presence contract says a user is in at most one room. The Redis form deletes the
  user's key on any leave, also one that names another room; then the user can be in two
  (`PresenceAgreement.MisdirectedLeavePutsUserInTwoRooms`). Between the commands of a leave or
  a delete a newcomer can be lost too (`PresenceInterleaving.LeaveCanLoseAJoiner`,
  `DeleteCanLoseAJoiner`); `PresenceInterleaving.SafeIffUndisturbed` says exactly when nobody is.
* A request looks its room up before it acts, and a send acts with several commands. If the
  room is deleted in between, what the request stores then has no row
  (`RequestInterleaving.JoinAfterDeleteLeavesOrphan`, `SendAcrossDeleteLeavesChat`).
* A cleanup counts a room's members before it closes the room. It closes a room somebody is in
  iff that user joined in between (`RequestInterleaving.CloseEvictsIffJoinedSince`,
  `CleanupClosesJoinedRoom`).
* The control version is meant to count controls; read and write of the state are separate
  commands, so it does exactly when no control overwrites one it has not seen
  (`ControlInterleaving.VersionCountsWritesIffNoneUnseen`).
* A control, a kick or a delete whose announcement fails is answered with an error although it
  took effect (`RoomHandlers.Handler.Control`).
* A page of 200 messages never reports `has_more`, because the store caps the one extra entry.
* The pending set exceeds `AblyPendingMax` by as much as the number of concurrent senders less
  one (`ChatOverflow.PendingBoundIsMet`), and stays within it for one sender at a time only.
* The daily limit of verification mails is exceeded by as many slots as mails that failed after
  midnight give back, since the rollback uses the new day's counter; and by one for every
  increment that lands after its day's counter has expired, since the day was read earlier and
  the counter starts again. `DailyQuota.KeepsBoundIff` gives the exact bound for any number of
  both; the limit is kept iff neither happens (`DailyQuota.KeepsLimitIffOnTime`).

## Model

| member | source | states |
|---|---|---|
| Common.TrimSpace | internal/room/chat.go:93 | strings.TrimSpace: the result is empty iff the text is all white space, and otherwise starts and ends with a non-space |
| Common.SpaceSpec | internal/room/chat.go:93 | which characters are white space, by code point |
| Common.TrimSpaceCutsEnds | internal/room/chat.go:93 | what is cut off at either end is all white space, and the rest is the result |
| SortedSet.RemSpec | internal/cache/redis/room_chat.go:119-121 | ZREM: the set stays ranked, loses exactly that member, and keeps the scores of all others |
| SortedSet.AddSpec | internal/cache/redis/room_chat.go:113-117 | ZADD: the set stays ranked, the member is there once with its new score, all others with theirs |
| SortedSet.RangeSpec | internal/cache/redis/room_chat.go:123-128 | ZRANGE: the n lowest-ranked members in rank order, or all of them |
| ChatStore.PayloadOfSpec | internal/cache/redis/room_chat.go:101-111 | reading one stream id fails iff the stream has no such entry, and otherwise gives that entry's payload |
| ChatStore.XAddValid | internal/cache/redis/room_chat.go:46-59 | appending with trimming keeps the stream increasing and bounded by its last id |
| ChatStore.XAddKeepsNewest | internal/cache/redis/room_chat.go:46-59 | an append adds one newest entry, which is there afterwards; only old entries can be missing then, and never so many that fewer than the maximum length are left |
| ChatStore.RoomChat.AppendMessage | internal/cache/redis/room_chat.go:46-59 | the stream after an append, counter and pending set untouched |
| ChatStore.RoomChat.NextSeq | internal/cache/redis/room_chat.go:42-44 | the counter goes up by one and its new value is returned |
| ChatStore.RoomChat.PendingCount | internal/cache/redis/room_chat.go:37-40 | the size of the pending set |
| ChatStore.RoomChat.GetPayload | internal/cache/redis/room_chat.go:101-111 | none exactly when no entry has the id, and otherwise the payload of the one entry that has |
| ChatStore.RoomChat.EnqueuePending | internal/cache/redis/room_chat.go:113-117 | the id is pending with the present time as its score; nothing else changes |
| ChatStore.RoomChat.RemovePending | internal/cache/redis/room_chat.go:119-121 | the id is pending no more; nothing else changes |
| ChatStore.RoomChat.PendingStreamIDs | internal/cache/redis/room_chat.go:123-128 | the lowest-ranked pending ids in rank order: as many as asked for, or all; every other id ranks higher |
| ChatStore.RoomChat.DeleteRoom | internal/cache/redis/room_chat.go:130-137 | stream, counter and pending set are as if never used |
| ChatService.Service.PublishAblyChat | internal/room/chat.go:162-200 | succeeds iff one of the first 1 + retry tries is acknowledged, and publishes at most once |
| ChatService.Service.StoreAndPublish | internal/room/chat.go:136-159 | the message is stored, then either published or marked pending, never both or neither |
| ChatService.Service.SendChat | internal/room/chat.go:88-159 | exactly when a message is refused, for each reason, and what a refusal costs; otherwise the stored entry, its sequence number, and published xor pending; alone it never takes the set past its maximum |
| ChatService.Service.DrainEntry | internal/room/chat.go:265-287 | one pending entry is settled; its message is published once, carrying its stream id, iff the entry decodes, is short enough and some try is acknowledged |
| ChatService.Service.DrainRoomPending | internal/room/chat.go:260-289 | of the 30 lowest-ranked pending entries, those that decode, are short enough and are acknowledged are published, each once, in rank order and with its stream id, and nothing else is; pending stays what is beyond the batch, too long or not acknowledged |
| ChatOutbox.StepKeepsInv | internal/room/chat.go:88-159 | every command of every sender, drain or delete keeps every stored entry accounted for |
| ChatOutbox.RunKeepsInv | internal/room/chat.go:88-159 | the same over any interleaving of any number of them |
| ChatOutbox.NothingSilentlyDropped | internal/room/chat.go:136-159 | after any run, each entry of the stream is with its sender, published as written, or pending, unless a fault hit its id; and only appended messages are ever published, unaltered |
| ChatOutbox.FaultFreeRunHasNoFaults | internal/room/chat.go:260-289 | the faults are the four named ones and nothing else |
| ChatOutbox.AtLeastOnceAtRest | internal/room/chat.go:136-159 | without a fault and with no send in progress, each stored message was published or is pending |
| ChatFaults.EnqueueErrorLosesMessage | internal/room/chat.go:132-159 | given a message short enough to be stored, a failed enqueue loses it for good |
| ChatFaults.LostSenderLosesMessage | internal/room/chat.go:132-159 | so does a sender that stops between append and enqueue |
| ChatFaults.ReadErrorLosesMessage | internal/room/chat.go:266-270 | so does a read error in a drain, which then removes the pending mark |
| ChatFaults.ReusedIdLosesMessage | internal/room/chat.go:266-270 | so does a stream id handed out again after a delete |
| ChatOverflow.StepKeepsPendingBound | internal/room/chat.go:100-106 | with at most k sends at once, a step keeps pending entries plus sends past the check within pendingMax - 1 + k |
| ChatOverflow.PendingBound | internal/room/chat.go:100-106 | over any run; so one send at a time never takes the set past pendingMax |
| ChatOverflow.FinishSend | internal/room/chat.go:108-159 | a send past the check whose publish fails adds one to the pending set, whoever else is under way |
| ChatOverflow.PendingBoundIsMet | internal/room/chat.go:100-106 | for every k, given a message short enough to be stored under each of the run's numbers, some run with at most k sends at once ends with exactly pendingMax - 1 + k pending |
| ChatOverflow.NeverPastMaxIffOneAtATime | internal/room/chat.go:104-106 | given a message short enough to be stored, all runs with at most k sends at once stay within pendingMax iff k is at most 1 |
| ChatAlone.SendAlone | internal/room/chat.go:90-160 | with nobody in between, the commands of one send refuse, cost a number, or store the message and publish it or mark it pending, as the service does |
| ChatAlone.DrainAlone | internal/room/chat.go:260-289 | with nobody in between, the commands of one drain are one pass, and publish what a pass does |
| ChatDrain.PassStep | internal/room/chat.go:265-287 | visiting the batch entry by entry is one pass |
| ChatDrain.KeptSpec | internal/room/chat.go:265-287 | a pass keeps exactly the stuck entries of its batch |
| ChatDrain.RepublishedSpec | internal/room/chat.go:265-287 | what a pass publishes are the messages of entries at increasing ranks, each carrying its stream id: exactly of those that decode, are short enough and are acknowledged |
| ChatDrain.PassSpec | internal/room/chat.go:260-289 | a pass leaves pending exactly what is beyond the 30 lowest-ranked, or of them too long or not acknowledged |
| ChatDrain.PassIsStuck | internal/room/chat.go:260-289 | a pass changes nothing iff every entry of its batch is stuck |
| ChatDrain.OversizedBatchStarvesOthers | internal/room/chat.go:281-283 | thirty lowest-ranked oversized entries keep all others from ever being drained |
| ChatDrain.NothingEverDrainsIffAllTooLong | internal/room/chat.go:260-289 | no acknowledgements of any drains ever change the set iff each of its thirty lowest-ranked entries is oversized |
| ChatDrain.PassesEmptyTheSet | internal/room/chat.go:260-289 | if everything gets through, n entries are gone after exactly ceil(n / 30) passes and not one earlier |
| ChatPaging.ListMessagesRev | internal/cache/redis/room_chat.go:61-88 | the newest entries older than the cursor, newest first: as many as asked for up to 200, 50 for a limit of 0 or less, or all there are |
| ChatPaging.ListChat | internal/room/chat.go:204-232 | the page in numbers: limit entries from 1 to 199, 50 for 0 or less, 200 from 200 on, or all there are; has_more iff that leaves some out, and never from 200 on; each entry that decodes is shown once, newest first, with its stream id |
| ChatPaging.RevRangeSpec | internal/cache/redis/room_chat.go:61-88 | XREVRANGE: decreasing ids, the newest part of what is older than the cursor, short only when nothing is left out |
| ChatPaging.PageSpec | internal/room/chat.go:204-232 | below the cap a page is exact, and has_more says whether older entries remain |
| ChatPaging.PageIsExact | internal/room/chat.go:208-218 | the size of a page and has_more, in the number of entries older than the cursor, for every limit |
| ChatPaging.LargestPageNeverHasMore | internal/room/chat.go:204-217 | from 200 on has_more is always false, and the page is everything iff the stream has at most 200 entries |
| ChatPaging.AppendEvolves | internal/cache/redis/room_chat.go:46-59 | an append with trimming is a change a walk can live with |
| ChatPaging.WalkReadsEverything | internal/room/chat.go:204-232 | following the ids of entries reads strictly decreasing ids, only entries present at the first request, and in the end every one of them not trimmed |
| ChatPaging.WalkTerminates | internal/room/chat.go:204-232 | a walk ends: the page size times the full pages is less than the entries the stream had at the first request |
| ChatPaging.DecodedShowsAll | internal/room/chat.go:220-231 | when all entries decode, a page shows each of them, with its id |
| ChatPaging.DecodedSpec | internal/room/chat.go:220-231 | whatever the entries, exactly those that decode are shown, once, in order and with their ids |
| ChatClient.ChangesEvolve | internal/cache/redis/room_chat.go:46-59 | any list of appends, trims and changes off the stream only adds newer entries and takes old ones away |
| ChatClient.ShownIsRead | internal/room/chat.go:220-231 | while entries decode, the last message shown carries the id of the last entry read, and every entry read is shown |
| ChatClient.ClientReadsEverything | internal/room/chat.go:204-232 | over any appends and trims between requests a client is shown messages newest first, none twice, only ones present at its first request, and in the end every one of those not trimmed |
| ChatClient.ClientTerminates | internal/room/chat.go:204-232 | it is done after fewer full pages than the stream it first met would fill |
| Presence.MemberTotalCountsUsers | internal/cache/memory/room_presence.go:107-117 | member counts add up to the number of users in those rooms |
| Presence.CountsAddUp | internal/cache/memory/room_presence.go:107-117 | over all rooms the member counts add up to the number of present users |
| PresenceMemory.RemoveSpec | internal/cache/memory/room_presence.go:74-88 | leaving keeps both indexes consistent and forgets the user's whereabouts iff they were in that room |
| PresenceMemory.JoinSpec | internal/cache/memory/room_presence.go:35-58 | joining keeps them consistent, and the user is in the new room only |
| PresenceMemory.DeleteRoomSpec | internal/cache/memory/room_presence.go:128-147 | deleting a room forgets exactly the users whose room it was |
| PresenceMemory.RoomPresence.JoinRoom | internal/cache/memory/room_presence.go:35-58 | the new state, and the room the user was taken from, if any |
| PresenceMemory.RoomPresence.LeaveRoom | internal/cache/memory/room_presence.go:60-68 | the new state |
| PresenceMemory.RoomPresence.RemoveMember | internal/cache/memory/room_presence.go:70-72 | the new state |
| PresenceMemory.RoomPresence.RemoveMemberLocked | internal/cache/memory/room_presence.go:74-88 | the new state: the reverse index only loses a user whose room it is |
| PresenceMemory.RoomPresence.DeleteRoomPresence | internal/cache/memory/room_presence.go:128-147 | the new state |
| PresenceMemory.RoomPresence.EvictMembers | internal/cache/memory/room_presence.go:128-147 | the loop over the members forgets those whose room it was |
| PresenceMemory.RoomPresence.ClearPendingEmpty | internal/cache/memory/room_presence.go:162-170 | only the room's flag goes |
| PresenceMemory.RoomPresence.MemberCount | internal/cache/memory/room_presence.go:107-117 | the number of users in the room |
| PresenceMemory.RoomPresence.ListMembers | internal/cache/memory/room_presence.go:90-105 | each member once, with the name shown there |
| PresenceMemory.RoomPresence.ListRoomsWithMembers | internal/cache/memory/room_presence.go:220-231 | exactly the rooms somebody is in |
| PresenceMemory.RunRefinesWhereabouts | internal/cache/memory/room_presence.go:35-88 | over any run the four structures stay consistent and say what the history of whereabouts says; the counts add up |
| PresenceRedis.RoomPresence.JoinRoom | internal/cache/redis/room_presence.go:44-91 | the join script, command by command |
| PresenceRedis.RoomPresence.RemoveMember | internal/cache/redis/room_presence.go:101-120 | removeMember with no other command in between |
| PresenceRedis.RoomPresence.DeleteRoomPresence | internal/cache/redis/room_presence.go:158-172 | the transaction over the members read before |
| PresenceRedis.ScriptLeavesSpec | internal/cache/redis/room_presence.go:57-68 | the script's leaving half takes exactly one membership away, and unlists and flags the room iff it is empty now |
| PresenceRedis.JoinSound | internal/cache/redis/room_presence.go:44-77 | a join keeps active equal to the occupied rooms, flags off them, and every user in the room their key names |
| PresenceRedis.RemoveSound | internal/cache/redis/room_presence.go:101-120 | so does an undisturbed leave, misdirected or not |
| PresenceRedis.DeleteSound | internal/cache/redis/room_presence.go:158-172 | so does an undisturbed delete |
| PresenceAgreement.JoinAgrees | internal/cache/redis/room_presence.go:44-77 | from a consistent state a Redis join ends as the in-memory one, the rooms waiting for cleanup apart |
| PresenceAgreement.DeleteAgrees | internal/cache/redis/room_presence.go:158-172 | so does a delete, with the same exception |
| PresenceAgreement.LeaveAgreesIffWellDirected | internal/cache/redis/room_presence.go:101-120 | a leave shows the same members, rooms and active set iff it names the user's room or a user in no room |
| PresenceAgreement.RunsAgree | internal/cache/room_presence.go:14-15 | over every well-directed run both forms agree on members, users' rooms and active rooms |
| PresenceAgreement.FlagsAgreeIffMatch | internal/cache/redis/room_presence.go:101-172 | they agree on the rooms waiting for cleanup iff a leave names a room that is occupied or already waiting, and a delete one that is occupied or not waiting |
| PresenceAgreement.StepSameIff | internal/cache/redis/room_presence.go:44-172 | an operation does the very same in both forms iff it is well directed and matches in that sense |
| PresenceAgreement.RunsSame | internal/cache/redis/room_presence.go:44-172 | over every run of such operations the two forms are equal, flags and all |
| PresenceAgreement.RedisRunStaysSound | internal/cache/redis/room_presence.go:44-172 | over every run at all the Redis form stays sound |
| PresenceAgreement.MisdirectedLeavePutsUserInTwoRooms | internal/cache/room_presence.go:14-15 | join A, leave B, join C: the user is in A and in C |
| PresenceInterleaving.LeaveAlone | internal/cache/redis/room_presence.go:101-120 | with nobody in between, the commands of a leave are the leave |
| PresenceInterleaving.StepKeepsActive | internal/cache/redis/room_presence.go:101-120 | each command keeps: an occupied room off the active set is one some leave is about to drop |
| PresenceInterleaving.ActiveCoversOccupied | internal/cache/redis/room_presence.go:203-205 | after any interleaving the active list misses an occupied room only while a leave of it is between SREM and DEL; at rest it misses none |
| PresenceInterleaving.OwnRoomIsDisciplined | internal/cache/redis/room_presence.go:101-120 | a leave of the user's own room, or a delete whose users are still in its room or have no key, is disciplined |
| PresenceInterleaving.OneRoomIffDisciplined | internal/cache/redis/room_presence.go:101-172 | a step keeps everybody in one room iff it forgets no user who is still a member elsewhere |
| PresenceInterleaving.NobodyInTwoRooms | internal/cache/room_presence.go:14-15 | in every interleaving whose leaves name the user's own room and whose deletes find their users in their own room, no user is in two rooms |
| PresenceInterleaving.DropLosesNobodyIffEmpty | internal/cache/redis/room_presence.go:113-116 | the DEL after HLEN loses nobody iff the room is still empty |
| PresenceInterleaving.DeleteLosesNobodyIff | internal/cache/redis/room_presence.go:158-172 | a delete's transaction loses nobody iff those in its room and those it has read are the same people |
| PresenceInterleaving.JoinMembers | internal/cache/redis/room_presence.go:44-77 | who is where after a join: the newcomer in the new room, all others where they were |
| PresenceInterleaving.SafeIffUndisturbed | internal/cache/redis/room_presence.go:44-172 | a step keeps everybody in exactly the room their key names, with what is under way unable to change that, iff it is undisturbed: nobody joins a room between the HLEN and the DEL of a leave of it or under a delete that has not read them, and leaves and deletes concern the user's own room |
| PresenceInterleaving.NobodyLost | internal/cache/redis/room_presence.go:44-172 | in every interleaving of undisturbed steps a user is in a room iff their key names it |
| PresenceInterleaving.LeaveCanLoseAJoiner | internal/cache/redis/room_presence.go:109-116 | and it can lose a user who joined between the two |
| PresenceInterleaving.DeleteCanLoseAJoiner | internal/cache/redis/room_presence.go:158-172 | so can a delete, without any leave: who joins between its reading and its transaction keeps a key and no membership |
| PresenceInterleaving.DeleteCanForgetAMover | internal/cache/redis/room_presence.go:158-172 | and who moves away in between keeps a membership and no key |
| PlaybackQueue.IndexOf | internal/room/project.go:64-71 | the first position of a video, or none iff it is not queued |
| PlaybackQueue.RulesAgreeIffQueued | internal/room/hub.go:269-290 | the two next-item rules agree iff the current video is queued or there is no queue |
| PlaybackQueue.SequentialWalk | internal/room/project.go:41-62 | without repeats a sequential walk plays each item once, in order, and ends |
| PlaybackQueue.LoopWalk | internal/room/project.go:41-62 | without repeats a loop is one cycle through the whole queue |
| PlaybackQueue.PlaceIsRemainder | internal/room/project.go:41-62 | the place on that cycle is the remainder of the number of advances |
| PlaybackQueue.RepeatWalk | internal/room/project.go:64-71 | with a first repeat at k of the item at j the walk plays the first k items and then goes round from j to k for ever |
| PlaybackQueue.SequentialWalkEndsIffDistinct | internal/room/project.go:41-71 | a sequential walk ends iff nothing is queued twice |
| PlaybackQueue.RepeatWalkVisits | internal/room/project.go:64-71 | with a first repeat at k it plays exactly the items before k |
| PlaybackProjection.PlaysAtClockSpeed | internal/room/project.go:19-27 | while it plays within the video, a second of time is a second of video, and nothing else changes |
| PlaybackProjection.EndsAtDuration | internal/room/hub.go:126-142 | at the end of a video the next one in the queue waits at 0, round in a loop; if there is none this one waits at its end |
| PlaybackProjection.StaysPut | internal/room/project.go:15-18 | what does not play stays at its position, cut to the video; a clock that is behind does not rewind |
| PlaybackProjection.StopsExactlyWhenOver | internal/room/project.go:19-26 | a video that plays from p ends after exactly duration - p seconds |
| PlaybackProjection.ProjectionStaysInVideo | internal/room/project.go:11-38 | the projected position is never negative and never past a known duration |
| PlaybackProjection.ProjectionFlows | internal/room/hub.go:116-144 | projecting to t1 and then to t2 is projecting to t2, the base time apart, also across the end of a video |
| PlaybackProjection.ProjectionFlowsIff | internal/room/hub.go:116-144 | for all times iff the state does not play from a negative position |
| PlaybackControl.Service.ApplyControl | internal/room/hub.go:182-267 | refused for want of rights or an old version; a store's error changes nothing; otherwise the state is as `WrittenIsStored` says, other rooms' states stay; and a success iff stored and announced |
| PlaybackControl.Service.Select | internal/room/hub.go:195-235 | the video, queue and action each kind of control selects |
| PlaybackControl.WrittenIsStored | internal/room/hub.go:195-250 | play, pause and seek store the action, position and trimmed video sent; switch its video or the first of its queue; next pauses at 0 on the item after the given or stored video, or is stored as sent if there is none; queue, mode, duration, version, writer and time |
| PlaybackControl.StateReflectsWrites | internal/room/hub.go:146-250 | over any run the version counts the written controls, and the duration is the last one reported that every later control carried on, else 0 |
| PlaybackControl.RefusedIff | internal/room/hub.go:182-194 | a control is written iff the sender may and the version is not old; otherwise nothing changes |
| PlaybackControl.NextMovesOn | internal/room/hub.go:195-248 | one plain "next" moves one place on, with one extra place for "no video" |
| PlaybackControl.NextCyclesThroughQueue | internal/room/hub.go:269-290 | any number of them: a cycle of n + 1 controls for a queue of n |
| ControlInterleaving.StepKeepsInv | internal/room/hub.go:187-250 | each read or write of a control keeps: the version is at most the number of writes, and equal iff none was overwritten unseen |
| ControlInterleaving.AloneIsOneControl | internal/room/hub.go:187-250 | with nobody in between, read and write are one control |
| ControlInterleaving.VersionCountsWritesIffNoneUnseen | internal/room/hub.go:187-250 | over every interleaving of controls |
| ControlInterleaving.OverlappingControlsLoseOne | internal/room/hub.go:187-250 | two permitted controls that read the same state are two writes and one version |
| RoomStore.Table.Create | internal/store/postgres/stores.go:73-88 | a new row in its place by age, or a conflict iff the id is taken |
| RoomStore.Table.Delete | internal/store/postgres/stores.go:144-150 | the row goes, or "not found" iff there is none |
| RoomStore.Table.List | internal/store/postgres/stores.go:94-132 | row i of the page is row offset + i of the table, newest first; as many as asked for, 50 if that is not between 1 and 100, or all there are; and the total |
| RoomStore.WithoutIds | internal/store/postgres/stores.go:144-150 | deleting rows leaves exactly the others |
| RoomStore.InsertValid | internal/store/postgres/stores.go:73-88 | a row with a new id keeps the table newest first and its ids unique |
| RoomHub.MergeUniqueRoomIDs | internal/room/hub.go:371-388 | the nonempty trimmed ids of all parts, each once |
| RoomHub.Service.CloseRoom | internal/room/hub.go:298-310 | every Redis key of the room goes, unless deleting the state fails, which leaves all of them; a success iff that and the announcement succeed |
| RoomHub.Service.CloseEmptyRoom | internal/room/hub.go:507-520 | so does its row, unless deleting that fails, which changes nothing; a failed announcement is reported and undoes nothing |
| RoomHub.Service.SweepCandidate | internal/room/hub.go:482-502 | an occupied candidate loses its flag, an empty one is closed, one that cannot be counted is passed over |
| RoomHub.Service.CleanupCandidates | internal/room/hub.go:460-480 | flagged, active and listed rooms, each once |
| RoomHub.Service.RunEmptyRoomCleanup | internal/room/hub.go:452-505 | one cleanup closes exactly the counted candidates without members and clears their flags; it stops early only at such a room whose row could not be deleted or whose announcement failed |
| RoomHub.SweepOneMore | internal/room/hub.go:482-502 | candidates swept one by one, in any order, are the set swept at once |
| RoomHub.SweepEachSpec | internal/room/hub.go:482-502 | the loop over a list of candidates is the sweep of their set |
| RoomHub.SweepSparesOccupied | internal/room/hub.go:492-496 | a sweep leaves the row, state, members, grants and chat of an occupied room, and of one that is no candidate, alone |
| RoomHub.CloseSparesOthers | internal/room/hub.go:298-309 | closing a room leaves every other room alone |
| CleanupConvergence.PassOnRows | internal/room/hub.go:452-505 | what one cleanup leaves of the rows, given that it sees the newest 50 |
| CleanupConvergence.PassClearsFlags | internal/room/hub.go:492-500 | a cleanup empties the pending-empty set and changes no member |
| CleanupConvergence.PassKeepsSettled | internal/room/hub.go:452-505 | a cleanup does not change which rows will stay in the end |
| CleanupConvergence.PassStep | internal/store/postgres/stores.go:176-184 | a cleanup that is not the last that matters drops a row |
| CleanupConvergence.CleanupConverges | internal/room/hub.go:452-505 | as many cleanups as there are rows reach the final rows |
| CleanupConvergence.RowSurvivesIff | internal/store/postgres/stores.go:176-184 | a row stays for ever iff its room is occupied, or was never flagged nor active and 50 newer rows are occupied |
| ForgottenRoom.EmptyRoomStaysForEver | internal/store/postgres/stores.go:176-184 | a room created and never joined, behind fifty newer ones created and joined, keeps its row through any number of cleanups |
| CleanupConvergence.FewOccupiedRoomsAreWhatRemains | internal/room/hub.go:451 | with fewer than 50 occupied rooms exactly those stay |
| CleanupConvergence.NewestRemainingAreOccupied | internal/store/postgres/stores.go:94-132 | the page a cleanup sees in the end holds occupied rooms only |
| CleanupConvergence.CleanupsSpareOccupied | internal/room/hub.go:492-496 | however many cleanups run, an occupied room loses nothing |
| CleanupConvergence.CleanupReachesFixpoint | internal/room/hub.go:452-505 | after one cleanup more than there are rows nothing at all changes any more |
| Lifecycle.CloseEmptyOwned | internal/api/room_handlers.go:164-183 | deleting a room leaves no row and no key of it |
| Lifecycle.CleanupOwned | internal/room/hub.go:507-520 | a cleanup leaves no row and no key of the rooms it closes |
| Lifecycle.StepKeepsOwned | internal/api/room_handlers.go:98-524 | every request, drain and cleanup keeps: what is stored for a room belongs to a room in the database |
| Lifecycle.EveryKeyHasARow | internal/api/room_handlers.go:98-524 | over every run of them |
| Lifecycle.DeleteLeavesNoTrace | internal/api/room_handlers.go:164-183 | whatever happened before, a permitted delete leaves no trace |
| Lifecycle.EnteredGrants | internal/api/room_handlers.go:508-524 | a request adds a grant iff it shows the right password of a private room its sender does not manage |
| Lifecycle.GrantsAreEarned | internal/api/room_handlers.go:508-524 | over every run a grant exists only for a private room and for a user who showed its password |
| Lifecycle.OutsidersChangeNothing | internal/api/room_handlers.go:500-506 | over every run, what somebody who is no admin and owns no room tries by deletes, kicks and controls might as well not have happened |
| Lifecycle.MembersWereLetIn | internal/api/room_handlers.go:185-212 | over every run, whoever is in a private room joined it as its owner, as an admin, or having shown its password |
| RequestInterleaving.PartsMakeTheRequest | internal/api/room_handlers.go:508-524 | with nobody in between, access check and action are the whole request of `Lifecycle` |
| RequestInterleaving.PartsMakeTheSweep | internal/room/hub.go:482-502 | with nobody in between, counting and closing a candidate is its sweep |
| RequestInterleaving.WriteNeedsRow | internal/api/room_handlers.go:490-498 | whatever the action of a request stores for a room that has lost its row is a key without a row |
| RequestInterleaving.OwnedIffAttended | internal/api/room_handlers.go:490-524 | with lookup, access check, action, each chat command of a send, and count and close of a cleanup apart, a step keeps every key's row iff its request's room is still there or it stores nothing |
| RequestInterleaving.EveryKeyHasARowIfAttended | internal/api/room_handlers.go:164-524 | so over every interleaving in which no room goes away under a request that then stores something |
| RequestInterleaving.OnlyJoinsAdmit | internal/api/room_handlers.go:203-204 | a user gets into a room only by a join past its access check, and does by that |
| RequestInterleaving.InIffJoinedAndStayed | internal/api/room_handlers.go:185-253 | after any run a user is in a room iff in it all along, or joined and there ever since |
| RequestInterleaving.CloseEvictsIffJoinedSince | internal/room/hub.go:482-500 | a cleanup that counted no members puts a user out by its close iff the user joined in between and stayed |
| RequestInterleaving.CleanupClosesJoinedRoom | internal/room/hub.go:482-500 | and some run does that |
| RequestInterleaving.JoinAfterDeleteLeavesOrphan | internal/api/room_handlers.go:164-212 | a join that found the room before its deletion leaves a member of a room that does not exist |
| RequestInterleaving.SendAcrossDeleteLeavesChat | internal/room/chat.go:115-156 | a send whose room is deleted between two of its commands leaves a chat of a room that does not exist |
| RoomHandlers.Handler.Create | internal/api/room_handlers.go:98-136 | what makes a new room invalid; otherwise one more row, owned by its creator, and nothing else changes |
| RoomHandlers.Handler.CanAccessRoom | internal/api/room_handlers.go:508-524 | a private room lets in exactly an admin, its owner, who has a grant, and who knows its password; the last of these, if none of the others, gets a grant |
| RoomHandlers.Handler.Join | internal/api/room_handlers.go:185-212 | the reply, the step taken, and that an admitted user ends up in the room; if the join script fails only a grant just earned stays |
| RoomHandlers.Handler.RemoveMember | internal/cache/redis/room_presence.go:101-120 | after an error nothing has changed, or only what the transaction does; once that succeeds the member is gone |
| RoomHandlers.Handler.Leave | internal/api/room_handlers.go:214-231 | the reply and the step taken; what remains after each error of the presence store |
| RoomHandlers.Handler.Kick | internal/api/room_handlers.go:233-253 | denied, with nothing changed, iff the caller is neither admin nor owner; else the member is gone; what remains after each error of the presence store; a failed announcement is an error reply after the removal |
| RoomHandlers.Handler.Delete | internal/api/room_handlers.go:164-183 | denied, with nothing changed, iff the caller is neither admin nor owner; else the row and every key go, other rooms are untouched; what is gone after each kind of error |
| RoomHandlers.Handler.Control | internal/api/room_handlers.go:311-358 | denied iff the caller is neither admin nor owner; something changes iff the control is accepted and the state is read and stored without error, namely the room's state, to what was asked for; the reply is success iff it is also announced |
| SlidingWindow.Limiter.Allow | internal/api/auth_handlers.go:48-69 | the answer and the pruned log; a refusal writes nothing |
| SlidingWindow.SameFromCutoff | internal/api/auth_handlers.go:56-68 | a log that shows what the history shows from a cutoff on still does after one request |
| SlidingWindow.LogDecidesAsHistory | internal/api/auth_handlers.go:48-69 | with a clock that does not go back the pruned log decides as the full history |
| SlidingWindow.DecidesAsFullHistory | internal/api/auth_handlers.go:48-69 | over runs of all addresses: allowed iff fewer than limit were accepted in (now - win, now] |
| SlidingWindow.NoWindowHoldsMore | internal/api/auth_handlers.go:33-69 | any window of length win, wherever it starts, holds at most limit acceptances |
| SlidingWindow.OthersDoNotMatter | internal/api/auth_handlers.go:55-67 | an address is treated as if nobody else had sent anything |
| SlidingWindow.EarlyTimeArrivingLateBreaksTheBound | internal/api/auth_handlers.go:52-54 | the time is read before the lock; a late early time lets 3 through where 2 are the limit |
| SlidingWindow.SingleHits | internal/api/auth_handlers.go:48-69 | with a limit of 1 the log is the last accepted time, and accepted times are win apart, in whatever order requests come |
| SlidingWindow.LateArrival | internal/api/auth_handlers.go:52-54 | for every larger limit one request dated a single tick too early lets limit + 1 into a window |
| SlidingWindow.NeverMoreThanLimitIff | internal/api/auth_handlers.go:33-69 | over requests late by at most d the bound holds iff d is 0 or the limit is 1 |
| FixedWindow.RoomChat.IncrRate | internal/cache/redis/room_chat.go:144-147 | INCR: one more, or 1 for a key that is not there or expired |
| FixedWindow.RoomChat.ExpireRate | internal/cache/redis/room_chat.go:148-150 | EXPIRE: one second from now, for a key that is there |
| FixedWindow.RoomChat.AllowChatSend | internal/cache/redis/room_chat.go:139-152 | a counter's first send gives it one second, the next ones add one and are let through up to the limit; limits of 0 or less always allow; other users' keys untouched |
| FixedWindow.StepKeepsInv | internal/cache/redis/room_chat.go:139-152 | each command keeps: 2 max hits in a row span more than a second |
| FixedWindow.LessThanTwicePerSecond | internal/cache/redis/room_chat.go:139-152 | in every run no second sees more than 2 max - 1 sends let through, whether or not EXPIRE succeeds |
| FixedWindow.BoundIsMet | internal/cache/redis/room_chat.go:139-152 | and for every max some run does see 2 max - 1 |
| FixedWindow.NeverMoreThanMaxIffOne | docs/room_chat_realtime_design_zh.md:182 | "N per second" holds over all runs iff N is 1 |
| FixedWindow.RefusedOnlyWhenFull | internal/cache/redis/room_chat.go:151 | a send is refused only when max were let through since the counter was created |
| FixedWindow.LostExpiryBlocksForever | internal/cache/redis/room_chat.go:148-150 | if EXPIRE is lost, a full counter lets nothing through ever again |
| FixedWindow.LostExpiryHappens | internal/cache/redis/room_chat.go:148-150 | a run from the start does leave a full counter without a deadline |
| FixedWindow.UserRecoversIff | internal/cache/redis/room_chat.go:139-152 | after any run some later send is let through iff the counter is not full without a deadline and without an EXPIRE to come |
| DailyQuota.CountsMove | internal/emailcode/store.go:108-135 | one sender moving on changes each count by what it was and what it is |
| DailyQuota.PlaceMoves | internal/emailcode/store.go:108-142 | each command's effect on the counter is matched by its sender's new place |
| DailyQuota.StepKeeps | internal/emailcode/store.go:117-142 | each command, and the expiry of a counter, keeps the balance between a counter not yet expired and the senders, and the bound on slots in use, which a late increment raises by one |
| DailyQuota.OverLimitOnlyByReceivingOrLate | internal/emailcode/store.go:117-142 | in every interleaving the slots in use exceed the limit at most by what other days gave back here and by the increments that came after the counter expired |
| DailyQuota.CountsAreCrossings | internal/emailcode/store.go:137-142 | what a day receives or gives away is at most the rollbacks of the run that land on another day |
| DailyQuota.LimitHoldsSameDay | internal/emailcode/store.go:117-142 | with every rollback on its own day and no increment after its counter expired the limit holds, whatever commands get lost |
| DailyQuota.CounterIsExact | internal/emailcode/store.go:117-135 | if commands also succeed, a counter not yet expired is the slots in use plus the increments about to be taken back |
| DailyQuota.AcceptedIff | internal/emailcode/store.go:130-134 | then the next increment of a day whose counter has not expired gets a slot iff those two leave room |
| DailyQuota.BoundIsMet | internal/emailcode/store.go:117-142 | for every r and q a run with r rollbacks from other days and q increments of an expired counter has limit + r + q slots in use |
| DailyQuota.KeepsBoundIff | internal/emailcode/store.go:117-142 | over all runs with at most r rollbacks that land on another day and q increments of an expired counter, a number bounds the slots in use iff it is at least limit + r + q |
| DailyQuota.KeepsLimitIffOnTime | internal/emailcode/store.go:117-142 | so they keep the limit iff r and q are 0 |
| DailyQuota.RollbackAfterMidnightBreaksTheLimit | internal/api/auth_handlers.go:157-174 | for every limit, a slot given back after midnight lets one too many through |
| DailyQuota.LateIncrementBreaksTheLimit | internal/api/auth_handlers.go:157 | for every limit, so does an increment that comes after its day's counter expired, without any rollback |
| EmailCodeStore.DaySpec | internal/emailcode/store.go:85-87 | days are 24 hours long and follow one another |
| EmailCodeStore.NewDayIsAccepted | internal/emailcode/store.go:185-203 | on a later day, with the cooldown over, a request is accepted however many were sent before |
| EmailCodeStore.Store.PrecheckSend | internal/emailcode/store.go:97-203 | refused with the time left before the cooldown ends, otherwise up to the limit on each UTC day, and counted; an empty address or purpose changes nothing |
| EmailCodeStore.Store.RollbackPrecheck | internal/emailcode/store.go:137-154 | the count goes down unless it is 0, whatever day it is; other entries untouched |
| EmailCodeStore.Store.CommitSend | internal/emailcode/store.go:205-219 | the code is checkable until it expires, every precheck before the cooldown ends is refused with the time left, the day and its count stay, other entries are untouched |
| EmailCodeStore.RedisCounts | internal/emailcode/store.go:108-142 | what one whole request does to each day's Redis counter, and its answer |
| EmailCodeStore.RequestAgreesIff | internal/emailcode/store.go:137-203 | both forms answer alike, and stay alike iff no mail fails on a later day than its request |
| EmailCodeStore.RunsAgree | internal/emailcode/store.go:108-203 | over every such run they give the same answers |
| EmailCodeStore.RunsAgreeFromEmpty | internal/emailcode/store.go:70-72 | in particular when both start empty |

## Left out

- ChatOutbox.NothingSilentlyDropped: stream ids are ranks, and a publisher is taken to be set; without one the code counts every publish as done, although nobody receives it.
- ChatService.Service.PublishAblyChat: a missing publisher, the back-off delays and the total timeout that can end the tries early.
- ChatService.Service.StoreAndPublish: Redis commands succeed, and a publish that is not acknowledged is not delivered; `ChatOutbox` has both failures.
- ChatService.Service.SendChat: Redis commands succeed; the JSON form is an abstract size and an injective encoding; text length counts characters.
- ChatService.Service.DrainEntry: Redis commands succeed; `ChatOutbox` has their failures.
- ChatService.Service.DrainRoomPending: as DrainEntry, with nobody else at work on the room.
- ChatOverflow.PendingBound: pendingMax must be positive, as the configuration's defaults make it.
- ChatPaging.ListChat: a `before_id` that is not a stream id (an error in the code) is not modelled.
- ChatPaging.WalkReadsEverything: its cursor is the last entry read; `ChatClient` has the client's own, for entries that decode, as all that SendChat writes do. A page of entries none of which decodes would leave a client without a new cursor.
- SortedSet.AddSpec: members with equal scores are ranked by stream id; Redis ranks them as strings, which differs only for ids of one millisecond whose counters have different lengths.
- PlaybackControl.Service.ApplyControl: its read and its write of the state are one step here; `ControlInterleaving` separates them, for the version only. The message it sends out is not modelled.
- PlaybackProjection.ProjectionFlows: positions and times are reals, without rounding.
- RoomStore.Table.List: the filters by name and owner.
- RoomHub.MergeUniqueRoomIDs: the order of the result is that of first occurrence; sweeping in any order ends the same, as `RoomHub.SweepEachSpec` shows.
- RoomHub.Service.CloseRoom: errors the code ignores (of presence, access and chat) do not occur.
- RoomHub.Service.CloseEmptyRoom: the same, and of the playback state.
- RoomHub.Service.RunEmptyRoomCleanup: nobody else is at work meanwhile, room ids are trimmed and nonempty, and reading the three sources succeeds.
- CleanupConvergence.CleanupConverges: rows of equal age keep one order; SQL leaves it open.
- Lifecycle.EveryKeyHasARow: requests are whole steps (`RequestInterleaving` separates their parts); passwords are compared directly instead of through their hash; URL checks and request bodies are not modelled.
- RoomHandlers.Handler.Create: name and password lengths count characters, where the code counts bytes; hashing succeeds.
- RequestInterleaving.OwnedIffAttended: removing a member, writing a control, closing a room and listing a cleanup's candidates are one step each; `PresenceInterleaving` and `ControlInterleaving` separate the commands of the first two.
- RoomHandlers.Handler.Control: the URL check of the video and the queue is not modelled.
- DailyQuota.StepKeeps: a day's counter, once there, may expire at any time; when exactly is not modelled.
- FixedWindow.LessThanTwicePerSecond: time is the Redis server's, in milliseconds.
- EmailCodeStore.Store.PrecheckSend: the in-memory branch, with addresses already normalised; the Redis branch is `EmailCodeStore.RedisRequest`.
- EmailCodeStore.RunsAgree: the remaining cooldown is exact, where Redis reports whole seconds; counters of earlier days stay, which requests in turn do not read.
- The loop over all rooms' pending sets (ProcessGlobalChatPending): a SCAN over keys around the drain that is modelled.
- Expiry of presence, state and access keys, and Redis command failures other than those named.
- The cleanup lock and its five-minute throttle: they exclude nothing once a cleanup outlasts the lock.
- Checking of entered codes, login and tokens, HTTP routing, logging and configuration.
