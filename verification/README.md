# Verification of the client SDK's stateful cores

A Dafny model of the parts of this instant-messaging client SDK that keep real state, with proofs of what
they are relied on for. It needs Dafny 4.11 and no libraries; `dafny verify dfyconfig.toml` checks
everything.

| area | files | what is proved |
|---|---|---|
| sequence synchroniser | `MsgHistory`, `MsgPush`, `MsgMistakes`, `MsgPushes`, `MsgRequests`, `MsgRuns`, `MsgSync` | over every run of pushes, maxima and reconnections with any pulls failing, each number a cursor passed was pulled, or came with a push and was passed on, exactly once and nothing else was, apart from exactly the conversations passed on by mistake and the one pass after a reinstallation; fail-and-resume is exact |
| resumable upload | `Bitmap`, `PartSizes`, `UploadLog`, `UploadFile`, `HashLock` | crash-safe resume over any runs cut off anywhere; part sizes optimal; progress exact; the reference-counted lock excludes, shares and cleans up for any threads |
| history gaps | `SeqLists`, `MessageCheck` | gap detection exact, what is kept after a failed pull has no gap (and exactly when), windows disjoint and covering, the local end of history exact |
| unread accounting | `MaxSeqRecorder`, `ConversationFold`, `NewMessages`, `UnreadAccounting`, `ReadDrawing` | counting exact, and exactly when; folding conserves and commutes; read notifications commute; the unread count equals the recorder less the number read exactly when no event breaks it |
| requests and sending | `WsRespAsyn`, `SendLifecycle` | no panic, every response sent is received once by its requester, when the reader can block and for how long; a numbered message is never failed, one attempt at a time, recovery exact |

How the source is rendered:

- Objects whose methods update their fields are classes, loops are loops with invariants, and protocols that
  run on several threads are state machines whose steps are the sections between which another thread can
  run. The class methods of `HashLock`, `WsRespAsyn` and `SendLifecycle` are proved to be those steps.
- Sequence numbers, times and counts are mathematical integers; the bitmap's words are 64-bit vectors.
- The order in which a map is iterated is an arbitrary choice. A contract that does not mention it therefore
  holds for every order.
- The outcome of every request, of every table operation, of reading a file and of comparing an md5 is an
  arbitrary choice. The fields `serverWorks`, `tableWorks` and `dbWorks` say that all requests, or all table
  operations, succeed; a contract that assumes one of them says what is then certain to happen. The field
  `connection` says whether the connection is up, down or changing during a history query.
- Passing messages on through a channel is taken to succeed.
- Ghost fields record histories: what was pulled and passed on, what was PUT and stored, which requests were
  sent and what the server answered.

Where the code does not do what one might expect, the model follows the code; the members named show the
case, and say exactly when it arises:

- A push with a repeated number moves the cursor over a number that was never delivered
  (`RepeatedNumberHidesGap`, exactly when: `SinglePush`); in a push of several conversations the later ones
  are compared with the messages of all (`SecondConversationSkips`, exactly when: `MistakenIff`).
- A row number that occurs twice hides a missing one (`RepeatedRowHidesGap`, exactly when: `NeededIff`); the
  query for the newest messages is blocked by any unnumbered row (`NewestNeededIff`).
- A gap can remain after a failed pull when the table already has the highest missing number
  (`KeptHasNoGapIff`).
- An unread message is missed when two new ones arrive in the wrong order (`WrongOrderMisses`, exactly when:
  `ExactIff`), and can be counted twice when it is delivered twice (`RepeatedMessageCountsTwice`, exactly
  when: `OnceEachIff`); it is lost when it carries no conversation update (`CountedNotShown`, exactly when:
  `UnreadExactIff`). It is counted although already read elsewhere (`ReadElsewhereFirst`), and taken off twice
  when it was marked here and the notification comes back (`ReadHereThenNotified`; exactly when the counts
  disagree: `AgreesThroughoutIff`).
- Two answers to one request block the reader, with the mutex held, until the requester reads, and for ever
  when it gives up instead (`TwoAnswersCanDeadlock`, `StuckForever`, exactly when: `BlockedForGoodIff`).
- A crash between the insertion of a message and that of its entry in the list of messages being sent leaves
  it being sent for ever and impossible to send again (`CrashBetweenInsertions`, `ForgottenForever`, exactly
  when: `CrashThenRecovery`).
- A message that came back filtered is reported as failed after a timeout (`FilteredIsReportedFailed`, exactly
  when: `ReportedFailedIff`).
- When the stored row of an upload cannot be used, because it has expired, cannot be decoded, or the file has
  only one part, the run goes on with an empty upload ID and stores nothing (`Upload.GetUpload`,
  `Upload.Run`, which say exactly when).

## Model

| member | source | states |
|---|---|---|
| MsgHistory.PushTestMeansNoGap | internal/interaction/msg_sync.go:204-207 | for strictly increasing numbers above the cursor, last == cursor + count holds exactly when no number in between is missing, and exactly when each number occurs once |
| MsgHistory.FillsIntervalIff | internal/interaction/msg_sync.go:204-207 | in any order, numbers as many as the interval is long fill it once each exactly when they are distinct and lie in it |
| MsgHistory.ExactTransitive | internal/interaction/msg_sync.go:136-307 | exactness of two consecutive stretches of a run (no cursor back, every number passed delivered once, nothing else delivered) gives exactness of the whole |
| MsgHistory.CoversTransitive | internal/interaction/msg_sync.go:136-307 | the same for delivery at least once |
| MsgPush.PushStep | internal/interaction/msg_sync.go:195-212 | one conversation of a push keeps exactness up to the conversations recorded as inexact, of which it adds at most itself |
| MsgPush.SinglePush | internal/interaction/msg_sync.go:192-212 | a push of one conversation is inexact exactly when its last number is cursor + count but the numbers are not distinct and in between |
| MsgPush.IncreasingPush | internal/interaction/msg_sync.go:192-212 | with strictly increasing numbers above the cursor it is never inexact: passed on when there is no gap, otherwise everything up to the last number is queued |
| MsgPush.RepeatedNumberHidesGap | internal/interaction/msg_sync.go:204-207 | with cursor 1, a push of 3 and 3 moves the cursor to 3, queues nothing, and 2 is never delivered |
| MsgPush.SecondConversationSkips | internal/interaction/msg_sync.go:193-207 | the shared lastSeq and storageMsgs let a second conversation skip numbers |
| MsgMistakes.MistakenIff | internal/interaction/msg_sync.go:192-212 | for any state of a push with no message of this conversation stored yet: it is passed on by mistake exactly when the last number met is cursor + count of all messages stored, and messages of earlier conversations are among them or its own numbers are not distinct and in between |
| MsgMistakes.MistakenCases | internal/interaction/msg_sync.go:192-207 | a conversation with numbers, after others with messages, is mistaken exactly when its last number happens to be cursor + count of all; the first one only if its numbers are not distinct and in between |
| MsgMistakes.TracksStep | internal/interaction/msg_sync.go:192-212 | after any conversations in any order, last number, count, touched cursors and the set of mistaken conversations are determined by that order and the cursors before |
| MsgMistakes.MistakesOfOne | internal/interaction/msg_sync.go:192-212 | for a push of one conversation this is the condition of a first conversation |
| MsgPushes.PushedInExact | internal/interaction/msg_sync.go:192-212 | handling the conversations of a push in any order is exact up to the mistaken ones, and what it queues starts just above the cursors |
| MsgPushes.PushedInCarried | internal/interaction/msg_sync.go:195-207 | in any order, everything a push passes on is passed on under one of its conversations and is a message that it carried |
| MsgPushes.PushedInOnlineOnce | internal/interaction/msg_sync.go:196-200 | each of its messages without a number is passed on exactly once |
| MsgPushes.PassedOnIff | internal/interaction/msg_sync.go:192-214 | in a push of any conversations in any order, one whose last number is cursor + count of all messages stored is passed on with exactly those messages and its cursor moves there, whichever pulls fail; no other conversation is passed on |
| MsgPushes.GapFreeIsPassedOn | internal/interaction/msg_sync.go:192-214 | a push of one conversation whose numbers are the missing ones up to the last, each once and in any order, adds exactly its unnumbered messages and then all the others together, as they came, asks for nothing, and moves the cursor to the last number |
| MsgPushes.QueueAt | internal/interaction/msg_sync.go:208-211 | a conversation is queued exactly when it is not passed on and the last number met is above its cursor, from behind the cursor to that number |
| MsgPushes.PushedInArrives | internal/interaction/msg_sync.go:192-214 | once everything queued is pulled each conversation is at the last number met so far, or where it was if that is not above its cursor |
| MsgPushes.ArrivalIs | internal/interaction/msg_sync.go:192-214 | in that case each conversation of the push is at the last number met when it was handled if that is above its cursor, and else where it was |
| MsgPushes.RisingArrives | internal/interaction/msg_sync.go:192-214 | strictly increasing numbers above the cursor of one conversation move it to the last of them |
| MsgRequests.AllChunksTile | internal/interaction/msg_sync.go:243-271 | the pieces of a large range follow each other from v0 to v1 without gap or overlap; all but the last have 101 numbers, the last 0 to 101 |
| MsgRequests.SplitIff | internal/interaction/msg_sync.go:243 | a range is cut into pieces exactly for a notification with at least 200 numbers |
| MsgRequests.PiecesPartition | internal/interaction/msg_sync.go:248-257 | a number lies in the range exactly when it lies in a piece, and then in one only |
| MsgRequests.SyncedIsExact | internal/interaction/msg_sync.go:236-307 | what a synchronisation may leave behind, whichever pulls failed, is exact between cursors and history |
| MsgRequests.BatchSettles | internal/interaction/msg_sync.go:278-287 | one batch pulled and its cursors moved delivers every number of its ranges once more and names each of its conversations in one more request |
| MsgRequests.SomePiecesSynced | internal/interaction/msg_sync.go:248-270 | after any number of pieces of a large range exactly the numbers up to the cursor have been pulled |
| MsgRequests.AllPiecesSettle | internal/interaction/msg_sync.go:248-271 | after all of them the whole range is pulled once and the cursor is at its end |
| MsgRequests.LastCursors | internal/interaction/msg_sync.go:300-302 | the last loop, which writes all ends again, changes nothing for the conversations settled before |
| MsgRequests.NeedSyncIs | internal/interaction/msg_sync.go:168-178 | a conversation is asked for exactly when the server's maximum is above its cursor or it has none, from the number after the cursor, or from 0, up to that maximum |
| MsgRequests.ResumeStep | internal/interaction/msg_sync.go:168-179 | a run with the same maxima after a failed one continues where it stopped: what both pulled are the numbers of the original ranges up to the new cursors, once each |
| MsgRequests.DoneIsComplete | internal/interaction/msg_sync.go:168-179 | once a run succeeds, every number of every original range has been pulled exactly once in total |
| MsgRequests.SkipCovers | internal/interaction/msg_sync.go:149-157 | setting a notification cursor after a reinstallation accounts for the numbers passed over as skipped |
| MsgRuns.PassIsExactOutside | internal/interaction/msg_sync.go:139-167 | in the pass after a reinstallation every conversation that is not a notification reported by the server is delivered exactly as elsewhere, and its cursor does not go back |
| MsgRuns.RunIsExact | internal/interaction/msg_sync.go:101-134 | from any point of a run without the flag of a reinstallation: delivered exactly, by small requests and by messages that came with one of its pushes, no cursor back |
| MsgRuns.RunIsFrom | internal/interaction/msg_sync.go:101-134 | whatever any stretch of any run added to the history is a small request, came with one of its pushes and was passed on under one of that push's conversations, or gives up numbers of a notification in the one pass |
| MsgRuns.RunCovers | internal/interaction/msg_sync.go:101-134 | over the whole of any run every number passed by a cursor was delivered or given up, apart from exactly the mistaken conversations; `RunIsFrom` says by which events |
| MsgRuns.OnePass | internal/interaction/msg_sync.go:139-167 | at most one command of a run is the pass after a reinstallation |
| MsgRuns.OrderlyRun | internal/interaction/msg_sync.go:188-214 | when every push carries one conversation with strictly increasing numbers above its cursor nothing is passed on by mistake |
| MsgRuns.CaughtUp | internal/interaction/msg_sync.go:136-180 | when every request succeeds, a command with the server's maxima leaves each conversation exactly at its maximum, or where it was if that is not below, and no other moves; notifications in the pass are at the maximum in any case; outside the pass every number up to the maxima has been delivered exactly once more |
| MsgRuns.StepPassesOn | internal/interaction/msg_sync.go:182-214 | in a push, what a half carries without a gap is passed on by it, as it came, and moves its cursor to the last number, whichever pulls fail |
| MsgRuns.RunPassesOn | internal/interaction/msg_sync.go:101-134 | and in every later state of the run it has been passed on |
| MsgSync.MsgSyncer.constructor | internal/interaction/msg_sync.go:70-97 | loadSeq: cursors are the stored maxima that could be read, overridden by the notification cursors; reinstalled exactly when there is no conversation |
| MsgSync.MsgSyncer.NewMsgSyncer | internal/interaction/msg_sync.go:62-97 | there is no synchroniser exactly when one of the two lists cannot be read |
| MsgSync.MsgSyncer.SyncPieces | internal/interaction/msg_sync.go:243-271 | the loop that writes its own counter terminates, pulls the pieces in order, stops at the first failure with the cursor at the end of the last piece pulled |
| MsgSync.MsgSyncer.PullBatch | internal/interaction/msg_sync.go:277-290 | cursors of a batch move exactly when its pull succeeds; the request asks for fewer than 100 numbers without its last conversation |
| MsgSync.MsgSyncer.SyncAndTriggerMsgs | internal/interaction/msg_sync.go:236-307 | for every order and any failure exactly the numbers up to the new cursors were pulled, once each, and only numbers of the ranges given were asked for, by requests of which no more than the last could have taken in another conversation; on success the cursors are the old ones overridden by the range ends and each conversation not split is in exactly one request |
| MsgSync.MsgSyncer.RangesAbove | internal/interaction/msg_sync.go:169-177 | the ranges queued are those of `NeedSyncIs`: from cursor + 1, or from 0 without a cursor, to the server's maximum |
| MsgSync.MsgSyncer.SkipNotifications | internal/interaction/msg_sync.go:149-157 | only numbers of the given conversations are given up, only their cursors change, to the server's maxima; all of them with a working table |
| MsgSync.MsgSyncer.CompareSeqsAndBatchSync | internal/interaction/msg_sync.go:136-180 | outside the pass after a reinstallation nothing but small requests happens, each for numbers above the cursor and up to the server's maximum, and cursors only advance, over numbers pulled exactly once; in the pass only numbers of notifications up to their maxima are given up and only their cursors may go back, the rest is exact; on success every conversation reported is exactly at its maximum or stays where it was if that is not below, and no other moves; the pass happens once |
| MsgSync.MsgSyncer.FailAndResume | internal/interaction/msg_sync.go:136-180 | any number of failing attempts with the same maxima sends nothing but requests and keeps exactness, and the first that succeeds has every number of the original ranges pulled exactly once |
| MsgSync.MsgSyncer.StoreMessages | internal/interaction/msg_sync.go:196-203 | unnumbered messages are passed on at once, the others are appended to what earlier conversations stored |
| MsgSync.MsgSyncer.PushConversation | internal/interaction/msg_sync.go:195-212 | the loop body takes the step of the push state |
| MsgSync.MsgSyncer.PushAll | internal/interaction/msg_sync.go:195-212 | for every order the state is that of taking the conversations one by one (`PushedInExact`, `PassedOnIff`, `QueueAt`); nothing is added but messages that came with the push, each unnumbered one once |
| MsgSync.MsgSyncer.PushTriggerAndSync | internal/interaction/msg_sync.go:188-214 | exact, only by messages that came with the push and by small requests for what was queued, up to the mistaken conversations, which are exactly those of the order of handling; what is complete is passed on first, whichever pulls fail (`PassedOnIff`), and a single conversation without a gap is all that is added; no other conversation is touched; when the server works the cursors are at the last numbers met, in particular strictly increasing numbers above the cursor of one conversation move it to the last of them |
| MsgSync.MsgSyncer.DoPushMsg | internal/interaction/msg_sync.go:182-186 | messages then notifications: a step of a run, each half passing on exactly what is complete and then asking only for what it queued, with the mistaken conversations of both orders and, when the server works, the cursors at the last numbers met |
| MsgSync.MsgSyncer.DoConnected | internal/interaction/msg_sync.go:217-229 | a step of a run, and none at all when the maxima could not be fetched; when the server works every conversation reported is exactly at its maximum or stays where it was if that is not below, and the flag is cleared |
| MsgSync.MsgSyncer.HandleCommand | internal/interaction/msg_sync.go:123-134 | every command is a step: exact, by small requests within what the command names and messages that came with the push, no cursor back, apart from exactly the mistaken conversations and the one pass; what a push carries without a gap is passed on; when the server works it brings the cursors to exactly the server's maxima or the last numbers pushed |
| MsgSync.MsgSyncer.DoListener | internal/interaction/msg_sync.go:101-134 | every run, also after a reinstallation, is a sequence of such steps; over the whole of it every number passed was pulled, came with a push and was passed on, or was given up in the one pass, and nothing else was added; what a push carried without a gap has been passed on, whatever failed; without the flag everything is exact; the exempt conversations are exactly the mistaken ones, none when every push is orderly; when the server works every command brings the cursors where it should |
| Bitmaps.SetAddsOneIndex | internal/file/bitmap.go:45-52 | setting bit i%64 of word i/64 adds exactly index i, across word boundaries |
| Bitmaps.ClearRemovesOneIndex | internal/file/bitmap.go:54-61 | clearing it removes exactly index i |
| Bitmaps.ParseSerialize | internal/file/bitmap.go:22-38 | the bytes are eight per word, and reading them gives back the words |
| Bitmaps.IndexInBytes | internal/file/bitmap.go:22-38 | index i is bit i mod 8 of the byte that lies (i mod 64) / 8 bytes before the end of the group of eight that holds word i / 64 |
| Bitmaps.Bitmap.New | internal/file/bitmap.go:17-20 | the empty set, with ceil(size/64) words |
| Bitmaps.Bitmap.Parse | internal/file/bitmap.go:22-38 | the set denoted by the bytes, whatever their number |
| Bitmaps.Bitmap.Set | internal/file/bitmap.go:45-52 | the denoted set gains exactly the index |
| Bitmaps.Bitmap.Clear | internal/file/bitmap.go:54-61 | the denoted set loses exactly the index |
| Bitmaps.Bitmap.Get | internal/file/bitmap.go:63-70 | membership in the denoted set |
| Bitmaps.Bitmap.Serialize | internal/file/bitmap.go:76-89 | eight bytes per word that parse back to the same words, hence to the same set for every size |
| PartSizes.PartSizeOptimal | internal/file/upload.go:267-291 | a size is chosen exactly for files within the limit; it lies within the limits, keeps the number of parts allowed, and is the least from the minimum on that does |
| PartSizes.RoundedUpAtMost | internal/file/upload.go:259-265 | the number of parts is at most n exactly when n parts are enough |
| PartSizes.PartsDivideFile | internal/file/upload.go:531-540 | positive sizes, all but the last the part size, as many as getPartNum says, adding up to the file |
| PartSizes.FillPartSizes | internal/file/upload.go:531-540 | the array filled by the loop is that division |
| UploadLog.PutIsSafe | internal/file/upload.go:184-196 | a PUT of a part not marked keeps that no stored part is PUT again and only PUT parts are stored |
| UploadLog.StoreIsSafe | internal/file/upload.go:197-203 | storing the marks keeps that the stored set only grows and holds only parts PUT under its upload ID |
| UploadLog.StartIsSafe | internal/file/upload.go:420-494 | a run begins with exactly what the row holds for its upload ID |
| UploadLog.PutInRun | internal/file/upload.go:177-211 | what was PUT since the run began was PUT under its upload ID |
| UploadLog.CompleteIsSafe | internal/file/upload.go:213-222 | completion is requested only by a run in which every part was in the row at its start or PUT since, and every part was read with the expected md5 since |
| UploadFile.Upload.GetUpload | internal/file/upload.go:420-494 | a row that is read, can be decoded, has marks, has not expired and is for a file of several parts is resumed: its upload ID, exactly its marks, and nothing is changed; any other row that is read is deleted, the upload ID is then empty and nothing is stored, and the run ends if it cannot be deleted; without a row the server's answer decides: nothing happens, or a new ID and no marks, stored in a new row with a working table |
| UploadFile.Upload.CountUploaded | internal/file/upload.go:170-175 | the initial count is the sum of the sizes of the parts set |
| UploadFile.Upload.SendPart | internal/file/upload.go:184-195 | progress reported while a part is read never goes back nor past the part, and the last report is what was read |
| UploadFile.Upload.Md5OfPart | internal/file/upload.go:205-206 | a part not read to its end never has the expected md5 |
| UploadFile.Upload.PutPart | internal/file/upload.go:184-204 | the part is PUT before it is marked, and marked before the marks are stored; a cut anywhere leaves row and log consistent |
| UploadFile.Upload.DoPart | internal/file/upload.go:177-210 | a part that is set is only read, any other is PUT in this run; the turn succeeds only if the md5 of what was read is the expected one; the count grows by the size of a part that was not set |
| UploadFile.Upload.UploadParts | internal/file/upload.go:177-211 | part i is read at the sum of the earlier sizes; the count is what was set plus what was PUT; at the end it is the file size and the run is whole; with a working table all parts before the one in progress are in the row |
| UploadFile.Upload.UploadAll | internal/file/upload.go:169-232 | the run from the choice of the upload on uses that upload ID only, PUTs only parts that are not set, in order and each once, completes only when whole, deletes nothing but right after the server has answered the completion, and then leaves no row with a working table; with a working server it completes |
| UploadFile.Upload.Run | internal/file/upload.go:107-236 | one run, cut off anywhere, keeps the safety of the log; reports are nondecreasing and at most the file size; completion counts the whole file and leaves no row with a working table; a run that stops loses at most the part in progress; a usable row is resumed under its ID, and exactly the parts it does not have are PUT, each once, before the completion; the ID is empty exactly when the row could not be used, and such a run stores nothing and leaves no row, unless it could not be deleted; without a row the ID is new, and nothing is uploaded when the server does not answer, has the file or names another part size; with a working server the run completes |
| UploadFile.Upload.Runs | internal/file/upload.go:107-236 | any number of runs: stored parts were PUT under their upload ID, the stored set grows while the ID stays, no stored part is PUT again, every run starts from the row, and completion is requested only when every part was in the row at the start of that run or PUT in it, and was read in it with the expected md5 |
| HashLock.StepKeepsInv | internal/file/upload.go:81-105 | every step keeps: counts are the numbers of threads between the map sections, a mutex is taken exactly by its one holder, map entries are distinct and in use |
| HashLock.MutualExclusion | internal/file/upload.go:81-105 | at most one thread is between lockHash(h) and unlockHash(h), for any threads, hashes and interleaving |
| HashLock.LockIsShared | internal/file/upload.go:81-91 | the lock of a waiting or holding thread is the one in the map, and its count is the number of such threads |
| HashLock.UnlockFindsItsLock | internal/file/upload.go:93-105 | the branch for a missing entry is never taken by a paired call, and the mutex released is the one taken |
| HashLock.ReleasesTakenMutex | internal/file/upload.go:104-104 | no mutex is released that is not taken |
| HashLock.MapHoldsHashesInUse | internal/file/upload.go:81-105 | the map has exactly the hashes that some thread waits for or holds |
| HashLock.EmptyWhenIdle | internal/file/upload.go:100-102 | it is empty when every thread is idle |
| HashLock.SomeoneCanMove | internal/file/upload.go:81-105 | no deadlock: while a thread is not idle some step other than entering is possible |
| HashLock.Locks.LockHashMapSection | internal/file/upload.go:81-89 | the section under the map mutex is the step Enter |
| HashLock.Locks.LockMutex | internal/file/upload.go:90-90 | taking the lock's mutex is the step Acquire |
| HashLock.Locks.UnlockHashMapSection | internal/file/upload.go:93-103 | the section of unlockHash is the step Leave and finds the lock this thread holds |
| HashLock.Locks.UnlockMutex | internal/file/upload.go:104-104 | releasing it is the step Release, always possible here |
| SeqLists.DifferenceIs | pkg/utils/utils.go:471-484 | the difference has exactly the elements of the first list that the second lacks, in order |
| SeqLists.DifferenceSubset | pkg/utils/utils.go:472-484 | the table lookup computes that difference |
| SeqLists.SuccessiveSeqList | internal/conversation_msg/message_check.go:38-43 | the loop lists all numbers from min to max |
| SeqLists.BetweenWindowIs | internal/conversation_msg/message_check.go:68-77 | the window lies strictly between the blocks, has at most 50 numbers, touches the upper block, is empty exactly without a gap, and with fewer than 50 fills the gap |
| SeqLists.EndWindowIs | internal/conversation_msg/message_check.go:101-111 | the window below minSeq has exactly the numbers from max(1, minSeq - 50) to minSeq - 1 |
| SeqLists.EndWindowsCover | internal/conversation_msg/message_check.go:101-111 | pulling window after window takes ceil((minSeq-1)/50) rounds and reaches every number from 1 to minSeq-1 in exactly one of them |
| MessageCheck.GetMaxAndMinHaveSeqList | internal/conversation_msg/message_check.go:126-144 | maximum and minimum are attained bounds of the numbered rows, 0 exactly without any |
| MessageCheck.LostIs | internal/conversation_msg/message_check.go:37-53 | the lost list is the ascending missing numbers between the extremes, without repetitions max-min+1 minus the number held; what is pulled are the highest of them, at most 50 |
| MessageCheck.NeededIff | internal/conversation_msg/message_check.go:152-167 | whatever the table holds, a pull is asked for exactly when some number is missing and the repeated rows are not as many as the missing numbers; without repeated rows exactly when some number is missing |
| MessageCheck.FoundOrMissing | internal/conversation_msg/message_check.go:152-167 | the numbers asked for are as many as the different ones found and the missing ones together |
| MessageCheck.RepeatedRowHidesGap | internal/conversation_msg/message_check.go:158-161 | comparing lengths lets a row number stored twice hide a missing one |
| MessageCheck.RepeatedRowWithTwoMissing | internal/conversation_msg/message_check.go:158-167 | with rows 5 and 5 the list 5, 6, 7 is pulled all the same |
| MessageCheck.NewestNeededIff | internal/conversation_msg/message_check.go:118-123 | the query [0, 0] is sent exactly when the table has no unnumbered row |
| MessageCheck.RequestForMissing | internal/conversation_msg/message_check.go:162-176 | for an ascending list the request goes from the least to the greatest number that the list has and the table lacks, and asks for as many as there are |
| MessageCheck.KeptHasNoGapIff | internal/conversation_msg/message_check.go:205-221 | after a failed pull the kept part of a page in descending order has no gap up to max exactly when no row lies between the highest number asked for and the highest lost; so it has none when the highest lost number is not in the table |
| MessageCheck.LocalEndIff | internal/conversation_msg/conversation.go:130-131 | minimum 1 and nothing lost holds exactly when the page is 1 to max for some max |
| MessageCheck.InnerLeavesNoGap | internal/conversation_msg/message_check.go:32-59 | a pull inside the page that is not answered with messages leaves no gap, when there was none or the request failed with the highest missing number not in the table |
| MessageCheck.PullsAreAllowed | internal/conversation_msg/message_check.go:32-125 | the three pulls of a query send at most three requests, each inside, above or below the page, or without any number on it for the newest messages |
| MessageCheck.WhatPullsLeave | internal/conversation_msg/conversation.go:123-142 | whatever the server answers, the error code is set exactly when some request failed; without an answer that carries messages the page is a beginning of the old one; otherwise table and end mark are those of the last such answer, and the page is a beginning of the one read then |
| MessageCheck.HistoryQuery.ErrHandle | internal/conversation_msg/message_check.go:205-221 | the loop keeps the page up to the first numbered row at or below the highest number asked for and sets error code 100 |
| MessageCheck.HistoryQuery.PullMessageAndReGet | internal/conversation_msg/message_check.go:149-204 | nothing is sent and nothing changes, or exactly the missing numbers are asked for once: from the least to the greatest and as many as there are; what the server answered, a failure, messages or anything else, determines the table, the page, the end mark and the error code afterwards; the request is sent when it is needed, the table can be queried and the connection is up, and never when it is not needed, or is down without a start time |
| MessageCheck.HistoryQuery.InternalContinuityCheck | internal/conversation_msg/message_check.go:32-59 | extremes and length exact; the pull is that of the highest missing numbers, strictly inside the block; no gap is left when the server's answer was a failure, under the condition above |
| MessageCheck.HistoryQuery.BetweenContinuityCheck | internal/conversation_msg/message_check.go:62-95 | true exactly when a bound is missing or the blocks touch; otherwise the pull is that of the window below the upper block, strictly between them and up to the upper block unless the table has that number |
| MessageCheck.HistoryQuery.EndContinuityCheck | internal/conversation_msg/message_check.go:98-125 | the pull is that of the window below the lowest number, up to it unless the table has that number, of nothing when it is 1; without any number that of the newest messages |
| MessageCheck.HistoryQuery.ThisMinSeq | internal/conversation_msg/conversation.go:145-152 | the lowest number on the returned page, or the one the caller came with |
| MessageCheck.HistoryQuery.GetAdvancedHistoryMessageList | internal/conversation_msg/conversation.go:123-142 | the pulls made are exactly those of the checks, one after another, each sent when it is due and for exactly the missing numbers, and the answers determine the state afterwards, the end mark being the one answered last; the end is concluded locally exactly for a short page that is 1 to some maximum; at most three requests, each inside, above or below the page; the error code is set exactly by a failed request; when no answer carries messages the page returned is a prefix of the one read, without a gap if that had none or the server answered the first pull with a failure and the highest missing number is not in the table |
| MaxSeqRecorders.MaxSeqRecorder.Set | internal/conversation_msg/max_seq_recorder.go:35-39 | sets one conversation and no other |
| MaxSeqRecorders.MaxSeqRecorder.Incr | internal/conversation_msg/max_seq_recorder.go:41-45 | adds to one conversation and to no other |
| MaxSeqRecorders.MaxSeqRecorder.IsNewMsg | internal/conversation_msg/max_seq_recorder.go:47-52 | above the recorder |
| MaxSeqRecorders.ExactIff | internal/conversation_msg/conversation_msg.go:294-300 | for any order of arrival, exactly the messages above the snapshot are counted if and only if the k-th of them has a number above snapshot + k, and if and only if the recorder grew by their number |
| MaxSeqRecorders.IncreasingIsExact | internal/conversation_msg/conversation_msg.go:294-300 | in strictly increasing order that always holds (the recorder stays below the next number) |
| MaxSeqRecorders.OnceEachIff | internal/conversation_msg/conversation_msg.go:294-300 | for any order and any repeated deliveries, every new message is counted exactly once, at its first delivery, if and only if each delivery lies further above the snapshot than the number of different new messages before it exactly when it is a first one; the recorder is then the snapshot plus the different new messages |
| MaxSeqRecorders.RecorderSplits | internal/conversation_msg/conversation_msg.go:294-300 | the stream may be cut into batches anywhere |
| MaxSeqRecorders.WrongOrderMisses | internal/conversation_msg/max_seq_recorder.go:47-52 | after M, the messages M+2 and M+1 in this order are counted as one |
| MaxSeqRecorders.RepeatedMessageCountsTwice | internal/conversation_msg/max_seq_recorder.go:47-52 | M+2 delivered twice is counted twice |
| ConversationFold.UpdateConversation | internal/conversation_msg/conversation_msg.go:857-870 | in place on shared objects: the view of the map is the old one with this message merged into its conversation, all others unchanged |
| ConversationFold.FoldIs | internal/conversation_msg/conversation_msg.go:857-870 | the fold has the sum of the unread counts, the maximum send time, and the first message attaining it |
| ConversationFold.FoldPermutation | internal/conversation_msg/conversation_msg.go:857-870 | any order gives the same unread count and send time, and the same latest message unless different ones tie |
| ConversationFold.FoldConcat | internal/conversation_msg/conversation_msg.go:857-870 | folding batches and merging the results is folding everything |
| ConversationFold.Diff | internal/conversation_msg/conversation_msg.go:416-442 | for every order, the database's objects become the old ones merged with the batch; changed ones are exactly the common ones; new ones are kept exactly when they can be named |
| ConversationFold.UnreadConservedIff | internal/conversation_msg/conversation_msg.go:416-442 | the total unread count is conserved over changed and new conversations exactly when the new ones could be named or have none unread |
| NewMessages.BatchUnread | internal/conversation_msg/conversation_msg.go:194-318 | a batch adds to the unread count what the recorder grows by, less the counted messages without a conversation update |
| NewMessages.UnreadExactIff | internal/conversation_msg/conversation_msg.go:294-305 | over any batches in any order the unread count grows by the number of messages above the snapshot if and only if exactly those are counted and every one counted updates its conversation |
| NewMessages.UnreadIsExact | internal/conversation_msg/conversation_msg.go:294-305 | over any batches in increasing order, the unread count grows by exactly the number of new messages above the snapshot, each once, and the recorder is the snapshot plus that number |
| NewMessages.CountedNotShown | internal/conversation_msg/conversation_msg.go:294-305 | a counted message without a conversation update is lost from the unread count |
| NewMessages.BatchTakesSteps | internal/conversation_msg/conversation_msg.go:294-370 | what the handler writes for a conversation is what its messages, one step each, do to recorder and unread count |
| NewMessages.BatchConserves | internal/conversation_msg/conversation_msg.go:329-375 | when everything is written the total unread count of the table grows by that of the batch |
| NewMessages.Conversation.FoldMessage | internal/conversation_msg/conversation_msg.go:208-317 | a message is counted exactly when its content can be read, it is not deleted, has both IDs, is not one's own, not stored yet, carries the unread switch and lies above the recorder; it is folded exactly when it is accepted and carries the update switch, one's own also the sender's; no other conversation changes |
| NewMessages.Conversation.FoldMessages | internal/conversation_msg/conversation_msg.go:194-318 | the loop over a conversation's messages is the fold of its summaries and the recorder of its stream |
| NewMessages.Conversation.FoldBatch | internal/conversation_msg/conversation_msg.go:189-321 | for every order of the conversations, each gets its own fold and recorder |
| NewMessages.Conversation.DoMsgNew | internal/conversation_msg/conversation_msg.go:170-375 | recorder and table after a batch, also when the table cannot be listed, and what is certain with a working table |
| NewMessages.Conversation.SyncAllConversationHashReadSeqs | internal/conversation_msg/sync.go:66-147 | without an answer or a list nothing changes; otherwise every recorder is set to the server's maximum, rows take the unread count max(0, maximum - read) and the number read unless their update failed, and when some conversations are missing what the server returned is inserted with the same numbers if the table has none of it, surely so with a working table |
| UnreadAccounting.ReadsClosedForm | internal/conversation_msg/read_drawing.go:199-207 | any own read notifications end with the maximum number read and max(0, unread - its growth) |
| UnreadAccounting.ReadsCommute | internal/conversation_msg/read_drawing.go:199-207 | lists with the same elements, in any order and with any repetition, have the same effect |
| UnreadAccounting.HereClosedForm | internal/conversation_msg/read_drawing.go:149-156 | messages marked as read here in any portions take as many off the unread count, never below zero, and change nothing else |
| UnreadAccounting.AgreesStepIff | internal/conversation_msg/read_drawing.go:189-226 | a step keeps unread == max(0, recorder - read) exactly unless it counts a message behind the number read or marks unread messages here only |
| UnreadAccounting.AgreesThroughoutIff | internal/conversation_msg/sync.go:86-95 | from a snapshot on, that equation holds throughout a run exactly when no event of the run breaks it |
| UnreadAccounting.ReadElsewhereFirst | internal/conversation_msg/conversation_msg.go:296-300 | a message read on another device before it arrives is counted as unread |
| UnreadAccounting.ReadHereThenNotified | internal/conversation_msg/read_drawing.go:149-156 | a message marked here is taken off again by the notification of it |
| UnreadAccounting.ReadAllThenNotified | internal/conversation_msg/read_drawing.go:114-116 | marking everything here is repaired by the notification of it |
| ReadDrawing.ConversationTable.DecrConversationUnreadCount | pkg/db/conversation_model.go:346-369 | the transaction subtracts and clamps at 0, or changes nothing |
| ReadDrawing.ConversationTable.DoUnreadCount | internal/conversation_msg/read_drawing.go:189-226 | the number read never goes down whatever fails; with working operations the row of a single chat gets the number read and max(0, unread - growth) if it grows, any other row has nothing unread |
| ReadDrawing.ConversationTable.DoReadDrawing | internal/conversation_msg/read_drawing.go:228-300 | notifications of others and for unknown conversations leave the counts alone |
| ReadDrawing.ConversationTable.MarkMessagesAsReadByMsgID | internal/conversation_msg/read_drawing.go:123-159 | without the server's answer nothing changes; otherwise exactly those that the table can mark are marked, in order, of the messages that are unread, numbered and not one's own, and the unread count becomes max(0, unread - their number) |
| ReadDrawing.AsReadIs | internal/conversation_msg/read_drawing.go:161-176 | exactly the unread, numbered messages of others are selected |
| ReadDrawing.GetAsReadMsgMapAndList | internal/conversation_msg/read_drawing.go:161-176 | the two lists built by the loop are their IDs and numbers, position by position |
| WsRespAsyn.StepKeepsInv | internal/interaction/ws_resp_asyn.go:58-134 | every step keeps: table channels open, distinct, holding only their own responses, owned by exactly one request in flight |
| WsRespAsyn.NoPanic | internal/interaction/ws_resp_asyn.go:91-114 | under every interleaving the channel of every send and of every deletion is open: nothing is sent on a closed channel and none is closed twice |
| WsRespAsyn.OpenIsInTable | internal/interaction/ws_resp_asyn.go:58-99 | a channel is open exactly while it is in the table |
| WsRespAsyn.OwnResponseOnly | internal/interaction/long_conn_mgr.go:352-366 | a requester only gets a response with its own MsgIncr |
| WsRespAsyn.GotIsFirstSent | internal/interaction/long_conn_mgr.go:352-366 | a request that ends with a response has the first one sent to its identifier, with the data that the reader was handed; one that ends without gave up |
| WsRespAsyn.ReceiveGetsFirst | internal/interaction/long_conn_mgr.go:358-360 | a waiting requester can receive exactly when a response to it has been sent, and gets the first of them; it never receives from a closed channel |
| WsRespAsyn.AnsweredRun | internal/interaction/ws_resp_asyn.go:58-134 | the run in which one request is answered ends with the requester having the response, with its data, and an empty table |
| WsRespAsyn.TableIsInFlight | internal/interaction/ws_resp_asyn.go:58-99 | the table's keys are exactly the requests in flight |
| WsRespAsyn.NeverBlocks | internal/interaction/ws_resp_asyn.go:117-134 | with at most one answer per identifier the send under the mutex goes through at once |
| WsRespAsyn.WaitingRequesterUnblocks | internal/interaction/ws_resp_asyn.go:101-134 | a blocked reader is released by the requester as long as it waits |
| WsRespAsyn.BlockedForGoodIff | internal/interaction/ws_resp_asyn.go:117-134 | it is stuck exactly when the requester has stopped waiting |
| WsRespAsyn.StuckForever | internal/interaction/ws_resp_asyn.go:91-134 | once stuck, no continuation sends, adds or deletes anything |
| WsRespAsyn.TwoAnswersCanDeadlock | internal/interaction/ws_resp_asyn.go:117-134 | two answers to one request are enough to get there |
| WsRespAsyn.WsRespAsyn.AddCh | internal/interaction/ws_resp_asyn.go:58-69 | the method is the step AddCh |
| WsRespAsyn.WsRespAsyn.DelCh | internal/interaction/ws_resp_asyn.go:91-99 | the method is the step DelCh |
| WsRespAsyn.WsRespAsyn.NotifyLookup | internal/interaction/ws_resp_asyn.go:117-124 | the part of NotifyResp up to the send is the step Lookup |
| WsRespAsyn.WsRespAsyn.NotifySend | internal/interaction/ws_resp_asyn.go:125-133 | the send that ends it is the step Send |
| WsRespAsyn.WsRespAsyn.SelectResp | internal/interaction/long_conn_mgr.go:357-364 | the select is the step Receive or GiveUp, and returns what the channel has |
| SendLifecycle.StepKeepsInv | internal/conversation_msg/sdk.go:400-428 | every step of any calls, pushes, failures and crashes keeps: numbered rows settled, one owner per message, owners listed, rows being sent listed or abandoned |
| SendLifecycle.GuardedIs | pkg/db/chat_log_model_v3.go:89-94 | a status is written to the row exactly when it has no number, and to no other row |
| SendLifecycle.NumberedIsSettled | pkg/db/chat_log_model_v3.go:89-94 | in every reachable state a row with a number is neither being sent nor failed |
| SendLifecycle.SettledForever | internal/conversation_msg/sdk.go:740-759 | after the server has pushed a message back, no late timeout, failure, retry, crash or recovery marks it failed |
| SendLifecycle.EchoIsRecorded | internal/conversation_msg/conversation_msg.go:238-317 | a message pushed back that is not there or has no number gets the status and number it came with, and nothing else changes; one with a number is left alone |
| SendLifecycle.OneAttemptAtATime | internal/conversation_msg/sdk.go:400-428 | two calls never have the same message in flight: the list acts as a lock |
| SendLifecycle.ListingRefusedIff | internal/conversation_msg/sdk.go:408-426 | a first listing is never refused; a retry exactly while the message is still listed |
| SendLifecycle.FinishedIsNotSending | internal/conversation_msg/sdk.go:273-290 | a call that ends by unlisting its message leaves it not being sent |
| SendLifecycle.RecoveryIsExact | open_im_sdk/userRelated.go:281-322 | recovery empties the list, turns exactly the listed messages that were being sent into failed ones, and leaves every other row as it was; what is still being sent was abandoned |
| SendLifecycle.CrashThenRecovery | open_im_sdk/userRelated.go:281-322 | after a crash at any point of a run without failing table operations, recovery leaves being sent exactly the messages between their two insertions |
| SendLifecycle.CrashBetweenInsertions | internal/conversation_msg/sdk.go:404-411 | a run exists that leaves a message being sent, not listed and known to no call |
| SendLifecycle.ForgottenForever | internal/conversation_msg/sdk.go:401-418 | such a message is being sent in every continuation, through calls, crashes and recoveries, and every attempt to send it again is refused, unless the server pushes it back |
| SendLifecycle.ReportedFailedIff | internal/conversation_msg/sdk.go:743-759 | after a timeout a message that has come back is reported as failed exactly when its row is not a plain success, and the row stays as it is |
| SendLifecycle.FilteredIsReportedFailed | internal/conversation_msg/sdk.go:744-753 | a run exists in which a message that came back filtered is reported as failed |
| SendLifecycle.Calls.GetMessage | internal/conversation_msg/sdk.go:401-418 | looking the message up is the step LookUp |
| SendLifecycle.Calls.Insert | internal/conversation_msg/sdk.go:403-407 | inserting its row is the step InsertMessage, refused exactly when it is there, or its failure |
| SendLifecycle.Calls.List | internal/conversation_msg/sdk.go:408-426 | listing it is the step InsertSending, refused exactly when it is listed, or its failure |
| SendLifecycle.Calls.CheckArrived | internal/conversation_msg/sdk.go:743-754 | the check after a timeout is the step Check, passed exactly with the status of success |
| SendLifecycle.Calls.Record | internal/conversation_msg/sdk.go:282-286 | recording the outcome is the step Update or its failure |
| SendLifecycle.Calls.Unlist | internal/conversation_msg/sdk.go:287-290 | taking it off the list is the step Delete or its failure |
| SendLifecycle.Calls.Begin | internal/conversation_msg/sdk.go:400-428 | the beginning of a call is a run of the steps, whatever fails: repeated exactly unless new or failed before |
| SendLifecycle.Calls.UpdateMsgStatus | internal/conversation_msg/sdk.go:273-290 | recording and unlisting, in this order and the second whether or not the first worked, end the call; a row with a number keeps its status |
| SendLifecycle.Calls.SendMessageToServer | internal/conversation_msg/sdk.go:740-777 | the rest is one too: reported as sent exactly when accepted, or timed out with a row of success; the row follows only while it has no number |
| SendLifecycle.Calls.SendMessage | internal/conversation_msg/sdk.go:384-431 | a whole call that runs alone is a run of the steps, whatever fails; every way it can be refused, and with working tables what each leaves in both of them |
| SendLifecycle.Calls.UpdateMessageTimeAndStatus | pkg/db/chat_log_model_v3.go:89-94 | changes the row only while it has no number |
| SendLifecycle.Calls.HandlerSendingMsg | open_im_sdk/userRelated.go:296-322 | a row being sent becomes failed, any other stays |
| SendLifecycle.Calls.CheckSendingMessage | open_im_sdk/userRelated.go:281-294 | for every order of the list the tables become those of the step Restart; whatever fails, only listed rows change and only from being sent to failed |

## Left out

- Websocket, HTTP, JSON, gob and compression: requests succeed or fail arbitrarily.
- SQL: tables are maps or lists with the contracts the callers rely on; search conditions are not modelled.
- What a pull returns: only whether it succeeded matters to the cursors; in a history query what `pullMessageIntoTable` makes of an answer, and the page then read, are part of the arbitrary answer.
- Channel send timeouts when messages are passed on: sending is taken to succeed; to which of the two listeners a push is passed on is not modelled.
- The number of messages that a request of the synchroniser asks for per conversation.
- Integer widths: sequence numbers and counts are unbounded, also where the source narrows an unread count to 32 bits.
- MsgSync.MsgSyncer.DoListener: conversations passed on by mistake are exempt from exactness, which does not hold of them; they are named exactly.
- UploadFile.Upload.Run: file names, callbacks, signing of URLs, the cached part limit and its removal, and the type of completion reported are not modelled; an md5 is a number, arbitrary except that a part not read to its end never has the expected one.
- UploadFile.Upload.GetUpload: base64 decoding succeeds or fails arbitrarily and the text is kept as its bytes; upload IDs are numbered in the order the server issues them.
- HashLock.SomeoneCanMove: fairness of the mutexes is not modelled, so it does not say that a given thread gets its turn.
- WsRespAsyn.NeverBlocks: the one-second timeout inside `notifyCh` is not modelled, since the loop around it retries without releasing the mutex; reconnection and the rewriting of requests only delay a requester.
- MessageCheck.HistoryQuery.GetAdvancedHistoryMessageList: conversion, filtering and sorting of the returned messages are not modelled.
- NewMessages.Conversation.DoMsgNew: the hidden-conversation override, names and pictures, insertion of messages into the message table, and listener callbacks are not modelled.
- ReadDrawing.ConversationTable.DoUnreadCount: marking the message rows and the latest message as read is not modelled; the row is the one read just before, since notifications are handled one at a time.
- ReadDrawing.ConversationTable.DoReadDrawing: receipts of other users update message rows only and are not modelled further.
- ReadDrawing.ConversationTable.DecrConversationUnreadCount: a failure of the first update leaves the transaction open in the source; here it only changes nothing.
- SendLifecycle.StepKeepsInv: messages that need an upload, deletion of messages by the user, and messages sent online only are not modelled; a message is named by conversation and client ID together, and the server's answer carries the client ID of the request.
- SendLifecycle.Calls.Begin: runs alone; interleaving with other calls is what the state machine is for.
- SendLifecycle.Calls.SendMessageToServer: runs alone, and records success before it returns, where the source does so in a goroutine; in the state machine that record may come at any later time.
- SendLifecycle.Calls.SendMessage: runs alone, for content types that need no upload.
- Typing state, friend, group and user synchronisation, reflection in the call wrapper, and message creation helpers.
