# Verified model of the IoT connect core

This project models, in Dafny 4.11, the parts of the OpenHarmony `communication_iot_connect` repository that hold
algorithms and state machines, and proves what they keep over all inputs, all runs and all interleavings. It stands
beside the C sources; nothing in it is linked with them or executed.

`dafny verify dfyconfig.toml` checks everything.

## What is modelled

- **Calendar and clock** (`Calendar`, `TimeConvert`, `SysClock`, `TimeContext`). The Gregorian calendar is defined by
  its leap-year rule and by counting days. The closed formulas of `utils_time.c`, with the wrap-around and the casts of
  the C code, are proved to agree with it for every 64-bit time stamp.
- **Message queue** (`UtilsQueue`, `MsgQueue`, `MsgQueueCalls`, `MsgQueueLimits`). The queue is a class changed in
  place. The blocking queue over it is a step system: any number of tasks, one lock, two semaphores that are posted only
  when their count is zero, and a check for empty or full that is a step of its own before the wait.
- **Blocking executor** (`Executor`, `ExecutorMessages`, `ExecutorTimeout`, `ExecutorLimits`). A step system of callers,
  the scheduler task, its message FIFO, two locks and one semaphore, with re-entrant calls from callbacks and with
  messages left behind by calls that timed out; and the time budget of one call on a clock that wraps around.
- **Hash map** (`HashTable`, `HashLedger`, `HashIteration`, `HashRuns`, `HashSafety`, `HashMap`). Linked nodes changed
  in place, proved against a table, the table against a finite map, and both against an account of every value handed in
  and freed. An iteration callback is a script of verdicts (remove this entry or not, go on or not), which is all that
  an iteration sees of it.
- **Secure store and device configuration** (`StoreItem`, `Store`, `DeviceConfig`, `DeviceRuns`, `ConfigInfo`). A RAM
  mirror over an encrypted key-value backend, with every failure of the backend, the allocator and the primitives as a
  parameter. HKDF (RFC 5869), HMAC (RFC 2104) and AES-GCM (NIST SP 800-38D) are arbitrary functions with the law that
  what was sealed can be opened. The backend is a map that is honest when it reports success and may leave anything when
  it fails; so may a decryption that fails over the buffer it writes to. The header of a stored frame is laid out with
  its length in little-endian order.
- **Session keys** (`SessKey`), with PBKDF2 (section 5.2 of RFC 8018) as an arbitrary function.
- **Adaptive buffer** (`AdaptiveBuffer`), **watchdog** (`WatchDog`), **hexadecimal codecs** (`Hex`), **masking**
  (`CString`, `Anonymize`) and the **BLE link layer** (`LinkLayer`, `LinkRuns`, `LinkStreams`), which cuts messages into
  fragments, puts arriving fragments together again and hands a message on as soon as it is complete.

`Common` has the machine widths and small shared types. Unsigned arithmetic that can wrap is written with `ToU8` to
`ToU64`. Clock readings, allocation failures, random salts and callback results are parameters.

## What turned out false, and exactly when it holds

- The calendar fields name the second of the time stamp if and only if its minute count fits 32 bits
  (`TimeConvert.ConvertTimeExact`); beyond that they name the second reduced by the truncation.
- A stored local time is UTC plus the signed offset if and only if the minutes are non-negative towards the east and
  zero otherwise, but for the one value that its own cast negates (`TimeContext.LocalTimeExact`).
- A stamp read back has advanced by the time gone by, and the calendar fields name the second reached, if and only if
  the system clock has not gone a full turn since it was set (`TimeContext.TimeContext.GetUtcTimeStamp`, `GetTimeInfo`).
- With one consumer no wake-up is lost (`MsgQueue.ConsumerWakes`), nor with one producer (`MsgQueue.ProducerWakes`).
  With any two of them and a third task one can be: for every capacity above one without any call failing
  (`MsgQueueLimits.TwoConsumersLoseWakeup`, `TwoProducersLoseWakeup`), and for every capacity when the call that is
  woken fails (`MsgQueueLimits.FailedPopLosesWakeup`, `FailedPushLosesWakeup`).
- `Suspend` does not stop every push. In a suspended state in which nothing else hinders a task, it can put a value
  before a resumption if and only if its push is between the switch and its put
  (`MsgQueueLimits.PutsWhileSuspendedIff`).
- A call of the executor is not always served exactly once (`ExecutorLimits.StaleMessageRunsTwice`). In a state with the
  API lock free, calls are served exactly once until the next one times out after enqueuing, if and only if neither a
  wait message nor a token of an earlier call is left (`ExecutorLimits.ExactlyOnceIff`).
- A blocking call stays within its timeout if and only if its two lock stages together do
  (`ExecutorTimeout.BlockedWithinTwice`), and within twice the timeout always.
- The hash map can free a value that it still stores: one put in its own place (`HashSafety.ReinsertedIsFreed`), or one
  of several copies taken away (`HashSafety.SharedIsFreed`). An act does so if and only if its guard holds, and a run
  never does if and only if every act avoids its guard (`HashSafety.FreesStoredIff`, `NeverFreesStoredIff`). No run does
  if the value is never handed in while it is held (`HashSafety.NeverTwiceIsSafe`); handing it in while it is held does
  so, or makes a removal do so (`HashSafety.HandedTwiceBreaks`).
- A write leaves RAM as it was if and only if it does not come to a decryption, in its read-back, that fails and leaves
  something else there (`StoreItem.WriteKeeps`, `DeviceConfig.SaveAuthIs`).
- A `uidHash` that was set does not change through clearing only. In every legal run without a clearing, whatever fails,
  it stays all along if and only if every save spares it in its read-back and every restart registers the item and gets
  the same `uidHash` out of what the backend then holds (`DeviceRuns.UidRun`). A restart whose pull fails lets another
  `uidHash` in for good (`DeviceRuns.FailedPullRebinds`); a failed write that empties the entry
  (`DeviceRuns.DamagedEntryLosesUid`), or that never reaches the backend (`DeviceRuns.UnsavedUidLost`), loses it at the
  next restart.
- A message cut into packets is not always handed on exactly once: a message of one packet is handed on as often as the
  packet arrives (`LinkRuns.RepeatedPacketDelivers`), and a packet of a longer one that comes again after completion
  blocks every other message until it is too old (`LinkRuns.LatePacketBlocks`). It is handed on exactly once if and only
  if the packets amount to it and those after the first time do not (`LinkRuns.ExactlyOnce`).
- Packets that do not agree on the number of fragments can be put together to a message that nobody sent
  (`LinkStreams.MixedMessage`). In every stream of arbitrary packets what is handed on is arrived fragments one after
  the other, as long as no packet brings a short fragment for an inner place; and the first that does makes it something
  else, of fragments without zero bytes (`LinkStreams.StreamHandsOn`, `HandsOnExact`).
- A cached session key is handed out whatever password is given (`SessKey.OtherPasswordServed`). The key is that of the
  caller's own password if and only if none was cached or the cached one was made with the same password, for a
  derivation that separates the two (`SessKey.OwnPassword`).
- A watchdog fires in time if and only if its timeout is at most 4294966000 ms (`WatchDog.DueExactly`).

The comment in `dfx_anonymize.h` says that identifiers of 19 characters and more are masked from the tenth character on;
the table in `dfx_anonymize.c` masks from the eleventh, and the model follows the table.

## Model

| member | source | states |
|---|---|---|
| `Calendar.DaysBeforeYearClosed` | core/infrastructure/utils/utils_time.c:206-208 | the leap-day count by centuries and four centuries used in the formulas is the sum of year lengths by the leap-year rule |
| `Calendar.DateOfDay` | core/infrastructure/utils/utils_time.c:213-260 | every day number is that of some valid date, so the inverse to be computed exists |
| `Calendar.EpochDayMonotone` | core/infrastructure/utils/utils_time.c:213-260 | day numbers grow with dates, so the inverse is unique |
| `TimeConvert.GetDateInverts` | core/infrastructure/utils/utils_time.c:213-260 | GetDate recovers every valid date in range from its day number |
| `TimeConvert.GetDateCorrect` | core/infrastructure/utils/utils_time.c:213-260 | for every day number in range GetDate succeeds with a valid date whose day number by the leap-year rule is its argument |
| `TimeConvert.GetDateFails` | core/infrastructure/utils/utils_time.c:223-250 | for every 64-bit argument, casts wrapping or not, GetDate fails if and only if the shifted day is outside 123 to 214748364 |
| `TimeConvert.WeekDayCorrect` | core/infrastructure/utils/utils_time.c:194-210 | for every valid date the weekday formula agrees with counting days from 1970-01-01 |
| `TimeConvert.GetWeekDayFails` | core/infrastructure/utils/utils_time.c:194-210 | the weekday is refused exactly for months above 14 |
| `TimeConvert.ConvertTimeFields` | core/infrastructure/utils/utils_time.c:262-289 | all fields of the result come from the one date that the day count names, none truncated, the weekday as the bit 1, 2, 4, 8, 16, 32 or 64 from Monday on |
| `TimeConvert.ConvertTimeCorrect` | core/infrastructure/utils/utils_time.c:262-289 | for every non-zero stamp the fields are a valid calendar time, re-encode to the seconds modulo 60 * 2^32, and carry the bit 1 to 64 of the weekday that plain day counting gives |
| `TimeConvert.ZeroRefused` | core/infrastructure/utils/utils_time.c:262-268 | the stamp zero is refused |
| `TimeConvert.ConvertTimeExact` | core/infrastructure/utils/utils_time.c:269-275 | the fields re-encode to the seconds of the stamp if and only if the minute count fits 32 bits |
| `TimeConvert.ConvertTimeMonotone` | core/infrastructure/utils/utils_time.c:262-289 | of two stamps whose minutes fit 32 bits the later gives lexicographically no earlier fields |
| `SysClock.DeltaTimeIsElapsed` | core/infrastructure/utils/utils_common.c:37-48 | across any number of wraps the difference is the elapsed time modulo 2^32, exact if and only if less than one wrap passed |
| `TimeContext.TimeContext.constructor` | core/infrastructure/utils/utils_time.c:136-144 | nothing is set at first |
| `TimeContext.TimeContext.SetUtcTimeStamp` | core/infrastructure/utils/utils_time.c:146-176 | the new state in every case: a failed call has already replaced the UTC stamp and left the local one |
| `TimeContext.TimeContext.SetTimezone` | core/infrastructure/utils/utils_time.c:178-191 | the stamps stay; the zone then moves every UTC time by its signed offset if and only if hours and minutes have the signs that the casts assume |
| `TimeContext.TimeContext.GetUtcTimeStamp` | core/infrastructure/utils/utils_time.c:86-118 | set, wait, read: the stamp has advanced by exactly the time gone by if and only if it was set, the clock made less than one turn since and the sum fits 64 bits; by that time less whole turns otherwise; and when each error comes |
| `TimeContext.TimeContext.GetTimeInfo` | core/infrastructure/utils/utils_time.c:291-345 | set, wait, read: the fields are valid, and name the second reached if and only if it was set, the clock made less than one turn since and the minutes fit 32 bits; and when there are none |
| `TimeContext.AdvancedExact` | core/infrastructure/utils/utils_time.c:65-118 | a stamp comes back advanced by the elapsed time less whole turns of the clock, so exactly by that time if and only if there were none and the sum fits 64 bits |
| `TimeContext.FieldsFollowClock` | core/infrastructure/utils/utils_time.c:291-313 | the fields of an advanced stamp name the second reached if and only if the clock made less than one turn and the minutes fit 32 bits |
| `TimeContext.LocalTimeExact` | core/infrastructure/utils/utils_time.c:120-134 | local time is UTC plus the signed offset if and only if the minutes have the sign the casts assume; a sum too large fails towards the east, one below zero wraps around towards the west |
| `TimeContext.DefaultIsEight` | core/infrastructure/utils/utils_time.c:120-134 | until a zone is set local time is eight hours ahead, or an error when that does not fit |
| `UtilsQueue.Queue.constructor` | core/infrastructure/utils/utils_queue.c:28-42 | an empty queue of the given capacity |
| `UtilsQueue.Queue.Create` | core/infrastructure/utils/utils_queue.c:65-82 | an empty queue, exactly for a capacity that is not zero and with memory |
| `UtilsQueue.Queue.Push` | core/infrastructure/utils/utils_queue.c:84-124 | the value goes to the tail exactly when the arguments, the length, the room and the allocator allow, and the queue is as it was otherwise |
| `UtilsQueue.Queue.PushMem` | core/infrastructure/utils/utils_queue.c:126-152 | the same without a copy: exactly one of caller and queue owns the block afterwards |
| `UtilsQueue.Queue.Pop` | core/infrastructure/utils/utils_queue.c:154-201 | the head comes out; a pop that fails, also for want of room, loses nothing |
| `UtilsQueue.PushSucceeds` | core/infrastructure/utils/utils_queue.c:84-152 | exactly when a push succeeds and when it reports a full queue, for a copy and for a hand-over |
| `UtilsQueue.PopSucceeds` | core/infrastructure/utils/utils_queue.c:154-201 | exactly when a pop succeeds and when it reports an empty queue |
| `MsgQueue.StepKeeps` | core/infrastructure/utils/utils_msg_queue.c:124-396 | every step of every task keeps the invariant of lock, counts, semaphores and history |
| `MsgQueue.RunKeeps` | core/infrastructure/utils/utils_msg_queue.c:124-396 | the invariant holds in every reachable state, with the same tasks and capacity |
| `MsgQueue.Conservation` | core/infrastructure/utils/utils_msg_queue.c:205-340 | in every interleaving of any number of tasks the values pushed are the values popped followed by the queue, in order, within capacity, and no semaphore exceeds one |
| `MsgQueue.ConsumerWakes` | core/infrastructure/utils/utils_msg_queue.c:162-184 | with one consumer, if it waits while the queue is not empty and the lock is free, its token is there and it can go on |
| `MsgQueue.ProducerWakes` | core/infrastructure/utils/utils_msg_queue.c:135-160 | with one producer, the same for a producer waiting for room |
| `MsgQueue.LatePushPutsNothing` | core/infrastructure/utils/utils_msg_queue.c:205-275 | a task whose push is not between the switch and its put when a suspension begins puts nothing while it lasts |
| `MsgQueue.SuspendedQueueOnlyDrains` | core/infrastructure/utils/utils_msg_queue.c:369-396 | a suspension that begins with no push between the switch and its put only ever drains the queue from its head |
| `MsgQueueCalls.PopAlone` | core/infrastructure/utils/utils_msg_queue.c:277-340 | from every reachable state with the lock free, for every size and timeout: the own steps of a pop take the head if it fits, post the other side and return; on an empty queue they return, wait, or spend a stale token and return |
| `MsgQueueCalls.PushAlone` | core/infrastructure/utils/utils_msg_queue.c:205-275 | the same for every push, copied or handed over: with the switch on and room the value goes to the tail and the other side is posted; off, empty, too long or full, exactly what happens instead |
| `MsgQueueCalls.SwitchAlone` | core/infrastructure/utils/utils_msg_queue.c:369-396 | a suspension or resumption sets the switch, changes nothing else and returns |
| `MsgQueueCalls.PopWoken` | core/infrastructure/utils/utils_msg_queue.c:162-184 | a waiting pop that gets its token spends it, takes the head if it fits and returns |
| `MsgQueueCalls.PushWoken` | core/infrastructure/utils/utils_msg_queue.c:135-160 | a waiting push that gets its token spends it, puts its value if it can and returns |
| `MsgQueueCalls.ConsumerTakes` | core/infrastructure/utils/utils_msg_queue.c:162-184 | with one consumer that waits on a queue that is not empty, its own steps alone take the head, if it fits, and return |
| `MsgQueueCalls.ProducerPuts` | core/infrastructure/utils/utils_msg_queue.c:135-160 | with one producer that waits although there is room, its own steps alone put its value and return |
| `MsgQueueCalls.FailuresChangeNothing` | core/infrastructure/utils/utils_msg_queue.c:124-340 | exactly where a call can time out or lack memory, and that it then has changed nothing; a push that gives up on the lock of the switch goes on |
| `MsgQueueCalls.HolderGoesOn` | core/infrastructure/utils/utils_msg_queue.c:124-396 | in every reachable state the task that has the lock can take its next step |
| `MsgQueueLimits.TwoConsumersLoseWakeup` | core/infrastructure/utils/utils_msg_queue.c:162-184 | for any two consumers, any third task and any capacity above one: a run that ends with every other task idle and one consumer waiting without a token on a queue that is not empty |
| `MsgQueueLimits.FailedPopLosesWakeup` | core/infrastructure/utils/utils_msg_queue.c:162-184 | the same for every capacity, also one, when the pop that takes the token fails |
| `MsgQueueLimits.TwoProducersLoseWakeup` | core/infrastructure/utils/utils_msg_queue.c:135-160 | for any two producers, any third task and any capacity above one: a run that ends with every other task idle and one producer waiting without a token although there is room |
| `MsgQueueLimits.FailedPushLosesWakeup` | core/infrastructure/utils/utils_msg_queue.c:135-160 | the same for every capacity, also one, when the push that takes the token fails |
| `MsgQueueLimits.InFlightPushPutsAfterSuspend` | core/infrastructure/utils/utils_msg_queue.c:205-275 | from every reachable suspended state a push between the switch and its put, with the lock, its token and room there, has a continuation without a resumption in which it puts its value |
| `MsgQueueLimits.PutsWhileSuspendedIff` | core/infrastructure/utils/utils_msg_queue.c:205-275 | in every reachable suspended state in which nothing else hinders a task, it can put before a resumption if and only if its push is between the switch and its put |
| `MsgQueueLimits.SuspensionMeetsPush` | core/infrastructure/utils/utils_msg_queue.c:369-396 | for any two tasks and every capacity such a state is reached |
| `Executor.StepKeeps` | core/infrastructure/schedule/sched_executor.c:64-165 | every step of callers and scheduler keeps the invariant of locks, slot, messages, semaphore and calls: the queue within its capacity, a call marked as sent exactly in the stages after its message was enqueued |
| `Executor.RunKeeps` | core/infrastructure/schedule/sched_executor.c:64-165 | the invariant holds in every reachable state |
| `Executor.ReturnedIsFrozen` | core/infrastructure/schedule/sched_executor.c:64-119 | no step writes to a call that has returned or runs its callback |
| `Executor.NoWriteAfterReturn` | core/infrastructure/schedule/sched_executor.c:64-165 | over every run, whatever timed out, a returned call is never touched again |
| `Executor.SuccessMeansRun` | core/infrastructure/schedule/sched_executor.c:106-165 | a call that returned success, re-entrant or not, had its own callback run and its two cells hold what the last run of it returned and wrote out |
| `Executor.ReentrantOnce` | core/infrastructure/schedule/sched_executor.c:125-129 | a re-entrant call that has returned ran its callback exactly once, with success and its results in its two cells |
| `Executor.DrainFindsToken` | core/infrastructure/schedule/sched_executor.c:106-119 | in every reachable state a wait that timed out although the callback had finished finds the token it takes, whatever stale messages there were |
| `Executor.RunOnce` | core/infrastructure/schedule/sched_executor.c:64-165 | from every reachable state with nothing left over, while no call times out after enqueuing, every state has the exactly-once account |
| `Executor.ExactlyOnce` | core/infrastructure/schedule/sched_executor.c:64-165 | from every reachable state with the API lock free and neither message nor token left, until a call times out after enqueuing: at most one message is outstanding, nothing is left whenever the lock is free, and a call that returns ran its callback once if it enqueued and never if not |
| `Executor.StartsClean` | core/infrastructure/schedule/sched_executor.c:166-201 | every run starts in such a state, with no call made |
| `Executor.OwnerCanGo` | core/infrastructure/schedule/sched_executor.c:121-165 | the owner of the API lock, or the scheduler it waits for, can take its next step |
| `Executor.NoDeadlock` | core/infrastructure/schedule/sched_executor.c:121-165 | no set of tasks closed under waiting is stuck, and while re-entrant calls are in progress the innermost can return, whoever holds the locks |
| `ExecutorMessages.FirstInFirstOut` | core/infrastructure/schedule/sched_executor.c:64-165 | in every run what was enqueued is what the scheduler has taken followed by the queue, in order, and the queue never exceeds its capacity |
| `ExecutorMessages.SentStep` | core/infrastructure/schedule/sched_executor.c:144-151 | a call becomes sent only in a step that starts with room, which appends its message, and a wait message is appended for no other reason |
| `ExecutorMessages.OneMessageEach` | core/infrastructure/schedule/sched_executor.c:144-151 | in every run exactly one message was enqueued for a call marked as sent and none for any other |
| `ExecutorMessages.SentWithRoom` | core/infrastructure/schedule/sched_executor.c:144-151 | a call marked as sent was marked in one step of the run, and that step started with room |
| `ExecutorMessages.FullQueue` | core/infrastructure/schedule/sched_executor.c:144-151 | on a full queue a call that is to send can only wait or give up, and giving up changes nothing but that it clears the slot |
| `ExecutorMessages.RoomInQueue` | core/infrastructure/schedule/sched_executor.c:144-151 | with room a blocking and an asynchronous call append their message and change nothing else |
| `ExecutorMessages.GivesUpUnsent` | core/infrastructure/schedule/sched_executor.c:146-151 | over every run a call that gave up on sending stays unsent, never has a message enqueued, handled or queued, and returns failure if it returns |
| `ExecutorTimeout.UpdateExact` | core/infrastructure/schedule/sched_executor.c:58-62 | one update takes off exactly the elapsed time, down to zero, across a clock wrap |
| `ExecutorTimeout.BudgetExact` | core/infrastructure/schedule/sched_executor.c:131-156 | the budget of each stage in closed form: time is taken off again at each update |
| `ExecutorTimeout.BlockedWithinTwice` | core/infrastructure/schedule/sched_executor.c:121-165 | the timed stages block at most twice the timeout, and at most the timeout if and only if the two lock stages together did |
| `ExecutorTimeout.TwiceIsReached` | core/infrastructure/schedule/sched_executor.c:133-142 | twice the timeout is reached |
| `ExecutorTimeout.WaitBudgetShort` | core/infrastructure/schedule/sched_executor.c:144-156 | the last wait never gets more than what is left, and gets all of it exactly in the stated case |
| `ExecutorLimits.StaleMessageRunsTwice` | core/infrastructure/schedule/sched_executor.c:64-165 | a run in which a message left behind makes the next call run twice and leaves a token in the semaphore |
| `ExecutorLimits.CallServed` | core/infrastructure/schedule/sched_executor.c:121-165 | from every reachable state with nothing left over, for every idle task and every result of its callback: a continuation without timeouts in which its call returns success after one run, with that result in its cells, and nothing is left over |
| `ExecutorLimits.LeftOverBreaks` | core/infrastructure/schedule/sched_executor.c:64-165 | from every reachable state with the API lock free and a message or a token left, and for every task, a continuation without a further timeout in which the next call is not served exactly once |
| `ExecutorLimits.ExactlyOnceIff` | core/infrastructure/schedule/sched_executor.c:64-165 | with the API lock free, every continuation without a further timeout serves its calls exactly once if and only if neither message nor token is left |
| `HashTable.NoFold` | core/infrastructure/utils/utils_hash_map.c:61-68 | a round whose sum stays below 2^28, which is every round of Hash, shifts in the byte and folds nothing back |
| `HashTable.Hash` | core/infrastructure/utils/utils_hash_map.c:52-70 | the loop with its fold computes the polynomial of the last four bytes, at most 1114095 |
| `HashTable.PutRefines` | core/infrastructure/utils/utils_hash_map.c:177-204 | inserting into the table is updating the finite map, and keeps every key in its bucket exactly once |
| `HashTable.DropRefines` | core/infrastructure/utils/utils_hash_map.c:291-322 | removing from the table is removing from the finite map, and keeps every key in its bucket exactly once |
| `HashTable.ContentsLookup` | core/infrastructure/utils/utils_hash_map.c:227-238 | searching one bucket finds exactly what the map has |
| `HashTable.ContentsUnique` | core/infrastructure/utils/utils_hash_map.c:185-204 | the map is determined by the entries, each key having one |
| `HashLedger.EntryCount` | core/infrastructure/utils/utils_hash_map.c:179-204 | the number of entries is the number of keys of the map |
| `HashLedger.RunRefines` | core/infrastructure/utils/utils_hash_map.c:160-323 | over every sequence of insert, remove and delete the table stays well formed and its contents are those of the finite map |
| `HashLedger.RunBalances` | core/infrastructure/utils/utils_hash_map.c:160-323 | over every such sequence, for every value: times handed in is times freed plus times held |
| `HashLedger.FreedOnce` | core/infrastructure/utils/utils_hash_map.c:160-323 | a value handed in once is freed at most once, and exactly when the table no longer holds it |
| `HashIteration.KeptIs` | core/infrastructure/utils/utils_hash_map.c:351-368 | taking shown entries out one after another leaves those not removed, followed by those not shown |
| `HashIteration.IteratedPart` | core/infrastructure/utils/utils_hash_map.c:345-369 | a stopped iteration, bucket by bucket, amounts to one pass over the entries of the table |
| `HashIteration.IteratedAll` | core/infrastructure/utils/utils_hash_map.c:345-370 | so does one that ran to the end, which showed every entry |
| `HashIteration.ShownByIs` | core/infrastructure/utils/utils_hash_map.c:345-369 | the entries shown are a prefix of those present at the start, in order |
| `HashIteration.IterationBalances` | core/infrastructure/utils/utils_hash_map.c:335-371 | an iteration whose callback removes entries keeps the account of values |
| `HashRuns.FlattenLookup` | core/infrastructure/utils/utils_hash_map.c:227-238 | a search through all entries in the order of iteration finds what a search in the bucket finds |
| `HashRuns.IterationRefines` | core/infrastructure/utils/utils_hash_map.c:335-371 | the finite map after an iteration is the one before without the keys of the shown entries that the callback removed |
| `HashRuns.SweptOk` | core/infrastructure/utils/utils_hash_map.c:335-371 | after an iteration, wherever it ended, there are as many buckets and every key sits in its bucket exactly once |
| `HashRuns.MixedRunRefines` | core/infrastructure/utils/utils_hash_map.c:160-371 | over every run of inserts, removes, deletes and iterations the table stays well formed and stands for the finite map |
| `HashRuns.MixedRunBalances` | core/infrastructure/utils/utils_hash_map.c:160-371 | over every such run, for every value: times handed in is times freed plus times held |
| `HashSafety.FreesStoredIff` | core/infrastructure/utils/utils_hash_map.c:160-371 | each insert, remove, delete or iteration frees a value and leaves it stored if and only if a condition on the table before it holds |
| `HashSafety.NeverFreesStoredIff` | core/infrastructure/utils/utils_hash_map.c:160-371 | over every run: a value is never freed while it stays stored if and only if every act avoids that condition |
| `HashSafety.OneCopyIsSafe` | core/infrastructure/utils/utils_hash_map.c:160-371 | no act but handing the value in can free it and leave it stored, if and only if it is stored at most once |
| `HashSafety.NeverTwiceIsSafe` | core/infrastructure/utils/utils_hash_map.c:160-371 | over every run in which a value is never handed in while it is held, it is stored at most once and never freed while it stays stored |
| `HashSafety.HandedTwiceBreaks` | core/infrastructure/utils/utils_hash_map.c:160-205 | handing a value in while it is held frees it while it stays stored, at once or by a removal after it |
| `HashSafety.ReinsertedIsFreed` | core/infrastructure/utils/utils_hash_map.c:192-193 | a value handed in again under its own key is freed and still stored |
| `HashSafety.SharedIsFreed` | core/infrastructure/utils/utils_hash_map.c:279-323 | whenever two keys share a value, removing one frees it and it is still found under the other |
| `HashSafety.SharingIsReached` | core/infrastructure/utils/utils_hash_map.c:160-205 | from every table two insertions lead there |
| `HashMap.HashMap.constructor` | core/infrastructure/utils/utils_hash_map.c:111-148 | an empty map with the given number of buckets |
| `HashMap.HashMap.Create` | core/infrastructure/utils/utils_hash_map.c:111-148 | a map, exactly with buckets, a name and memory |
| `HashMap.HashMap.Walk` | core/infrastructure/utils/utils_hash_map.c:185-201 | walking the chain finds the node of the key, the end otherwise, and the node before |
| `HashMap.HashMap.GetValue` | core/infrastructure/utils/utils_hash_map.c:216-239 | the value is that of the finite map |
| `HashMap.HashMap.Insert` | core/infrastructure/utils/utils_hash_map.c:160-205 | linked nodes, size, values handed in and values freed are those of inserting into the account |
| `HashMap.HashMap.Remove` | core/infrastructure/utils/utils_hash_map.c:279-323 | the node is unlinked, its value freed, the size lowered; it fails exactly for an empty or absent key |
| `HashMap.HashMap.Delete` | core/infrastructure/utils/utils_hash_map.c:246-269 | every value held is freed once, in order, and the map is empty |
| `HashMap.HashMap.Length` | core/infrastructure/utils/utils_hash_map.c:179-204 | the size field is the number of keys |
| `HashMap.HashMap.ShowNode` | core/infrastructure/utils/utils_hash_map.c:353-367 | the next node was remembered before the callback could remove the one shown, and is still the next to show |
| `HashMap.HashMap.VisitBucket` | core/infrastructure/utils/utils_hash_map.c:346-368 | one bucket: what is shown, kept and freed, and whether the callback stopped |
| `HashMap.HashMap.Iterate` | core/infrastructure/utils/utils_hash_map.c:335-371 | the entries shown are the first ones present at the start, each once; exactly those the callback removed are gone, from the finite map too, and freed; it ends early exactly when told to; table and account are those of the act of which HashRuns and HashSafety speak |
| `StoreItem.FrameParses` | core/infrastructure/security/security_store.c:54-60 | header and payload are recovered byte for byte from a frame |
| `StoreItem.ReadHeld` | core/infrastructure/security/security_store.c:377-490 | reading what the backend holds succeeds if and only if nothing outside fails, gives exactly the value and leaves the rest of the buffer; and what a read that fails leaves in RAM |
| `StoreItem.ReadAuthentic` | core/infrastructure/security/security_store.c:339-423 | a read of a non-empty entry that succeeds gives a value that the entry holds, under the right mac or tag, version and length |
| `StoreItem.ReadIs` | core/infrastructure/security/security_store.c:425-490 | exactly when a read succeeds, for every item and every content of the backend: the entry holds a value that fits and nothing outside fails, or there is no entry in a cipher mode |
| `StoreItem.ExpectedMac` | core/infrastructure/security/security_store.c:377-423 | a read-back succeeds if and only if it would without the expected mac and the mac is the expected one |
| `StoreItem.SealHolds` | core/infrastructure/security/security_store.c:492-522 | in verify and encrypt mode what is written is a frame that holds the value |
| `StoreItem.ReadBack` | core/infrastructure/security/security_store.c:568-576 | reading back what was just written changes nothing in RAM, unless the decryption fails, and then what that leaves |
| `StoreItem.WriteKeeps` | core/infrastructure/security/security_store.c:524-599 | every write leaves other keys alone, and RAM as it was unless the decryption of its read-back fails; it succeeds if and only if the item is writable and nothing outside fails, and then the backend holds the value |
| `StoreItem.WriteReaches` | core/infrastructure/security/security_store.c:524-577 | in every mode, what a write has left in the backend, by where it failed |
| `StoreItem.ReadKeeps` | core/infrastructure/security/security_store.c:425-490 | every read keeps the value within its buffer and the item what it is |
| `Store.LocateIsFirst` | core/infrastructure/security/security_store.c:251-266 | the item found is the first with the key, and none is found exactly when there is none |
| `Store.StepKeeps` | core/infrastructure/security/security_store.c:203-680 | every operation keeps every value within its buffer and changes only the value of the first item with its key |
| `Store.RunKeeps` | core/infrastructure/security/security_store.c:203-680 | in every run, whatever fails: values fit their buffers, every item keeps its place, keys, mode and buffer, and one that no operation was about keeps its value |
| `Store.CommitPins` | core/infrastructure/security/security_store.c:640-659 | a successful commit changes nothing in RAM and leaves the value under the item's name |
| `Store.CommitDone` | core/infrastructure/security/security_store.c:640-659 | exactly when a commit succeeds: there is an item with the key, it is writable and nothing outside fails |
| `Store.PullPinned` | core/infrastructure/security/security_store.c:619-638 | a pull of it succeeds if and only if nothing outside fails, with exactly that value |
| `Store.CommitThenPull` | core/infrastructure/security/security_store.c:524-659 | after a successful commit and any run that does not write under the same name, a pull gives back exactly the value committed |
| `Store.SetThenGet` | core/infrastructure/security/security_store.c:268-323 | a value set is the value read; exactly when it is refused, and that a refused one changes nothing |
| `Store.DeleteThenPull` | core/infrastructure/security/security_store.c:601-680 | a successful delete takes away exactly the name of the item and empties the item; after any run that does not write under the name, a pull succeeds if and only if the item is in a cipher mode with a buffer and the length query works, and finds it empty |
| `Store.DeleteDone` | core/infrastructure/security/security_store.c:601-680 | exactly when a delete succeeds, and that a failed one changes no item and, without a fault of the backend, no entry |
| `Store.RegisterOnce` | core/infrastructure/security/security_store.c:203-228 | a list is registered if and only if it has 1 to 128 items and is there already or there is memory; at most once, a new one as the last, and a refused one changes nothing |
| `Store.SecurityStore.RegStoreList` | core/infrastructure/security/security_store.c:203-228 | lists and status are those of the registration, of which RegisterOnce speaks |
| `Store.SecurityStore.Find` | core/infrastructure/security/security_store.c:251-266 | the nested loops find the first item with the key |
| `Store.SecurityStore.SetValue` | core/infrastructure/security/security_store.c:268-295 | state and status are those of the set operation, of which SetThenGet and StepKeeps speak |
| `Store.SecurityStore.GetValue` | core/infrastructure/security/security_store.c:297-323 | gives the value of the first item with the key, and fails exactly when there is none or no room |
| `Store.SecurityStore.PullItem` | core/infrastructure/security/security_store.c:619-638 | state and status are those of the pull operation, of which CommitThenPull speaks |
| `Store.SecurityStore.CommitItem` | core/infrastructure/security/security_store.c:640-659 | state and status are those of the commit operation, of which CommitThenPull speaks |
| `Store.SecurityStore.DelItem` | core/infrastructure/security/security_store.c:661-680 | state and status are those of the delete operation |
| `DeviceConfig.AuthOfPut` | core/device/config/config_authinfo.c:30-44 | the four fields do not overlap: what is written to them is what is read |
| `DeviceConfig.ParseIs` | core/device/service/dev_svc_auth_setup.c:27-48 | exactly which requests are taken, and that their strings read back as sent, the code decoded and padded, a missing or too long uidHash counting as none |
| `DeviceConfig.SaveIs` | core/device/config/config_info.c:175-180 | a save changes the version byte only, unless the decryption of its read-back fails; it succeeds if and only if the item is registered and nothing outside fails, and then the backend holds RAM |
| `DeviceConfig.SaveAuthIs` | core/device/config/config_authinfo.c:22-52 | RAM has the new auth info whether or not the save succeeds, unless the save gets to a read-back whose decryption fails, and then whatever that leaves |
| `DeviceConfig.RestartSynced` | core/device/config/config_info.c:99-121 | a restart of a synced device brings back RAM with its strings terminated |
| `DeviceConfig.SaveThenRestart` | core/device/config/config_authinfo.c:22-79 | after a successful save a restart brings back exactly what was saved if and only if its strings are terminated |
| `DeviceConfig.RevokeThenRestart` | core/device/config/config_revoke_flag.c:32-63 | setting the flag changes flag and version and nothing else, whether or not the save succeeds, unless its read-back fails over RAM; exactly when it succeeds, and that a restart then brings it back |
| `DeviceRuns.CalmRun` | core/device/config/config_info.c:99-180 | in every run in which every commit and pull succeeds, restarts included, the auth info and the flag are those last saved, a request counting as a save if it can be read and the device has no uidHash or the same |
| `DeviceRuns.FirstStart` | core/device/config/config_info.c:99-121 | a new device starts such a run, with no auth info and the flag zero |
| `DeviceRuns.RestartIs` | core/device/config/config_info.c:99-121 | whatever the backend holds and whatever fails, RAM after a restart: zeros under the bytes that the pull got out of the entry, strings terminated; and whether the item is registered |
| `DeviceRuns.MoveIs` | core/device/config/config_authinfo.c:22-94 | every step, whatever fails in it, does to RAM, to what the backend can give back and to the registration what it would do without ciphers |
| `DeviceRuns.MoveAllIs` | core/device/config/config_info.c:99-180 | so does every legal run |
| `DeviceRuns.SaveAuthRestart` | core/device/config/config_authinfo.c:22-52 | RAM after a save and a restart in which anything fails: the new auth info if the save set the key, all that there was before if it left the entry alone, and what the damaged entry gives otherwise |
| `DeviceRuns.ReceiveIs` | core/device/service/dev_svc_auth_setup.c:50-80 | a request is saved if it can be read and the device has no uidHash or the same; otherwise it is refused with the stated error and nothing changes |
| `DeviceRuns.ReceiveDone` | core/device/service/dev_svc_auth_setup.c:27-80 | exactly when a request succeeds, from its strings as sent, the uidHash of the device, the registration and the faults; and what the device then has |
| `DeviceRuns.UidStep` | core/device/service/dev_svc_auth_setup.c:50-80 | a step that is no clearing, whatever fails in it, keeps a set uidHash if and only if a condition on faults, RAM, backend and registration before the step holds |
| `DeviceRuns.UidRun` | core/device/service/dev_svc_auth_setup.c:66-71 | in every legal run without a clearing a set uidHash stays all along if and only if every step meets that condition |
| `DeviceRuns.UidSafeRun` | core/device/service/dev_svc_auth_setup.c:66-71 | it stays in every run from a settled device in which saves fail, if at all, before the key is set or in a read-back but not in its decryption, and every restart succeeds |
| `DeviceRuns.UidSurvives` | core/device/service/dev_svc_auth_setup.c:50-80 | the uidHash in RAM after a request that is taken, and exactly which one the next restart has, for every fault in either |
| `DeviceRuns.FailedPullRebinds` | core/device/config/config_info.c:99-121 | on every device with a uidHash: a request with another one is refused, is taken after a restart whose pull fails, and survives |
| `DeviceRuns.DamagedEntryLosesUid` | core/device/config/config_revoke_flag.c:32-63 | on every device whose item is registered: a failed write of a flag that leaves an empty entry loses the uidHash at the next restart |
| `DeviceRuns.UnsavedUidLost` | core/device/config/config_info.c:99-121 | on every new device: a first uidHash whose save does not reach the backend is lost at the next restart |
| `DeviceRuns.UidLost` | core/device/config/config_info.c:99-121 | there are such primitives, devices and requests |
| `ConfigInfo.ConfigInfo.constructor` | core/device/config/config_info.c:99-121 | the structure after a start is that of the restart |
| `ConfigInfo.ConfigInfo.FindField` | core/device/config/config_info.c:128-136 | the loop finds the entry of the key, and nothing exactly when there is none |
| `ConfigInfo.ConfigInfo.Get` | core/device/config/config_info.c:138-151 | gives the whole field, exactly to a caller with room for it |
| `ConfigInfo.ConfigInfo.Put` | core/device/config/config_info.c:153-165 | overwrites the front of that field only, exactly when the data fit |
| `ConfigInfo.ConfigInfo.ClearField` | core/device/config/config_info.c:167-173 | zeroes that field only |
| `ConfigInfo.ConfigInfo.SaveInfo` | core/device/config/config_info.c:175-180 | structure, length, backend and status are those of the save, of which SaveIs speaks |
| `ConfigInfo.ConfigInfo.SaveAuthInfo` | core/device/config/config_authinfo.c:22-52 | the loop over the four fields and the save, of which SaveThenRestart speaks |
| `ConfigInfo.ConfigInfo.GetAuthInfo` | core/device/config/config_authinfo.c:54-79 | the auth info in the structure |
| `ConfigInfo.ConfigInfo.RecvAuthInfo` | core/device/service/dev_svc_auth_setup.c:27-80 | saves a request that can be read on a device with no uidHash or the same, and refuses any other with the stated error and nothing changed |
| `ConfigInfo.ConfigInfo.ClearAuthInfo` | core/device/config/config_authinfo.c:81-94 | zeroes the four fields and saves |
| `SessKey.Reachable` | core/infrastructure/security/security_sess_key.c:48-171 | in every reachable state bits, serial numbers and keys are what the history alone says: a key that is set is derived from the password that made it over the serial numbers now set, one that is not is zero |
| `SessKey.BitsOrdered` | core/infrastructure/security/security_sess_key.c:90-170 | auth key implies trans key implies both serial numbers |
| `SessKey.TransKeyIs` | core/infrastructure/security/security_sess_key.c:83-126 | for every history exactly when a request for the trans key succeeds, cached or fresh, with which key, and when each error comes |
| `SessKey.AuthKeyIs` | core/infrastructure/security/security_sess_key.c:128-171 | for every history: a request for the auth key succeeds if and only if one is cached, or there is a trans key and the derivation works; it is derived from that trans key over the serial numbers now set; and when each error comes |
| `SessKey.OwnPassword` | core/infrastructure/security/security_sess_key.c:83-126 | the key handed out is that of the password of the history; it is that of the caller's own if that password is the same or there is none, and, for a derivation that separates the two, only then |
| `SessKey.OtherPasswordServed` | core/infrastructure/security/security_sess_key.c:83-126 | for any serial numbers and two passwords that the derivation separates: the second caller is given the key of the first |
| `SessKey.LengthSeparates` | core/infrastructure/security/security_sess_key.c:83-126 | there is a lawful derivation that separates passwords |
| `SessKey.SessKeyContext.constructor` | core/infrastructure/security/security_sess_key.c:37-46 | all zero |
| `SessKey.SessKeyContext.KeyParamUpdate` | core/infrastructure/security/security_sess_key.c:48-58 | forgets exactly the keys that are set |
| `SessKey.SessKeyContext.AddSerial` | core/infrastructure/security/security_sess_key.c:60-81 | the context is that of the history with this serial number added |
| `SessKey.SessKeyContext.GenTransKey` | core/infrastructure/security/security_sess_key.c:83-126 | context and result are those of the request in the history, of which TransKeyIs speaks |
| `SessKey.SessKeyContext.GenAuthKey` | core/infrastructure/security/security_sess_key.c:128-171 | context and result are those of the request in the history, of which AuthKeyIs speaks |
| `AdaptiveBuffer.StepKeeps` | core/infrastructure/utils/utils_buffer.c:76-176 | every operation keeps the bounds on the size, and the usual size when the count is down |
| `AdaptiveBuffer.RunKeeps` | core/infrastructure/utils/utils_buffer.c:76-176 | so does every run |
| `AdaptiveBuffer.ExpandKeeps` | core/infrastructure/utils/utils_buffer.c:144-176 | an expansion keeps the bytes in use and zeroes the rest; exactly when it succeeds; a failed one changes nothing |
| `AdaptiveBuffer.GetExact` | core/infrastructure/utils/utils_buffer.c:94-114 | exactly when the buffer is handed out, zeroed and of which size; otherwise nothing changes |
| `AdaptiveBuffer.ReleaseExact` | core/infrastructure/utils/utils_buffer.c:116-142 | a use longer than the usual size sets the count back to five and keeps the buffer; any other lowers it by one, and only as it reaches zero the buffer takes the usual size |
| `AdaptiveBuffer.ShortReleases` | core/infrastructure/utils/utils_buffer.c:116-142 | in every run without long uses, the count goes down by one at each release and the size changes only when it reaches zero |
| `AdaptiveBuffer.ShrinksAfterExpansion` | core/infrastructure/utils/utils_buffer.c:116-176 | after an expansion fewer than five short releases keep the expanded buffer and five bring the usual size back |
| `AdaptiveBuffer.BufferContext.constructor` | core/infrastructure/utils/utils_buffer.c:31-63 | a zeroed buffer of the usual size |
| `AdaptiveBuffer.BufferContext.New` | core/infrastructure/utils/utils_buffer.c:31-63 | a context, exactly within the limits and with memory |
| `AdaptiveBuffer.BufferContext.BufferRealloc` | core/infrastructure/utils/utils_buffer.c:76-92 | the buffer has the size asked for, or is absent |
| `AdaptiveBuffer.BufferContext.GetBuffer` | core/infrastructure/utils/utils_buffer.c:94-114 | a zeroed buffer with nothing in use, or the reason why not |
| `AdaptiveBuffer.BufferContext.ReleaseBuffer` | core/infrastructure/utils/utils_buffer.c:116-142 | the count and the size after a release, of which ShortReleases speaks |
| `AdaptiveBuffer.BufferContext.ExpandBuffer` | core/infrastructure/utils/utils_buffer.c:144-176 | the copy loop and the restored buffer give the expansion, of which ExpandKeeps speaks |
| `WatchDog.RunCounted` | core/infrastructure/DFx/dfx_watch_dog.c:85-98 | in every run the time run up by a node is one interval for each tick that advanced it since it was last fed or fired |
| `WatchDog.FiresExactly` | core/infrastructure/DFx/dfx_watch_dog.c:72-112 | a tick fires a watchdog if and only if its task was fed, as many ticks advanced it since as its timeout has intervals, rounded up, and none listed before fires |
| `WatchDog.FedOftenNeverFires` | core/infrastructure/DFx/dfx_watch_dog.c:229-252 | a task fed at least that often never fires |
| `WatchDog.TicksSplit` | core/infrastructure/DFx/dfx_watch_dog.c:85-98 | every tick since a feed or fire advanced the node or fired one listed before |
| `WatchDog.UnfedFiresBy` | core/infrastructure/DFx/dfx_watch_dog.c:72-112 | an unfed task fires by the tick after that many, plus one for each tick on which a node listed before fired |
| `WatchDog.DueExactly` | core/infrastructure/DFx/dfx_watch_dog.c:89-91 | a node is due after that many ticks if and only if its timeout can be reached without wrapping around |
| `WatchDog.AddWatches` | core/infrastructure/DFx/dfx_watch_dog.c:205-227 | a task that adds a watchdog is watched from then on, after the others and not yet counting, if and only if the timeout is not zero |
| `WatchDog.WatchDogContext.Proc` | core/infrastructure/DFx/dfx_watch_dog.c:72-112 | the scan advances the nodes before the first one due, resets and fires that one, and leaves those after it |
| `WatchDog.WatchDogContext.Append` | core/infrastructure/DFx/dfx_watch_dog.c:205-227 | a new node at the end, not yet counting |
| `WatchDog.WatchDogContext.FeedTask` | core/infrastructure/DFx/dfx_watch_dog.c:229-252 | the first node of the task counts from zero; fails exactly when there is none |
| `WatchDog.WatchDogContext.Remove` | core/infrastructure/DFx/dfx_watch_dog.c:254-271 | the first node of the task is gone |
| `Hex.DecodeEncode` | core/infrastructure/utils/utils_common.c:78-183 | decoding what was encoded gives the bytes back |
| `Hex.EncodeDecode` | core/infrastructure/utils/utils_common.c:78-183 | encoding what was decoded gives the characters in lower case |
| `Hex.EncodedIsHex` | core/infrastructure/utils/utils_common.c:146-183 | what is encoded is accepted by the decoders |
| `Hex.UnhexifyRReverses` | core/infrastructure/utils/utils_common.c:112-144 | on the same text the backward decoder gives the bytes reversed |
| `Hex.Unhexify` | core/infrastructure/utils/utils_common.c:78-110 | succeeds exactly on non-empty even hexadecimal text that fits, and what it has written in every case |
| `Hex.UnhexifyR` | core/infrastructure/utils/utils_common.c:112-144 | succeeds on the same arguments, and what it has written in every case |
| `Hex.Hexify` | core/infrastructure/utils/utils_common.c:146-183 | succeeds exactly on non-empty input whose text fits, and writes nothing otherwise |
| `Anonymize.ReplaceStrWithRange` | core/infrastructure/utils/utils_common.c:263-289 | the splice in place, exactly when range and room allow, and no change otherwise |
| `Anonymize.MaskedShape` | core/infrastructure/DFx/dfx_anonymize.c:106-179 | a masked string is the front, one star and the end, and never longer |
| `Anonymize.MaskedSame` | core/infrastructure/DFx/dfx_anonymize.c:106-179 | two strings of one length look the same masked if and only if they agree outside the hidden range |
| `Anonymize.TableIs` | core/infrastructure/DFx/dfx_anonymize.c:61-81 | for every length exactly one rule of the table applies and hides the right range |
| `Anonymize.AnonymizeWithRules` | core/infrastructure/DFx/dfx_anonymize.c:106-120 | masks every non-empty string that fits, and changes nothing otherwise |
| `Anonymize.AnonymizeName` | core/infrastructure/DFx/dfx_anonymize.c:170-179 | the same for names, long ones by thirds |
| `Anonymize.AnonymizeStr` | core/infrastructure/DFx/dfx_anonymize.c:181-196 | the masked source is put in the destination, which may be the source, for every non-empty string that fits |
| `LinkLayer.SendBtPkg` | core/ble/infrastructure/linklayer/linklayer_send.c:59-95 | the packets sent are the fragments in order, all of them on success and those up to the failing one otherwise |
| `LinkLayer.StoreKeeps` | core/ble/infrastructure/linklayer/linklayer_recv.c:137-153 | a fragment goes to its own slot, repeated or not, and is accounted for once |
| `LinkLayer.CompleteIs` | core/ble/infrastructure/linklayer/linklayer_recv.c:156-197 | the count is full exactly when every fragment has arrived, and then the buffer has the message |
| `LinkLayer.OtherTokenRefused` | core/ble/infrastructure/linklayer/linklayer_recv.c:116-118 | while one message is being put together a fragment of another is turned away and changes nothing |
| `LinkLayer.TakenIfShort` | core/ble/infrastructure/linklayer/linklayer_recv.c:104-112 | the receiver takes the sender's fragments if and only if there are at most 16 |
| `LinkLayer.PackagePool.ClearTimeoutPkg` | core/ble/infrastructure/linklayer/linklayer_recv.c:73-88 | exactly the messages that are too old are dropped |
| `LinkLayer.PackagePool.PkgInsert` | core/ble/infrastructure/linklayer/linklayer_recv.c:102-154 | cache and status are those of the insertion, of which LinkRuns.InsertTracks speaks |
| `LinkLayer.PackagePool.MergePkgs` | core/ble/infrastructure/linklayer/linklayer_recv.c:176-197 | the message leaves the cache, exactly when it is complete |
| `LinkLayer.PackagePool.CompleteCheck` | core/ble/infrastructure/linklayer/linklayer_recv.c:156-174 | complete exactly when the token is there and its count is full |
| `LinkLayer.PackagePool.ProcessBtData` | core/ble/infrastructure/linklayer/linklayer_process.c:177-199 | storing, checking and merging give the step of one packet, of which LinkRuns.EndToEnd speaks |
| `LinkRuns.InsertTracks` | core/ble/infrastructure/linklayer/linklayer_recv.c:73-154 | an arrival adds its fragment to an entry that is not too old and opens a new one otherwise |
| `LinkRuns.ProcessTracks` | core/ble/infrastructure/linklayer/linklayer_process.c:177-199 | an arrival hands on the message, and nothing else, if and only if it completes it, and the entry is then gone |
| `LinkRuns.Delivers` | core/ble/infrastructure/linklayer/linklayer_process.c:177-199 | whatever the order, repetitions, times and memory: what is handed on is the message, once for each time in succession that the arrivals amount to it, and the cache has exactly the fragments that arrived since |
| `LinkRuns.UnknownDelivers` | core/ble/infrastructure/linklayer/linklayer_encrypt.c:62-74 | under an encryption type without a handler nothing is ever handed on |
| `LinkRuns.ExactlyOnce` | core/ble/infrastructure/linklayer/linklayer_process.c:177-199 | handed on exactly once if and only if the arrivals amount to the message and those after the first time do not; with an empty cache if and only if those have opened no entry |
| `LinkRuns.PromptOnce` | core/ble/infrastructure/linklayer/linklayer_recv.c:73-197 | within the timeout: nothing if and only if a fragment never arrived; exactly once if and only if each arrived and not all of them again after the last missing one; with an empty cache if and only if that one came last |
| `LinkRuns.PacketIsFragment` | core/ble/infrastructure/linklayer/linklayer_process.c:48-65 | a packet of the sender is processed as the fragment it carries |
| `LinkRuns.EndToEnd` | core/ble/infrastructure/linklayer/linklayer_process.c:177-199 | all of this of the packets that the sender makes of a message |
| `LinkRuns.RepeatedPacketDelivers` | core/ble/infrastructure/linklayer/linklayer_process.c:177-199 | a message of one packet is handed on as often as the packet arrives |
| `LinkRuns.LatePacketBlocks` | core/ble/infrastructure/linklayer/linklayer_recv.c:114-135 | a packet that comes again after completion opens an entry with nothing but its fragment, and every packet with another token is lost until that is too old |
| `LinkStreams.StoreHolds` | core/ble/infrastructure/linklayer/linklayer_recv.c:137-153 | whatever is in a packet: its fragment goes to its slot if the entry has that place and none there yet, and is accounted for |
| `LinkStreams.MergeHolds` | core/ble/infrastructure/linklayer/linklayer_recv.c:156-197 | an entry is complete exactly when every place has a fragment, and what leaves is the slots up to the number of data bytes |
| `LinkStreams.ArriveMirrors` | core/ble/infrastructure/linklayer/linklayer_process.c:177-199 | every packet, whatever is in it and whoever sent it, does to the cache and hands on what a list of fragments for one token says |
| `LinkStreams.StreamMirrors` | core/ble/infrastructure/linklayer/linklayer_process.c:177-199 | so does every stream of packets, malformed ones and mixtures included, and the cache keeps at most one entry whose buffer, bits, count and data fit |
| `LinkStreams.MergedExact` | core/ble/infrastructure/linklayer/linklayer_recv.c:176-197 | what leaves is one fragment after the other if none but the last is short, and, of fragments without zero bytes, only then |
| `LinkStreams.HandsOnExact` | core/ble/infrastructure/linklayer/linklayer_process.c:177-199 | so a packet after tidy ones hands on the fragments one after the other if and only if it brings no short one for an inner place, of fragments without zero bytes |
| `LinkStreams.AgreeingIsTidy` | core/ble/infrastructure/linklayer/linklayer_recv.c:104-112 | packets that agree with the first on the number of fragments bring none such |
| `LinkStreams.StreamHandsOn` | core/ble/infrastructure/linklayer/linklayer_process.c:177-199 | over every stream of packets that bring none such, a message handed on is fragments one after the other, each carried by a packet of the stream with its token and place |
| `LinkStreams.MergeIs` | core/ble/infrastructure/linklayer/linklayer_recv.c:156-197 | in such a pool a message leaves exactly when its count is full, and is within its buffer |
| `LinkStreams.MixedMessage` | core/ble/infrastructure/linklayer/linklayer_recv.c:137-153 | half of one message and another message of one byte under the same token give a message that nobody sent |

## Left out

- The foreign stacks under `adapter/` (BLE, SLE, Wi-Fi, sockets, TLS, OS primitives, file-backed key-value storage): not
  algorithms of this repository; locks, semaphores, the backend and the primitives are steps, maps and functions here.
- Calls with null pointers for the object itself, and in `MsgQueue` and `Executor` calls refused for their arguments,
  which return at once without a step; untimed locks are taken to succeed.
- Cryptography itself: only the laws in `StoreItem.Lawful` and `SessKey.Lawful` are used.
- UtilsGetBuffer's failed wait posts the semaphore it does not hold: `AdaptiveBuffer` models size and contents only and
  makes no claim of mutual exclusion.
- StoreOpAll and the list operations of the store, and `SecurityStoreUnregStoreList`: they repeat the item operations;
  the return value of StoreOpAll says nothing about earlier lists.
- `Store.Store`: items live in the lists as values; two lists that share one array of items in memory are not modelled.
- `DeviceConfig.Config`: the configuration item is taken to be the only one with its key, and the build without Wi-Fi
  cloud support is modelled, so the register and login info are absent.
- `Executor.State`: the scheduler's own queue is a bounded FIFO; its event loop beyond that is not modelled.
- `HashMap.HashMap.constructor`: bucket counts whose array size overflows 32 bits are not modelled.
- `HashMap.HashMap.Iterate`: a callback that inserts entries, or removes entries other than the one shown, is outside
  what the source allows and is not modelled.
- `WatchDog.Legal`: a task that adds a second watchdog before deleting the first is not covered by the run lemmas.
- `Anonymize.Kind`: MAC and IP masking, which cut fixed arrays at separators, are not modelled.
- `Anonymize.AnonymizeStr`: buffers of 2^31 bytes and more, for which the length no longer fits its type, are excluded.
- `LinkRuns.Fitting`: how often a message is handed on is counted for streams of one message; for streams that mix
  messages `LinkStreams` says what is handed on, but not how often. What follows the merge (decryption, service call,
  response) is not modelled.
- `DeviceRuns.Ordinary`: steps that save other auth info directly, not through a request, are not part of `UidRun`.
- `utils_bit_map.c`, `DfxDelNoDogTaskRecord`, JSON plumbing, service proxies, initialisation tables and logging.
