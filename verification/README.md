# A verified model of ljrServer's core

ljrServer is a C++ coroutine server. This project models its core in Dafny and proves what its parts promise each other:
the block-chained byte buffer and its codecs, the timer set, the IO manager's event table, the wait protocol between
fibers, timeouts and events, the scheduler's workers, and four smaller algorithms. `dafny verify dfyconfig.toml` checks
everything.

## How it is built

Code that changes objects in place is modelled by classes whose methods have the source's loops and branches
(`bytearray.dfy`, `codecs.dfy`, `strings.dfy`, `stream.dfy`, `timer.dfy`, `iomanager.dfy`, `chunked.dfy`,
`connection_pool.dfy`, and the loops in `address.dfy`, `log_pattern.dfy` and `scheduler.dfy`). Each is proved against a
specification on values, such as:

- The byte array against one flat byte sequence with a position and a size (`sequences.dfy`, `varint.dfy`).
- The timer manager against an ordered set of keys (`timer_spec.dfy`), over whole runs of interleaved lock-sized steps
  (`timer_runs.dfy`).
- The IO manager against a table of masks, slots, a counter and the kernel's interest list (`io_spec.dfy`), over whole
  runs (`io_runs.dfy`).
- The loops that receive a chunked body against what the stream comes to, given where reads end (`chunked_cuts.dfy`).

What these specifications come to is proved beside them in the terms of deadlines, slots, threads and characters alone, so
that nothing rests on how a specification is written (`timer_laws.dfy`, `io_laws.dfy`, `scheduler_laws.dfy`,
`log_laws.dfy`).

What spans threads is modelled as a state machine whose steps interleave freely. `hook.dfy`, `hook_timeouts.dfy` and
`hook_calls.dfy` do this for `do_io`, `connect_with_timeout`, `close`, the timeout callbacks and the dispatcher, over the
same event table.
`scheduler.dfy` and the files named after it do it for the workers in `Scheduler::run` and the fiber states; there a
fiber's yield is one step, and every other access of a worker to shared state is a step of its own. `hook_workers.dfy`,
`hook_races.dfy`, `hook_steals.dfy` and `hook_stopping.dfy` put the two machines together: the fibers that wait run on the
workers, and what is fired becomes an entry of their queue. Their sources are loops too, but what they promise is about
interleavings, which a single method cannot show.

## Where the code falls short of what it is for

Each of these is stated with the condition under which the code does what it should, as an if and only if, and with a
concrete input or run that fails, unless the condition shows one by itself.

- `addCapacity` can add too few blocks. It adds enough exactly under the growth rule (`ByteArrays.GrowthExact`,
  `ByteArrays.GrowthFails`), so a list of values can be written exactly when it fits, and every list fits exactly with
  blocks of one byte (`Codecs.WriteAll`, `Codecs.AllFitExactly`).
- The 64-bit varint reader stops after five groups, so the pair is exact only below 2^35; the signed pair only from 0 to
  below 2^34 (`Varints.RoundTrip64`, `Varints.Int64Exact`).
- The positional read starts in the cursor's block (`ByteArrays.ByteArray.ReadStartExact`, `ByteArrays.ReadAtMisses`); a
  zero-length read at the capacity follows a null pointer (`ByteArrays.ByteArray.Read`).
- `writeFixSize` keeps the result of `write` in an unsigned variable. A failed send is not reported, and every one adds a
  byte to what is sent (`Streams.SocketStream.WriteFixSize`, `Streams.FailedSend`).
- `listExpiredCb` checks for emptiness and scans under separate locks; a second thread can dereference the end of an
  emptied set (`TimerRuns.ListExpiredExact`, `TimerRuns.SecondScanRaces`).
- The dispatcher does not cut the reported events down to the mask it finds, so a report that has gone stale fails an
  assertion (`IoRuns.AbortsExactly`, `IoRuns.ReportGoesStale`).
- `do_io` and `connect_with_timeout` arm the timeout before they register the event. A timeout that expires in between is
  lost, and the fiber waits with a finite timeout and no way to time out (`HookTimeouts.TimesOutExactly`,
  `HookTimeouts.TimeoutLost`).
- A worker decrements the active count before it queues a READY fiber again, so `stopping()` can be true too early
  (`SchedulerRuns.StopsForGoodExactly`, `SchedulerRuns.StopsEarly`).
- A worker goes on using a fiber after it has yielded, and another worker may pop the fiber in the meantime. The two then
  share it (`SchedulerFibers.ExclusiveKeeps`). That can be harmless (`SchedulerRest.StealHarmless`). What can go wrong:
  - The callback fibers are at rest at the heads of the loops exactly if no worker keeps for its next callback an ended
    fiber that another one holds or someone refers to (`SchedulerRest.RestKeeps`, `SchedulerRest.AtRestExactly`,
    `SchedulerFibers.StealingFails`), and the other assertions fail exactly where a shared fiber's state has changed
    (`SchedulerRest.AbortsExactly`, `SchedulerRest.RegisterFails`).
  - A worker can mark a fiber as parked that another one runs. A running fiber has one runner, in EXEC, exactly as long as
    no step does that (`SchedulerRunners.OneRunnerKeeps`, `SchedulerRunners.OneRunnerExactly`).
  - Then a fiber that waits in a hooked call can be entered while it is still running, and run on two workers at once
    (`HookRaces.TwoRunners`). Over the waits and the workers together, every fiber in a call is where its wait says, and
    is entered only when it is parked and scheduled, exactly as long as no step marks a running fiber, queues a fiber in a
    call, or lets a fiber enter a call that is still scheduled (`HookWorkers.StepExactly`, `HookWorkers.SoundExactly`).
    Whatever has gone wrong, workers have resumed the fiber once for each wait that is over (`HookWorkers.ResumedOnce`).
- What is given to the parser of a chunk-size line before a read ends is forgotten. A line without an extension is read
  right exactly if nothing but leading zeros is lost; one with an extension also when what follows the last read end
  happens to be a line of the same size (`ChunkedCuts.ReadRightExactly`, `ChunkedCuts.CutsExactly`,
  `ChunkedCuts.ReceiveFails`).
- A doubled percent sign in a log pattern is always read twice, and so never as just a percent sign
  (`LogPatterns.DoubledPercent`).

## Model

| member | source | states |
|---|---|---|
| `ByteArrays.GrowthExact` | ljrServer/bytearray.cpp:1149-1190 | The block count `addCapacity` computes is enough exactly when the request already fitted, or the shortage modulo the block size is 0 or more than the old free space. It adds nothing to a request that fits; for any other, what it adds is more than the shortage less the free space and less than the shortage and one block: the count is fixed exactly. |
| `ByteArrays.GrowthFails` | ljrServer/bytearray.cpp:1149-1190 | The rule can fail: with blocks of four bytes, writing two bytes and then three. |
| `ByteArrays.ByteArray.constructor` | ljrServer/bytearray.cpp:50-59 | A new array is one block with the cursor on it, readable size 0, and a well-formed chain. |
| `ByteArrays.ByteArray.FlatLength` | ljrServer/bytearray.cpp:50-59 | The capacity is the length of the flat byte sequence: block size times number of blocks. |
| `ByteArrays.ByteArray.Clear` | ljrServer/bytearray.cpp:598-616 | Only the first block is left, position and size are 0, the cursor is on the root, and the chain stays well-formed. |
| `ByteArrays.ByteArray.Grow` | ljrServer/bytearray.cpp:1165-1184 | Appending blocks keeps every stored byte and the acyclic chain and names the first new block. |
| `ByteArrays.ByteArray.AddCapacity` | ljrServer/bytearray.cpp:1149-1190 | Keeps all stored bytes, repairs a cursor that had run off the end, adds exactly the blocks the count says, and leaves room for the request if and only if the growth rule holds. |
| `ByteArrays.ByteArray.Write` | ljrServer/bytearray.cpp:624-675 | Succeeds if and only if the growth rule holds; then the flat sequence is overwritten or extended exactly at the position, position and size move, the capacity grows by exactly the blocks counted, and the cursor is on block position/base. |
| `ByteArrays.ByteArray.Read` | ljrServer/bytearray.cpp:683-727 | Returns exactly the flat slice at the position and moves past it; out of range exactly when too little is readable; follows the null cursor exactly for a zero-length read at the capacity. |
| `ByteArrays.ByteArray.ReadStartExact` | ljrServer/bytearray.cpp:736-750 | The positional read starts where it was asked to if and only if that lies in the cursor's block. |
| `ByteArrays.ByteArray.ReadAt` | ljrServer/bytearray.cpp:736-781 | Returns the flat slice from the place the loop really starts at, with the wrapped range check and the exact condition under which it follows a null pointer; changes nothing. |
| `ByteArrays.ReadAtMisses` | ljrServer/bytearray.cpp:736-781 | The positional read can miss: a concrete array in which it gives another byte than a read at the same position. |
| `ByteArrays.ByteArray.SetPosition` | ljrServer/bytearray.cpp:788-820 | Accepts exactly positions up to the capacity; then the position is the one asked for, the size grows to it if need be, and the cursor is on its block. |
| `ByteArrays.ByteArray.ToString` | ljrServer/bytearray.cpp:935-946 | Returns exactly the unread slice, also when it is empty and the cursor is null. |
| `ByteArrays.ByteArray.GetReadBuffers` | ljrServer/bytearray.cpp:984-1026 | The pieces appended cover the next min(len, readable) unread bytes, in order, without moving the position. |
| `ByteArrays.ByteArray.CopyIn` | ljrServer/bytearray.cpp:634-668 | The copy loop over blocks writes the whole buffer at the position exactly when it fits. |
| `ByteArrays.ByteArray.Collect` | ljrServer/bytearray.cpp:752-780 | The loop of the positional read gathers the flat slice from a place in a block, or runs off the chain exactly when the capacity is too small. |
| `Varints.VarintLength` | ljrServer/bytearray.cpp:235-246 | A 32-bit value takes at most 5 bytes, a 64-bit value at most 10. |
| `Varints.VarintByte` | ljrServer/bytearray.cpp:235-246 | Byte i holds the value's i-th digit to the base 128, the least first, and the top bit is set on all bytes but the last. |
| `Varints.ParseVarint` | ljrServer/bytearray.cpp:440-478 | Reading at most n groups of an encoding gives the value modulo 128^n and uses the smaller of n and the encoded length, whatever follows. |
| `Varints.RoundTrip32` | ljrServer/bytearray.cpp:235-246 | The 32-bit reader undoes the 32-bit writer and uses exactly the bytes written. |
| `Varints.RoundTrip64` | ljrServer/bytearray.cpp:262-273 | Reading back a 64-bit value gives it modulo 2^35 and uses at most five bytes; the pair is exact if and only if the value is below 2^35. |
| `Varints.ZigzagBijection` | ljrServer/bytearray.cpp:85-99 | Zigzag with 32-bit wrap-around is a bijection, in both directions, ordering by magnitude. |
| `Varints.Zigzag64` | ljrServer/bytearray.cpp:107-121 | The 64-bit decoder undoes signed zigzag; the encoder, whose parameter is unsigned, doubles what it is given, with wrap-around. |
| `Varints.Int64Exact` | ljrServer/bytearray.cpp:107-121 | What the reader makes of the bytes the signed 64-bit writer stores, whatever follows them, is the value if and only if it is between 0 and 2^34: the encoder's sign test is never taken, and the reader stops after five groups. |
| `Varints.RoundTripAll` | ljrServer/bytearray.cpp:226-246 | Any list of signed and unsigned 32-bit varints parses back to itself and uses exactly the bytes written, at most five each. |
| `Codecs.PutGroups` | ljrServer/bytearray.cpp:235-246 | The writer's loop fills its buffer with exactly the varint and never overruns it. |
| `Codecs.WriteUint32` | ljrServer/bytearray.cpp:235-246 | Writes the varint at the position; fails exactly when the growth rule does; the capacity grows by exactly the blocks counted. |
| `Codecs.WriteUint64` | ljrServer/bytearray.cpp:262-273 | Writes the varint at the position; fails exactly when the growth rule does; the capacity grows by exactly the blocks counted. |
| `Codecs.ReadGroups` | ljrServer/bytearray.cpp:440-478 | The reader's loop gives the parsed value modulo the word size and moves past exactly the groups used; it runs out of data exactly when the parse does. |
| `Codecs.ReadUint32` | ljrServer/bytearray.cpp:440-452 | Gives the parsed value modulo 2^32, or runs out of data. |
| `Codecs.ReadUint64` | ljrServer/bytearray.cpp:466-478 | Gives the value of at most five groups, or runs out of data. |
| `Codecs.WriteItem` | ljrServer/bytearray.cpp:226-246 | `writeInt32` and `writeUint32` store the item's encoding at the position or fail with the growth rule. |
| `Codecs.ReadItem` | ljrServer/bytearray.cpp:433-452 | `readInt32` and `readUint32` interpret the parsed number and move past it. |
| `Codecs.WriteAll` | ljrServer/bytearray.cpp:226-246 | Writing a list appends exactly its encodings; for every block size it fails exactly when the encodings, one after another, do not fit under the growth rule. |
| `Codecs.AllFitExactly` | ljrServer/bytearray.cpp:1149-1190 | Every list of values fits into a new array if and only if its blocks are of one byte; for any larger block size there is a list that does not. |
| `Codecs.ReadAll` | ljrServer/bytearray.cpp:433-452 | Reading a list of kinds gives exactly what parsing the unread bytes gives. |
| `Strings.FixedRoundTrip` | ljrServer/bytearray.cpp:133-218 | A fixed-width number read back is the number written modulo the width's range, in either byte order; a signed or unsigned number comes back itself if and only if it is in the range of its width. |
| `Strings.ByteOrder` | ljrServer/bytearray.cpp:133-218 | Which order is which: the first of big-endian bytes is the most significant, the first of little-endian ones the least. |
| `Strings.WriteFixed` | ljrServer/bytearray.cpp:133-218 | Stores the low bytes of a signed or unsigned number in the array's byte order; fails exactly when the growth rule does. |
| `Strings.ReadFixed` | ljrServer/bytearray.cpp:380-424 | Gives the number the next bytes mean, signed or not, and moves past them; runs out of data exactly when there are too few. |
| `Strings.StringRoundTrip` | ljrServer/bytearray.cpp:310-343 | A string with a fixed-width length comes back as its first bytes, as many as its length modulo the width's range; exactly itself if and only if the width can hold its length. |
| `Strings.VintRoundTrip` | ljrServer/bytearray.cpp:352-357 | A string with a varint length comes back whole if and only if its length is below 2^35. |
| `Strings.WriteString` | ljrServer/bytearray.cpp:310-357 | Writes the length and then the data as one stretch at the position; for every block size it fails exactly when the two, one after the other, do not fit under the growth rule. |
| `Strings.ReadString` | ljrServer/bytearray.cpp:517-588 | Gives what parsing the unread bytes gives, except that an empty string that ends at the capacity follows the null cursor. |
| `Streams.SocketStream.Offer` | ljrServer/socket_stream.cpp:98-108 | What the socket takes is a prefix of the unread slice offered, in order; the result is what the send returns, -1 for one that fails or a socket that is not connected. |
| `Streams.SocketStream.Write` | ljrServer/socket_stream.cpp:98-116 | What arrives is the flat slice the position moves over; after a result of -1 or 0 nothing has arrived and the position stays. |
| `Streams.SocketStream.WriteFixSize` | ljrServer/stream.cpp:74-84 | However the socket splits the sends, whichever of them fail, and whatever the block size: what arrives is the slice passed over, in order. The result is the length asked for exactly if as many bytes and one more for every failed send were passed over, in 64-bit arithmetic; a send that takes nothing ends the call with 0; over an unconnected socket the result is the length, with nothing sent. Of readable bytes, exactly those asked for are sent and reported if and only if every send that was made took something. |
| `Streams.FailedSend` | ljrServer/stream.cpp:74-84 | A concrete run with one failed send: asked for two bytes, it sends three and reports two. |
| `TimerSpec.LowerBoundSplits` | ljrServer/timer.cpp:11-34 | On a strictly ordered set, `lower_bound` separates the keys before the given one from the others. |
| `TimerSpec.FindExact` | ljrServer/timer.cpp:69-90 | Looking a timer up by its key finds exactly the armed timers, so the `find` in `cancel`, `refresh` and `reset` always succeeds. |
| `TimerSpec.RemoveKeeps` | ljrServer/timer.cpp:69-90 | Erasing a member keeps the order and removes just it. |
| `TimerSpec.InsertKeeps` | ljrServer/timer.cpp:366-384 | Inserting a timer keeps the strict order and adds just it, at the front exactly when its key is least. |
| `TimerRuns.ExpiredExact` | ljrServer/timer.cpp:311-322 | Whatever address the sentinel timer gets, exactly the members with deadline at most now are taken. |
| `TimerRuns.SettleAllExact` | ljrServer/timer.cpp:329-343 | Exactly the recurring ones of the listed timers go back in at now plus period, the others lose their callback, nothing else changes, and the set stays strictly ordered, even for period 0. |
| `TimerRuns.ListExpiredExact` | ljrServer/timer.cpp:286-344 | An expiry scan takes exactly the due timers (all of them after a rollover), independently of the sentinel, settles each and keeps the set well-formed; it dereferences the end exactly when the set is empty and the clock has not gone back. |
| `TimerRuns.HeadIsLeast` | ljrServer/timer.cpp:253-277 | No armed timer is due before the head of the set. |
| `TimerRuns.RekeyChanges` | ljrServer/timer.cpp:98-172 | Taking a member out, changing its key and putting it back keeps the set well-formed and its members the same, and moves the head no earlier if the key is no earlier. |
| `TimerRuns.RefreshKeeps` | ljrServer/timer.cpp:98-121 | `refresh` only moves a deadline later, so it keeps the invariant without a wake-up. |
| `TimerRuns.ResetKeeps` | ljrServer/timer.cpp:131-172 | `reset` may move a deadline earlier, but then through `addTimer`, which requests the wake-up; it keeps the invariant. |
| `TimerRuns.CancelKeeps` | ljrServer/timer.cpp:69-90 | `cancel` keeps the invariant, makes the fate of a timer that was armed "cancelled", and leaves the timer disarmed and out of the set. |
| `TimerRuns.AddKeeps` | ljrServer/timer.cpp:197-209 | `addTimer` keeps the invariant. |
| `TimerRuns.ScanKeeps` | ljrServer/timer.cpp:286-344 | An expiry scan keeps the invariant. |
| `TimerRuns.EveryRun` | ljrServer/timer.cpp:69-384 | In every state of every run under a non-decreasing clock, from any first reading: the set is well-formed, a timer has a callback if and only if it is a member, whoever sleeps as long as `getNextTimer` last returned wakes no later than the head is due, unless a wake-up has been requested since, and every one-shot timer is in exactly one of pending, listed once, cancelled. |
| `TimerRuns.CancelIsFinal` | ljrServer/timer.cpp:69-90 | A cancelled timer's callback is never listed again, recurring or not. |
| `TimerRuns.SecondScanRaces` | ljrServer/timer.cpp:292-309 | Because the emptiness check and the scan take the lock separately, a second thread can dereference the end of an emptied set: a concrete run. |
| `TimerLaws.Adds` | ljrServer/timer.cpp:197-209 | `addTimer`: the new timer is due its period after the clock's reading, no other timer changes, and a wake-up is requested exactly if it is now the least. |
| `TimerLaws.Cancels` | ljrServer/timer.cpp:69-90 | `cancel`: exactly an armed timer loses its callback, and that is what it returns; no other timer and no flag changes. |
| `TimerLaws.Refreshes` | ljrServer/timer.cpp:98-121 | `refresh`: exactly an armed timer is now due its period from now; nothing else changes, and no wake-up is requested. |
| `TimerLaws.Resets` | ljrServer/timer.cpp:131-172 | `reset`: true without effect for the same period unless it is counted from now; otherwise exactly an armed timer gets the period, from now or from where the old one began, and a wake-up is requested exactly if it is now the least. |
| `TimerLaws.Reports` | ljrServer/timer.cpp:253-277 | `getNextTimer` of any well-formed set: nothing exactly if no timer is armed, 0 exactly if one is due, and a positive time exactly if it is the time to the least armed deadline. |
| `TimerLaws.RollsOver` | ljrServer/timer.cpp:393-402 | The clock counts as gone back exactly if the reading is below the last one and below it less 3,600,000 ms, a difference that wraps at 64 bits. |
| `TimerLaws.ListsInOrder` | ljrServer/timer.cpp:298-344 | The timers of a scan are listed by deadline, and for equal deadlines by address. |
| `TimerLaws.Scans` | ljrServer/timer.cpp:298-344 | In a run, a scan lists exactly the armed timers due by its reading, each once more; a recurring one is then due its period after the reading, any other has no callback, and no other timer changes. |
| `TimerLaws.Fires` | ljrServer/timer.cpp:298-344 | From any state of a run: once the clock has reached an armed timer's deadline, a scan is possible and lists the timer once more. |
| `Timers.TimerManager.LowerBound` | ljrServer/timer.cpp:315 | The search loop finds the index the ordered-set specification gives. |
| `Timers.TimerManager.Insert` | ljrServer/timer.cpp:366-368 | Inserts in place as the ordered-set specification says, nothing if the key is there. |
| `Timers.TimerManager.AddTimerLocked` | ljrServer/timer.cpp:366-384 | Inserts, requests a wake-up if the timer is at the front, and calls `onTimerInsertedAtFront` exactly when the flag is newly set. |
| `Timers.TimerManager.AddTimer` | ljrServer/timer.cpp:197-209 | The in-place `addTimer` makes exactly the abstract step. |
| `Timers.TimerManager.Cancel` | ljrServer/timer.cpp:69-90 | The in-place `cancel` makes exactly the abstract step and returns whether there was a callback to drop. |
| `Timers.TimerManager.Refresh` | ljrServer/timer.cpp:98-121 | The in-place `refresh` makes exactly the abstract step. |
| `Timers.TimerManager.Reset` | ljrServer/timer.cpp:131-172 | The in-place `reset` makes exactly the abstract step, with both of its early returns. |
| `Timers.TimerManager.GetNextTimer` | ljrServer/timer.cpp:253-277 | Gives nothing exactly if no timer is armed, 0 exactly if an armed timer is due, and otherwise the time to the earliest armed deadline; clears the flag and changes nothing else. |
| `Timers.TimerManager.DetectClockRollover` | ljrServer/timer.cpp:393-402 | Detects a clock that went back by more than an hour, with the wrapped 64-bit difference, and records the reading. |
| `Timers.TimerManager.ScanEnd` | ljrServer/timer.cpp:311-322 | The search with the sentinel and the loop over equal deadlines find how many timers are taken. |
| `Timers.TimerManager.SettleEach` | ljrServer/timer.cpp:329-343 | The loop over the listed timers settles each in place and returns their callbacks in order. |
| `Timers.TimerManager.ListExpired` | ljrServer/timer.cpp:298-344 | The locked part of `listExpiredCb` makes exactly the abstract step, hands out the listed timers' callbacks, and dereferences the end exactly when the specification says. |
| `Timers.TimerManager.ListExpiredCb` | ljrServer/timer.cpp:286-344 | Run without interruption, the whole of `listExpiredCb` never dereferences the end of an empty set. |
| `IoSpec.AddKeeps` | ljrServer/iomanager.cpp:167-244 | Adding an event, also one that makes the table grow, keeps the pending count equal to the number of event bits, the kernel's interest equal to the masks, and unregistered slots empty. |
| `IoSpec.DelKeeps` | ljrServer/iomanager.cpp:254-307 | Deleting an event keeps the same invariant. |
| `IoSpec.FireKeeps` | ljrServer/iomanager.cpp:60-76 | Firing registered events keeps the same invariant. |
| `IoRuns.FireMoves` | ljrServer/iomanager.cpp:60-76 | Firing moves exactly the waiting tasks of the fired events out of the slots. |
| `IoRuns.AddMoves` | ljrServer/iomanager.cpp:223-242 | Adding an event puts exactly its task into the slots. |
| `IoRuns.EveryRun` | ljrServer/iomanager.cpp:167-425 | In every run: the pending count is the number of event bits set, the kernel watches exactly the registered events, unregistered slots are entirely empty, and each task is held in a slot, fired or dropped by `delEvent` as often as it was registered. |
| `IoRuns.OneFate` | ljrServer/iomanager.cpp:167-425 | A task registered once is in exactly one of: held, fired once, dropped once. |
| `IoRuns.AbortsExactly` | ljrServer/iomanager.cpp:590-640 | A call fails an assertion about the table if and only if an event is added twice, or a dispatched report names an event that is no longer registered while another one is fired. |
| `IoRuns.FreshReport` | ljrServer/iomanager.cpp:539-640 | A report that is dispatched before any call clears events of its descriptor fails no assertion. |
| `IoRuns.ReportGoesStale` | ljrServer/iomanager.cpp:539-640 | The failing case is reachable: a concrete run in which a timeout cancels one of two reported events before the dispatch. |
| `IoLaws.Grows` | ljrServer/iomanager.cpp:167-190 | A descriptor beyond the table makes it half as long again as the descriptor; the entries below stay and the new ones are idle. |
| `IoLaws.Adds` | ljrServer/iomanager.cpp:167-244 | `addEvent`: an event already registered aborts, a refusal fails, and otherwise exactly this bit is set, its slot holds the task, the count is one more and the kernel watches the new mask; no other descriptor changes. |
| `IoLaws.Dels` | ljrServer/iomanager.cpp:254-307 | `delEvent`: exactly a registered event goes, with its task; its slot is empty, and count and kernel follow. |
| `IoLaws.Cancels` | ljrServer/iomanager.cpp:317-360 | `cancelEvent`: exactly a registered event is fired: its task is handed out, its bit and slot are cleared, and count and kernel follow. |
| `IoLaws.CancelsAll` | ljrServer/iomanager.cpp:369-425 | `cancelAll`: every registered event is fired, the reader first, unless there is none or the kernel refuses. |
| `IoLaws.Dispatches` | ljrServer/iomanager.cpp:580-641 | What the dispatcher fires, for each of readable, writable and broken and each mask: the reader exactly for readable or broken, the writer exactly for writable or broken, or nothing, or a failed assertion. |
| `IOManagers.FdContext.TriggerEvent` | ljrServer/iomanager.cpp:60-76 | Clears the bit, hands out the slot's task and leaves the slot empty, through the swapping constructors; fails exactly when the bit is unset. |
| `IOManagers.IOManager.ContextResize` | ljrServer/iomanager.cpp:146-157 | Cuts the table down or fills it with new empty contexts; entries below both sizes stay. |
| `IOManagers.IOManager.AddEvent` | ljrServer/iomanager.cpp:167-244 | Makes exactly the abstract step: ADD or MOD is always the legal operation, and the slot it fills is always empty. It also aborts, with the event registered, exactly when the task is a fiber that is not in EXEC. |
| `IOManagers.IOManager.DelEvent` | ljrServer/iomanager.cpp:254-307 | Makes exactly the abstract step; MOD or DEL is always the legal operation. |
| `IOManagers.IOManager.CancelEvent` | ljrServer/iomanager.cpp:317-360 | Makes exactly the abstract step: the event's task is handed to its scheduler once, and the count follows. |
| `IOManagers.IOManager.CancelAll` | ljrServer/iomanager.cpp:369-425 | Makes exactly the abstract step; afterwards no event is registered, so the final assertion holds. |
| `IOManagers.IOManager.Dispatch` | ljrServer/iomanager.cpp:580-641 | One descriptor's turn in the dispatch loop makes exactly the abstract step: the reader's task is handed out if it waits and the descriptor is readable or broken, the writer's if it waits and the descriptor is writable or broken, and no other; the turn is skipped exactly when neither is so or the kernel refuses, and fails its assertion exactly when one is so and the other is reported but does not wait. |
| `Hooks.FiredResumes` | ljrServer/iomanager.cpp:60-76 | Firing schedules exactly the fibers in the fired slots, each once. |
| `Hooks.StepKeeps` | ljrServer/hook.cpp:183-263 | Every step of every fiber, timeout callback, dispatch and close keeps: a waiting fiber is in its slot or scheduled, once and not both. |
| `Hooks.ResumedExactlyOnce` | ljrServer/hook.cpp:183-263 | In every run each registration but the one being waited on was resumed exactly once, by readiness, timeout or close, and a slot holds a fiber only where it registered. |
| `HookTimeouts.TimedKeeps` | ljrServer/hook.cpp:199-259 | Every step keeps the facts about timeouts: calls are apart, timeouts aim where their call waits, and a flag set since the registration is followed by a cancellation. |
| `HookTimeouts.EveryRunTimed` | ljrServer/hook.cpp:183-263 | These facts hold in every reachable state. |
| `HookTimeouts.TimesOut` | ljrServer/hook.cpp:207-224 | An effective timeout, by its own steps alone, sets its call's flag and resumes the fiber it aims at. |
| `HookTimeouts.StaysStuck` | ljrServer/hook.cpp:207-224 | A waiting fiber without an effective timeout is not resumed by any run of timeouts and callbacks. |
| `HookTimeouts.TimesOutExactly` | ljrServer/hook.cpp:199-259 | A waiting fiber can time out if and only if some timeout aimed at its slot is still effective. |
| `HookTimeouts.CleanHasTimeout` | ljrServer/hook.cpp:199-241 | A fiber with a finite timeout whose call's flag was unset when it registered has an effective timeout for as long as it is in its slot. |
| `HookTimeouts.TimesOutWhenClean` | ljrServer/hook.cpp:199-259 | With only its own call's timeouts aimed at it, a fiber with a finite timeout can time out if and only if the flag was unset when it registered or a callback is between its look at the flag and its cancellation. |
| `HookTimeouts.TimeoutLost` | ljrServer/hook.cpp:205-241 | The condition can fail: a concrete run in which the timeout expires between being armed and the event being registered, after which the fiber is parked with a finite timeout and cannot time out. |
| `HookCalls.CallEnds` | ljrServer/hook.cpp:183-263 | A call ends in three ways only: its system call does not block, its registration has failed, or its fiber finds the flag set. |
| `HookCalls.AfterWaking` | ljrServer/hook.cpp:244-259 | A resumed fiber drops its timeout and looks at the flag: set, the call ends; unset, the same call on the same descriptor tries again. |
| `HookCalls.TimeoutEndsCall` | ljrServer/hook.cpp:205-259 | From any reachable state in which a timeout aimed at a waiting fiber is effective: its own steps and then the fiber's end the call if the timeout is the call's or the flag is set, and otherwise make it try again. |
| `HookCalls.RegistersOnceMore` | ljrServer/hook.cpp:228-259 | Over every run from any reachable state, a call whose flag is set registers at most once more, and only if it stands between its system call and its registration. |
| `HookCalls.AbortsExactly` | ljrServer/hook.cpp:183-263 | In the waits, a step fails an assertion about the table exactly if it adds a registered event or dispatches a report gone stale. |
| `Schedulers.Scan` | ljrServer/scheduler.cpp:257-285 | The scan of the queue stops at the first task that is unpinned or pinned to this thread and is not a fiber in EXEC; every task before it is pinned to another thread or a fiber in EXEC; others are woken exactly when it passed a task pinned elsewhere. |
| `Schedulers.ScheduleAll` | ljrServer/scheduler.h:107-125 | Scheduling a range appends its non-null tasks in order and wakes others exactly when the queue was empty and the range is not. |
| `SchedulerLaws.EntriesAt` | ljrServer/scheduler.h:107-125 | Each non-null task of the range gets one entry, unpinned, with as many before it as there are such tasks before it. |
| `SchedulerLaws.Takes` | ljrServer/scheduler.cpp:257-285 | A worker at the head of its loop can pop exactly the first task that is neither pinned to another thread nor a fiber in EXEC, and is idle exactly if there is none. |
| `SchedulerLaws.PinsHold` | ljrServer/scheduler.cpp:257-285 | In every run, a task pinned to a thread is only ever taken by that thread. |
| `SchedulerLaws.InitialPins` | ljrServer/scheduler.cpp:222-241 | No worker has a task in hand when the workers enter `run`. |
| `SchedulerLaws.LeavesAfterStopping` | ljrServer/scheduler.cpp:356-381 | In every run, a worker leaves its loop only after `stopping()` has been true. |
| `SchedulerRuns.CountsKeep` | ljrServer/scheduler.cpp:279-357 | Every step keeps the active count equal to the number of workers between a pop and their decrement, and the idle count equal to the idling ones. |
| `SchedulerRuns.TicketsKeep` | ljrServer/scheduler.cpp:257-357 | Every step keeps each task ever queued in exactly one place: queued, held by one worker, or done. |
| `SchedulerRuns.ReadyKeeps` | ljrServer/scheduler.cpp:289-351 | Every step keeps each READY fiber queued or in the hands of a worker that is about to see it. |
| `SchedulerRuns.EveryRun` | ljrServer/scheduler.cpp:222-381 | The three statements above, and that an EXEC fiber is being run, in every run of any number of workers. |
| `SchedulerRuns.InitialInvariant` | ljrServer/scheduler.cpp:222-241 | The statements hold when the workers enter `run`. |
| `SchedulerRuns.StoppingMeans` | ljrServer/scheduler.cpp:395-400 | When `stopping()` is true, no worker is active, every task has had its turn, no fiber runs, and for every READY fiber some worker stands after its run and has seen no other state of it. |
| `SchedulerRuns.Requeues` | ljrServer/scheduler.cpp:300-303 | If the fiber is READY, that worker's own next steps are possible and queue it, without its thread pin, and then `stopping()` is false again. |
| `SchedulerRuns.StopsForGoodExactly` | ljrServer/scheduler.cpp:296-351 | Once true, `stopping()` stays true in every run of the workers without new submissions if and only if no worker stands after its run with a fiber that is READY or that it has seen READY. |
| `SchedulerRuns.StopsEarly` | ljrServer/scheduler.cpp:296-303 | `stopping()` can be true while a fiber is still ready to run: a concrete run. |
| `SchedulerFibers.NoAbort` | ljrServer/fiber.cpp:143-186 | From exclusive hands no assertion of `reset` or `swapIn` fails in any step. |
| `SchedulerFibers.ExclusiveKeeps` | ljrServer/scheduler.cpp:257-351 | A step keeps every fiber in at most one worker's hands if and only if it is not a pop of a fiber another worker still holds. |
| `SchedulerFibers.RunsExclusive` | ljrServer/scheduler.cpp:257-351 | In a run hands are always exclusive if and only if there are no such pops, and then no assertion fails. |
| `SchedulerFibers.SettleHonours` | ljrServer/scheduler.cpp:298-351 | With exclusive hands a worker acts on what the fiber itself last did: READY is queued again, HOLD stays, an ended callback fiber is put at rest. |
| `SchedulerRunners.SettleExactly` | ljrServer/scheduler.cpp:298-351 | Whatever the hands: a worker acts on what the fiber last did if and only if the state it has read still says so. |
| `SchedulerFibers.InitialExclusive` | ljrServer/scheduler.cpp:222-241 | Hands are exclusive when the workers enter `run`. |
| `SchedulerFibers.OneWorker` | ljrServer/scheduler.cpp:246-351 | With a single worker no pop ever takes a fiber another worker holds. |
| `SchedulerFibers.StealingFails` | ljrServer/scheduler.cpp:296-351 | With two workers one can: a concrete run after which the callback fiber at the head of the loop is in HOLD and the next callback fails the assertion in `reset`. |
| `SchedulerRest.RestKeeps` | ljrServer/scheduler.cpp:257-351 | From a state in which every callback fiber not in use is in INIT and nobody else's, while other fibers may be shared, a step leads to such a state again if and only if it does not keep, for the next callback, an ended fiber that another worker holds or someone refers to. |
| `SchedulerRest.HeadAtRest` | ljrServer/scheduler.cpp:314-351 | In such a state, at the head of the loop the callback fiber is absent, or in INIT and referred to by no queue entry, event slot or other worker. |
| `SchedulerRest.CallbackBegins` | ljrServer/fiber.cpp:143-171 | From such a state no callback fails the assertion in `reset` when it begins. |
| `SchedulerRest.AbortsExactly` | ljrServer/fiber.cpp:143-186 | From such a state exactly three steps fail an assertion: entering a fiber in EXEC, registering a fiber that is not in EXEC, and putting to rest a fiber that is no longer ended. |
| `SchedulerRest.AtRestExactly` | ljrServer/scheduler.cpp:246-351 | Over a whole run without a failed assertion, whatever pops steal: every callback fiber is at rest whenever its worker is at the head of the loop if and only if no step keeps an ended fiber that is held or referred to elsewhere. |
| `SchedulerRest.InitialRest` | ljrServer/scheduler.cpp:222-241 | The state holds when the workers enter `run`. |
| `SchedulerRest.ExclusiveRests` | ljrServer/scheduler.cpp:257-351 | Exclusive hands are one such state. |
| `SchedulerRest.StealHarmless` | ljrServer/scheduler.cpp:257-351 | A pop that steals need not harm: a concrete run with one that ends with both workers at the heads of their loops, no callback fiber kept and no failed assertion. |
| `SchedulerRest.RegisterFails` | ljrServer/iomanager.cpp:236-241 | A concrete run with a steal in which `addEvent` fails its assertion that the waiting fiber is in EXEC. |
| `SchedulerRunners.OneRunnerKeeps` | ljrServer/scheduler.cpp:289-351 | Whatever pops steal: a step keeps every running fiber in EXEC and on one worker, and every fiber in EXEC running, if and only if it does not mark a running fiber as parked. |
| `SchedulerRunners.OneRunnerExactly` | ljrServer/scheduler.cpp:246-351 | Over a whole run: always so, if and only if no step marks a running fiber. |
| `SchedulerRunners.RegisterHolds` | ljrServer/iomanager.cpp:236-241 | In such a state the assertion in `addEvent` does not fail. |
| `SchedulerRunners.InitialOneRunner` | ljrServer/scheduler.cpp:222-241 | It is so when the workers enter `run`. |
| `HookWorkers.EntersParked` | ljrServer/fiber.cpp:174-186 | With the wait protocol and the workers put together, from a sound state: a worker that enters a fiber in the middle of a hooked call finds it parked and scheduled, and runs it. |
| `HookWorkers.StepExactly` | ljrServer/scheduler.cpp:257-351 | Whatever pops steal: a step of fibers, timeouts, events or workers keeps the state sound if and only if it does not mark a running fiber as parked, queue a fiber in a call, or let a fiber enter a call that is still queued or popped. Sound: each running fiber has one runner and is in EXEC, and each fiber in a call is placed and served. |
| `HookWorkers.InitialSound` | ljrServer/scheduler.cpp:222-241 | The state is sound when the workers enter `run`. |
| `HookWorkers.SoundMeans` | ljrServer/hook.cpp:183-263 | In a sound state a fiber in a call has exactly one entry, queued or popped, if it has been scheduled, and none otherwise; it is parked, in HOLD and not running, or run by exactly one worker, in EXEC. |
| `HookWorkers.SoundExactly` | ljrServer/hook.cpp:183-263 | Over a whole run of any number of workers, whatever pops steal: the state is always sound if and only if no step is one of the three kinds. |
| `HookWorkers.ResumedOnce` | ljrServer/hook.cpp:183-263 | In every run over any number of workers, sound or not, workers resume a fiber exactly once for each of its registrations but the one it waits on. |
| `HookRaces.TwoRunners` | ljrServer/scheduler.cpp:289-351 | With two workers the state can become unsound: a concrete run in which a fiber that registers again is marked as parked by the worker that ran it before, and then runs on both workers at once. |
| `HookSteals.BreaksOutside` | ljrServer/scheduler.cpp:257-351 | With exclusive hands a step goes wrong if and only if someone other than the events schedules a fiber in a call, or one that enters a call has been queued. |
| `HookSteals.SoundWithoutSteals` | ljrServer/scheduler.cpp:246-351 | In a run without steals the state is always sound if and only if no one does that. |
| `HookSteals.OneWorkerSound` | ljrServer/scheduler.cpp:246-351 | With one worker, every run is such a run. |
| `HookStopping.CallsAreSlots` | ljrServer/scheduler.cpp:395-400 | When `Scheduler::stopping()` is true in a sound state, the fibers in the middle of a hooked call are exactly those that wait in their slots. |
| `HookStopping.StoppingMeans` | ljrServer/iomanager.cpp:476-483 | When `IOManager::stopping` is true in a run in which nothing went wrong, no fiber is in the middle of a hooked call, every task has had its turn, and for every READY fiber some worker is about to queue it again. |
| `Addresses.Insert` | ljrServer/address.cpp:665-689 | The printing loop prints the groups with the first run of zeros as a double colon. |
| `Addresses.AtMostOneDouble` | ljrServer/address.cpp:665-689 | The text has at most one double colon. |
| `Addresses.ExpandPrinted` | ljrServer/address.cpp:665-689 | Expanding the text (section 2.2 of RFC 4291) gives back every group, including leading, trailing and all-zero runs. |
| `Addresses.PrintedText` | ljrServer/address.cpp:665-689 | The text of a concrete address with two runs of zeros. |
| `Hexadecimal.ParseHex` | ljrServer/address.cpp:681 | A number printed in hexadecimal is read back. |
| `Hexadecimal.Codes` | ljrServer/address.cpp:681 | Digits are printed in lower case and read in either, by their ASCII codes, and the first counts for most. |
| `LogPatterns.Scan` | ljrServer/log.cpp:781-830 | The inner loop finds the item after a percent sign, its format and where it ends, or that its brace is never closed. |
| `LogPatterns.Init` | ljrServer/log.cpp:762-848 | The parser terminates, with the index strictly advancing, and gives the specified items; `m_error` is set exactly when some brace is never closed. |
| `LogLaws.BareItem` | ljrServer/log.cpp:780-835 | After a percent-free literal, a percent sign and ASCII letters or closing braces make the literal and an item of that name without a format, and the rest is parsed on its own. |
| `LogLaws.ItemWithFormat` | ljrServer/log.cpp:798-834 | A brace after the name opens the format, which ends at the first closing brace. |
| `LogLaws.UnclosedItem` | ljrServer/log.cpp:836-847 | A format never closed makes the pattern an error: an error item comes first, and what stands before and after the percent sign is joined to one literal behind it. |
| `LogLaws.LiteralOnly` | ljrServer/log.cpp:762-848 | A pattern without a percent sign is one literal, and no error. |
| `LogPatterns.ParsePrint` | ljrServer/log.cpp:762-848 | Parsing the printed pattern of any list of non-adjacent percent-free literals and alphabetic items, where a literal after a bare item starts with no letter or brace, gives the list back without an error. |
| `LogPatterns.DoubledPercent` | ljrServer/log.cpp:773-778 | The second half of a doubled percent sign is read again: whatever stands before and behind it, a doubled percent sign is parsed as a literal percent sign and one that begins an item, and never as just a literal one. |
| `LogPatterns.DoubledPercentItem` | ljrServer/log.cpp:773-778 | With letters behind it, it is a literal percent sign and the item they name. |
| `ChunkedBodies.ReadLine` | ljrServer/http/http_connection.cpp:132-163 | The inner loop reads a chunk-size line or closes, exactly as the parse of the stream says when everything given to the parser before the last read end inside the line is lost. |
| `ChunkedBodies.ReadPayload` | ljrServer/http/http_connection.cpp:168-196 | Both branches take exactly the payload and the end of line after it; it fails exactly when the stream is too short. |
| `ChunkedBodies.ReceiveChunk` | ljrServer/http/http_connection.cpp:129-197 | One turn of the outer loop takes exactly one chunk of that reading, and ends the loop exactly at a chunk of size zero. |
| `ChunkedBodies.Receive` | ljrServer/http/http_connection.cpp:126-200 | For every segmentation, the body, what is left on the connection, or the close is exactly what the stream comes to, given where reads ended. |
| `ChunkedBodies.ParseSizeLine` | ljrServer/http/httpclient_parser.rl:150-156 | Every line of the grammar, with leading zeros and any extension, parses to its size and no further, whatever follows. |
| `ChunkedBodies.ParseMore` | ljrServer/http/httpclient_parser.rl:150-156 | A decided line or error is decided the same whatever follows. |
| `ChunkedBodies.TokenCodes` | ljrServer/http/httpclient_parser.rl:120-126 | The characters of a token, by their ASCII codes. |
| `ChunkedBodies.WireFormat` | ljrServer/http/httpclient_parser.rl:150-156 | The text of a concrete chunk with an extension, and of the last chunk. |
| `ChunkedCuts.BodyOfWholeLines` | ljrServer/http/http_connection.cpp:126-200 | For every segmentation in which no read ends inside a chunk-size line, the body is the payloads put together and the bytes after the body are left. |
| `ChunkedCuts.ReadRightExactly` | ljrServer/http/http_parser.cpp:342-349 | A line without an extension is read right if and only if every read that ends inside it ends inside its leading zeros, because the parser starts anew and forgets what it was given. |
| `ChunkedCuts.ReadRightWhole` | ljrServer/http/http_parser.cpp:342-349 | Without leading zeros: if and only if no read ends inside it. |
| `ChunkedCuts.ParsesLines` | ljrServer/http/httpclient_parser.rl:150-156 | Among texts that end in a carriage return and a newline, the parser takes a whole text for a line of a size if and only if it is one by the grammar. |
| `ChunkedCuts.CutsExactly` | ljrServer/http/http_parser.cpp:342-349 | With or without an extension, and however many reads end inside the line: it is read right if and only if every piece before the last read end leaves the parser wanting more, and what follows it happens to be a line of the same size. |
| `ChunkedCuts.OneCutExactly` | ljrServer/http/http_parser.cpp:342-349 | With one read end inside the line: in the digits it is read right if and only if only zeros are lost, right after them or in the end of line the connection is closed, and in the extension it is read right if and only if the rest is by the grammar a line of the same size. |
| `ChunkedCuts.CutByLuck` | ljrServer/http/http_parser.cpp:342-349 | It can happen: the line "5;5" cut after its semicolon. |
| `ChunkedCuts.BodyTruncated` | ljrServer/http/http_connection.cpp:126-200 | When the line "10" is cut after its first digit, the body comes out empty and the payload is left on the connection. |
| `ChunkedCuts.ReceiveFails` | ljrServer/http/http_connection.cpp:126-200 | Run with such a read, the loops never return the payload sent, whatever the reads to come take. |
| `ConnectionPools.HttpConnectionPool.Take` | ljrServer/http/http_connection.cpp:488-511 | The loop drops connections that are closed or by the code's age test unusable, up to the first that is neither. |
| `ConnectionPools.HttpConnectionPool.GetConnection` | ljrServer/http/http_connection.cpp:477-556 | Keeps the count equal to pooled plus leased and all places disjoint, deletes exactly the connections dropped, each closed or unusable by the age test, leases the first that is neither or a new one, and never past the limit. |
| `ConnectionPools.HttpConnectionPool.ReleasePtr` | ljrServer/http/http_connection.cpp:450-470 | Returns the connection to the pool or deletes it, once, and keeps the same invariant. |
| `Codecs.RoundTrip` | tests/test_bytearray.cpp:15-53 | The round trip the tests exercise, for every block size and every list of signed and unsigned 32-bit values: what is written and read from the start is the same list and nothing is left unread; the writes fail exactly when the encodings do not fit under the growth rule. |

## Left out

- Real system calls, epoll, pipes, threads and contexts: they are nondeterministic steps or parameters. A failing
  `epoll_ctl` is a parameter of every call that makes one; the clock's readings are parameters of the timer's.
- Numbers: sizes, deadlines and addresses are unbounded, so a `size_t` sum or a deadline that overflows is not modelled,
  except where the code relies on wrapping: the range checks of the positional read and the rollover test, zigzag, the
  varint accumulators, what `writeFixSize` has left to write, and lengths cut to the width of their prefix. So a chunk
  size that does not fit an `int` is not modelled either.
- The C++ memory model and reuse of freed addresses: a timer's address is never another's again, and a step sees the
  latest value of every field.
- The check-then-resize in `addEvent` is one step; two threads that each find the table too small can otherwise shrink it.
- Descriptors closed behind the hooked `close`, and reads or writes on a descriptor number that has been reused.
- `delEvent` in the wait protocol: nothing in the hooks calls it, and it would drop a parked fiber.
- A fiber's state is read once after it has yielded; the code reads it up to three times. Of the fiber object only its
  state is modelled, not its stack or context.
- The timeouts' callbacks as tasks of the workers: where the waits and the workers are put together, they are steps of
  their own.
- More than one IO manager: every fiber waits and runs under the same one.
- The flags of `stop` and `start`, joining threads, the root fiber, `IOManager::stopping` with its timers, and the
  scheduling of the idle fiber beyond its part in leaving the loop.
- `getWriteBuffers`, the positional `getReadBuffers`, `toHexString`, and file input and output of byte arrays.
- Floating-point numbers, and the machine's own byte order, which is taken to be little-endian.
- The loops of `Stream` that read, and a connection that is lost during a call; it is there for a whole call or not at all.
- The response head, also where the parser would accept one in the place of a chunk-size line, trailers, and bodies that
  are not chunked.
- The brackets and the port around an IPv6 address, IPv4 addresses, masks and lookup.
- The lookup of log items by name and everything the logger does with them.
- In the pool, the moment between a connection's removal under the lock and the update of the count, DNS and connecting.
- Configuration, environment, daemon, application, servlets, URI parsing and the HTTP grammars.
- ByteArrays.ByteArray.Write: when the growth rule fails, the contract promises only the failure, because the code then
  follows a null pointer.
- Strings.WriteString: when one of its two writes fails, the contract promises only the failure.
- IOManagers.IOManager.Dispatch: after a failed assertion the contract promises nothing about the table, because the
  program ends there.
