# Models and proofs for the CS2 remote console

This project models the parts of the CS2 remote console repository in which state, arithmetic or
interleaving make mistakes easy, and proves what they are meant to do. That covers the console's own code
(the VConsole protocol, the colour cache of the terminal interface, the server's client table) and the
logging and formatting code that is kept in the repository as source (spdlog and fmt).

| file | subject |
|---|---|
| `CircularQueue.dfy` | the ring buffer over an array, the ring-buffer sink, the backtracer |
| `BlockingQueue.dfy` | the queue with one mutex and two condition variables, as a system of interleaved steps: no lost wake-up, conservation, order |
| `ThreadPool.dfy` | the worker pool on that queue: shutdown drains the queue and ends |
| `FlushOrder.dfy` | what a handled flush says about earlier messages |
| `Bits.dfy` | bitwise operators on naturals, rotation |
| `TrailingZeros.dfy` | removal of trailing zeros by modular inverse and rotation, division by reciprocals |
| `Calendar.dfy`, `IsoWeek.dfy`, `GmtOffset.dfy` | the Gregorian calendar, ISO week dates, the UTC offset |
| `CIntegers.dfy`, `DurationCast.dfy` | C integer types, checked duration conversion |
| `FormatString.dfy` | the two loops of the format-string parser |
| `FormatMeaning.dfy` | what a format string without specifiers means, for every string |
| `CompiledFormat.dfy` | the format-string compiler against the runtime formatter |
| `CompiledAcceptance.dfy` | which strings only the compiler accepts |
| `RotatingSink.dfy` | the rotating file sink on a file system |
| `VConsole.dfy` | command frames, reads from a byte stream, the CHAN message |
| `ColorCache.dfy` | colour pairs and their numbers |
| `ClientTable.dfy` | accepting thread, handlers and clean-ups on the client table |
| `PatternFormatter.dfy` | log patterns: pad specs, the pattern compiler, the padder |
| `Sequences.dfy`, `Wrappers.dfy` | subsequences, `Option` |

`dafny verify dfyconfig.toml` checks everything.

## How it is modelled

Objects that the program changes in place are classes; each method is proved against a function on values
(a bounded sequence, a file as a list of pieces, a pattern as a list of items), and the theorems are about
those functions. Loops are loops. Code with several threads is a transition system: a step is what one
thread does between two points at which another may run (one critical section, one notification, one call
of `accept`), a run is any sequence of steps, and the theorems are about all runs. Sleeping threads may
wake at any time without a notification and timed waits may expire at any time.

Integers have the width they have in the program wherever wrapping, truncation or overflow can matter: the
16-bit pair counter and frame length, the 32-bit accumulators of the parsers, the 64-bit pad width, colour
key and chunk arithmetic, every multiplication of the trailing-zero code.

These are parameters: the handler of the format-string parser and the formatting of one argument, what a
log flag prints, the text of formatted log messages, the bytes a socket delivers, the limit of colour
pairs, the socket numbers `accept` returns, the room that a growing vector gets, and the choices of the
scheduler.

## Where the code does not do what one would expect

In each case the model follows the code, the first result named says exactly when the expectation is met,
and where a second one is named it is an input or a run at which it is not.

- A queue with capacity 0 is empty and full at once: blocking posts wait for ever, and a pool on such a
  queue cannot be shut down (`CapacityIsWhatItTakes`, `HangingRunHangs`, `NoRoomNoShutdown`).
- With more than one worker a flush does not wait for the messages posted before it
  (`OrderNeedsASingleWorker`, `FlushOvertakes`).
- Moving a ring buffer onto itself loses its contents (`MoveFrom`).
- The 32-bit `remove_trailing_zeros` counts its last zero with `s |= 1`, which does nothing for an odd
  count (`WhenTheCountIsRight`, `OddStartMiscounts`). Its 64-bit form truncates n / 10^8 to 32 bits
  (`RemoveTrailingZeros64`, `TruncatedInputs`).
- The 64-bit `divide_by_10_to_kappa_plus_1` is documented as a division by 10^(kappa + 1), here 1000, and
  is off by one for large numbers that end in 999 (`DivideBy1000IsExact`, `DivideBy1000Fails`).
- Days in week 53 of a year before year 0 get a wrong ISO week (`WhenTheIsoWeekIsRight`, `LostThursday`), and
  the UTC offset can be wrong before year 1 (`OffsetIsTheDifference`, `WrongAtTheTurnOfACentury`).
- `parse_nonnegative_int` takes more than ten digits for an overflow even if they are zeros
  (`OverflowCheckIsExact`, `LeadingZerosAreRefused`).
- The compiler does not look at the character after a closing brace outside of a field, and lets the
  specifiers of a field with a written index draw automatic arguments (`WhenCompiledIsAccepted`,
  `UnpairedBraceCompiles`, `NextArgumentCompiles`).
- A channel record has 58 bytes on the wire and 60 in memory; the parser counts records with one size and
  steps with the other (`ChannelsAreCutShort`). It also counts wrongly, and reads outside of the chunk, if
  the chunk has no room for the count (`ReadsInsideIffThereIsACount`).
- No parser of a message looks at the size of its chunk, and a length field below the header size is not
  refused (`WhenATurnGoesWrong`, `BarePrintGoesWrong`).
- `registerChannel` looks up the colour without its background half, so it never finds anything; at the
  limit it returns 0 even for a pair that has a number (`BareColorIsNoKey`, `RegisterChannel`). Drawing has
  no limit, so the counter can pass the terminal's limit and wrap (`WhenIdsAreAPrefix`, `ShownAsAsked`).
- A handler of the server keeps a reference into the vector of clients. When the vector has to grow, the
  reference is left with the old storage; when an earlier entry is erased, it names another client, and the
  handler then closes that one (`WhenAReferenceIsGood`, `ReferenceIsLost`, `HandlerClosesAnother`). Whatever a
  handler sees, no connection is closed twice or lost by this (`EveryConnectionOnce`).
- The first clean-up of the server can be overtaken by a connection that is already accepted; the second
  one closes it (`WhenTheFirstCleanupIsEnough`, `FirstCleanupIsNotEnough`, `NothingIsLeftOpen`).
- The width in a pad spec wraps at 2^64 before it is cut to 64 (`WhenTheWidthIsRight`, `WidthWraps`).
- Flags that announce a fixed size are padded wrongly when their text has another (`WhenTheFieldIsRight`).
- An unknown flag loses its pad spec, although a comment says that it appears as it is
  (`UnknownFlagIsPrinted`).

## Model

| member | source | states |
|---|---|---|
| `CircularQueue.HistoryOfRing` | CS2RemoteConsole-client/include/spdlog/details/circular_q.h:46-112 | after any mix of pushes and pops the queue holds a suffix of what was pushed, never more than its capacity, and the overrun counter is pushes − pops − size |
| `CircularQueue.PushesKeepTheLast` | CS2RemoteConsole-client/include/spdlog/details/circular_q.h:46-57 | without pops the queue holds exactly the last `cap` elements ever pushed, so its last `lim` are the last min(cap, lim) of the whole history; pushing never fails, whatever the capacity |
| `CircularQueue.RingPush` | CS2RemoteConsole-client/include/spdlog/details/circular_q.h:46-57 | one store into the array with head and tail wrapping around is append-then-drop-the-oldest on the sequence between head and tail |
| `CircularQueue.CircularQ.constructor` | CS2RemoteConsole-client/include/spdlog/details/circular_q.h:26 | the default queue is disabled: nothing can be stored in it |
| `CircularQueue.CircularQ.WithCapacity` | CS2RemoteConsole-client/include/spdlog/details/circular_q.h:28-31 | one reserved cell gives an empty queue of exactly the capacity asked for |
| `CircularQueue.CircularQ.Size` | CS2RemoteConsole-client/include/spdlog/details/circular_q.h:66-72 | the number of stored elements, also when the tail has wrapped |
| `CircularQueue.CircularQ.At` | CS2RemoteConsole-client/include/spdlog/details/circular_q.h:76-79 | the i-th stored element, oldest first |
| `CircularQueue.CircularQ.Front` | CS2RemoteConsole-client/include/spdlog/details/circular_q.h:61-63 | the oldest element |
| `CircularQueue.CircularQ.Empty` | CS2RemoteConsole-client/include/spdlog/details/circular_q.h:85 | true exactly when nothing is stored |
| `CircularQueue.CircularQ.Full` | CS2RemoteConsole-client/include/spdlog/details/circular_q.h:87-93 | true exactly when capacity many elements are stored; never for a disabled queue |
| `CircularQueue.CircularQ.PushBack` | CS2RemoteConsole-client/include/spdlog/details/circular_q.h:46-57 | the array method refines push on the bounded sequence, overrun counter included |
| `CircularQueue.CircularQ.PopFront` | CS2RemoteConsole-client/include/spdlog/details/circular_q.h:83 | drops the oldest element and nothing else |
| `CircularQueue.CircularQ.MoveFrom` | CS2RemoteConsole-client/include/spdlog/details/circular_q.h:101-112 | moving hands over the whole state and leaves the source disabled; a move onto itself leaves the queue disabled too, so the contents are lost |
| `CircularQueue.RingbufferSink.SinkIt` | CS2RemoteConsole-client/include/spdlog/sinks/ringbuffer_sink.h:53-55 | each message is pushed |
| `CircularQueue.RingbufferSink.LastRaw` | CS2RemoteConsole-client/include/spdlog/sinks/ringbuffer_sink.h:26-36 | the last `lim` stored messages in order, all of them for 0 |
| `CircularQueue.Backtracer.Enable` | CS2RemoteConsole-client/include/spdlog/details/backtracer-inl.h:30-34 | recording starts with an empty queue of the given size; what was recorded before is gone |
| `CircularQueue.Backtracer.ForeachPop` | CS2RemoteConsole-client/include/spdlog/details/backtracer-inl.h:54-61 | visits exactly the stored messages, oldest first, and leaves the queue empty |
| `BlockingQueue.MpmcBlockingQueue.TryEnqueue` | CS2RemoteConsole-client/include/spdlog/details/mpmc_blocking_q.h:31-38 | critical section of the blocking enqueue: stores behind the stored messages if and only if fewer than the capacity are stored, and else changes nothing |
| `BlockingQueue.MpmcBlockingQueue.EnqueueNowait` | CS2RemoteConsole-client/include/spdlog/details/mpmc_blocking_q.h:41-47 | stores always; a full queue drops its oldest message for it |
| `BlockingQueue.MpmcBlockingQueue.EnqueueIfHaveRoom` | CS2RemoteConsole-client/include/spdlog/details/mpmc_blocking_q.h:49-64 | stores if and only if fewer messages than the capacity are stored; otherwise counts one discard and changes nothing else |
| `BlockingQueue.MpmcBlockingQueue.TryDequeue` | CS2RemoteConsole-client/include/spdlog/details/mpmc_blocking_q.h:68-90 | critical section of both dequeues: takes the oldest element if there is one |
| `BlockingQueue.MpmcBlockingQueue.ResetOverrunCounter` | CS2RemoteConsole-client/include/spdlog/details/mpmc_blocking_q.h:162-165 | clears the counter and leaves the stored messages |
| `BlockingQueue.StepKeepsWakeInv` | CS2RemoteConsole-client/include/spdlog/details/mpmc_blocking_q.h:31-90 | every step of every thread keeps: while a consumer sleeps, stored items ≤ notifications on their way + consumers about to look, and dually for free slots and sleeping producers; spurious wake-ups and timeouts included |
| `BlockingQueue.ReachableWakeInv` | CS2RemoteConsole-client/include/spdlog/details/mpmc_blocking_q.h:31-90 | hence in every reachable state, for any number of threads and any capacity |
| `BlockingQueue.StalledIffAllAtRest` | CS2RemoteConsole-client/include/spdlog/details/mpmc_blocking_q.h:31-90 | no queue operation can move by itself exactly when every thread sleeps or is outside the queue |
| `BlockingQueue.NeverAsleepWithWork` | CS2RemoteConsole-client/include/spdlog/details/mpmc_blocking_q.h:31-90 | no lost wake-up: when nothing moves by itself, a consumer sleeps only on an empty queue, a producer only on a full one, and not both for a capacity of at least 1 |
| `BlockingQueue.CapacityIsWhatItTakes` | CS2RemoteConsole-client/include/spdlog/details/mpmc_blocking_q.h:31-90 | producer and consumer can never wait for each other if and only if the capacity is at least 1 |
| `BlockingQueue.HangingRunHangs` | CS2RemoteConsole-client/include/spdlog/details/mpmc_blocking_q.h:31-38 | capacity 0: a run after which a blocking enqueue and a dequeue sleep and nothing can move |
| `BlockingQueue.HangingForEver` | CS2RemoteConsole-client/include/spdlog/details/mpmc_blocking_q.h:31-90 | from there neither call ever returns, whatever other threads do and however often the two are woken |
| `BlockingQueue.StepKeepsAccounted` | CS2RemoteConsole-client/include/spdlog/details/mpmc_blocking_q.h:31-167 | each step, resets of the counters included, keeps the balance posted = dequeued + queued + overrun + refused as multisets, and the order of what is left |
| `BlockingQueue.ReachableAccounted` | CS2RemoteConsole-client/include/spdlog/details/mpmc_blocking_q.h:31-90 | hence in every reachable state |
| `BlockingQueue.Conservation` | CS2RemoteConsole-client/include/spdlog/details/mpmc_blocking_q.h:49-167 | when no refusal is on its way to the counter: posted = dequeued + queued + what both counters have counted over all their resets; dequeued then queued is a subsequence of posting order, and equals it when nothing was counted |
| `BlockingQueue.BlockPolicyIsFifo` | CS2RemoteConsole-client/include/spdlog/details/mpmc_blocking_q.h:31-38 | with blocking posts only, dequeued followed by queued is exactly posting order at every moment of every run |
| `BlockingQueue.RefusesOnlyWhenFull` | CS2RemoteConsole-client/include/spdlog/details/mpmc_blocking_q.h:41-64 | a step refuses or overruns a message only if the queue is full |
| `BlockingQueue.NothingIsLostWithRoom` | CS2RemoteConsole-client/include/spdlog/details/mpmc_blocking_q.h:31-64 | so as long as no more has been posted than fits, nothing is refused or lost, for every mix of policies |
| `ThreadPool.PoolRunsAreQueueRuns` | CS2RemoteConsole-client/include/spdlog/details/thread_pool-inl.h:84-106 | every run of the pool is a run of the queue, one with blocking posts only if all of the pool's posts block, so everything proved of queue runs holds of pools |
| `ThreadPool.PoolBlockPolicyIsFifo` | CS2RemoteConsole-client/include/spdlog/details/thread_pool-inl.h:84-94 | with blocking posts a pool loses nothing and takes messages in posting order |
| `ThreadPool.PoolConserves` | CS2RemoteConsole-client/include/spdlog/details/thread_pool-inl.h:84-94 | conservation and order for a pool under any mix of the three overflow policies |
| `ThreadPool.StepKeepsRoles` | CS2RemoteConsole-client/include/spdlog/details/thread_pool-inl.h:45-106 | workers only dequeue, the destructor only posts blocking terminates, clients post nothing once it runs |
| `ThreadPool.StepKeepsMatched` | CS2RemoteConsole-client/include/spdlog/details/thread_pool-inl.h:45-129 | live workers = terminates not yet posted + terminates in flight, at every step of a shutdown |
| `ThreadPool.StepKeepsInOrder` | CS2RemoteConsole-client/include/spdlog/details/thread_pool-inl.h:45-56 | what was dequeued and is queued during shutdown is always what was queued when it began, followed by terminates |
| `ThreadPool.StepKeepsDelivered` | CS2RemoteConsole-client/include/spdlog/details/thread_pool-inl.h:104-129 | a dequeued message is either held by one worker or has been handled, never both, never twice |
| `ThreadPool.RunKeepsInv` | CS2RemoteConsole-client/include/spdlog/details/thread_pool-inl.h:45-129 | all of these hold along every run |
| `ThreadPool.ShutdownDrains` | CS2RemoteConsole-client/include/spdlog/details/thread_pool-inl.h:45-129 | capacity at least 1: when a shutdown cannot move any more, every worker has left its loop, all terminates are posted, the queue is empty, the messages queued at its start were dequeued in order before the terminates, and everything dequeued was handled exactly once |
| `ThreadPool.ShutdownTerminates` | CS2RemoteConsole-client/include/spdlog/details/thread_pool-inl.h:45-129 | a shutdown run is never longer than the work left at its start plus twice its stray wake-ups, so it reaches that end |
| `ThreadPool.NoRoomNoShutdown` | CS2RemoteConsole-client/include/spdlog/details/thread_pool-inl.h:45-56 | capacity 0: in no run does any worker ever leave, so the destructor never returns |
| `FlushOrder.SingleWorkerKeepsTheOrder` | CS2RemoteConsole-client/include/spdlog/details/thread_pool-inl.h:84-129 | one worker, any mix of overflow policies: what has been handled is a prefix of what was dequeued, all but at most one message, and a subsequence of what was posted |
| `FlushOrder.SingleWorkerHandlesInOrder` | CS2RemoteConsole-client/include/spdlog/details/thread_pool-inl.h:65-129 | one worker, blocking posts: what has been handled is at every moment a prefix of what was posted |
| `FlushOrder.FlushIsABarrier` | CS2RemoteConsole-client/include/spdlog/details/thread_pool-inl.h:65-117 | so when a flush has been handled, everything posted before it was handled before it, in order |
| `FlushOrder.FlushOvertakes` | CS2RemoteConsole-client/include/spdlog/details/thread_pool-inl.h:65-129 | with two workers or more there is a run in which a flush is handled before a message posted earlier |
| `FlushOrder.OrderNeedsASingleWorker` | CS2RemoteConsole-client/include/spdlog/details/thread_pool-inl.h:16-129 | for any capacity of at least 1 and any number of clients, handling in posting order holds in all runs if and only if there is one worker |
| `TrailingZeros.StrippedIsTheOnly` | CS2RemoteConsole-client/include/spdlog/fmt/bundled/format-inl.h:1137-1156 | the specification pins one answer: n = n'·10^k with n' not divisible by 10 has only one solution |
| `Bits.BitByBit` | CS2RemoteConsole-client/include/spdlog/fmt/bundled/format-inl.h:161-167 | the recursive "or" and "and" on naturals are the bitwise ones, bit for bit |
| `Bits.OrIsSum` | CS2RemoteConsole-client/include/spdlog/fmt/bundled/format-inl.h:161-167 | numbers that do not overlap: "or" is addition |
| `Bits.RotrMovesTheLowBits` | CS2RemoteConsole-client/include/spdlog/fmt/bundled/format-inl.h:161-167 | rotr as written, with two shifts and an "or", moves the low bits of a word to the top; for every word length |
| `TrailingZeros.RotationIsSum` | CS2RemoteConsole-client/include/spdlog/fmt/bundled/format-inl.h:161-167 | the four rotations of the source, as written, are the sums that the divisibility proofs compute with |
| `TrailingZeros.Hundred32` | CS2RemoteConsole-client/include/spdlog/fmt/bundled/format-inl.h:1137-1148 | 32 bits: multiplying by the inverse of 25 and rotating by 2 gives at most (2^32−1)/100 exactly when 100 divides, and then the quotient |
| `TrailingZeros.Ten32` | CS2RemoteConsole-client/include/spdlog/fmt/bundled/format-inl.h:1149-1154 | the same for 10 |
| `TrailingZeros.Hundred64` | CS2RemoteConsole-client/include/spdlog/fmt/bundled/format-inl.h:1176-1185 | 64 bits, 100 |
| `TrailingZeros.Ten64` | CS2RemoteConsole-client/include/spdlog/fmt/bundled/format-inl.h:1186-1191 | 64 bits, 10 |
| `TrailingZeros.DivideBy100IsExact` | CS2RemoteConsole-client/include/spdlog/fmt/bundled/format-inl.h:242-244 | the reciprocal division is n / 100 for every 32-bit n |
| `TrailingZeros.DivideBy1000IsExact` | CS2RemoteConsole-client/include/spdlog/fmt/bundled/format-inl.h:247-249 | the 64-bit form is n / 1000 exactly except when n ends in 999 and is at least 15534100272597517999 |
| `TrailingZeros.DivideBy1000Fails` | CS2RemoteConsole-client/include/spdlog/fmt/bundled/format-inl.h:247-249 | the smallest input that comes out wrong, by one |
| `TrailingZeros.CheckDivisibilityBy10` | CS2RemoteConsole-client/include/spdlog/fmt/bundled/format-inl.h:208-240 | quotient and divisibility by 10 for every n ≤ 100 |
| `TrailingZeros.CheckDivisibilityBy100` | CS2RemoteConsole-client/include/spdlog/fmt/bundled/format-inl.h:208-240 | quotient and divisibility by 100 for every n ≤ 1000 |
| `TrailingZeros.TestByTenToTheEighth` | CS2RemoteConsole-client/include/spdlog/fmt/bundled/format-inl.h:1158-1168 | the test with ceil(2^90/10^8) is exact for every 64-bit n, and the upper part is n / 10^8 |
| `TrailingZeros.WhenTheCountIsRight` | CS2RemoteConsole-client/include/spdlog/fmt/bundled/format-inl.h:1137-1156 | the count that sets its lowest bit for the last zero is right if and only if it starts even or an even number is removed, and else one too small |
| `TrailingZeros.OddStartMiscounts` | CS2RemoteConsole-client/include/spdlog/fmt/bundled/format-inl.h:1149-1153 | starting at 1, the zero of 10 is not counted |
| `TrailingZeros.RemoveTrailingZeros32` | CS2RemoteConsole-client/include/spdlog/fmt/bundled/format-inl.h:1137-1156 | all zeros are removed, and the count is as above |
| `TrailingZeros.RemoveTrailingZeros64` | CS2RemoteConsole-client/include/spdlog/fmt/bundled/format-inl.h:1158-1193 | for every nonzero 64-bit n: the assertion in the 32-bit form fails exactly if 10^8 divides n and the low half of n / 10^8 is 0; result and count are right if and only if 10^8 does not divide n or n < 2^32·10^8; otherwise they are those of the truncated quotient |
| `TrailingZeros.TruncatedInputs` | CS2RemoteConsole-client/include/spdlog/fmt/bundled/format-inl.h:1166-1173 | one input for each way of going wrong |
| `DurationCast.ConversionIsExact` | CS2RemoteConsole-client/include/spdlog/fmt/bundled/chrono.h:71-142 | for any two widths and signs the conversion fails only when the target does not have the value, and never changes it |
| `DurationCast.IntermediateRepIsCommon` | CS2RemoteConsole-client/include/spdlog/fmt/bundled/chrono.h:211-214 | the intermediate type has the value bits of the widest of the three types and is signed unless that takes all 64 bits |
| `DurationCast.Scale` | CS2RemoteConsole-client/include/spdlog/fmt/bundled/chrono.h:218-233 | the multiplication is refused exactly when the product does not fit |
| `DurationCast.SafeDurationCast` | CS2RemoteConsole-client/include/spdlog/fmt/bundled/chrono.h:191-243 | ec = 0 if and only if count, product and quotient fit their types, and then the result is the product divided by den, truncated; otherwise 0 |
| `Calendar.DaysBeforeClosedForm` | CS2RemoteConsole-client/include/spdlog/details/os-inl.h:283-288 | days before a year, summed over year lengths in either direction, equal 365 per year plus the leap-day formula |
| `GmtOffset.OffsetIsTheDifference` | CS2RemoteConsole-client/include/spdlog/details/os-inl.h:272-296 | the closed form is the difference in seconds of the two civil times if and only if both or neither year is one of the misrounded ones before year 1; always for years from 1 on |
| `GmtOffset.WrongAtTheTurnOfACentury` | CS2RemoteConsole-client/include/spdlog/details/os-inl.h:284-285 | an offset of one hour that comes out as a day and an hour |
| `IsoWeek.IsoYearWeeksIsRight` | CS2RemoteConsole-client/include/spdlog/fmt/bundled/chrono.h:1225-1233 | 52 or 53 is the number of the year's last Thursday-based week if and only if the year is not a long year before year 0 |
| `IsoWeek.IsoWeekNumIsThursday` | CS2RemoteConsole-client/include/spdlog/fmt/bundled/chrono.h:1235-1237 | the raw week number is 1 + (Thursday − first day) / 7, below 1 exactly when the Thursday lies in the year before |
| `IsoWeek.WhenTheIsoWeekIsRight` | CS2RemoteConsole-client/include/spdlog/fmt/bundled/chrono.h:1225-1252 | for every day of every year: the computed date is the one whose year contains the Thursday of the week and whose number is that of the Thursday in it (section 4.1.4 of ISO 8601:2004), if and only if the day is not in week 53 of a year before year 0 |
| `IsoWeek.IsoWeekIsThursdayBased` | CS2RemoteConsole-client/include/spdlog/fmt/bundled/chrono.h:1225-1252 | so it always is from year 1 on, and 1 ≤ week ≤ weeks of that year |
| `IsoWeek.LostThursday` | CS2RemoteConsole-client/include/spdlog/fmt/bundled/chrono.h:1225-1252 | one of the days that come out wrong |
| `IsoWeek.TrueWeeksOfLongYears` | CS2RemoteConsole-client/include/spdlog/fmt/bundled/chrono.h:1225-1233 | a year has 53 weeks exactly when it starts on a Thursday, or on a Wednesday and is a leap year |
| `FormatString.ParseNonnegativeInt` | CS2RemoteConsole-client/include/spdlog/fmt/bundled/core.h:2172-2196 | the accumulator wraps at 32 bits, yet the result is the number or the error value, as decided by at most ten digits and INT_MAX |
| `FormatString.OverflowCheckIsExact` | CS2RemoteConsole-client/include/spdlog/fmt/bundled/core.h:2188-2196 | the error value is returned exactly for the numbers above INT_MAX if and only if the number is above INT_MAX or has at most ten digits |
| `FormatString.LeadingZerosAreRefused` | CS2RemoteConsole-client/include/spdlog/fmt/bundled/core.h:2188-2196 | 00000000001 is refused although it denotes 1 |
| `FormatString.ParseShort` | CS2RemoteConsole-client/include/spdlog/fmt/bundled/core.h:2523-2544 | the loop for short strings meets its specification: same callbacks, order and first error |
| `FormatString.Write` | CS2RemoteConsole-client/include/spdlog/fmt/bundled/core.h:2545-2560 | the writer passes on a stretch in pieces that end at doubled closing braces, or fails at a single one |
| `FormatString.TextIsWritten` | CS2RemoteConsole-client/include/spdlog/fmt/bundled/core.h:2545-2560 | the writer's pieces are, but for empty ones, what the simple loop hands over on the same stretch |
| `FormatString.ParseLong` | CS2RemoteConsole-client/include/spdlog/fmt/bundled/core.h:2561-2570 | the memchr loop meets its specification |
| `FormatString.LoopsAgree` | CS2RemoteConsole-client/include/spdlog/fmt/bundled/core.h:2523-2570 | from any position and handler state both loops make the same calls up to the first error, empty text apart |
| `FormatString.LoopsAgreeExactlyWhen` | CS2RemoteConsole-client/include/spdlog/fmt/bundled/core.h:2523-2570 | the 32-character threshold is unobservable for a handler if and only if empty text means nothing to it |
| `FormatString.ParseFormatString` | CS2RemoteConsole-client/include/spdlog/fmt/bundled/core.h:2523-2570 | for such handlers the function is the simple loop at every length |
| `FormatString.EscapeRoundTrip` | CS2RemoteConsole-client/include/spdlog/fmt/bundled/core.h:2526-2544 | text with doubled braces parses back to itself, for every text |
| `FormatMeaning.FormatterMeansThePieces` | CS2RemoteConsole-client/include/spdlog/fmt/bundled/core.h:2211-2544 | strings written from text, "{}" and "{n}": the runtime formatter prints the text and the arguments that these fields stand for, and fails exactly for a missing argument or a mix of both kinds of fields |
| `FormatMeaning.AcceptedIffWritten` | CS2RemoteConsole-client/include/spdlog/fmt/bundled/core.h:2211-2544 | a string without a colon is accepted if and only if it is written in this way, with arguments for all its fields |
| `FormatMeaning.NumberedFieldIsPrinted` | CS2RemoteConsole-client/include/spdlog/fmt/bundled/core.h:2211-2228 | "{n}" prints argument n, whatever text stands around it |
| `FormatMeaning.FieldsPrintTheArguments` | CS2RemoteConsole-client/include/spdlog/fmt/bundled/core.h:2486-2520 | k fields "{}" print the first k arguments in order |
| `FormatMeaning.NumberIsRead` | CS2RemoteConsole-client/include/spdlog/fmt/bundled/core.h:2211-2228 | a written index is the number it denotes, cut to INT_MAX, in front of a brace or a colon |
| `FormatMeaning.WidthIsRead` | CS2RemoteConsole-client/include/spdlog/fmt/bundled/core.h:2276-2281 | a dynamic width in digits is that number, and refused above INT_MAX |
| `FormatMeaning.NextWidthIsTaken` | CS2RemoteConsole-client/include/spdlog/fmt/bundled/core.h:2282-2288 | "{}" as a width takes the next argument unless arguments are numbered |
| `FormatMeaning.NumberedWidthIsTaken` | CS2RemoteConsole-client/include/spdlog/fmt/bundled/core.h:2282-2288 | "{n}" as a width takes argument n unless an automatic one was taken before |
| `CompiledFormat.DynamicSpecsAreLawful` | CS2RemoteConsole-client/include/spdlog/fmt/bundled/core.h:2271-2303 | the part of the specifier parser that takes arguments obeys the assumption the compiler theorem makes about specifiers |
| `CompiledFormat.HandOverText` | CS2RemoteConsole-client/include/spdlog/fmt/bundled/core.h:2523-2544 | for the formatting handler text may be handed over at any point: output, ids and success are the same |
| `CompiledFormat.TailAgrees` | CS2RemoteConsole-client/include/spdlog/fmt/bundled/compile.h:242-254 | concatenating a piece with the compiled tail formats as the piece followed by the rest of the run |
| `CompiledFormat.SpecsAgree` | CS2RemoteConsole-client/include/spdlog/fmt/bundled/compile.h:314-340 | a field with specifiers: compiled from the types alone, same text, same following argument id |
| `CompiledFormat.CompileAgrees` | CS2RemoteConsole-client/include/spdlog/fmt/bundled/compile.h:343-408 | from any position and argument-id state, compiled tree and runtime formatter append the same text |
| `CompiledFormat.CompilerIsCorrect` | CS2RemoteConsole-client/include/spdlog/fmt/bundled/compile.h:343-425 | every string the runtime formatter accepts with unnamed arguments compiles, and the tree formats to the same output |
| `CompiledAcceptance.WhenCompiledIsAccepted` | CS2RemoteConsole-client/include/spdlog/fmt/bundled/compile.h:314-408 | of the strings that compile, with arguments that format, the runtime formatter accepts exactly those in which every closing brace outside of a field is doubled and the specifiers of every field with a written index still parse when no automatic argument may be drawn |
| `CompiledFormat.UnpairedBraceCompiles` | CS2RemoteConsole-client/include/spdlog/fmt/bundled/compile.h:394-397 | a string of the first kind: "}x" compiles but is refused at run time |
| `CompiledAcceptance.NextArgumentCompiles` | CS2RemoteConsole-client/include/spdlog/fmt/bundled/compile.h:326-333 | a string of the second kind: so does "{0:{}}" |
| `RotatingSink.SplitsAtTheExtension` | CS2RemoteConsole-client/include/spdlog/details/file_helper-inl.h:131-149 | the name is split at the last dot of its last component, unless that dot is the component's first or the name's last character; otherwise it stays whole |
| `RotatingSink.CalcFilenameInjective` | CS2RemoteConsole-client/include/spdlog/sinks/rotating_file_sink-inl.h:55-64 | different indices give different file names, for every base name |
| `RotatingSink.NumberBeforeTheExtension` | CS2RemoteConsole-client/include/spdlog/sinks/rotating_file_sink-inl.h:55-64 | the number stands between stem and extension, after a dot |
| `RotatingSink.NumberAtTheEnd` | CS2RemoteConsole-client/include/spdlog/sinks/rotating_file_sink-inl.h:55-64 | without an extension it stands at the end |
| `RotatingSink.RotationDropsOneFile` | CS2RemoteConsole-client/include/spdlog/sinks/rotating_file_sink-inl.h:103-131 | reading from the highest index down, a rotation loses the last file if something moves onto it and otherwise nothing, for any gaps |
| `RotatingSink.MessageIsAppended` | CS2RemoteConsole-client/include/spdlog/sinks/rotating_file_sink-inl.h:73-90 | one log call appends the message and loses at most that one file |
| `RotatingSink.LogIsASuffix` | CS2RemoteConsole-client/include/spdlog/sinks/rotating_file_sink-inl.h:73-131 | after any run, from any files, the pieces read from the highest index down are a suffix of the initial pieces followed by all messages: none is split, repeated or reordered |
| `RotatingSink.TextIsASuffix` | CS2RemoteConsole-client/include/spdlog/sinks/rotating_file_sink-inl.h:73-131 | the same for the characters in the files |
| `RotatingSink.WhatIsKept` | CS2RemoteConsole-client/include/spdlog/sinks/rotating_file_sink-inl.h:73-131 | exactly what a run keeps, from files without gaps: after r rotations the files up to index k hold, if r ≤ k, the earlier files up to index k − r and all messages, and otherwise the messages since the one that caused rotation r − k; so file k is lost at the rotation after the next max_files − k and not before |
| `RotatingSink.ShortRunsDoNotRotate` | CS2RemoteConsole-client/include/spdlog/sinks/rotating_file_sink-inl.h:73-90 | as long as the base file and all messages together stay within max_size, messages are only appended to the base file |
| `RotatingSink.SizesStayBounded` | CS2RemoteConsole-client/include/spdlog/sinks/rotating_file_sink-inl.h:73-90 | after any run every file is within max_size or holds text of one piece only, a too long message or an initial file |
| `RotatingSink.OverLimitIsOnePiece` | CS2RemoteConsole-client/include/spdlog/sinks/rotating_file_sink-inl.h:73-90 | what that bound means: a file over the limit is exactly one message or one initial file |
| `RotatingSink.RotatingFileSink.Open` | CS2RemoteConsole-client/include/spdlog/sinks/rotating_file_sink-inl.h:27-50 | opening creates the base file or appends to it, rotates a non-empty one if asked, and starts with the real size; other files are untouched |
| `RotatingSink.RotatingFileSink.Create` | CS2RemoteConsole-client/include/spdlog/sinks/rotating_file_sink-inl.h:37-43 | fails exactly for max_size 0, more than 200000 files or an empty name |
| `RotatingSink.RotatingFileSink.RenameFile` | CS2RemoteConsole-client/include/spdlog/sinks/rotating_file_sink-inl.h:136-141 | remove the target, move the source onto it |
| `RotatingSink.RotatingFileSink.Rotate` | CS2RemoteConsole-client/include/spdlog/sinks/rotating_file_sink-inl.h:103-131 | the descending loop of renames: every file but the last is under the next number afterwards, the base file is empty, no other file is touched; on pieces it is the rotation |
| `RotatingSink.RotatingFileSink.SinkIt` | CS2RemoteConsole-client/include/spdlog/sinks/rotating_file_sink-inl.h:73-90 | if base file and message together stay within max_size, or the base file is empty, the message is appended and nothing else changes; otherwise all files move up and the base file is the message; on pieces it is one log call, and current_size_ stays the real size |
| `VConsole.CreateCommandPayload` | libvconsole/src/vconsole.cpp:182-197 | the patched byte vector: type, version and handle as constants, the first 65522 bytes of the command, a NUL; its length field is its size, between 13 and 65535 |
| `VConsole.ReadOneFrame` | libvconsole/src/vconsole.cpp:59-90 | a read takes exactly one correctly labelled message off the stream |
| `VConsole.HostOrderTurnsTheNumbers` | libvconsole/src/vconsole.cpp:72-77 | the chunk in memory holds the numbers of the header with their low byte first |
| `VConsole.ReadingABeginning` | libvconsole/src/vconsole.cpp:59-90 | reads on any beginning of a stream of commands yield the chunks of the commands complete in it, in order, and nothing else |
| `VConsole.FramingRoundTrip` | libvconsole/src/vconsole.cpp:59-197 | reading back concatenated commands yields one chunk per command, in order, each the first 65522 bytes and a NUL |
| `VConsole.StreamsAreDecodable` | libvconsole/src/vconsole.cpp:182-197 | two lists of commands give the same bytes if and only if they agree after the cut |
| `VConsole.ReadsInsideIffThereIsACount` | libvconsole/src/vconsole.cpp:218-230 | for every chunk size, with the wrapping subtraction and the 16-bit count: the loop reads inside the chunk if and only if the size is at least 14 |
| `VConsole.ParseCHAN` | libvconsole/src/vconsole.cpp:218-258 | for every chunk size: the loop goes outside of the chunk if and only if the size is below 14, and else returns the channels of consecutive 58-byte records, numChannels of them |
| `VConsole.RecordRoundTrip` | libvconsole/src/vconsole.cpp:229-252 | an encoded channel is decoded to itself but for the last byte of its name, negative numbers included |
| `VConsole.ChannelsAreCutShort` | libvconsole/src/vconsole.cpp:218-258 | of n records exactly the first n − ceil(n/30) come back, each as it was sent but for the forced NUL; all of them if and only if n = 0 |
| `VConsole.ChannelsOverTheWire` | libvconsole/src/vconsole.cpp:59-258 | the same after the message has travelled through the stream with its header turned to host order |
| `VConsole.Connection.ReadChunk` | libvconsole/src/vconsole.cpp:59-90 | the socket method is the read on the stream, with its three result codes |
| `VConsole.Connection.ProcessIncomingData` | libvconsole/src/vconsole.cpp:92-153 | for every stream: handles exactly one message of any of the six types, with its effect on the state and its callback, or reports that there is none and changes nothing, or goes outside of a buffer |
| `VConsole.Connection.ProcessPacket` | libvconsole/src/vconsole.cpp:107-153 | each type reaches its parser, and what the parser found reaches the state and the callback |
| `VConsole.ParsePRNT` | libvconsole/src/vconsole.cpp:260-270 | for every chunk: fails if and only if no NUL ends the text, and else gives channel, colour and the ASCII characters of the text |
| `VConsole.PrintRoundTrip` | libvconsole/src/vconsole.cpp:107-270 | a message "PRNT" on the wire with any channel, colour and ASCII text is handled as exactly these, whatever the other bytes are |
| `VConsole.AdonRoundTrip` | libvconsole/src/vconsole.cpp:107-216 | a message "ADON" on the wire is handled as its name |
| `VConsole.CvarRoundTrip` | libvconsole/src/vconsole.cpp:107-289 | a message "CVAR" on the wire is handled as its variable, all six fields |
| `VConsole.ChanRoundTrip` | libvconsole/src/vconsole.cpp:107-258 | a message "CHAN" on the wire is handled as the first n − ceil(n/30) of its channels |
| `VConsole.SessionIsWhatWasReceived` | libvconsole/src/vconsole.cpp:107-153 | after any messages the variables are all that were received, in order, the add-on name is the last one, and each message has caused its own callback, in order |
| `VConsole.StrippedIsAscii` | libvconsole/src/vconsole.cpp:129-137 | stripping leaves ASCII and does not change it, so stripping a message a second time does nothing |
| `VConsole.ParseADON` | libvconsole/src/vconsole.cpp:208-216 | for every chunk: the name that the length field announces, if the chunk has it |
| `VConsole.ParsersNeedTheirSize` | libvconsole/src/vconsole.cpp:107-296 | a parser stays inside the chunk if and only if the chunk has what its type needs: 89 bytes for AINF, 14 for CHAN, 96 for CVAR, 141 for CFGV, 16 and the announced name for ADON, a NUL from byte 40 on for PRNT |
| `VConsole.WhenATurnGoesWrong` | libvconsole/src/vconsole.cpp:59-153 | a turn goes outside of a buffer exactly for a length field below 12 or a complete message without what its type needs |
| `VConsole.BarePrintGoesWrong` | libvconsole/src/vconsole.cpp:107-270 | a PRNT message that is a header only |
| `ColorCache.KeyInjective` | CS2RemoteConsole-client/src/tui/tui.cpp:366 | the packed 64-bit key determines both colours |
| `ColorCache.OrIsPlus` | CS2RemoteConsole-client/src/tui/tui.cpp:366 | the key as written, with shift, mask and "or", is the number that the other results are about |
| `ColorCache.BareColorIsNoKey` | CS2RemoteConsole-client/src/tui/tui.cpp:115-116 | the lookup by the bare colour never finds a coloured pair |
| `ColorCache.WhenIdsDiffer` | CS2RemoteConsole-client/src/tui/tui.cpp:380 | the first n numbers of the 16-bit counter differ if and only if n ≤ 65536 |
| `ColorCache.WhenIdsAreAPrefix` | CS2RemoteConsole-client/src/tui/tui.cpp:378-400 | the numbers in use are exactly 1 up to the counter, exclusive, if and only if fewer than 32767 pairs have been used |
| `ColorCache.PairsAreWantedOnce` | CS2RemoteConsole-client/src/tui/tui.cpp:105-199 | in any run of registrations and draws the cache holds only pairs that were asked for, each once, each with a nonzero colour |
| `ColorCache.NobodyIsTurnedAway` | CS2RemoteConsole-client/src/tui/tui.cpp:113-127 | while the terminal has room for all pairs of a run, every one of them gets a number |
| `ColorCache.RegistrationsStayBelow` | CS2RemoteConsole-client/src/tui/tui.cpp:113-127 | registrations alone never use up the numbers of a terminal whose limit is in the range of the counter |
| `ColorCache.NoLimitBeyondTheCounter` | CS2RemoteConsole-client/src/tui/tui.cpp:118 | a larger limit stops nothing |
| `ColorCache.ShownAsAsked` | CS2RemoteConsole-client/src/tui/tui.cpp:364-409 | for any number of pairs: a pair's number is its place in order of first use if and only if that is one of the first 32767, and the terminal shows the pair for its number if and only if it accepts the number and the number has not been given again, 65536 pairs later |
| `ColorCache.ColorTable.InitializeColor` | CS2RemoteConsole-client/src/tui/tui.cpp:364-409 | equal pairs always get the same number, a new pair the next one |
| `ColorCache.ColorTable.RegisterChannel` | CS2RemoteConsole-client/src/tui/tui.cpp:105-139 | a channel gets its pair's number exactly while the counter is below the limit, and 0 afterwards even if the pair has a number |
| `ColorCache.ColorTable.PairForMessage` | CS2RemoteConsole-client/src/tui/tui.cpp:173-199 | a message colour overrides the channel's number and is looked up without a limit |
| `ClientTable.RemovalUndoesEntry` | CS2RemoteConsole-server/src/server.cpp:125-282 | a client that enters the table is found there by its socket, behind all others; entering and removal leave the table as it was and one socket closed |
| `ClientTable.Server.RemoveClient` | CS2RemoteConsole-server/src/server.cpp:271-282 | closes and erases the first client with the socket, or does nothing |
| `ClientTable.Server.CleanupSockets` | CS2RemoteConsole-server/src/server.cpp:284-302 | closes every client in order, empties the table and closes the listening socket if it is open |
| `ClientTable.StepKeepsInv` | CS2RemoteConsole-server/src/server.cpp:84-302 | every step of the accepting thread, of any handler and of the main thread keeps the invariants of the table |
| `ClientTable.EveryConnectionOnce` | CS2RemoteConsole-server/src/server.cpp:84-302 | in every interleaving, whatever socket numbers handlers find behind their references, no socket is in the table twice, and every accepted connection is waiting, in the table or closed: one of the three, once |
| `ClientTable.WhenAReferenceIsGood` | CS2RemoteConsole-server/src/server.cpp:126-133 | a handler holds a reference to a slot of the vector's storage: it names the handler's own client if and only if the vector has not moved since that client entered, the client is still in it, and nothing before it has been erased since |
| `ClientTable.WhatAHandlerCloses` | CS2RemoteConsole-server/src/server.cpp:133-282 | a handler that ends closes the client its reference names, whichever that is |
| `ClientTable.ReferenceIsLost` | CS2RemoteConsole-server/src/server.cpp:126-133 | two clients: when the second enters, the vector moves and the first handler's reference names nothing, though its client is there and nothing was erased |
| `ClientTable.HandlerClosesAnother` | CS2RemoteConsole-server/src/server.cpp:133-282 | the third of four clients leaves and a fifth enters: the fourth handler's reference names the fifth client, which it closes, leaving its own open |
| `ClientTable.NothingIsLeftOpen` | CS2RemoteConsole-server/src/server.cpp:284-302 | after run and the destructor every accepted connection has been closed exactly once, and the listening socket once |
| `ClientTable.WhenTheFirstCleanupIsEnough` | CS2RemoteConsole-server/src/server.cpp:92-126 | after the first clean-up the table stays empty in every continuation if and only if no accepted connection was waiting to enter it |
| `ClientTable.FirstCleanupIsNotEnough` | CS2RemoteConsole-server/src/server.cpp:92-126 | a run in which one was |
| `ClientTable.JoinIsReached` | CS2RemoteConsole-server/src/server.cpp:92-98 | after the first clean-up the accepting thread is at most two of its own steps from its end, and nothing can add to them |
| `PatternFormatter.WhenTheWidthIsRight` | CS2RemoteConsole-client/include/spdlog/pattern_formatter-inl.h:1272-1286 | the parsed width is min(number, 64) if and only if the number is below 64 or its value modulo 2^64 is at least 64 |
| `PatternFormatter.WidthWraps` | CS2RemoteConsole-client/include/spdlog/pattern_formatter-inl.h:1272-1286 | the digits of 2^64 ask for no width at all |
| `PatternFormatter.NineteenDigitsAreSafe` | CS2RemoteConsole-client/include/spdlog/pattern_formatter-inl.h:1272-1286 | numbers of up to nineteen digits are safe |
| `PatternFormatter.PadReadsBack` | CS2RemoteConsole-client/include/spdlog/pattern_formatter-inl.h:1244-1287 | a pad spec is read in only one way |
| `PatternFormatter.HandlePadspec` | CS2RemoteConsole-client/include/spdlog/pattern_formatter-inl.h:1244-1287 | the iterator loop returns the padding of the spec at its position and stops behind it |
| `PatternFormatter.ReadingIsLossless` | CS2RemoteConsole-client/include/spdlog/pattern_formatter-inl.h:1289-1323 | the items read from any pattern, written down in order, are the pattern |
| `PatternFormatter.PatternsReadBack` | CS2RemoteConsole-client/include/spdlog/pattern_formatter-inl.h:1289-1323 | every well-formed list of items is read back from its text, so patterns and items correspond one to one |
| `PatternFormatter.UnknownFlagIsPrinted` | CS2RemoteConsole-client/include/spdlog/pattern_formatter-inl.h:1218-1237 | an unknown flag is printed with its percent sign but without its pad spec; after a "!" the function name is printed with the width instead, and the flag behind it |
| `PatternFormatter.FieldFlagIsPrinted` | CS2RemoteConsole-client/include/spdlog/pattern_formatter-inl.h:1008-1216 | for each case label that prints a field: the field with the padding of its spec, under the name of its formatter, where h, x and X are other names of b, D and T |
| `PatternFormatter.OtherFlagIsPrinted` | CS2RemoteConsole-client/include/spdlog/pattern_formatter-inl.h:1008-1216 | the five other case labels: the full line and the colour marks ignore the padding, %% is a percent sign, & the diagnostic context |
| `PatternFormatter.CustomFlagIsPrinted` | CS2RemoteConsole-client/include/spdlog/pattern_formatter-inl.h:998-1005 | a flag of the user takes precedence and gets the padding |
| `PatternFormatter.UnknownFlags` | CS2RemoteConsole-client/include/spdlog/pattern_formatter-inl.h:1008-1218 | unknown are exactly the flags that are no case label |
| `PatternFormatter.PatternOfOneFlag` | CS2RemoteConsole-client/include/spdlog/pattern_formatter-inl.h:1289-1323 | the pattern that is a percent sign, any pad spec and any flag is compiled to that item |
| `PatternFormatter.BareFlagIsPrinted` | CS2RemoteConsole-client/include/spdlog/pattern_formatter-inl.h:1008-1216 | so "%v" prints the message, and likewise for every such flag |
| `PatternFormatter.UnfinishedSpecIsDropped` | CS2RemoteConsole-client/include/spdlog/pattern_formatter-inl.h:1300-1310 | a percent sign and a pad spec at the end of a pattern print nothing |
| `PatternFormatter.PatternCompiler.CompilePattern` | CS2RemoteConsole-client/include/spdlog/pattern_formatter-inl.h:1289-1323 | the compiled list is the meaning of the items in order; an unfinished spec at the end adds nothing |
| `PatternFormatter.CompiledPadsFit` | CS2RemoteConsole-client/include/spdlog/pattern_formatter-inl.h:1244-1323 | no pattern makes the padder ask for more than its 64 spaces |
| `PatternFormatter.FieldShape` | CS2RemoteConsole-client/include/spdlog/pattern_formatter-inl.h:38-83 | a field is max(text, width) long, or exactly width with "!"; it is the text with the spaces on the side asked for (the odd one right), or the prefix that fits |
| `PatternFormatter.WhereTheTextGoes` | CS2RemoteConsole-client/include/spdlog/pattern_formatter-inl.h:48-1266 | "-" puts all spaces behind the text, "=" half of them with the odd one behind, and no sign all of them before it |
| `PatternFormatter.PadderMakesTheField` | CS2RemoteConsole-client/include/spdlog/pattern_formatter-inl.h:40-71 | what constructor and destructor of the padder do around a text whose length was announced makes that field |
| `PatternFormatter.WhenTheFieldIsRight` | CS2RemoteConsole-client/include/spdlog/pattern_formatter-inl.h:40-71 | with any announced size: the field comes out like that if and only if the size is the length of the text, or the field is wide open and there is nothing to pad or to cut |
| `PatternFormatter.ScopedPadder.constructor` | CS2RemoteConsole-client/include/spdlog/pattern_formatter-inl.h:40-57 | appends the left part of the padding and keeps the rest |
| `PatternFormatter.ScopedPadder.Close` | CS2RemoteConsole-client/include/spdlog/pattern_formatter-inl.h:64-71 | appends the rest, or truncates, or asks for a negative size |
| `PatternFormatter.UnpaddedMdcIsJoined` | CS2RemoteConsole-client/include/spdlog/pattern_formatter-inl.h:787-827 | without padding the diagnostic context is printed as one text, entries separated by spaces |
| `PatternFormatter.ShortMdcIsOneField` | CS2RemoteConsole-client/include/spdlog/pattern_formatter-inl.h:795-826 | a context of at most one entry is one padded field |
| `PatternFormatter.EntriesArePadded` | CS2RemoteConsole-client/include/spdlog/pattern_formatter-inl.h:807-826 | with padding every entry is a field of its own, so n entries are at least, with "!" exactly, n times the width long |
| `PatternFormatter.PatternCompiler.Format` | CS2RemoteConsole-client/include/spdlog/pattern_formatter-inl.h:964-979 | runs the formatters in order on the buffer and appends the line end; if all sizes are announced right, what is appended is the fields one after the other |
| `PatternFormatter.EscapedTextIsPrinted` | CS2RemoteConsole-client/include/spdlog/pattern_formatter-inl.h:1289-1323 | text with doubled percent signs is printed unchanged, unless the user has taken the flag % |

## Left out

- ChannelsAreCutShort: is about chunks of at most 65535 bytes, which is all that the 16-bit length field can announce; beyond that the 16-bit count wraps as `ParseCHAN` states.
- CompilerIsCorrect: covers arguments without names, and specifier parsers that treat positions and argument ids as `Lawful` says; the grammar of the specifiers apart from dynamic width and precision is not modelled.
- ParseFormatString: a handler's error ends the parse, as with the library's throwing handlers; handlers that record an error and go on are not modelled.
- ShutdownDrains: reads "cannot move any more" without stray wake-ups, which can go on for ever by themselves.
- LogIsASuffix: renames and removals succeed, and nobody else changes the sink's files.
- JoinIsReached: assumes that `accept` does not block, which is how the listening socket is set up.
- The variant of the queue for MinGW, which notifies under the lock, and counters that overflow `size_t`.
- The contents of log messages, moved-from messages and exceptions from sinks or thread callbacks.
- Weak memory ordering: a critical section is one step, and an atomic counter is sequentially consistent.
- Posts that arrive while the pool is being destroyed: loggers hold the pool weakly, so there are none.
- The rest of Dragonbox (power tables, `to_decimal`), locales, Unicode tables, floating-point and 128-bit formatting, chrono format strings.
- Windows path separators, the daily and hourly sinks, file event handlers and retries of `open`.
- Sockets and curses themselves, partial receives that are resumed later, the fields of AINF and CFGV messages, which are parsed and dropped, and name matching of channels.
- Mapping of colours to the 256-colour palette and the numbers of extended colours.
- `Server::start`, messages of clients and broadcasts, what a handler reads through a reference that names no entry (any socket number is allowed for), and handlers that outlive the server.
- The client's connection threads, which poll plain flags.
- Custom flag formatters beyond their padding, time caching and `need_localtime` in the pattern formatter.
