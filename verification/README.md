# Verified models of the worker pools, the configuration parser and the logging core

fileCacheProxy hands its requests to a pool of worker threads, reads its settings from a file of `key = value`
lines, and writes its log through spdlog, whose sources it ships. This project models the parts of that code which
carry state, and proves in Dafny what they keep over every run.

| file | what it models |
|---|---|
| `BoundedSeq.dfy`, `CircularQ.dfy` | the wrap-around queue, and the bounded sequence that it refines |
| `RingbufferSink.dfy`, `Backtracer.dfy`, `DailyFileSink.dfy` | its three clients: two histories and the retention of daily files |
| `QueueLog.dfy`, `BlockingQueue.dfy` | the blocking queue, and the history of everything that went through it |
| `SpdlogThreadPool.dfy` | the asynchronous logging pool and its shutdown by terminate messages |
| `StdThreadPool.dfy` | the proxy's own task pool: one lock, one condition variable, a flag cleared without the lock |
| `FileNames.dfy`, `RotatingFileSink.dfy` | the names and the rotation of log files, over a file system that may fail |
| `Padding.dfy`, `PatternCompiler.dfy`, `PatternFormatter.dfy` | the log pattern language: padder, compiler, formatter and time caches |
| `PatternMeaning.dfy`, `LogLines.dfy` | what each directive prints, and the lines of the full format and of the proxy's own log |
| `SafeDurationCast.dfy` | checked integer conversion and checked duration arithmetic |
| `ConfigReader.dfy` | the configuration parser |
| `SeqFacts.dfy`, `Arithmetic.dfy`, `Decimal.dfy`, `Summing.dfy` | facts used by the others |

Both pools are step relations: a step is one locked section, one notification, or one access to an atomic, and a run is
any sequence of enabled steps of any number of threads. Beside each stands a class with the code of one thread, proved
against the steps. The other objects that change their fields are classes: each method is proved against a function on
values, and the properties are proved of that function. Failures of the operating system, timeouts, spurious wakeups
and the choice of the thread a notification wakes are all left open.

## What is not as one might expect

These are properties that one would like to hold and that the code does not have. For each the exact condition is
proved.

- A queue of the greatest `size_t` capacity is disabled: the extra slot wraps to zero (`Circular.SlotsHonourCapacity`).
- A logging pool's destructor can return if and only if its queue has room for a message
  (`SpdlogThreadPool.DestructorCanReturn`). With capacity 0 the first terminate message is blocked for good; a disabled
  queue swallows it.
- The task pool clears `_run` without the lock. A worker between a failed test of its condition and its wait misses the
  only wakeup and sleeps on. Under every schedule, spurious wakeups and refused commits included, all workers have
  exited when nothing more can happen by itself, if and only if at the moment `notify_all` is sent no worker is between a
  failed test and its wait, or some commit has passed its check of `_run` and has yet to queue its task; that commit then
  wakes the worker (`StdThreadPool.ShutdownReleasesAll`). A state without this is reachable
  (`StdThreadPool.ShutdownRaceIsReachable`).
- A task pool of size 0, which its constructor accepts, never runs a task. With producers, every task is done whenever
  a running pool rests if and only if the size is not 0 (`StdThreadPool.DoneExactlyWithThreads`).
- The daily sink does not always retain the last files. It does, over every run of rotations, if and only if no
  rotation removes a file whose name comes back among the next names queued (`DailyRetention.RetainedByNames`). A sink
  for one file that is made before the rotation hour removes the file it writes to when that hour comes
  (`DailyRetention.SameDayRemovesCurrent`).
- The daily sink does not always delete the previous files. It does, over every run, if and only if no rotation leaves
  one behind (`DailyRetention.DeletedThroughout`): a failed removal does, and so does a message that cannot be written,
  because its new file is then never queued. Such a file stays for good (`DailyRetention.LeftOverStays`).
- Until a message lies outside second 0 of the epoch, the pattern formatter prints the all-zero time it was made with
  (`PatternFormatting.CachedTimeIsRight`).
- Printing is compositional for a pattern, before every other pattern, if and only if the first does not end inside a
  directive (`PatternCompiler.CompositionalExactlyIfComplete`). An incomplete one prints a percent sign more when `%`
  follows, although `%` alone prints nothing.
- A pad width is clamped to 64 except when the number wraps round `size_t` to less than 64
  (`PatternCompiler.WidthIsClamped`). The number two above the greatest `size_t` is read as 1
  (`PatternCompiler.WideIsReadNarrow`).
- A formatter that declares the wrong length is padded wrongly, with one harmless exception (`Padding.PaddingLaw`). The
  `%D` field declares ten characters and writes eight, so that truncation eats what stands before it
  (`Padding.ShortDateEatsItsNeighbour`).
- Loading a configuration that could be opened never ends if and only if the file has a line of 100 or more characters
  or a read fails before its end (`ConfigReader.Config.Load`): the loop waits for the end of the file, and a stream that
  has failed before it never gets there.
- The checked duration cast refuses a negative count on its way to an unsigned 64-bit target even before it is scaled
  (`SafeDurationCast.IntermediateTakes`).

Where comments and code disagree, the model follows the code:

- include/spdlog/details/mpmc_blocking_q.h:8 says that `enqueue_nowait` returns false when there is no room. It returns
  nothing and overruns the oldest message (lines 42-50).
- include/spdlog/details/circular_q.h:56 speaks of overrunning the last item. It is the oldest one.
- include/spdlog/sinks/rotating_file_sink-inl.h:87 says that the oldest file is deleted. It stays when no file moves
  into its place.

## Model

| member | source | states |
|---|---|---|
| Circular.SlotsHonourCapacity | include/spdlog/details/circular_q.h:27-30 | every capacity is honoured except the greatest, which gives a disabled queue |
| Circular.CircularQ.Disabled | include/spdlog/details/circular_q.h:24-25 | the default queue is empty and has no slots |
| Circular.CircularQ.constructor | include/spdlog/details/circular_q.h:27-30 | a new queue is empty, with one slot more than items, in size_t arithmetic |
| Circular.CircularQ.Move | include/spdlog/details/circular_q.h:37-40 | contents, slots and counter pass to the new queue; the old one is disabled and empty |
| Circular.CircularQ.CopyMoveable | include/spdlog/details/circular_q.h:124-138 | moving transfers contents, array and counter and leaves the source disabled and empty; a queue moved onto itself is disabled |
| Circular.CircularQ.PushBack | include/spdlog/details/circular_q.h:48-62 | the contents become the last items of the old ones and the new one, as many as fit; the counter goes up exactly when the queue was full |
| Circular.CircularQ.PopFront | include/spdlog/details/circular_q.h:97-102 | drops the oldest item and nothing else |
| Circular.CircularQ.Front | include/spdlog/details/circular_q.h:64-74 | gives the oldest item |
| Circular.CircularQ.At | include/spdlog/details/circular_q.h:89-95 | gives item i of the contents across the end of the array |
| Circular.CircularQ.Size | include/spdlog/details/circular_q.h:76-87 | is the number of items held |
| Circular.CircularQ.Empty | include/spdlog/details/circular_q.h:104-107 | says whether the contents are empty |
| Circular.CircularQ.IsFull | include/spdlog/details/circular_q.h:109-117 | says whether an enabled queue holds all the items it has room for |
| BoundedSeq.PushAllIsWindow | include/spdlog/details/circular_q.h:48-62 | after any number of pushes the queue holds the last items ever pushed, as many as fit |
| BoundedSeq.PushAllConserves | include/spdlog/details/circular_q.h:48-62 | items held and pushed before equal items held now plus overruns |
| BoundedSeq.LastNAbsorbs | include/spdlog/details/circular_q.h:48-62 | dropping old items early does not change which items are held later |
| BoundedSeq.LastNIsTheEnd | include/spdlog/details/circular_q.h:48-62 | the items kept are as many as fit, from the end |
| Ringbuffer.RingbufferSink.SinkIt | include/spdlog/sinks/ringbuffer_sink.h:59-62 | the buffer stays the last messages of the whole history |
| Ringbuffer.RingbufferSink.LastRaw | include/spdlog/sinks/ringbuffer_sink.h:28-40 | gives the last min(lim, logged, capacity) messages in order, all that are held for limit 0 |
| Ringbuffer.RingbufferSink.LastFormatted | include/spdlog/sinks/ringbuffer_sink.h:42-56 | gives the same window formatted message by message |
| Ringbuffer.WindowIsLatest | include/spdlog/sinks/ringbuffer_sink.h:28-40 | the window is a suffix of the history, of exactly the promised length |
| Backtrace.Backtracer.Enable | include/spdlog/details/backtracer-inl.h:33-38 | forgets what was held and starts over with room for the given number of messages |
| Backtrace.Backtracer.PushBack | include/spdlog/details/backtracer-inl.h:51-55 | the buffer stays the last messages pushed since it was enabled or drained |
| Backtrace.Backtracer.ForeachPop | include/spdlog/details/backtracer-inl.h:58-67 | visits exactly the last min(k, n) messages, oldest first, ends, and leaves the buffer empty |
| DailyRetention.RecentFiles | include/spdlog/sinks/daily_file_sink.h:130-141 | finds the files of the most recent days without a gap, up to the limit, and stops at the first missing one |
| DailyRetention.QueueOldestFirst | include/spdlog/sinks/daily_file_sink.h:142-145 | puts the names found into the queue in reverse, none overrun |
| DailyRetention.DailyFileSink.constructor | include/spdlog/sinks/daily_file_sink.h:80-88 | the file of today is opened, the queue starts with the recent files, oldest first, and all of them are on the disk |
| DailyRetention.DailyFileSink.SinkIt | include/spdlog/sinks/daily_file_sink.h:98-117 | a message at or after the rotation time opens its file, which is then on the disk, and applies the retention rule last, unless it cannot be formatted and written; another message changes no file names |
| DailyRetention.DailyFileSink.DeleteOld | include/spdlog/sinks/daily_file_sink.h:169-189 | over every sequence of calls, failed removals included: the queue is the last names enqueued, nothing is overrun, only the oldest name held is given to removal, when the queue was full, and no other file leaves the disk |
| DailyRetention.RetainsExactly | include/spdlog/sinks/daily_file_sink.h:98-189 | a rotation keeps every file named in the queue if and only if it does not remove one whose name occurs again behind the front or is that of the file just opened |
| DailyRetention.RetainedThroughout | include/spdlog/sinks/daily_file_sink.h:60-189 | over every run of rotations every file named in the queue stays on the disk if and only if no rotation is of that kind |
| DailyRetention.RetainedByNames | include/spdlog/sinks/daily_file_sink.h:60-189 | the same, stated on the names and the answers to removals alone: no removed name occurs again among the next max_files names queued |
| DailyRetention.DistinctNamesStay | include/spdlog/sinks/daily_file_sink.h:60-189 | when no name is queued twice the last files are retained |
| DailyRetention.LeavesOverExactly | include/spdlog/sinks/daily_file_sink.h:98-189 | a rotation leaves a file of the sink outside the queue exactly when its message is not written or a removal fails, the file not being queued or foreign |
| DailyRetention.DeletedThroughout | include/spdlog/sinks/daily_file_sink.h:60-189 | over every run of rotations no file of the sink is left outside the queue if and only if no rotation is of that kind |
| DailyRetention.WorkingDiskIsTidy | include/spdlog/sinks/daily_file_sink.h:60-189 | with every write and removal working the previous files are deleted |
| DailyRetention.LeftOverStays | include/spdlog/sinks/daily_file_sink.h:98-189 | a file left behind stays as long as no file of its name is opened |
| DailyRetention.SameDayRemovesCurrent | include/spdlog/sinks/daily_file_sink.h:80-117 | with one file and a rotation on the day of construction the file just opened is removed |
| DailyRetention.RetainStep | include/spdlog/sinks/daily_file_sink.h:169-189 | names retired and names held are together all names in order, before and after a call |
| BlockingQueue.MpmcBlockingQueue.Enqueue | include/spdlog/details/mpmc_blocking_q.h:31-40 | goes on only with room, and then the item is the last one held and none is lost; without room nothing changes |
| BlockingQueue.MpmcBlockingQueue.EnqueueNowait | include/spdlog/details/mpmc_blocking_q.h:42-50 | always accepts the item, which is then the last one held; in a full queue the oldest item goes and is counted |
| BlockingQueue.MpmcBlockingQueue.DequeueFor | include/spdlog/details/mpmc_blocking_q.h:52-67 | takes the oldest item exactly when there is one, and leaves queue and target alone otherwise |
| BlockingQueue.MpmcBlockingQueue.Counters | include/spdlog/details/mpmc_blocking_q.h:107-117 | accepted items are those taken, held and counted as overrun |
| QueueLog.PushMeans | include/spdlog/details/mpmc_blocking_q.h:42-50 | a push into a queue of any size: appended with room, in place of the oldest item without, kept nowhere in a queue for no items |
| QueueLog.QueueConserves | include/spdlog/details/mpmc_blocking_q.h:31-67 | over every interleaving the items taken are a subsequence of the accepted ones, and accepted = taken + held + overrun, as bags and in number |
| QueueLog.BlockingNeverDrops | include/spdlog/details/mpmc_blocking_q.h:31-40 | without enqueue_nowait nothing is overrun, and accepted = taken followed by what is held |
| QueueLog.DisabledLosesEverything | include/spdlog/details/mpmc_blocking_q.h:26-28 | a disabled queue hands out nothing and counts nothing; the balance holds exactly as long as nothing is sent |
| SpdlogThreadPool.ConstructsWithinLimits | include/spdlog/details/thread_pool-inl.h:16-31 | the constructor accepts 1 to 1000 threads, which all start at an empty queue |
| SpdlogThreadPool.ThreadsMayMove | include/spdlog/details/thread_pool-inl.h:76-126 | no thread is held back by the model: each has a step wherever it is, timeouts and spurious wakeups may come at any time, and any message may be posted either way before the shutdown |
| SpdlogThreadPool.ReachableInv | include/spdlog/details/thread_pool-inl.h:76-126 | every reachable state keeps the messages, the pending wakeups on both sides of the queue, and the order of the terminate messages |
| SpdlogThreadPool.TerminatesMatchWorkers | include/spdlog/details/thread_pool-inl.h:38-53 | in every reachable state, terminates still to post plus terminates queued equals live workers |
| SpdlogThreadPool.MessagesAccounted | include/spdlog/details/thread_pool-inl.h:76-126 | in every reachable state each message was handled, is with one worker, is queued or was overrun, exactly as often as it was accepted; messages are taken in order |
| SpdlogThreadPool.ShutdownOutcome | include/spdlog/details/thread_pool-inl.h:37-53 | when the destructor has returned all workers have exited, the queue is empty, and every message was handled exactly once or overrun |
| SpdlogThreadPool.OneWorkerInOrder | include/spdlog/details/thread_pool-inl.h:88-126 | one worker handles messages in the order in which they left the queue |
| SpdlogThreadPool.BlockingOverrunsNothing | include/spdlog/details/thread_pool-inl.h:76-86 | when every post blocks nothing is overrun, and accepted = taken followed by queued |
| SpdlogThreadPool.BlockingShutdownHandlesAll | include/spdlog/details/thread_pool-inl.h:37-126 | and when the destructor has returned every message was handled exactly as often as it was accepted |
| SpdlogThreadPool.ShutdownNeverStuck | include/spdlog/details/thread_pool-inl.h:37-53 | with a capacity of at least 1 some step other than a timeout or a spurious wakeup is enabled in every reachable shutdown that is not over |
| SpdlogThreadPool.ShutdownBounded | include/spdlog/details/thread_pool-inl.h:37-53 | a shutdown takes a bounded number of steps, plus one for each timeout or spurious wakeup |
| SpdlogThreadPool.ProductiveRank | include/spdlog/details/thread_pool-inl.h:88-126 | every productive step of a shutdown lowers the rank |
| SpdlogThreadPool.RestMeansDone | include/spdlog/details/thread_pool-inl.h:76-126 | a running pool with room for a message rests only with every worker asleep, nobody posting, an empty queue, and every message handled exactly as often as accepted, or overrun |
| SpdlogThreadPool.RestIsNear | include/spdlog/details/thread_pool-inl.h:76-126 | left to themselves the threads of a running pool come to rest within a bounded number of steps |
| SpdlogThreadPool.DestructorCanReturn | include/spdlog/details/thread_pool-inl.h:37-53 | some run of the pool ends with the destructor returned if and only if the queue has room for a message |
| SpdlogThreadPool.StepsAreQueueOperations | include/spdlog/details/thread_pool-inl.h:76-105 | the steps change the queue only by the operations of the blocking queue |
| SpdlogThreadPool.ThreadPool.PostAsyncMsg | include/spdlog/details/thread_pool-inl.h:76-86 | blocks or overruns as the policy says |
| SpdlogThreadPool.ThreadPool.ProcessNextMsg | include/spdlog/details/thread_pool-inl.h:93-126 | handles the oldest message, if any, and goes on unless it is a terminate message |
| StdThreadPool.ThreadsMayMove | include/thread_pool.h:49-108 | no thread is held back by the model but by the lock; a sleeper may wake for no reason and any task may be committed at any time |
| StdThreadPool.ReachableInv | include/thread_pool.h:86-112 | every reachable state keeps the order of tasks, who holds which, the idle counter, the pending wakeups, the lock and the bound on late tasks |
| StdThreadPool.NoWakeupIsLost | include/thread_pool.h:63-108 | while the pool runs and a worker sleeps, queued tasks are at most producers that owe a notification plus workers about to look |
| StdThreadPool.PoolAccounts | include/thread_pool.h:86-112 | tasks are taken in commit order, each once; each one taken is finished or with one worker; the idle counter is pool size minus workers between decrement and increment; the pool has min(size, 16) threads |
| StdThreadPool.OneWorkerInOrder | include/thread_pool.h:63-108 | a pool of one thread finishes tasks in commit order: committed = finished, then the one in hand, then the queued |
| StdThreadPool.FewLateTasks | include/thread_pool.h:31-34 | after `_run` is cleared each worker takes at most one more task, so at most min(size, 16) more start |
| StdThreadPool.ProductiveRank | include/thread_pool.h:91-108 | every step the threads take by themselves lowers a rank |
| StdThreadPool.RestIsNear | include/thread_pool.h:91-108 | left to themselves the threads come to rest within a bounded number of steps |
| StdThreadPool.RestMeansDone | include/thread_pool.h:63-108 | a running pool of at least one thread comes to rest only when every task committed has run to its end exactly as often as it was committed, and every thread counts as idle; one of size 0 has then run nothing and holds every task |
| StdThreadPool.DoneExactlyWithThreads | include/thread_pool.h:30-112 | with producers, every task is done at every rest of a running pool if and only if the size is not 0 |
| StdThreadPool.ShutdownReleasesAll | include/thread_pool.h:31-108 | in every reachable state, every schedule after notify_all, spurious wakeups and refused commits included, that comes to rest has all workers exited, if and only if no worker is between a failed test and its wait, or some commit has yet to queue its task |
| StdThreadPool.StoppedBounded | include/thread_pool.h:31-108 | a schedule after notify_all takes a bounded number of steps of the threads, plus two for each spurious wakeup |
| StdThreadPool.ShutdownRaceIsReachable | include/thread_pool.h:31-40 | a run that gets to a worker between a failed test and its wait, with no commit under way |
| StdThreadPool.ThreadPool.AddThread | include/thread_pool.h:86-112 | starts threads up to 16 in all and counts each as idle |
| StdThreadPool.ThreadPool.NotifyOne | include/thread_pool.h:73 | wakes one of the sleepers, any one, if there is one |
| StdThreadPool.ThreadPool.Commit | include/thread_pool.h:49-76 | a stopped pool refuses the task; a running one queues it last and wakes one sleeper, as the three steps of the relation do |
| StdThreadPool.ThreadPool.TakeTask | include/thread_pool.h:94-104 | takes the oldest task if there is one, stopped or not; with none it sleeps while the pool runs and ends when it has stopped |
| StdThreadPool.ThreadPool.RunTask | include/thread_pool.h:105-107 | the task taken is the next to be finished, and the idle counter is as it was |
| StdThreadPool.ThreadPool.Turn | include/thread_pool.h:91-108 | one turn of a worker: it ends when the pool has stopped, sleeps when there is nothing to do, and otherwise runs the oldest task |
| StdThreadPool.ThreadPool.Stop | include/thread_pool.h:31-34 | clears the flag and wakes every sleeper, and no worker that is not asleep yet |
| FileNames.SplitFindsExtension | include/spdlog/details/file_helper-inl.h:111-144 | the split loses nothing, and finds an extension exactly when there is one: hidden files and trailing dots have none |
| FileNames.CalcFilenameInjective | include/spdlog/sinks/rotating_file_sink-inl.h:41-54 | no two rotated files share a name |
| FileNames.RotatedName | include/spdlog/sinks/rotating_file_sink-inl.h:41-54 | the current file has the name itself; an older one its number, in decimal, before the extension, or at the end if there is none |
| FileNames.FirstBackup | include/spdlog/sinks/rotating_file_sink-inl.h:41-54 | the first backup of fileCacheProxy.log is fileCacheProxy.1.log |
| RotatingFiles.RotationShiftsAtOnce | include/spdlog/sinks/rotating_file_sink-inl.h:83-118 | the in-place loop does what moving all files at once would do; the oldest place keeps its file when nothing moves into it; other files are left alone |
| RotatingFiles.MoveAllUpSlots | include/spdlog/sinks/rotating_file_sink-inl.h:94-116 | where each file is after the loop from any index down |
| RotatingFiles.RotationLosesOldest | include/spdlog/sinks/rotating_file_sink-inl.h:83-118 | of the log read oldest to newest, a rotation loses at most the oldest file, from the front |
| RotatingFiles.LogOrder | include/spdlog/sinks/rotating_file_sink-inl.h:64-118 | over every run the files, read oldest to newest, are a suffix of what they held at the start followed by every message in order |
| RotatingFiles.SizeStaysExact | include/spdlog/sinks/rotating_file_sink-inl.h:63-75 | over every run that goes well the size kept is exactly that of the current file, which is within the limit or holds one message |
| RotatingFiles.FittingMovesNothing | include/spdlog/sinks/rotating_file_sink-inl.h:68-74 | a message that fits is appended and no other file is touched |
| RotatingFiles.OverflowingRotates | include/spdlog/sinks/rotating_file_sink-inl.h:68-74 | one that does not fit starts a new file, and every other file becomes one older |
| RotatingFiles.RotatingFileSink.constructor | include/spdlog/sinks/rotating_file_sink-inl.h:27-34 | opens for appending and takes over the size of the file |
| RotatingFiles.RotatingFileSink.RotateOnOpen | include/spdlog/sinks/rotating_file_sink-inl.h:35-38 | rotates exactly when the file is not empty, and does not reset the size |
| RotatingFiles.RotatingFileSink.RenameFile | include/spdlog/sinks/rotating_file_sink-inl.h:120-128 | a failed rename may still have removed the target, and changes nothing else |
| RotatingFiles.RotatingFileSink.RenameTwice | include/spdlog/sinks/rotating_file_sink-inl.h:103-109 | the move is tried twice; when both fail only the target is at risk |
| RotatingFiles.RotatingFileSink.Rotate | include/spdlog/sinks/rotating_file_sink-inl.h:88-118 | is the whole rotation when all goes well; a move that fails twice is reported, truncates the current file, leaves the files above rotated and those below where they were |
| RotatingFiles.RotatingFileSink.SinkIt | include/spdlog/sinks/rotating_file_sink-inl.h:63-75 | rotates exactly when the message would pass the limit, and starts counting anew then; the current file is at most the limit or holds just the message; the size kept stays exact while all goes well and is never less than the file, whatever fails; and the sink can always be given another message |
| Padding.PaddingLaw | include/spdlog/pattern_formatter-inl.h:40-87 | a text is fitted to its field if and only if its declared length is the true one, or both fill the field and nothing is to be cut |
| Padding.FittedIsFitted | include/spdlog/pattern_formatter-inl.h:40-87 | fitted means padded on the side asked for, the odd space of a centred text on the right, cut at the end when too long and to be cut, and whole otherwise |
| Padding.TrueLengthFits | include/spdlog/pattern_formatter-inl.h:40-87 | with the true length the padder always succeeds and appends the fitted text |
| Padding.ShortDateEatsItsNeighbour | include/spdlog/pattern_formatter-inl.h:76-80 | a field declared longer than it is, cut, takes from the text before it, or underflows |
| Padding.ScopedPadder.constructor | include/spdlog/pattern_formatter-inl.h:40-62 | writes the spaces before the text and keeps what is still to be padded or cut |
| Padding.ScopedPadder.PadIt | include/spdlog/pattern_formatter-inl.h:84-92 | appends spaces, and never reads beyond the 64 there are |
| Padding.ScopedPadder.Close | include/spdlog/pattern_formatter-inl.h:70-81 | pads or cuts the end, unless the cut goes beyond the start of the buffer |
| Padding.FormatPadded | include/spdlog/pattern_formatter-inl.h:114-118 | constructor, text and destructor together append as the padder means it |
| PatternCompiler.WidthIsClamped | include/spdlog/pattern_formatter-inl.h:1327-1346 | the width is min(number, 64) if and only if the number fits size_t or wraps to at least 64 |
| PatternCompiler.WideIsReadNarrow | include/spdlog/pattern_formatter-inl.h:1327-1332 | an input that fails: the number two above the greatest size_t is read as a width of 1 |
| PatternMeaning.PadSpecRoundTrip | include/spdlog/pattern_formatter-inl.h:1293-1347 | a pad spec written as side, width and `!` is read as it was meant: `-` pads on the right, `=` on both sides, widths above 64 count as 64 |
| PatternMeaning.SideWithoutWidth | include/spdlog/pattern_formatter-inl.h:1307-1325 | a side without a width is read and dropped |
| PatternCompiler.PadSpecAppend | include/spdlog/pattern_formatter-inl.h:1296-1347 | a pad spec is read without looking past the character behind it |
| PatternCompiler.PadSpecLeavesSuffix | include/spdlog/pattern_formatter-inl.h:1296-1347 | what follows a pad spec is the end of the text it is read from |
| PatternCompiler.CompositionalExactlyIfComplete | include/spdlog/pattern_formatter-inl.h:1349-1394 | a pattern compiled together with any other prints what the two print one after the other, for every message and every user formatter, if and only if it does not end inside a directive |
| PatternCompiler.CompilationIsCompositional | include/spdlog/pattern_formatter-inl.h:1349-1394 | a complete pattern and any other, compiled together, print what they print one after the other |
| PatternCompiler.GroupRenders | include/spdlog/pattern_formatter-inl.h:1381-1393 | collecting raw characters into one formatter changes nothing |
| PatternCompiler.EscapeRoundTrip | include/spdlog/pattern_formatter-inl.h:1249-1251 | a text with its percent signs doubled prints just that text |
| PatternMeaning.FieldPrints | include/spdlog/pattern_formatter-inl.h:1082-1247 | each of the 37 field flags prints the text of its field and nothing else |
| PatternMeaning.ElapsedPrints | include/spdlog/pattern_formatter-inl.h:1253-1267 | each elapsed-time flag prints its time |
| PatternMeaning.FullPrints | include/spdlog/pattern_formatter-inl.h:1098-1100 | `%+` prints the full format, with the level as the colour range |
| PatternMeaning.ColorsPrint | include/spdlog/pattern_formatter-inl.h:1221-1227 | `%^` and `%$` print nothing and set the start and the end of the colour range |
| PatternMeaning.UnknownPrints | include/spdlog/pattern_formatter-inl.h:1269-1277 | an unknown flag prints a percent sign and itself |
| PatternMeaning.TruncatingUnknownPrints | include/spdlog/pattern_formatter-inl.h:1278-1287 | an unknown flag after a truncating pad spec prints the function name padded and not truncated, then itself |
| PatternMeaning.CustomPrints | include/spdlog/pattern_formatter-inl.h:1085-1093 | a flag with a handler of the user's goes to that handler |
| PatternMeaning.PaddedFieldPrints | include/spdlog/pattern_formatter-inl.h:1363-1374 | a field with a pad spec prints its text fitted to the width, on the side and cut as written |
| PatternMeaning.PiecesPrint | include/spdlog/pattern_formatter-inl.h:1349-1394 | every pattern of texts and fields prints the texts and the fields, in order |
| PatternMeaning.ProxyPatternPrints | src/fileCacheProxy.cpp:83 | the pattern of the proxy's log prints date, time, thread, level and message with their brackets |
| LogLines.ProxyLine | src/fileCacheProxy.cpp:83 | a line of the proxy's log is the time stamp, the thread, the level and the message |
| LogLines.FullLine | include/spdlog/pattern_formatter-inl.h:927-1008 | a line of the full format is the time stamp, the logger name and the source location if there are any, the level and the message |
| LogLines.StampReads | include/spdlog/pattern_formatter-inl.h:948-973 | the stamp shows year, month, day, hour, minute, second and millisecond, each in its place and width |
| LogLines.DeclaredLengthsAreTrue | include/spdlog/pattern_formatter-inl.h:106-137 | message, name, level and the common time fields declare the lengths of their texts |
| LogLines.ElapsedCounts | include/spdlog/pattern_formatter-inl.h:912-921 | the elapsed time is counted in nano-, micro-, milliseconds or seconds, and is 0 when the clock has gone back |
| PatternFormatting.SecondsAreWhole | include/spdlog/pattern_formatter-inl.h:1052 | the seconds of a time are the whole ones, toward zero |
| PatternFormatting.MillisAreOfTheSecond | include/spdlog/pattern_formatter-inl.h:972-973 | the milliseconds are those of the current second, below 1000; before the epoch they wrap round 32 bits |
| PatternFormatting.PatternFormatter.ScanWidth | include/spdlog/pattern_formatter-inl.h:1327-1332 | reads all the digits and no more, in size_t arithmetic |
| PatternFormatting.PatternFormatter.HandlePadspec | include/spdlog/pattern_formatter-inl.h:1293-1347 | reads the pad spec and stops behind it, never beyond the end |
| PatternFormatting.PatternFormatter.ReadDirective | include/spdlog/pattern_formatter-inl.h:1356-1379 | reads the first token of what is left of the pattern, or finds that it is cut off |
| PatternFormatting.PatternFormatter.HandleFlag | include/spdlog/pattern_formatter-inl.h:1082-1291 | adds the formatters of the flag, custom handlers first |
| PatternFormatting.PatternFormatter.CompilePattern | include/spdlog/pattern_formatter-inl.h:1349-1394 | the one-pass scanner ends on every pattern and builds the compiled form of its tokens |
| PatternFormatting.PatternFormatter.SetPattern | include/spdlog/pattern_formatter-inl.h:1067-1071 | compiles anew with empty date texts and elapsed times that start now, and keeps the cached time |
| PatternFormatting.PatternFormatter.Format | include/spdlog/pattern_formatter-inl.h:1050-1065 | prints what the pattern means with every date text made afresh and every elapsed time counted from the message before, or from the making of the formatters; once a message lay outside second 0 the time printed is that of the whole seconds of the message |
| PatternFormatting.PatternFormatter.RunFormatter | include/spdlog/pattern_formatter-inl.h:899-1013 | the kept date text prints the same as a fresh one, the kept time is that of the message before, and an elapsed-time field keeps the time of this message |
| PatternFormatting.CachedTimeIsRight | include/spdlog/pattern_formatter-inl.h:1050-1057 | the cached time is the message's own if and only if this or an earlier message lay outside second 0 |
| SafeDurationCast.LosslessIntegralConversion | include/spdlog/fmt/bundled/chrono.h:35-102 | reports an error exactly when the value does not fit the target, for all widths and signs; gives the value otherwise |
| SafeDurationCast.ProductWithin | include/spdlog/fmt/bundled/chrono.h:179-191 | the test against the quotients of the bounds is the test whether the product fits |
| SafeDurationCast.ScaleUp | include/spdlog/fmt/bundled/chrono.h:178-192 | reports an error exactly when the product does not fit, and multiplies without overflow otherwise |
| SafeDurationCast.DurationCast | include/spdlog/fmt/bundled/chrono.h:148-197 | reports an error exactly when the count or the product does not fit the intermediate type or the quotient the target; gives the quotient toward zero otherwise |
| SafeDurationCast.QuotientTowardZero | include/spdlog/fmt/bundled/chrono.h:194 | the machine's quotient is the one toward zero |
| SafeDurationCast.IntermediateTakes | include/spdlog/fmt/bundled/chrono.h:170-177 | the count itself is refused only when negative and on its way to an unsigned 64-bit target |
| SafeDurationCast.Ranges | include/spdlog/fmt/bundled/chrono.h:39-95 | the bounds of the 32-bit and the 64-bit integers |
| ConfigReader.RunsAreMaximal | src/configReader.cpp:3-20 | the pieces are exactly the maximal delimiter-free runs, each once, from left to right |
| ConfigReader.Find | src/configReader.cpp:6-18 | the first position from a given one on that holds, or does not hold, the delimiter; nothing from no position |
| ConfigReader.Split | src/configReader.cpp:3-20 | the loop over positions gives just these pieces |
| ConfigReader.TrimExact | src/configReader.cpp:22-31 | trimming cuts off white space and nothing else, and as much as there is |
| ConfigReader.TrimUndoesPadding | src/configReader.cpp:22-31 | a trimmed text comes back from white space put round it |
| ConfigReader.SpaceIsOneOfSix | src/configReader.cpp:22-25 | white space is one of six characters |
| ConfigReader.LinesStep | src/configReader.cpp:58-71 | a file is its first line and the rest, for what loads and for how long its lines are |
| ConfigReader.LinesAreTheFile | src/configReader.cpp:58-61 | the lines with newlines between them, and none in them, are the file |
| ConfigReader.CStringEndsAtNul | src/configReader.cpp:62 | what is read of a line ends at its first NUL |
| ConfigReader.AddExactly | src/configReader.cpp:64-70 | a line adds an entry if and only if it has exactly two maximal runs between its `=` signs and the trimmed first one is a new key; the trimmed second one is the value |
| ConfigReader.RunsAreUnique | src/configReader.cpp:3-20 | whoever finds all maximal runs of a text, in order, finds the same |
| ConfigReader.FailedStreamHangs | src/configReader.cpp:58-69 | a stream that failed before its end, by a long line or a failed read, stays as it is and adds nothing |
| ConfigReader.Config.Load | src/configReader.cpp:48-74 | comes to an end exactly when every line is shorter than 100 characters and no read fails before the end of the file, and then holds what the lines say, with what was known before |
| ConfigReader.Config.AddLine | src/configReader.cpp:60-70 | a line with exactly two pieces, however found, is an entry, unless its key is known; any other line changes nothing |
| ConfigReader.Config.GetValue | src/configReader.cpp:76-96 | gives the value of a known key and the empty text for any other |
| ConfigReader.KnownKeyStays | src/configReader.cpp:70 | a key known before keeps its value |
| ConfigReader.FirstEntryWins | src/configReader.cpp:58-71 | of several lines for one key the first well-formed one counts |
| ConfigReader.OnlyEntriesLoad | src/configReader.cpp:58-71 | a key without a line does not come out of nowhere |
| ConfigReader.PrintLoadRoundTrip | src/configReader.cpp:48-96 | printing entries and loading the result gives every pair back, and no other key |

## Left out

- The HTTP handlers, socket setup, signals and FastDFS calls of the proxy, and the declarations of libevent and FastDFS: plumbing over libraries.
- All other sinks (console, syslog, systemd, TCP, Windows, Android), colours, and the operating system behind file names, time zones and processes.
- Both thread pools are step relations on values; the classes beside them hold the code of one thread between two points where another may come in, not the interleaving itself.
- Memory ordering of atomics, and the lifetime of the task pool's members after its threads are detached: the members live on.
- Real time: a timeout is a step that may happen whenever a worker sleeps; sleeping between attempts is no step.
- Posting to the logging pool while its destructor runs: the steps begin a shutdown only when no other thread is posting, and none begins to post after that.
- Exceptions thrown by message handlers, by tasks, by the callback of the backtracer, by user formatters, by memory allocation and by the start of a thread; the start callback of the logging pool.
- A task is a number, and a log message in the pools is one too: what running or sinking it does is not modelled.
- The choice of THREADPOOL_AUTO_GROW, which the repository leaves switched off, and the notification under the lock on MinGW.
- Counters that overflow `size_t`: the overrun counter, the size of a log file, and an index sum in `at` on a queue of more than half the address space.
- Copying a circular queue or a backtracer: a copy of all fields.
- The daily sink's computation of names and rotation times, the contents of its files, and an opening that fails, after which the next message rotates again: whether a message rotates, the name of its file and the answers of the disk are given to the model. A daily sink without a limit keeps no queue.
- Other processes changing the log files, files that cannot be opened at construction, and the buffering of stdio: what is written is in the file. The five attempts at opening a file are one.
- RotatingFiles.LogOrder: runs in which every rename, reopening and write succeeds; what a failure does is stated by SinkIt and Rotate.
- The texts of most single fields of a pattern and their declared lengths: they are parameters of rendering. Modelled are the message, the logger name, the level, `%Y %m %d %H %M %S %e`, the elapsed times and the full format.
- The clock is read once for all elapsed-time fields of a pattern, not once for each.
- PatternFormatting.PatternFormatter.Format: local time is taken to depend on the whole seconds alone, as it does while the time zone does not change.
- A truncation that would shrink the buffer below nothing ends in the model as a failure; what the buffer then does is not modelled.
- Floating-point durations, and the locale and date formatting of fmt.
- White space as the C locale has it; characters beyond ASCII, for which `isspace` on a negative value is undefined, count as none.
- ConfigReader.Config.Load: says nothing of the entries of a call that never ends.
- `str2int` and the helpers of src/ultilities.cpp (string formatting, the current time as text, a test whether a file can be read): wrappers of a library function that keep no state, and nothing modelled here calls them.
