# Verified models of a set of concurrency exercises

Six small Linux programs pass data between processes and threads in different ways; a seventh is a
hash table. This project models them in Dafny and proves what each of them is for: that the right
bytes, values or entries arrive, whatever the scheduling, the partial transfers, the failures and
the crashes.

| files | component | what is proved |
|---|---|---|
| `Semaphores`, `SharedTransfer`, `SharedTransferInvariant`, `SharedTransferTheorems`, `SharedTransferBound`, `SharedTransferPrograms` | `transferViaSharedMemory`: any number of readers and writers, six System V semaphores with undo, one buffer | exclusion, pairing, self-cleaning after crashes at any statement, the data that arrives, the exact deadlocks, a bound on every run |
| `Hops`, `Pipeline`, `PipelineRun` | `transferSyncViaPIPELine`: a parent pumps a file through n children and 2n pipes under `select` | the loop stops, and the output is then the whole file; no jam; a bound on the passes |
| `TaskQueue`, `TaskSystem`, `TaskSystemTheorems`, `TaskSender`, `Integration` | `supercomputerCalculations`: a queue of tasks shared by sender threads, workers that integrate x^2 | tasks are neither lost nor doubled, one complete sum is published, and how far it is from the integral |
| `CharBits`, `Signals`, `SignalTheorems`, `SignalPrograms` | `transferViaSignals`: bits as signals that do not queue, handlers that nest | no signal is lost, handlers do not race, the whole file is printed, every run ends |
| `TableValues`, `HashTable` | `HashTable`: a chained table with pointer-to-slot updates | it refines a map under every history; failed allocations change nothing; traversal visits a prefix in order, also while it frees; no block is freed twice or leaked |
| `Messages`, `MessagesProgram` | `syncViaMessages`: n children pass one typed message on | the printed sequence, one token, the life of the queue, failing forks, every run ends |
| `Segments` | `threadSINCalculations`: segments by halving, trapezoid sums, strided threads | the segments tile, the panels telescope (and the last one is missing), how far the total is from the integral, and that it ignores the thread count |

`Common` and `Reals` hold what several of them share. The protocols are step relations over complete states
(`SharedTransfer`, `TaskSystem`, `Signals`, `Messages`), with an inductive invariant and theorems
about every run. The programs themselves are classes whose methods change fields, arrays and linked
nodes in place as the C and C++ code does (`SharedTransferPrograms.Machine`, `PipelineRun.Relay`,
`TaskQueue.TasksQueue`, `TaskSender.Server`, `SignalPrograms.Pair`, `HashTable.Table`,
`MessagesProgram.Family`); each method is proved against the step or the function that specifies
it. Where other processes or threads run between two statements of a program, it is verified either
against a method `Others`, whose contract allows whatever the others can do, or with a method that
executes an arbitrary choice of their steps. Statements that touch only a process's own variables
are taken together with the next one that others can see. `dafny verify dfyconfig.toml` checks
everything.

What the models assume of the operating system: a `semop` array takes effect as a whole, evaluated
in order; a call that waits is evaluated again when the counters change; exit applies all undo
adjustments at once, and no counter goes below zero. A `read` of a regular file returns nothing only
at its end. A write of at most 4096 bytes to a pipe is all or nothing, and a pipe that `select`
reports as writable has room for that much. A signal that is already pending is not counted again.

Two findings, stated as theorems where the code differs from what one would expect of it.
`cOneInterval` adds `SEGMENTATION - 1` panels of width `(right - left) / SEGMENTATION`, so the last
panel of each segment is missing (`Segments.LastPanelMissing` says exactly when that makes no
difference). `HASH` computes an index only for keys whose first char is not negative, or is a
multiple of the size (`TableValues.IndexInRange`).

## Model

| member | source | states |
|---|---|---|
| Semaphores.ReaderEnterEffect | transferViaSharedMemory/reader.c:41-52 | the three operations are one atomic test: no reader in the slot and no writer of an earlier session working, else the call waits; taking the slot records its undo |
| Semaphores.ReaderPairEffect | transferViaSharedMemory/reader.c:61-70 | completes exactly when a writer holds its slot, leaves that slot as it was and marks the reader working |
| Semaphores.ReaderAwaitEffect | transferViaSharedMemory/reader.c:77-92 | fails at once exactly when no writer lives, otherwise takes a WRITE token or waits for one; never changes the writer slot |
| Semaphores.WriterEnterEffect | transferViaSharedMemory/writer.c:37-49 | the same as for the reader, with the roles exchanged |
| Semaphores.WriterPairEffect | transferViaSharedMemory/writer.c:51-60 | completes exactly when a reader holds its slot, although the undo operation stands in the middle of the array |
| Semaphores.WriterTakeEffect | transferViaSharedMemory/writer.c:68-79 | fails at once exactly when no reader lives, otherwise takes a READ token or waits for one |
| Semaphores.PostEffects | transferViaSharedMemory/reader.c:86-88 | the posts of both programs never wait and record no undo |
| Semaphores.BalanceEffect | transferViaSharedMemory/reader.c:94-108 | the balance call never waits, leaves all counters, and only records one undo each for READ and WRITE |
| SharedTransferInvariant.ReaderStepKeeps | transferViaSharedMemory/reader.c:41-119 | every statement of a reader keeps the invariant: counters determined by the phases of the two slot holders, undo tables by program counters, at most one token, buffer and output in step with the file |
| SharedTransferInvariant.WriterStepKeeps | transferViaSharedMemory/writer.c:37-105 | the same for every statement of a writer |
| SharedTransferInvariant.DeathKeeps | transferViaSharedMemory/reader.c:48-50 | a death at any statement, with its undo adjustments and a half-filled buffer or half-printed chunk left behind, keeps the invariant |
| SharedTransferInvariant.StepKeepsInv | transferViaSharedMemory/reader.c:41-119 | every step of the whole system keeps the invariant, arrivals and deaths included |
| SharedTransferInvariant.RunKeepsInv | transferViaSharedMemory/reader.c:41-119 | the invariant holds in every state of every run |
| SharedTransferTheorems.MutualExclusion | transferViaSharedMemory/reader.c:41-119 | at most one reader and one writer hold the slots; READ + WRITE + a writer using the buffer is at most 1; filling never overlaps printing |
| SharedTransferTheorems.BufferUse | transferViaSharedMemory/reader.c:58-118 | the segment changes only at statements counted as filling it, and a writer's output only at the statement counted as printing |
| SharedTransferTheorems.WorkingPair | transferViaSharedMemory/reader.c:61-70 | a working process is paired with whoever holds the opposite slot |
| SharedTransferTheorems.MateIsFinalInRun | transferViaSharedMemory/writer.c:51-60 | in every run a process is paired once and for good |
| SharedTransferTheorems.SessionIsExclusive | transferViaSharedMemory/reader.c:61-70 | from the moment a process marks itself working until it is gone, nobody but its mate of that moment holds the opposite slot |
| SharedTransferTheorems.SelfCleaning | transferViaSharedMemory/reader.c:94-108 | whenever nobody holds a slot, whatever died before, all six semaphores are zero |
| SharedTransferTheorems.NoTokenSurvives | transferViaSharedMemory/reader.c:94-119 | a reader that is not waiting for its answer and has not left its loop sees neither token: none survives from an earlier session |
| SharedTransferTheorems.TokensHaveTakers | transferViaSharedMemory/reader.c:112-119 | READ is up only while a reader waits for its answer or leaves, WRITE only while a writer asks for more or leaves, whoever is alive |
| SharedTransferTheorems.OutputIsPrefix | transferViaSharedMemory/writer.c:101-105 | what a writer has printed is a prefix of the file of its one mate, in every reachable state |
| SharedTransferTheorems.EndOfFileMeansDelivered | transferViaSharedMemory/reader.c:110-119 | a reader that left its loop because it read nothing has had its whole file printed by its mate, which had no other source |
| SharedTransferTheorems.CrashFreeDelivery | transferViaSharedMemory/reader.c:112-121 | in a run without crashes every reader that has stopped has had its whole file printed |
| SharedTransferTheorems.ReaderWaits | transferViaSharedMemory/reader.c:52-115 | exactly when each statement of a reader has to wait |
| SharedTransferTheorems.WriterWaits | transferViaSharedMemory/writer.c:49-104 | exactly when each statement of a writer has to wait |
| SharedTransferTheorems.SessionMoves | transferViaSharedMemory/reader.c:112-119 | whenever a live reader and a live writer hold their slots, one of them can step |
| SharedTransferTheorems.MateDiesSlotEmpties | transferViaSharedMemory/writer.c:37-60 | once the mate of a working process is dead, the opposite slot counter is zero: nobody else has been let in |
| SharedTransferTheorems.SurvivorLeaves | transferViaSharedMemory/reader.c:77-116 | after either of a pair has died, wherever it was, the other is never stuck at its loop's semop: the call fails at once and ends the loop |
| SharedTransferTheorems.RestIsOneSided | transferViaSharedMemory/reader.c:41-119 | the whole system is at rest if and only if nobody lives, or one process waits for a mate and all other live ones queue on its side |
| SharedTransferBound.StepLowersBudget | transferViaSharedMemory/reader.c:110-119 | every step, exits and crashes included, lowers a bound on the work left |
| SharedTransferBound.RunsAreBounded | transferViaSharedMemory/reader.c:110-119 | after the last arrival every run ends within that bound |
| SharedTransferBound.OthersBurnFuel | transferViaSharedMemory/reader.c:112-119 | while a writer is paired, no step of another process gives it more to take than its mate had left to post |
| SharedTransferPrograms.ReaderCallIsStep | transferViaSharedMemory/reader.c:52-115 | each semop call of the reader program is a step of the relation, and waits exactly when the relation says so |
| SharedTransferPrograms.WriterCallIsStep | transferViaSharedMemory/writer.c:49-104 | the same for the writer program |
| SharedTransferPrograms.Machine.Call | transferViaSharedMemory/reader.c:52 | the operations carried out in place one after the other, and taken back when one cannot be, are all or nothing, as the recursive evaluation of the array says |
| SharedTransferPrograms.Machine.ReaderCall | transferViaSharedMemory/reader.c:114-116 | a reader's call after any interference: completed, failed with no writer alive, or waiting with the process unable to move |
| SharedTransferPrograms.Machine.WriterCall | transferViaSharedMemory/writer.c:101-104 | the same for a writer |
| SharedTransferPrograms.Machine.ReaderClear | transferViaSharedMemory/reader.c:58-59 | zeroes the segment in place, as one step |
| SharedTransferPrograms.Machine.ReaderFills | transferViaSharedMemory/reader.c:110-118 | fills the segment in place with the next bytes of the file; size 0 exactly at the end of the file |
| SharedTransferPrograms.Machine.WriterPrints | transferViaSharedMemory/writer.c:103 | appends the bytes the segment holds to the output, as one step |
| SharedTransferPrograms.Machine.ReaderLoop | transferViaSharedMemory/reader.c:112-119 | the loop ends at the end of the file, with the mate gone, or waiting |
| SharedTransferPrograms.Machine.ReaderMain | transferViaSharedMemory/reader.c:41-122 | main of reader.c among any other processes: it ends at the end of the file only for a file that exists and has been printed exactly so by its one mate; a file that cannot be opened ends it, once it is paired, and nothing else ends it there |
| SharedTransferPrograms.Machine.WriterRound | transferViaSharedMemory/writer.c:101-105 | a completed round uses up one post of the mate |
| SharedTransferPrograms.Machine.WriterMain | transferViaSharedMemory/writer.c:37-107 | main of writer.c among any other processes: its loop ends, it prints a prefix of its one mate's file, and stops only when it waits or its mate is gone |
| Hops.MoveKeepsFlat | transferSyncViaPIPELine/main.c:101-113 | passing bytes on between neighbouring stages keeps the stream as a whole |
| Hops.MoveLowersDistance | transferSyncViaPIPELine/main.c:172-194 | each byte passed on is one hop less for the whole pipeline |
| Pipeline.Size | transferSyncViaPIPELine/main.c:30-45 | the loop, with its early exit, computes the capacity of a buffer, between one and 128 kilobytes |
| Pipeline.CapacityTriples | transferSyncViaPIPELine/main.c:30-45 | one kilobyte at the output, and from there each buffer holds three times what the next one holds, up to 128 kilobytes |
| Pipeline.Connection.Fill | transferSyncViaPIPELine/main.c:174-180 | reading appends to the bytes the buffer holds |
| Pipeline.Connection.Drain | transferSyncViaPIPELine/main.c:184-193 | writing removes bytes from the front; begin and end coincide only at zero |
| Pipeline.ChildStepRuns | transferSyncViaPIPELine/main.c:101-113 | a step of a child keeps the stream and what the parent relies on, and lowers the number of hops left |
| Pipeline.SomethingMoves | transferSyncViaPIPELine/main.c:146-167 | no jam: while bytes are between the file and the output, some child or some transfer of the parent is enabled |
| Pipeline.ReadKeeps | transferSyncViaPIPELine/main.c:172-181 | a read by the parent keeps the stream, counts what enters the first buffer, and lowers the hops left |
| Pipeline.WriteKeeps | transferSyncViaPIPELine/main.c:182-194 | a write into a pipe keeps the stream and the count of bytes in flight |
| Pipeline.EmitKeeps | transferSyncViaPIPELine/main.c:184-188 | a write to standard output moves bytes from the chain to the output and out of the count |
| Pipeline.Allocate | transferSyncViaPIPELine/main.c:79-90 | the first and the last buffer hold 100 bytes, the others their capacity; none share anything |
| PipelineRun.Relay.Children | transferSyncViaPIPELine/main.c:96-115 | children running at any pace keep the stream and disable no transfer of the parent |
| PipelineRun.Relay.FdSets | transferSyncViaPIPELine/main.c:142-165 | asks for reading exactly where there is room, for writing exactly where there are bytes, and not for the exhausted file |
| PipelineRun.Relay.ReadyOrChild | transferSyncViaPIPELine/main.c:146-167 | while anything is left to do, select has something to report or a child can step |
| PipelineRun.Relay.Select | transferSyncViaPIPELine/main.c:167 | always returns, with at least one descriptor that is really ready |
| PipelineRun.Relay.ReadFile | transferSyncViaPIPELine/main.c:172-181 | fills the first buffer or, exactly when nothing of the file is left, sets eof, with delta counting what is read; less is left to do |
| PipelineRun.Relay.ReadPipe | transferSyncViaPIPELine/main.c:172-181 | reads any number of bytes from a ready pipe; the stream is kept and less is left to do |
| PipelineRun.Relay.WritePipe | transferSyncViaPIPELine/main.c:182-194 | writes what the pipe takes; the stream is kept and less is left to do |
| PipelineRun.Relay.WriteOutput | transferSyncViaPIPELine/main.c:184-194 | writes what standard output takes, with delta counting it; at most 100 bytes leave |
| PipelineRun.Relay.ServeFirst | transferSyncViaPIPELine/main.c:170-195 | if the file is not exhausted after the first buffer was served, 100 bytes are in flight beside those in the last buffer |
| PipelineRun.Relay.Iteration | transferSyncViaPIPELine/main.c:137-196 | a pass that ends with delta zero leaves nothing of the file unread: the stopping rule never fires early |
| PipelineRun.Relay.Run | transferSyncViaPIPELine/main.c:137-196 | for every file, every answer of select, every partial transfer and every pace of the children the loop stops, and then the output is the whole file |
| PipelineRun.Transfer | transferSyncViaPIPELine/main.c:47-199 | output == file, after at most (4n + 2) * length + 1 passes |
| TaskQueue.TasksQueue.constructor | supercomputerCalculations/Task.cc:16-35 | all task indices queued once, task i over the i-th of equal parts of the interval |
| TaskQueue.CreateQueue | supercomputerCalculations/Task.cc:16-35 | the program's own queue: 16 tasks over [-1e5, 1e5] with step 8e-5 |
| TaskQueue.TasksQueue.GetTask | supercomputerCalculations/Task.cc:37-76 | hands out the last queued task as the constructor made it, but for its iterator, and takes it into work; or reports nothing; or publishes the sum once, closes the pipe and stops; no other task changes |
| TaskQueue.TasksQueue.PushTask | supercomputerCalculations/Task.cc:86-95 | the task of the node behind the iterator goes back to the queue and the node leaves the list |
| TaskQueue.TasksQueue.RecordResult | supercomputerCalculations/Task.cc:80-83 | the result is appended and one task less is outstanding |
| TaskQueue.TasksQueue.DeleteTask | supercomputerCalculations/Task.cc:97-102 | the node behind the iterator leaves the list, all others stay |
| TaskSystem.InWorkOnce | supercomputerCalculations/Task.cc:66-69 | a task in work is in no other place and not in work twice |
| TaskSystem.LeaveKeepsLogged | supercomputerCalculations/Task.cc:80-83 | the entry added in the m_res section is the first and only one for its task |
| TaskSystem.StepKeepsInv | supercomputerCalculations/Task.cc:37-102 | every critical section of every thread keeps the invariant: partition of the tasks, one owner per node, one entry per recorded task, at most one publication |
| TaskSystem.RunKeepsInv | supercomputerCalculations/STaskSender.cc:29-94 | the invariant holds in every state of every run |
| TaskSystemTheorems.ExactlyOnePlace | supercomputerCalculations/Task.cc:66-102 | queue, in_work and finished tasks partition the task indices, each with multiplicity one |
| TaskSystemTheorems.IteratorsAreValid | supercomputerCalculations/STaskSender.cc:38-91 | every iterator a thread still has to pass points to the node of its own task, and nobody else has it |
| TaskSystemTheorems.QueueCallsSucceed | supercomputerCalculations/STaskSender.cc:38-91 | a thread with a task can always put it back, one with a recorded result always delete its node |
| TaskSystemTheorems.FailedTaskIsRetried | supercomputerCalculations/STaskSender.cc:38-73 | after a failure the next thread to ask gets the failed task |
| TaskSystemTheorems.NobodyRecordsWhilePublishing | supercomputerCalculations/Task.cc:41-60 | when queue and in_work are empty, no thread is in write_result: the sum may be read without m_res |
| TaskSystemTheorems.PublishedAtMostOnce | supercomputerCalculations/Task.cc:45-61 | at most one sum goes to the pipe, and it stays |
| TaskSystemTheorems.PublishedSumIsComplete | supercomputerCalculations/Task.cc:41-60 | when a sum has been published, every task has exactly one accepted value, and the sum is their total over the tasks |
| TaskSystemTheorems.SumIsTotal | supercomputerCalculations/Task.cc:50-53 | summing the results in any order of arrival is summing over the tasks |
| TaskSystemTheorems.RepliesGrow | supercomputerCalculations/STaskSender.cc:75-91 | the replies of a run are acceptable exactly if those before its last step are, and a reply made by that step is acceptable for the task its thread holds |
| TaskSystemTheorems.PublishedSumIsAcceptable | supercomputerCalculations/STaskSender.cc:75-91 | the published sum is the total of one acceptable reply per task, whatever the schedule, failures and retries |
| TaskSystemTheorems.SumIsScheduleIndependent | supercomputerCalculations/Task.cc:41-60 | if workers compute a function of the task, the published sum is its total over all tasks |
| TaskSystemTheorems.StopMeansPublished | supercomputerCalculations/Task.cc:43-61 | a thread that is told to stop may conclude that every task has its value in the log and their total is published |
| TaskSystemTheorems.LastOnePublishes | supercomputerCalculations/Task.cc:41-60 | when no task is queued or in work and nothing is published, all tasks are finished and the next thread to ask publishes |
| TaskSender.IsQueuedTask | supercomputerCalculations/Task.cc:66-71 | what the next rows call the task of a node is, but for the iterator, the task the queue keeps under that number |
| TaskSender.Server.Ask | supercomputerCalculations/STaskSender.cc:29-32 | after any interference, the thread stops, and then the sum is published; or has nothing; or holds the node whose iterator it got, with the interval and step of that node's task |
| TaskSender.Server.GiveBack | supercomputerCalculations/STaskSender.cc:38-47 | each failure path leaves the thread without a task, with a valid iterator on the way, and the task as the next to be handed out |
| TaskSender.Server.WriteResult | supercomputerCalculations/Task.cc:78-85 | the two critical sections in order, with other threads in between: the value is recorded for the thread's task, and the thread asks again |
| TaskSender.Server.Serve | supercomputerCalculations/STaskSender.cc:36-94 | the task goes back exactly when the write, select or read fails; otherwise the value read is recorded for it, or the thread waits for m_res |
| TaskSender.Server.TaskSender | supercomputerCalculations/STaskSender.cc:29-99 | the whole loop, for every behaviour of the connection: each answer that came through is in the log for the task that was sent; the first exchange that fails ends the thread, with its task back in the queue; a thread told to stop finds the sum published |
| Integration.TaskCreate | supercomputerCalculations/TaskLocal.h:29-54 | the parts of the threads add up to the task |
| Integration.PointsFit | supercomputerCalculations/TaskLocal.h:74-78 | how many points the loop visits, exactly |
| Integration.ThreadStep | supercomputerCalculations/TaskLocal.h:74-79 | one round of the loop of one thread among others keeps its sum and its point in step, and the last leaves the whole sum in its line |
| Integration.Integrate | supercomputerCalculations/TaskLocal.h:68-82 | the loop ends, has summed exactly the points inside, and leaves begin behind the last one |
| Integration.SumError | supercomputerCalculations/TaskLocal.h:74-78 | the loop's sum against the gain of any primitive: a panel error per point and an overshoot at the end |
| Integration.LineError | supercomputerCalculations/TaskLocal.h:68-82 | the sum of one thread is within d(M+d)^2 + (b-a+d)(Md + d^2/3) of (b^3-a^3)/3 |
| Integration.CornersInside | supercomputerCalculations/TaskLocal.h:58-65 | the intervals of the threads tile the interval of the task |
| Integration.CreateLines | supercomputerCalculations/TaskLocal.h:58-65 | one separate cache line per thread, with its interval |
| Integration.RunThreads | supercomputerCalculations/TaskLocal.h:68-82 | however the rounds of the threads' loops are interleaved, all loops end and each line holds the sum over its own interval |
| Integration.Launch | supercomputerCalculations/Thread.h:84-123 | create all, join all: the result is the sum over the threads |
| Integration.AnswerError | supercomputerCalculations/Thread.h:112-123 | a worker's answer is within the sum of its threads' bounds of the integral over the task |
| Integration.TasksAreCorners | supercomputerCalculations/Task.cc:27-34 | the tasks the queue hands out are the equal parts of the interval |
| Integration.WorkersAreAccurate | supercomputerCalculations/Task.cc:27-34 | the answer over a task of the queue is within the bounds of its threads, added up |
| Integration.BoundSplits | supercomputerCalculations/Thread.h:112-123 | those bounds add up to the overshoots of the threads and the panel errors of the whole task |
| Integration.RepliesAreAccurate | supercomputerCalculations/Thread.h:112-123 | the reply of a worker with at most a given number of threads is within one bound of the integral over its task |
| Integration.Reply | supercomputerCalculations/worker.cc:98-101 | a worker splits the task it was sent among its threads and answers with the sum over them |
| Integration.ReplyIsWorkers | supercomputerCalculations/worker.cc:91-107 | for a task as the queue holds it, that answer is one of the replies the error bounds are about |
| Integration.AccurateRepliesAdd | supercomputerCalculations/Task.cc:41-60 | if every reply is within e of the integral over its task, the published sum is within count times e of the whole integral, whatever the schedule |
| Integration.PublishedSumError | supercomputerCalculations/Task.cc:41-60 | end to end: if the replies are the answers of workers, each with any number of threads up to a maximum, the published sum is within count times their bound of the integral over the whole interval, whatever the schedule, the failures and the retries |
| Integration.ProgramSumError | supercomputerCalculations/Task.cc:16-35 | with the program's constants: within 13 million for each thread of the largest worker, and 2 million, of 2e15/3 |
| CharBits.OrSetsBit | transferViaSignals/main.c:30 | on eight-bit chars, or-ing in 1 << bit sets that bit and no other, and nothing from bit 8 on |
| CharBits.AndTestsBit | transferViaSignals/main.c:131 | and-ing with 1 << bit tests that bit |
| CharBits.BitsDetermine | transferViaSignals/main.c:92 | two chars with the same bits are the same char |
| CharBits.MaskDoubles | transferViaSignals/main.c:30 | 1 << bit doubles from 1 with every bit up to seven, and nothing of it is left in a char from eight on |
| Signals.LowGrows | transferViaSignals/main.c:28-39 | or-ing in the received bit extends the known low bits of the byte by one |
| Signals.SenderKeeps | transferViaSignals/main.c:124-146 | every statement of the child keeps the phase of the handshake |
| Signals.DeliverKeeps | transferViaSignals/main.c:88 | entering a handler, nested or not, keeps the invariant |
| Signals.HandlerKeeps | transferViaSignals/main.c:28-41 | every statement of a handler, and its return, keeps the invariant |
| Signals.StepKeepsInv | transferViaSignals/main.c:28-146 | every step of the two processes keeps the invariant |
| Signals.RunKeepsInv | transferViaSignals/main.c:28-146 | the invariant holds in every state of every run |
| SignalTheorems.NothingLost | transferViaSignals/main.c:131-143 | whenever either process calls kill, no signal of the handshake is pending, so none is merged with another |
| SignalTheorems.OnlyKillsSend | transferViaSignals/main.c:131-143 | no step but those that call kill raises a signal |
| SignalTheorems.OneOutstanding | transferViaSignals/main.c:131-143 | at most one signal is outstanding in both directions together |
| SignalTheorems.BitsArrive | transferViaSignals/main.c:28-39 | outside two short windows the parent's c is the low bits of the child's byte, as many as its counter says |
| SignalTheorems.OutputIsPrefix | transferViaSignals/main.c:89-97 | the output is a prefix of the file at most one byte behind, and the whole file when the child has exited |
| SignalTheorems.HandlersDoNotRace | transferViaSignals/main.c:28-41 | handlers nest at most three deep, and an interrupted one has only its return left |
| SignalTheorems.RestMeansDone | transferViaSignals/main.c:86-98 | the processes can stop if and only if the child has exited and the parent waits with no handler left |
| SignalTheorems.RunsEndDelivered | transferViaSignals/main.c:124-148 | no deadlock: a run that cannot go on has delivered the whole file, even if handlers block every signal |
| SignalTheorems.RunsAreBounded | transferViaSignals/main.c:124-148 | every run has at most 174 steps per byte and 3 more |
| SignalPrograms.Pair.OrBit | transferViaSignals/main.c:30 | every bit of c is what it was, but the current one, which is set if a one was received |
| SignalPrograms.Pair.HandlerStatement | transferViaSignals/main.c:28-41 | the handlers change the parent's variables as the step relation says |
| SignalPrograms.Pair.LoopStatement | transferViaSignals/main.c:89-97 | so do the statements of the parent's loop |
| SignalPrograms.Pair.KillWriter | transferViaSignals/main.c:131-143 | kill finds no signal pending and leaves exactly its own |
| SignalPrograms.Pair.Sigsuspend | transferViaSignals/main.c:141-144 | the child always wakes up, whatever the parent does first |
| SignalPrograms.Pair.SendBit | transferViaSignals/main.c:131-141 | one bit is sent and answered, with the parent running at any time |
| SignalPrograms.Pair.SendByte | transferViaSignals/main.c:128-144 | eight bits and CHARFULL, with the parent running at any time, and all answered |
| SignalPrograms.Pair.Transfer | transferViaSignals/main.c:124-148 | the child's main ends, and the parent has then printed the file |
| TableValues.IndexInRange | HashTable/HashTable.c:23-26 | C's remainder is an index exactly for keys with a first char that is not negative or is a multiple of the size |
| TableValues.IndexIsRemainder | HashTable/HashTable.c:23-26 | the index differs from the first char by a multiple of the size, and is that char if it is less than the size |
| TableValues.NegativeIndex | HashTable/HashTable.c:23-26 | a key whose first char is -1 has index -1 in a table of size 50 |
| TableValues.InsertKeepsWellFormed | HashTable/HashTable.c:34-61 | each key stays unique and in its own bucket |
| TableValues.DeleteKeepsWellFormed | HashTable/HashTable.c:86-96 | the same for deletion |
| TableValues.FindRefinesMap | HashTable/HashTable.c:72-74 | searching a bucket is looking up the map the table stands for |
| TableValues.InsertRefinesMap | HashTable/HashTable.c:34-61 | insertion is map update |
| TableValues.DeleteRefinesMap | HashTable/HashTable.c:86-96 | deletion removes the key from the map and nothing else |
| TableValues.HistoryRefinesMap | HashTable/HashTable.c:27-97 | after every sequence of insertions, failing ones included, and deletions the table is well formed and stands for the map the same calls produce |
| TableValues.WalkVisitsPrefix | HashTable/HashTable.c:156-177 | a traversal visits all entries in order, or exactly those up to the first nonzero status, each starting from what the one before left, and changes no other value and no key |
| TableValues.WalkAppend | HashTable/HashTable.c:156-177 | walking bucket by bucket is walking the whole list in bucket and insertion order |
| HashTable.Table.Distinct | HashTable/HashTable.c:8-18 | no node and no key copy is in two places of the table |
| HashTable.Table.FindSlot | HashTable/HashTable.c:181-194 | the slot of the key's node, or the slot at the end of its chain; every pointer followed is to a live block |
| HashTable.Table.Store | HashTable/HashTable.c:42 | assignment through a Node ** changes one head or one next field |
| HashTable.Table.Overwrite | HashTable/HashTable.c:36-40 | a new value in place, everything else as it was |
| HashTable.Table.Append | HashTable/HashTable.c:42-59 | a node and a key copy at the end of the chain, or no change at all and no leak, exactly when the first or the second allocation fails |
| HashTable.Table.Splice | HashTable/HashTable.c:91-92 | unlinking through the slot removes exactly that node from its chain |
| HashTable.Table.Unlink | HashTable/HashTable.c:91-94 | and frees exactly its two blocks |
| HashTable.Table.Recreate | HashTable/HashTable.c:36-40 | for a key that is there, the insertion the specification means, in place |
| HashTable.Table.Add | HashTable/HashTable.c:42-61 | for a key that is not, the insertion, or, exactly when an allocation fails, no change and E_alloc |
| HashTable.Table.InsertKey | HashTable/HashTable.c:34-61 | which of the three outcomes an insertion has, and its error code, result, blocks and new contents |
| HashTable.Table.Discard | HashTable/HashTable.c:91-94 | for a key that is there, the deletion the specification means, and its two blocks freed |
| HashTable.Table.DeleteKey | HashTable/HashTable.c:86-96 | the two outcomes of a deletion |
| HashTable.Create | HashTable/HashTable.c:99-125 | an empty table, or an error code and nothing left allocated, exactly when the size is not positive or an allocation fails |
| HashTable.Insert | HashTable/HashTable.c:27-62 | on the map: update with E_recreate, addition with E_success, unchanged with E_alloc exactly when an allocation fails; E_wrongdata for null arguments |
| HashTable.Find | HashTable/HashTable.c:64-77 | the value of the key, or the caller's variable as it was |
| HashTable.Delete | HashTable/HashTable.c:78-97 | the map without the key; the node and the string of that key are freed and nothing else |
| HashTable.Table.VisitNode | HashTable/HashTable.c:160-176 | the callback sees the node's entry; the next node is known before the callback frees the node |
| HashTable.Table.WalkChain | HashTable/HashTable.c:159-176 | the inner loop is a walk over the chain, also while it frees the nodes |
| HashTable.Table.WalkAll | HashTable/HashTable.c:156-177 | the outer loop is a walk over the table, and frees exactly the visited nodes if the callback does |
| HashTable.ForEach | HashTable/HashTable.c:144-179 | status, error code, visited prefix, values and freed blocks, for every callback |
| HashTable.FreeVisitsAll | HashTable/HashTable.c:196-204 | free_ never stops the traversal |
| HashTable.Free | HashTable/HashTable.c:127-142 | every block of the table is freed, each once, and no other |
| Messages.TokenMoves | syncViaMessages/message.c:63-77 | only the child that has the message, or whose message is queued, can move, and the message goes to it or to the next |
| Messages.StepKeepsInv | syncViaMessages/message.c:31-78 | every statement of the parent and of a child keeps the invariant |
| Messages.RunKeepsInv | syncViaMessages/message.c:31-78 | the invariant holds in every state of every run |
| Messages.PrintedInOrder | syncViaMessages/message.c:69 | what is printed is always a prefix of 1, ..., n |
| Messages.OneToken | syncViaMessages/message.c:63-77 | while a child has the message, the queue is empty and no other child has it |
| Messages.OneMessage | syncViaMessages/message.c:44-45 | the queue never holds two messages |
| Messages.QueueOutlivesChildren | syncViaMessages/message.c:51-55 | the queue is removed only after every child has sent and been waited for; no child ever finds it gone |
| Messages.DoneMeansPrinted | syncViaMessages/message.c:51-57 | when the parent is done, every child there is has printed |
| Messages.ForkFailureOutput | syncViaMessages/message.c:33-45 | if fork fails at index i, the complete output is 1, ..., i |
| Messages.CompleteOutput | syncViaMessages/message.c:31-59 | if no fork fails, the complete output is 1, ..., n |
| Messages.SomethingMoves | syncViaMessages/message.c:31-78 | no deadlock: something can move until the parent is done |
| Messages.RunsAreBounded | syncViaMessages/message.c:31-78 | every run has at most 5n + 3 steps |
| MessagesProgram.Family.ChildStatement | syncViaMessages/message.c:63-77 | the child's statements change the queue and the output as the step relation says |
| MessagesProgram.Family.ForkLoop | syncViaMessages/message.c:31-59 | the loop of forks reaches the label with the first fork that fails or after the last, with children already running |
| MessagesProgram.Family.WaitChild | syncViaMessages/message.c:52-53 | wait returns, however the children are scheduled |
| MessagesProgram.Family.Run | syncViaMessages/message.c:28-57 | the parent's main ends; there are then as many children as forks before the first that fails, n if none does, and they have printed 1, 2, ... up to that number |
| Segments.Place | threadSINCalculations/task.c:17-34 | the loop from the last segment down puts every segment where halving says |
| Segments.TilesTheInterval | threadSINCalculations/task.c:17-34 | the segments tile the interval, share ends, are not empty, and each end is half as far from the left corner as the next |
| Segments.COneInterval | threadSINCalculations/task.c:39-46 | the loop computes the sum over all panels but the last; OneIntervalError and OneOfSegment say what that sum is |
| Segments.Telescopes | threadSINCalculations/task.c:43-44 | the panels telescope to the trapezoid form, for every integrand |
| Segments.LastPanel | threadSINCalculations/task.c:41-44 | the trapezoid sum over the segment is what the loop computes and the area of one more panel |
| Segments.LastPanelMissing | threadSINCalculations/task.c:41-44 | the sum is the trapezoid sum over the segment if and only if the last panel has no area |
| Segments.LastPanelOfConstant | threadSINCalculations/task.c:17-46 | for the constant 1 the sum of every one of the program's segments is wrong |
| Segments.LastSegmentFallsShort | threadSINCalculations/task.c:13-46 | for every integrand that is positive from 0.5 to 1, as sin(1/x) is, the sum of the program's last segment is too small |
| Segments.TrapezoidError | threadSINCalculations/task.c:43-44 | for any integrand and any function F: if each panel is within p of what F gains over it, k panels are within k times p of what F gains from left on |
| Segments.OneIntervalError | threadSINCalculations/task.c:39-46 | so what cOneInterval computes is within 99999999 times p of what F gains up to one panel before right |
| Segments.ExactlyOneThread | threadSINCalculations/task.c:54-58 | each segment is processed by exactly one thread |
| Segments.CRoutineStep | threadSINCalculations/task.c:56-60 | one segment of a thread, or the writing of its own cell, leaves everything else alone |
| Segments.CRoutine | threadSINCalculations/task.c:49-64 | a thread writes the sum of its segments into its own cell and nothing else |
| Segments.RunThreads | threadSINCalculations/main.c:17-30 | however the threads take turns, all end and each cell holds the sum of its thread |
| Segments.JoinedIsSum | threadSINCalculations/main.c:28-31 | the joined results are the sum over all segments |
| Segments.TotalError | threadSINCalculations/main.c:28-31 | values near the gains of F over segments that join up have a total near the gain over all of them |
| Segments.TotalIgnoresThreads | threadSINCalculations/main.c:17-31 | the total does not depend on the number of threads |
| Segments.Calculate | threadSINCalculations/main.c:9-31 | create, join, add up: for any number of threads the total over all segments of [0.001, 1], which the next three rows say more about |
| Segments.ProgramError | threadSINCalculations/main.c:9-31 | end to end: if the panels of each segment track F within p and F gains at most m over its last one, the total is within 20 (99999999 p + m) of F(1) - F(0.001) |
| Segments.TotalOfOne | threadSINCalculations/main.c:9-31 | for the constant 1 the total is exactly 0.99899999001: what the missing panels cost |
| Segments.TotalOfIdentity | threadSINCalculations/main.c:9-31 | for the identity, whose panels have no error, the total is within 2e-7 of the integral, which is all the missing panels cost |

## Left out

- Sockets, UDP discovery, timeouts and connection setup of `supercomputerCalculations`: input and output; a worker's reply is any value or a failure, and the outcomes of write, select and read are arbitrary.
- `transferViaFIFO`: a copy loop without protocol state.
- `multithreadsCalculations`: the same splitting and summation as `TaskLocal.h` and `Thread.h` with a fixed step.
- CPU detection, affinity, trash threads, thread attributes, printing of progress.
- Floating-point rounding: all arithmetic of `Integration` and `Segments` is over the reals; the integrand of `Segments` is any function instead of sin(1/x).
- The path of `TaskSender` that records 0 without a read: after a positive `select` on one descriptor, that descriptor is set.
- Failing system calls the programs do not handle, or handle by giving up: a -1 from read or write on a ready descriptor, msgsnd and msgget, shmget, pipe, a failing shutdown that ends the server process, a failing allocation in the numeric programs.
- Degenerate arguments: n < 1 in the pipeline and the message program, fewer than one thread.
- The pipeline's descriptor sets when select fails, and the ends of the children after the parent has exited.
- `SEMVMX` and `INT_MAX`: counters, lengths and values are unbounded integers.
- The contents a reader leaves in the buffer when it dies in the middle of a read: any contents, in one step; likewise a writer that dies while printing has printed any first part of the chunk.
- HashTable.ForEach: callbacks that call table operations themselves, or free some nodes and not others, are outside; a callback here sets the value, uses the caller's variable, returns any status, and frees its node always or never.
- SharedTransferPrograms.Machine.Others: stands for the other processes; only its contract matters, its body is the case in which they do nothing.
- TaskSender.Server.Others: stands for the other threads; only its contract matters, its body is the case in which they do nothing.
- TaskSender.Server.TaskSender: over histories with at most a given number of rounds, since a thread may go on asking while others hold all tasks.
