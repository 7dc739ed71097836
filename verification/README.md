# A verified model of the game-tool base library

The library wraps a good deal of Win32, but underneath are concurrent step machines, an asynchronous
connection server, tree algorithms, codecs and a handful of loops over shared buffers. This project models
those parts in Dafny and proves what they keep, what they promise over whole runs, and where they fall short.

`dafny verify dfyconfig.toml` checks everything.

## What is modelled

* `TaskStatus`, `TaskResets` (Task.dfy, TaskResets.dfy): the status word of a task as a machine with one step per
  compare-and-swap, store and callback, for any number of threads, what a reset does to its guarantees, and the
  class `Task` whose methods are those steps in sequence.
* `DelayQueue` (DelayQueue.dfy): the delayed list and its 100 ms tick, over whole runs of additions and ticks.
* `Scheduler`, `SchedulerSteps`, `SchedulerRuns` (files of the same names): the task manager as a machine for any
  number of callers and workers, what each kind of thread keeps, and what holds in every run. The machine has one
  step per critical section or atomic operation of `enqueue`, `delayedEnqueue`, `cancel`, `start`, `stop`, `worker`
  and `delayedWorker`, with the status machine of every task inside it. A worker that has tested the wait
  predicate and not yet gone to sleep holds `mutex_`; the queue is guarded by another mutex and keeps moving.
* `DelayedRuns` and `IndexRuns` (DelayedRuns.dfy, IndexRuns.dfy): the delayed list and the cancellation index inside
  that machine, followed over its runs.
* `TaskManagers` (TaskManager.dfy): the methods of the manager over its fields, among them the tick's
  erase-while-iterating loop and the two drains of `stop`.
* `Rpc` and `WorkerPool` (Rpc.dfy, WorkerPool.dfy): dispatch of one request to one response, and the pool that
  drains its queue before shutting down.
* `PipeServer`, `PipeSteps`, `PipeRuns` (files of the same names): the named-pipe server as a machine of pending
  accept, read, write, timer and post handlers, what each handler keeps, and what holds in every run. What the
  operating system answers is a parameter of each step, including every finite chain of failed attempts to
  reconnect. The class `NamedPipeServer` is that machine handler by handler.
* `RegistryTree`, `RegistryDelete`, `RegistryTermination`, `RegistryManager`, `RegistryCreate` (RegistryTree.dfy,
  RegistryDelete.dfy, RegistryTermination.dfy, RegistryManager.dfy, RegistryCreate.dfy): a mutable key tree with the
  answer the system gives per key; what recursive deletion does, when it ends, and the object it works on, which
  logs everything asked of the system; level-by-level creation.
* `RegistryCodec` (RegistryCodec.dfy): REG_SZ and REG_MULTI_SZ writers and readers.
* `EnvBlock` (EnvBlock.dfy): the environment-block printer and parsers.
* `FindFile`, `Strings`, `Acl`, `LogRetention` (FindFile.dfy, Strings.dfy, Acl.dfy, LogRetention.dfy): the
  stack search, text replacement and splitting, access-control lists built into an exactly sized buffer, and
  log retention over runs of rotations.
* Shared: `Lexicographic` (Lexicographic.dfy) is the order of names, `Weights` (Weights.dfy) sums over threads,
  `Options` (Options.dfy) the type of a value that may be absent.

In every machine a step whose thread cannot take it leaves the state unchanged, so each sequence of steps is
a run and each statement about `Run(INITIAL, steps)` covers all interleavings.

## What the code does that its purpose would not suggest

The model follows the code. These are proved, not presumed:

* The drain of `task_queue_` at shutdown reads the front but removes the back. It calls `release` on the head
  once per queued task and drops the others without `onRelease` (`SchedulerRuns.QueueDrain`,
  `SchedulerRuns.SecondTaskIsDropped`, `TaskManagers.TaskManager.DrainQueue`). `SchedulerRuns.IntendedQueueDrain` states what a
  drain removing the front would do, and is labelled as the intended version.
* Recursive key deletion goes round its loop again when a child answers ERROR_FILE_NOT_FOUND. A child that is
  enumerated and still gives that answer (a dangling link, or a name cut at an embedded NUL) stays first in the list,
  and the loop never ends. It ends exactly when the key cannot be opened, or nothing below it fails, or the first
  failure below it, in traversal order, is another one (`RegistryTermination.EndsExactly`, `RegistryTermination.DanglingSubkey`).
* The pipe server never resumes its write queue once it has stalled: after a failed write, and after a write
  that should start while the server is disconnected, nothing is ever sent again, even though a client
  reconnects (`PipeRuns.StallsExactly`, `PipeRuns.StalledForEver`, `PipeRuns.StalledThoughReconnected`).
* `on_connect_` can fire twice with no `on_disconnect_` in between; `on_disconnect_` cannot. The callbacks alternate
  exactly in the runs in which a connected server never completes a left-over accept and is never started
  again, without an open pipe, to connect at once (`PipeRuns.AlternatesExactly`). Both happen: an accept left
  over from a closed pipe completes on a live connection (`PipeRuns.ConnectsCanRepeat`), or it completes after no
  new pipe could be created, and `start` then connects a second time (`PipeRuns.StartCanRepeatConnect`).
* A task reset while a thread still owes a callback can see `onRun`, `onRelease` or `onError` more than once
  between resets (`TaskResets.ResetSafeExactlyWhenQuiet`, `TaskResets.LateCallback`).
* A multi-string list is recovered exactly when no string is empty or contains a NUL, and an environment block
  exactly when the overrides are clean (`RegistryCodec.MultiStringIdentityExactly`, `EnvBlock.RoundTripExactly`).
* The multi-string reader stays inside its data unless the data, not empty, has neither an empty string nor a NUL
  at its end (`RegistryCodec.OverrunsExactly`); what the writer writes is always read inside it.

## Model

| member | source | states |
|---|---|---|
| TaskStatus.SwapsBetweenResets | 3rdpart/common/src/task/task.cpp:18-63 | in every run of any number of threads, resets included: since the last reset at most one of run and release has won its swap, error at most once and only after run |
| TaskStatus.CallbacksAtMostOnce | 3rdpart/common/src/task/task.cpp:18-45 | in every interleaving, with any resets while nobody owes a callback: since the last reset onRun and onRelease together have fired at most once, onError at most once and only after a won run swap |
| TaskStatus.BalancedStep | 3rdpart/common/src/task/task.cpp:18-63 | every step keeps: callbacks fired since the last reset plus callbacks owed equal the swaps won, per kind of callback |
| TaskResets.ResetSafeExactlyWhenQuiet | 3rdpart/common/src/task/task.cpp:43-45 | the bound on callbacks holds on all runs after a reset, later quiet resets included, if and only if no thread owed a callback of a won swap when it happened |
| TaskResets.LateCallback | 3rdpart/common/src/task/task.cpp:18-45 | the run that breaks the bound after a reset with a callback still owed |
| TaskStatus.CancelledBeforeRun | 3rdpart/common/src/task/task.cpp:35-63 | cancelling keeps onRun from being called again before the next reset, whatever threads do, if and only if no thread has won the run swap without having called onRun yet; earlier runs and resets do not matter |
| TaskStatus.NoMoreRunsStep | 3rdpart/common/src/task/task.cpp:18-63 | once the status has left NONE and nobody owes onRun, no step but a reset changes that or adds a call of onRun, however many there were |
| TaskStatus.CancelledExactly | 3rdpart/common/src/task/task.cpp:43-67 | in every run, resets included, the flag isCanceled reads is set exactly when some cancel has called onCancel or is just about to; a reset leaves it alone |
| TaskStatus.ReleaseCallIsTwoSteps | 3rdpart/common/src/task/task.cpp:27-33 | a whole release call is its swap followed by its callback, and a second one changes nothing |
| TaskStatus.Task.CompareExchange | 3rdpart/common/src/task/task.cpp:19-22 | compare-and-swap on the status: won exactly when the expected status was there; nothing else changes |
| TaskStatus.Task.Run | 3rdpart/common/src/task/task.cpp:35-41 | the object moves by the machine's run swap and callback; the result is the error status exactly when the swap is lost |
| TaskStatus.Task.Error | 3rdpart/common/src/task/task.cpp:18-25 | the object moves by the machine's error swap and callback |
| TaskStatus.Task.Release | 3rdpart/common/src/task/task.cpp:27-33 | the object moves by one release call |
| TaskStatus.Task.Cancel | 3rdpart/common/src/task/task.cpp:59-63 | the object moves by the machine's store, flag and callback, and is cancelled whatever it was before |
| TaskStatus.Task.ResetStatus | 3rdpart/common/src/task/task.cpp:43-45 | the object moves by the machine's reset; callbacks fired so far are kept |
| DelayQueue.TickPartitions | 3rdpart/common/src/task/task_manager.cpp:150-164 | one tick loses and duplicates no entry: each is handed out or stays, aged by 100 ms, as often as it was listed |
| DelayQueue.TickSizes | 3rdpart/common/src/task/task_manager.cpp:150-164 | handed-out and kept entries together are as many as were listed |
| DelayQueue.FiringsAreDue | 3rdpart/common/src/task/task_manager.cpp:165-170 | what fires on a tick is what the tick hands out, in list order |
| DelayQueue.FiresOnItsTick | 3rdpart/common/src/task/task_manager.cpp:41-44 | for every run of additions and ticks, an entry with delay d fires exactly once, on tick ceil(d/100)+1 after being added (the first for d <= 0), and until then is listed once with the delay that is left |
| DelayQueue.NeverEarly | 3rdpart/common/src/task/task_manager.cpp:19-19 | that tick is never earlier than d ms after the addition if ticks are at least 100 ms apart, for entries added before the delayed worker starts too |
| DelayQueue.HardlyLate | 3rdpart/common/src/task/task_manager.cpp:19-19 | and less than d + 200 ms after it if ticks are exactly 100 ms apart and the worker has started |
| DelayedRuns.TracksStep | 3rdpart/common/src/task/task_manager.cpp:41-172 | every step of every thread keeps: the delayed list, and everything handed out, is what the additions and ticks since the last drain make of it |
| DelayedRuns.NamedBatch | 3rdpart/common/src/task/task_manager.cpp:150-170 | what the delayed worker holds after a tick is what fires on it, in list order |
| DelayedRuns.HandedIsRun | 3rdpart/common/src/task/task_manager.cpp:165-171 | in every run the delayed worker runs what is handed out, in order and each once, except for what is still in its hands |
| DelayedRuns.FiresOrIsReleased | 3rdpart/common/src/task/task_manager.cpp:41-172 | in every run of the task manager every entry added since the last drain has been handed out on its tick, once, or is listed with the delay that is left; and then the drain of stop releases its task |
| SchedulerRuns.WakeupStep | 3rdpart/common/src/task/task_manager.cpp:25-172 | every step of every thread keeps: while a worker sleeps or is about to, queued tasks are at most awake workers plus coming notifications; none sleeps once stop_ is set |
| SchedulerRuns.WorkConservation | 3rdpart/common/src/task/task_manager.cpp:114-132 | no wakeup is lost in any run: with tasks queued, nobody awake and no notification coming, no worker is asleep |
| SchedulerRuns.IdleWorkerTakes | 3rdpart/common/src/task/task_manager.cpp:114-132 | while a worker is idle, asleep or awake, and tasks are queued, workers and coming notifications can take steps that get the first task taken |
| SchedulerRuns.WorkerBetweenTasks | 3rdpart/common/src/task/task_manager.cpp:114-132 | a worker tests under mutex_ whether to go on, sleeps if not, waits again when it wakes or finds the queue empty, and leaves exactly when it finds stop_ set |
| SchedulerRuns.NotifyEffect | 3rdpart/common/src/task/task_manager.cpp:35-38 | a notification is delivered once, to a sleeper if there is one |
| SchedulerRuns.FlagsInEveryRun | 3rdpart/common/src/task/task_manager.cpp:46-80 | in every run running_ is set from start to stop, and stop_ is clear from start until stop sets it and set until its drains are over |
| SchedulerRuns.StartsAll | 3rdpart/common/src/task/task_manager.cpp:58-68 | start brings up the delayed worker if asked to, and exactly the number of workers asked for |
| SchedulerRuns.WorkersStay | 3rdpart/common/src/task/task_manager.cpp:122-126 | no worker leaves before stop_ is set |
| SchedulerRuns.DelayedWorkerStays | 3rdpart/common/src/task/task_manager.cpp:147-147 | nor does the delayed worker |
| SchedulerRuns.QueueConservation | 3rdpart/common/src/task/task_manager.cpp:31-34 | in every run, restarts included, tasks taken followed by tasks queued are the tasks pushed, in order; what a worker took is what it finished plus what it holds |
| SchedulerRuns.FifoStep | 3rdpart/common/src/task/task_manager.cpp:122-132 | every step keeps the push order of taken and queued tasks |
| SchedulerRuns.OneWorkerEachStep | 3rdpart/common/src/task/task_manager.cpp:122-143 | every step keeps that a taken task belongs to exactly one worker |
| SchedulerRuns.IndexAgreement | 3rdpart/common/src/task/task_manager.cpp:26-29 | in every run every registered id is in the index or was erased, never both when no id is registered twice; so one neither consumed nor cancelled can be found by cancel |
| SchedulerRuns.IndexStep | 3rdpart/common/src/task/task_manager.cpp:139-187 | every step keeps the agreement of index and history |
| SchedulerRuns.CancelEffect | 3rdpart/common/src/task/task_manager.cpp:174-187 | cancel takes the id found out of the index and leaves every other entry; the task, if it is still there, and no other, is cancelled |
| SchedulerRuns.CancelMisses | 3rdpart/common/src/task/task_manager.cpp:177-178 | cancel of an id that is not in the index changes nothing |
| SchedulerRuns.EraseEffect | 3rdpart/common/src/task/task_manager.cpp:135-142 | a worker that has run its task takes its id, and no other, out of the index exactly if it was consumed, and waits again |
| SchedulerRuns.DropEffect | 3rdpart/common/src/task/task_manager.cpp:165-169 | the delayed worker does the same |
| IndexRuns.IndexIsTight | 3rdpart/common/src/task/task_manager.cpp:139-187 | in every run in which no id is registered twice and none is also given to delayedEnqueue, a consumed or cancelled id is in the index only while the thread that consumed its task is just about to take it out |
| IndexRuns.TightStep | 3rdpart/common/src/task/task_manager.cpp:25-187 | every step of every thread keeps that |
| SchedulerRuns.TaskCallbacksAtMostOnce | 3rdpart/common/src/task/task.cpp:18-45 | in every run of the whole scheduler, with cancel, the drains and workers racing on a task, and any resets while nobody owes one of its callbacks, its callbacks fire at most once between resets |
| SchedulerRuns.CancelBeatsRun | 3rdpart/common/src/task/task_manager.cpp:174-187 | a cancel that finds a live task, run before or not, keeps onRun from being called again before the next reset, even with a worker holding the task, if and only if nobody is between its run swap and onRun |
| SchedulerRuns.ReleaseAllEffect | 3rdpart/common/src/task/task_manager.cpp:99-109 | a list of release calls releases each task named once and leaves every other task alone |
| SchedulerRuns.DelayedDrain | 3rdpart/common/src/task/task_manager.cpp:93-101 | stop empties the delayed list and calls release on every task left in it, in order |
| SchedulerRuns.QueueDrain | 3rdpart/common/src/task/task_manager.cpp:103-111 | stop empties the queue but releases its head only, calling release on it once per queued task |
| SchedulerRuns.QueueDrainLeavesNobodyBehind | 3rdpart/common/src/task/task_manager.cpp:103-111 | no queued task is left unstarted if and only if every task but the head had been started, cancelled or released before |
| SchedulerRuns.FreshQueueDrain | 3rdpart/common/src/task/task_manager.cpp:103-111 | of fresh, distinct tasks none is left unstarted if and only if at most one is queued |
| SchedulerRuns.SecondTaskIsDropped | 3rdpart/common/src/task/task_manager.cpp:103-111 | a run from the initial state in which the second of two enqueued tasks is dropped without onRelease and stays in the index |
| SchedulerRuns.IntendedQueueDrain | 3rdpart/common/src/task/task_manager.cpp:103-111 | the intended version, removing the front, would release every queued task |
| SchedulerRuns.StopDecreases | 3rdpart/common/src/task/task_manager.cpp:77-91 | once stop_ is set, every step of a joined thread that changes anything lowers a measure |
| SchedulerRuns.StopProgresses | 3rdpart/common/src/task/task_manager.cpp:83-91 | while a joined thread is left, one of them has a step that changes something |
| SchedulerRuns.JoinStep | 3rdpart/common/src/task/task_manager.cpp:83-91 | while stop joins, a step of a joined thread leaves it less to do, and of all other steps only an addition to the delayed list before the last tick can leave more |
| SchedulerRuns.JoinsReturn | 3rdpart/common/src/task/task_manager.cpp:77-91 | in every run up to the joins and from there, with callers enqueuing and cancelling meanwhile: the steps of joined threads are bounded by what was left and by the entries added before the one tick that may still come, and the joined threads are stuck exactly when the joins return |
| TaskManagers.Turn | 3rdpart/common/src/task/task_manager.cpp:153-163 | erasing or ageing the entry at the iterator keeps the list split into entries seen and entries as they were |
| TaskManagers.TaskManager.Enqueue | 3rdpart/common/src/task/task_manager.cpp:25-35 | the task is in the index under its id and at the back of the queue; nothing else changes |
| TaskManagers.TaskManager.DelayedEnqueue | 3rdpart/common/src/task/task_manager.cpp:41-44 | the entry is at the back of the delayed list |
| TaskManagers.TaskManager.TryPop | 3rdpart/common/src/task/task_manager.cpp:121-132 | leave, try again or take the front: the critical section of the machine's worker |
| TaskManagers.TaskManager.CheckDelayed | 3rdpart/common/src/task/task_manager.cpp:150-164 | the in-place loop hands out the entries due and leaves the others aged, both in order |
| TaskManagers.TaskManager.Cancel | 3rdpart/common/src/task/task_manager.cpp:174-187 | the id leaves the index; the live task found is cancelled; no other task is touched |
| TaskManagers.CancelledAlwaysFires | 3rdpart/common/src/task/task.cpp:59-63 | cancel stores its status and calls back whatever the status was, unlike the other three |
| TaskManagers.TaskManager.DrainDelayed | 3rdpart/common/src/task/task_manager.cpp:93-101 | the loop empties the list and releases every task in it |
| TaskManagers.TaskManager.DrainQueue | 3rdpart/common/src/task/task_manager.cpp:103-111 | the loop empties the queue; the first task is released and no other is touched |
| Rpc.CallSucceedsExactly | include/sauri/rpc/detail/call_impl.h:71-113 | a call returns if and only if the count fits, every argument can be extracted and the function returns on them; then it yields the function's value, or null for a void one; otherwise it reports that the count does not fit, or else what a failing extraction threw, or else what the function threw |
| Rpc.ExtractFromIsPointwise | include/sauri/rpc/detail/call_impl.h:71-75 | extraction succeeds exactly when every argument does, and yields them in place; otherwise it reports what one of them threw |
| Rpc.Execute | src/rpc/GameToolClient.cpp:274-300 | the closure fills its response field by field to the response of the request |
| Rpc.RespondAnswers | src/rpc/GameToolClient.cpp:276-300 | id of the request, or "unknown" with 400 exactly when the payload does not decode; 404 exactly when it decodes and the method is unbound; 500 exactly when the bound call does not complete; otherwise no error and the call's value; the message says what the decoder threw, which method is missing or why the call did not complete, and is empty without an error |
| WorkerPool.DrainingShutdown | src/rpc/GameToolClient.cpp:377-411 | in every interleaving each task is taken in push order and answered once, rightly; when all workers have left, exactly the requests pushed before that have been answered |
| WorkerPool.FifoStep | src/rpc/GameToolClient.cpp:383-392 | every step keeps the push order of taken and queued requests |
| WorkerPool.OneRunEachStep | src/rpc/GameToolClient.cpp:379-395 | every step keeps: a taken task is with exactly one worker or has its one response |
| WorkerPool.WakeupStep | src/rpc/GameToolClient.cpp:271-308 | every step keeps: while a worker sleeps, queued tasks are at most awake workers plus coming notifications; none sleeps after notify_all |
| WorkerPool.IdleWorkerTakes | src/rpc/GameToolClient.cpp:380-392 | while a worker waits, asleep or awake, the first queued request can be taken in at most two steps, the notification that is still coming among them |
| WorkerPool.WaitingWorker | src/rpc/GameToolClient.cpp:384-391 | a waiting worker runs a task exactly if there is one, leaves exactly after shutdown without one, and sleeps otherwise |
| WorkerPool.PushedExactly | src/rpc/GameToolClient.cpp:271-305 | every request is queued, whatever the pool is doing, in the order of the calls |
| WorkerPool.NotifiedOnce | src/rpc/GameToolClient.cpp:307-308 | every request is notified once |
| WorkerPool.StopperEffect | src/rpc/GameToolClient.cpp:399-404 | stopping sets the flag and leaves nobody asleep, and touches no task |
| WorkerPool.ExitsStep | src/rpc/GameToolClient.cpp:386-388 | every step keeps: workers leave only after shutdown, and what was pushed before an exit had been taken |
| WorkerPool.ShutdownDecreases | src/rpc/GameToolClient.cpp:399-411 | after shutdown with no further pushes, every step that changes anything lowers a measure over queued tasks, running tasks and live workers |
| WorkerPool.ShutdownProgresses | src/rpc/GameToolClient.cpp:405-409 | while a worker is left such a step exists |
| WorkerPool.JoinsReturn | src/rpc/GameToolClient.cpp:399-411 | in every run from shutdown on, the steps taken are bounded by what was left and three for every request still arriving; when none can be taken, every worker is gone |
| WorkerPool.SauriApplication.HandleRpcRequest | src/rpc/GameToolClient.cpp:267-305 | the request is at the back of the queue |
| WorkerPool.SauriApplication.TryTake | src/rpc/GameToolClient.cpp:382-392 | wait, leave or take the front; the queue loses exactly what was taken |
| WorkerPool.SauriApplication.DrainAlone | src/rpc/GameToolClient.cpp:380-394 | the worker loop after shutdown answers everything queued, in order, and leaves |
| PipeRuns.WritesConserveOrder | src/rpc/pipe/NamedPipeServer.cpp:83-96 | in every run, across errors, disconnects, reconnects and stop: messages written, then queued, then posted and pending are the messages accepted, in order; at most one write is outstanding, of the front of the queue |
| PipeRuns.OneWriteStep | src/rpc/pipe/NamedPipeServer.cpp:238-260 | every step keeps at most one write outstanding, with the unchanged front of the queue as its buffer |
| PipeRuns.InOrderStep | src/rpc/pipe/NamedPipeServer.cpp:88-256 | every step keeps the order of messages |
| PipeRuns.StallBegins | src/rpc/pipe/NamedPipeServer.cpp:238-260 | a queue is left without a write exactly when a write fails or one should start on a server that is stopped or not connected |
| PipeRuns.StallsExactly | src/rpc/pipe/NamedPipeServer.cpp:83-260 | a run ends with messages queued and no write outstanding if and only if on its way a write failed or one should have started on a server that was stopped or not connected |
| PipeRuns.StalledForEver | src/rpc/pipe/NamedPipeServer.cpp:88-95 | from then on no run writes out another message; what is queued stays queued |
| PipeRuns.StalledThoughReconnected | src/rpc/pipe/NamedPipeServer.cpp:262-281 | a run in which the client is connected again and the queue stays stuck |
| PipeRuns.InSyncFromConnect | src/rpc/pipe/NamedPipeServer.cpp:88-256 | from a connect with an empty queue until the first close, stop or failed write, a write is outstanding exactly when the queue is non-empty |
| PipeRuns.DeafExactly | src/rpc/pipe/NamedPipeServer.cpp:207-236 | a connected, running server is without an outstanding read if and only if on its way its only read failed, other than by a disconnect, and no connection has come or gone since |
| PipeRuns.DeafStep | src/rpc/pipe/NamedPipeServer.cpp:207-236 | a step leaves a connected, running server without a read exactly when it is that failure, or when there was none and no connection comes or goes |
| PipeRuns.NextRead | src/rpc/pipe/NamedPipeServer.cpp:217-230 | a completed read is followed by another exactly on a server still connected and not stopped |
| PipeRuns.ReportsRun | src/rpc/pipe/NamedPipeServer.cpp:83-300 | in every run messages and errors are reported as often as non-empty reads complete and reads or writes fail other than by a disconnect, timers are pending that were started and have not ended, and exactly what was written while connected and not stopped was accepted |
| PipeRuns.StartsOverEffect | src/rpc/pipe/NamedPipeServer.cpp:151-320 | a running server that finds its connection, or the attempt at one, gone reports the loss, and is then connected with one more read, listening, or neither, as the last attempt of the chain says |
| PipeSteps.WaitOutcome | src/rpc/pipe/NamedPipeServer.cpp:119-193 | of a chain of connection attempts only the last one matters |
| PipeRuns.GoodNewsEffect | src/rpc/pipe/NamedPipeServer.cpp:170-173 | a completed accept connects a running server, reports it and starts reading; a timer that finds nothing wrong changes nothing but runs on |
| PipeRuns.StartEffect | src/rpc/pipe/NamedPipeServer.cpp:50-69 | start stops the server exactly when it cannot create the pipe or the event, or finds a pipe open |
| PipeRuns.StopEffect | src/rpc/pipe/NamedPipeServer.cpp:71-81 | stop leaves the server stopped, closed and not connected |
| PipeRuns.ConnectionCallbacks | src/rpc/pipe/NamedPipeServer.cpp:134-205 | in every run is_connected_ is what the last connection callback said, and on_disconnect never follows on_disconnect |
| PipeRuns.LinksStep | src/rpc/pipe/NamedPipeServer.cpp:50-320 | every step keeps that agreement; and a connect is reported right after a connect exactly when a connected server completes a left-over accept, or is started without an open pipe and connects at once; no other step does it |
| PipeRuns.AlternatesExactly | src/rpc/pipe/NamedPipeServer.cpp:50-320 | connects and disconnects alternate in a run, beginning with a connect, if and only if no step of it does that |
| PipeSteps.WaitAgrees | src/rpc/pipe/NamedPipeServer.cpp:119-193 | a connection attempt, with all its retries, keeps the agreement, and repeats a connect exactly when it succeeds at once on a connected server |
| PipeRuns.ConnectsCanRepeat | src/rpc/pipe/NamedPipeServer.cpp:149-174 | a run with two on_connect calls in a row, the second by an accept left over from a closed pipe |
| PipeRuns.StartCanRepeatConnect | src/rpc/pipe/NamedPipeServer.cpp:50-69 | a run with two on_connect calls in a row, the second by start on a server connected without an open pipe |
| PipeRuns.StoppedStep | src/rpc/pipe/NamedPipeServer.cpp:71-81 | on a stopped server no step arms a handler, each handler uses one up, and nobody connects |
| PipeRuns.Quiescence | src/rpc/pipe/NamedPipeServer.cpp:71-320 | after is_stopped_ is set every run executes at most as many handlers as were pending, with no on_connect and at most one on_disconnect, none if stop has returned |
| PipeServer.NamedPipeServer.constructor | src/rpc/pipe/NamedPipeServer.cpp:5-28 | the server starts in the machine's initial state |
| PipeServer.NamedPipeServer.DoClosePipe | src/rpc/pipe/NamedPipeServer.cpp:195-205 | the pipe is closed and a connected server reports its disconnect; the write queue is left alone |
| PipeServer.NamedPipeServer.DoStartRead | src/rpc/pipe/NamedPipeServer.cpp:207-236 | a read is armed exactly when connected and not stopped |
| PipeServer.NamedPipeServer.DoConnect | src/rpc/pipe/NamedPipeServer.cpp:139-142 | connected, reported, and reading unless stopped |
| PipeServer.NamedPipeServer.StartWrite | src/rpc/pipe/NamedPipeServer.cpp:238-260 | a write of the front is armed exactly when connected, not stopped and the queue is non-empty |
| PipeServer.NamedPipeServer.Wait | src/rpc/pipe/NamedPipeServer.cpp:119-193 | every outcome of a connection attempt, recursion after errors included, and whether an exception leaves |
| PipeServer.NamedPipeServer.DoRestart | src/rpc/pipe/NamedPipeServer.cpp:274-280 | a new pipe and a new attempt, exceptions swallowed |
| PipeServer.NamedPipeServer.HandleErrorCode | src/rpc/pipe/NamedPipeServer.cpp:262-286 | a disconnect closes and, unless stopped, listens again; any other error is reported only |
| PipeServer.NamedPipeServer.StopServer | src/rpc/pipe/NamedPipeServer.cpp:71-81 | the first call sets the flag and closes; later calls do nothing |
| PipeServer.NamedPipeServer.StartServer | src/rpc/pipe/NamedPipeServer.cpp:50-69 | pipe, connection attempt and timer; an exception on the way stops the server |
| PipeServer.NamedPipeServer.StartCheckTimer | src/rpc/pipe/NamedPipeServer.cpp:288-300 | the timer is armed unless stopped |
| PipeServer.NamedPipeServer.WriteMessage | src/rpc/pipe/NamedPipeServer.cpp:83-96 | a message is posted exactly when connected and not stopped |
| PipeServer.NamedPipeServer.OnPost | src/rpc/pipe/NamedPipeServer.cpp:88-95 | the machine's step for a posted message |
| PipeServer.NamedPipeServer.OnAccept | src/rpc/pipe/NamedPipeServer.cpp:151-174 | the machine's step for a completed accept |
| PipeServer.NamedPipeServer.OnRead | src/rpc/pipe/NamedPipeServer.cpp:217-233 | the machine's step for a completed read |
| PipeServer.NamedPipeServer.OnWritten | src/rpc/pipe/NamedPipeServer.cpp:247-257 | the machine's step for a completed write |
| PipeServer.NamedPipeServer.OnTimer | src/rpc/pipe/NamedPipeServer.cpp:293-320 | the machine's step for the connection check |
| RegistryManager.Registry.DeleteKeyRecursively | 3rdpart/systemkit/src/windows/registry_manager_windows.cpp:418-458 | for a key whose deletion ends, the loop that always removes child 0 returns the code, and leaves the registry with the target replaced by what is left of it; everything it asks of the system is the traversal up to the first failure, and after each request exactly the keys removed so far are gone |
| RegistryManager.Registry.OpenKey | 3rdpart/systemkit/src/windows/registry_manager_windows.cpp:419-426 | opening a key answers its status, or that it is not found, changes no key and is logged |
| RegistryManager.Registry.RemoveKey | 3rdpart/systemkit/src/windows/registry_manager_windows.cpp:455-457 | removing a key without subkeys takes its path from the registry if the system agrees, and nothing else, and is logged |
| RegistryTermination.EndsExactly | 3rdpart/systemkit/src/windows/registry_manager_windows.cpp:432-451 | deletion ends, after however many turns of the loop, if and only if the key cannot be opened or the first failure below it, in traversal order, is not ERROR_FILE_NOT_FOUND |
| RegistryTermination.EndsInTime | 3rdpart/systemkit/src/windows/registry_manager_windows.cpp:432-451 | then it ends within a number of turns and calls twice that of the keys, with the code and the tree the other results are about |
| RegistryTermination.EndedIsDelete | 3rdpart/systemkit/src/windows/registry_manager_windows.cpp:446-450 | whenever it ends, that code and that tree are what it ends with |
| RegistryTermination.NotFoundAgain | 3rdpart/systemkit/src/windows/registry_manager_windows.cpp:446-450 | what a child leaves after answering ERROR_FILE_NOT_FOUND gives that answer again |
| RegistryTermination.DanglingSubkey | 3rdpart/systemkit/src/windows/registry_manager_windows.cpp:446-450 | a key with one subkey that is enumerated but not found, whose deletion never ends |
| RegistryDelete.DeleteCode | 3rdpart/systemkit/src/windows/registry_manager_windows.cpp:418-458 | deletion returns the first failure in traversal order, whatever the names of the keys |
| RegistryDelete.LeftsExact | 3rdpart/systemkit/src/windows/registry_manager_windows.cpp:433-456 | the keys left after each request of the log are those there were without the ones removed up to it |
| RegistryDelete.LeftBottomUp | 3rdpart/systemkit/src/windows/registry_manager_windows.cpp:433-456 | in each of the states logged, a key that is gone has lost its whole subtree |
| RegistryTree.FirstChild | 3rdpart/systemkit/src/windows/registry_manager_windows.cpp:435-450 | the first child enumerated is found under its name, and replacing it replaces the head of the list |
| RegistryDelete.DeleteExact | 3rdpart/systemkit/src/windows/registry_manager_windows.cpp:418-458 | deletion returns the first failure in traversal order, and removes exactly the keys whose removal comes before it |
| RegistryDelete.DeleteSucceedsExactly | 3rdpart/systemkit/src/windows/registry_manager_windows.cpp:418-458 | it succeeds if and only if no key of the subtree is denied, and then the subtree is gone |
| RegistryDelete.RemovedWithSubtree | 3rdpart/systemkit/src/windows/registry_manager_windows.cpp:433-456 | whether or not the deletion succeeds, every key removed before the first failure had its whole subtree removed before it, and nothing of it is left |
| RegistryDelete.RemovedBottomUp | 3rdpart/systemkit/src/windows/registry_manager_windows.cpp:433-456 | in every beginning of the traversal, a key already removed has had its whole subtree removed |
| RegistryDelete.PutPaths | 3rdpart/systemkit/src/windows/registry_manager_windows.cpp:454-456 | replacing or removing the key at a path changes no path outside its subtree |
| RegistryDelete.DeleteKeyExact | 3rdpart/systemkit/src/windows/registry_manager_windows.cpp:460-475 | of the whole registry exactly the target's keys removed before the first failure are gone; every key outside stays |
| RegistryCreate.LevelsGrow | 3rdpart/systemkit/src/windows/registry_manager_windows.cpp:1107-1116 | the paths created are a strictly growing chain of prefixes ending in the full path, one name more on each level |
| RegistryCreate.PrefixComponents | 3rdpart/systemkit/src/windows/registry_manager_windows.cpp:1109-1113 | what comes before separator i names exactly the first i + 1 components |
| RegistryCreate.ComponentsRead | 3rdpart/systemkit/src/windows/registry_manager_windows.cpp:1107-1115 | reading the names as they stand between the separators meets what creation by levels needs of the system: more text never changes the names read before |
| RegistryCreate.NonEmptyRead | 3rdpart/systemkit/src/windows/registry_manager_windows.cpp:1107-1115 | so does reading them without the empty ones |
| RegistryCreate.NextLevel | 3rdpart/systemkit/src/windows/registry_manager_windows.cpp:1107-1120 | creating a level on top of the levels before is creating its path directly, however the system reads paths |
| RegistryCreate.CreatePrefixFirst | 3rdpart/systemkit/src/windows/registry_manager_windows.cpp:1107-1138 | creating a prefix first makes no difference to creating the path |
| RegistryCreate.CreateAddsPath | 3rdpart/systemkit/src/windows/registry_manager_windows.cpp:1094-1103 | creation adds the path and its parents and nothing else |
| RegistryCreate.FindSeparators | 3rdpart/systemkit/src/windows/registry_manager_windows.cpp:1083-1088 | the scan collects the separator positions in order |
| RegistryCreate.CreateEachLevel | 3rdpart/systemkit/src/windows/registry_manager_windows.cpp:1107-1138 | the prefix loop leaves the tree as directly creating the last level granted would, and reports the first refusal |
| RegistryCreate.EndingMeans | 3rdpart/systemkit/src/windows/registry_manager_windows.cpp:1122-1133 | done exactly when every level is granted; access denied exactly when the first refusal answers 5; failed exactly when it answers anything else |
| RegistryCreate.AutoCreateKey | 3rdpart/systemkit/src/windows/registry_manager_windows.cpp:1071-1145 | empty path, direct creation, or level by level; whenever it is done the tree is that of direct creation |
| RegistryCreate.DeleteUndoesCreate | 3rdpart/systemkit/src/windows/registry_manager_windows.cpp:418-458 | after creating a missing path, deleting the shortest prefix that was missing succeeds and restores the tree |
| RegistryCreate.CreateThenDelete | 3rdpart/systemkit/src/windows/registry_manager_windows.cpp:1071-1138 | the two methods in sequence restore the registry |
| RegistryCodec.StringRoundTrip | 3rdpart/systemkit/src/windows/registry_manager_windows.cpp:124-148 | every sequence of code units written by setString is read back by asString |
| RegistryCodec.BytesRoundTrip | 3rdpart/systemkit/src/windows/registry_manager_windows.cpp:849-850 | code units survive being stored as bytes |
| RegistryCodec.AsStringExactly | 3rdpart/systemkit/src/windows/registry_manager_windows.cpp:124-148 | of any data asString reads the units it is made of, without one terminator if it ends in one; data of odd length is read byte by byte, without one last NUL |
| RegistryCodec.TotalSize | 3rdpart/systemkit/src/windows/registry_manager_windows.cpp:961-965 | the first loop computes exactly the size of what the second writes |
| RegistryCodec.CopyString | 3rdpart/systemkit/src/windows/registry_manager_windows.cpp:972-973 | copying one string fills its field and nothing outside it |
| RegistryCodec.EncodeMultiString | 3rdpart/systemkit/src/windows/registry_manager_windows.cpp:961-977 | the buffer is filled exactly, without overrun |
| RegistryCodec.MultiStringLayout | 3rdpart/systemkit/src/windows/registry_manager_windows.cpp:961-977 | each string without NULs stands behind those before it and their terminators, with its own, and the data ends one NUL behind the last |
| RegistryCodec.ReadString | 3rdpart/systemkit/src/windows/registry_manager_windows.cpp:195-195 | the string at the pointer, up to its NUL, which lies inside data that ends in one |
| RegistryCodec.DecodeMultiString | 3rdpart/systemkit/src/windows/registry_manager_windows.cpp:190-198 | the pointer loop reads the strings up to the first empty one, or past the end exactly when a string does not end inside the data |
| RegistryCodec.OverrunsExactly | 3rdpart/systemkit/src/windows/registry_manager_windows.cpp:190-198 | the reader goes past the end if and only if the data is not empty, has no empty string and no NUL at its end |
| RegistryCodec.WrittenStaysInside | 3rdpart/systemkit/src/windows/registry_manager_windows.cpp:961-977 | what the writer writes is never read past its end |
| RegistryCodec.MultiStringRoundTrip | 3rdpart/systemkit/src/windows/registry_manager_windows.cpp:961-977 | what any list becomes after writing and reading, empty strings and embedded NULs included |
| RegistryCodec.MultiStringIdentityExactly | 3rdpart/systemkit/src/windows/registry_manager_windows.cpp:176-212 | a list comes back unchanged if and only if no string is empty or contains a NUL |
| RegistryCodec.MultiStringPrefix | 3rdpart/systemkit/src/windows/registry_manager_windows.cpp:176-212 | of NUL-free strings exactly the longest prefix of non-empty ones comes back |
| EnvBlock.GetAll | 3rdpart/systemkit/src/windows/environment_variables_windows.cpp:441-457 | the pointer loop yields the map the block stands for, staying inside the block |
| EnvBlock.GetNames | 3rdpart/systemkit/src/windows/environment_variables_windows.cpp:545-560 | the pointer loop yields the names in block order |
| EnvBlock.NamesInOrder | 3rdpart/systemkit/src/windows/environment_variables_windows.cpp:545-560 | the names listed stand in the order of the entries that set a variable, each what comes before the first equals sign, repeated ones repeated |
| EnvBlock.ReadEntry | 3rdpart/systemkit/src/windows/process_launcher_windows.cpp:99-110 | one turn of the loops: the entry's variable, if it sets one, and the rest of the block |
| EnvBlock.SplitEntry | 3rdpart/systemkit/src/windows/environment_variables_windows.cpp:445-452 | an entry sets no variable exactly when it has no equals sign or starts with one; otherwise it is the name, without equals signs, an equals sign and the value of the one it sets |
| EnvBlock.EnvOfExactly | 3rdpart/systemkit/src/windows/environment_variables_windows.cpp:441-456 | the map has a variable if and only if some entry of the block sets it and no later entry sets the same name |
| EnvBlock.KeysExactly | 3rdpart/systemkit/src/windows/environment_variables_windows.cpp:441-456 | its keys are exactly the names some entry sets |
| EnvBlock.OverriddenExactly | 3rdpart/systemkit/src/windows/process_launcher_windows.cpp:113-116 | after overriding, the map has the overrides, and what it had before under other names |
| EnvBlock.NamesAreKeys | 3rdpart/systemkit/src/windows/environment_variables_windows.cpp:522-560 | on every block the set of names listed is the set of keys of the map |
| EnvBlock.InsertAscending | 3rdpart/systemkit/src/windows/environment_variables_windows.cpp:451-451 | assignment to a map entry keeps the entries in strictly ascending order of names |
| EnvBlock.CreateEnvironmentBlock | 3rdpart/systemkit/src/windows/process_launcher_windows.cpp:80-126 | nothing without overrides; otherwise the current environment overridden, printed entry by entry |
| EnvBlock.PrintBlock | 3rdpart/systemkit/src/windows/process_launcher_windows.cpp:118-125 | the printing loop appends every entry with its NUL, and a final NUL |
| EnvBlock.BlockLength | 3rdpart/systemkit/src/windows/process_launcher_windows.cpp:84-87 | nothing is printed without overrides; otherwise every variable with an equals sign and a NUL, and one more NUL |
| EnvBlock.PrintedInOrder | 3rdpart/systemkit/src/windows/process_launcher_windows.cpp:118-121 | for clean overrides the entries of the output are the merged variables, names strictly ascending |
| EnvBlock.RoundTripExactly | 3rdpart/systemkit/src/windows/process_launcher_windows.cpp:80-126 | parsing the output yields the current map overridden by the overrides if and only if the overrides are clean |
| EnvBlock.EnvOfClean | 3rdpart/systemkit/src/windows/environment_variables_windows.cpp:442-456 | whatever the block, parsing yields clean variables by strictly ascending names |
| EnvBlock.BlockWellFormed | 3rdpart/systemkit/src/windows/process_launcher_windows.cpp:118-125 | the output can be parsed without running past its end, whatever the overrides |
| FindFile.Find | 3rdpart/common/include/common/utils/path.h:58-82 | the search ends on every finite tree; it returns nothing exactly when no regular file of the name can be reached, and otherwise the path of one |
| FindFile.MatchesExactly | 3rdpart/common/include/common/utils/path.h:58-82 | the paths searched for are exactly those that lead through readable directories to a regular file of the name |
| Strings.ReplaceAllInPlace | 3rdpart/common/include/common/utils/strings.h:63-75 | the in-place loop ends even when the new text contains the old, and computes the leftmost non-overlapping replacement |
| Strings.ReplaceAllJoinsPieces | 3rdpart/common/include/common/utils/strings.h:63-75 | the text is its pieces joined by the old text, and the result the same pieces joined by the new |
| Strings.PiecesLeftmost | 3rdpart/common/include/common/utils/strings.h:70-73 | the occurrences replaced are the leftmost ones: none begins inside or at the seam of a piece |
| Strings.ReplaceAllLength | 3rdpart/common/include/common/utils/strings.h:70-73 | the length changes by the difference of the two texts for every occurrence |
| Strings.FirstIsFirst | 3rdpart/common/include/common/utils/strings.h:70-70 | find yields an occurrence, and none lies before it |
| Strings.FixPath | 3rdpart/common/include/common/utils/path.h:89-110 | the loop computes the replacement of one backslash by two |
| Strings.FixPathUndone | 3rdpart/common/include/common/utils/path.h:89-110 | replacing two backslashes by one gives the path back |
| Strings.Split | 3rdpart/common/include/common/utils/strings.h:249-259 | tokens hold no delimiter, and joined give the text, or the text without its last character when that is a delimiter |
| Acl.ComputeSize | 3rdpart/systemkit/src/windows/permission_handler_windows.cpp:781-806 | the size is the header, an entry for every permission, and the old entries |
| Acl.CopyOld | 3rdpart/systemkit/src/windows/permission_handler_windows.cpp:834-849 | the copying loop never runs out of room and yields the readable old entries in order |
| Acl.EntriesSay | 3rdpart/systemkit/src/windows/permission_handler_windows.cpp:873-883 | the new entries say what the permissions other than revocations say, one for one and in order |
| Acl.AddEntry | 3rdpart/systemkit/src/windows/permission_handler_windows.cpp:870-883 | a grant adds one allowing entry and a denial one denying entry, for that trustee with those flags and that mask; a revocation adds none; an entry is refused only for want of room |
| Acl.AddNew | 3rdpart/systemkit/src/windows/permission_handler_windows.cpp:852-891 | the adding loop never runs out of room and appends the entries of the permissions in order |
| Acl.EntryStep | 3rdpart/systemkit/src/windows/permission_handler_windows.cpp:853-891 | at every iteration what is written fits what was counted for it |
| Acl.CopiedFit | 3rdpart/systemkit/src/windows/permission_handler_windows.cpp:834-849 | copying takes no more room than counted, and exactly as much when no entry is skipped |
| Acl.EntriesFit | 3rdpart/systemkit/src/windows/permission_handler_windows.cpp:852-891 | adding takes no more room than counted, and exactly as much when nothing is a revocation |
| Acl.BuildAcl | 3rdpart/systemkit/src/windows/permission_handler_windows.cpp:781-891 | building succeeds; the list is the readable old entries in order with their ids, then one entry for each permission that is not a revocation, in order, allowing exactly for grants and denying exactly for denials, with its trustee, flags and mask; the buffer is full exactly when nothing is a revocation and no old entry was skipped |
| LogRetention.NamesAreChronological | src/logger_helper/logger_helper.cpp:90-91 | zero-padded YYYY-MM-DD names are in lexicographic order exactly when their dates are in chronological order |
| LogRetention.NameShape | src/logger_helper/logger_helper.cpp:17-17 | a directory name is ten characters, four digits, two and two between dashes, that stand for year, month and day |
| LogRetention.GreatestUnique | src/logger_helper/logger_helper.cpp:88-97 | the k greatest names of a set are one set |
| LogRetention.LoggerHelper.CleanOldLogs | src/logger_helper/logger_helper.cpp:75-103 | the k greatest directory names remain, or all when there are no more; a negative limit removes nothing |
| LogRetention.LoggerHelper.ConfigureLogger | src/logger_helper/logger_helper.cpp:39-58 | the current date is today's and its directory exists |
| LogRetention.LoggerHelper.Initialize | src/logger_helper/logger_helper.cpp:25-34 | after start-up the k greatest of what was found and today remain |
| LogRetention.LoggerHelper.Dispatch | src/logger_helper/logger_helper.cpp:112-126 | nothing happens on the same date; on another the directory is made and the k greatest remain |
| LogRetention.GreatestOfKept | src/logger_helper/logger_helper.cpp:88-97 | keeping the greatest of those kept and a newcomer is keeping the greatest of all there ever were |
| LogRetention.GreatestOverRuns | src/logger_helper/logger_helper.cpp:112-122 | after any run of rotations the directories are the k greatest names there have ever been, whatever the clock does |
| LogRetention.RetentionOverRuns | src/logger_helper/logger_helper.cpp:75-122 | with k >= 1 and a clock that does not run backwards at most k remain and the current date's directory is among them |
| LogRetention.KeptExactly | src/logger_helper/logger_helper.cpp:88-97 | a directory survives cleaning if and only if fewer than k names are greater |
| LogRetention.CurrentKeptExactly | src/logger_helper/logger_helper.cpp:112-122 | whatever the clock does, the current date's directory survives if and only if fewer than k of all the names there have been are later dates |
| LogRetention.RunLogger | src/logger_helper/logger_helper.cpp:25-122 | the same for the object: initialised once and dispatching any number of lines |

## Left out

- Win32, COM, handles, security tokens, process launching and firewall rules: foreign calls; only the answers the loops need enter, as parameters.
- UTF-8 and UTF-16 conversion: text is a sequence of code units; names that differ before conversion are taken to differ after it.
- JSON parsing and printing, UUIDs and easylogging++: payload decoding, argument extraction and bound functions are abstract functions that may throw; the numbers in the arity error's text are not modelled, nor exceptions outside the C++ standard hierarchy.
- The sending of a response by `sendMessage`, which drops it when no client is connected: `WorkerPool` ends where the response is produced, and serialising the response, which happens outside the handlers and can throw on text that is not UTF-8, is taken not to throw; what the pipe does with a message is `PipeServer`.
- The memory model: the unlocked read of `task_queue_` in the wait predicate is one sequentially consistent step.
- `TaskManager::start` and `stop` as methods: threads are not objects here; they are the control steps of `Scheduler`, which takes the calls not to overlap. Each drain is one step there, and loops of their own in `TaskManagers`.
- Null tasks in the queue, and `doTask` and `doDelayedTask`, which subclasses supply: whether they consume a task is a parameter, and what they call on it are steps of its status machine.
- TaskManagers.TaskManager.Enqueue: the notification is not part of the object; it is a step of `Scheduler`.
- TaskManagers.TaskManager.Cancel: weak pointers are modelled by saying whether the task is still alive.
- Callbacks of the pipe server that call back into it, and the bytes of messages read: reads are counted.
- The pipe client, which has the same write queue, and the handshake with the front end, whose other side is not part of this model.
- RegistryManager.Registry.DeleteKeyRecursively: it is called on a key whose deletion ends, the others being the subject of `RegistryTermination`; the system does not remove the root key itself, names are compared exactly, and failures of the enumeration itself are left out.
- RegistryCreate.AutoCreateKey: how the system reads the text of a path, empty names in particular, is a parameter of which only that more text never changes the names read before is taken; a refused direct creation creates nothing; a new key is enumerated last.
- RegistryCodec.DecodeMultiString: what is read past the end of the data is not modelled; odd-length data, read as narrow characters by the same loop, is left out.
- EnvBlock.GetAll: the block is as the system hands it out, ending in NUL and an empty entry.
- User and system scopes of the environment functions, which enumerate registry values.
- FindFile.Find: the tree is finite, without symbolic links, and does not change during the search.
- Acl.BuildAcl: sizes do not overflow 32 bits, a trustee has the same SID both times it is looked up, and failures of the calls around the loops are left out; what a revocation does is no part of these loops.
- LogRetention.LoggerHelper.CleanOldLogs: removal of a directory does not fail, and directories of any name count, as in the source.
- The fields of `Result`, exception classes, error-code tables, enum conversions and inheritance flags: finite or single-branch facts.
- Linux and macOS branches, the example program, `startsWith`, `trim`, number parsing and `CacheData`: thin wrappers or no logic.
