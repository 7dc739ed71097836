/** The task manager (3rdpart/common/src/task/task_manager.cpp) as a machine: one step per critical
    section or atomic operation, for any number of enqueuing threads and workers. A step that its
    thread cannot take leaves the state as it is, so every sequence of steps is a run. */
module Scheduler {
  import DelayQueue
  import TaskStatus

  // ---- The shared fields and the critical sections over them ----

  /** `task_queue_`, `delayed_tasks_`, `all_tasks_`, `stop_` and `running_`; a task is named by a `T`. */
  datatype Shared<T> = Shared(queue: seq<T>, delayed: seq<DelayQueue.Delayed<T>>, allTasks: map<int, T>,
                              stop: bool, running: bool)

  datatype PopOutcome<T> = Break | Again | Took(task: T)

  function Pop<T>(s: Shared<T>): (Shared<T>, PopOutcome<T>) {
    if s.stop then (s, Break)
    else if s.queue == [] then (s, Again)
    else (s.(queue := s.queue[1..]), Took(s.queue[0]))
  }

  predicate WaitOver<T>(s: Shared<T>) {
    s.stop || s.queue != []
  }

  /** What the drain of `task_queue_` at shutdown passes to `release`: it reads the front but removes
      the back, so the head comes up once for every element. */
  function DrainCalls<T>(queue: seq<T>): seq<T> {
    seq(|queue|, i requires 0 <= i < |queue| => queue[0])
  }

  /** The tasks, in the order of `DrainCalls`, that a drain removing the front would release. */
  function IntendedDrainCalls<T>(queue: seq<T>): seq<T> {
    queue
  }

  function TasksOf<T>(list: seq<DelayQueue.Delayed<T>>): seq<T> {
    seq(|list|, i requires 0 <= i < |list| => list[i].task)
  }

  // ---- The machine ----

  /** An `enqueue` call between its three critical sections. */
  datatype Call = Registered(task: int) | Pushed(task: int)

  datatype WorkerPhase =
    | AtWait               // about to take mutex_ and test the wait predicate
    | Parking              // tested the wait predicate and found it false; still holds mutex_
    | Blocked              // asleep on condition_, mutex_ given up
    | AtPop                // the predicate held; about to take queue_mutex_
    | Executing(task: int)
    | Erasing(task: int)   // doTask consumed the task; about to take all_tasks_mutex_
    | Exited

  datatype DelayedPhase = Off | Looping | Sleeping | Processing(batch: seq<int>) | Dropping(task: int, batch: seq<int>)

  /** Where the one `start` or `stop` call is. */
  datatype Control =
    | Idle | Starting(delayed: bool, workers: nat) | Up
    | Stopping | Joining | DrainingDelayed | DrainingQueue

  datatype Taken = ByWorker(w: nat, task: int) | ByDrain(task: int)

  /** What has happened so far. `finished[w]` are the tasks worker `w` has run to the end. */
  datatype History = History(registered: seq<int>, pushed: seq<int>, taken: seq<Taken>, finished: seq<seq<int>>,
                             consumed: set<int>, cancelled: set<int>, erased: set<int>, releases: seq<int>)

  datatype State = State(sh: Shared<int>, calls: map<nat, Call>, workers: seq<WorkerPhase>, delayer: DelayedPhase,
                         control: Control, tasks: map<int, TaskStatus.State>, h: History)

  const INITIAL := State(Shared([], [], map[], false, false), map[], [], Off, Idle, map[],
                         History([], [], [], [], {}, {}, {}, []))

  datatype ControlStep =
    | Start(delayed: bool, workers: nat) | Spawn
    | StopCas | StopFlag | Join | DrainDelayed | DrainQueue

  datatype CallStep = Register(task: int) | Push | Notify(w: nat)

  datatype WorkerStep = Check | Sleep | TryPop | Finish(consumed: bool) | Erase | Wake

  datatype DelayedStep = DelayedEnqueue(task: int, delay: int) | LoopTest | Tick | RunFirst(consumed: bool) | Drop

  datatype Step =
    | OfControl(k: ControlStep)
    | OfCall(c: nat, e: CallStep)
    | OfWorker(w: nat, a: WorkerStep)
    | OfDelayer(d: DelayedStep)
    | Cancel(task: int, alive: bool, t: nat)
    | OnTask(task: int, op: TaskStatus.Step)

  function TaskOf(s: State, task: int): TaskStatus.State {
    if task in s.tasks then s.tasks[task] else TaskStatus.INITIAL
  }

  function AllWoken(workers: seq<WorkerPhase>): seq<WorkerPhase> {
    seq(|workers|, i requires 0 <= i < |workers| => if workers[i] == Blocked then AtWait else workers[i])
  }

  predicate SomeAsleep(workers: seq<WorkerPhase>) {
    Blocked in workers || Parking in workers
  }

  /** Every step that needs mutex_ waits for a worker between its test and its sleep. The queue does not:
      it is guarded by queue_mutex_, so tasks arrive between the two. */
  predicate MutexFree(workers: seq<WorkerPhase>) {
    Parking !in workers
  }

  predicate AllExited(workers: seq<WorkerPhase>) {
    forall p :: p in workers ==> p == Exited
  }

  function ReleaseAll(tasks: map<int, TaskStatus.State>, calls: seq<int>): map<int, TaskStatus.State>
    decreases calls
  {
    if calls == [] then tasks
    else
      var t := if calls[0] in tasks then tasks[calls[0]] else TaskStatus.INITIAL;
      ReleaseAll(tasks[calls[0] := TaskStatus.ReleaseCall(t)], calls[1..])
  }

  function Released(s: State, calls: seq<int>): State {
    s.(tasks := ReleaseAll(s.tasks, calls), h := s.h.(releases := s.h.releases + calls))
  }

  function Drained(queue: seq<int>): seq<Taken> {
    seq(|queue|, i requires 0 <= i < |queue| => ByDrain(queue[i]))
  }

  /** task_manager.cpp:46-112. */
  function ControlApply(s: State, k: ControlStep): State {
    match (s.control, k)
    case (Idle, Start(d, n)) =>
      s.(sh := s.sh.(running := true, stop := false), control := Starting(d, n))
    case (Starting(d, n), Spawn) =>
      if d then s.(delayer := if s.delayer == Off then Looping else s.delayer, control := Starting(false, n))
      else if n > 0 then
        s.(workers := s.workers + [AtWait], control := Starting(false, n - 1),
           h := s.h.(finished := s.h.finished + [[]]))
      else s.(control := Up)
    case (Up, StopCas) => s.(sh := s.sh.(running := false), control := Stopping)
    case (Stopping, StopFlag) =>
      if !MutexFree(s.workers) then s
      else s.(sh := s.sh.(stop := true), workers := AllWoken(s.workers), control := Joining)
    case (Joining, Join) =>
      if AllExited(s.workers) && s.delayer == Off then s.(control := DrainingDelayed) else s
    case (DrainingDelayed, DrainDelayed) =>
      Released(s.(sh := s.sh.(delayed := []), control := DrainingQueue), TasksOf(s.sh.delayed))
    case (DrainingQueue, DrainQueue) =>
      Released(s.(sh := s.sh.(queue := []), control := Idle,
                  h := s.h.(taken := s.h.taken + Drained(s.sh.queue))),
               DrainCalls(s.sh.queue))
    case _ => s
  }

  /** task_manager.cpp:25-39. `notify_one` wakes some blocked worker if there is one. */
  function CallApply(s: State, c: nat, e: CallStep): State {
    match e
    case Register(task) =>
      if c in s.calls then s
      else s.(sh := s.sh.(allTasks := s.sh.allTasks[task := task]), calls := s.calls[c := Registered(task)],
              h := s.h.(registered := s.h.registered + [task]))
    case Push =>
      if c in s.calls && s.calls[c].Registered? then
        var task := s.calls[c].task;
        s.(sh := s.sh.(queue := s.sh.queue + [task]), calls := s.calls[c := Pushed(task)],
           h := s.h.(pushed := s.h.pushed + [task]))
      else s
    case Notify(w) =>
      if c in s.calls && s.calls[c].Pushed? && MutexFree(s.workers) then
        if w < |s.workers| && s.workers[w] == Blocked
        then s.(calls := s.calls - {c}, workers := s.workers[w := AtWait])
        else if Blocked !in s.workers then s.(calls := s.calls - {c})
        else s
      else s
  }

  /** task_manager.cpp:114-144. `Wake` is a spurious wake-up. */
  function WorkerApply(s: State, w: nat, a: WorkerStep): State {
    if w >= |s.workers| || w >= |s.h.finished| then s
    else
      match (s.workers[w], a)
      case (AtWait, Check) =>
        if MutexFree(s.workers) then s.(workers := s.workers[w := if WaitOver(s.sh) then AtPop else Parking]) else s
      case (Parking, Sleep) => s.(workers := s.workers[w := Blocked])
      case (Blocked, Wake) => s.(workers := s.workers[w := AtWait])
      case (AtPop, TryPop) =>
        var (sh', outcome) := Pop(s.sh);
        (match outcome
         case Break => s.(workers := s.workers[w := Exited])
         case Again => s.(workers := s.workers[w := AtWait])
         case Took(task) =>
           s.(sh := sh', workers := s.workers[w := Executing(task)],
              h := s.h.(taken := s.h.taken + [ByWorker(w, task)])))
      case (Executing(task), Finish(consumed)) =>
        s.(workers := s.workers[w := if consumed then Erasing(task) else AtWait],
           h := s.h.(finished := s.h.finished[w := s.h.finished[w] + [task]],
                     consumed := if consumed then s.h.consumed + {task} else s.h.consumed))
      case (Erasing(task), Erase) => Erased(s.(workers := s.workers[w := AtWait]), task)
      case _ => s
  }

  /** `all_tasks_.erase`, which does nothing when the id is not there. */
  function Erased(s: State, task: int): State {
    if task in s.sh.allTasks
    then s.(sh := s.sh.(allTasks := s.sh.allTasks - {task}), h := s.h.(erased := s.h.erased + {task}))
    else s
  }

  /** task_manager.cpp:41-44 and 146-172. */
  function DelayedApply(s: State, d: DelayedStep): State {
    match (s.delayer, d)
    case (_, DelayedEnqueue(task, delay)) =>
      s.(sh := s.sh.(delayed := s.sh.delayed + [DelayQueue.Delayed(task, delay)]))
    case (Looping, LoopTest) => s.(delayer := if s.sh.stop then Off else Sleeping)
    case (Sleeping, Tick) =>
      s.(sh := s.sh.(delayed := DelayQueue.Aged(s.sh.delayed)),
         delayer := Processing(TasksOf(DelayQueue.Due(s.sh.delayed))))
    case (Processing(batch), RunFirst(consumed)) =>
      if batch == [] then s.(delayer := Looping)
      else if consumed then
        s.(delayer := Dropping(batch[0], batch[1..]), h := s.h.(consumed := s.h.consumed + {batch[0]}))
      else s.(delayer := Processing(batch[1..]))
    case (Dropping(task, batch), Drop) => Erased(s.(delayer := Processing(batch)), task)
    case _ => s
  }

  /** task_manager.cpp:174-187. The status is stored at this step; the rest of `Task::cancel` follows as
      steps of the task. `alive` says whether the weak pointer still leads to the task. */
  function CancelApply(s: State, task: int, alive: bool, t: nat): State {
    if task !in s.sh.allTasks || t in TaskOf(s, task).inside then s
    else
      var e := Erased(s, task);
      var c := e.(h := e.h.(cancelled := e.h.cancelled + {task}));
      if alive then c.(tasks := c.tasks[task := TaskStatus.Apply(TaskOf(s, task), TaskStatus.CancelStore(t))]) else c
  }

  function Apply(s: State, step: Step): State {
    match step
    case OfControl(k) => ControlApply(s, k)
    case OfCall(c, e) => CallApply(s, c, e)
    case OfWorker(w, a) => WorkerApply(s, w, a)
    case OfDelayer(d) => DelayedApply(s, d)
    case Cancel(task, alive, t) => CancelApply(s, task, alive, t)
    case OnTask(task, op) => s.(tasks := s.tasks[task := TaskStatus.Apply(TaskOf(s, task), op)])
  }

  function Run(s: State, steps: seq<Step>): State
    decreases steps
  {
    if steps == [] then s else Run(Apply(s, steps[0]), steps[1..])
  }
}
