/** What every step and every run of the task manager keeps (3rdpart/common/src/task/task_manager.cpp). */
module SchedulerRuns {
  import DelayQueue
  import TaskStatus
  import opened Weights
  import opened Scheduler
  import opened SchedulerSteps

  // ---- Work conservation ----
  lemma WakeupStep(s: State, step: Step)
    requires NoLostWakeup(s)
    ensures NoLostWakeup(Apply(s, step))
  {
    match step
    case OfControl(k) => WakeupControl(s, k);
    case OfCall(c, e) => WakeupCall(s, c, e);
    case OfWorker(w, a) => WakeupWorker(s, w, a);
    case _ => OffQueue(s, step);
  }

  // ---- First in, first out, and one worker each ----
  lemma FifoStep(s: State, step: Step)
    requires Fifo(s)
    ensures Fifo(Apply(s, step))
  {
    match step
    case OfControl(k) => FifoControl(s, k);
    case OfCall(c, e) => FifoCall(s, c, e);
    case OfWorker(w, a) => FifoWorker(s, w, a);
    case _ => OffQueue(s, step);
  }

  lemma OneWorkerEachStep(s: State, step: Step)
    requires OneWorkerEach(s)
    ensures OneWorkerEach(Apply(s, step))
  {
    match step
    case OfControl(k) => OneWorkerEachControl(s, k);
    case OfCall(c, e) => assert OneWorkerEach(CallApply(s, c, e));
    case OfWorker(w, a) => OneWorkerEachWorker(s, w, a);
    case _ => OffQueue(s, step);
  }

  // ---- The cancellation index ----
  lemma IndexStep(s: State, step: Step)
    requires IndexAgrees(s) && ErasersConsumed(s)
    ensures IndexAgrees(Apply(s, step)) && ErasersConsumed(Apply(s, step))
  {
    match step
    case OfControl(k) => IndexControl(s, k);
    case OfCall(c, e) => IndexCall(s, c, e); if e.Register? { IndexRegister(s, c, e.task); }
    case OfWorker(w, a) => IndexWorker(s, w, a);
    case OfDelayer(d) => IndexDelayed(s, d);
    case Cancel(task, alive, t) => IndexCancel(s, task, alive, t); OffQueueCancel(s, task, alive, t);
    case OnTask(_, _) => assert SameIndex(s, Apply(s, step));
  }

  // ---- All of it, in every run ----
  lemma {:induction false} InvRun(s: State, steps: seq<Step>)
    requires Inv(s)
    ensures Inv(Run(s, steps))
    decreases steps
  {
    if steps == [] {
    } else {
      WakeupStep(s, steps[0]);
      FifoStep(s, steps[0]);
      OneWorkerEachStep(s, steps[0]);
      IndexStep(s, steps[0]);
      FlagsStep(s, steps[0]);
      InvRun(Apply(s, steps[0]), steps[1..]);
    }
  }

  /** In every run: work conservation, and nobody sleeps once `stop_` is set. In particular a state in
      which no worker is awake and no notification is coming has an empty queue or no sleeping worker. */
  lemma WorkConservation(steps: seq<Step>)
    ensures NoLostWakeup(Run(INITIAL, steps))
    ensures var s := Run(INITIAL, steps);
            s.sh.queue != [] && Awake(s.workers) == 0 && Notifying(s.calls) == {} ==> !SomeAsleep(s.workers)
  {
    InvRun(INITIAL, steps);
  }

  /** In every run, restarts included: tasks leave the queue in push order, none is lost or duplicated,
      and every task taken by a worker is run to the end by that worker or is the one in its hand. */
  lemma QueueConservation(steps: seq<Step>)
    ensures Fifo(Run(INITIAL, steps)) && OneWorkerEach(Run(INITIAL, steps))
  {
    InvRun(INITIAL, steps);
  }

  /** In every run a registered task that is neither consumed nor cancelled can be found by `cancel`. */
  lemma IndexAgreement(steps: seq<Step>)
    ensures var s := Run(INITIAL, steps);
            && IndexAgrees(s)
            && Set(s.h.registered) - s.h.consumed - s.h.cancelled <= s.sh.allTasks.Keys
  {
    InvRun(INITIAL, steps);
  }

  /** In every run the two flags say where `start` and `stop` are. */
  lemma FlagsInEveryRun(steps: seq<Step>)
    ensures FlagsAgree(Run(INITIAL, steps))
  {
    InvRun(INITIAL, steps);
  }

  // ---- Starting ----

  /** `start` brings up the delayed worker, if asked to, and the number of workers asked for. */
  lemma {:induction false} StartsAll(s: State, delayed: bool, workers: nat)
    requires s.control == Starting(delayed, workers)
    ensures var s' := Run(s, Spawns(delayed, workers));
            && s'.control == Up
            && s'.workers == s.workers + Waiting(workers)
            && (if delayed then s'.delayer != Off else s'.delayer == s.delayer)
    decreases workers, delayed
  {
    var next := ControlApply(s, Spawn);
    if delayed {
      StartsAll(next, false, workers);
      RunCons(s, OfControl(Spawn), Spawns(false, workers));
    } else if workers > 0 {
      StartsAll(next, false, workers - 1);
      RunCons(s, OfControl(Spawn), Spawns(false, workers - 1));
      assert s.workers + Waiting(workers) == (s.workers + [AtWait]) + Waiting(workers - 1);
    } else {
      RunCons(s, OfControl(Spawn), []);
      assert s.workers + Waiting(0) == s.workers;
    }
  }

  /** Until `stop_` is set nobody leaves: not the delayed worker, and no worker. */
  lemma DelayedWorkerStays(s: State, step: Step)
    requires !s.sh.stop && s.delayer != Off
    ensures Apply(s, step).delayer != Off
  {
    match step
    case OfControl(k) => assert ControlApply(s, k).delayer != Off;
    case OfCall(c, e) => OffControlCall(s, c, e);
    case OfWorker(w, a) => OffControlWorker(s, w, a);
    case OfDelayer(d) => assert DelayedApply(s, d).delayer != Off;
    case Cancel(task, alive, t) => OffQueueCancel(s, task, alive, t);
    case OnTask(_, _) =>
  }

  lemma WorkersStay(s: State, step: Step)
    requires !s.sh.stop
    ensures |s.workers| <= |Apply(s, step).workers|
    ensures forall w :: 0 <= w < |s.workers| && Apply(s, step).workers[w] == Exited ==> s.workers[w] == Exited
  {
    match step
    case OfControl(k) => assert |s.workers| <= |ControlApply(s, k).workers|;
    case OfCall(c, e) => assert |CallApply(s, c, e).workers| == |s.workers|;
    case OfWorker(w, a) => assert |WorkerApply(s, w, a).workers| == |s.workers|;
    case _ => OffQueue(s, step);
  }

  // ---- A queued task can be taken ----

  /** What a worker does between tasks: it tests whether to go on under mutex_, sleeps if not, and is waiting again
      when it wakes or finds the queue empty; it leaves exactly when it then finds stop_ set. */
  lemma WorkerBetweenTasks(s: State, w: nat)
    requires w < |s.workers| == |s.h.finished|
    ensures s.workers[w] == AtWait && MutexFree(s.workers) ==>
              Apply(s, OfWorker(w, Check)).workers[w] == if s.sh.stop || s.sh.queue != [] then AtPop else Parking
    ensures s.workers[w] == Parking ==> Apply(s, OfWorker(w, Sleep)).workers[w] == Blocked
    ensures s.workers[w] == Blocked ==> Apply(s, OfWorker(w, Wake)).workers[w] == AtWait
    ensures var p := Apply(s, OfWorker(w, TryPop)).workers[w];
            s.workers[w] == AtPop ==>
              && (p == Exited <==> s.sh.stop)
              && (p == AtWait <==> !s.sh.stop && s.sh.queue == [])
              && (p.Executing? <==> !s.sh.stop && s.sh.queue != [])
  {
  }

  /** A notification is delivered once: it wakes the sleeper it is for, or nobody when nobody sleeps, and the call
      ends. */
  lemma NotifyEffect(s: State, c: nat, w: nat)
    requires c in s.calls && s.calls[c].Pushed? && MutexFree(s.workers)
    requires (w < |s.workers| && s.workers[w] == Blocked) || Blocked !in s.workers
    ensures var s' := Apply(s, OfCall(c, Notify(w)));
            && s'.calls == s.calls - {c}
            && s'.workers == if Blocked in s.workers then s.workers[w := AtWait] else s.workers
  {
  }

  /** While a worker is idle, asleep or awake, the first queued task can be taken: a sleeper is woken by the
      notification that is still coming, if nobody else is awake. */
  lemma {:induction false} IdleWorkerTakes(s: State, w: nat) returns (steps: seq<Step>, taker: nat)
    requires NoLostWakeup(s) && !s.sh.stop && s.sh.queue != [] && |s.workers| == |s.h.finished|
    requires w < |s.workers| && IsIdle(s.workers[w])
    ensures Run(s, steps).h.taken == s.h.taken + [ByWorker(taker, s.sh.queue[0])]
    ensures Run(s, steps).sh.queue == s.sh.queue[1..]
    decreases Weight(s.workers, ParkingWeight)
  {
    if p :| 0 <= p < |s.workers| && s.workers[p] == Parking {
      var next := WorkerApply(s, p, Sleep);
      assert next == s.(workers := s.workers[p := Blocked]);
      WakeupWorker(s, p, Sleep);
      WeightUpdate(s.workers, p, Blocked, ParkingWeight);
      var more;
      more, taker := IdleWorkerTakes(next, w);
      steps := [OfWorker(p, Sleep)] + more;
      RunCons(s, OfWorker(p, Sleep), more);
    } else if a :| 0 <= a < |s.workers| && s.workers[a] == AtPop {
      taker := a;
      steps := TakesFromPop(s, a);
    } else if a :| 0 <= a < |s.workers| && s.workers[a] == AtWait {
      taker := a;
      steps := TakesFromWait(s, a);
    } else {
      taker := w;
      steps := TakesAfterNotify(s, w);
    }
  }

  // ---- What leaves the index ----

  /** `cancel` of an id in the index: the id leaves it, every other entry stays, and the task, if it is still there, and
      no other, is cancelled. */
  lemma CancelEffect(s: State, task: int, alive: bool, t: nat)
    requires task in s.sh.allTasks && t !in TaskOf(s, task).inside
    ensures var s' := Apply(s, Cancel(task, alive, t));
            && s'.sh.allTasks == s.sh.allTasks - {task}
            && TaskOf(s', task) == (if alive then TaskStatus.Apply(TaskOf(s, task), TaskStatus.CancelStore(t))
                                    else TaskOf(s, task))
            && forall u :: u != task ==> TaskOf(s', u) == TaskOf(s, u)
  {
  }

  /** Of an id that is not in the index it changes nothing. */
  lemma CancelMisses(s: State, task: int, alive: bool, t: nat)
    requires task !in s.sh.allTasks || t in TaskOf(s, task).inside
    ensures Apply(s, Cancel(task, alive, t)) == s
  {
  }

  /** A worker that has run its task takes it out of the index exactly if it was consumed, and waits again. */
  lemma EraseEffect(s: State, w: nat, consumed: bool)
    requires w < |s.workers| && w < |s.h.finished| && s.workers[w].Executing?
    ensures var ran := Apply(s, OfWorker(w, Finish(consumed)));
            var s' := if consumed then Apply(ran, OfWorker(w, Erase)) else ran;
            && s'.sh.allTasks == (if consumed then s.sh.allTasks - {s.workers[w].task} else s.sh.allTasks)
            && ran.sh.allTasks == s.sh.allTasks && s'.workers == s.workers[w := AtWait]
  {
  }

  /** The delayed worker does the same with the first task of its batch, and goes on with the others. */
  lemma DropEffect(s: State, consumed: bool)
    requires s.delayer.Processing? && s.delayer.batch != []
    ensures var ran := Apply(s, OfDelayer(RunFirst(consumed)));
            var s' := if consumed then Apply(ran, OfDelayer(Drop)) else ran;
            && s'.sh.allTasks == (if consumed then s.sh.allTasks - {s.delayer.batch[0]} else s.sh.allTasks)
            && ran.sh.allTasks == s.sh.allTasks && s'.delayer == Processing(s.delayer.batch[1..])
  {
  }

  // ---- Tasks inside the scheduler ----

  /** What a list of `release` calls does: each task named is released, once; no other task changes. */
  lemma {:induction false} ReleaseAllEffect(tasks: map<int, TaskStatus.State>, calls: seq<int>, task: int)
    ensures var before := if task in tasks then tasks[task] else TaskStatus.INITIAL;
            var all := ReleaseAll(tasks, calls);
            var after := if task in all then all[task] else TaskStatus.INITIAL;
            after == if task in calls then TaskStatus.ReleaseCall(before) else before
    decreases calls
  {
    if calls == [] {
    } else {
      var c := calls[0];
      var t := if c in tasks then tasks[c] else TaskStatus.INITIAL;
      ReleaseAllEffect(tasks[c := TaskStatus.ReleaseCall(t)], calls[1..], task);
    }
  }

  /** The task state after a step is the old one, or one operation or one `release` further. */
  lemma TaskMoves(s: State, step: Step, task: int)
    ensures var before, after := TaskOf(s, task), TaskOf(Apply(s, step), task);
            || after == before
            || after == TaskStatus.ReleaseCall(before)
            || (step == OnTask(task, TaskStatus.Reset) && after == TaskStatus.Apply(before, TaskStatus.Reset))
            || exists op :: op != TaskStatus.Reset && after == TaskStatus.Apply(before, op)
  {
    match step
    case OfControl(DrainDelayed) => ReleaseAllEffect(s.tasks, TasksOf(s.sh.delayed), task);
    case OfControl(DrainQueue) => ReleaseAllEffect(s.tasks, DrainCalls(s.sh.queue), task);
    case Cancel(_, alive, t) => assert TaskStatus.CancelStore(t) != TaskStatus.Reset;
    case OnTask(_, _) =>
    case _ => OffTasks(s, step);
  }

  lemma BalancedTaskStep(s: State, step: Step, task: int, cb: TaskStatus.Callback)
    requires TaskStatus.Balanced(TaskOf(s, task), cb)
    requires step == OnTask(task, TaskStatus.Reset) ==> TaskStatus.Owing(TaskOf(s, task), cb) == {}
    ensures TaskStatus.Balanced(TaskOf(Apply(s, step), task), cb)
  {
    var before, after := TaskOf(s, task), TaskOf(Apply(s, step), task);
    TaskMoves(s, step, task);
    if step == OnTask(task, TaskStatus.Reset) {
      TaskStatus.BalancedStep(before, TaskStatus.Reset, cb);
    } else if after == TaskStatus.ReleaseCall(before) {
      var t := TaskStatus.FreshThread(before.inside.Keys);
      TaskStatus.ReleaseCallIsTwoSteps(before, t);
      TaskStatus.BalancedStep(before, TaskStatus.ReleaseCas(t), cb);
      TaskStatus.BalancedStep(TaskStatus.Apply(before, TaskStatus.ReleaseCas(t)), TaskStatus.Fire(t), cb);
    } else if after != before {
      var op :| op != TaskStatus.Reset && after == TaskStatus.Apply(before, op);
      TaskStatus.BalancedStep(before, op, cb);
    }
  }

  lemma InvTaskStep(s: State, step: Step, task: int)
    requires TaskStatus.Inv(TaskOf(s, task))
    ensures TaskStatus.Inv(TaskOf(Apply(s, step), task))
  {
    var before, after := TaskOf(s, task), TaskOf(Apply(s, step), task);
    TaskMoves(s, step, task);
    if step == OnTask(task, TaskStatus.Reset) {
      TaskStatus.InvStep(before, TaskStatus.Reset);
    } else if after == TaskStatus.ReleaseCall(before) {
      var t := TaskStatus.FreshThread(before.inside.Keys);
      TaskStatus.ReleaseCallIsTwoSteps(before, t);
      TaskStatus.InvStep(before, TaskStatus.ReleaseCas(t));
      TaskStatus.InvStep(TaskStatus.Apply(before, TaskStatus.ReleaseCas(t)), TaskStatus.Fire(t));
    } else if after != before {
      var op :| op != TaskStatus.Reset && after == TaskStatus.Apply(before, op);
      TaskStatus.InvStep(before, op);
    }
  }

  lemma {:induction false} InvTaskRun(s: State, steps: seq<Step>, task: int)
    requires TaskStatus.Inv(TaskOf(s, task))
    ensures TaskStatus.Inv(TaskOf(Run(s, steps), task))
    decreases steps
  {
    if steps == [] {
    } else {
      InvTaskStep(s, steps[0], task);
      InvTaskRun(Apply(s, steps[0]), steps[1..], task);
    }
  }

  lemma {:induction false} BalancedTaskRun(s: State, steps: seq<Step>, task: int, cb: TaskStatus.Callback)
    requires TaskStatus.Balanced(TaskOf(s, task), cb) && QuietResets(s, steps, task)
    ensures TaskStatus.Balanced(TaskOf(Run(s, steps), task), cb)
    decreases steps
  {
    if steps == [] {
    } else {
      BalancedTaskStep(s, steps[0], task, cb);
      BalancedTaskRun(Apply(s, steps[0]), steps[1..], task, cb);
    }
  }

  /** In every run of the whole scheduler, with `cancel`, the drains and workers calling into tasks in any
      order, and with any resets while nobody owes a callback: the callbacks of a task fire at most once
      between resets. */
  lemma TaskCallbacksAtMostOnce(steps: seq<Step>, task: int)
    requires QuietResets(INITIAL, steps, task)
    ensures TaskStatus.Inv(TaskOf(Run(INITIAL, steps), task))
    ensures TaskStatus.AtMostOnce(TaskOf(Run(INITIAL, steps), task))
  {
    InvTaskRun(INITIAL, steps, task);
    forall cb: TaskStatus.Callback | cb != TaskStatus.OnCancel
      ensures TaskStatus.Balanced(TaskOf(Run(INITIAL, steps), task), cb)
    {
      BalancedTaskRun(INITIAL, steps, task, cb);
    }
    TaskStatus.BalancedIsAtMostOnce(TaskOf(Run(INITIAL, steps), task));
  }

  lemma WillNotRunStep(s: State, step: Step, task: int, runs: nat)
    requires WillNotRun(s, task, runs) && step != OnTask(task, TaskStatus.Reset)
    ensures WillNotRun(Apply(s, step), task, runs)
  {
    var before, after := TaskOf(s, task), TaskOf(Apply(s, step), task);
    TaskMoves(s, step, task);
    if after != before {
      var op :| op != TaskStatus.Reset && after == TaskStatus.Apply(before, op);
      TaskStatus.NoMoreRunsStep(before, op);
    }
  }

  lemma {:induction false} WillNotRunRun(s: State, steps: seq<Step>, task: int, runs: nat)
    requires WillNotRun(s, task, runs) && NeverReset(steps, task)
    ensures WillNotRun(Run(s, steps), task, runs)
    decreases steps
  {
    if steps == [] {
    } else {
      WillNotRunStep(s, steps[0], task, runs);
      WillNotRunRun(Apply(s, steps[0]), steps[1..], task, runs);
    }
  }

  /** `cancel` finds a live task. Until the next reset `onRun` is not called again, whatever happens and with
      a worker holding the task, exactly when nobody is between the task's run swap and its `onRun`. */
  lemma CancelBeatsRun(s: State, task: int, t: nat)
    requires task in s.sh.allTasks && t !in TaskOf(s, task).inside
    ensures TaskStatus.Owing(TaskOf(s, task), TaskStatus.OnRun) == {}
            <==> NeverRunsAgain(Apply(s, Cancel(task, true, t)), task)
    ensures RunsOf(Apply(s, Cancel(task, true, t)), task) == RunsOf(s, task)
  {
    var c := Apply(s, Cancel(task, true, t));
    if TaskStatus.Owing(TaskOf(s, task), TaskStatus.OnRun) == {} {
      TaskStatus.CancelStoreEndsRuns(TaskOf(s, task), t);
      forall steps | NeverReset(steps, task) ensures RunsOf(Run(c, steps), task) == RunsOf(s, task) {
        WillNotRunRun(c, steps, task, RunsOf(s, task));
      }
    } else {
      var u :| u in TaskStatus.Owing(TaskOf(s, task), TaskStatus.OnRun);
      var late := OnTask(task, TaskStatus.Fire(u));
      LateRun(c, task, u);
      assert NeverReset([late], task);
    }
  }

  // ---- The drains ----

  /** Shutdown releases every delayed task that is left. */
  lemma DelayedDrain(s: State, task: int)
    requires s.control == DrainingDelayed
    ensures var s' := Apply(s, OfControl(DrainDelayed));
            && s'.sh.delayed == []
            && s'.h.releases == s.h.releases + TasksOf(s.sh.delayed)
            && (task in TasksOf(s.sh.delayed) ==> TaskOf(s', task) == TaskStatus.ReleaseCall(TaskOf(s, task)))
  {
    ReleaseAllEffect(s.tasks, TasksOf(s.sh.delayed), task);
  }

  /** Shutdown empties the queue, but calls `release` on the head only, once per queued task. */
  lemma QueueDrain(s: State, task: int)
    requires s.control == DrainingQueue && task in s.sh.queue
    ensures var s' := Apply(s, OfControl(DrainQueue));
            && s'.sh.queue == []
            && s'.h.releases == s.h.releases + DrainCalls(s.sh.queue)
            && TaskOf(s', task)
               == if task == s.sh.queue[0] then TaskStatus.ReleaseCall(TaskOf(s, task)) else TaskOf(s, task)
  {
    ReleaseAllEffect(s.tasks, DrainCalls(s.sh.queue), task);
    assert s.sh.queue[0] == DrainCalls(s.sh.queue)[0];
  }

  /** The queue drain leaves no queued task unstarted exactly when every queued task other than the head
      had been started, cancelled or released before. */
  lemma QueueDrainLeavesNobodyBehind(s: State)
    requires s.control == DrainingQueue
    ensures var s' := Apply(s, OfControl(DrainQueue));
            (forall task | task in s.sh.queue :: TaskOf(s', task).status != TaskStatus.NotStarted)
            <==> (forall task | task in s.sh.queue ::
                    task == s.sh.queue[0] || TaskOf(s, task).status != TaskStatus.NotStarted)
  {
    var s' := Apply(s, OfControl(DrainQueue));
    forall task | task in s.sh.queue
      ensures TaskOf(s', task).status != TaskStatus.NotStarted
              <==> task == s.sh.queue[0] || TaskOf(s, task).status != TaskStatus.NotStarted
    {
      QueueDrain(s, task);
    }
  }

  /** For fresh, distinct tasks: exactly when at most one is queued. */
  lemma FreshQueueDrain(s: State)
    requires s.control == DrainingQueue && NoDuplicates(s.sh.queue)
    requires forall task | task in s.sh.queue :: TaskOf(s, task).status == TaskStatus.NotStarted
    ensures var s' := Apply(s, OfControl(DrainQueue));
            (forall task | task in s.sh.queue :: TaskOf(s', task).status != TaskStatus.NotStarted)
            <==> |s.sh.queue| <= 1
  {
    QueueDrainLeavesNobodyBehind(s);
    if |s.sh.queue| > 1 {
      assert s.sh.queue[1] in s.sh.queue && s.sh.queue[1] != s.sh.queue[0];
    }
  }

  /** A run in which the manager is started and stopped with two tasks enqueued and no worker: the second
      task is dropped without `onRelease`, though it can still be found by `cancel`. */
  lemma SecondTaskIsDropped(a: int, b: int) returns (steps: seq<Step>)
    requires a != b
    ensures var s := Run(INITIAL, steps);
            && s.h.registered == [a, b] && s.control == Idle && s.sh.queue == []
            && s.h.releases == [a, a]
            && TaskOf(s, a).log == [TaskStatus.OnRelease]
            && TaskOf(s, b) == TaskStatus.INITIAL && b in s.sh.allTasks
  {
    var s1 := TwoEnqueued(a, b);
    var s2 := StoppedWithout(s1);
    steps := EnqueueTwo(a, b) + ShutDown();
    RunAppend(INITIAL, EnqueueTwo(a, b), ShutDown());
    QueueDrain(s2, a);
    QueueDrain(s2, b);
    assert s2.sh.queue[0] == a && s2.sh.queue[1] == b;
    assert DrainCalls([a, b]) == [a, a];
  }

  /** The intended drain, removing the front it has read, would release every queued task. */
  lemma IntendedQueueDrain(s: State, task: int)
    requires task in s.sh.queue
    ensures var s' := Released(s, IntendedDrainCalls(s.sh.queue));
            TaskOf(s', task) == TaskStatus.ReleaseCall(TaskOf(s, task))
  {
    ReleaseAllEffect(s.tasks, IntendedDrainCalls(s.sh.queue), task);
  }

  // ---- Shutdown ends ----

  /** Once `stop_` is set, every step of a worker or of the delayed worker brings the joins nearer. */
  lemma StopDecreases(s: State, step: Step)
    requires s.sh.stop && OfJoinedThread(step)
    ensures Apply(s, step) == s || Remaining(Apply(s, step)) < Remaining(s)
    ensures Apply(s, step).sh.stop
  {
    match step
    case OfWorker(w, a) => StopDecreasesWorker(s, w, a);
    case OfDelayer(d) => StopDecreasesDelayer(s, d);
  }

  /** While a joined thread is left, one of them can take a step. With `StopDecreases`: every run of the
      joined threads after `stop_` ends with all of them gone, and the joins return. */
  lemma StopProgresses(s: State)
    requires s.sh.stop && NoLostWakeup(s) && OneWorkerEach(s)
    requires !AllExited(s.workers) || s.delayer != Off
    ensures exists step: Step :: OfJoinedThread(step) && Apply(s, step) != s
  {
    if s.delayer != Off {
      var d := match s.delayer
               case Looping => LoopTest
               case Sleeping => Tick
               case Dropping(_, _) => Drop
               case _ => RunFirst(false);
      assert DelayedApply(s, d).delayer != s.delayer;
      assert OfJoinedThread(OfDelayer(d)) && Apply(s, OfDelayer(d)) != s;
    } else {
      var w :| 0 <= w < |s.workers| && s.workers[w] != Exited;
      var a := match s.workers[w]
               case AtWait => Check
               case AtPop => TryPop
               case Erasing(_) => Erase
               case _ => Finish(false);
      assert s.workers[w] != Blocked && s.workers[w] != Parking;
      assert Apply(s, OfWorker(w, a)).workers[w] != s.workers[w];
      assert OfJoinedThread(OfWorker(w, a)) && Apply(s, OfWorker(w, a)) != s;
    }
  }

  // ---- The joins, among everything else that goes on ----

  /** While `stop` joins: a joined thread that gets on has less left to do. Of all the other steps, those of
      callers included, only an addition before the last tick can leave more. */
  lemma JoinStep(s: State, step: Step)
    requires InJoins(s) && step != OfControl(Join)
    ensures InJoins(Apply(s, step))
    ensures Move(s, step) + Remaining(Apply(s, step)) <= Remaining(s) + 2 * Late(s, step)
    ensures s.delayer != Sleeping ==> Apply(s, step).delayer != Sleeping
  {
    WakeupStep(s, step);
    OneWorkerEachStep(s, step);
    match step
    case OfControl(k) => assert ControlApply(s, k) == s;
    case OfCall(c, e) => JoinStepCall(s, c, e);
    case OfWorker(w, a) =>
      OffControlWorker(s, w, a);
      StopDecreasesWorker(s, w, a);
    case OfDelayer(d) => JoinStepDelayer(s, d);
    case Cancel(task, alive, t) => OffQueueCancel(s, task, alive, t);
    case OnTask(_, _) =>
  }

  lemma {:induction false} JoinsRun(s: State, steps: seq<Step>)
    requires InJoins(s) && JoinPending(steps)
    ensures InJoins(Run(s, steps))
    ensures Moves(s, steps) + Remaining(Run(s, steps)) <= Remaining(s) + 2 * LateAdditions(s, steps)
    ensures s.delayer != Sleeping ==> LateAdditions(s, steps) == 0
    decreases steps
  {
    if steps == [] {
    } else {
      JoinStep(s, steps[0]);
      JoinsRun(Apply(s, steps[0]), steps[1..]);
    }
  }

  /** The joined threads are stuck exactly when they are all gone, so that the joins return. */
  lemma StuckWhenGone(s: State)
    requires InJoins(s)
    ensures (forall step: Step | OfJoinedThread(step) :: Apply(s, step) == s)
            <==> Apply(s, OfControl(Join)).control == DrainingDelayed
  {
    if AllExited(s.workers) && s.delayer == Off {
      forall step: Step | OfJoinedThread(step) ensures Apply(s, step) == s {
        assert step.OfWorker? && step.w < |s.workers| ==> s.workers[step.w] in s.workers;
      }
    } else {
      StopProgresses(s);
    }
  }

  /** The joins of `stop` return. Whatever happened `before`, and whatever callers do meanwhile: the steps the
      joined threads take are bounded by what they had left, and by the entries added before the one tick that
      may still come, none if that tick is over; and they stop taking steps exactly when the joins return. */
  lemma JoinsReturn(before: seq<Step>, steps: seq<Step>)
    requires Run(INITIAL, before).control == Joining && JoinPending(steps)
    ensures var s := Run(INITIAL, before);
            var end := Run(s, steps);
            && Moves(s, steps) + Remaining(end) <= Remaining(s) + 2 * LateAdditions(s, steps)
            && (s.delayer != Sleeping ==> LateAdditions(s, steps) == 0)
            && ((forall step: Step | OfJoinedThread(step) :: Apply(end, step) == end)
                <==> Apply(end, OfControl(Join)).control == DrainingDelayed)
  {
    InvRun(INITIAL, before);
    JoinsRun(Run(INITIAL, before), steps);
    StuckWhenGone(Run(Run(INITIAL, before), steps));
  }
}
