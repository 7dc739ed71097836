/** The cancellation index over whole runs (3rdpart/common/src/task/task_manager.cpp:26-29, 139-143, 165-187): nothing
    stays in it that has been consumed or cancelled. */
module IndexRuns {
  import DelayQueue
  import opened Scheduler
  import opened SchedulerSteps
  import opened SchedulerRuns

  /** All delayed additions of the run are of these tasks. */
  predicate Delays(steps: seq<Step>, given: set<int>) {
    forall i :: 0 <= i < |steps| ==> DelaysOnly(steps[i], given)
  }

  predicate DelaysOnly(step: Step, given: set<int>) {
    step.OfDelayer? && step.d.DelayedEnqueue? ==> step.d.task in given
  }

  // ---- Where tasks come from ----

  function TaskIn(p: WorkerPhase): seq<int> {
    match p
    case Executing(task) => [task]
    case Erasing(task) => [task]
    case _ => []
  }

  /** Tasks being enqueued, queued and run have been registered. */
  ghost predicate FromRegistered(s: State) {
    var registered := Set(s.h.registered);
    && (forall c :: c in s.calls ==> s.calls[c].task in registered)
    && (forall t :: t in s.sh.queue ==> t in registered)
    && (forall w :: 0 <= w < |s.workers| ==> forall t :: t in TaskIn(s.workers[w]) ==> t in registered)
  }

  function BatchOf(p: DelayedPhase): seq<int> {
    match p
    case Processing(batch) => batch
    case Dropping(task, batch) => [task] + batch
    case _ => []
  }

  /** Tasks in the delayed list and those handed out have been given to `delayedEnqueue`. */
  ghost predicate FromGiven(s: State, given: set<int>) {
    && (forall e :: e in s.sh.delayed ==> e.task in given)
    && (forall t :: t in BatchOf(s.delayer) ==> t in given)
  }

  ghost predicate Known(s: State, given: set<int>) {
    && FromRegistered(s) && FromGiven(s, given)
    && s.h.consumed <= Set(s.h.registered) + given
    && s.h.cancelled <= Set(s.h.registered)
  }

  lemma MoreRegistered(registered: seq<int>, task: int)
    ensures Set(registered + [task]) == Set(registered) + {task}
  {
  }

  lemma {:induction false} DueFrom(list: seq<DelayQueue.Delayed<int>>, given: set<int>)
    requires forall e :: e in list ==> e.task in given
    ensures forall e :: e in DelayQueue.Aged(list) ==> e.task in given
    ensures forall t :: t in TasksOf(DelayQueue.Due(list)) ==> t in given
  {
    if list == [] {
    } else {
      DueFrom(list[1..], given);
      assert list[0] in list;
      var due := DelayQueue.Due(list[1..]);
      assert TasksOf([list[0]] + due) == [list[0].task] + TasksOf(due);
    }
  }

  lemma KnownControl(s: State, given: set<int>, k: ControlStep)
    requires Known(s, given)
    ensures Known(ControlApply(s, k), given)
  {
  }

  lemma KnownCall(s: State, given: set<int>, c: nat, e: CallStep)
    requires Known(s, given)
    ensures Known(CallApply(s, c, e), given)
  {
    if e.Register? {
      MoreRegistered(s.h.registered, e.task);
    }
  }

  lemma KnownWorker(s: State, given: set<int>, w: nat, a: WorkerStep)
    requires Known(s, given)
    ensures Known(WorkerApply(s, w, a), given)
  {
    if w < |s.workers| && w < |s.h.finished| {
      assert forall t :: t in TaskIn(s.workers[w]) ==> t in Set(s.h.registered);
      match (s.workers[w], a)
      case (Executing(task), Finish(_)) => assert task in TaskIn(s.workers[w]);
      case (Erasing(task), Erase) => assert task in TaskIn(s.workers[w]);
      case _ =>
    }
  }

  lemma KnownDelayer(s: State, given: set<int>, d: DelayedStep)
    requires Known(s, given) && DelaysOnly(OfDelayer(d), given)
    ensures Known(DelayedApply(s, d), given)
  {
    DueFrom(s.sh.delayed, given);
    if s.delayer.Processing? && s.delayer.batch != [] {
      assert s.delayer.batch[0] in BatchOf(s.delayer);
    }
  }

  lemma KnownCancel(s: State, given: set<int>, task: int, alive: bool, t: nat)
    requires Known(s, given) && IndexAgrees(s)
    ensures Known(CancelApply(s, task, alive, t), given)
  {
  }

  lemma KnownStep(s: State, given: set<int>, step: Step)
    requires Known(s, given) && IndexAgrees(s) && DelaysOnly(step, given)
    ensures Known(Apply(s, step), given)
  {
    match step
    case OfControl(k) => KnownControl(s, given, k);
    case OfCall(c, e) => KnownCall(s, given, c, e);
    case OfWorker(w, a) => KnownWorker(s, given, w, a);
    case OfDelayer(d) => KnownDelayer(s, given, d);
    case Cancel(task, alive, t) => KnownCancel(s, given, task, alive, t);
    case OnTask(_, _) =>
  }

  // ---- What is still to be erased ----

  /** Some worker or the delayed worker is just about to take the id out of the index. */
  ghost predicate AboutToErase(s: State, id: int) {
    || Erasing(id) in s.workers
    || (s.delayer.Dropping? && s.delayer.task == id)
  }

  /** An id that was consumed or cancelled is gone from the index, or about to go. */
  ghost predicate Tight(s: State) {
    forall id :: id in s.sh.allTasks && id in s.h.consumed + s.h.cancelled ==> AboutToErase(s, id)
  }

  /** No id is registered twice, and none is also given to `delayedEnqueue`. */
  ghost predicate EachOnce(s: State, given: set<int>) {
    NoDuplicates(s.h.registered) && Set(s.h.registered) !! given
  }

  lemma TightControl(s: State, k: ControlStep)
    requires Tight(s)
    ensures Tight(ControlApply(s, k))
  {
    var s' := ControlApply(s, k);
    assert s'.sh.allTasks == s.sh.allTasks && s'.h.consumed == s.h.consumed && s'.h.cancelled == s.h.cancelled;
    forall id | AboutToErase(s, id) ensures AboutToErase(s', id) {
      StillErasing(s, k, id);
    }
  }

  lemma StillErasing(s: State, k: ControlStep, id: int)
    requires AboutToErase(s, id)
    ensures AboutToErase(ControlApply(s, k), id)
  {
    var s' := ControlApply(s, k);
    if w :| 0 <= w < |s.workers| && s.workers[w] == Erasing(id) {
      assert s'.workers[w] == Erasing(id);
    }
  }

  /** A worker that was not erasing `id` changes nothing about who is. */
  lemma OthersErase(workers: seq<WorkerPhase>, w: nat, p: WorkerPhase, id: int)
    requires w < |workers| && workers[w] != Erasing(id) && Erasing(id) in workers
    ensures Erasing(id) in workers[w := p]
  {
    var v :| 0 <= v < |workers| && workers[v] == Erasing(id);
    assert workers[w := p][v] == Erasing(id);
  }

  lemma TightCall(s: State, given: set<int>, c: nat, e: CallStep)
    requires Known(s, given) && Tight(s) && EachOnce(CallApply(s, c, e), given)
    ensures Tight(CallApply(s, c, e))
  {
    match e
    case Register(task) => TightRegister(s, given, c, task);
    case Push =>
    case Notify(w) =>
      if w < |s.workers| && s.workers[w] == Blocked {
        forall id | Erasing(id) in s.workers ensures Erasing(id) in s.workers[w := AtWait] {
          OthersErase(s.workers, w, AtWait, id);
        }
      }
  }

  /** A new id has neither been consumed nor cancelled. */
  lemma TightRegister(s: State, given: set<int>, c: nat, task: int)
    requires Known(s, given) && Tight(s) && EachOnce(CallApply(s, c, Register(task)), given)
    ensures Tight(CallApply(s, c, Register(task)))
  {
    if c !in s.calls {
      var n := |s.h.registered|;
      MoreRegistered(s.h.registered, task);
      forall i | 0 <= i < n ensures s.h.registered[i] != task {
        assert (s.h.registered + [task])[i] != (s.h.registered + [task])[n];
      }
      assert task !in s.h.consumed + s.h.cancelled;
    }
  }

  lemma TightWorker(s: State, w: nat, a: WorkerStep)
    requires Tight(s)
    ensures Tight(WorkerApply(s, w, a))
  {
    if w < |s.workers| && w < |s.h.finished| {
      var p := WorkerApply(s, w, a).workers[w];
      forall id | Erasing(id) in s.workers && s.workers[w] != Erasing(id) ensures Erasing(id) in s.workers[w := p] {
        OthersErase(s.workers, w, p, id);
      }
      assert s.workers[w := p][w] == p;
    }
  }

  lemma TightDelayer(s: State, d: DelayedStep)
    requires Tight(s)
    ensures Tight(DelayedApply(s, d))
  {
  }

  lemma TightCancel(s: State, task: int, alive: bool, t: nat)
    requires Tight(s)
    ensures Tight(CancelApply(s, task, alive, t))
  {
  }

  lemma TightStep(s: State, given: set<int>, step: Step)
    requires Known(s, given) && Tight(s) && EachOnce(Apply(s, step), given)
    ensures Tight(Apply(s, step))
  {
    match step
    case OfControl(k) => TightControl(s, k);
    case OfCall(c, e) => TightCall(s, given, c, e);
    case OfWorker(w, a) => TightWorker(s, w, a);
    case OfDelayer(d) => TightDelayer(s, d);
    case Cancel(task, alive, t) => TightCancel(s, task, alive, t);
    case OnTask(_, _) =>
  }

  // ---- Over runs ----

  lemma RegisteredGrows(s: State, step: Step)
    ensures s.h.registered <= Apply(s, step).h.registered
  {
    match step
    case OfControl(k) => assert ControlApply(s, k).h.registered == s.h.registered;
    case OfCall(c, e) => assert s.h.registered <= CallApply(s, c, e).h.registered;
    case OfWorker(w, a) => assert WorkerApply(s, w, a).h.registered == s.h.registered;
    case OfDelayer(d) => assert DelayedApply(s, d).h.registered == s.h.registered;
    case Cancel(task, alive, t) => assert CancelApply(s, task, alive, t).h.registered == s.h.registered;
    case OnTask(_, _) =>
  }

  lemma {:induction false} RegisteredGrowsRun(s: State, steps: seq<Step>)
    ensures s.h.registered <= Run(s, steps).h.registered
    decreases steps
  {
    if steps == [] {
    } else {
      RegisteredGrows(s, steps[0]);
      RegisteredGrowsRun(Apply(s, steps[0]), steps[1..]);
    }
  }

  lemma OnceBefore(a: State, b: State, given: set<int>)
    requires a.h.registered <= b.h.registered && EachOnce(b, given)
    ensures EachOnce(a, given)
  {
    assert forall i :: 0 <= i < |a.h.registered| ==> a.h.registered[i] == b.h.registered[i];
    assert Set(a.h.registered) <= Set(b.h.registered);
  }

  lemma {:induction false} TightRun(s: State, given: set<int>, steps: seq<Step>)
    requires Known(s, given) && Tight(s) && Inv(s) && Delays(steps, given)
    requires EachOnce(Run(s, steps), given)
    ensures Tight(Run(s, steps))
    decreases steps
  {
    if steps == [] {
    } else {
      var next := Apply(s, steps[0]);
      RegisteredGrowsRun(next, steps[1..]);
      OnceBefore(next, Run(next, steps[1..]), given);
      KnownStep(s, given, steps[0]);
      TightStep(s, given, steps[0]);
      InvRun(s, [steps[0]]);
      assert Run(s, [steps[0]]) == next by { assert [steps[0]][1..] == []; }
      TightRun(next, given, steps[1..]);
    }
  }

  /** In every run in which no id is registered twice and none is also given to `delayedEnqueue`: an id that has been
      consumed or cancelled is in the index only while the thread that consumed its task is just about to erase it. */
  lemma IndexIsTight(given: set<int>, steps: seq<Step>)
    requires Delays(steps, given) && EachOnce(Run(INITIAL, steps), given)
    ensures Tight(Run(INITIAL, steps))
  {
    TightRun(INITIAL, given, steps);
  }
}
