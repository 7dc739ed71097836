/** What the threads of the task manager (3rdpart/common/src/task/task_manager.cpp) keep, one by one.

    Most properties of the machine are kept step by step. A step belongs to one kind of thread: the one that
    starts and stops, a caller that enqueues, a worker, the delayed worker, or a caller that cancels. Here
    are the properties, and for each of them what the steps of each kind of thread, and the functions these
    steps are made of, do to it; `SchedulerRuns` puts the threads together to steps and the steps to
    runs. */
module SchedulerSteps {
  import DelayQueue
  import TaskStatus
  import opened Weights
  import opened Scheduler

  // ---- Work conservation ----
  function AwakeWeight(p: WorkerPhase): nat {
    if p == AtWait || p == AtPop then 1 else 0
  }

  /** How many workers are neither asleep, nor busy with a task, nor gone. */
  function Awake(workers: seq<WorkerPhase>): nat {
    Weight(workers, AwakeWeight)
  }

  /** Calls of `enqueue` that have pushed their task but not yet notified. */
  function Notifying(calls: map<nat, Call>): (cs: set<nat>)
    ensures forall c :: c in cs <==> c in calls && calls[c].Pushed?
  {
    set c | c in calls && calls[c].Pushed?
  }

  /** While some worker sleeps, or is past the point of not sleeping, every queued task has an awake worker or a
      coming notification. */
  ghost predicate NoLostWakeup(s: State) {
    && (s.sh.stop ==> !SomeAsleep(s.workers))
    && (SomeAsleep(s.workers) ==> |s.sh.queue| <= Awake(s.workers) + |Notifying(s.calls)|)
  }

  lemma NotifyingUpdate(calls: map<nat, Call>, c: nat)
    requires c in calls
    ensures calls[c].Pushed? ==> |Notifying(calls - {c})| == |Notifying(calls)| - 1
    ensures forall t :: calls[c].Registered? ==> |Notifying(calls[c := Pushed(t)])| == |Notifying(calls)| + 1
  {
    if calls[c].Pushed? {
      assert Notifying(calls - {c}) == Notifying(calls) - {c};
    } else {
      forall t ensures |Notifying(calls[c := Pushed(t)])| == |Notifying(calls)| + 1 {
        assert Notifying(calls[c := Pushed(t)]) == Notifying(calls) + {c};
      }
    }
  }

  /** Only spawning, setting `stop_` and draining `task_queue_` touch the queue or the workers. */
  lemma ControlOffQueue(s: State, k: ControlStep)
    requires k != Spawn && k != StopFlag && k != DrainQueue
    ensures var s' := ControlApply(s, k);
            && s'.sh.queue == s.sh.queue && s'.calls == s.calls && s'.workers == s.workers
            && s'.h.pushed == s.h.pushed && s'.h.taken == s.h.taken && s'.h.finished == s.h.finished
            && (s'.sh.stop ==> s.sh.stop)
  {
  }

  lemma WakeupControl(s: State, k: ControlStep)
    requires NoLostWakeup(s)
    ensures NoLostWakeup(ControlApply(s, k))
  {
    match k
    case Spawn => WakeupSpawn(s);
    case StopFlag => assert MutexFree(s.workers) ==> !SomeAsleep(AllWoken(s.workers));
    case DrainQueue => assert NoLostWakeup(ControlApply(s, DrainQueue));
    case _ => ControlOffQueue(s, k);
  }

  lemma WakeupSpawn(s: State)
    requires NoLostWakeup(s)
    ensures NoLostWakeup(ControlApply(s, Spawn))
  {
    WeightAppend(s.workers, AtWait, AwakeWeight);
    NewWorkerIsAwake(s.workers);
    match s.control
    case Starting(d, n) =>
      if !d && n > 0 {
        assert ControlApply(s, Spawn).workers == s.workers + [AtWait];
      }
    case _ =>
  }

  lemma NewWorkerIsAwake(workers: seq<WorkerPhase>)
    ensures SomeAsleep(workers + [AtWait]) <==> SomeAsleep(workers)
  {
  }

  lemma WakeupCall(s: State, c: nat, e: CallStep)
    requires NoLostWakeup(s)
    ensures NoLostWakeup(CallApply(s, c, e))
  {
    if c in s.calls {
      NotifyingUpdate(s.calls, c);
    } else if e.Register? {
      assert Notifying(s.calls[c := Registered(e.task)]) == Notifying(s.calls);
    }
    match e {
      case Notify(w) =>
        if w < |s.workers| && s.workers[w] == Blocked {
          WeightUpdate(s.workers, w, AtWait, AwakeWeight);
          StaysUnblocked(s.workers, w, AtWait);
        }
      case _ =>
    }
  }

  lemma StaysUnblocked(workers: seq<WorkerPhase>, w: nat, p: WorkerPhase)
    requires w < |workers| && p != Blocked && p != Parking
    ensures SomeAsleep(workers[w := p]) ==> SomeAsleep(workers)
  {
    if SomeAsleep(workers[w := p]) {
      var i :| 0 <= i < |workers| && (workers[w := p][i] == Blocked || workers[w := p][i] == Parking);
      assert workers[i] == Blocked || workers[i] == Parking;
    }
  }

  lemma WakeupWorker(s: State, w: nat, a: WorkerStep)
    requires NoLostWakeup(s)
    ensures NoLostWakeup(WorkerApply(s, w, a))
  {
    if w < |s.workers| && w < |s.h.finished| {
      var p := WorkerApply(s, w, a).workers[w];
      WeightUpdate(s.workers, w, p, AwakeWeight);
      if p != Blocked && p != Parking {
        StaysUnblocked(s.workers, w, p);
      }
    }
  }

  ghost predicate SameQueue(s: State, s': State) {
    && s'.sh.queue == s.sh.queue && s'.sh.stop == s.sh.stop && s'.calls == s.calls
    && s'.workers == s.workers && s'.control == s.control && s'.sh.running == s.sh.running
    && s'.h.pushed == s.h.pushed && s'.h.taken == s.h.taken && s'.h.finished == s.h.finished
  }

  /** The delayed worker, `cancel` and calls on a task leave the queue and the workers alone. */
  lemma OffQueue(s: State, step: Step)
    requires step.OfDelayer? || step.Cancel? || step.OnTask?
    ensures SameQueue(s, Apply(s, step))
  {
    match step
    case OfDelayer(d) => OffQueueDelayed(s, d);
    case Cancel(task, alive, t) => OffQueueCancel(s, task, alive, t);
    case _ =>
  }

  lemma OffQueueDelayed(s: State, d: DelayedStep)
    ensures SameQueue(s, DelayedApply(s, d))
  {
  }

  lemma OffQueueCancel(s: State, task: int, alive: bool, t: nat)
    ensures SameQueue(s, CancelApply(s, task, alive, t))
    ensures CancelApply(s, task, alive, t).sh.delayed == s.sh.delayed
    ensures CancelApply(s, task, alive, t).delayer == s.delayer
  {
  }

  // ---- First in, first out, and one worker each ----
  function Tasks(taken: seq<Taken>): seq<int> {
    seq(|taken|, i requires 0 <= i < |taken| => taken[i].task)
  }

  /** What worker `w` took, in order. */
  function TakenBy(taken: seq<Taken>, w: nat): seq<int> {
    if taken == [] then []
    else
      var last := taken[|taken| - 1];
      var before := TakenBy(taken[..|taken| - 1], w);
      if last.ByWorker? && last.w == w then before + [last.task] else before
  }

  function InHand(p: WorkerPhase): seq<int> {
    if p.Executing? then [p.task] else []
  }

  /** Everything ever taken, followed by what is queued, is everything ever pushed, in push order. */
  ghost predicate Fifo(s: State) {
    Tasks(s.h.taken) + s.sh.queue == s.h.pushed
  }

  /** What a worker took is what it has finished and what it has in hand. */
  ghost predicate OneWorkerEach(s: State) {
    && |s.h.finished| == |s.workers|
    && (forall w :: 0 <= w < |s.workers| ==> TakenBy(s.h.taken, w) == s.h.finished[w] + InHand(s.workers[w]))
    && (forall i :: 0 <= i < |s.h.taken| && s.h.taken[i].ByWorker? ==> s.h.taken[i].w < |s.workers|)
  }

  lemma TakenByAppend(taken: seq<Taken>, x: Taken, w: nat)
    ensures TakenBy(taken + [x], w)
            == if x.ByWorker? && x.w == w then TakenBy(taken, w) + [x.task] else TakenBy(taken, w)
  {
    assert (taken + [x])[..|taken|] == taken;
  }

  lemma {:induction false} TakenByDrained(taken: seq<Taken>, queue: seq<int>, w: nat)
    ensures TakenBy(taken + Drained(queue), w) == TakenBy(taken, w)
  {
    if queue == [] {
      assert taken + Drained(queue) == taken;
    } else {
      var n := |queue| - 1;
      assert Drained(queue) == Drained(queue[..n]) + [ByDrain(queue[n])];
      assert taken + Drained(queue) == (taken + Drained(queue[..n])) + [ByDrain(queue[n])];
      TakenByDrained(taken, queue[..n], w);
      TakenByAppend(taken + Drained(queue[..n]), ByDrain(queue[n]), w);
    }
  }

  lemma {:induction false} TakenByNobody(taken: seq<Taken>, w: nat)
    requires forall i :: 0 <= i < |taken| && taken[i].ByWorker? ==> taken[i].w != w
    ensures TakenBy(taken, w) == []
  {
    if taken == [] {
    } else {
      TakenByNobody(taken[..|taken| - 1], w);
    }
  }

  lemma FifoControl(s: State, k: ControlStep)
    requires Fifo(s)
    ensures Fifo(ControlApply(s, k))
  {
    if k == DrainQueue {
      TasksDrained(s.h.taken, s.sh.queue);
    } else if k != Spawn && k != StopFlag {
      ControlOffQueue(s, k);
    }
  }

  lemma TasksDrained(taken: seq<Taken>, queue: seq<int>)
    ensures Tasks(taken + Drained(queue)) + [] == Tasks(taken) + queue
  {
  }

  lemma FifoCall(s: State, c: nat, e: CallStep)
    requires Fifo(s)
    ensures Fifo(CallApply(s, c, e))
  {
    if e.Push? && c in s.calls && s.calls[c].Registered? {
      var task := s.calls[c].task;
      assert Tasks(s.h.taken) + (s.sh.queue + [task]) == (Tasks(s.h.taken) + s.sh.queue) + [task];
    }
  }

  lemma FifoWorker(s: State, w: nat, a: WorkerStep)
    requires Fifo(s)
    ensures Fifo(WorkerApply(s, w, a))
  {
    if s.sh.queue != [] {
      var x := ByWorker(w, s.sh.queue[0]);
      assert Tasks(s.h.taken + [x]) == Tasks(s.h.taken) + [s.sh.queue[0]];
      assert Tasks(s.h.taken + [x]) + s.sh.queue[1..] == Tasks(s.h.taken) + s.sh.queue;
    }
  }

  lemma OneWorkerEachControl(s: State, k: ControlStep)
    requires OneWorkerEach(s)
    ensures OneWorkerEach(ControlApply(s, k))
  {
    match k
    case Spawn => OneWorkerEachSpawn(s);
    case StopFlag => InHandAllWoken(s.workers);
    case DrainQueue => OneWorkerEachDrain(s);
    case _ => ControlOffQueue(s, k);
  }

  lemma OneWorkerEachSpawn(s: State)
    requires OneWorkerEach(s)
    ensures OneWorkerEach(ControlApply(s, Spawn))
  {
    TakenByNobody(s.h.taken, |s.workers|);
    NewWorkerTookNothing(s.h.taken, s.workers, s.h.finished);
  }

  lemma NewWorkerTookNothing(taken: seq<Taken>, workers: seq<WorkerPhase>, finished: seq<seq<int>>)
    requires |finished| == |workers| && TakenBy(taken, |workers|) == []
    requires forall w :: 0 <= w < |workers| ==> TakenBy(taken, w) == finished[w] + InHand(workers[w])
    ensures forall w :: 0 <= w < |workers| + 1 ==>
              TakenBy(taken, w) == (finished + [[]])[w] + InHand((workers + [AtWait])[w])
  {
    forall w | 0 <= w < |workers| + 1
      ensures TakenBy(taken, w) == (finished + [[]])[w] + InHand((workers + [AtWait])[w])
    {
      if w < |workers| {
        assert (finished + [[]])[w] == finished[w] && (workers + [AtWait])[w] == workers[w];
      }
    }
  }

  lemma OneWorkerEachDrain(s: State)
    requires OneWorkerEach(s)
    ensures OneWorkerEach(ControlApply(s, DrainQueue))
  {
    if s.control == DrainingQueue {
      var s' := ControlApply(s, DrainQueue);
      assert s'.h.taken == s.h.taken + Drained(s.sh.queue);
      assert s'.h.finished == s.h.finished && s'.workers == s.workers;
      forall w | 0 <= w < |s.workers| ensures TakenBy(s'.h.taken, w) == TakenBy(s.h.taken, w) {
        TakenByDrained(s.h.taken, s.sh.queue, w);
      }
    }
  }

  lemma InHandAllWoken(workers: seq<WorkerPhase>)
    ensures forall w :: 0 <= w < |workers| ==> InHand(AllWoken(workers)[w]) == InHand(workers[w])
  {
  }

  lemma OneWorkerEachWorker(s: State, w: nat, a: WorkerStep)
    requires OneWorkerEach(s)
    ensures OneWorkerEach(WorkerApply(s, w, a))
  {
    if w < |s.workers| && w < |s.h.finished| {
      match (s.workers[w], a) {
        case (AtPop, TryPop) => OneWorkerEachTake(s, w);
        case (Executing(task), Finish(consumed)) => OneWorkerEachFinish(s, w, consumed);
        case _ =>
      }
    }
  }

  lemma OneWorkerEachTake(s: State, w: nat)
    requires OneWorkerEach(s) && w < |s.workers| && s.workers[w] == AtPop
    ensures OneWorkerEach(WorkerApply(s, w, TryPop))
  {
    if !s.sh.stop && s.sh.queue != [] {
      var s' := WorkerApply(s, w, TryPop);
      var x := ByWorker(w, s.sh.queue[0]);
      assert s'.h.taken == s.h.taken + [x] && s'.h.finished == s.h.finished;
      assert s'.workers == s.workers[w := Executing(x.task)];
      TakenGrows(s.h.taken, s.workers, s.h.finished, x);
    }
  }

  lemma TakenGrows(taken: seq<Taken>, workers: seq<WorkerPhase>, finished: seq<seq<int>>, x: Taken)
    requires |finished| == |workers| && x.ByWorker? && x.w < |workers| && workers[x.w] == AtPop
    requires forall w :: 0 <= w < |workers| ==> TakenBy(taken, w) == finished[w] + InHand(workers[w])
    ensures forall w :: 0 <= w < |workers| ==>
              TakenBy(taken + [x], w) == finished[w] + InHand(workers[x.w := Executing(x.task)][w])
  {
    forall w | 0 <= w < |workers|
      ensures TakenBy(taken + [x], w) == finished[w] + InHand(workers[x.w := Executing(x.task)][w])
    {
      TakenByAppend(taken, x, w);
    }
  }

  lemma OneWorkerEachFinish(s: State, w: nat, consumed: bool)
    requires OneWorkerEach(s) && w < |s.workers| && s.workers[w].Executing?
    ensures OneWorkerEach(WorkerApply(s, w, Finish(consumed)))
  {
    var s' := WorkerApply(s, w, Finish(consumed));
    assert s'.h.finished[w] + InHand(s'.workers[w]) == s.h.finished[w] + InHand(s.workers[w]);
  }

  // ---- The cancellation index ----
  function Set(tasks: seq<int>): set<int> {
    set t | t in tasks
  }

  ghost predicate NoDuplicates(tasks: seq<int>) {
    forall i, j :: 0 <= i < j < |tasks| ==> tasks[i] != tasks[j]
  }

  /** Every registered id is in the index or has been erased, never both as long as no id is registered twice; and
      an id is erased only after its task was consumed or cancelled. */
  ghost predicate IndexAgrees(s: State) {
    var registered, index := Set(s.h.registered), s.sh.allTasks.Keys;
    && index + s.h.erased == registered
    && s.h.erased <= s.h.consumed + s.h.cancelled
    && (NoDuplicates(s.h.registered) ==> index !! s.h.erased)
  }

  /** Whoever is about to erase an id has consumed its task. */
  ghost predicate ErasersConsumed(s: State) {
    && (forall w :: 0 <= w < |s.workers| && s.workers[w].Erasing? ==> s.workers[w].task in s.h.consumed)
    && (s.delayer.Dropping? ==> s.delayer.task in s.h.consumed)
  }

  lemma IndexErased(s: State, task: int)
    requires IndexAgrees(s) && task in s.h.consumed + s.h.cancelled
    ensures IndexAgrees(Erased(s, task))
  {
  }

  lemma IndexRegister(s: State, c: nat, task: int)
    requires IndexAgrees(s)
    ensures IndexAgrees(CallApply(s, c, Register(task)))
  {
    if c !in s.calls {
      var after := s.h.registered + [task];
      assert Set(after) == Set(s.h.registered) + {task};
      if NoDuplicates(after) {
        assert NoDuplicates(s.h.registered) by {
          forall i, j | 0 <= i < j < |s.h.registered| ensures s.h.registered[i] != s.h.registered[j] {
            assert after[i] != after[j];
          }
        }
        assert task !in s.h.registered by {
          forall i | 0 <= i < |s.h.registered| ensures s.h.registered[i] != task {
            assert after[i] != after[|s.h.registered|];
          }
        }
      }
    }
  }

  /** Steps that neither register nor erase. */
  ghost predicate SameIndex(s: State, s': State) {
    && s'.sh.allTasks == s.sh.allTasks && s'.h.registered == s.h.registered && s'.h.erased == s.h.erased
    && s.h.consumed <= s'.h.consumed && s.h.cancelled <= s'.h.cancelled
  }

  lemma IndexControl(s: State, k: ControlStep)
    ensures SameIndex(s, ControlApply(s, k))
    ensures ErasersConsumed(s) ==> ErasersConsumed(ControlApply(s, k))
  {
  }

  lemma IndexCall(s: State, c: nat, e: CallStep)
    ensures e.Register? || SameIndex(s, CallApply(s, c, e))
    ensures ErasersConsumed(s) ==> ErasersConsumed(CallApply(s, c, e))
  {
  }

  lemma IndexWorker(s: State, w: nat, a: WorkerStep)
    requires IndexAgrees(s) && ErasersConsumed(s)
    ensures IndexAgrees(WorkerApply(s, w, a)) && ErasersConsumed(WorkerApply(s, w, a))
  {
    if w < |s.workers| && w < |s.h.finished| && s.workers[w].Erasing? && a == Erase {
      IndexErased(s.(workers := s.workers[w := AtWait]), s.workers[w].task);
    } else {
      assert SameIndex(s, WorkerApply(s, w, a));
    }
  }

  lemma IndexDelayed(s: State, d: DelayedStep)
    requires IndexAgrees(s) && ErasersConsumed(s)
    ensures IndexAgrees(DelayedApply(s, d)) && ErasersConsumed(DelayedApply(s, d))
  {
    if s.delayer.Dropping? && d == Drop {
      IndexErased(s.(delayer := Processing(s.delayer.batch)), s.delayer.task);
    } else {
      assert SameIndex(s, DelayedApply(s, d));
    }
  }

  lemma IndexCancel(s: State, task: int, alive: bool, t: nat)
    requires IndexAgrees(s)
    ensures IndexAgrees(CancelApply(s, task, alive, t))
  {
    var marked := s.(h := s.h.(cancelled := s.h.cancelled + {task}));
    IndexErased(marked, task);
  }

  // ---- All of it, in every run ----

  /** `running_` is set from `start` to `stop`; `stop_` is clear from `start` until `stop` sets it, and set from then on
      until its drains are over. */
  predicate FlagsAgree(s: State) {
    && (s.sh.running <==> s.control.Starting? || s.control.Up?)
    && (s.control != Idle ==>
          (s.sh.stop <==> s.control.Joining? || s.control.DrainingDelayed? || s.control.DrainingQueue?))
  }

  lemma FlagsStep(s: State, step: Step)
    requires FlagsAgree(s)
    ensures FlagsAgree(Apply(s, step))
  {
    match step
    case OfControl(k) => assert FlagsAgree(ControlApply(s, k));
    case _ => OffControl(s, step);
  }

  lemma OffControl(s: State, step: Step)
    requires !step.OfControl?
    ensures Apply(s, step).control == s.control
    ensures Apply(s, step).sh.stop == s.sh.stop && Apply(s, step).sh.running == s.sh.running
  {
    match step
    case OfCall(c, e) => OffControlCall(s, c, e);
    case OfWorker(w, a) => OffControlWorker(s, w, a);
    case _ => OffQueue(s, step);
  }

  lemma OffControlCall(s: State, c: nat, e: CallStep)
    ensures CallApply(s, c, e).control == s.control
    ensures CallApply(s, c, e).sh.stop == s.sh.stop && CallApply(s, c, e).sh.running == s.sh.running
    ensures CallApply(s, c, e).sh.delayed == s.sh.delayed && CallApply(s, c, e).delayer == s.delayer
  {
  }

  lemma OffControlWorker(s: State, w: nat, a: WorkerStep)
    ensures WorkerApply(s, w, a).control == s.control
    ensures WorkerApply(s, w, a).sh.stop == s.sh.stop && WorkerApply(s, w, a).sh.running == s.sh.running
    ensures WorkerApply(s, w, a).delayer == s.delayer
  {
  }

  ghost predicate Inv(s: State) {
    NoLostWakeup(s) && Fifo(s) && OneWorkerEach(s) && IndexAgrees(s) && ErasersConsumed(s) && FlagsAgree(s)
  }

  // ---- Starting ----
  function Spawns(delayed: bool, workers: nat): seq<Step>
    decreases workers, delayed
  {
    [OfControl(Spawn)]
    + if delayed then Spawns(false, workers) else if workers > 0 then Spawns(false, workers - 1) else []
  }

  function Waiting(workers: nat): seq<WorkerPhase> {
    seq(workers, _ => AtWait)
  }

  lemma RunCons(s: State, x: Step, rest: seq<Step>)
    ensures Run(s, [x] + rest) == Run(Apply(s, x), rest)
  {
    assert ([x] + rest)[1..] == rest;
  }

  // ---- A queued task can be taken ----
  function ParkingWeight(p: WorkerPhase): nat {
    if p == Parking then 1 else 0
  }

  predicate IsIdle(p: WorkerPhase) {
    p == AtWait || p == Parking || p == Blocked || p == AtPop
  }

  lemma TakesFromPop(s: State, w: nat) returns (steps: seq<Step>)
    requires !s.sh.stop && s.sh.queue != [] && w < |s.workers| == |s.h.finished| && s.workers[w] == AtPop
    ensures Run(s, steps).h.taken == s.h.taken + [ByWorker(w, s.sh.queue[0])]
    ensures Run(s, steps).sh.queue == s.sh.queue[1..]
  {
    steps := [OfWorker(w, TryPop)];
    RunCons(s, OfWorker(w, TryPop), []);
  }

  lemma TakesFromWait(s: State, w: nat) returns (steps: seq<Step>)
    requires !s.sh.stop && s.sh.queue != [] && w < |s.workers| == |s.h.finished| && s.workers[w] == AtWait
    requires MutexFree(s.workers)
    ensures Run(s, steps).h.taken == s.h.taken + [ByWorker(w, s.sh.queue[0])]
    ensures Run(s, steps).sh.queue == s.sh.queue[1..]
  {
    var next := WorkerApply(s, w, Check);
    assert next == s.(workers := s.workers[w := AtPop]);
    var more := TakesFromPop(next, w);
    steps := [OfWorker(w, Check)] + more;
    RunCons(s, OfWorker(w, Check), more);
  }

  lemma TakesAfterNotify(s: State, w: nat) returns (steps: seq<Step>)
    requires NoLostWakeup(s) && !s.sh.stop && s.sh.queue != [] && w < |s.workers| == |s.h.finished|
    requires s.workers[w] == Blocked && MutexFree(s.workers)
    requires forall a :: 0 <= a < |s.workers| ==> s.workers[a] != AtPop && s.workers[a] != AtWait
    ensures Run(s, steps).h.taken == s.h.taken + [ByWorker(w, s.sh.queue[0])]
    ensures Run(s, steps).sh.queue == s.sh.queue[1..]
  {
    if Awake(s.workers) > 0 {
      var a := SomeWeight(s.workers, AwakeWeight);
      assert false;
    }
    var c :| c in Notifying(s.calls);
    var next := CallApply(s, c, Notify(w));
    assert next == s.(calls := s.calls - {c}, workers := s.workers[w := AtWait]);
    var more := TakesFromWait(next, w);
    steps := [OfCall(c, Notify(w))] + more;
    RunCons(s, OfCall(c, Notify(w)), more);
  }

  // ---- Tasks inside the scheduler ----
  predicate NeverReset(steps: seq<Step>, task: int) {
    forall i :: 0 <= i < |steps| ==> steps[i] != OnTask(task, TaskStatus.Reset)
  }

  /** In the run from `s`, nobody owes a callback of the task whenever it is reset. */
  ghost predicate QuietResets(s: State, steps: seq<Step>, task: int)
    decreases steps
  {
    || steps == []
    || ((steps[0] == OnTask(task, TaskStatus.Reset) ==> TaskStatus.Quiet(TaskOf(s, task)))
        && QuietResets(Apply(s, steps[0]), steps[1..], task))
  }

  lemma OffTasks(s: State, step: Step)
    requires !step.Cancel? && !step.OnTask? && step != OfControl(DrainDelayed) && step != OfControl(DrainQueue)
    ensures Apply(s, step).tasks == s.tasks
  {
    match step
    case OfControl(k) => assert ControlApply(s, k).tasks == s.tasks;
    case OfCall(c, e) => assert CallApply(s, c, e).tasks == s.tasks;
    case OfWorker(w, a) => assert WorkerApply(s, w, a).tasks == s.tasks;
    case OfDelayer(d) => assert DelayedApply(s, d).tasks == s.tasks;
  }

  /** How often `onRun` of the task has been called. */
  function RunsOf(s: State, task: int): nat {
    TaskStatus.Count(TaskOf(s, task).log, TaskStatus.OnRun)
  }

  /** The task has run `runs` times, and will not run again before it is reset. */
  ghost predicate WillNotRun(s: State, task: int, runs: nat) {
    TaskStatus.NoMoreRuns(TaskOf(s, task)) && RunsOf(s, task) == runs
  }

  /** No run of the scheduler from here calls `onRun` of the task before its next reset. */
  ghost predicate NeverRunsAgain(s: State, task: int) {
    forall steps | NeverReset(steps, task) :: RunsOf(Run(s, steps), task) == RunsOf(s, task)
  }

  lemma LateRun(s: State, task: int, u: nat)
    requires u in TaskOf(s, task).inside && TaskOf(s, task).inside[u] == TaskStatus.Owes(TaskStatus.OnRun)
    ensures RunsOf(Run(s, [OnTask(task, TaskStatus.Fire(u))]), task) == RunsOf(s, task) + 1
  {
    RunCons(s, OnTask(task, TaskStatus.Fire(u)), []);
    TaskStatus.CountAppend(TaskOf(s, task).log, TaskStatus.OnRun, TaskStatus.OnRun);
  }

  // ---- The drains ----
  function EnqueueTwo(a: int, b: int): seq<Step> {
    [OfControl(Start(false, 0)), OfControl(Spawn), OfCall(0, Register(a)), OfCall(0, Push),
     OfCall(1, Register(b)), OfCall(1, Push)]
  }

  function ShutDown(): seq<Step> {
    [OfControl(StopCas), OfControl(StopFlag), OfControl(Join), OfControl(DrainDelayed), OfControl(DrainQueue)]
  }

  lemma {:induction false} RunAppend(s: State, a: seq<Step>, b: seq<Step>)
    ensures Run(s, a + b) == Run(Run(s, a), b)
    decreases a
  {
    if a == [] {
      assert a + b == b;
    } else {
      assert (a + b)[0] == a[0] && (a + b)[1..] == a[1..] + b;
      RunAppend(Apply(s, a[0]), a[1..], b);
    }
  }

  lemma TwoEnqueued(a: int, b: int) returns (s: State)
    requires a != b
    ensures s == Run(INITIAL, EnqueueTwo(a, b))
    ensures s == INITIAL.(sh := Shared([a, b], [], map[a := a, b := b], false, true), control := Up,
                          calls := map[0 := Pushed(a), 1 := Pushed(b)],
                          h := INITIAL.h.(registered := [a, b], pushed := [a, b]))
  {
    var e := EnqueueTwo(a, b);
    s := Apply(Apply(INITIAL, e[0]), e[1]);
    assert s == INITIAL.(sh := INITIAL.sh.(running := true), control := Up);
    EnqueuedOne(s, 0, a, [], []);
    var s2 := Apply(Apply(s, e[2]), e[3]);
    EnqueuedOne(s2, 1, b, [a], [a]);
    var s3 := Apply(Apply(s2, e[4]), e[5]);
    assert e[1..] == [e[1]] + e[2..];
    RunPair(INITIAL, e[0], e[1], e[2..]);
    RunPair(s, e[2], e[3], e[4..]);
    RunPair(s2, e[4], e[5], []);
    assert e == [e[0], e[1]] + e[2..] && e[2..] == [e[2], e[3]] + e[4..] && e[4..] == [e[4], e[5]] + [];
    s := s3;
  }

  lemma RunPair(s: State, x: Step, y: Step, rest: seq<Step>)
    ensures Run(s, [x, y] + rest) == Run(Apply(Apply(s, x), y), rest)
  {
    assert [x, y] + rest == [x] + ([y] + rest);
    RunCons(s, x, [y] + rest);
    RunCons(Apply(s, x), y, rest);
  }

  lemma EnqueuedOne(s: State, c: nat, task: int, registered: seq<int>, pushed: seq<int>)
    requires c !in s.calls && s.h.registered == registered && s.h.pushed == pushed
    ensures Apply(Apply(s, OfCall(c, Register(task))), OfCall(c, Push))
            == s.(sh := s.sh.(allTasks := s.sh.allTasks[task := task], queue := s.sh.queue + [task]),
                  calls := s.calls[c := Pushed(task)],
                  h := s.h.(registered := registered + [task], pushed := pushed + [task]))
  {
  }

  lemma StoppedWithout(s: State) returns (end: State)
    requires s.control == Up && s.workers == [] && s.delayer == Off && s.sh.delayed == []
    ensures end == s.(sh := s.sh.(running := false, stop := true), control := DrainingQueue)
    ensures Run(s, ShutDown()) == Apply(end, OfControl(DrainQueue))
  {
    var d := ShutDown();
    var s1 := Apply(Apply(s, d[0]), d[1]);
    assert s1 == s.(sh := s.sh.(running := false, stop := true), control := Joining);
    end := Apply(Apply(s1, d[2]), d[3]);
    assert TasksOf(s.sh.delayed) == [];
    RunPair(s, d[0], d[1], d[2..]);
    RunPair(s1, d[2], d[3], d[4..]);
    RunCons(end, d[4], []);
    assert d == [d[0], d[1]] + d[2..] && d[2..] == [d[2], d[3]] + d[4..] && d[4..] == [d[4]] + [];
  }

  // ---- Shutdown ends ----
  function WorkerRank(p: WorkerPhase): nat {
    match p
    case Exited => 0
    case AtPop => 1
    case AtWait => 2
    case Parking => 4
    case Blocked => 3
    case Erasing(_) => 3
    case Executing(_) => 4
  }

  function DelayerRank(p: DelayedPhase, listed: nat): nat {
    match p
    case Off => 0
    case Looping => 1
    case Processing(batch) => 2 * |batch| + 2
    case Dropping(_, batch) => 2 * |batch| + 3
    case Sleeping => 2 * listed + 3
  }

  /** What the threads joined by `stop` still have to do. */
  function Remaining(s: State): nat {
    Weight(s.workers, WorkerRank) + DelayerRank(s.delayer, |s.sh.delayed|)
  }

  predicate OfJoinedThread(step: Step) {
    step.OfWorker? || (step.OfDelayer? && !step.d.DelayedEnqueue?)
  }

  lemma StopDecreasesWorker(s: State, w: nat, a: WorkerStep)
    requires s.sh.stop
    ensures WorkerApply(s, w, a) == s || Remaining(WorkerApply(s, w, a)) < Remaining(s)
    ensures WorkerApply(s, w, a).sh.stop
  {
    if w < |s.workers| && w < |s.h.finished| {
      WeightUpdate(s.workers, w, WorkerApply(s, w, a).workers[w], WorkerRank);
    }
  }

  lemma StopDecreasesDelayer(s: State, d: DelayedStep)
    requires s.sh.stop && !d.DelayedEnqueue?
    ensures DelayedApply(s, d) == s || Remaining(DelayedApply(s, d)) < Remaining(s)
    ensures DelayedApply(s, d).sh.stop
  {
    DelayQueue.TickSizes(s.sh.delayed);
  }

  // ---- The joins, among everything else that goes on ----

  /** Whether a joined thread gets on by this step. */
  function Move(s: State, step: Step): nat {
    if OfJoinedThread(step) && Apply(s, step) != s then 1 else 0
  }

  /** Whether the step adds an entry that the tick still to come may hand out. */
  function Late(s: State, step: Step): nat {
    if s.delayer == Sleeping && step.OfDelayer? && step.d.DelayedEnqueue? then 1 else 0
  }

  function Moves(s: State, steps: seq<Step>): nat
    decreases steps
  {
    if steps == [] then 0 else Move(s, steps[0]) + Moves(Apply(s, steps[0]), steps[1..])
  }

  function LateAdditions(s: State, steps: seq<Step>): nat
    decreases steps
  {
    if steps == [] then 0 else Late(s, steps[0]) + LateAdditions(Apply(s, steps[0]), steps[1..])
  }

  /** `stop` is in its joins. */
  ghost predicate InJoins(s: State) {
    s.control == Joining && s.sh.stop && NoLostWakeup(s) && OneWorkerEach(s)
  }

  ghost predicate JoinPending(steps: seq<Step>) {
    forall i :: 0 <= i < |steps| ==> steps[i] != OfControl(Join)
  }

  lemma JoinStepCall(s: State, c: nat, e: CallStep)
    requires InJoins(s)
    ensures var s' := CallApply(s, c, e);
            && s'.control == s.control && s'.sh.stop && Remaining(s') == Remaining(s) && s'.delayer == s.delayer
  {
    OffControlCall(s, c, e);
    assert CallApply(s, c, e).workers == s.workers;
  }

  lemma JoinStepDelayer(s: State, d: DelayedStep)
    requires s.control == Joining && s.sh.stop
    ensures var s' := DelayedApply(s, d);
            && s'.control == s.control && s'.sh.stop
            && Move(s, OfDelayer(d)) + Remaining(s') <= Remaining(s) + 2 * Late(s, OfDelayer(d))
            && (s.delayer != Sleeping ==> s'.delayer != Sleeping)
  {
    OffQueueDelayed(s, d);
    if !d.DelayedEnqueue? {
      StopDecreasesDelayer(s, d);
    }
  }
}
