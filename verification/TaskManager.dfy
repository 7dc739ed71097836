/** The methods of the task manager (3rdpart/common/src/task/task_manager.cpp) over its own fields. Each
    method is one critical section, or a call made of them with nobody in between, and is proved against
    the functions the machine in `Scheduler` is built from. */
module TaskManagers {
  import opened DelayQueue
  import opened Scheduler
  import TaskStatus

  type Task = TaskStatus.Task

  lemma {:induction false} DueAppend<T>(list: seq<Delayed<T>>, x: Delayed<T>)
    ensures Due(list + [x]) == if x.delay <= 0 then Due(list) + [x] else Due(list)
  {
    if list == [] {
      assert list + [x] == [x] && [x][1..] == [];
    } else {
      DueAppend(list[1..], x);
      assert (list + [x])[1..] == list[1..] + [x];
    }
  }

  lemma {:induction false} AgedAppend<T>(list: seq<Delayed<T>>, x: Delayed<T>)
    ensures Aged(list + [x])
            == if x.delay <= 0 then Aged(list) else Aged(list) + [x.(delay := x.delay - INTERVAL)]
  {
    if list == [] {
      assert list + [x] == [x] && [x][1..] == [];
    } else {
      AgedAppend(list[1..], x);
      assert (list + [x])[1..] == list[1..] + [x];
    }
  }

  /** One turn of the erase loop: `seen` entries have been looked at, the rest is as it was. */
  function Half<T>(all: seq<Delayed<T>>, seen: nat): seq<Delayed<T>>
    requires seen <= |all|
  {
    Aged(all[..seen]) + all[seen..]
  }

  lemma Turn<T>(all: seq<Delayed<T>>, seen: nat)
    requires seen < |all|
    ensures var entry, half, it := all[seen], Half(all, seen), |Aged(all[..seen])|;
            && it < |half| && half[it] == entry
            && (if entry.delay <= 0 then
                  && Due(all[..seen + 1]) == Due(all[..seen]) + [entry]
                  && Half(all, seen + 1) == half[..it] + half[it + 1..]
                  && |Aged(all[..seen + 1])| == it
                else
                  && Due(all[..seen + 1]) == Due(all[..seen])
                  && Half(all, seen + 1) == half[it := entry.(delay := entry.delay - INTERVAL)]
                  && |Aged(all[..seen + 1])| == it + 1)
  {
    var entry := all[seen];
    assert all[..seen + 1] == all[..seen] + [entry] && all[seen..] == [entry] + all[seen + 1..];
    DueAppend(all[..seen], entry);
    AgedAppend(all[..seen], entry);
    AtSeam(Aged(all[..seen]), entry, all[seen + 1..], entry.(delay := entry.delay - INTERVAL));
  }

  /** Erasing or replacing the entry between the part already seen and the part to come. */
  lemma AtSeam<T>(seen: seq<T>, x: T, rest: seq<T>, y: T)
    ensures var whole := seen + ([x] + rest);
            && whole[..|seen|] + whole[|seen| + 1..] == seen + rest
            && whole[|seen| := y] == (seen + [y]) + rest
  {
  }

  /** `Task::cancel` called and finished by one thread. */
  function Cancelled(t: TaskStatus.State): TaskStatus.State {
    TaskStatus.Apply(TaskStatus.Apply(TaskStatus.Apply(t, TaskStatus.CancelStore(0)), TaskStatus.CancelFlag(0)),
                     TaskStatus.Fire(0))
  }

  /** It is the one call that always calls back, whatever the status was, and it settles the status. */
  lemma CancelledAlwaysFires(t: TaskStatus.State)
    requires 0 !in t.inside
    ensures Cancelled(t) == t.(status := TaskStatus.Canceled, isCancel := true, log := t.log + [TaskStatus.OnCancel])
  {
    assert t.inside[0 := TaskStatus.CancelStored][0 := TaskStatus.Owes(TaskStatus.OnCancel)] - {0} == t.inside;
  }

  class TaskManager {
    var taskQueue: seq<Task>
    var delayedTasks: seq<Delayed<Task>>
    var allTasks: map<int, Task>
    var stopping: bool
    var running: bool

    function View(): Shared<Task>
      reads this
    {
      Shared(taskQueue, delayedTasks, allTasks, stopping, running)
    }

    constructor ()
      ensures View() == Shared([], [], map[], false, false)
    {
      taskQueue, delayedTasks, allTasks, stopping, running := [], [], map[], false, false;
    }

    /** The first two critical sections of `enqueue`; the third only notifies. */
    method Enqueue(task: Task)
      modifies this
      ensures View() == old(View()).(allTasks := old(allTasks)[task.id := task], queue := old(taskQueue) + [task])
    {
      allTasks := allTasks[task.id := task];
      taskQueue := taskQueue + [task];
    }

    method DelayedEnqueue(task: Task, delay: int)
      modifies this`delayedTasks
      ensures delayedTasks == old(delayedTasks) + [Delayed(task, delay)]
    {
      delayedTasks := delayedTasks + [Delayed(task, delay)];
    }

    /** The critical section in which a worker takes a task. */
    method TryPop() returns (outcome: PopOutcome<Task>)
      modifies this`taskQueue
      ensures (View(), outcome) == Pop(old(View()))
    {
      if stopping {
        return Break;
      }
      if taskQueue == [] {
        return Again;
      }
      outcome := Took(taskQueue[0]);
      taskQueue := taskQueue[1..];
    }

    /** The erase loop of one tick: entries are erased or aged in place while the list shrinks. */
    method CheckDelayed() returns (tasksToProcess: seq<Delayed<Task>>)
      modifies this`delayedTasks
      ensures tasksToProcess == Due(old(delayedTasks))
      ensures delayedTasks == Aged(old(delayedTasks))
    {
      ghost var all := delayedTasks;
      ghost var seen := 0;
      var it := 0;
      tasksToProcess := [];
      assert Half(all, 0) == all;
      while it != |delayedTasks|
        invariant 0 <= seen <= |all|
        invariant tasksToProcess == Due(all[..seen])
        invariant it == |Aged(all[..seen])|
        invariant delayedTasks == Half(all, seen)
        decreases |all| - seen
      {
        Turn(all, seen);
        var entry := delayedTasks[it];
        if entry.delay <= 0 {
          tasksToProcess := tasksToProcess + [entry];
          delayedTasks := delayedTasks[..it] + delayedTasks[it + 1..];
        } else {
          delayedTasks := delayedTasks[it := entry.(delay := entry.delay - INTERVAL)];
          it := it + 1;
        }
        seen := seen + 1;
      }
      assert all[..seen] == all;
    }

    /** `alive` says whether the weak pointer kept in the index still leads to the task. */
    method Cancel(id: int, alive: bool)
      modifies this`allTasks, allTasks.Values
      ensures allTasks == old(allTasks) - {id}
      ensures id in old(allTasks) && alive ==>
                var task := old(allTasks)[id];
                task.View() == Cancelled(old(allTasks[id].View()))
      ensures forall task | task in old(allTasks).Values ::
                (alive && id in old(allTasks) && task == old(allTasks)[id]) || unchanged(task)
    {
      if id in allTasks {
        if alive {
          allTasks[id].Cancel();
        }
        allTasks := allTasks - {id};
      }
    }

    /** The first drain of `stop`: every delayed task is released. */
    method DrainDelayed()
      modifies this`delayedTasks, set e | e in delayedTasks :: e.task
      ensures delayedTasks == []
      ensures forall e :: e in old(delayedTasks) ==> e.task.View() == TaskStatus.ReleaseCall(old(e.task.View()))
    {
      ghost var all := delayedTasks;
      ghost var gone := 0;
      while delayedTasks != []
        invariant 0 <= gone <= |all| && delayedTasks == all[gone..]
        invariant forall e :: e in all ==>
                    e.task.View() == TaskStatus.ReleaseCall(old(e.task.View())) || e.task.View() == old(e.task.View())
        invariant forall i :: 0 <= i < gone ==> all[i].task.View() == TaskStatus.ReleaseCall(old(all[i].task.View()))
        decreases |delayedTasks|
      {
        var task := delayedTasks[0].task;
        assert delayedTasks[0] == all[gone];
        delayedTasks := delayedTasks[1..];
        task.Release();
        gone := gone + 1;
      }
    }

    /** The second drain of `stop`: it reads the front but pops the back, so that only the first task of
        the queue is released. */
    method DrainQueue()
      modifies this`taskQueue, set t | t in taskQueue
      ensures taskQueue == []
      ensures old(taskQueue) != [] ==>
                old(taskQueue)[0].View() == TaskStatus.ReleaseCall(old(taskQueue[0].View()))
      ensures forall t :: t in old(taskQueue) && t != old(taskQueue)[0] ==> t.View() == old(t.View())
    {
      ghost var all := taskQueue;
      while taskQueue != []
        invariant taskQueue == all[..|taskQueue|] && |taskQueue| <= |all|
        invariant forall t :: t in all && t != all[0] ==> t.View() == old(t.View())
        invariant all != [] ==>
                    all[0].View()
                    == if |taskQueue| < |all| then TaskStatus.ReleaseCall(old(all[0].View())) else old(all[0].View())
        decreases |taskQueue|
      {
        var task := taskQueue[0];
        taskQueue := taskQueue[..|taskQueue| - 1];
        task.Release();
      }
    }
  }
}
