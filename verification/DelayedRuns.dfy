/** The delayed list inside the task manager (3rdpart/common/src/task/task_manager.cpp:41-44, 93-101, 146-172): in
    every run of the whole machine it is what its own additions and ticks make of it, up to the drain of `stop`. */
module DelayedRuns {
  import opened DelayQueue
  import Scheduler
  import SchedulerSteps
  import SchedulerRuns
  import TaskStatus

  /** An entry handed to `doDelayedTask`, and the tick that did it. */
  datatype Handed = Handed(task: int, tick: nat)

  /** The additions and ticks since the last drain, the task of each addition, and what has been handed out. */
  datatype Track = Track(ops: seq<Op>, ids: seq<int>, handed: seq<Handed>)

  const START := Track([], [], [])

  function HandedAt(batch: seq<int>, tick: nat): seq<Handed> {
    seq(|batch|, i requires 0 <= i < |batch| => Handed(batch[i], tick))
  }

  /** What a step of the machine adds. What a tick hands out is what the delayed worker holds after it. */
  function Follow(s: Scheduler.State, t: Track, step: Scheduler.Step): Track {
    match step
    case OfDelayer(DelayedEnqueue(task, delay)) => t.(ops := t.ops + [Add(delay)], ids := t.ids + [task])
    case OfDelayer(Tick) =>
      var after := Scheduler.DelayedApply(s, Scheduler.Tick).delayer;
      if s.delayer.Sleeping? && after.Processing? then
        var ops := t.ops + [Op.Tick];
        Track(ops, t.ids + [0], t.handed + HandedAt(after.batch, Ticks(ops)))
      else t
    case OfControl(DrainDelayed) => if s.control.DrainingDelayed? then START else t
    case _ => t
  }

  function FollowRun(s: Scheduler.State, t: Track, steps: seq<Scheduler.Step>): Track
    decreases steps
  {
    if steps == [] then t else FollowRun(Scheduler.Apply(s, steps[0]), Follow(s, t, steps[0]), steps[1..])
  }

  // ---- Entries named by their tasks ----

  function IdOf(ids: seq<int>, a: nat): int {
    if a < |ids| then ids[a] else 0
  }

  function Named(list: seq<Delayed<nat>>, ids: seq<int>): seq<Delayed<int>> {
    seq(|list|, i requires 0 <= i < |list| => Delayed(IdOf(ids, list[i].task), list[i].delay))
  }

  function NamedFirings(log: seq<Firing>, ids: seq<int>): seq<Handed> {
    seq(|log|, i requires 0 <= i < |log| => Handed(IdOf(ids, log[i].task), log[i].tick))
  }

  lemma NamedCons(x: Delayed<nat>, rest: seq<Delayed<nat>>, ids: seq<int>)
    ensures Named([x] + rest, ids) == [Delayed(IdOf(ids, x.task), x.delay)] + Named(rest, ids)
    ensures Named([x] + rest, ids)[1..] == Named(rest, ids)
  {
  }

  lemma {:induction false} NamedTick(list: seq<Delayed<nat>>, ids: seq<int>)
    ensures Aged(Named(list, ids)) == Named(Aged(list), ids)
    ensures Due(Named(list, ids)) == Named(Due(list), ids)
  {
    if list == [] {
    } else {
      NamedTick(list[1..], ids);
      NamedCons(list[0], list[1..], ids);
      NamedCons(list[0], Due(list[1..]), ids);
      NamedCons(list[0].(delay := list[0].delay - INTERVAL), Aged(list[1..]), ids);
      assert [list[0]] + list[1..] == list;
    }
  }

  /** What a tick hands out is what fires. */
  lemma NamedBatch(list: seq<Delayed<nat>>, ids: seq<int>, tick: nat)
    ensures HandedAt(Scheduler.TasksOf(Due(Named(list, ids))), tick) == NamedFirings(Firings(list, tick), ids)
  {
    NamedTick(list, ids);
    FiringsAreDue(list, tick);
  }

  // ---- The invariant ----

  /** Entries are named by additions made before. */
  ghost predicate Bounded(s: State, n: nat) {
    && (forall e :: e in s.list ==> e.task < n)
    && (forall f :: f in s.log ==> f.task < n)
  }

  lemma {:induction false} TickFrom(list: seq<Delayed<nat>>, tick: nat, n: nat)
    requires forall e :: e in list ==> e.task < n
    ensures forall e :: e in Aged(list) ==> e.task < n
    ensures forall f :: f in Firings(list, tick) ==> f.task < n
  {
    if list == [] {
    } else {
      TickFrom(list[1..], tick, n);
      assert list[0] in list;
    }
  }

  lemma {:induction false} ExecBounded(ops: seq<Op>)
    ensures Bounded(Exec(ops), |ops|)
  {
    if ops == [] {
    } else {
      var n := |ops| - 1;
      ExecBounded(ops[..n]);
      TickFrom(Exec(ops[..n]).list, Ticks(ops), n);
    }
  }

  lemma NamedMore(s: State, ids: seq<int>, x: int)
    requires Bounded(s, |ids|)
    ensures Named(s.list, ids + [x]) == Named(s.list, ids)
    ensures NamedFirings(s.log, ids + [x]) == NamedFirings(s.log, ids)
  {
    forall i | 0 <= i < |s.list| ensures Named(s.list, ids + [x])[i] == Named(s.list, ids)[i] {
      assert s.list[i] in s.list;
    }
    forall i | 0 <= i < |s.log| ensures NamedFirings(s.log, ids + [x])[i] == NamedFirings(s.log, ids)[i] {
      assert s.log[i] in s.log;
    }
  }

  /** The delayed list of the machine, and everything handed out, is what `Exec` says. */
  ghost predicate Tracks(list: seq<Delayed<int>>, t: Track) {
    (|t.ids|, list, t.handed)
    == (|t.ops|, Named(Exec(t.ops).list, t.ids), NamedFirings(Exec(t.ops).log, t.ids))
  }

  lemma TracksStart()
    ensures Tracks([], START)
  {
    assert Named([], []) == [] && NamedFirings([], []) == [];
  }

  lemma TracksAddition(list: seq<Delayed<int>>, t: Track, task: int, delay: int)
    requires Tracks(list, t)
    ensures Tracks(list + [Delayed(task, delay)], t.(ops := t.ops + [Add(delay)], ids := t.ids + [task]))
  {
    var ops := t.ops + [Add(delay)];
    assert ops[..|ops| - 1] == t.ops;
    ExecBounded(t.ops);
    NamedMore(Exec(t.ops), t.ids, task);
    var more := Exec(t.ops).list + [Delayed(|t.ops|, delay)];
    assert Named(more, t.ids + [task]) == Named(Exec(t.ops).list, t.ids + [task]) + [Delayed(task, delay)];
  }

  lemma TracksTick(list: seq<Delayed<int>>, t: Track)
    requires Tracks(list, t)
    ensures var ops := t.ops + [Op.Tick];
            Tracks(Aged(list), Track(ops, t.ids + [0], t.handed + HandedAt(Scheduler.TasksOf(Due(list)), Ticks(ops))))
  {
    var ops, ids := t.ops + [Op.Tick], t.ids + [0];
    assert ops[..|ops| - 1] == t.ops;
    var before := Exec(t.ops);
    ExecBounded(t.ops);
    NamedMore(before, t.ids, 0);
    NamedTick(before.list, ids);
    NamedBatch(before.list, ids, Ticks(ops));
    assert NamedFirings(before.log + Firings(before.list, Ticks(ops)), ids)
        == NamedFirings(before.log, ids) + NamedFirings(Firings(before.list, Ticks(ops)), ids);
  }

  /** Steps other than additions, ticks and the drain leave the delayed list alone. */
  lemma OffDelayed(s: Scheduler.State, step: Scheduler.Step)
    requires !step.OfDelayer? && step != Scheduler.OfControl(Scheduler.DrainDelayed)
    ensures Scheduler.Apply(s, step).sh.delayed == s.sh.delayed
  {
    match step
    case OfControl(k) => assert Scheduler.ControlApply(s, k).sh.delayed == s.sh.delayed;
    case OfCall(c, e) => SchedulerSteps.OffControlCall(s, c, e);
    case OfWorker(w, a) => assert Scheduler.WorkerApply(s, w, a).sh.delayed == s.sh.delayed;
    case Cancel(task, alive, t) => SchedulerSteps.OffQueueCancel(s, task, alive, t);
    case OnTask(_, _) =>
  }

  lemma TracksStep(s: Scheduler.State, t: Track, step: Scheduler.Step)
    requires Tracks(s.sh.delayed, t)
    ensures Tracks(Scheduler.Apply(s, step).sh.delayed, Follow(s, t, step))
  {
    match step
    case OfDelayer(d) => TracksDelayer(s, t, d);
    case OfControl(DrainDelayed) => TracksStart();
    case _ => OffDelayed(s, step);
  }

  lemma TracksDelayer(s: Scheduler.State, t: Track, d: Scheduler.DelayedStep)
    requires Tracks(s.sh.delayed, t)
    ensures Tracks(Scheduler.DelayedApply(s, d).sh.delayed, Follow(s, t, Scheduler.OfDelayer(d)))
  {
    match d
    case DelayedEnqueue(task, delay) => TracksAddition(s.sh.delayed, t, task, delay);
    case Tick => TracksTick(s.sh.delayed, t);
    case _ =>
  }

  lemma {:induction false} TracksRun(s: Scheduler.State, t: Track, steps: seq<Scheduler.Step>)
    requires Tracks(s.sh.delayed, t)
    ensures Tracks(Scheduler.Run(s, steps).sh.delayed, FollowRun(s, t, steps))
    decreases steps
  {
    if steps == [] {
    } else {
      TracksStep(s, t, steps[0]);
      TracksRun(Scheduler.Apply(s, steps[0]), Follow(s, t, steps[0]), steps[1..]);
    }
  }

  // ---- Handed out and run ----

  /** What the delayed worker still has to run of the batch in its hands. */
  function InHand(p: Scheduler.DelayedPhase): seq<int> {
    match p
    case Processing(batch) => batch
    case Dropping(_, batch) => batch
    case _ => []
  }

  /** What one step hands out, and what it runs. */
  function HandsOut(s: Scheduler.State, step: Scheduler.Step): seq<int> {
    if step == Scheduler.OfDelayer(Scheduler.Tick) && s.delayer == Scheduler.Sleeping
    then Scheduler.TasksOf(Due(s.sh.delayed)) else []
  }

  function Runs(s: Scheduler.State, step: Scheduler.Step): seq<int> {
    if step.OfDelayer? && step.d.RunFirst? && s.delayer.Processing? && s.delayer.batch != []
    then [s.delayer.batch[0]] else []
  }

  function HandedIn(s: Scheduler.State, steps: seq<Scheduler.Step>): seq<int>
    decreases steps
  {
    if steps == [] then [] else HandsOut(s, steps[0]) + HandedIn(Scheduler.Apply(s, steps[0]), steps[1..])
  }

  function RunIn(s: Scheduler.State, steps: seq<Scheduler.Step>): seq<int>
    decreases steps
  {
    if steps == [] then [] else Runs(s, steps[0]) + RunIn(Scheduler.Apply(s, steps[0]), steps[1..])
  }

  lemma HandStep(s: Scheduler.State, step: Scheduler.Step)
    ensures InHand(s.delayer) + HandsOut(s, step) == Runs(s, step) + InHand(Scheduler.Apply(s, step).delayer)
  {
    match step
    case OfControl(k) => assert InHand(Scheduler.ControlApply(s, k).delayer) == InHand(s.delayer);
    case OfCall(c, e) => SchedulerSteps.OffControlCall(s, c, e);
    case OfWorker(w, a) => SchedulerSteps.OffControlWorker(s, w, a);
    case OfDelayer(d) => HandDelayer(s, d);
    case Cancel(task, alive, t) => SchedulerSteps.OffQueueCancel(s, task, alive, t);
    case OnTask(_, _) =>
  }

  lemma HandDelayer(s: Scheduler.State, d: Scheduler.DelayedStep)
    ensures InHand(s.delayer) + HandsOut(s, Scheduler.OfDelayer(d))
            == Runs(s, Scheduler.OfDelayer(d)) + InHand(Scheduler.DelayedApply(s, d).delayer)
  {
  }

  /** In every run the delayed worker runs what is handed out, in order, each once; what it has not run yet is in its
      hands. */
  lemma {:induction false} HandedIsRun(s: Scheduler.State, steps: seq<Scheduler.Step>)
    ensures InHand(s.delayer) + HandedIn(s, steps)
            == RunIn(s, steps) + InHand(Scheduler.Run(s, steps).delayer)
    decreases steps
  {
    if steps == [] {
    } else {
      var next := Scheduler.Apply(s, steps[0]);
      HandStep(s, steps[0]);
      HandedIsRun(next, steps[1..]);
      Reordered(InHand(s.delayer), HandsOut(s, steps[0]), HandedIn(next, steps[1..]), Runs(s, steps[0]),
                InHand(next.delayer), RunIn(next, steps[1..]), InHand(Scheduler.Run(s, steps).delayer));
    }
  }

  lemma Reordered(a: seq<int>, b: seq<int>, c: seq<int>, d: seq<int>, e: seq<int>, f: seq<int>, g: seq<int>)
    requires a + b == d + e && e + c == f + g
    ensures a + (b + c) == (d + f) + g
  {
    assert a + (b + c) == (a + b) + c;
    assert (d + e) + c == d + (e + c);
    assert d + (f + g) == (d + f) + g;
  }

  // ---- Fired on its tick, or released ----

  lemma {:induction false} Listed(list: seq<Delayed<nat>>, a: nat, d: int)
    requires DelaysOf(list, a) == [d]
    ensures Delayed(a, d) in list
  {
    if list[0].task == a {
      assert DelaysOf(list, a)[0] == list[0].delay;
    } else {
      Listed(list[1..], a, d);
    }
  }

  lemma {:induction false} Fired(log: seq<Firing>, a: nat, tick: nat)
    requires TicksOf(log, a) == [tick]
    ensures Firing(a, tick) in log
  {
    if log[0].task == a {
      assert TicksOf(log, a)[0] == log[0].tick;
    } else {
      Fired(log[1..], a, tick);
    }
  }

  /** In every run of the task manager, for every entry added to the delayed list since it was last drained: the
      entry has been handed out on its tick, once, or is in the list with the delay that is left; and then, if
      `stop` drains the list now, its task is released. */
  lemma FiresOrIsReleased(steps: seq<Scheduler.Step>, a: nat)
    requires var t := FollowRun(Scheduler.INITIAL, START, steps); a < |t.ops| && t.ops[a].Add?
    ensures var s, t := Scheduler.Run(Scheduler.INITIAL, steps), FollowRun(Scheduler.INITIAL, START, steps);
            var d, before, now := t.ops[a].delay, Ticks(t.ops[..a]), Ticks(t.ops);
            && Tracks(s.sh.delayed, t)
            && OnSchedule(Exec(t.ops), a, d, before, now)
            && if now >= before + FiringTick(d) then Handed(t.ids[a], before + FiringTick(d)) in t.handed
               else
                 && Delayed(t.ids[a], d - 100 * (now - before)) in s.sh.delayed
                 && (s.control == Scheduler.DrainingDelayed ==> Released(s, t.ids[a]))
  {
    var s, t := Scheduler.Run(Scheduler.INITIAL, steps), FollowRun(Scheduler.INITIAL, START, steps);
    var d, before, now := t.ops[a].delay, Ticks(t.ops[..a]), Ticks(t.ops);
    TracksStart();
    TracksRun(Scheduler.INITIAL, START, steps);
    FiresOnItsTick(t.ops, a);
    if now >= before + FiringTick(d) {
      HandedOut(t, a, before + FiringTick(d));
    } else {
      StillListed(s, t, a, d - INTERVAL * (now - before));
    }
  }

  ghost predicate Released(s: Scheduler.State, task: int) {
    Scheduler.TaskOf(Scheduler.Apply(s, Scheduler.OfControl(Scheduler.DrainDelayed)), task)
    == TaskStatus.ReleaseCall(Scheduler.TaskOf(s, task))
  }

  lemma HandedOut(t: Track, a: nat, tick: nat)
    requires a < |t.ids| && t.handed == NamedFirings(Exec(t.ops).log, t.ids) && TicksOf(Exec(t.ops).log, a) == [tick]
    ensures Handed(t.ids[a], tick) in t.handed
  {
    var log := Exec(t.ops).log;
    Fired(log, a, tick);
    var i :| 0 <= i < |log| && log[i] == Firing(a, tick);
    assert t.handed[i] == Handed(t.ids[a], tick);
  }

  lemma StillListed(s: Scheduler.State, t: Track, a: nat, d: int)
    requires a < |t.ids| && Tracks(s.sh.delayed, t) && DelaysOf(Exec(t.ops).list, a) == [d]
    ensures Delayed(t.ids[a], d) in s.sh.delayed
    ensures s.control == Scheduler.DrainingDelayed ==> Released(s, t.ids[a])
  {
    var list := Exec(t.ops).list;
    Listed(list, a, d);
    var i :| 0 <= i < |list| && list[i] == Delayed(a, d);
    assert s.sh.delayed[i] == Delayed(t.ids[a], d);
    assert Scheduler.TasksOf(s.sh.delayed)[i] == t.ids[a];
    if s.control == Scheduler.DrainingDelayed {
      SchedulerRuns.DelayedDrain(s, t.ids[a]);
    }
  }
}
