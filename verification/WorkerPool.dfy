/** The worker pool of the application (src/rpc/GameToolClient.cpp): requests are queued, a fixed set of
    workers runs them, and shutdown drains the queue before the workers leave. One step per critical
    section; a step that its thread cannot take leaves the state as it is. */
module WorkerPool {
  import opened Rpc
  import opened Weights

  datatype TakeOutcome = Wait | Quit | Take(msg: Message)

  /** The critical section of a worker: the wait predicate, the exit test and the pop, under one lock. */
  function Choose(tasks: seq<Message>, shutdown: bool): TakeOutcome {
    if !shutdown && tasks == [] then Wait
    else if tasks == [] then Quit
    else Take(tasks[0])
  }

  class SauriApplication {
    var tasks: seq<Message>
    var shutdown: bool

    constructor ()
      ensures tasks == [] && !shutdown
    {
      tasks, shutdown := [], false;
    }

    method HandleRpcRequest(msg: Message)
      modifies this`tasks
      ensures tasks == old(tasks) + [msg]
    {
      tasks := tasks + [msg];
    }

    method TryTake() returns (outcome: TakeOutcome)
      modifies this`tasks
      ensures outcome == Choose(old(tasks), shutdown)
      ensures old(tasks) == (if outcome.Take? then [outcome.msg] else []) + tasks
    {
      if !(shutdown || tasks != []) {
        return Wait;
      }
      if shutdown && tasks == [] {
        return Quit;
      }
      outcome := Take(tasks[0]);
      tasks := tasks[1..];
    }

    /** One worker left alone after shutdown: it answers everything queued, in order, and leaves. */
    method DrainAlone(app: App) returns (responses: seq<Response>)
      requires shutdown
      modifies this`tasks
      ensures tasks == []
      ensures |responses| == |old(tasks)|
      ensures forall i :: 0 <= i < |responses| ==> responses[i] == Respond(app, old(tasks)[i])
    {
      responses := [];
      while true
        invariant |responses| + |tasks| == |old(tasks)| && tasks == old(tasks)[|responses|..]
        invariant forall i :: 0 <= i < |responses| ==> responses[i] == Respond(app, old(tasks)[i])
        decreases |tasks|
      {
        var outcome := TryTake();
        if outcome.Quit? {
          return;
        }
        var response := Execute(app, outcome.msg);
        responses := responses + [response];
      }
    }
  }

  // ---- The machine ----

  /** A running task is named by its ticket: how many tasks were taken before it. */
  datatype Phase = AtWait | Blocked | Executing(ticket: nat) | Exited

  datatype Stopper = NotCalled | FlagSet | Notified

  datatype State = State(tasks: seq<Message>, shutdown: bool, workers: seq<Phase>, notifying: nat, stopper: Stopper,
                         pushed: seq<Message>, taken: seq<Message>, responses: map<nat, Response>, pushedAtExit: nat)

  function Initial(workers: nat): State {
    State([], false, seq(workers, _ => AtWait), 0, NotCalled, [], [], map[], 0)
  }

  datatype Step =
    | Push(msg: Message)   // handleRpcRequest, under the lock
    | Notify(w: nat)       // its notify_one
    | TakeStep(w: nat)
    | Wake(w: nat)         // a spurious wake-up
    | Finish(w: nat)
    | SetShutdown
    | NotifyAll

  function AllWoken(workers: seq<Phase>): seq<Phase> {
    seq(|workers|, i requires 0 <= i < |workers| => if workers[i] == Blocked then AtWait else workers[i])
  }

  function Taking(s: State, w: nat): State
    requires w < |s.workers|
  {
    match Choose(s.tasks, s.shutdown)
    case Wait => s.(workers := s.workers[w := Blocked])
    case Quit => s.(workers := s.workers[w := Exited], pushedAtExit := |s.pushed|)
    case Take(msg) =>
      s.(tasks := s.tasks[1..], workers := s.workers[w := Executing(|s.taken|)], taken := s.taken + [msg])
  }

  function Finishing(app: App, s: State, w: nat, ticket: nat): State
    requires w < |s.workers|
  {
    if ticket >= |s.taken| then s
    else s.(workers := s.workers[w := AtWait], responses := s.responses[ticket := Respond(app, s.taken[ticket])])
  }

  function Apply(app: App, s: State, step: Step): State {
    match step
    case Push(msg) => s.(tasks := s.tasks + [msg], pushed := s.pushed + [msg], notifying := s.notifying + 1)
    case Notify(w) =>
      if s.notifying == 0 then s
      else if w < |s.workers| && s.workers[w] == Blocked
      then s.(notifying := s.notifying - 1, workers := s.workers[w := AtWait])
      else if Blocked !in s.workers then s.(notifying := s.notifying - 1)
      else s
    case TakeStep(w) => if w < |s.workers| && s.workers[w] == AtWait then Taking(s, w) else s
    case Wake(w) => if w < |s.workers| && s.workers[w] == Blocked then s.(workers := s.workers[w := AtWait]) else s
    case Finish(w) =>
      if w < |s.workers| && s.workers[w].Executing? then Finishing(app, s, w, s.workers[w].ticket) else s
    case SetShutdown => if s.stopper == NotCalled then s.(shutdown := true, stopper := FlagSet) else s
    case NotifyAll => if s.stopper == FlagSet then s.(workers := AllWoken(s.workers), stopper := Notified) else s
  }

  function Run(app: App, s: State, steps: seq<Step>): State
    decreases steps
  {
    if steps == [] then s else Run(app, Apply(app, s, steps[0]), steps[1..])
  }

  predicate AllExited(workers: seq<Phase>) {
    forall p :: p in workers ==> p == Exited
  }

  // ---- Invariants ----

  /** Tasks leave the queue in push order, and none is lost or duplicated. */
  ghost predicate Fifo(s: State) {
    s.taken + s.tasks == s.pushed
  }

  /** Every task taken is being run by one worker or has its response, and never both. */
  ghost predicate OneRunEach(app: App, s: State) {
    && (forall w :: 0 <= w < |s.workers| && s.workers[w].Executing? ==>
          s.workers[w].ticket < |s.taken| && s.workers[w].ticket !in s.responses)
    && (forall v, w :: 0 <= v < w < |s.workers| && s.workers[v].Executing? && s.workers[w].Executing? ==>
          s.workers[v].ticket != s.workers[w].ticket)
    && (forall k :: 0 <= k < |s.taken| ==> k in s.responses || Executing(k) in s.workers)
    && (forall k :: k in s.responses ==> k < |s.taken| && s.responses[k] == Respond(app, s.taken[k]))
  }

  /** Workers leave only after shutdown, and what was pushed before an exit has been taken. */
  ghost predicate ExitsDrain(s: State) {
    && (Exited in s.workers ==> s.shutdown)
    && s.pushedAtExit <= |s.taken|
    && (s.workers != [] && AllExited(s.workers) ==> |s.taken| == s.pushedAtExit)
  }

  function AwakeWeight(p: Phase): nat {
    if p == AtWait then 1 else 0
  }

  function Awake(workers: seq<Phase>): nat {
    Weight(workers, AwakeWeight)
  }

  /** While some worker sleeps, every queued task has an awake worker or a coming notification; and
      nobody sleeps once the stopper has notified all. */
  ghost predicate NoLostWakeup(s: State) {
    && (s.shutdown <==> s.stopper != NotCalled)
    && (s.stopper == Notified ==> Blocked !in s.workers)
    && (Blocked in s.workers ==> |s.tasks| <= Awake(s.workers) + s.notifying)
  }

  lemma UpdatedMembers(workers: seq<Phase>, w: nat, p: Phase)
    requires w < |workers|
    ensures p in workers[w := p]
    ensures forall q :: q in workers[w := p] ==> q == p || q in workers
    ensures forall q :: q in workers && q != workers[w] ==> q in workers[w := p]
  {
    var after := workers[w := p];
    assert after[w] == p;
    forall q | q in workers && q != workers[w] ensures q in after {
      var v :| 0 <= v < |workers| && workers[v] == q;
      assert after[v] == q;
    }
  }

  lemma FifoStep(app: App, s: State, step: Step)
    requires Fifo(s)
    ensures Fifo(Apply(app, s, step))
  {
    match step
    case Push(msg) => assert s.taken + (s.tasks + [msg]) == s.pushed + [msg];
    case TakeStep(w) =>
      if s.tasks != [] {
        assert (s.taken + [s.tasks[0]]) + s.tasks[1..] == s.taken + s.tasks;
      }
    case _ =>
  }

  lemma WakeupStep(app: App, s: State, step: Step)
    requires NoLostWakeup(s)
    ensures NoLostWakeup(Apply(app, s, step))
  {
    match step
    case Notify(w) => WakeupOne(s, w);
    case TakeStep(w) => WakeupTake(s, w);
    case Wake(w) => WakeupOne(s, w);
    case Finish(w) => WakeupFinish(app, s, w);
    case _ =>
  }

  lemma WakeupOne(s: State, w: nat)
    ensures w < |s.workers| && s.workers[w] == Blocked ==>
              && Awake(s.workers[w := AtWait]) == Awake(s.workers) + 1
              && (Blocked in s.workers[w := AtWait] ==> Blocked in s.workers)
  {
    if w < |s.workers| && s.workers[w] == Blocked {
      WeightUpdate(s.workers, w, AtWait, AwakeWeight);
    }
  }

  lemma WakeupTake(s: State, w: nat)
    requires NoLostWakeup(s)
    ensures w < |s.workers| && s.workers[w] == AtWait ==> NoLostWakeup(Taking(s, w))
  {
    if w < |s.workers| && s.workers[w] == AtWait {
      var p := Taking(s, w).workers[w];
      WeightUpdate(s.workers, w, p, AwakeWeight);
      UpdatedMembers(s.workers, w, p);
    }
  }

  lemma WakeupFinish(app: App, s: State, w: nat)
    requires NoLostWakeup(s)
    ensures NoLostWakeup(Apply(app, s, Finish(w)))
  {
    if w < |s.workers| && s.workers[w].Executing? {
      WeightUpdate(s.workers, w, AtWait, AwakeWeight);
      UpdatedMembers(s.workers, w, AtWait);
    }
  }

  lemma OneRunEachStep(app: App, s: State, step: Step)
    requires OneRunEach(app, s)
    ensures OneRunEach(app, Apply(app, s, step))
  {
    match step
    case Push(msg) =>
    case Notify(w) => if w < |s.workers| && s.workers[w] == Blocked { OneRunEachIdle(app, s, w, AtWait); }
    case TakeStep(w) => if w < |s.workers| && s.workers[w] == AtWait { OneRunEachTake(app, s, w); }
    case Wake(w) => if w < |s.workers| && s.workers[w] == Blocked { OneRunEachIdle(app, s, w, AtWait); }
    case Finish(w) => if w < |s.workers| && s.workers[w].Executing? { OneRunEachFinish(app, s, w); }
    case SetShutdown =>
    case NotifyAll => OneRunEachWoken(app, s);
  }

  lemma OneRunEachIdle(app: App, s: State, w: nat, p: Phase)
    requires OneRunEach(app, s) && w < |s.workers| && !s.workers[w].Executing? && !p.Executing?
    ensures OneRunEach(app, s.(workers := s.workers[w := p]))
  {
    UpdatedMembers(s.workers, w, p);
  }

  lemma OneRunEachTake(app: App, s: State, w: nat)
    requires OneRunEach(app, s) && w < |s.workers| && s.workers[w] == AtWait
    ensures OneRunEach(app, Taking(s, w))
  {
    match Choose(s.tasks, s.shutdown)
    case Wait => OneRunEachIdle(app, s, w, Blocked);
    case Quit => OneRunEachIdle(app, s, w, Exited);
    case Take(msg) => UpdatedMembers(s.workers, w, Executing(|s.taken|));
  }

  lemma OneRunEachFinish(app: App, s: State, w: nat)
    requires OneRunEach(app, s) && w < |s.workers| && s.workers[w].Executing?
    ensures OneRunEach(app, Finishing(app, s, w, s.workers[w].ticket))
  {
    UpdatedMembers(s.workers, w, AtWait);
  }

  lemma OneRunEachWoken(app: App, s: State)
    requires OneRunEach(app, s)
    ensures OneRunEach(app, s.(workers := AllWoken(s.workers)))
  {
    forall k | Executing(k) in s.workers ensures Executing(k) in AllWoken(s.workers) {
      var w :| 0 <= w < |s.workers| && s.workers[w] == Executing(k);
      assert AllWoken(s.workers)[w] == Executing(k);
    }
  }

  lemma ExitsStep(app: App, s: State, step: Step)
    requires Fifo(s) && ExitsDrain(s)
    ensures ExitsDrain(Apply(app, s, step))
  {
    match step
    case Push(msg) =>
    case Notify(w) => if w < |s.workers| { NotYetAll(s.workers, w, AtWait); }
    case TakeStep(w) => if w < |s.workers| && s.workers[w] == AtWait { ExitsTake(s, w); }
    case Wake(w) => if w < |s.workers| { NotYetAll(s.workers, w, AtWait); }
    case Finish(w) => if w < |s.workers| { NotYetAll(s.workers, w, AtWait); }
    case SetShutdown =>
    case NotifyAll => ExitsWoken(s.workers);
  }

  lemma NotYetAll(workers: seq<Phase>, w: nat, p: Phase)
    requires w < |workers| && p != Exited
    ensures !AllExited(workers[w := p])
    ensures Exited in workers[w := p] ==> Exited in workers
  {
    UpdatedMembers(workers, w, p);
  }

  lemma ExitsTake(s: State, w: nat)
    requires Fifo(s) && ExitsDrain(s) && w < |s.workers| && s.workers[w] == AtWait
    ensures ExitsDrain(Taking(s, w))
  {
    match Choose(s.tasks, s.shutdown)
    case Wait => NotYetAll(s.workers, w, Blocked);
    case Quit =>
    case Take(_) => NotYetAll(s.workers, w, Executing(|s.taken|));
  }

  lemma ExitsWoken(workers: seq<Phase>)
    ensures Exited in AllWoken(workers) <==> Exited in workers
    ensures AllExited(AllWoken(workers)) ==> AllExited(workers)
  {
    if i :| 0 <= i < |workers| && workers[i] == Exited {
      assert AllWoken(workers)[i] == Exited;
    }
    if AllExited(AllWoken(workers)) {
      forall i | 0 <= i < |workers| ensures workers[i] == Exited {
        assert AllWoken(workers)[i] in AllWoken(workers);
      }
    }
  }

  ghost predicate Inv(app: App, s: State) {
    Fifo(s) && NoLostWakeup(s) && OneRunEach(app, s) && ExitsDrain(s)
  }

  lemma InvInitial(app: App, n: nat)
    ensures Inv(app, Initial(n)) && Initial(n).notifying == 0
  {
  }

  lemma SameCrew(app: App, s: State, step: Step)
    ensures |Apply(app, s, step).workers| == |s.workers|
  {
  }

  lemma {:induction false} InvRun(app: App, s: State, steps: seq<Step>)
    requires Inv(app, s)
    ensures Inv(app, Run(app, s, steps))
    ensures |Run(app, s, steps).workers| == |s.workers|
    decreases steps
  {
    if steps == [] {
    } else {
      FifoStep(app, s, steps[0]);
      WakeupStep(app, s, steps[0]);
      OneRunEachStep(app, s, steps[0]);
      ExitsStep(app, s, steps[0]);
      SameCrew(app, s, steps[0]);
      InvRun(app, Apply(app, s, steps[0]), steps[1..]);
    }
  }

  /** In every interleaving: tasks are taken in push order, each is run by one worker and gets one
      response, the right one; and when the last worker has left, exactly the requests pushed before that
      have been answered. */
  lemma DrainingShutdown(app: App, n: nat, steps: seq<Step>)
    requires n > 0
    ensures var s := Run(app, Initial(n), steps);
            && Fifo(s) && OneRunEach(app, s)
            && (AllExited(s.workers) ==>
                  && s.shutdown
                  && s.pushedAtExit <= |s.pushed| && s.taken == s.pushed[..s.pushedAtExit]
                  && (forall k: nat :: k in s.responses <==> k < s.pushedAtExit)
                  && (forall k: nat :: k < s.pushedAtExit ==> Answers(app, s.pushed[k], s.responses[k])))
  {
    InvInitial(app, n);
    InvRun(app, Initial(n), steps);
    var s := Run(app, Initial(n), steps);
    if AllExited(s.workers) {
      assert s.workers[0] in s.workers;
      forall k: nat | k < |s.taken| ensures k in s.responses && Answers(app, s.taken[k], s.responses[k]) {
        assert Executing(k) !in s.workers;
        RespondAnswers(app, s.taken[k]);
      }
      assert s.taken == s.pushed[..|s.taken|];
    }
  }

  /** While a worker waits, asleep or awake, the first queued request can be taken in at most two steps. */
  lemma IdleWorkerTakes(app: App, s: State, w: nat) returns (steps: seq<Step>)
    requires NoLostWakeup(s) && s.tasks != [] && w < |s.workers| && (s.workers[w] == AtWait || s.workers[w] == Blocked)
    ensures |steps| <= 2 && Run(app, s, steps).taken == s.taken + [s.tasks[0]]
    ensures Run(app, s, steps).tasks == s.tasks[1..]
  {
    if s.workers[w] == AtWait {
      steps := [TakeStep(w)];
      RunOne(app, s, TakeStep(w));
    } else if s.notifying > 0 {
      steps := [Notify(w), TakeStep(w)];
      assert steps[1..] == [TakeStep(w)];
      RunOne(app, Apply(app, s, Notify(w)), TakeStep(w));
    } else {
      assert s.workers[w] in s.workers;
      var awake := SomeWeight(s.workers, AwakeWeight);
      steps := [TakeStep(awake)];
      RunOne(app, s, TakeStep(awake));
    }
  }

  lemma RunOne(app: App, s: State, step: Step)
    ensures Run(app, s, [step]) == Apply(app, s, step)
  {
    assert [step][1..] == [];
  }

  /** What a waiting worker does: it runs a task if there is one; without one it sleeps, or leaves after shutdown. A
      sleeping worker that wakes by itself waits again. */
  lemma WaitingWorker(app: App, s: State, w: nat)
    requires w < |s.workers|
    ensures var s' := Apply(app, s, TakeStep(w));
            s.workers[w] == AtWait ==>
              && (s'.workers[w].Executing? <==> s.tasks != [])
              && (s'.workers[w] == Exited <==> s.tasks == [] && s.shutdown)
              && (s'.workers[w] == Blocked <==> s.tasks == [] && !s.shutdown)
    ensures s.workers[w] == Blocked ==> Apply(app, s, Wake(w)).workers == s.workers[w := AtWait]
  {
  }

  /** The step delivers a notification: to a sleeper, or to nobody when nobody sleeps. */
  predicate Delivers(s: State, step: Step) {
    step.Notify? && s.notifying > 0
    && ((step.w < |s.workers| && s.workers[step.w] == Blocked) || Blocked !in s.workers)
  }

  function DeliveredIn(app: App, s: State, steps: seq<Step>): nat
    decreases steps
  {
    if steps == [] then 0
    else (if Delivers(s, steps[0]) then 1 else 0) + DeliveredIn(app, Apply(app, s, steps[0]), steps[1..])
  }

  function Pushes(steps: seq<Step>): nat {
    if steps == [] then 0 else (if steps[0].Push? then 1 else 0) + Pushes(steps[1..])
  }

  /** Every request is notified once: what has been pushed and not been delivered is still to come. */
  lemma {:induction false} NotifiedOnce(app: App, s: State, steps: seq<Step>)
    ensures Run(app, s, steps).notifying + DeliveredIn(app, s, steps) == s.notifying + Pushes(steps)
    decreases steps
  {
    if steps == [] {
    } else {
      var next := Apply(app, s, steps[0]);
      assert next.notifying + (if Delivers(s, steps[0]) then 1 else 0) == s.notifying + if steps[0].Push? then 1 else 0;
      NotifiedOnce(app, next, steps[1..]);
    }
  }

  /** The requests a run pushes. */
  function PushedBy(steps: seq<Step>): seq<Message> {
    if steps == [] then []
    else (if steps[0].Push? then [steps[0].msg] else []) + PushedBy(steps[1..])
  }

  /** Every request is pushed, whatever the pool is doing, in the order of the calls. */
  lemma {:induction false} PushedExactly(app: App, s: State, steps: seq<Step>)
    ensures Run(app, s, steps).pushed == s.pushed + PushedBy(steps)
    decreases steps
  {
    if steps == [] {
      assert s.pushed + [] == s.pushed;
    } else {
      var next := Apply(app, s, steps[0]);
      PushedExactly(app, next, steps[1..]);
      assert next.pushed == s.pushed + if steps[0].Push? then [steps[0].msg] else [];
      assert s.pushed + ((if steps[0].Push? then [steps[0].msg] else []) + PushedBy(steps[1..]))
          == next.pushed + PushedBy(steps[1..]);
    }
  }

  /** The two halves of `stopWorkerThreads` before its joins: shut down, and nobody left asleep. */
  lemma StopperEffect(app: App, s: State)
    requires s.stopper == NotCalled
    ensures var s' := Apply(app, Apply(app, s, SetShutdown), NotifyAll);
            && s'.shutdown && s'.stopper == Notified && Blocked !in s'.workers
            && s'.tasks == s.tasks && s'.taken == s.taken && s'.responses == s.responses
  {
  }

  // ---- Shutdown ends ----

  function Rank(p: Phase): nat {
    match p
    case Exited => 0
    case AtWait => 1
    case Blocked => 2
    case Executing(_) => 2
  }

  /** What is left to do: queued tasks, running tasks, live workers and pending notifications. */
  function Remaining(s: State): nat {
    2 * |s.tasks| + Weight(s.workers, Rank) + s.notifying + if s.stopper == FlagSet then 1 else 0
  }

  lemma {:induction false} RankWoken(workers: seq<Phase>)
    ensures Weight(AllWoken(workers), Rank) <= Weight(workers, Rank)
  {
    if workers == [] {
    } else {
      var n := |workers| - 1;
      RankWoken(workers[..n]);
      assert AllWoken(workers)[..n] == AllWoken(workers[..n]);
    }
  }

  /** After shutdown, with nothing more pushed, every step that does anything brings the end nearer. */
  lemma ShutdownDecreases(app: App, s: State, step: Step)
    requires s.shutdown && s.stopper != NotCalled && !step.Push?
    ensures Apply(app, s, step) == s || Remaining(Apply(app, s, step)) < Remaining(s)
  {
    match step
    case Notify(w) => if w < |s.workers| { WeightUpdate(s.workers, w, AtWait, Rank); }
    case TakeStep(w) => if w < |s.workers| { WeightUpdate(s.workers, w, Taking(s, w).workers[w], Rank); }
    case Wake(w) => if w < |s.workers| { WeightUpdate(s.workers, w, AtWait, Rank); }
    case Finish(w) => if w < |s.workers| { WeightUpdate(s.workers, w, AtWait, Rank); }
    case NotifyAll => RankWoken(s.workers);
    case SetShutdown =>
  }

  /** And while a worker is left, some step can be taken; so every run that goes on ends with all workers
      gone, and the joins return. */
  lemma ShutdownProgresses(app: App, s: State)
    requires Inv(app, s) && s.shutdown && !AllExited(s.workers)
    ensures exists step: Step :: !step.Push? && Apply(app, s, step) != s
  {
    var w :| 0 <= w < |s.workers| && s.workers[w] != Exited;
    var step := match s.workers[w] case AtWait => TakeStep(w) case Executing(_) => Finish(w) case _ => NotifyAll;
    if s.workers[w] == Blocked {
      assert Apply(app, s, step).stopper != s.stopper;
    } else {
      assert Apply(app, s, step).workers[w] != s.workers[w];
    }
    assert !step.Push? && Apply(app, s, step) != s;
  }

  function Moves(app: App, s: State, steps: seq<Step>): nat
    decreases steps
  {
    if steps == [] then 0
    else (if !steps[0].Push? && Apply(app, s, steps[0]) != s then 1 else 0)
         + Moves(app, Apply(app, s, steps[0]), steps[1..])
  }

  lemma {:induction false} ShutdownRun(app: App, s: State, steps: seq<Step>)
    requires s.shutdown && s.stopper != NotCalled
    ensures Run(app, s, steps).shutdown
    ensures Moves(app, s, steps) + Remaining(Run(app, s, steps)) <= Remaining(s) + 3 * Pushes(steps)
    decreases steps
  {
    if steps == [] {
    } else {
      var next := Apply(app, s, steps[0]);
      assert next.shutdown && next.stopper != NotCalled;
      if !steps[0].Push? {
        ShutdownDecreases(app, s, steps[0]);
      }
      ShutdownRun(app, Apply(app, s, steps[0]), steps[1..]);
    }
  }

  /** The joins of `stopWorkerThreads` return. Whatever happened `before`: after shutdown a run takes no more
      steps than were left to do and than the requests still arriving add, three for each; and when no step
      can be taken any more, every worker is gone. */
  lemma JoinsReturn(app: App, n: nat, before: seq<Step>, steps: seq<Step>)
    requires Run(app, Initial(n), before).shutdown
    ensures var s := Run(app, Initial(n), before);
            var end := Run(app, s, steps);
            && Moves(app, s, steps) + Remaining(end) <= Remaining(s) + 3 * Pushes(steps)
            && ((forall step: Step | !step.Push? :: Apply(app, end, step) == end) ==> AllExited(end.workers))
  {
    var s := Run(app, Initial(n), before);
    InvInitial(app, n);
    InvRun(app, Initial(n), before);
    ShutdownRun(app, s, steps);
    InvRun(app, s, steps);
    if !AllExited(Run(app, s, steps).workers) {
      ShutdownProgresses(app, Run(app, s, steps));
    }
  }
}
