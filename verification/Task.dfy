/** The status word of a task (3rdpart/common/src/task/task.cpp).

    `run`, `error`, `release`, `cancel` and `reset` may be called by any number of threads. Each is a
    compare-and-swap or a store on the status, followed later by the callback that the winner owes.
    The state machine below has one step per atomic operation; a step that its thread cannot take
    leaves the state as it is, so every sequence of steps is a run. */
module TaskStatus {

  datatype Status = NotStarted | Running | Success | Failed | Canceled | Released

  datatype Callback = OnRun | OnError | OnRelease | OnCancel

  /** Where a thread stands inside a call: it owes a callback, or it is half way through `cancel`. */
  datatype Phase = Owes(callback: Callback) | CancelStored

  /** `log` is every callback fired so far, `mark` its length at the last reset, and `wins` the
      compare-and-swaps won since the last reset, in order. */
  datatype State = State(status: Status, isCancel: bool, inside: map<nat, Phase>,
                         log: seq<Callback>, mark: nat, wins: seq<Callback>)

  const INITIAL := State(NotStarted, false, map[], [], 0, [])

  datatype Step =
    | RunCas(t: nat)
    | ErrorCas(t: nat)
    | ReleaseCas(t: nat)
    | CancelStore(t: nat)
    | CancelFlag(t: nat)
    | Fire(t: nat)
    | Reset

  function Swap(s: State, t: nat, from: Status, to: Status, owed: Callback): State {
    if t in s.inside || s.status != from then s
    else s.(status := to, inside := s.inside[t := Owes(owed)], wins := s.wins + [owed])
  }

  function Apply(s: State, step: Step): State {
    match step
    case RunCas(t) => Swap(s, t, NotStarted, Running, OnRun)
    case ErrorCas(t) => Swap(s, t, Running, Failed, OnError)
    case ReleaseCas(t) => Swap(s, t, NotStarted, Released, OnRelease)
    case CancelStore(t) =>
      if t in s.inside then s else s.(status := Canceled, inside := s.inside[t := CancelStored])
    case CancelFlag(t) =>
      if t in s.inside && s.inside[t].CancelStored?
      then s.(isCancel := true, inside := s.inside[t := Owes(OnCancel)])
      else s
    case Fire(t) =>
      if t in s.inside && s.inside[t].Owes?
      then s.(log := s.log + [s.inside[t].callback], inside := s.inside - {t})
      else s
    case Reset => s.(status := NotStarted, mark := |s.log|, wins := [])
  }

  function Run(s: State, steps: seq<Step>): State
    decreases steps
  {
    if steps == [] then s else Run(Apply(s, steps[0]), steps[1..])
  }

  lemma RunOne(s: State, a: Step)
    ensures Run(s, [a]) == Apply(s, a)
  {
    assert Run(Apply(s, a), []) == Apply(s, a);
  }

  lemma RunPair(s: State, a: Step, b: Step, rest: seq<Step>)
    ensures Run(s, [a, b] + rest) == Run(Apply(Apply(s, a), b), rest)
  {
    assert ([a, b] + rest)[1..] == [b] + rest;
    assert ([b] + rest)[1..] == rest;
    assert Run(s, [a, b] + rest) == Run(Apply(s, a), [b] + rest);
  }

  lemma {:induction false} FreshThread(ts: set<nat>) returns (u: nat)
    ensures u !in ts
    ensures forall t | t in ts :: t < u
    decreases |ts|
  {
    if ts == {} {
      u := 0;
    } else {
      var x :| x in ts;
      var v := FreshThread(ts - {x});
      assert ts == (ts - {x}) + {x};
      u := if x < v then v else x + 1;
    }
  }

  predicate ResetFree(steps: seq<Step>) {
    forall i :: 0 <= i < |steps| ==> steps[i] != Reset
  }

  // ---- What the swaps allow ----

  /** The only orders in which swaps are won between two resets. */
  function LegalOrders(status: Status): set<seq<Callback>> {
    match status
    case NotStarted => {[]}
    case Running => {[OnRun]}
    case Failed => {[OnRun, OnError]}
    case Released => {[OnRelease]}
    case Canceled => {[], [OnRun], [OnRun, OnError], [OnRelease]}
    case Success => {}
  }

  predicate LegalWins(s: State) {
    s.wins in LegalOrders(s.status)
  }

  ghost predicate Inv(s: State) {
    && LegalWins(s)
    && s.mark <= |s.log|
  }

  lemma InvStep(s: State, step: Step)
    requires Inv(s)
    ensures Inv(Apply(s, step))
  {
    assert [] + [OnRun] == [OnRun] && [] + [OnRelease] == [OnRelease];
    assert [OnRun] + [OnError] == [OnRun, OnError];
  }

  lemma {:induction false} InvRun(s: State, steps: seq<Step>)
    requires Inv(s)
    ensures Inv(Run(s, steps))
    decreases steps
  {
    if steps == [] {
    } else {
      InvStep(s, steps[0]);
      InvRun(Apply(s, steps[0]), steps[1..]);
    }
  }

  /** In every run, between two resets: at most one of `run` and `release` wins, `error` wins at most
      once, and only after `run` has won. */
  lemma SwapsBetweenResets(steps: seq<Step>)
    ensures var wins := Run(INITIAL, steps).wins;
            && Count(wins, OnRun) + Count(wins, OnRelease) <= 1
            && Count(wins, OnError) <= 1
            && (OnError in wins ==> wins == [OnRun, OnError])
  {
    InvRun(INITIAL, steps);
    LegalWinsCounted(Run(INITIAL, steps));
  }

  lemma LegalWinsCounted(s: State)
    requires LegalWins(s)
    ensures Count(s.wins, OnRun) + Count(s.wins, OnRelease) <= 1
    ensures Count(s.wins, OnError) <= 1
    ensures Count(s.wins, OnError) > 0 ==> OnRun in s.wins
  {
    CountOne(OnRun, OnRun);
    CountOne(OnRun, OnRelease);
    CountOne(OnRun, OnError);
    CountOne(OnRelease, OnRun);
    CountOne(OnRelease, OnRelease);
    CountOne(OnRelease, OnError);
    Count2(OnRun, OnError, OnRun);
    Count2(OnRun, OnError, OnRelease);
    Count2(OnRun, OnError, OnError);
  }

  // ---- What the callbacks do ----

  function Count(log: seq<Callback>, cb: Callback): nat {
    if log == [] then 0
    else Count(log[..|log| - 1], cb) + if log[|log| - 1] == cb then 1 else 0
  }

  lemma CountAppend(log: seq<Callback>, c: Callback, cb: Callback)
    ensures Count(log + [c], cb) == Count(log, cb) + if c == cb then 1 else 0
  {
    assert (log + [c])[..|log|] == log;
  }

  lemma CountOne(a: Callback, cb: Callback)
    ensures Count([a], cb) == if a == cb then 1 else 0
  {
    CountAppend([], a, cb);
    assert [] + [a] == [a];
  }

  lemma Count2(a: Callback, b: Callback, cb: Callback)
    ensures Count([a, b], cb) == (if a == cb then 1 else 0) + (if b == cb then 1 else 0)
  {
    CountOne(a, cb);
    CountAppend([a], b, cb);
    assert [a] + [b] == [a, b];
  }

  lemma Count3(a: Callback, b: Callback, c: Callback, cb: Callback)
    ensures Count([a, b, c], cb) == Count([a, b], cb) + if c == cb then 1 else 0
    ensures Count([a, b, c], cb) == (if a == cb then 1 else 0) + (if b == cb then 1 else 0) + (if c == cb then 1 else 0)
  {
    Count2(a, b, cb);
    CountAppend([a, b], c, cb);
    assert [a, b] + [c] == [a, b, c];
  }

  lemma {:induction false} CountPositive(log: seq<Callback>, cb: Callback)
    ensures Count(log, cb) > 0 <==> cb in log
  {
    if log == [] {
    } else {
      CountPositive(log[..|log| - 1], cb);
      assert log == log[..|log| - 1] + [log[|log| - 1]];
    }
  }

  function SinceReset(s: State): seq<Callback>
    requires s.mark <= |s.log|
  {
    s.log[s.mark..]
  }

  function Owing(s: State, cb: Callback): (ts: set<nat>)
    ensures forall t :: t in ts <==> t in s.inside && s.inside[t] == Owes(cb)
  {
    set t | t in s.inside && s.inside[t] == Owes(cb)
  }

  ghost predicate BalancedFor(s: State, cb: Callback)
    requires s.mark <= |s.log|
  {
    Count(SinceReset(s), cb) + |Owing(s, cb)| == Count(s.wins, cb)
  }

  /** Callbacks fired since the last reset plus those still owed are the swaps won since then. */
  ghost predicate Balanced(s: State, cb: Callback) {
    s.mark <= |s.log| && cb != OnCancel && BalancedFor(s, cb)
  }

  /** No callback of a swap is still owed. */
  ghost predicate Quiet(s: State) {
    Owing(s, OnRun) == {} && Owing(s, OnError) == {} && Owing(s, OnRelease) == {}
  }

  ghost predicate AtMostOnce(s: State)
    requires s.mark <= |s.log|
  {
    var fired := SinceReset(s);
    && Count(fired, OnRun) + Count(fired, OnRelease) <= 1
    && Count(fired, OnError) <= 1
    && (OnError in fired ==> OnRun in s.wins)
  }

  lemma BalancedStep(s: State, step: Step, cb: Callback)
    requires Balanced(s, cb)
    requires step == Reset ==> Owing(s, cb) == {}
    ensures Balanced(Apply(s, step), cb)
  {
    match step
    case RunCas(t) => SwapBalanced(s, t, NotStarted, Running, OnRun, cb);
    case ErrorCas(t) => SwapBalanced(s, t, Running, Failed, OnError, cb);
    case ReleaseCas(t) => SwapBalanced(s, t, NotStarted, Released, OnRelease, cb);
    case CancelStore(_) => assert Owing(Apply(s, step), cb) == Owing(s, cb);
    case CancelFlag(_) => assert Owing(Apply(s, step), cb) == Owing(s, cb);
    case Fire(t) => FireBalanced(s, t, cb);
    case Reset => ResetBalanced(s, cb);
  }

  lemma ResetBalanced(s: State, cb: Callback)
    requires s.mark <= |s.log| && Owing(s, cb) == {}
    ensures BalancedFor(Apply(s, Reset), cb)
  {
    var r := Apply(s, Reset);
    assert SinceReset(r) == [];
    assert Owing(r, cb) == Owing(s, cb);
  }

  lemma FireBalanced(s: State, t: nat, cb: Callback)
    requires s.mark <= |s.log| && BalancedFor(s, cb)
    ensures BalancedFor(Apply(s, Fire(t)), cb)
  {
    if t in s.inside && s.inside[t].Owes? {
      var fired := s.inside[t].callback;
      SinceResetAfter(s.log, s.mark, fired);
      CountAppend(SinceReset(s), fired, cb);
      OwingAfterFire(s, t, cb);
    }
  }

  lemma SinceResetAfter(log: seq<Callback>, mark: nat, fired: Callback)
    requires mark <= |log|
    ensures (log + [fired])[mark..] == log[mark..] + [fired]
  {
  }

  lemma OwingAfterFire(s: State, t: nat, cb: Callback)
    requires t in s.inside && s.inside[t].Owes?
    ensures |Owing(Apply(s, Fire(t)), cb)| == |Owing(s, cb)| - if s.inside[t].callback == cb then 1 else 0
  {
    var s' := Apply(s, Fire(t));
    if s.inside[t].callback == cb {
      assert Owing(s', cb) == Owing(s, cb) - {t};
    } else {
      assert Owing(s', cb) == Owing(s, cb);
    }
  }

  lemma SwapBalanced(s: State, t: nat, from: Status, to: Status, owed: Callback, cb: Callback)
    requires s.mark <= |s.log| && BalancedFor(s, cb)
    ensures BalancedFor(Swap(s, t, from, to, owed), cb)
  {
    var s' := Swap(s, t, from, to, owed);
    if s' != s {
      CountAppend(s.wins, owed, cb);
      OwingAfterSwap(s, s', t, owed, cb);
    }
  }

  lemma OwingAfterSwap(s: State, s': State, t: nat, owed: Callback, cb: Callback)
    requires t !in s.inside && s'.inside == s.inside[t := Owes(owed)]
    ensures |Owing(s', cb)| == |Owing(s, cb)| + if owed == cb then 1 else 0
  {
    assert t !in Owing(s, cb);
    var after := if owed == cb then Owing(s, cb) + {t} else Owing(s, cb);
    forall u: nat ensures u in Owing(s', cb) <==> u in after {
      if u != t {
        assert u in s'.inside <==> u in s.inside;
      }
    }
    assert Owing(s', cb) == after;
  }

  lemma BalancedIsAtMostOnce(s: State)
    requires Inv(s) && forall cb :: cb != OnCancel ==> Balanced(s, cb)
    ensures AtMostOnce(s)
  {
    assert Balanced(s, OnRun) && Balanced(s, OnError) && Balanced(s, OnRelease);
    LegalWinsCounted(s);
    CountPositive(SinceReset(s), OnError);
  }

  /** In the run from `s`, nobody owes a callback of a swap whenever the task is reset. */
  ghost predicate QuietResets(s: State, steps: seq<Step>)
    decreases steps
  {
    || steps == []
    || ((steps[0] == Reset ==> Quiet(s)) && QuietResets(Apply(s, steps[0]), steps[1..]))
  }

  lemma {:induction false} ResetFreeIsQuiet(s: State, steps: seq<Step>)
    requires ResetFree(steps)
    ensures QuietResets(s, steps)
    decreases steps
  {
    if steps == [] {
    } else {
      ResetFreeIsQuiet(Apply(s, steps[0]), steps[1..]);
    }
  }

  lemma {:induction false} BalancedRun(s: State, steps: seq<Step>, cb: Callback)
    requires Balanced(s, cb) && QuietResets(s, steps)
    ensures Balanced(Run(s, steps), cb)
    decreases steps
  {
    if steps == [] {
    } else {
      BalancedStep(s, steps[0], cb);
      BalancedRun(Apply(s, steps[0]), steps[1..], cb);
    }
  }

  /** Any number of threads, any interleaving, any number of resets while nobody owes a callback: since the
      last reset `onRun` and `onRelease` together have fired at most once, `onError` at most once and only if
      `run` won its swap. */
  lemma CallbacksAtMostOnce(steps: seq<Step>)
    requires QuietResets(INITIAL, steps)
    ensures Inv(Run(INITIAL, steps)) && AtMostOnce(Run(INITIAL, steps))
  {
    InvRun(INITIAL, steps);
    forall cb: Callback | cb != OnCancel ensures Balanced(Run(INITIAL, steps), cb) {
      BalancedRun(INITIAL, steps, cb);
    }
    BalancedIsAtMostOnce(Run(INITIAL, steps));
  }

  // ---- Cancelling ----

  /** No thread can win `run` and none that has won it still owes `onRun`. */
  ghost predicate NoMoreRuns(s: State) {
    s.status != NotStarted && Owing(s, OnRun) == {}
  }

  lemma NoMoreRunsStep(s: State, step: Step)
    requires NoMoreRuns(s) && step != Reset
    ensures NoMoreRuns(Apply(s, step))
    ensures Count(Apply(s, step).log, OnRun) == Count(s.log, OnRun)
  {
    var s' := Apply(s, step);
    forall t | t in s'.inside ensures s'.inside[t] != Owes(OnRun) {
      assert t !in Owing(s, OnRun);
    }
    if step.Fire? && s' != s {
      assert step.t !in Owing(s, OnRun);
      CountAppend(s.log, s.inside[step.t].callback, OnRun);
    }
  }

  lemma {:induction false} NoMoreRunsRun(s: State, steps: seq<Step>)
    requires NoMoreRuns(s) && ResetFree(steps)
    ensures Count(Run(s, steps).log, OnRun) == Count(s.log, OnRun)
    decreases steps
  {
    if steps == [] {
    } else {
      NoMoreRunsStep(s, steps[0]);
      NoMoreRunsRun(Apply(s, steps[0]), steps[1..]);
    }
  }

  lemma CancelStoreEndsRuns(s: State, t: nat)
    requires Owing(s, OnRun) == {} && t !in s.inside
    ensures NoMoreRuns(Apply(s, CancelStore(t)))
  {
    var c := Apply(s, CancelStore(t));
    forall u | u in c.inside ensures c.inside[u] != Owes(OnRun) {
      assert u !in Owing(s, OnRun);
    }
  }

  /** No run from here calls `onRun` before the next reset. */
  ghost predicate NeverRunsAgain(s: State) {
    forall steps | ResetFree(steps) :: Count(Run(s, steps).log, OnRun) == Count(s.log, OnRun)
  }

  /** Cancelling keeps `onRun` from being called any more before the next reset exactly when no thread has
      won the run swap without having called it yet. Earlier runs and resets of the task do not matter. */
  lemma CancelledBeforeRun(s: State, t: nat)
    requires t !in s.inside
    ensures Owing(s, OnRun) == {} <==> NeverRunsAgain(Apply(s, CancelStore(t)))
    ensures Count(Apply(s, CancelStore(t)).log, OnRun) == Count(s.log, OnRun)
  {
    var c := Apply(s, CancelStore(t));
    if Owing(s, OnRun) == {} {
      CancelStoreEndsRuns(s, t);
      forall steps | ResetFree(steps) ensures Count(Run(c, steps).log, OnRun) == Count(c.log, OnRun) {
        NoMoreRunsRun(c, steps);
      }
    } else {
      var u :| u in Owing(s, OnRun);
      RunOne(c, Fire(u));
      CountAppend(s.log, OnRun, OnRun);
      assert ResetFree([Fire(u)]);
    }
  }

  /** The flag `isCanceled` reads is set, and never cleared, by a thread that goes on to call `onCancel`. */
  ghost predicate FlagAgrees(s: State) {
    s.isCancel <==> OnCancel in s.log || Owing(s, OnCancel) != {}
  }

  lemma FlagStep(s: State, step: Step)
    requires FlagAgrees(s)
    ensures FlagAgrees(Apply(s, step))
    ensures step == Reset ==> Apply(s, step).isCancel == s.isCancel
  {
    match step
    case CancelFlag(t) =>
      if t in s.inside && s.inside[t].CancelStored? {
        assert t in Owing(Apply(s, step), OnCancel);
      }
    case CancelStore(t) => assert Owing(Apply(s, step), OnCancel) == Owing(s, OnCancel);
    case Fire(t) => FlagFire(s, t);
    case Reset => assert Owing(Apply(s, step), OnCancel) == Owing(s, OnCancel);
    case RunCas(t) => assert Owing(Apply(s, step), OnCancel) == Owing(s, OnCancel);
    case ErrorCas(t) => assert Owing(Apply(s, step), OnCancel) == Owing(s, OnCancel);
    case ReleaseCas(t) => assert Owing(Apply(s, step), OnCancel) == Owing(s, OnCancel);
  }

  lemma FlagFire(s: State, t: nat)
    ensures FlagAgrees(s) ==> FlagAgrees(Apply(s, Fire(t)))
  {
    if t in s.inside && s.inside[t].Owes? {
      var s' := Apply(s, Fire(t));
      if s.inside[t].callback == OnCancel {
        assert s'.log[|s.log|] == OnCancel;
      } else {
        assert Owing(s', OnCancel) == Owing(s, OnCancel);
      }
    }
  }

  lemma {:induction false} FlagRun(s: State, steps: seq<Step>)
    requires FlagAgrees(s)
    ensures FlagAgrees(Run(s, steps))
    decreases steps
  {
    if steps == [] {
    } else {
      FlagStep(s, steps[0]);
      FlagRun(Apply(s, steps[0]), steps[1..]);
    }
  }

  /** In every run, resets included, a task counts as cancelled exactly when some `cancel` has set the flag, which
      then has called `onCancel` or still will. */
  lemma CancelledExactly(steps: seq<Step>)
    ensures FlagAgrees(Run(INITIAL, steps))
  {
    FlagRun(INITIAL, steps);
  }

  // ---- A whole call, undisturbed ----

  /** `release` called and finished by one thread: task.cpp:27-33. */
  function ReleaseCall(s: State): State {
    if s.status != NotStarted then s
    else s.(status := Released, log := s.log + [OnRelease], wins := s.wins + [OnRelease])
  }

  lemma ReleaseCallIsTwoSteps(s: State, t: nat)
    requires t !in s.inside
    ensures ReleaseCall(s) == Apply(Apply(s, ReleaseCas(t)), Fire(t))
    ensures ReleaseCall(ReleaseCall(s)) == ReleaseCall(s)
  {
    assert s.inside[t := Owes(OnRelease)] - {t} == s.inside;
  }

  /** `TASK_RESULT_ERROR_STATUS` is `BadStatus`; any other result is whatever `onRun` returned. */
  datatype TaskResult = BadStatus | Returned(code: int)

  /** The task object. `callbacks` records the calls of the virtual methods; what `onRun` returns is
      the subclass's business and enters as a parameter. */
  class Task {
    const id: int
    var status: Status
    var isCancel: bool
    var callbacks: seq<Callback>
    ghost var mark: nat
    ghost var wins: seq<Callback>

    ghost function View(): State reads this {
      State(status, isCancel, map[], callbacks, mark, wins)
    }

    constructor (id: int)
      ensures this.id == id && View() == INITIAL
    {
      this.id := id;
      status, isCancel, callbacks := NotStarted, false, [];
      mark, wins := 0, [];
    }

    method CompareExchange(from: Status, to: Status, ghost owed: Callback) returns (won: bool)
      modifies this
      ensures won == (old(status) == from)
      ensures status == if won then to else old(status)
      ensures wins == if won then old(wins) + [owed] else old(wins)
      ensures unchanged(`isCancel) && unchanged(`callbacks) && unchanged(`mark)
    {
      won := status == from;
      if won {
        status := to;
        wins := wins + [owed];
      }
    }

    method Run(onRunResult: int) returns (result: TaskResult)
      modifies this
      ensures View() == Apply(Apply(old(View()), RunCas(0)), Fire(0))
      ensures result == if old(status) == NotStarted then Returned(onRunResult) else BadStatus
    {
      ghost var before := View();
      var won := CompareExchange(NotStarted, Running, OnRun);
      if !won {
        return BadStatus;
      }
      callbacks := callbacks + [OnRun];
      assert before.inside[0 := Owes(OnRun)] - {0} == map[];
      return Returned(onRunResult);
    }

    method Error()
      modifies this
      ensures View() == Apply(Apply(old(View()), ErrorCas(0)), Fire(0))
    {
      ghost var before := View();
      var won := CompareExchange(Running, Failed, OnError);
      if !won {
        return;
      }
      callbacks := callbacks + [OnError];
      assert before.inside[0 := Owes(OnError)] - {0} == map[];
    }

    method Release()
      modifies this
      ensures View() == ReleaseCall(old(View()))
    {
      var won := CompareExchange(NotStarted, Released, OnRelease);
      if !won {
        return;
      }
      callbacks := callbacks + [OnRelease];
    }

    method Cancel()
      modifies this
      ensures View() == Apply(Apply(Apply(old(View()), CancelStore(0)), CancelFlag(0)), Fire(0))
      ensures status == Canceled && isCancel
    {
      ghost var before := View();
      status := Canceled;
      isCancel := true;
      callbacks := callbacks + [OnCancel];
      assert before.inside[0 := CancelStored][0 := Owes(OnCancel)] - {0} == map[];
    }

    method ResetStatus()
      modifies this
      ensures View() == Apply(old(View()), Reset)
    {
      status := NotStarted;
      mark, wins := |callbacks|, [];
    }
  }
}
