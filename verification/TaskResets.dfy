/** Resetting a task while threads are at work on it (3rdpart/common/src/task/task.cpp:43-45): when the bound
    on its callbacks survives. */
module TaskResets {
  import opened TaskStatus

  /** Every run from here with quiet resets only stays within the bound. */
  ghost predicate StaysAtMostOnce(s: State) {
    forall steps | QuietResets(s, steps) :: Inv(Run(s, steps)) && AtMostOnce(Run(s, steps))
  }

  /** Runs stay within the bound after a reset, and after later quiet ones, exactly when nobody owed a
      callback at the reset: a thread that won its swap before the reset fires after it, next to the callback
      of a new win. */
  lemma ResetSafeExactlyWhenQuiet(s: State)
    requires Inv(s)
    ensures Quiet(s) <==> StaysAtMostOnce(Apply(s, Reset))
  {
    var r := Apply(s, Reset);
    if Quiet(s) {
      forall steps | QuietResets(r, steps) ensures Inv(Run(r, steps)) && AtMostOnce(Run(r, steps)) {
        InvStep(s, Reset);
        InvRun(r, steps);
        forall cb: Callback | cb != OnCancel ensures Balanced(Run(r, steps), cb) {
          ResetBalanced(s, cb);
          BalancedRun(r, steps, cb);
        }
        BalancedIsAtMostOnce(Run(r, steps));
      }
    } else {
      var cb := if Owing(s, OnRun) != {} then OnRun else if Owing(s, OnError) != {} then OnError else OnRelease;
      var t :| t in Owing(s, cb);
      var steps := LateCallback(s, t, cb);
      ResetFreeIsQuiet(r, steps);
    }
  }

  /** The run that breaks the bound: a new thread wins and fires, then the old one fires. */
  lemma LateCallback(s: State, t: nat, cb: Callback) returns (steps: seq<Step>)
    requires Inv(s) && cb != OnCancel && t in s.inside && s.inside[t] == Owes(cb)
    ensures ResetFree(steps)
    ensures Inv(Run(Apply(s, Reset), steps)) && !AtMostOnce(Run(Apply(s, Reset), steps))
  {
    var r := Apply(s, Reset);
    var u := FreshThread(s.inside.Keys);
    var s1 := WinAndFire(r, u, RunCas(u), OnRun);
    assert SinceReset(s1) == [OnRun];
    if cb == OnError {
      steps := LateError(r, s1, t, u);
    } else {
      steps := LateRunOrRelease(r, s1, t, u, cb);
    }
    InvStep(s, Reset);
    InvRun(r, steps);
  }

  lemma LateRunOrRelease(r: State, s1: State, t: nat, u: nat, cb: Callback) returns (steps: seq<Step>)
    requires s1 == Apply(Apply(r, RunCas(u)), Fire(u)) && cb in {OnRun, OnRelease}
    requires s1.mark <= |s1.log| && SinceReset(s1) == [OnRun]
    requires t in s1.inside && s1.inside[t] == Owes(cb)
    ensures ResetFree(steps)
    ensures var end := Run(r, steps);
            && end.mark <= |end.log|
            && SinceReset(end) == [OnRun, cb]
            && Count(SinceReset(end), OnRun) + Count(SinceReset(end), OnRelease) == 2
  {
    steps := [RunCas(u), Fire(u), Fire(t)];
    assert steps == [RunCas(u), Fire(u)] + [Fire(t)];
    RunPair(r, RunCas(u), Fire(u), [Fire(t)]);
    LastFire(s1, t, cb, [OnRun]);
    Count2(OnRun, cb, OnRun);
    Count2(OnRun, cb, OnRelease);
  }

  lemma LateError(r: State, s1: State, t: nat, u: nat) returns (steps: seq<Step>)
    requires r.mark <= |r.log| && s1 == Apply(Apply(r, RunCas(u)), Fire(u))
    requires s1.mark <= |s1.log| && s1.status == Running && SinceReset(s1) == [OnRun]
    requires u !in s1.inside && t in s1.inside && s1.inside[t] == Owes(OnError)
    ensures ResetFree(steps)
    ensures var end := Run(r, steps);
            && end.mark <= |end.log|
            && SinceReset(end) == [OnRun, OnError, OnError]
            && Count(SinceReset(end), OnError) == 2
  {
    var s2 := WinAndFire(s1, u, ErrorCas(u), OnError);
    steps := [RunCas(u), Fire(u), ErrorCas(u), Fire(u), Fire(t)];
    assert steps == [RunCas(u), Fire(u)] + [ErrorCas(u), Fire(u), Fire(t)];
    RunPair(r, RunCas(u), Fire(u), [ErrorCas(u), Fire(u), Fire(t)]);
    RunPair(s1, ErrorCas(u), Fire(u), [Fire(t)]);
    LastFire(s2, t, OnError, [OnRun, OnError]);
    Count3(OnRun, OnError, OnError, OnError);
  }

  lemma WinAndFire(s: State, u: nat, cas: Step, owed: Callback) returns (s': State)
    requires s.mark <= |s.log| && u !in s.inside
    requires (cas, owed, s.status) in {(RunCas(u), OnRun, NotStarted), (ErrorCas(u), OnError, Running)}
    ensures s' == Apply(Apply(s, cas), Fire(u))
    ensures s' == s.(status := if cas == RunCas(u) then Running else Failed,
                     log := s.log + [owed], wins := s.wins + [owed])
    ensures SinceReset(s') == SinceReset(s) + [owed]
  {
    s' := Apply(Apply(s, cas), Fire(u));
    assert s.inside[u := Owes(owed)] - {u} == s.inside;
  }

  lemma LastFire(s: State, t: nat, cb: Callback, fired: seq<Callback>)
    requires s.mark <= |s.log| && SinceReset(s) == fired
    requires t in s.inside && s.inside[t] == Owes(cb)
    ensures Run(s, [Fire(t)]).mark <= |Run(s, [Fire(t)]).log|
    ensures SinceReset(Run(s, [Fire(t)])) == fired + [cb]
  {
    RunOne(s, Fire(t));
    SinceResetAfter(s.log, s.mark, cb);
  }
}
