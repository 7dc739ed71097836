/** What every step and every run of the named-pipe server keeps (src/rpc/pipe/NamedPipeServer.cpp). */
module PipeRuns {
  import opened Options
  import opened PipeServer
  import opened PipeSteps

  // ---- Writes ----
  lemma OneWriteStep(s: State, step: Step)
    requires OneWrite(s)
    ensures OneWrite(Apply(s, step))
  {
    match step
    case Write(_) =>
    case PostRun => PostKeepsOneWrite(s);
    case WriteDone(result) =>
      if result.WriteFailed? && s.writing != [] { ReopenKeepsWriteSide(s.(writing := s.writing[1..]), result.r); }
    case _ => OffWriteSide(s, step);
  }

  lemma InOrderStep(s: State, step: Step)
    requires OneWrite(s) && InOrder(s)
    ensures InOrder(Apply(s, step))
  {
    match step
    case Write(m) => assert s.posted + (s.posts + [m]) == s.accepted + [m];
    case PostRun => InOrderPost(s);
    case WriteDone(result) => InOrderWritten(s, result);
    case _ => OffWriteSide(s, step);
  }

  // ---- When writing gets stuck ----

  /** A stall begins exactly then. */
  lemma StallBegins(s: State, step: Step)
    requires OneWrite(s) && !Stalled(s)
    ensures Stalled(Apply(s, step)) <==> BreaksOff(s, step)
  {
    match step
    case Write(_) =>
    case PostRun =>
    case WriteDone(result) => StallWritten(s, result);
    case _ => OffWriteSide(s, step);
  }

  /** A stall is for ever: reconnecting does not start the queue again, so no message queued then or later
      is ever written out. */
  lemma {:induction false} StalledForEver(s: State, steps: seq<Step>)
    requires Stalled(s)
    ensures Stalled(Run(s, steps))
    ensures Run(s, steps).completed == s.completed && s.queue <= Run(s, steps).queue
    decreases steps
  {
    if steps == [] {
    } else {
      StallStep(s, steps[0]);
      StalledForEver(Apply(s, steps[0]), steps[1..]);
    }
  }

  lemma {:induction false} StallsRun(s: State, steps: seq<Step>)
    requires OneWrite(s) && !Stalled(s)
    ensures Stalled(Run(s, steps)) <==> !NeverBreaksOff(s, steps)
    decreases steps
  {
    if steps == [] {
    } else {
      var next := Apply(s, steps[0]);
      OneWriteStep(s, steps[0]);
      StallBegins(s, steps[0]);
      if Stalled(next) {
        StalledForEver(next, steps[1..]);
      } else {
        StallsRun(next, steps[1..]);
      }
    }
  }

  /** A run ends with messages queued and no write outstanding exactly when on its way a write failed, or one
      should have started on a server that was stopped or not connected. */
  lemma StallsExactly(steps: seq<Step>)
    ensures Stalled(Run(INITIAL, steps)) <==> !NeverBreaksOff(INITIAL, steps)
  {
    StallsRun(INITIAL, steps);
  }

  lemma {:induction false} InSyncRun(s: State, steps: seq<Step>)
    requires OneWrite(s) && InSync(s) && AllHarmless(s, steps)
    ensures InSync(Run(s, steps))
    decreases steps
  {
    if steps == [] {
    } else {
      OneWriteStep(s, steps[0]);
      InSyncStep(s, steps[0]);
      InSyncRun(Apply(s, steps[0]), steps[1..]);
    }
  }

  /** From a connect that finds the queue empty, until the first stop, disconnect or failed write: a write
      is outstanding exactly when the queue is non-empty. */
  lemma InSyncFromConnect(s: State, steps: seq<Step>)
    requires OneWrite(s) && s.queue == [] && !s.stopped && AllHarmless(Connect(s), steps)
    ensures InSync(Run(Connect(s), steps))
  {
    InSyncRun(Connect(s), steps);
  }

  /** Stalls are reachable with the client connected again: a write fails on a broken pipe, the server
      reconnects at once, and the message stays at the head of a queue nobody serves. */
  lemma StalledThoughReconnected(m: string)
    ensures var s := Run(INITIAL, [Start(Created(Immediate)), Write(m), PostRun]
                                  + [WriteDone(WriteFailed(true, Created(Immediate)))]);
            s.connected && !s.stopped && Stalled(s) && s.queue == [m]
  {
    var failed := WriteDone(WriteFailed(true, Created(Immediate)));
    RunThree(INITIAL, Start(Created(Immediate)), Write(m), PostRun, [failed]);
    var s := Apply(Apply(Apply(INITIAL, Start(Created(Immediate))), Write(m)), PostRun);
    assert [failed][1..] == [];
    assert Run(Apply(s, failed), []) == Apply(s, failed);
  }

  // ---- Connections ----

  /** Callbacks and flag agree after every step. A connect is reported right after a connect exactly when a
      connected server accepts a left-over accept or is started again and connects at once; no other step does it. */
  lemma LinksStep(s: State, step: Step)
    requires LinksAgree(s)
    ensures LinksAgree(Apply(s, step))
    ensures Alternates(s.links) ==> (Alternates(Apply(s, step).links) <==> !Reconnects(s, step))
  {
    match step
    case Start(r) => StartAgrees(s, r);
    case StopFlag =>
    case StopClose => CloseAgrees(s);
    case Write(_) =>
    case PostRun =>
    case AcceptDone(ok, r) => AcceptAgrees(s, ok, r);
    case ReadDone(outcome) => ReadAgrees(s, outcome);
    case WriteDone(result) => WriteAgrees(s, result);
    case TimerDone(expired, alive, r) => TimerAgrees(s, expired, alive, r);
  }

  lemma {:induction false} InvRun(s: State, steps: seq<Step>)
    requires Inv(s)
    ensures Inv(Run(s, steps))
    decreases steps
  {
    if steps == [] {
    } else {
      OneWriteStep(s, steps[0]);
      InOrderStep(s, steps[0]);
      LinksStep(s, steps[0]);
      InvRun(Apply(s, steps[0]), steps[1..]);
    }
  }

  /** Every run conserves messages and their order, across errors, disconnects, reconnects and stop. */
  lemma WritesConserveOrder(steps: seq<Step>)
    ensures OneWrite(Run(INITIAL, steps)) && InOrder(Run(INITIAL, steps))
  {
    InvInitial();
    InvRun(INITIAL, steps);
  }

  /** In every run the connected flag agrees with the callbacks, and disconnects never repeat. */
  lemma ConnectionCallbacks(steps: seq<Step>)
    ensures var s := Run(INITIAL, steps);
            && LinksAgree(s)
            && (s.connected <==> s.links != [] && s.links[|s.links| - 1] == Up)
            && (forall i :: 0 <= i < |s.links| && s.links[i] == Down ==> i > 0 && s.links[i - 1] == Up)
  {
    InvInitial();
    InvRun(INITIAL, steps);
    ToldMeans(Run(INITIAL, steps).links);
  }

  lemma {:induction false} AlternatesRun(s: State, steps: seq<Step>)
    requires LinksAgree(s) && Alternates(s.links)
    ensures Alternates(Run(s, steps).links) <==> NeverReconnects(s, steps)
    decreases steps
  {
    if steps == [] {
    } else {
      var next := Apply(s, steps[0]);
      LinksStep(s, steps[0]);
      if Alternates(next.links) {
        AlternatesRun(next, steps[1..]);
      } else {
        RunExtendsLinks(next, steps[1..]);
        if Alternates(Run(next, steps[1..]).links) {
          AlternatesPrefix(next.links, Run(next, steps[1..]).links);
        }
      }
    }
  }

  /** Connects and disconnects alternate in a run, beginning with a connect, exactly when the run never
      reconnects a connected server. */
  lemma AlternatesExactly(steps: seq<Step>)
    ensures Alternates(Run(INITIAL, steps).links) <==> NeverReconnects(INITIAL, steps)
    ensures LinksAgree(Run(INITIAL, steps))
  {
    InvInitial();
    InvRun(INITIAL, steps);
    AlternatesRun(INITIAL, steps);
  }

  /** One way to repeat a connect: an accept left over from a pipe closed before completes on a live connection. */
  lemma ConnectsCanRepeat()
    ensures Run(INITIAL, [Start(Created(Pending)), AcceptDone(true, CreateFails),
                          TimerDone(true, false, Created(Pending))]
                         + ([ReadDone(ReadFailed(true, Created(Pending))), AcceptDone(true, CreateFails),
                             AcceptDone(true, CreateFails)] + [])).links
            == [Up, Down, Up, Up]
  {
    var a, b, c := Start(Created(Pending)), AcceptDone(true, CreateFails), TimerDone(true, false, Created(Pending));
    var d := ReadDone(ReadFailed(true, Created(Pending)));
    RunThree(INITIAL, a, b, c, [d, b, b] + []);
    var s := Apply(Apply(Apply(INITIAL, a), b), c);
    assert s.links == [Up, Down] && s.accepting == 1 && s.reading == 1 && !s.connected;
    RunThree(s, d, b, b, []);
  }

  /** The other: the left-over accept completes after no new pipe could be created, and `start`, finding no
      pipe open on the connected server, connects again. */
  lemma StartCanRepeatConnect()
    ensures Run(INITIAL, [Start(Created(Pending)), AcceptDone(true, CreateFails),
                          TimerDone(true, false, Created(Pending))]
                         + ([ReadDone(ReadFailed(true, CreateFails)), AcceptDone(true, CreateFails),
                             Start(Created(Immediate))] + [])).links
            == [Up, Down, Up, Up]
  {
    var a, b, c := Start(Created(Pending)), AcceptDone(true, CreateFails), TimerDone(true, false, Created(Pending));
    var d, e := ReadDone(ReadFailed(true, CreateFails)), Start(Created(Immediate));
    RunThree(INITIAL, a, b, c, [d, b, e] + []);
    var s := Apply(Apply(Apply(INITIAL, a), b), c);
    assert s.links == [Up, Down] && s.accepting == 1 && s.reading == 1 && !s.connected;
    RunThree(s, d, b, e, []);
  }

  // ---- Starting, stopping and starting over ----

  /** A running server that finds its connection gone reports that, and stands then as the last attempt to listen again
      says; the handler used up is the only other change. */
  lemma StartsOverEffect(s: State, step: Step)
    requires !s.stopped && StartsOver(s, step).Some?
    ensures var s', r := Apply(s, step), StartsOver(s, step).value;
            var accepting := s.accepting - if step.AcceptDone? then 1 else 0;
            var reading := s.reading - if step.ReadDone? then 1 else 0;
            && s.links + (if s.connected then [Down] else []) <= s'.links
            && Standing(s') == (match OutcomeOf(r)
                                case Connects => (true, accepting, reading + 1)
                                case Listens => (false, accepting + 1, reading)
                                case GivesUp => (false, accepting, reading))
            && (OutcomeOf(r) != GivesUp ==> s'.open)
  {
    var r := StartsOver(s, step).value;
    match step
    case AcceptDone(_, _) => StartsOverFrom(s.(accepting := s.accepting - 1), r);
    case ReadDone(_) => StartsOverFrom(s.(reading := s.reading - 1), r);
    case WriteDone(_) => StartsOverFrom(s.(writing := s.writing[1..]), r);
    case TimerDone(_, _, _) =>
      var t := s.(timing := s.timing - 1);
      StartsOverFrom(t, r);
      assert Apply(s, step) == StartTimer(Reopen(t, r));
  }

  /** A completed accept connects a running server; a timer that finds nothing wrong changes nothing. */
  lemma GoodNewsEffect(s: State, step: Step)
    requires !s.stopped
    ensures step.AcceptDone? && step.ok && s.accepting > 0 ==>
              var s' := Apply(s, step);
              s'.links == s.links + [Up] && Standing(s') == (true, s.accepting - 1, s.reading + 1)
    ensures step.TimerDone? && step.expired && StartsOver(s, step) == None ==> Apply(s, step) == s
  {
  }

  /** A completed read is followed by another exactly on a server still connected and not stopped. */
  lemma NextRead(s: State, bytes: nat)
    requires s.reading > 0
    ensures Apply(s, ReadDone(Got(bytes))).reading == if s.connected && !s.stopped then s.reading else s.reading - 1
  {
  }

  /** `start` stops the server exactly when it cannot create the pipe, or not the event, or finds a pipe open. */
  lemma StartEffect(s: State, r: Recreate)
    ensures Started(s, r).stopped <==> s.stopped || s.open || r.CreateFails? || r.next == EventFails
  {
    if r.Created? {
      WaitKeepsWriteSide(s.(open := true), r.next);
    }
  }

  /** `stop` leaves the server stopped, closed and not connected. */
  lemma StopEffect(s: State)
    requires !s.stopped
    ensures var s' := Apply(Apply(s, StopFlag), StopClose); s'.stopped && !s'.closing && !s'.open && !s'.connected
  {
  }

  // ---- Reading ----

  /** Only a failed read leaves a connected server without a read; it stays so until it is stopped or its connection
      goes or is made anew. */
  lemma DeafStep(s: State, step: Step)
    ensures Deaf(Apply(s, step)) <==>
              GoesDeaf(s, step) || (Deaf(s) && Apply(s, step).links == s.links && !Apply(s, step).stopped)
  {
    match step
    case Start(r) => DeafStart(s, r);
    case AcceptDone(ok, r) => DeafAccept(s, ok, r);
    case ReadDone(outcome) => DeafRead(s, outcome);
    case WriteDone(result) => DeafWritten(s, result);
    case TimerDone(expired, alive, r) => DeafTimer(s, expired, alive, r);
    case _ =>
  }

  // ---- Quiescence after stop ----
  lemma StoppedStep(s: State, step: Step)
    requires s.stopped
    ensures Subsides(s, Apply(s, step), if IsHandler(step) && Apply(s, step) != s then 1 else 0)
  {
    match step
    case PostRun => StoppedPost(s);
    case AcceptDone(ok, r) => StoppedAccept(s, ok, r);
    case ReadDone(outcome) => StoppedRead(s, outcome);
    case WriteDone(result) => StoppedWrite(s, result);
    case TimerDone(expired, alive, r) => StoppedTimer(s, expired, alive, r);
    case _ =>
  }

  /** After `is_stopped_` is set no run executes more handlers than were pending, so the io loop ends; no
      `on_connect_` fires any more and at most one `on_disconnect_`, none if `stop` has returned. */
  lemma {:induction false} Quiescence(s: State, steps: seq<Step>)
    requires s.stopped
    ensures Subsides(s, Run(s, steps), Effective(s, steps))
    ensures LinksAgree(s) && !s.closing ==> Run(s, steps).links == s.links
    decreases steps
  {
    if steps == [] {
    } else {
      StoppedStep(s, steps[0]);
      Quiescence(Apply(s, steps[0]), steps[1..]);
    }
  }

  // ---- Reports and reads over runs ----

  /** In every run: as many messages and errors are reported as there are, timers are pending that were started and have
      not ended, and exactly what was written while connected has been accepted. */
  lemma {:induction false} ReportsRun(s: State, steps: seq<Step>)
    ensures var end := Run(s, steps);
            && end.messages == s.messages + Times(s, steps, Receives)
            && end.errors == s.errors + Times(s, steps, Errs)
            && end.timing + Times(s, steps, EndsTimer) == s.timing + Times(s, steps, StartsUp)
            && end.accepted == s.accepted + AcceptedIn(s, steps)
    decreases steps
  {
    if steps == [] {
      assert s.accepted + [] == s.accepted;
    } else {
      var next := Apply(s, steps[0]);
      ReportsStep(s, steps[0]);
      ReportsRun(next, steps[1..]);
      var first := if steps[0].Write? && s.connected && !s.stopped then [steps[0].message] else [];
      assert s.accepted + (first + AcceptedIn(next, steps[1..])) == (s.accepted + first) + AcceptedIn(next, steps[1..]);
    }
  }

  lemma DeafSinceBefore(s: State, steps: seq<Step>, i: nat)
    requires steps != [] && i < |steps| - 1
    ensures var init, last := steps[..|steps| - 1], steps[|steps| - 1];
            DeafSince(s, steps, i) <==>
              DeafSince(s, init, i) && Run(s, steps).links == Run(s, init).links && !Run(s, steps).stopped
  {
    var init := steps[..|steps| - 1];
    assert init[..i] == steps[..i] && init[..i + 1] == steps[..i + 1] && init[i] == steps[i];
    RunLast(s, steps);
    LinksGrow(Run(s, init), steps[|steps| - 1]);
    RunSplit(s, init, i + 1);
    RunExtendsLinks(Run(s, init[..i + 1]), init[i + 1..]);
    if Run(s, init).stopped {
      StoppedStep(Run(s, init), steps[|steps| - 1]);
    }
  }

  /** A connected, running server is without a read exactly when on its way its only read failed, other than by a
      disconnect, and since then no connection has come or gone. In every other run the next message is received. */
  lemma {:induction false} DeafExactly(s: State, steps: seq<Step>)
    requires !Deaf(s)
    ensures Deaf(Run(s, steps)) <==> exists i: nat :: DeafSince(s, steps, i)
    decreases |steps|
  {
    if steps == [] {
    } else {
      var n := |steps| - 1;
      var init := steps[..n];
      RunLast(s, steps);
      DeafExactly(s, init);
      DeafStep(Run(s, init), steps[n]);
      assert steps[..n + 1] == steps;
      if GoesDeaf(Run(s, init), steps[n]) {
        assert DeafSince(s, steps, n) by { GoesDeafQuietly(Run(s, init), steps[n]); }
      }
      if i: nat :| DeafSince(s, init, i) {
        DeafSinceBefore(s, steps, i);
      }
      if i: nat :| DeafSince(s, steps, i) {
        if i < n {
          DeafSinceBefore(s, steps, i);
        }
      }
    }
  }
}
