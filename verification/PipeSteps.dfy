/** What the handlers of the named-pipe server (src/rpc/pipe/NamedPipeServer.cpp) keep, one by one.

    Most properties of the server are kept step by step. A step comes down to one handler, and a handler to
    the few functions it calls: closing the pipe, connecting, and listening again with any number of failed
    attempts on the way. Here are the properties, and for each of them what it is worth for these functions
    and for the handlers made of them; `PipeRuns` puts the handlers together to steps and the steps to
    runs. */
module PipeSteps {
  import opened Options
  import opened PipeServer

  // ---- What connecting and closing leave alone ----
  lemma RestartKeepsWriteSide(s: State, r: Recreate)
    ensures SameWriteSide(s, Restart(s, r))
    ensures Beside(Restart(s, r)) == Beside(s)
  {
    if r.Created? {
      WaitKeepsWriteSide(s.(open := true), r.next);
    }
  }

  lemma ReopenKeepsWriteSide(s: State, r: Recreate)
    ensures SameWriteSide(s, Reopen(s, r))
    ensures Beside(Reopen(s, r)) == Beside(s)
  {
    RestartKeepsWriteSide(ClosePipe(s), r);
  }

  lemma OffWriteSide(s: State, step: Step)
    requires !step.Write? && !step.PostRun? && !step.WriteDone?
    ensures SameWriteSide(s, Apply(s, step))
  {
    match step
    case Start(r) => StartOffWriteSide(s, r);
    case AcceptDone(ok, r) => AcceptOffWriteSide(s, ok, r);
    case ReadDone(outcome) => ReadOffWriteSide(s, outcome);
    case TimerDone(expired, alive, r) => TimerOffWriteSide(s, expired, alive, r);
    case _ =>
  }

  lemma StartOffWriteSide(s: State, r: Recreate)
    ensures SameWriteSide(s, Started(s, r))
  {
    if r.Created? {
      WaitKeepsWriteSide(s.(open := true), r.next);
    }
  }

  lemma AcceptOffWriteSide(s: State, ok: bool, r: Recreate)
    ensures SameWriteSide(s, Accepting(s, ok, r))
  {
    if s.accepting > 0 {
      ReopenKeepsWriteSide(s.(accepting := s.accepting - 1), r);
    }
  }

  lemma ReadOffWriteSide(s: State, outcome: ReadOutcome)
    ensures SameWriteSide(s, Reading(s, outcome))
  {
    if s.reading > 0 && outcome.ReadFailed? {
      ReopenKeepsWriteSide(s.(reading := s.reading - 1), outcome.r);
    }
  }

  lemma TimerOffWriteSide(s: State, expired: bool, alive: bool, r: Recreate)
    ensures SameWriteSide(s, Timing(s, expired, alive, r))
  {
    if s.timing > 0 {
      RestartKeepsWriteSide(ClosePipe(s.(timing := s.timing - 1)), r);
    }
  }

  // ---- Writes ----

  /** At most one write is outstanding, and its buffer is the front of the queue. */
  ghost predicate OneWrite(s: State) {
    s.writing == [] || (s.queue != [] && s.writing == [s.queue[0]])
  }

  /** What has been written out, then what is queued, then what is still to be posted, is everything
      `write` accepted, in order. */
  ghost predicate InOrder(s: State) {
    (s.completed + s.queue, s.posted + s.posts) == (s.posted, s.accepted)
  }

  lemma PostKeepsOneWrite(s: State)
    requires OneWrite(s)
    ensures OneWrite(Posting(s))
  {
  }

  lemma InOrderPost(s: State)
    requires InOrder(s)
    ensures InOrder(Posting(s))
  {
    if s.posts != [] {
      assert s.completed + (s.queue + [s.posts[0]]) == s.posted + [s.posts[0]];
      assert (s.posted + [s.posts[0]]) + s.posts[1..] == s.posted + s.posts;
    }
  }

  lemma InOrderWritten(s: State, result: WriteOutcome)
    requires OneWrite(s) && InOrder(s)
    ensures InOrder(Writing(s, result))
  {
    if s.writing != [] {
      if result.WriteFailed? {
        ReopenKeepsWriteSide(s.(writing := s.writing[1..]), result.r);
      } else {
        assert (s.completed + [s.queue[0]]) + s.queue[1..] == s.completed + s.queue;
      }
    }
  }

  // ---- When writing gets stuck ----

  /** Messages are queued and no write is outstanding. */
  predicate Stalled(s: State) {
    s.queue != [] && s.writing == []
  }

  /** A write fails, or a write should start on a server that is stopped or not connected. */
  predicate BreaksOff(s: State, step: Step) {
    || (step.WriteDone? && s.writing != [] && step.result.WriteFailed?)
    || (step.WriteDone? && |s.queue| > 1 && (s.stopped || !s.connected))
    || (step == PostRun && s.posts != [] && s.queue == [] && (s.stopped || !s.connected))
  }

  lemma StallWritten(s: State, result: WriteOutcome)
    requires OneWrite(s) && !Stalled(s)
    ensures Stalled(Writing(s, result)) <==> BreaksOff(s, WriteDone(result))
  {
    if result.WriteFailed? && s.writing != [] {
      ReopenKeepsWriteSide(s.(writing := s.writing[1..]), result.r);
    }
  }

  lemma StallStep(s: State, step: Step)
    requires Stalled(s)
    ensures Stalled(Apply(s, step))
    ensures Apply(s, step).completed == s.completed && s.queue <= Apply(s, step).queue
  {
    match step
    case Write(_) =>
    case PostRun =>
    case WriteDone(_) =>
    case _ => OffWriteSide(s, step);
  }

  predicate NeverBreaksOff(s: State, steps: seq<Step>)
    decreases steps
  {
    steps == [] || (!BreaksOff(s, steps[0]) && NeverBreaksOff(Apply(s, steps[0]), steps[1..]))
  }

  /** Connected and writing: a write is outstanding exactly when the queue is non-empty. */
  predicate InSync(s: State) {
    s.connected && !s.stopped && (s.writing != [] <==> s.queue != [])
  }

  /** The step leaves the server connected and running, and is not a failed write. */
  predicate Harmless(s: State, step: Step) {
    && Apply(s, step).connected && !Apply(s, step).stopped
    && !(step.WriteDone? && step.result.WriteFailed?)
  }

  predicate AllHarmless(s: State, steps: seq<Step>)
    decreases steps
  {
    steps == [] || (Harmless(s, steps[0]) && AllHarmless(Apply(s, steps[0]), steps[1..]))
  }

  lemma InSyncStep(s: State, step: Step)
    requires OneWrite(s) && InSync(s) && Harmless(s, step)
    ensures InSync(Apply(s, step))
  {
    match step
    case Write(_) =>
    case PostRun =>
    case WriteDone(_) =>
    case _ => OffWriteSide(s, step);
  }

  lemma RunThree(s: State, a: Step, b: Step, c: Step, rest: seq<Step>)
    ensures Run(s, [a, b, c] + rest) == Run(Apply(Apply(Apply(s, a), b), c), rest)
  {
    assert ([a, b, c] + rest)[1..] == [b, c] + rest;
    assert ([b, c] + rest)[1..] == [c] + rest;
    assert ([c] + rest)[1..] == rest;
    assert Run(s, [a, b, c] + rest) == Run(Apply(s, a), [b, c] + rest);
    assert Run(Apply(s, a), [b, c] + rest) == Run(Apply(Apply(s, a), b), [c] + rest);
  }

  // ---- Connections ----

  /** Whether there is a connection, as its callbacks tell; None once a disconnect has ended none. */
  function Told(links: seq<Link>): Option<bool> {
    if links == [] then Some(false)
    else
      match (Told(links[..|links| - 1]), links[|links| - 1])
      case (None, _) => None
      case (Some(_), Up) => Some(true)
      case (Some(connected), Down) => if connected then Some(false) else None
  }

  lemma ToldNext(links: seq<Link>, x: Link)
    ensures Told(links + [x]) == match (Told(links), x)
                                 case (None, _) => None
                                 case (Some(_), Up) => Some(true)
                                 case (Some(connected), Down) => if connected then Some(false) else None
  {
    assert (links + [x])[..|links|] == links;
  }

  /** `is_connected_` is what the last connection callback said, and no two disconnects follow each other. */
  ghost predicate LinksAgree(s: State) {
    && Told(s.links) == Some(s.connected)
    && (s.stopped && !s.closing ==> !s.connected)
  }

  /** What the callbacks tell: the last one says whether there is a connection, and each disconnect has ended one. */
  lemma {:induction false} ToldMeans(links: seq<Link>)
    requires Told(links).Some?
    ensures Told(links).value <==> links != [] && links[|links| - 1] == Up
    ensures forall i :: 0 <= i < |links| && links[i] == Down ==> i > 0 && links[i - 1] == Up
  {
    if links == [] {
    } else {
      ToldMeans(links[..|links| - 1]);
    }
  }

  /** No connect is reported right after a connect. */
  ghost predicate Alternates(links: seq<Link>) {
    forall i :: 0 < i < |links| && links[i] == Up ==> links[i - 1] != Up
  }

  /** The server is connected, and an accept still pending completes or `start` connects at once. */
  predicate Reconnects(s: State, step: Step) {
    && s.connected && !s.stopped
    && ((step.AcceptDone? && step.ok && s.accepting > 0) || (step == Start(Created(Immediate)) && !s.open))
  }

  lemma CloseAgrees(s: State)
    requires LinksAgree(s)
    ensures LinksAgree(ClosePipe(s))
    ensures Alternates(s.links) ==> Alternates(ClosePipe(s).links)
  {
    ToldNext(s.links, Down);
  }

  lemma ConnectAgrees(s: State)
    requires LinksAgree(s) && !s.stopped
    ensures LinksAgree(Connect(s))
    ensures Alternates(s.links) ==> (Alternates(Connect(s).links) <==> !s.connected)
  {
    ToldNext(s.links, Up);
    ToldMeans(s.links);
    var after := s.links + [Up];
    assert Connect(s).links == after && after[|s.links|] == Up;
    if s.connected {
      assert after[|s.links| - 1] == Up;
    }
  }

  /** A connection attempt repeats a connect exactly when it succeeds at once on a connected server: after an
      error the pipe is closed first. */
  lemma {:induction false} WaitAgrees(s: State, a: Accept)
    requires LinksAgree(s) && !s.stopped
    ensures LinksAgree(WaitForConnection(s, a).0)
    ensures Alternates(s.links) ==>
              (Alternates(WaitForConnection(s, a).0.links) <==> !(a == Immediate && s.connected))
    decreases a
  {
    match a
    case Immediate => ConnectAgrees(s);
    case Error(Created(next)) =>
      CloseAgrees(s);
      WaitAgrees(ClosePipe(s).(open := true), next);
    case Error(CreateFails) => CloseAgrees(s);
    case _ =>
  }

  lemma RestartAgrees(s: State, r: Recreate)
    requires LinksAgree(s) && !s.stopped
    ensures LinksAgree(Restart(s, r))
    ensures Alternates(s.links) && !s.connected ==> Alternates(Restart(s, r).links)
  {
    if r.Created? {
      WaitAgrees(s.(open := true), r.next);
    }
  }

  lemma ReopenAgrees(s: State, r: Recreate)
    requires LinksAgree(s)
    ensures LinksAgree(Reopen(s, r))
    ensures Alternates(s.links) ==> Alternates(Reopen(s, r).links)
  {
    CloseAgrees(s);
    if !s.stopped {
      RestartAgrees(ClosePipe(s), r);
    }
  }

  lemma StopAgrees(s: State)
    requires LinksAgree(s)
    ensures LinksAgree(Closed(Flagged(s)))
    ensures Alternates(s.links) ==> Alternates(Closed(Flagged(s)).links)
  {
    CloseAgrees(Flagged(s));
  }

  lemma StartAgrees(s: State, r: Recreate)
    requires LinksAgree(s)
    ensures LinksAgree(Started(s, r))
    ensures Alternates(s.links) ==> (Alternates(Started(s, r).links) <==> !Reconnects(s, Start(r)))
  {
    if !s.stopped && r.Created? && !s.open {
      var o := s.(open := true);
      WaitAgrees(o, r.next);
      StopAgrees(WaitForConnection(o, r.next).0);
    } else {
      StopAgrees(s);
    }
  }

  lemma AcceptAgrees(s: State, ok: bool, r: Recreate)
    requires LinksAgree(s)
    ensures LinksAgree(Accepting(s, ok, r))
    ensures Alternates(s.links) ==> (Alternates(Accepting(s, ok, r).links) <==> !Reconnects(s, AcceptDone(ok, r)))
  {
    if s.accepting > 0 {
      var t := s.(accepting := s.accepting - 1);
      ReopenAgrees(t, r);
      if !s.stopped {
        ConnectAgrees(t);
      }
    }
  }

  lemma ReadAgrees(s: State, outcome: ReadOutcome)
    requires LinksAgree(s)
    ensures LinksAgree(Reading(s, outcome))
    ensures Alternates(s.links) ==> Alternates(Reading(s, outcome).links)
  {
    if s.reading > 0 && outcome.ReadFailed? {
      ReopenAgrees(s.(reading := s.reading - 1), outcome.r);
    }
  }

  lemma WriteAgrees(s: State, result: WriteOutcome)
    requires LinksAgree(s)
    ensures LinksAgree(Writing(s, result))
    ensures Alternates(s.links) ==> Alternates(Writing(s, result).links)
  {
    if s.writing != [] && result.WriteFailed? {
      ReopenAgrees(s.(writing := s.writing[1..]), result.r);
    }
  }

  lemma TimerAgrees(s: State, expired: bool, alive: bool, r: Recreate)
    requires LinksAgree(s)
    ensures LinksAgree(Timing(s, expired, alive, r))
    ensures Alternates(s.links) ==> Alternates(Timing(s, expired, alive, r).links)
  {
    if s.timing > 0 && !s.stopped {
      var t := s.(timing := s.timing - 1);
      CloseAgrees(t);
      RestartAgrees(ClosePipe(t), r);
    }
  }

  ghost predicate Inv(s: State) {
    OneWrite(s) && InOrder(s) && LinksAgree(s)
  }

  lemma InvInitial()
    ensures Inv(INITIAL)
  {
    assert INITIAL.completed + INITIAL.queue == [] && INITIAL.posted + INITIAL.posts == [];
  }

  lemma LinksGrow(s: State, step: Step)
    ensures s.links <= Apply(s, step).links
  {
    match step
    case Write(_) =>
    case PostRun =>
    case WriteDone(result) =>
      if result.WriteFailed? && s.writing != [] { ReopenKeepsWriteSide(s.(writing := s.writing[1..]), result.r); }
    case _ => OffWriteSide(s, step);
  }

  lemma AlternatesPrefix(a: seq<Link>, b: seq<Link>)
    requires a <= b && Alternates(b)
    ensures Alternates(a)
  {
    assert forall i :: 0 <= i < |a| ==> a[i] == b[i];
  }

  predicate NeverReconnects(s: State, steps: seq<Step>)
    decreases steps
  {
    steps == [] || (!Reconnects(s, steps[0]) && NeverReconnects(Apply(s, steps[0]), steps[1..]))
  }

  lemma {:induction false} RunExtendsLinks(s: State, steps: seq<Step>)
    ensures s.links <= Run(s, steps).links
    decreases steps
  {
    if steps == [] {
    } else {
      LinksGrow(s, steps[0]);
      RunExtendsLinks(Apply(s, steps[0]), steps[1..]);
    }
  }

  // ---- Starting, stopping and starting over ----

  /** What a chain of attempts to listen again comes to: only the last one matters. */
  datatype Outcome = Connects | Listens | GivesUp

  function OutcomeOf(r: Recreate): Outcome
    decreases r
  {
    match r
    case CreateFails => GivesUp
    case Created(next) => OutcomeOfAttempt(next)
  }

  function OutcomeOfAttempt(a: Accept): Outcome
    decreases a
  {
    match a
    case EventFails => GivesUp
    case Immediate => Connects
    case Pending => Listens
    case Error(retry) => OutcomeOf(retry)
  }

  /** The server as connections see it. */
  function Standing(s: State): (bool, nat, nat) {
    (s.connected, s.accepting, s.reading)
  }

  lemma {:induction false} WaitOutcome(s: State, a: Accept)
    ensures !s.stopped && !s.connected ==>
              var s' := WaitForConnection(s, a).0;
              && Standing(s') == (match OutcomeOfAttempt(a)
                                  case Connects => (true, s.accepting, s.reading + 1)
                                  case Listens => (false, s.accepting + 1, s.reading)
                                  case GivesUp => (false, s.accepting, s.reading))
              && (s.open && OutcomeOfAttempt(a) != GivesUp ==> s'.open)
    decreases a
  {
    if a.Error? && a.retry.Created? {
      WaitOutcome(ClosePipe(s).(open := true), a.retry.next);
    }
  }

  /** After a close, a server that is not stopped listens again or is connected, with one more read outstanding,
      unless the last attempt fails. */
  lemma ReopenOutcome(s: State, r: Recreate)
    ensures !s.stopped ==>
              var s' := Reopen(s, r);
              && Standing(s') == (match OutcomeOf(r)
                                  case Connects => (true, s.accepting, s.reading + 1)
                                  case Listens => (false, s.accepting + 1, s.reading)
                                  case GivesUp => (false, s.accepting, s.reading))
              && (OutcomeOf(r) != GivesUp ==> s'.open)
  {
    if r.Created? {
      WaitOutcome(ClosePipe(s).(open := true), r.next);
    }
  }

  lemma ReopenReportsClose(s: State, r: Recreate)
    ensures s.links + (if s.connected then [Down] else []) <= Reopen(s, r).links
  {
    RestartKeepsWriteSide(ClosePipe(s), r);
  }

  /** What is tried after a step that finds the connection, or the attempt at one, gone. */
  function StartsOver(s: State, step: Step): Option<Recreate> {
    match step
    case AcceptDone(ok, r) => if s.accepting > 0 && !ok then Some(r) else None
    case ReadDone(ReadFailed(true, r)) => if s.reading > 0 then Some(r) else None
    case WriteDone(WriteFailed(true, r)) => if s.writing != [] then Some(r) else None
    case TimerDone(true, alive, r) => if s.timing > 0 && s.connected && !(s.open && alive) then Some(r) else None
    case _ => None
  }

  lemma StartsOverFrom(t: State, r: Recreate)
    ensures t.links + (if t.connected then [Down] else []) <= Reopen(t, r).links
    ensures !t.stopped ==>
              && Standing(Reopen(t, r)) == (match OutcomeOf(r)
                                            case Connects => (true, t.accepting, t.reading + 1)
                                            case Listens => (false, t.accepting + 1, t.reading)
                                            case GivesUp => (false, t.accepting, t.reading))
              && (OutcomeOf(r) != GivesUp ==> Reopen(t, r).open)
  {
    ReopenOutcome(t, r);
    ReopenReportsClose(t, r);
  }

  // ---- What is reported, and the timer ----

  /** The step starts a server up. */
  predicate StartsUp(s: State, step: Step) {
    step.Start? && !s.stopped && !s.open && step.r.Created? && step.r.next != EventFails
  }

  /** The step ends a timer for good. */
  predicate EndsTimer(s: State, step: Step) {
    step.TimerDone? && s.timing > 0 && (!step.expired || s.stopped)
  }

  /** A message has been received, and an error other than a disconnect. */
  predicate Receives(s: State, step: Step) {
    step.ReadDone? && s.reading > 0 && step.outcome.Got? && step.outcome.bytes > 0
  }

  predicate Errs(s: State, step: Step) {
    || (step.ReadDone? && s.reading > 0 && step.outcome.ReadFailed? && !step.outcome.disconnect)
    || (step.WriteDone? && s.writing != [] && step.result.WriteFailed? && !step.result.disconnect)
  }

  function One(b: bool): nat {
    if b then 1 else 0
  }

  /** Every message and every error is reported, once; a timer runs on from start-up until it is cancelled or expires on
      a stopped server; and `write` accepts a message exactly when the server is connected and not stopped. */
  lemma ReportsStep(s: State, step: Step)
    ensures var s' := Apply(s, step);
            && (s'.messages, s'.errors) == (s.messages + One(Receives(s, step)), s.errors + One(Errs(s, step)))
            && s'.timing + One(EndsTimer(s, step)) == s.timing + One(StartsUp(s, step))
            && s'.accepted == s.accepted + if step.Write? && s.connected && !s.stopped then [step.message] else []
  {
    match step
    case Start(r) => ReportsStart(s, r);
    case AcceptDone(ok, r) => ReportsAccept(s, ok, r);
    case ReadDone(outcome) => ReportsRead(s, outcome);
    case WriteDone(result) => ReportsWritten(s, result);
    case TimerDone(expired, alive, r) => ReportsTimer(s, expired, alive, r);
    case _ =>
  }

  lemma ReportsStart(s: State, r: Recreate)
    ensures var s' := Started(s, r);
            && (s'.messages, s'.errors, s'.accepted) == (s.messages, s.errors, s.accepted)
            && s'.timing == s.timing + One(StartsUp(s, Start(r)))
  {
    if r.Created? {
      WaitKeepsWriteSide(s.(open := true), r.next);
    }
  }

  lemma ReportsAccept(s: State, ok: bool, r: Recreate)
    ensures var s' := Accepting(s, ok, r);
            && (s'.messages, s'.errors, s'.timing) == (s.messages, s.errors, s.timing)
            && s'.accepted == s.accepted
  {
    if s.accepting > 0 {
      ReopenKeepsWriteSide(s.(accepting := s.accepting - 1), r);
    }
  }

  lemma ReportsRead(s: State, outcome: ReadOutcome)
    ensures var s', step := Reading(s, outcome), ReadDone(outcome);
            && (s'.messages, s'.errors) == (s.messages + One(Receives(s, step)), s.errors + One(Errs(s, step)))
            && (s'.timing, s'.accepted) == (s.timing, s.accepted)
  {
    if s.reading > 0 && outcome.ReadFailed? {
      ReopenKeepsWriteSide(s.(reading := s.reading - 1), outcome.r);
    }
  }

  lemma ReportsWritten(s: State, result: WriteOutcome)
    ensures var s' := Writing(s, result);
            && (s'.messages, s'.errors) == (s.messages, s.errors + One(Errs(s, WriteDone(result))))
            && (s'.timing, s'.accepted) == (s.timing, s.accepted)
  {
    if s.writing != [] && result.WriteFailed? {
      ReopenKeepsWriteSide(s.(writing := s.writing[1..]), result.r);
    }
  }

  lemma ReportsTimer(s: State, expired: bool, alive: bool, r: Recreate)
    ensures var s' := Timing(s, expired, alive, r);
            && (s'.messages, s'.errors, s'.accepted) == (s.messages, s.errors, s.accepted)
            && s'.timing + One(EndsTimer(s, TimerDone(expired, alive, r))) == s.timing
  {
    if s.timing > 0 {
      RestartKeepsWriteSide(ClosePipe(s.(timing := s.timing - 1)), r);
    }
  }

  // ---- Reading ----

  /** Connected and running, and no read is outstanding: no message will be received on this connection. */
  predicate Deaf(s: State) {
    s.connected && !s.stopped && s.reading == 0
  }

  /** The only outstanding read fails, with an error that is not a disconnect. */
  predicate GoesDeaf(s: State, step: Step) {
    && s.connected && !s.stopped && s.reading == 1
    && step.ReadDone? && step.outcome.ReadFailed? && !step.outcome.disconnect
  }

  /** Whatever comes of an attempt: either no callback and no change of standing but a pending accept, or a connection
      with a read, or none. */
  lemma {:induction false} WaitReads(s: State, a: Accept)
    ensures !s.stopped ==>
              var s' := WaitForConnection(s, a).0;
              if s'.links == s.links then s'.connected == s.connected && s'.reading == s.reading
              else s'.connected ==> s'.reading > 0
    decreases a
  {
    if a.Error? && a.retry.Created? {
      WaitReads(ClosePipe(s).(open := true), a.retry.next);
      WaitKeepsWriteSide(ClosePipe(s).(open := true), a.retry.next);
    }
  }

  lemma ReopenReads(s: State, r: Recreate)
    ensures !s.stopped && Reopen(s, r).connected ==> Reopen(s, r).reading > 0 && Reopen(s, r).links != s.links
    ensures s.connected ==> Reopen(s, r).links != s.links
    ensures Beside(Reopen(s, r)) == Beside(s)
  {
    ReopenOutcome(s, r);
    ReopenReportsClose(s, r);
    ReopenKeepsWriteSide(s, r);
    if r.Created? {
      WaitReads(ClosePipe(s).(open := true), r.next);
    }
    RestartKeepsWriteSide(ClosePipe(s), r);
  }

  lemma DeafStart(s: State, r: Recreate)
    ensures Deaf(Started(s, r)) <==> Deaf(s) && Started(s, r).links == s.links && !Started(s, r).stopped
  {
    if r.Created? {
      WaitKeepsWriteSide(s.(open := true), r.next);
      WaitReads(s.(open := true), r.next);
    }
  }

  lemma DeafAccept(s: State, ok: bool, r: Recreate)
    ensures Deaf(Accepting(s, ok, r)) <==>
              Deaf(s) && Accepting(s, ok, r).links == s.links && !Accepting(s, ok, r).stopped
  {
    if s.accepting > 0 {
      ReopenReads(s.(accepting := s.accepting - 1), r);
    }
  }

  lemma DeafRead(s: State, outcome: ReadOutcome)
    ensures Deaf(Reading(s, outcome)) <==>
              || GoesDeaf(s, ReadDone(outcome))
              || (Deaf(s) && Reading(s, outcome).links == s.links && !Reading(s, outcome).stopped)
  {
    if s.reading > 0 && outcome.ReadFailed? {
      ReopenReads(s.(reading := s.reading - 1), outcome.r);
    }
  }

  lemma DeafWritten(s: State, result: WriteOutcome)
    ensures Deaf(Writing(s, result)) <==> Deaf(s) && Writing(s, result).links == s.links && !Writing(s, result).stopped
  {
    if s.writing != [] && result.WriteFailed? {
      ReopenReads(s.(writing := s.writing[1..]), result.r);
    }
  }

  lemma DeafTimer(s: State, expired: bool, alive: bool, r: Recreate)
    ensures Deaf(Timing(s, expired, alive, r)) <==>
              Deaf(s) && Timing(s, expired, alive, r).links == s.links && !Timing(s, expired, alive, r).stopped
  {
    if s.timing > 0 {
      ReopenReads(s.(timing := s.timing - 1), r);
    }
  }

  // ---- Quiescence after stop ----

  /** How many accepts, reads, writes, timers and posts are pending. */
  function Handlers(s: State): (h: seq<nat>)
    ensures |h| == 5
  {
    [s.accepting, s.reading, |s.writing|, s.timing, |s.posts|]
  }

  function Armed(s: State): nat {
    Handlers(s)[0] + Handlers(s)[1] + Handlers(s)[2] + Handlers(s)[3] + Handlers(s)[4]
  }

  predicate IsHandler(step: Step) {
    step.PostRun? || step.AcceptDone? || step.ReadDone? || step.WriteDone? || step.TimerDone?
  }

  /** A stopped server moving on: nothing is armed, nobody connects, at most the last connection goes,
      and `used` handlers are used up. */
  ghost predicate Subsides(s: State, s': State, used: int) {
    && s'.stopped
    && (forall i :: 0 <= i < 5 ==> Handlers(s')[i] <= Handlers(s)[i])
    && Armed(s') == Armed(s) - used
    && (s'.links == s.links || (s.connected && !s'.connected && s'.links == s.links + [Down]))
    && (s'.connected ==> s.connected)
  }

  lemma StoppedPost(s: State)
    requires s.stopped
    ensures Posting(s) == s || Subsides(s, Posting(s), 1)
  {
  }

  lemma StoppedAccept(s: State, ok: bool, r: Recreate)
    requires s.stopped
    ensures Accepting(s, ok, r) == s || Subsides(s, Accepting(s, ok, r), 1)
  {
  }

  lemma StoppedRead(s: State, outcome: ReadOutcome)
    requires s.stopped
    ensures Reading(s, outcome) == s || Subsides(s, Reading(s, outcome), 1)
  {
  }

  lemma StoppedWrite(s: State, result: WriteOutcome)
    requires s.stopped
    ensures Writing(s, result) == s || Subsides(s, Writing(s, result), 1)
  {
  }

  lemma StoppedTimer(s: State, expired: bool, alive: bool, r: Recreate)
    requires s.stopped
    ensures Timing(s, expired, alive, r) == s || Subsides(s, Timing(s, expired, alive, r), 1)
  {
  }

  /** How many steps of a run do something. */
  function Effective(s: State, steps: seq<Step>): nat
    decreases steps
  {
    if steps == [] then 0
    else (if IsHandler(steps[0]) && Apply(s, steps[0]) != s then 1 else 0) + Effective(Apply(s, steps[0]), steps[1..])
  }

  // ---- Reports and reads over runs ----

  /** How often steps of a kind happen in the run from `s`. */
  function Times(s: State, steps: seq<Step>, kind: (State, Step) -> bool): nat
    decreases steps
  {
    if steps == [] then 0 else One(kind(s, steps[0])) + Times(Apply(s, steps[0]), steps[1..], kind)
  }

  /** What `write` is given while the server is connected and not stopped. */
  function AcceptedIn(s: State, steps: seq<Step>): seq<string>
    decreases steps
  {
    if steps == [] then []
    else (if steps[0].Write? && s.connected && !s.stopped then [steps[0].message] else [])
         + AcceptedIn(Apply(s, steps[0]), steps[1..])
  }

  lemma {:induction false} RunSplit(s: State, steps: seq<Step>, n: nat)
    requires n <= |steps|
    ensures Run(s, steps) == Run(Run(s, steps[..n]), steps[n..])
    decreases n
  {
    if n == 0 {
      assert steps[0..] == steps;
    } else {
      RunSplit(Apply(s, steps[0]), steps[1..], n - 1);
      assert steps[..n][1..] == steps[1..][..n - 1] && steps[1..][n - 1..] == steps[n..];
    }
  }

  lemma RunLast(s: State, steps: seq<Step>)
    requires steps != []
    ensures Run(s, steps) == Apply(Run(s, steps[..|steps| - 1]), steps[|steps| - 1])
  {
    var n := |steps| - 1;
    RunSplit(s, steps, n);
    assert steps[n..] == [steps[n]] && [steps[n]][1..] == [];
  }

  /** Step `i` of the run left the server without a read, and nothing has been reported of its connection since. */
  ghost predicate DeafSince(s: State, steps: seq<Step>, i: nat) {
    i < |steps| && GoesDeaf(Run(s, steps[..i]), steps[i])
    && Run(s, steps[..i + 1]).links == Run(s, steps).links && !Run(s, steps).stopped
  }

  lemma GoesDeafQuietly(s: State, step: Step)
    requires GoesDeaf(s, step)
    ensures !Apply(s, step).stopped
  {
  }
}
