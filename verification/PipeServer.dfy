/** The named-pipe server (src/rpc/pipe/NamedPipeServer.cpp): an asynchronous machine of pending accept,
    read, write, timer and post handlers. Every handler body is one step, as are the calls `start` and
    `write` and the two halves of `stop`. What the operating system answers enters as a parameter of the
    step; a handler that is not pending leaves the state as it is, so every sequence of steps is a run. */
module PipeServer {
  import opened Options

  /** What a ConnectNamedPipe attempt comes to; after an error the server closes the pipe and retries. */
  datatype Accept = EventFails | Immediate | Pending | Error(retry: Recreate)

  /** What create_pipe comes to, and the attempt to connect that follows it. */
  datatype Recreate = CreateFails | Created(next: Accept)

  /** A connection callback: `on_connect_` or `on_disconnect_`. */
  datatype Link = Up | Down

  /** The fields of the server; `accepting` to `posts` are the handlers it has armed with the io context
      (`writing` holds the buffer of each write, `posts` the message of each post, oldest first). `closing`
      is set between the two halves of `stop`. The rest is history: connection callbacks, messages and
      errors reported, messages accepted by `write`, posted on the strand, and written out. */
  datatype State = State(queue: seq<string>, connected: bool, stopped: bool, open: bool, closing: bool,
                         accepting: nat, reading: nat, writing: seq<string>, timing: nat, posts: seq<string>,
                         links: seq<Link>, messages: nat, errors: nat,
                         accepted: seq<string>, posted: seq<string>, completed: seq<string>)

  const INITIAL := State([], false, false, false, false, 0, 0, [], 0, [], [], 0, 0, [], [], [])

  datatype Step =
    | Start(r: Recreate)
    | StopFlag
    | StopClose
    | Write(message: string)
    | PostRun
    | AcceptDone(ok: bool, r: Recreate)
    | ReadDone(outcome: ReadOutcome)
    | WriteDone(result: WriteOutcome)
    | TimerDone(expired: bool, alive: bool, r: Recreate)

  datatype ReadOutcome = Got(bytes: nat) | ReadFailed(disconnect: bool, r: Recreate)

  datatype WriteOutcome = Sent | WriteFailed(disconnect: bool, r: Recreate)

  // ---- The server's functions ----
  function ClosePipe(s: State): State {
    if s.connected then s.(open := false, connected := false, links := s.links + [Down])
    else s.(open := false)
  }

  function StartRead(s: State): State {
    if s.stopped || !s.connected then s else s.(reading := s.reading + 1)
  }

  function Connect(s: State): State {
    StartRead(s.(connected := true, links := s.links + [Up]))
  }

  function DoWrite(s: State): State {
    if s.stopped || !s.connected || s.queue == [] then s else s.(writing := s.writing + [s.queue[0]])
  }

  /** The second component says whether an exception leaves the call. */
  function WaitForConnection(s: State, a: Accept): (State, bool)
    decreases a
  {
    match a
    case EventFails => (s, true)
    case Immediate => (Connect(s), false)
    case Pending => (s.(accepting := s.accepting + 1), false)
    case Error(retry) =>
      var c := ClosePipe(s);
      (if c.stopped then c else Restart(c, retry), false)
  }

  /** `create_pipe(); wait_for_connection();` with every exception caught and logged. */
  function Restart(s: State, r: Recreate): State
    decreases r
  {
    match r
    case CreateFails => s
    case Created(next) => WaitForConnection(s.(open := true), next).0
  }

  /** Close the pipe and, unless stopped, listen again. */
  function Reopen(s: State, r: Recreate): State {
    var c := ClosePipe(s);
    if c.stopped then c else Restart(c, r)
  }

  function HandleError(s: State, disconnect: bool, r: Recreate): State {
    if disconnect then Reopen(s, r) else s.(errors := s.errors + 1)
  }

  function StartTimer(s: State): State {
    if s.stopped then s else s.(timing := s.timing + 1)
  }

  function CheckClient(s: State, alive: bool, r: Recreate): State {
    if !s.connected || s.stopped || (s.open && alive) then s else Restart(ClosePipe(s), r)
  }

  function Flagged(s: State): State {
    if s.stopped then s else s.(stopped := true, closing := true)
  }

  function Closed(s: State): State {
    if s.closing then ClosePipe(s).(closing := false) else s
  }

  function Started(s: State, r: Recreate): State {
    if s.stopped then s
    else if r.CreateFails? || s.open then Closed(Flagged(s))
    else
      var (w, threw) := WaitForConnection(s.(open := true), r.next);
      if threw then Closed(Flagged(w)) else StartTimer(w)
  }

  function Posting(s: State): State {
    if s.posts == [] then s
    else
      var m := s.posts[0];
      var q := s.(posts := s.posts[1..], queue := s.queue + [m], posted := s.posted + [m]);
      if s.queue == [] then DoWrite(q) else q
  }

  function Accepting(s: State, ok: bool, r: Recreate): State {
    if s.accepting == 0 then s
    else
      var t := s.(accepting := s.accepting - 1);
      if !ok || t.stopped then Reopen(t, r) else Connect(t)
  }

  function Reading(s: State, outcome: ReadOutcome): State {
    if s.reading == 0 then s
    else
      var t := s.(reading := s.reading - 1);
      match outcome
      case Got(bytes) => StartRead(if bytes > 0 then t.(messages := t.messages + 1) else t)
      case ReadFailed(disconnect, r) => HandleError(t, disconnect, r)
  }

  function Writing(s: State, result: WriteOutcome): State {
    if s.writing == [] then s
    else
      var t := s.(writing := s.writing[1..]);
      match result
      case Sent =>
        var p := t.(queue := if t.queue == [] then [] else t.queue[1..], completed := t.completed + [s.writing[0]]);
        DoWrite(p)
      case WriteFailed(disconnect, r) => HandleError(t, disconnect, r)
  }

  function Timing(s: State, expired: bool, alive: bool, r: Recreate): State {
    if s.timing == 0 then s
    else
      var t := s.(timing := s.timing - 1);
      if expired && !t.stopped then StartTimer(CheckClient(t, alive, r)) else t
  }

  function Apply(s: State, step: Step): State {
    match step
    case Start(r) => Started(s, r)
    case StopFlag => Flagged(s)
    case StopClose => Closed(s)
    case Write(m) =>
      if s.stopped || !s.connected then s else s.(posts := s.posts + [m], accepted := s.accepted + [m])
    case PostRun => Posting(s)
    case AcceptDone(ok, r) => Accepting(s, ok, r)
    case ReadDone(outcome) => Reading(s, outcome)
    case WriteDone(result) => Writing(s, result)
    case TimerDone(expired, alive, r) => Timing(s, expired, alive, r)
  }

  function Run(s: State, steps: seq<Step>): State
    decreases steps
  {
    if steps == [] then s else Run(Apply(s, steps[0]), steps[1..])
  }

  // ---- What connecting and closing leave alone ----

  /** The write side: nothing there depends on how connections come and go. */
  function WriteSide(s: State): (seq<string>, seq<string>, seq<string>, seq<string>, seq<string>, seq<string>) {
    (s.queue, s.writing, s.posts, s.accepted, s.posted, s.completed)
  }

  /** Only connections change, and what has been reported of them stays reported. */
  ghost predicate SameWriteSide(s: State, s': State) {
    s.links <= s'.links && WriteSide(s') == WriteSide(s)
  }

  /** The rest: the stop flag, the timer and what has been reported. */
  function Beside(s: State): (bool, bool, nat, nat, nat) {
    (s.stopped, s.closing, s.timing, s.messages, s.errors)
  }

  lemma {:induction false} WaitKeepsWriteSide(s: State, a: Accept)
    ensures SameWriteSide(s, WaitForConnection(s, a).0)
    ensures Beside(WaitForConnection(s, a).0) == Beside(s)
    decreases a
  {
    if a.Error? && a.retry.Created? {
      WaitKeepsWriteSide(ClosePipe(s).(open := true), a.retry.next);
    }
  }

  // ---- The object ----
  class NamedPipeServer {
    var queue: seq<string>
    var connected: bool
    var stopped: bool
    var open: bool
    var closing: bool  // between the two halves of `stop`
    // Handlers armed with the io context
    var accepting: nat
    var reading: nat
    var writing: seq<string>
    var timing: nat
    var posts: seq<string>
    // What has been reported and sent
    var links: seq<Link>
    var messages: nat
    var errors: nat
    ghost var accepted: seq<string>
    ghost var posted: seq<string>
    ghost var completed: seq<string>

    ghost function View(): State
      reads this
    {
      State(queue, connected, stopped, open, closing, accepting, reading, writing, timing, posts,
            links, messages, errors, accepted, posted, completed)
    }

    constructor ()
      ensures View() == INITIAL
    {
      queue, connected, stopped, open, closing := [], false, false, false, false;
      accepting, reading, writing, timing, posts := 0, 0, [], 0, [];
      links, messages, errors := [], 0, 0;
      accepted, posted, completed := [], [], [];
    }

    method DoClosePipe()
      modifies this
      ensures View() == ClosePipe(old(View()))
    {
      open := false;
      if connected {
        connected := false;
        links := links + [Down];
      }
    }

    method DoStartRead()
      modifies this
      ensures View() == StartRead(old(View()))
    {
      if stopped || !connected {
        return;
      }
      reading := reading + 1;
    }

    method DoConnect()
      modifies this
      ensures View() == Connect(old(View()))
    {
      connected := true;
      links := links + [Up];
      DoStartRead();
    }

    method StartWrite()
      modifies this
      ensures View() == DoWrite(old(View()))
    {
      if stopped || !connected || queue == [] {
        return;
      }
      writing := writing + [queue[0]];
    }

    method Wait(a: Accept) returns (threw: bool)
      modifies this
      ensures (View(), threw) == WaitForConnection(old(View()), a)
      decreases a
    {
      threw := false;
      match a {
        case EventFails => threw := true;
        case Immediate => DoConnect();
        case Pending => accepting := accepting + 1;
        case Error(retry) =>
          DoClosePipe();
          if !stopped {
            DoRestart(retry);
          }
      }
    }

    method DoRestart(r: Recreate)
      modifies this
      ensures View() == Restart(old(View()), r)
      decreases r
    {
      match r {
        case CreateFails =>
        case Created(next) =>
          open := true;
          var threw := Wait(next);
      }
    }

    method HandleErrorCode(disconnect: bool, r: Recreate)
      modifies this
      ensures View() == HandleError(old(View()), disconnect, r)
    {
      if disconnect {
        DoClosePipe();
        if !stopped {
          DoRestart(r);
        }
      } else {
        errors := errors + 1;
      }
    }

    /** `stop`: the flag, which only the first call gets past, and then the close. */
    method StopServer()
      modifies this
      ensures View() == if old(stopped) then old(View()) else Closed(Flagged(old(View())))
    {
      if stopped {
        return;
      }
      stopped := true;
      closing := true;
      DoClosePipe();
      closing := false;
    }

    method StartCheckTimer()
      modifies this
      ensures View() == StartTimer(old(View()))
    {
      if stopped {
        return;
      }
      timing := timing + 1;
    }

    method StartServer(r: Recreate)
      modifies this
      ensures View() == Apply(old(View()), Start(r))
    {
      if stopped {
        return;
      }
      if r.CreateFails? || open {
        StopServer();
        return;
      }
      open := true;
      var threw := Wait(r.next);
      if threw {
        WaitKeepsWriteSide(old(View()).(open := true), r.next);
        StopServer();
      } else {
        StartCheckTimer();
      }
    }

    method WriteMessage(message: string)
      modifies this
      ensures View() == Apply(old(View()), Write(message))
    {
      if stopped || !connected {
        return;
      }
      posts := posts + [message];
      accepted := accepted + [message];
    }

    method OnPost()
      requires posts != []
      modifies this
      ensures View() == Apply(old(View()), PostRun)
    {
      var message := posts[0];
      posts := posts[1..];
      var writeInProgress := queue != [];
      queue := queue + [message];
      posted := posted + [message];
      if !writeInProgress {
        StartWrite();
      }
    }

    method OnAccept(ok: bool, r: Recreate)
      requires accepting > 0
      modifies this
      ensures View() == Apply(old(View()), AcceptDone(ok, r))
    {
      accepting := accepting - 1;
      if !ok || stopped {
        DoClosePipe();
        if !stopped {
          DoRestart(r);
        }
        return;
      }
      DoConnect();
    }

    method OnRead(outcome: ReadOutcome)
      requires reading > 0
      modifies this
      ensures View() == Apply(old(View()), ReadDone(outcome))
    {
      reading := reading - 1;
      match outcome {
        case Got(bytes) =>
          if bytes > 0 {
            messages := messages + 1;
          }
          DoStartRead();
        case ReadFailed(disconnect, r) => HandleErrorCode(disconnect, r);
      }
    }

    method OnWritten(result: WriteOutcome)
      requires writing != [] && queue != []
      modifies this
      ensures View() == Apply(old(View()), WriteDone(result))
    {
      completed := completed + if result.Sent? then [writing[0]] else [];
      writing := writing[1..];
      match result {
        case Sent =>
          queue := queue[1..];
          if queue != [] {
            StartWrite();
          }
        case WriteFailed(disconnect, r) =>
          assert completed == old(completed);
          HandleErrorCode(disconnect, r);
      }
    }

    method OnTimer(expired: bool, alive: bool, r: Recreate)
      requires timing > 0
      modifies this
      ensures View() == Apply(old(View()), TimerDone(expired, alive, r))
    {
      timing := timing - 1;
      if expired && !stopped {
        if connected && !(open && alive) {
          DoClosePipe();
          DoRestart(r);
        }
        StartCheckTimer();
      }
    }
  }
}
