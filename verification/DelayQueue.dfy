/** The delayed list of the task manager (3rdpart/common/src/task/task_manager.cpp): every tick of the
    delayed worker hands out the entries whose delay has run out and ages the others. */
module DelayQueue {

  /** kCheckDelayQueueInterval, in milliseconds. */
  const INTERVAL := 100

  datatype Delayed<T> = Delayed(task: T, delay: int)

  /** The entries one tick hands out, in list order. */
  function Due<T>(list: seq<Delayed<T>>): seq<Delayed<T>> {
    if list == [] then []
    else if list[0].delay <= 0 then [list[0]] + Due(list[1..])
    else Due(list[1..])
  }

  /** The entries one tick leaves, aged, in list order. */
  function Aged<T>(list: seq<Delayed<T>>): seq<Delayed<T>> {
    if list == [] then []
    else if list[0].delay <= 0 then Aged(list[1..])
    else [list[0].(delay := list[0].delay - INTERVAL)] + Aged(list[1..])
  }

  function Occurrences<T(==)>(list: seq<Delayed<T>>, x: Delayed<T>): nat {
    if list == [] then 0
    else Occurrences(list[1..], x) + if list[0] == x then 1 else 0
  }

  /** One tick loses and duplicates nothing: an entry whose delay has run out is handed out as often
      as it was listed, and any other stays as often as it was listed, 100 ms nearer to its time. */
  lemma {:induction false} TickPartitions<T>(list: seq<Delayed<T>>, x: Delayed<T>)
    ensures Occurrences(list, x) == if x.delay <= 0 then Occurrences(Due(list), x)
                                    else Occurrences(Aged(list), x.(delay := x.delay - INTERVAL))
    ensures x.delay > 0 ==> Occurrences(Due(list), x) == 0
  {
    if list == [] {
    } else {
      TickPartitions(list[1..], x);
      if list[0].delay <= 0 {
        assert Due(list)[1..] == Due(list[1..]);
      } else {
        assert Aged(list)[1..] == Aged(list[1..]);
      }
    }
  }

  lemma {:induction false} TickSizes<T>(list: seq<Delayed<T>>)
    ensures |Due(list)| + |Aged(list)| == |list|
  {
    if list == [] {
    } else {
      TickSizes(list[1..]);
    }
  }

  // ---- Runs ----

  /** What happens to the list over time: entries are added between ticks. */
  datatype Op = Add(delay: int) | Tick

  datatype Firing = Firing(task: nat, tick: nat)

  datatype State = State(list: seq<Delayed<nat>>, log: seq<Firing>)

  function Ticks(ops: seq<Op>): nat {
    if ops == [] then 0
    else Ticks(ops[..|ops| - 1]) + if ops[|ops| - 1].Tick? then 1 else 0
  }

  function Firings(list: seq<Delayed<nat>>, tick: nat): seq<Firing> {
    if list == [] then []
    else if list[0].delay <= 0 then [Firing(list[0].task, tick)] + Firings(list[1..], tick)
    else Firings(list[1..], tick)
  }

  /** What fires on a tick is what the tick hands out, in the same order. */
  lemma {:induction false} FiringsAreDue(list: seq<Delayed<nat>>, tick: nat)
    ensures |Firings(list, tick)| == |Due(list)|
    ensures forall i :: 0 <= i < |Due(list)| ==> Firings(list, tick)[i] == Firing(Due(list)[i].task, tick)
  {
    if list == [] {
    } else {
      FiringsAreDue(list[1..], tick);
    }
  }

  /** The list and everything fired after `ops`; an entry is named by the index of its `Add`. */
  function Exec(ops: seq<Op>): State {
    if ops == [] then State([], [])
    else
      var n := |ops| - 1;
      var s := Exec(ops[..n]);
      match ops[n]
      case Add(d) => s.(list := s.list + [Delayed(n, d)])
      case Tick => State(Aged(s.list), s.log + Firings(s.list, Ticks(ops)))
  }

  /** On which tick after being added an entry fires: the first one, or ceil(d / 100) + 1. */
  function FiringTick(d: int): nat {
    if d <= 0 then 1 else (d + 99) / 100 + 1
  }

  /** The delays left in the entries of task `a`. */
  function DelaysOf(list: seq<Delayed<nat>>, a: nat): seq<int> {
    if list == [] then []
    else if list[0].task == a then [list[0].delay] + DelaysOf(list[1..], a)
    else DelaysOf(list[1..], a)
  }

  /** The ticks on which task `a` fired. */
  function TicksOf(log: seq<Firing>, a: nat): seq<nat> {
    if log == [] then []
    else if log[0].task == a then [log[0].tick] + TicksOf(log[1..], a)
    else TicksOf(log[1..], a)
  }

  lemma {:induction false} DelaysOfAppend(l: seq<Delayed<nat>>, x: Delayed<nat>, a: nat)
    ensures DelaysOf(l + [x], a) == if x.task == a then DelaysOf(l, a) + [x.delay] else DelaysOf(l, a)
  {
    if l == [] {
      assert l + [x] == [x];
      assert [x][1..] == [];
    } else {
      DelaysOfAppend(l[1..], x, a);
      assert (l + [x])[1..] == l[1..] + [x];
    }
  }

  lemma {:induction false} TicksOfAppend(l: seq<Firing>, r: seq<Firing>, a: nat)
    ensures TicksOf(l, a) == [] ==> TicksOf(l + r, a) == TicksOf(r, a)
    ensures TicksOf(r, a) == [] ==> TicksOf(l + r, a) == TicksOf(l, a)
  {
    if l == [] {
      assert l + r == r;
    } else {
      TicksOfAppend(l[1..], r, a);
      assert (l + r)[1..] == l[1..] + r;
    }
  }

  /** What a tick does to a task with at most one entry. */
  lemma {:induction false} TickOfOne(list: seq<Delayed<nat>>, a: nat, tick: nat)
    requires |DelaysOf(list, a)| <= 1
    ensures var ds := DelaysOf(list, a);
            && DelaysOf(Aged(list), a) == (if ds != [] && ds[0] > 0 then [ds[0] - INTERVAL] else [])
            && TicksOf(Firings(list, tick), a) == (if ds != [] && ds[0] <= 0 then [tick] else [])
  {
    if list == [] {
    } else {
      TickOfOne(list[1..], a, tick);
      TickOfHead(list, a, tick);
    }
  }

  lemma TickOfHead(list: seq<Delayed<nat>>, a: nat, tick: nat)
    requires list != []
    ensures var h, rest := list[0], list[1..];
            && DelaysOf(Aged(list), a)
               == (if h.task == a && h.delay > 0 then [h.delay - INTERVAL] else []) + DelaysOf(Aged(rest), a)
            && TicksOf(Firings(list, tick), a)
               == (if h.task == a && h.delay <= 0 then [tick] else []) + TicksOf(Firings(rest, tick), a)
  {
    if list[0].delay <= 0 {
      assert Firings(list, tick)[1..] == Firings(list[1..], tick);
    } else {
      assert Aged(list)[1..] == Aged(list[1..]);
    }
  }

  /** Added with delay `d` when `before` ticks had passed: the state of that entry when `now` have. */
  ghost predicate OnSchedule(s: State, a: nat, d: int, before: nat, now: nat) {
    var due := before + FiringTick(d);
    (DelaysOf(s.list, a), TicksOf(s.log, a))
    == if now < due then ([d - 100 * (now - before)], []) else ([], [due])
  }

  /** For every run, every entry fires exactly once and exactly on its tick, and until then it is in
      the list exactly once with the delay that is left. */
  lemma {:induction false} FiresOnItsTick(ops: seq<Op>, a: nat)
    requires a < |ops| && ops[a].Add?
    ensures Ticks(ops[..a]) <= Ticks(ops)
    ensures OnSchedule(Exec(ops), a, ops[a].delay, Ticks(ops[..a]), Ticks(ops))
    decreases |ops|
  {
    var n := |ops| - 1;
    if a == n {
      NotYetAdded(ops[..n], a);
      DelaysOfAppend(Exec(ops[..n]).list, Delayed(n, ops[n].delay), a);
      assert DelaysOf(Exec(ops).list, a) == [ops[n].delay];
    } else {
      FiresOnItsTick(ops[..n], a);
      assert ops[..n][..a] == ops[..a];
      NextOnSchedule(ops, a, ops[a].delay, Ticks(ops[..a]));
    }
  }

  lemma NextOnSchedule(ops: seq<Op>, a: nat, d: int, before: nat)
    requires ops != [] && a != |ops| - 1
    requires var last := ops[..|ops| - 1]; before <= Ticks(last) && OnSchedule(Exec(last), a, d, before, Ticks(last))
    ensures OnSchedule(Exec(ops), a, d, before, Ticks(ops))
  {
    var last := Ticks(ops[..|ops| - 1]);
    OneMore(ops, a);
    if last < before + FiringTick(d) {
      StillPositive(d, last - before);
    }
  }

  lemma StillPositive(d: int, k: nat)
    requires k < FiringTick(d)
    ensures d - INTERVAL * k > 0 <==> k + 1 < FiringTick(d)
  {
  }

  /** What the last operation does to a task with at most one entry or firing. */
  lemma OneMore(ops: seq<Op>, a: nat)
    requires ops != [] && a != |ops| - 1
    requires var s := Exec(ops[..|ops| - 1]); |DelaysOf(s.list, a)| + |TicksOf(s.log, a)| <= 1
    ensures var s, ds := Exec(ops[..|ops| - 1]), DelaysOf(Exec(ops[..|ops| - 1]).list, a);
            if ops[|ops| - 1].Tick? && ds != [] then
              && DelaysOf(Exec(ops).list, a) == (if ds[0] > 0 then [ds[0] - INTERVAL] else [])
              && TicksOf(Exec(ops).log, a) == (if ds[0] > 0 then [] else [Ticks(ops)])
            else
              && DelaysOf(Exec(ops).list, a) == ds
              && TicksOf(Exec(ops).log, a) == TicksOf(s.log, a)
  {
    var n := |ops| - 1;
    var s := Exec(ops[..n]);
    match ops[n] {
      case Add(d) => DelaysOfAppend(s.list, Delayed(n, d), a);
      case Tick =>
        TickOfOne(s.list, a, Ticks(ops));
        TicksOfAppend(s.log, Firings(s.list, Ticks(ops)), a);
    }
  }

  lemma {:induction false} NotYetAdded(ops: seq<Op>, a: nat)
    requires |ops| <= a
    ensures (DelaysOf(Exec(ops).list, a), TicksOf(Exec(ops).log, a)) == ([], [])
    decreases |ops|
  {
    if ops == [] {
    } else {
      NotYetAdded(ops[..|ops| - 1], a);
      OneMore(ops, a);
    }
  }

  // ---- Clock times ----

  /** `at[0]` is when the delayed worker starts and `at[k]` when its k-th tick happens. */
  ghost predicate Spaced(at: seq<int>, gap: int) {
    forall k {:trigger at[k]} :: 0 < k < |at| ==> at[k] - at[k - 1] >= gap
  }

  ghost predicate SpacedExactly(at: seq<int>, gap: int) {
    forall k {:trigger at[k]} :: 0 < k < |at| ==> at[k] - at[k - 1] == gap
  }

  lemma {:induction false} SpacedOver(at: seq<int>, gap: int, i: nat, j: nat)
    requires Spaced(at, gap) && i <= j < |at|
    ensures at[j] - at[i] >= gap * (j - i)
    decreases j - i
  {
    if i < j {
      SpacedOver(at, gap, i, j - 1);
      assert gap * (j - i) == gap * (j - 1 - i) + gap;
    }
  }

  lemma {:induction false} SpacedExactlyOver(at: seq<int>, gap: int, i: nat, j: nat)
    requires SpacedExactly(at, gap) && i <= j < |at|
    ensures at[j] - at[i] == gap * (j - i)
    decreases j - i
  {
    if i < j {
      SpacedExactlyOver(at, gap, i, j - 1);
      assert gap * (j - i) == gap * (j - 1 - i) + gap;
    }
  }

  /** An entry added at time `now`, after `n` ticks, fires on tick `n + FiringTick(d)`: never earlier than its delay
      when ticks are at least 100 ms apart (the sleep may overshoot), even if it was added before the delayed
      worker started. */
  lemma NeverEarly(at: seq<int>, n: nat, now: int, d: int)
    requires n + FiringTick(d) < |at| && now <= at[n + 1] && Spaced(at, 100)
    ensures at[n + FiringTick(d)] - now >= d
  {
    SpacedOver(at, 100, n + 1, n + FiringTick(d));
  }

  /** And less than 200 ms late when they are exactly 100 ms apart and the worker has started. */
  lemma HardlyLate(at: seq<int>, n: nat, now: int, d: int)
    requires n + FiringTick(d) < |at| && at[n] <= now && SpacedExactly(at, 100) && d > 0
    ensures at[n + FiringTick(d)] - now < d + 200
  {
    SpacedExactlyOver(at, 100, n, n + FiringTick(d));
  }
}
