/** Log retention (src/logger_helper/logger_helper.cpp): every change of date makes a directory named after
    the new date and removes the oldest directories beyond the limit. */
module LogRetention {
  import opened Lexicographic

  /** A directory name, as its code units. */
  type Name = seq<int>

  // ---- Names of dates ----

  datatype Date = Date(year: nat, month: nat, day: nat)

  predicate ValidDate(d: Date) {
    d.year < 10000 && d.month < 100 && d.day < 100
  }

  predicate Earlier(a: Date, b: Date) {
    a.year < b.year || (a.year == b.year && (a.month < b.month || (a.month == b.month && a.day < b.day)))
  }

  function Power10(k: nat): nat {
    if k == 0 then 1 else 10 * Power10(k - 1)
  }

  /** `k` decimal digits, padded with zeros. */
  function Digits(n: nat, k: nat): Name {
    if k == 0 then [] else Digits(n / 10, k - 1) + ['0' as int + n % 10]
  }

  const DASH: Name := ['-' as int]

  function DirectoryName(d: Date): Name {
    Digits(d.year, 4) + (DASH + (Digits(d.month, 2) + (DASH + (Digits(d.day, 2) + []))))
  }

  predicate AllDigits(s: Name) {
    forall c :: c in s ==> '0' as int <= c <= '9' as int
  }

  /** The number some digits stand for. */
  function Value(s: Name): nat {
    if s == [] || s[|s| - 1] < '0' as int then 0 else 10 * Value(s[..|s| - 1]) + s[|s| - 1] - '0' as int
  }

  lemma {:induction false} DigitsShape(n: nat, k: nat)
    ensures |Digits(n, k)| == k && AllDigits(Digits(n, k))
    ensures n < Power10(k) ==> Value(Digits(n, k)) == n
  {
    if k == 0 {
    } else {
      DigitsShape(n / 10, k - 1);
      assert Digits(n, k)[..k - 1] == Digits(n / 10, k - 1);
    }
  }

  /** A directory is named YYYY-MM-DD. */
  lemma NameShape(d: Date)
    requires ValidDate(d)
    ensures var name := DirectoryName(d);
            && |name| == 10 && name == name[..4] + DASH + name[5..7] + DASH + name[8..]
            && AllDigits(name[..4] + name[5..7] + name[8..])
            && Date(Value(name[..4]), Value(name[5..7]), Value(name[8..])) == d
  {
    var name := DirectoryName(d);
    assert Power10(2) == 100 && Power10(4) == 10000 by { assert Power10(1) == 10 && Power10(3) == 1000; }
    DigitsShape(d.year, 4);
    DigitsShape(d.month, 2);
    DigitsShape(d.day, 2);
    assert name[..4] == Digits(d.year, 4) && name[5..7] == Digits(d.month, 2) && name[8..] == Digits(d.day, 2);
  }

  lemma {:induction false} DigitsOrdered(a: nat, b: nat, k: nat, s: Name, t: Name)
    requires a < Power10(k) && b < Power10(k)
    ensures Less(Digits(a, k) + s, Digits(b, k) + t) <==> a < b || (a == b && Less(s, t))
  {
    if k == 0 {
      assert Digits(a, 0) + s == s && Digits(b, 0) + t == t;
    } else {
      var x, y := ['0' as int + a % 10], ['0' as int + b % 10];
      assert Digits(a, k) + s == Digits(a / 10, k - 1) + (x + s);
      assert Digits(b, k) + t == Digits(b / 10, k - 1) + (y + t);
      DigitsOrdered(a / 10, b / 10, k - 1, x + s, y + t);
      assert (x + s)[1..] == s && (y + t)[1..] == t;
    }
  }

  lemma DashOrdered(s: Name, t: Name)
    ensures Less(DASH + s, DASH + t) <==> Less(s, t)
  {
    assert (DASH + s)[1..] == s && (DASH + t)[1..] == t;
  }

  /** Sorting zero-padded names sorts dates. */
  lemma NamesAreChronological(a: Date, b: Date)
    requires ValidDate(a) && ValidDate(b)
    ensures Less(DirectoryName(a), DirectoryName(b)) <==> Earlier(a, b)
  {
    assert Power10(2) == 100 && Power10(4) == 10000 by { assert Power10(1) == 10 && Power10(3) == 1000; }
    var endA, endB := Digits(a.day, 2) + [], Digits(b.day, 2) + [];
    var midA, midB := Digits(a.month, 2) + (DASH + endA), Digits(b.month, 2) + (DASH + endB);
    DigitsOrdered(a.year, b.year, 4, DASH + midA, DASH + midB);
    DashOrdered(midA, midB);
    DigitsOrdered(a.month, b.month, 2, DASH + endA, DASH + endB);
    DashOrdered(endA, endB);
    DigitsOrdered(a.day, b.day, 2, [], []);
  }

  // ---- The greatest names ----

  /** `kept` are the `k` greatest of `all`, or all of them when there are no more. */
  ghost predicate Greatest(kept: set<Name>, all: set<Name>, k: nat) {
    && kept <= all
    && |kept| == (if |all| <= k then |all| else k)
    && forall x, y :: x in all - kept && y in kept ==> Less(x, y)
  }

  lemma SubsetSize(a: set<Name>, b: set<Name>)
    requires a <= b
    ensures |a| <= |b|
    ensures |a| == |b| ==> a == b
  {
    assert b == a + (b - a);
  }

  /** There is only one such set. */
  lemma GreatestUnique(a: set<Name>, b: set<Name>, all: set<Name>, k: nat)
    requires Greatest(a, all, k) && Greatest(b, all, k)
    ensures a == b
  {
    if a != b {
      if a <= b {
        SubsetSize(a, b);
      } else {
        var x :| x in a && x !in b;
        if b <= a {
          SubsetSize(b, a);
        } else {
          var y :| y in b && y !in a;
          Transitive(x, y, x);
          Irreflexive(x);
        }
      }
    }
  }

  /** Keeping the greatest of what was kept and a newcomer is keeping the greatest of everything. */
  lemma GreatestOfKept(t: set<Name>, all: set<Name>, x: Name, r: set<Name>, k: nat)
    requires Greatest(t, all, k) && Greatest(r, t + {x}, k)
    ensures Greatest(r, all + {x}, k)
  {
    if |all| <= k {
      SubsetSize(t, all);
    } else {
      SubsetSize(t, t + {x});
      SubsetSize(all, all + {x});
      forall y, z | y in all + {x} - r && z in r ensures Less(y, z) {
        if y !in t + {x} && z !in t {
          var w := LostToNewcomer(t, x, r, k);
          assert Less(y, w) && Less(w, x);
          Transitive(y, w, x);
        }
      }
    }
  }

  lemma LostToNewcomer(t: set<Name>, x: Name, r: set<Name>, k: nat) returns (w: Name)
    requires |t| == k && |r| == k && r <= t + {x} && x in r && x !in t
    ensures w in t && w !in r
  {
    SubsetSize(r, t + {x});
    assert |t + {x}| == k + 1;
    assert r != t + {x};
    w :| w in t + {x} && w !in r;
  }

  /** A name no smaller than any other is kept. */
  lemma NewestKept(kept: set<Name>, all: set<Name>, x: Name, k: nat)
    requires Greatest(kept, all, k) && k >= 1 && x in all
    requires forall y :: y in all ==> !Less(x, y)
    ensures x in kept
  {
    assert {x} <= all;
    SubsetSize({x}, all);
    var y :| y in kept;
    assert !Less(x, y);
  }

  function NewerThan(x: Name, all: set<Name>): (r: set<Name>)
    ensures forall y :: y in r <==> y in all && Less(x, y)
  {
    set y | y in all && Less(x, y)
  }

  /** A name is kept exactly when fewer than `k` are greater. */
  lemma KeptExactly(kept: set<Name>, all: set<Name>, x: Name, k: nat)
    requires Greatest(kept, all, k) && x in all
    ensures x in kept <==> |NewerThan(x, all)| < k
  {
    if x in kept {
      forall y | y in NewerThan(x, all) ensures y in kept - {x} {
        Irreflexive(x);
        if y !in kept {
          Transitive(x, y, x);
        }
      }
      SubsetSize(NewerThan(x, all), kept - {x});
    } else {
      SubsetSize(kept, all);
      assert kept <= NewerThan(x, all);
      SubsetSize(kept, NewerThan(x, all));
    }
  }

  // ---- Sorting the listing ----

  predicate Sorted(names: seq<Name>) {
    forall i, j :: 0 <= i < j < |names| ==> Less(names[i], names[j])
  }

  function InsertName(names: seq<Name>, x: Name): seq<Name> {
    if names == [] then [x]
    else if Less(x, names[0]) then [x] + names
    else [names[0]] + InsertName(names[1..], x)
  }

  lemma {:induction false} InsertNameSorted(names: seq<Name>, x: Name)
    requires Sorted(names) && x !in names
    ensures Sorted(InsertName(names, x))
    ensures |InsertName(names, x)| == |names| + 1
    ensures forall y :: y in InsertName(names, x) <==> y == x || y in names
  {
    if names == [] {
    } else {
      var rest := names[1..];
      assert names == [names[0]] + rest;
      if Less(x, names[0]) {
        forall j | 0 <= j < |names| ensures Less(x, names[j]) {
          if j > 0 {
            Transitive(x, names[0], names[j]);
          }
        }
      } else {
        Total(x, names[0]);
        InsertNameSorted(rest, x);
        var after := InsertName(rest, x);
        forall j | 0 <= j < |after| ensures Less(names[0], after[j]) {
          assert after[j] in after;
        }
      }
    }
  }

  /** The directory listing, in whatever order the iterator has, sorted by name. */
  method SortedListing(dirs: set<Name>) returns (names: seq<Name>)
    ensures Sorted(names) && |names| == |dirs|
    ensures forall x :: x in names <==> x in dirs
  {
    names := [];
    var left := dirs;
    while left != {}
      invariant left <= dirs && Sorted(names) && |names| + |left| == |dirs|
      invariant forall x :: x in names <==> x in dirs - left
      decreases left
    {
      var x :| x in left;
      InsertNameSorted(names, x);
      names := InsertName(names, x);
      left := left - {x};
    }
  }

  lemma SortedDistinct(names: seq<Name>, i: nat, j: nat)
    requires Sorted(names) && i < j < |names|
    ensures names[i] != names[j]
  {
    Irreflexive(names[i]);
  }

  /** Removing the first `i` names of the sorted listing leaves the greatest. */
  lemma TailIsGreatest(all: set<Name>, names: seq<Name>, i: nat, kept: set<Name>)
    requires Sorted(names) && i <= |names|
    requires forall x :: x in names <==> x in all
    requires forall x :: x in kept <==> x in all && x !in names[..i]
    ensures forall x, y :: x in all - kept && y in kept ==> Less(x, y)
  {
    forall x, y | x in all - kept && y in kept ensures Less(x, y) {
      var j :| 0 <= j < i && names[j] == x;
      var m :| 0 <= m < |names| && names[m] == y;
      assert forall l :: 0 <= l < i ==> names[l] == names[..i][l];
      assert m >= i;
    }
  }

  // ---- The logger ----

  class LoggerHelper {
    var dirs: set<Name>
    var currentDate: Name
    var maxDaysToKeep: int

    constructor (dirs: set<Name>)
      ensures this.dirs == dirs
    {
      this.dirs, currentDate, maxDaysToKeep := dirs, [], 7;
    }

    /** Deletes the oldest directories; a negative limit, cast to an unsigned number, deletes nothing. */
    method CleanOldLogs()
      modifies this`dirs
      ensures maxDaysToKeep < 0 ==> dirs == old(dirs)
      ensures maxDaysToKeep >= 0 ==> Greatest(dirs, old(dirs), maxDaysToKeep)
    {
      if maxDaysToKeep < 0 || |dirs| <= maxDaysToKeep {
        return;
      }
      var dateDirs := SortedListing(dirs);
      var dirsToDelete := |dateDirs| - maxDaysToKeep;
      var i := 0;
      while i < dirsToDelete
        invariant 0 <= i <= dirsToDelete
        invariant |dirs| == |old(dirs)| - i
        invariant forall x :: x in dirs <==> x in old(dirs) && x !in dateDirs[..i]
      {
        assert dateDirs[i] in dateDirs;
        forall j | 0 <= j < i ensures dateDirs[j] != dateDirs[i] {
          SortedDistinct(dateDirs, j, i);
        }
        dirs := dirs - {dateDirs[i]};
        i := i + 1;
      }
      TailIsGreatest(old(dirs), dateDirs, i, dirs);
    }

    method ConfigureLogger(today: Name)
      modifies this`dirs, this`currentDate
      ensures currentDate == today && dirs == old(dirs) + {today}
    {
      currentDate := today;
      dirs := dirs + {today};
    }

    method Initialize(maxDays: int, today: Name)
      modifies this
      ensures maxDaysToKeep == maxDays && currentDate == today
      ensures maxDays >= 0 ==> Greatest(dirs, old(dirs) + {today}, maxDays)
    {
      maxDaysToKeep := maxDays;
      ConfigureLogger(today);
      CleanOldLogs();
    }

    /** The clock is read twice: to notice a new date, and again when configuring. */
    method Dispatch(now: Name, again: Name)
      modifies this`dirs, this`currentDate
      ensures now == old(currentDate) ==> currentDate == old(currentDate) && dirs == old(dirs)
      ensures now != old(currentDate) ==> currentDate == again
      ensures now != old(currentDate) && maxDaysToKeep >= 0 ==> Greatest(dirs, old(dirs) + {again}, maxDaysToKeep)
    {
      if now != currentDate {
        currentDate := now;
        ConfigureLogger(again);
        CleanOldLogs();
      }
    }
  }

  // ---- Whole runs ----

  function SetOf(names: seq<Name>): set<Name> {
    set x | x in names
  }

  /** No date in the list is before an earlier one or before a directory that was there. */
  predicate NotBefore(dirs: set<Name>, dates: seq<Name>) {
    && (forall i, x :: 0 <= i < |dates| && x in dirs ==> !Less(dates[i], x))
    && (forall i, j :: 0 <= i < j < |dates| ==> !Less(dates[j], dates[i]))
  }

  /** A directory for the date, then cleaning. */
  ghost predicate Rotation(before: set<Name>, date: Name, after: set<Name>, k: nat) {
    Greatest(after, before + {date}, k)
  }

  /** `states[i]` are the directories after the `i`-th rotation, `states[0]` those found at the start. */
  ghost predicate IsRun(states: seq<set<Name>>, dates: seq<Name>, k: nat) {
    && |states| == |dates| + 1
    && forall i :: 0 <= i < |dates| ==> Rotation(states[i], dates[i], states[i + 1], k)
  }

  lemma LatestIsNewest(dirs: set<Name>, dates: seq<Name>)
    requires dates != [] && NotBefore(dirs, dates)
    ensures dates[|dates| - 1] in dirs + SetOf(dates)
    ensures forall y :: y in dirs + SetOf(dates) ==> !Less(dates[|dates| - 1], y)
  {
    Irreflexive(dates[|dates| - 1]);
  }

  lemma OneMoreRotation(found: set<Name>, dates: seq<Name>, before: set<Name>, after: set<Name>, k: nat)
    requires dates != [] && Greatest(before, found + SetOf(dates[..|dates| - 1]), k)
    requires Rotation(before, dates[|dates| - 1], after, k)
    ensures Greatest(after, found + SetOf(dates), k)
  {
    var n := |dates| - 1;
    assert dates == dates[..n] + [dates[n]];
    assert found + SetOf(dates) == (found + SetOf(dates[..n])) + {dates[n]};
    GreatestOfKept(before, found + SetOf(dates[..|dates| - 1]), dates[|dates| - 1], after, k);
  }

  lemma RunExtends(states: seq<set<Name>>, dates: seq<Name>, date: Name, after: set<Name>, k: nat)
    requires IsRun(states, dates, k) && Rotation(states[|dates|], date, after, k)
    ensures IsRun(states + [after], dates + [date], k)
  {
  }

  /** After initialisation and any number of rotations the directories are the `k` greatest names there
      have ever been; this needs no assumption on the clock. */
  lemma {:induction false} GreatestOverRuns(states: seq<set<Name>>, dates: seq<Name>, k: nat)
    requires dates != [] && IsRun(states, dates, k)
    ensures Greatest(states[|dates|], states[0] + SetOf(dates), k)
  {
    var n := |dates| - 1;
    assert IsRun(states[..|dates|], dates[..n], k) && Rotation(states[n], dates[n], states[n + 1], k);
    if n == 0 {
      assert SetOf(dates) == {dates[0]};
    } else {
      GreatestOverRuns(states[..|dates|], dates[..n], k);
      OneMoreRotation(states[0], dates, states[n], states[n + 1], k);
    }
  }

  /** Whatever the clock does, the current date's directory is among them exactly when fewer than `k` of all the
      names there have been are later dates. */
  lemma CurrentKeptExactly(states: seq<set<Name>>, dates: seq<Name>, k: nat)
    requires dates != [] && IsRun(states, dates, k)
    ensures var current, all := dates[|dates| - 1], states[0] + SetOf(dates);
            current in states[|dates|] <==> |NewerThan(current, all)| < k
  {
    GreatestOverRuns(states, dates, k);
    KeptExactly(states[|dates|], states[0] + SetOf(dates), dates[|dates| - 1], k);
  }

  /** And when the clock does not run backwards, the current date's directory is among them. */
  lemma RetentionOverRuns(states: seq<set<Name>>, dates: seq<Name>, k: nat)
    requires k >= 1 && dates != [] && IsRun(states, dates, k) && NotBefore(states[0], dates)
    ensures var last := states[|dates|];
            && |last| <= k
            && Greatest(last, states[0] + SetOf(dates), k)
            && dates[|dates| - 1] in last
  {
    GreatestOverRuns(states, dates, k);
    LatestIsNewest(states[0], dates);
    NewestKept(states[|dates|], states[0] + SetOf(dates), dates[|dates| - 1], k);
  }

  /** The dates configured, given the date at the start and, for every line logged since, the two readings
      of the clock a rotation would use: a rotation happens when the first differs from the date configured last. */
  function Rotations(start: Name, lines: seq<(Name, Name)>): (r: seq<Name>)
    ensures r != []
  {
    if lines == [] then [start]
    else
      var before, line := Rotations(start, lines[..|lines| - 1]), lines[|lines| - 1];
      if line.0 == before[|before| - 1] then before else before + [line.1]
  }

  /** The same for the object: a program that initialises the logger and logs line after line. */
  method RunLogger(existing: set<Name>, start: Name, lines: seq<(Name, Name)>, k: nat)
    returns (logger: LoggerHelper, ghost states: seq<set<Name>>)
    ensures var dates := Rotations(start, lines);
            && IsRun(states, dates, k) && states[0] == existing && logger.dirs == states[|dates|]
            && logger.currentDate == dates[|dates| - 1]
            && (k >= 1 && NotBefore(existing, dates) ==>
                  |logger.dirs| <= k && logger.currentDate in logger.dirs
                  && Greatest(logger.dirs, existing + SetOf(dates), k))
  {
    logger := new LoggerHelper(existing);
    logger.Initialize(k, start);
    assert Rotation(existing, start, logger.dirs, k);
    states := [existing, logger.dirs];
    ghost var dates := [start];
    for i := 0 to |lines|
      invariant fresh(logger) && logger.maxDaysToKeep == k && dates == Rotations(start, lines[..i])
      invariant logger.currentDate == dates[|dates| - 1]
      invariant IsRun(states, dates, k) && states[0] == existing && logger.dirs == states[|dates|]
    {
      assert lines[..i + 1][..i] == lines[..i];
      if lines[i].0 != logger.currentDate {
        logger.Dispatch(lines[i].0, lines[i].1);
        RunExtends(states, dates, lines[i].1, logger.dirs, k);
        states, dates := states + [logger.dirs], dates + [lines[i].1];
      } else {
        logger.Dispatch(lines[i].0, lines[i].1);
      }
    }
    assert lines[..|lines|] == lines;
    if k >= 1 && NotBefore(existing, dates) {
      RetentionOverRuns(states, dates, k);
    }
  }
}
