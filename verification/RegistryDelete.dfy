/** What recursive deletion removes, and when it fails
    (3rdpart/systemkit/src/windows/registry_manager_windows.cpp:418-458). */
module RegistryDelete {
  import opened Options
  import opened RegistryTree

  // ---- What deletion computes when it ends ----

  /** What is left of a key, and the code returned. */
  function Delete(k: Key): (Option<Key>, int)
    decreases k, 1
  {
    if k.open != ERROR_SUCCESS then (Some(k), k.open)
    else
      var (rest, code) := DeleteAll(k.children);
      if code != ERROR_SUCCESS then (Some(k.(children := rest)), code)
      else if k.remove != ERROR_SUCCESS then (Some(k.(children := [])), k.remove)
      else (None, ERROR_SUCCESS)
  }

  function DeleteAll(ks: seq<Key>): (seq<Key>, int)
    decreases ks, 0
  {
    if ks == [] then ([], ERROR_SUCCESS)
    else
      var (rest, code) := Delete(ks[0]);
      if code != ERROR_SUCCESS then (Listed(rest) + ks[1..], code) else DeleteAll(ks[1..])
  }

  lemma {:induction false} DeleteCodes(k: Key)
    ensures Delete(k).0.None? <==> Delete(k).1 == ERROR_SUCCESS
    ensures Delete(k).0.Some? ==> Delete(k).0.value.name == k.name
    decreases k, 1
  {
    DeleteAllCodes(k.children);
  }

  lemma {:induction false} DeleteAllCodes(ks: seq<Key>)
    ensures DeleteAll(ks).1 == ERROR_SUCCESS ==> DeleteAll(ks).0 == []
    decreases ks, 0
  {
    if ks == [] {
    } else {
      DeleteCodes(ks[0]);
      DeleteAllCodes(ks[1..]);
    }
  }

  // ---- The keys of a tree ----

  /** The paths of `k`, which stands at `at`, and of everything below it. */
  function Paths(k: Key, at: Path): set<Path>
    decreases k, 1
  {
    {at} + PathsAll(k.children, at)
  }

  function PathsAll(ks: seq<Key>, at: Path): set<Path>
    decreases ks, 0
  {
    if ks == [] then {} else Paths(ks[0], at + [ks[0].name]) + PathsAll(ks[1..], at)
  }

  /** No two children of a key have the same name. */
  predicate Unique(k: Key)
    decreases k, 1
  {
    UniqueAll(k.children)
  }

  predicate UniqueAll(ks: seq<Key>)
    decreases ks, 0
  {
    ks == [] || (Unique(ks[0]) && Index(ks[1..], ks[0].name) == |ks| - 1 && UniqueAll(ks[1..]))
  }

  /** Every path of a tree extends the path of its top key. */
  lemma {:induction false} PathsBelow(k: Key, at: Path, q: Path)
    requires q in Paths(k, at)
    ensures at <= q
    decreases k, 1
  {
    if q != at {
      PathsAllBelow(k.children, at, q);
    }
  }

  lemma {:induction false} PathsAllBelow(ks: seq<Key>, at: Path, q: Path)
    requires q in PathsAll(ks, at)
    ensures at < q
    ensures exists i :: 0 <= i < |ks| && ks[i].name == q[|at|]
    decreases ks, 0
  {
    if q in Paths(ks[0], at + [ks[0].name]) {
      PathsBelow(ks[0], at + [ks[0].name], q);
      assert (at + [ks[0].name])[|at|] == q[|at|];
    } else {
      PathsAllBelow(ks[1..], at, q);
      var i :| 0 <= i < |ks[1..]| && ks[1..][i].name == q[|at|];
      assert ks[i + 1].name == q[|at|];
    }
  }

  lemma SiblingsDisjoint(ks: seq<Key>, at: Path)
    requires ks != [] && UniqueAll(ks)
    ensures Paths(ks[0], at + [ks[0].name]) !! PathsAll(ks[1..], at)
  {
    forall q | q in Paths(ks[0], at + [ks[0].name]) && q in PathsAll(ks[1..], at) ensures false {
      PathsBelow(ks[0], at + [ks[0].name], q);
      PathsAllBelow(ks[1..], at, q);
    }
  }

  /** The paths of a tree are closed under parents, down to its top key. */
  lemma {:induction false} ParentClosed(k: Key, at: Path, p: Path, q: Path)
    requires q in Paths(k, at) && at <= p <= q
    ensures p in Paths(k, at)
    decreases k, 1
  {
    if p != at {
      ParentClosedAll(k.children, at, p, q);
    }
  }

  lemma {:induction false} ParentClosedAll(ks: seq<Key>, at: Path, p: Path, q: Path)
    requires q in PathsAll(ks, at) && at < p <= q
    ensures p in PathsAll(ks, at)
    decreases ks, 0
  {
    var child := at + [ks[0].name];
    if q in Paths(ks[0], child) {
      PathsBelow(ks[0], child, q);
      assert child == q[..|at| + 1] == p[..|at| + 1];
      ParentClosed(ks[0], child, p, q);
    } else {
      ParentClosedAll(ks[1..], at, p, q);
    }
  }

  // ---- The order of events ----

  datatype Event = Open(path: Path, status: int) | Remove(path: Path, status: int)

  /** Everything the deletion of an unprotected tree does, in order: a key is opened before and removed
      after its children, and the children go one after the other. */
  function Trace(k: Key, at: Path): seq<Event>
    decreases k, 1
  {
    [Open(at, k.open)] + TraceAll(k.children, at) + [Remove(at, k.remove)]
  }

  function TraceAll(ks: seq<Key>, at: Path): seq<Event>
    decreases ks, 0
  {
    if ks == [] then [] else Trace(ks[0], at + [ks[0].name]) + TraceAll(ks[1..], at)
  }

  /** The status of the first event that fails, or success. */
  function FirstFailure(t: seq<Event>): int {
    if t == [] then ERROR_SUCCESS
    else if t[0].status != ERROR_SUCCESS then t[0].status
    else FirstFailure(t[1..])
  }

  /** The keys removed by the events before the first failure. */
  function RemovedUntilFailure(t: seq<Event>): set<Path> {
    if t == [] || t[0].status != ERROR_SUCCESS then {}
    else (if t[0].Remove? then {t[0].path} else {}) + RemovedUntilFailure(t[1..])
  }

  lemma {:induction false} InSequence(a: seq<Event>, b: seq<Event>)
    ensures FirstFailure(a + b) == if FirstFailure(a) != ERROR_SUCCESS then FirstFailure(a) else FirstFailure(b)
    ensures RemovedUntilFailure(a + b)
            == if FirstFailure(a) != ERROR_SUCCESS then RemovedUntilFailure(a)
               else RemovedUntilFailure(a) + RemovedUntilFailure(b)
  {
    if a == [] {
      assert a + b == b;
    } else {
      assert (a + b)[1..] == a[1..] + b;
      InSequence(a[1..], b);
    }
  }

  /** The events that happen: up to the first failure, which is the last. */
  function UpToFailure(t: seq<Event>): (r: seq<Event>)
    ensures |r| <= |t|
  {
    if t == [] then []
    else if t[0].status != ERROR_SUCCESS then [t[0]]
    else [t[0]] + UpToFailure(t[1..])
  }

  lemma {:induction false} HappensInSequence(a: seq<Event>, b: seq<Event>)
    ensures UpToFailure(a + b) == if FirstFailure(a) != ERROR_SUCCESS then UpToFailure(a) else a + UpToFailure(b)
    ensures FirstFailure(a) == ERROR_SUCCESS ==> UpToFailure(a) == a
  {
    if a == [] {
      assert a + b == b;
    } else {
      assert (a + b)[1..] == a[1..] + b;
      HappensInSequence(a[1..], b);
    }
  }

  /** What one event takes from the keys. */
  function Gone(e: Event): set<Path> {
    if e.Remove? && e.status == ERROR_SUCCESS then {e.path} else {}
  }

  /** The keys left after each of the events. */
  function Lefts(start: set<Path>, events: seq<Event>): (r: seq<set<Path>>)
    ensures |r| == |events|
  {
    if events == [] then []
    else [start - Gone(events[0])] + Lefts(start - Gone(events[0]), events[1..])
  }

  /** And after all of them. */
  function Left(start: set<Path>, events: seq<Event>): set<Path> {
    if events == [] then start else Left(start - Gone(events[0]), events[1..])
  }

  lemma {:induction false} LeftInSequence(start: set<Path>, a: seq<Event>, b: seq<Event>)
    ensures Left(start, a + b) == Left(Left(start, a), b)
    ensures Lefts(start, a + b) == Lefts(start, a) + Lefts(Left(start, a), b)
  {
    if a == [] {
      assert a + b == b;
    } else {
      assert (a + b)[1..] == a[1..] + b;
      LeftInSequence(start - Gone(a[0]), a[1..], b);
    }
  }

  /** After each event that happens, what is left is what was there without what has been removed so far. */
  lemma {:induction false} LeftsExact(start: set<Path>, t: seq<Event>, i: nat)
    requires i < |UpToFailure(t)|
    ensures i < |t| && UpToFailure(t)[i] == t[i]
    ensures Lefts(start, UpToFailure(t))[i] == start - RemovedUntilFailure(t[..i + 1])
  {
    var first := t[..i + 1];
    assert first[1..] == t[1..][..i];
    if i == 0 {
      assert RemovedUntilFailure(first) == Gone(t[0]);
    } else {
      LeftsExact(start - Gone(t[0]), t[1..], i - 1);
      assert UpToFailure(t)[1..] == UpToFailure(t[1..]);
      assert RemovedUntilFailure(first) == Gone(t[0]) + RemovedUntilFailure(t[1..][..i]);
    }
  }

  /** The events of one key in terms of those of its children. */
  lemma TraceOfKey(k: Key, at: Path)
    ensures var below, t := TraceAll(k.children, at), Trace(k, at);
            && FirstFailure(t) == (if k.open != ERROR_SUCCESS then k.open
                                   else if FirstFailure(below) != ERROR_SUCCESS then FirstFailure(below)
                                   else k.remove)
            && RemovedUntilFailure(t)
               == (if k.open != ERROR_SUCCESS then {}
                   else if FirstFailure(below) != ERROR_SUCCESS || k.remove != ERROR_SUCCESS
                   then RemovedUntilFailure(below)
                   else RemovedUntilFailure(below) + {at})
  {
    var below := TraceAll(k.children, at);
    var last := [Remove(at, k.remove)];
    InSequence(below, last);
    assert last[1..] == [];
    assert Trace(k, at) == [Open(at, k.open)] + (below + last);
    assert Trace(k, at)[1..] == below + last;
    assert RemovedUntilFailure(last) == if k.remove != ERROR_SUCCESS then {} else {at};
  }

  lemma {:induction false} RemovedFromTree(k: Key, at: Path)
    ensures RemovedUntilFailure(Trace(k, at)) <= Paths(k, at)
    decreases k, 1
  {
    TraceOfKey(k, at);
    RemovedFromTrees(k.children, at);
  }

  lemma {:induction false} RemovedFromTrees(ks: seq<Key>, at: Path)
    ensures RemovedUntilFailure(TraceAll(ks, at)) <= PathsAll(ks, at)
    decreases ks, 0
  {
    if ks == [] {
    } else {
      RemovedFromTree(ks[0], at + [ks[0].name]);
      RemovedFromTrees(ks[1..], at);
      InSequence(Trace(ks[0], at + [ks[0].name]), TraceAll(ks[1..], at));
    }
  }

  // ---- What deletion does ----

  function PathsLeft(rest: Option<Key>, at: Path): set<Path> {
    if rest.Some? then Paths(rest.value, at) else {}
  }

  /** Deletion returns the status of the first event that fails, in traversal order. */
  lemma {:induction false} DeleteCode(k: Key, at: Path)
    ensures Delete(k).1 == FirstFailure(Trace(k, at))
    decreases k, 1
  {
    TraceOfKey(k, at);
    DeleteAllCode(k.children, at);
  }

  lemma {:induction false} DeleteAllCode(ks: seq<Key>, at: Path)
    ensures DeleteAll(ks).1 == FirstFailure(TraceAll(ks, at))
    decreases ks, 0
  {
    if ks == [] {
    } else {
      var child := at + [ks[0].name];
      DeleteCode(ks[0], child);
      DeleteAllCode(ks[1..], at);
      InSequence(Trace(ks[0], child), TraceAll(ks[1..], at));
    }
  }

  /** And it removes exactly the keys whose removal comes before it. */
  lemma {:induction false} DeleteExact(k: Key, at: Path)
    requires Unique(k)
    ensures Delete(k).1 == FirstFailure(Trace(k, at))
    ensures PathsLeft(Delete(k).0, at) == Paths(k, at) - RemovedUntilFailure(Trace(k, at))
    decreases k, 1
  {
    TraceOfKey(k, at);
    if k.open == ERROR_SUCCESS {
      DeleteAllExact(k.children, at);
      DeleteAllCodes(k.children);
      RemovedFromTrees(k.children, at);
      NotAmongChildren(k.children, at);
    }
  }

  lemma NotAmongChildren(ks: seq<Key>, at: Path)
    ensures at !in PathsAll(ks, at)
  {
    if at in PathsAll(ks, at) {
      PathsAllBelow(ks, at, at);
    }
  }

  lemma {:induction false} DeleteAllExact(ks: seq<Key>, at: Path)
    requires UniqueAll(ks)
    ensures DeleteAll(ks).1 == FirstFailure(TraceAll(ks, at))
    ensures PathsAll(DeleteAll(ks).0, at) == PathsAll(ks, at) - RemovedUntilFailure(TraceAll(ks, at))
    decreases ks, 0
  {
    if ks == [] {
    } else {
      var child := at + [ks[0].name];
      DeleteExact(ks[0], child);
      DeleteCodes(ks[0]);
      InSequence(Trace(ks[0], child), TraceAll(ks[1..], at));
      if Delete(ks[0]).1 == ERROR_SUCCESS {
        DeleteAllExact(ks[1..], at);
        RemovedFromTrees(ks[1..], at);
      }
      RemovedFromTree(ks[0], child);
      SiblingsDisjoint(ks, at);
      var (rest, code) := Delete(ks[0]);
      if code != ERROR_SUCCESS {
        assert (Listed(rest) + ks[1..])[1..] == ks[1..];
      }
    }
  }

  predicate NoneDenied(k: Key)
    decreases k, 1
  {
    k.open == ERROR_SUCCESS && k.remove == ERROR_SUCCESS && NoneDeniedAll(k.children)
  }

  predicate NoneDeniedAll(ks: seq<Key>)
    decreases ks, 0
  {
    ks == [] || (NoneDenied(ks[0]) && NoneDeniedAll(ks[1..]))
  }

  /** Deletion succeeds exactly when no key of the subtree is denied, and then the subtree is gone. */
  lemma {:induction false} DeleteSucceedsExactly(k: Key)
    ensures Delete(k).1 == ERROR_SUCCESS <==> NoneDenied(k)
    ensures NoneDenied(k) ==> Delete(k).0 == None
    decreases k, 1
  {
    DeleteAllSucceedsExactly(k.children);
  }

  lemma {:induction false} DeleteAllSucceedsExactly(ks: seq<Key>)
    ensures DeleteAll(ks).1 == ERROR_SUCCESS <==> NoneDeniedAll(ks)
    decreases ks, 0
  {
    if ks == [] {
    } else {
      DeleteSucceedsExactly(ks[0]);
      DeleteAllSucceedsExactly(ks[1..]);
    }
  }

  // ---- The order of removals ----

  lemma RemovedSoFar(t: seq<Event>, n: nat)
    requires n <= |t|
    ensures RemovedUntilFailure(t[..n]) <= RemovedUntilFailure(t)
  {
    InSequence(t[..n], t[n..]);
    assert t == t[..n] + t[n..];
  }

  /** A deletion that goes through removes every key. */
  lemma AllRemoved(k: Key, at: Path)
    requires Unique(k) && FirstFailure(Trace(k, at)) == ERROR_SUCCESS
    ensures RemovedUntilFailure(Trace(k, at)) == Paths(k, at)
  {
    DeleteExact(k, at);
    DeleteCodes(k);
    RemovedFromTree(k, at);
  }

  /** What is removed before the last event of a key is removed among its children. */
  lemma BeforeTheLast(k: Key, at: Path, n: nat)
    requires 0 < n <= |TraceAll(k.children, at)| + 1
    ensures n < |Trace(k, at)|
    ensures RemovedUntilFailure(Trace(k, at)[..n])
            == if k.open != ERROR_SUCCESS then {} else RemovedUntilFailure(TraceAll(k.children, at)[..n - 1])
  {
    var below := TraceAll(k.children, at);
    assert Trace(k, at)[..n] == [Open(at, k.open)] + below[..n - 1];
    assert ([Open(at, k.open)] + below[..n - 1])[1..] == below[..n - 1];
  }

  /** The last event removes the key itself, after everything below it. */
  lemma TheLast(k: Key, at: Path)
    requires Unique(k)
    ensures var t, below := Trace(k, at), TraceAll(k.children, at);
            && t[..|t|] == t && below[..|below|] == below
            && (RemovedUntilFailure(t) == Paths(k, at)
                || (k.open != ERROR_SUCCESS && RemovedUntilFailure(t) == {})
                || (k.open == ERROR_SUCCESS && RemovedUntilFailure(t) == RemovedUntilFailure(below)))
  {
    TraceOfKey(k, at);
    if FirstFailure(Trace(k, at)) == ERROR_SUCCESS {
      AllRemoved(k, at);
    }
  }

  /** At every moment of a deletion, finished or not, failing or not: a key that has been removed had its whole
      subtree removed before, so that the keys left are closed under parents. */
  lemma {:induction false} RemovedBottomUp(k: Key, at: Path, n: nat, p: Path, q: Path)
    requires Unique(k) && n <= |Trace(k, at)|
    requires p in RemovedUntilFailure(Trace(k, at)[..n]) && q in Paths(k, at) && p <= q
    ensures q in RemovedUntilFailure(Trace(k, at)[..n])
    decreases k, 1
  {
    var below := TraceAll(k.children, at);
    assert n > 0;
    var m := if n <= |below| + 1 then n - 1 else |below|;
    if n <= |below| + 1 {
      BeforeTheLast(k, at, n);
    } else {
      TheLast(k, at);
    }
    if q !in RemovedUntilFailure(Trace(k, at)[..n]) {
      assert p in RemovedUntilFailure(below[..m]);
      AmongChildren(k, at, m, p);
      RemovedBottomUpAll(k.children, at, m, p, q);
    }
  }

  lemma AmongChildren(k: Key, at: Path, m: nat, p: Path)
    requires m <= |TraceAll(k.children, at)| && p in RemovedUntilFailure(TraceAll(k.children, at)[..m])
    ensures at < p
  {
    RemovedSoFar(TraceAll(k.children, at), m);
    RemovedFromTrees(k.children, at);
    PathsAllBelow(k.children, at, p);
  }

  lemma {:induction false} RemovedBottomUpAll(ks: seq<Key>, at: Path, m: nat, p: Path, q: Path)
    requires UniqueAll(ks) && m <= |TraceAll(ks, at)|
    requires p in RemovedUntilFailure(TraceAll(ks, at)[..m]) && q in PathsAll(ks, at) && p <= q
    ensures q in RemovedUntilFailure(TraceAll(ks, at)[..m])
    decreases ks, 0
  {
    var child := at + [ks[0].name];
    var head := Trace(ks[0], child);
    var h := if m <= |head| then m else |head|;
    UpToSibling(ks, at, m);
    if p in RemovedUntilFailure(head[..h]) {
      InTheHead(ks, at, h, p, q);
      RemovedBottomUp(ks[0], child, h, p, q);
    } else if q !in Paths(ks[0], child) {
      RemovedBottomUpAll(ks[1..], at, m - |head|, p, q);
    } else {
      AllRemoved(ks[0], child);
      assert head[..|head|] == head;
    }
  }

  /** A part of the deletion of several keys is part of that of the first, or all of it and part of the others'. */
  lemma UpToSibling(ks: seq<Key>, at: Path, m: nat)
    requires ks != [] && m <= |TraceAll(ks, at)|
    ensures var head, rest := Trace(ks[0], at + [ks[0].name]), TraceAll(ks[1..], at);
            RemovedUntilFailure(TraceAll(ks, at)[..m])
            == if m <= |head| then RemovedUntilFailure(head[..m])
               else if FirstFailure(head) != ERROR_SUCCESS then RemovedUntilFailure(head[..|head|])
               else RemovedUntilFailure(head[..|head|]) + RemovedUntilFailure(rest[..m - |head|])
  {
    var head, rest := Trace(ks[0], at + [ks[0].name]), TraceAll(ks[1..], at);
    if m <= |head| {
      assert TraceAll(ks, at)[..m] == head[..m];
    } else {
      assert TraceAll(ks, at)[..m] == head + rest[..m - |head|];
      assert head[..|head|] == head;
      InSequence(head, rest[..m - |head|]);
    }
  }

  /** Below a key removed from the first tree there is nothing of the other trees. */
  lemma InTheHead(ks: seq<Key>, at: Path, h: nat, p: Path, q: Path)
    requires ks != [] && UniqueAll(ks) && q in PathsAll(ks, at) && p <= q
    requires h <= |Trace(ks[0], at + [ks[0].name])|
    requires p in RemovedUntilFailure(Trace(ks[0], at + [ks[0].name])[..h])
    ensures q in Paths(ks[0], at + [ks[0].name])
  {
    var child := at + [ks[0].name];
    RemovedSoFar(Trace(ks[0], child), h);
    RemovedFromTree(ks[0], child);
    PathsBelow(ks[0], child, p);
    SiblingsDisjoint(ks, at);
    if q in PathsAll(ks[1..], at) {
      ParentClosedAll(ks[1..], at, p, q);
    }
  }

  /** After each event that happens: a key that is gone has lost its whole subtree. */
  lemma LeftBottomUp(k: Key, at: Path, start: set<Path>, i: nat, p: Path, q: Path)
    requires Unique(k) && Paths(k, at) <= start && i < |UpToFailure(Trace(k, at))|
    requires p in Paths(k, at) && q in Paths(k, at) && p <= q
    ensures var left := Lefts(start, UpToFailure(Trace(k, at)))[i]; p !in left ==> q !in left
  {
    LeftsExact(start, Trace(k, at), i);
    if p in RemovedUntilFailure(Trace(k, at)[..i + 1]) {
      RemovedBottomUp(k, at, i + 1, p, q);
    }
  }

  /** In the end: a removed key was removed after its whole subtree, whether or not the deletion succeeded. */
  lemma RemovedWithSubtree(k: Key, at: Path, p: Path, q: Path)
    requires Unique(k) && p in RemovedUntilFailure(Trace(k, at)) && q in Paths(k, at) && p <= q
    ensures q in RemovedUntilFailure(Trace(k, at)) && q !in PathsLeft(Delete(k).0, at)
  {
    var t := Trace(k, at);
    assert t[..|t|] == t;
    RemovedBottomUp(k, at, |t|, p, q);
    DeleteExact(k, at);
  }

  // ---- Nothing else changes ----

  /** Replacing the key at `p` changes the tree's paths below `p` only. */
  lemma {:induction false} PutPaths(k: Key, at: Path, p: Path, x: Option<Key>)
    requires p != [] && Unique(k) && Find(k, p).Some?
    requires x.Some? ==> x.value.name == p[|p| - 1]
    ensures var was := Paths(Find(k, p).value, at + p);
            && was <= Paths(k, at)
            && Paths(Put(k, p, x), at) == (Paths(k, at) - was) + PathsLeft(x, at + p)
    decreases |p|
  {
    var i := Index(k.children, p[0]);
    var c, child := k.children[i], at + [p[0]];
    UniqueAt(k.children, i);
    assert child + p[1..] == at + p;
    if |p| == 1 {
      assert p[1..] == [] && p == [p[0]];
      PutChildPaths(k, at, i, x);
    } else {
      PutPaths(c, child, p[1..], x);
      PutChildPaths(k, at, i, Some(Put(c, p[1..], x)));
      OwnPathStays(k, at, i);
    }
  }

  lemma PutChildPaths(k: Key, at: Path, i: nat, d: Option<Key>)
    requires Unique(k) && i < |k.children| && (d.Some? ==> d.value.name == k.children[i].name)
    ensures var child := at + [k.children[i].name];
            var after := k.(children := k.children[..i] + Listed(d) + k.children[i + 1..]);
            && Paths(k.children[i], child) <= Paths(k, at)
            && Paths(after, at) == (Paths(k, at) - Paths(k.children[i], child)) + PathsLeft(d, child)
  {
    ReplacedChild(k.children, at, i, d);
    OwnPathStays(k, at, i);
  }

  lemma OwnPathStays(k: Key, at: Path, i: nat)
    requires i < |k.children|
    ensures at !in Paths(k.children[i], at + [k.children[i].name])
  {
    var child := at + [k.children[i].name];
    if at in Paths(k.children[i], child) {
      PathsBelow(k.children[i], child, at);
    }
  }

  lemma {:induction false} UniqueAt(ks: seq<Key>, i: nat)
    requires UniqueAll(ks) && i < |ks|
    ensures Unique(ks[i])
  {
    if i > 0 {
      UniqueAt(ks[1..], i - 1);
    }
  }

  /** Replacing a key keeps names unique. */
  lemma {:induction false} UniquePut(k: Key, p: Path, x: Option<Key>)
    requires p != [] && Unique(k) && Find(k, p).Some?
    requires x.Some? ==> x.value.name == p[|p| - 1] && Unique(x.value)
    ensures Unique(Put(k, p, x))
    decreases |p|
  {
    var i := Index(k.children, p[0]);
    UniqueAt(k.children, i);
    if |p| == 1 {
      UniqueReplaced(k.children, i, x);
    } else {
      UniquePut(k.children[i], p[1..], x);
      UniqueReplaced(k.children, i, Some(Put(k.children[i], p[1..], x)));
    }
  }

  lemma {:induction false} UniqueReplaced(ks: seq<Key>, i: nat, d: Option<Key>)
    requires UniqueAll(ks) && i < |ks| && (d.Some? ==> d.value.name == ks[i].name && Unique(d.value))
    ensures UniqueAll(ks[..i] + Listed(d) + ks[i + 1..])
  {
    UniqueHead(ks);
    if i == 0 {
      assert ks[..0] + Listed(d) + ks[1..] == Listed(d) + ks[1..];
      if d.Some? {
        UniqueCons(d.value, ks[1..]);
      } else {
        assert Listed(d) + ks[1..] == ks[1..];
      }
    } else {
      UniqueReplaced(ks[1..], i - 1, d);
      NamesKept(ks[1..], i - 1, d, ks[0].name);
      UniqueCons(ks[0], ks[1..][..i - 1] + Listed(d) + ks[1..][i..]);
      HeadStays(ks, i, Listed(d));
    }
  }

  lemma NamesKept(ks: seq<Key>, i: nat, d: Option<Key>, name: string)
    requires i < |ks| && (d.Some? ==> d.value.name == ks[i].name)
    requires forall y :: y in ks ==> y.name != name
    ensures forall y :: y in ks[..i] + Listed(d) + ks[i + 1..] ==> y.name != name
  {
  }

  lemma HeadStays(ks: seq<Key>, i: nat, d: seq<Key>)
    requires 0 < i < |ks|
    ensures [ks[0]] + (ks[1..][..i - 1] + d + ks[1..][i..]) == ks[..i] + d + ks[i + 1..]
  {
  }

  lemma UniqueHead(ks: seq<Key>)
    requires ks != [] && UniqueAll(ks)
    ensures forall y :: y in ks[1..] ==> y.name != ks[0].name
  {
  }

  lemma UniqueCons(x: Key, rest: seq<Key>)
    requires Unique(x) && UniqueAll(rest) && forall y :: y in rest ==> y.name != x.name
    ensures UniqueAll([x] + rest)
  {
    assert ([x] + rest)[1..] == rest;
    assert Index(rest, x.name) == |rest|;
  }

  lemma {:induction false} ReplacedChild(ks: seq<Key>, at: Path, i: nat, d: Option<Key>)
    requires UniqueAll(ks) && i < |ks| && (d.Some? ==> d.value.name == ks[i].name)
    ensures var child := at + [ks[i].name];
            && Paths(ks[i], child) <= PathsAll(ks, at)
            && PathsAll(ks[..i] + Listed(d) + ks[i + 1..], at)
               == (PathsAll(ks, at) - Paths(ks[i], child)) + PathsLeft(d, child)
  {
    if i == 0 {
      ReplacedHead(ks, at, d);
      assert ks[..0] + Listed(d) + ks[1..] == Listed(d) + ks[1..];
    } else {
      ReplacedChild(ks[1..], at, i - 1, d);
      SiblingsDisjoint(ks, at);
      ReplacedTail(ks, at, i, d);
    }
  }

  lemma ReplacedHead(ks: seq<Key>, at: Path, d: Option<Key>)
    requires UniqueAll(ks) && ks != [] && (d.Some? ==> d.value.name == ks[0].name)
    ensures var child := at + [ks[0].name];
            && Paths(ks[0], child) <= PathsAll(ks, at)
            && PathsAll(Listed(d) + ks[1..], at) == (PathsAll(ks, at) - Paths(ks[0], child)) + PathsLeft(d, child)
  {
    SiblingsDisjoint(ks, at);
    var after := Listed(d) + ks[1..];
    if d.Some? {
      assert after[0] == d.value && after[1..] == ks[1..];
    } else {
      assert after == ks[1..];
    }
  }

  lemma ReplacedTail(ks: seq<Key>, at: Path, i: nat, d: Option<Key>)
    requires 0 < i < |ks|
    ensures PathsAll(ks[..i] + Listed(d) + ks[i + 1..], at)
            == Paths(ks[0], at + [ks[0].name]) + PathsAll(ks[1..][..i - 1] + Listed(d) + ks[1..][i..], at)
  {
    var after := ks[..i] + Listed(d) + ks[i + 1..];
    assert after[0] == ks[0];
    assert after[1..] == ks[1..][..i - 1] + Listed(d) + ks[1..][i..];
  }

  /** The whole registry, before and after `deleteKey`: the keys outside the target stay, and of the target
      exactly what comes before the first failure is gone. */
  lemma DeleteKeyExact(root: Key, p: Path)
    requires Unique(root) && Find(root, p).Some? && (p == [] ==> root.remove != ERROR_SUCCESS)
    ensures var k := Find(root, p).value;
            && (p == [] ==> Delete(k).0.Some?)
            && RemovedUntilFailure(Trace(k, p)) <= Paths(k, p) <= Paths(root, [])
            && Paths(Put(root, p, Delete(k).0), []) == Paths(root, []) - RemovedUntilFailure(Trace(k, p))
  {
    var k := Find(root, p).value;
    UniqueFound(root, p);
    DeleteExact(k, p);
    RemovedFromTree(k, p);
    if p != [] {
      DeleteCodes(k);
      PutSame(root, p);
      PutPaths(root, [], p, Delete(k).0);
      assert [] + p == p;
      OutsideStays(Paths(root, []), Paths(k, p), RemovedUntilFailure(Trace(k, p)));
    }
  }

  lemma OutsideStays(all: set<Path>, target: set<Path>, removed: set<Path>)
    requires removed <= target <= all
    ensures (all - target) + (target - removed) == all - removed
  {
  }

  lemma {:induction false} UniqueFound(k: Key, p: Path)
    requires Unique(k) && Find(k, p).Some?
    ensures Unique(Find(k, p).value)
    decreases |p|
  {
    if p == [] {
    } else {
      var i := Index(k.children, p[0]);
      UniqueAt(k.children, i);
      UniqueFound(k.children[i], p[1..]);
    }
  }
}
