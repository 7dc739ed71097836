/** Recursive deletion (3rdpart/systemkit/src/windows/registry_manager_windows.cpp:418-458) on the registry as it
    changes. */
module RegistryManager {
  import opened Options
  import opened RegistryTree
  import opened RegistryDelete
  import opened RegistryTermination

  /** The registry, everything asked of the system for deletions, and the keys there were after each of these. */
  datatype Snapshot = Snapshot(root: Key, events: seq<Event>, lefts: seq<set<Path>>)

  /** From `before` to `after` exactly these events have happened; and if names are unique, as in any registry,
      each has left the keys it should. */
  ghost predicate Logged(before: Snapshot, done: seq<Event>, after: Snapshot) {
    && after.events == before.events + done
    && (Unique(before.root) ==> LeftBehind(before, done, after))
  }

  ghost predicate LeftBehind(before: Snapshot, done: seq<Event>, after: Snapshot) {
    var start := Paths(before.root, []);
    && Unique(after.root)
    && Paths(after.root, []) == Left(start, done)
    && after.lefts == before.lefts + Lefts(start, done)
  }

  lemma LoggedInSequence(s: Snapshot, a: seq<Event>, t: Snapshot, b: seq<Event>, u: Snapshot)
    requires Logged(s, a, t) && Logged(t, b, u)
    ensures Logged(s, a + b, u)
  {
    assert s.events + (a + b) == (s.events + a) + b;
    if Unique(s.root) {
      LeftInSequence(Paths(s.root, []), a, b);
      var first, second := Lefts(Paths(s.root, []), a), Lefts(Paths(t.root, []), b);
      assert s.lefts + (first + second) == t.lefts + second;
    }
  }

  /** One turn of the deletion loop: the first child of the key `here` at `p` is replaced. */
  lemma ChildReplaced(before: Key, root: Key, p: Path, here: Key, x: Option<Key>) returns (after: Key)
    requires Find(before, p).Some? && here.children != [] && (p != [] ==> here.name == p[|p| - 1])
    requires root == Put(before, p, Some(here)) && Find(root, p) == Some(here)
    ensures after == here.(children := Listed(x) + here.children[1..])
    ensures Find(root, p + [here.children[0].name]) == Some(here.children[0])
    ensures Put(root, p + [here.children[0].name], x) == Put(before, p, Some(after))
    ensures Find(Put(before, p, Some(after)), p) == Some(after)
  {
    after := here.(children := Listed(x) + here.children[1..]);
    FirstChild(root, p, x);
    PutPut(before, p, here, Some(after));
    FindPut(before, p, after);
  }

  /** The events to come when some children are left, and how one turn of the loop takes the first of them. */
  function Coming(children: seq<Key>, p: Path, remove: int): seq<Event> {
    UpToFailure(TraceAll(children, p) + [Remove(p, remove)])
  }

  lemma ComingFirst(k: Key, p: Path)
    ensures UpToFailure(Trace(k, p))
            == [Open(p, k.open)] + if k.open != ERROR_SUCCESS then [] else Coming(k.children, p, k.remove)
  {
    var rest := TraceAll(k.children, p) + [Remove(p, k.remove)];
    assert Trace(k, p) == [Open(p, k.open)] + rest;
    assert Trace(k, p)[1..] == rest;
  }

  lemma ComingNext(children: seq<Key>, p: Path, remove: int)
    requires children != []
    ensures var head := Trace(children[0], p + [children[0].name]);
            Coming(children, p, remove)
            == if FirstFailure(head) != ERROR_SUCCESS then UpToFailure(head)
               else UpToFailure(head) + Coming(children[1..], p, remove)
  {
    var head, rest, last := Trace(children[0], p + [children[0].name]), TraceAll(children[1..], p), [Remove(p, remove)];
    assert TraceAll(children, p) + last == head + (rest + last);
    HappensInSequence(head, rest + last);
  }

  lemma ComingLast(p: Path, remove: int)
    ensures Coming([], p, remove) == [Remove(p, remove)]
  {
    var last := TraceAll([], p) + [Remove(p, remove)];
    assert last == [Remove(p, remove)] && last[1..] == [];
  }

  function SizeAt(root: Key, p: Path): nat {
    if Find(root, p).Some? then Size(Find(root, p).value) else 0
  }

  /** Removing a key without subkeys takes its path from the registry and nothing else. */
  lemma LeafRemoved(root: Key, p: Path)
    requires p != [] && Find(root, p).Some? && Find(root, p).value.children == []
    ensures Unique(root) ==>
              Unique(Put(root, p, None)) && Paths(Put(root, p, None), []) == Paths(root, []) - {p}
  {
    if Unique(root) {
      UniquePut(root, p, None);
      PutPaths(root, [], p, None);
      assert [] + p == p;
    }
  }

  // ---- The loop ----

  /** Before a turn of the loop at `p`: `children` of the key `k` are left in what is now the registry `r`, once
      `before`, and what has been done and what is coming is what should happen. */
  ghost predicate Midway(before: Key, p: Path, k: Key, children: seq<Key>, done: seq<Event>, r: Key) {
    && Find(before, p) == Some(k) && k.open == ERROR_SUCCESS && (p != [] ==> k.name == p[|p| - 1])
    && Find(r, p) == Some(k.(children := children))
    && r == Put(before, p, Some(k.(children := children)))
    && DeleteAll(children) == DeleteAll(k.children)
    && FirstFailure(TraceAll(children, p)) != ERROR_FILE_NOT_FOUND
    && UpToFailure(Trace(k, p)) == done + Coming(children, p, k.remove)
  }

  /** One turn: the first child is deleted. Either the loop goes on, or it ends as the deletion of `k` should. */
  lemma OneChild(before: Key, p: Path, k: Key, children: seq<Key>, done: seq<Event>, r: Key)
    requires Midway(before, p, k, children, done, r) && children != []
    ensures var child, at := children[0], p + [children[0].name];
            var (rest, code) := Delete(child);
            var done', r' := done + UpToFailure(Trace(child, at)), Put(r, at, rest);
            && Find(r, at) == Some(child) && Ends(child, at) && code != ERROR_FILE_NOT_FOUND
            && if code == ERROR_SUCCESS then Midway(before, p, k, children[1..], done', r')
               else Finished(before, p, k, code, done', r')
  {
    var child, here := children[0], k.(children := children);
    EndsInTurn(children, p);
    DeleteCodes(child);
    var after := ChildReplaced(before, r, p, here, Delete(child).0);
    ComingAfter(UpToFailure(Trace(k, p)), done, children, p, k.remove);
    FirstChildDecides(k, children);
    if Delete(child).1 == ERROR_SUCCESS {
      assert after == k.(children := children[1..]);
    } else {
      assert after == k.(children := DeleteAll(children).0);
    }
  }

  lemma FirstChildDecides(k: Key, children: seq<Key>)
    requires k.open == ERROR_SUCCESS && children != [] && DeleteAll(children) == DeleteAll(k.children)
    ensures var (rest, code) := Delete(children[0]);
            if code == ERROR_SUCCESS then DeleteAll(children[1..]) == DeleteAll(k.children)
            else
              && DeleteAll(children).0 == Listed(rest) + children[1..]
              && Delete(k) == (Some(k.(children := DeleteAll(children).0)), code)
  {
  }

  lemma ComingAfter(all: seq<Event>, done: seq<Event>, children: seq<Key>, p: Path, remove: int)
    requires children != [] && all == done + Coming(children, p, remove)
    ensures var more := UpToFailure(Trace(children[0], p + [children[0].name]));
            if Delete(children[0]).1 != ERROR_SUCCESS then all == done + more
            else all == (done + more) + Coming(children[1..], p, remove)
  {
    ComingNext(children, p, remove);
    DeleteCode(children[0], p + [children[0].name]);
  }

  /** What is there in the end is what the deletion of `k` should leave. */
  ghost predicate Finished(before: Key, p: Path, k: Key, code: int, done: seq<Event>, r: Key) {
    && (p == [] ==> Delete(k).0.Some?)
    && code == Delete(k).1 && r == Put(before, p, Delete(k).0)
    && done == UpToFailure(Trace(k, p))
  }

  class Registry {
    var root: Key
    ghost var events: seq<Event>
    ghost var lefts: seq<set<Path>>

    ghost function View(): Snapshot
      reads this
    {
      Snapshot(root, events, lefts)
    }

    constructor (root: Key)
      ensures View() == Snapshot(root, [], [])
    {
      this.root, events, lefts := root, [], [];
    }

    /** RegOpenKeyEx */
    method OpenKey(p: Path) returns (status: int)
      modifies this`events, this`lefts
      ensures status == if Find(root, p).Some? then Find(root, p).value.open else ERROR_FILE_NOT_FOUND
      ensures Logged(old(View()), [Open(p, status)], View())
    {
      var found := Find(root, p);
      status := if found.Some? then found.value.open else ERROR_FILE_NOT_FOUND;
      events, lefts := events + [Open(p, status)], lefts + [Paths(root, [])];
      assert [Open(p, status)][1..] == [];
    }

    /** RegDeleteKeyEx, on a key without subkeys. */
    method RemoveKey(p: Path) returns (status: int)
      requires Find(root, p).Some? && Find(root, p).value.children == []
      requires p == [] ==> root.remove != ERROR_SUCCESS
      modifies this
      ensures status == Find(old(root), p).value.remove
      ensures root == if status == ERROR_SUCCESS then Put(old(root), p, None) else old(root)
      ensures Logged(old(View()), [Remove(p, status)], View())
    {
      status := Find(root, p).value.remove;
      if status == ERROR_SUCCESS {
        LeafRemoved(root, p);
        root := Put(root, p, None);
      }
      events, lefts := events + [Remove(p, status)], lefts + [Paths(root, [])];
      assert [Remove(p, status)][1..] == [];
    }

    /** `deleteKeyRecursively`: the handle and name of the source are the path here, empty for the root key
        itself, whose subkeys go but which the system does not remove. It is called on a key whose deletion ends;
        everything it asks of the system, in order, is what the traversal says up to the first failure. */
    method DeleteKeyRecursively(p: Path) returns (result: int)
      requires p == [] ==> root.remove != ERROR_SUCCESS
      requires Find(root, p).Some? ==> Ends(Find(root, p).value, p)
      modifies this
      ensures match Find(old(root), p)
              case None =>
                && result == ERROR_FILE_NOT_FOUND && root == old(root)
                && Logged(old(View()), [Open(p, ERROR_FILE_NOT_FOUND)], View())
              case Some(k) =>
                && (p == [] ==> Delete(k).0.Some?)
                && result == Delete(k).1 && root == Put(old(root), p, Delete(k).0)
                && Logged(old(View()), UpToFailure(Trace(k, p)), View())
      decreases SizeAt(root, p)
    {
      ghost var start := View();
      result := OpenKey(p);
      var found := Find(root, p);
      if found.None? {
        return;
      }
      PutSame(root, p);
      ComingFirst(found.value, p);
      if result != ERROR_SUCCESS {
        return;
      }
      ghost var k, children, done := found.value, found.value.children, [Open(p, ERROR_SUCCESS)];
      while true
        invariant Midway(start.root, p, k, children, done, root)
        invariant SizeAll(children) <= SizeAll(k.children)
        invariant Logged(start, done, View())
        decreases SizeAll(children)
      {
        var here := Find(root, p).value;
        if here.children == [] {
          break;
        }
        var child := here.children[0];
        SizeOfChild(here);
        OneChild(start.root, p, k, children, done, root);
        ghost var before := View();
        result := DeleteKeyRecursively(p + [child.name]);
        ghost var more := UpToFailure(Trace(child, p + [child.name]));
        LoggedInSequence(start, done, before, more, View());
        if result != ERROR_SUCCESS && result != ERROR_FILE_NOT_FOUND {
          return;
        }
        children, done := children[1..], done + more;
      }
      ComingLast(p, k.remove);
      if p != [] {
        PutPut(start.root, p, k.(children := []), None);
      }
      ghost var before := View();
      result := RemoveKey(p);
      LoggedInSequence(start, done, before, [Remove(p, result)], View());
    }
  }
}
