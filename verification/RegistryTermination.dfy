/** When recursive deletion ends (3rdpart/systemkit/src/windows/registry_manager_windows.cpp:418-458). A child
    that answers ERROR_FILE_NOT_FOUND stays where it is, and the loop, which goes on after that answer,
    enumerates it again. */
module RegistryTermination {
  import opened Options
  import opened RegistryTree
  import opened RegistryDelete

  // ---- The loop, cut off ----

  /** Deletion as the loop does it, given up (None) when `fuel` calls and turns of the loop nested in each other
      or following each other in one loop are not enough. */
  function DeleteIn(k: Key, fuel: nat): Option<(Option<Key>, int)>
    decreases fuel
  {
    if fuel == 0 then None
    else if k.open != ERROR_SUCCESS then Some((Some(k), k.open))
    else
      match LoopIn(k.children, fuel - 1)
      case None => None
      case Some((rest, code)) =>
        if code != ERROR_SUCCESS then Some((Some(k.(children := rest)), code))
        else if k.remove != ERROR_SUCCESS then Some((Some(k.(children := [])), k.remove))
        else Some((None, ERROR_SUCCESS))
  }

  /** The loop over the first child: an answer of success or ERROR_FILE_NOT_FOUND sends it round again, over
      whatever is now listed. */
  function LoopIn(ks: seq<Key>, fuel: nat): Option<(seq<Key>, int)>
    decreases fuel
  {
    if fuel == 0 then None
    else if ks == [] then Some(([], ERROR_SUCCESS))
    else
      match DeleteIn(ks[0], fuel - 1)
      case None => None
      case Some((rest, code)) =>
        if code != ERROR_SUCCESS && code != ERROR_FILE_NOT_FOUND then Some((Listed(rest) + ks[1..], code))
        else LoopIn(Listed(rest) + ks[1..], fuel - 1)
  }

  // ---- When it ends ----

  /** The first failure below the key, if the key can be opened at all, is not ERROR_FILE_NOT_FOUND. The key's own
      removal may fail with it. */
  predicate Ends(k: Key, at: Path) {
    k.open != ERROR_SUCCESS || FirstFailure(TraceAll(k.children, at)) != ERROR_FILE_NOT_FOUND
  }

  lemma EndsUnlessNotFound(k: Key, at: Path)
    ensures Delete(k).1 != ERROR_FILE_NOT_FOUND ==> Ends(k, at)
  {
    DeleteCode(k, at);
    TraceOfKey(k, at);
  }

  /** If the first failure of several deletions is not ERROR_FILE_NOT_FOUND, all of them end, up to that failure. */
  lemma EndsInTurn(ks: seq<Key>, at: Path)
    requires ks != [] && FirstFailure(TraceAll(ks, at)) != ERROR_FILE_NOT_FOUND
    ensures Ends(ks[0], at + [ks[0].name]) && Delete(ks[0]).1 != ERROR_FILE_NOT_FOUND
    ensures Delete(ks[0]).1 == ERROR_SUCCESS ==> FirstFailure(TraceAll(ks[1..], at)) != ERROR_FILE_NOT_FOUND
  {
    var child := at + [ks[0].name];
    InSequence(Trace(ks[0], child), TraceAll(ks[1..], at));
    TraceOfKey(ks[0], child);
    DeleteCode(ks[0], child);
  }

  /** Deletion that can end ends within twice the number of keys, with what `Delete` computes. */
  lemma {:induction false} EndsInTime(k: Key, at: Path, fuel: nat)
    requires Ends(k, at) && fuel >= 2 * Size(k)
    ensures DeleteIn(k, fuel) == Some(Delete(k))
    decreases k, 1
  {
    if k.open == ERROR_SUCCESS {
      LoopEndsInTime(k.children, at, fuel - 1);
      DeleteAllCodes(k.children);
    }
  }

  lemma {:induction false} LoopEndsInTime(ks: seq<Key>, at: Path, fuel: nat)
    requires FirstFailure(TraceAll(ks, at)) != ERROR_FILE_NOT_FOUND && fuel >= 2 * SizeAll(ks) + 1
    ensures LoopIn(ks, fuel) == Some(DeleteAll(ks))
    decreases ks, 0
  {
    if ks == [] {
    } else {
      EndsInTurn(ks, at);
      DeleteCodes(ks[0]);
      EndsInTime(ks[0], at + [ks[0].name], fuel - 1);
      if Delete(ks[0]).1 == ERROR_SUCCESS {
        assert Listed(None) + ks[1..] == ks[1..];
        LoopEndsInTime(ks[1..], at, fuel - 1);
      }
    }
  }

  // ---- And only then ----

  /** What ERROR_FILE_NOT_FOUND leaves answers so again: the next attempt is no better. */
  lemma NotFoundAgain(k: Key, at: Path)
    requires Ends(k, at) && Delete(k).1 == ERROR_FILE_NOT_FOUND
    ensures Delete(k).0.Some? && FirstFailure(Trace(Delete(k).0.value, at)) == ERROR_FILE_NOT_FOUND
    ensures Delete(k).0.value.name == k.name
  {
    DeleteCodes(k);
    DeleteAllCode(k.children, at);
    TraceOfKey(Delete(k).0.value, at);
  }

  /** A deletion that has ended could end, and has computed what `Delete` says. */
  lemma {:induction false} EndedIsDelete(k: Key, at: Path, fuel: nat)
    requires DeleteIn(k, fuel).Some?
    ensures Ends(k, at) && DeleteIn(k, fuel).value == Delete(k)
    decreases fuel
  {
    if k.open == ERROR_SUCCESS {
      LoopEndedIsDelete(k.children, at, fuel - 1);
      DeleteAllCodes(k.children);
    }
  }

  lemma {:induction false} LoopEndedIsDelete(ks: seq<Key>, at: Path, fuel: nat)
    requires LoopIn(ks, fuel).Some?
    ensures FirstFailure(TraceAll(ks, at)) != ERROR_FILE_NOT_FOUND && LoopIn(ks, fuel).value == DeleteAll(ks)
    decreases fuel
  {
    if ks == [] {
    } else {
      var child := at + [ks[0].name];
      EndedIsDelete(ks[0], child, fuel - 1);
      OneTurn(ks, at);
      var (rest, code) := Delete(ks[0]);
      if code == ERROR_SUCCESS || code == ERROR_FILE_NOT_FOUND {
        LoopEndedIsDelete(Listed(rest) + ks[1..], at, fuel - 1);
      }
    }
  }

  /** What the rest of the loop is about after its first turn. */
  lemma OneTurn(ks: seq<Key>, at: Path)
    requires ks != [] && Ends(ks[0], at + [ks[0].name])
    ensures var (rest, code) := Delete(ks[0]);
            && (code == ERROR_SUCCESS ==>
                  && Listed(rest) + ks[1..] == ks[1..]
                  && FirstFailure(TraceAll(ks, at)) == FirstFailure(TraceAll(ks[1..], at)))
            && (code == ERROR_FILE_NOT_FOUND ==>
                  FirstFailure(TraceAll(Listed(rest) + ks[1..], at)) == ERROR_FILE_NOT_FOUND)
            && (code != ERROR_SUCCESS ==> FirstFailure(TraceAll(ks, at)) == code)
  {
    var child := at + [ks[0].name];
    DeleteCode(ks[0], child);
    DeleteCodes(ks[0]);
    InSequence(Trace(ks[0], child), TraceAll(ks[1..], at));
    var (rest, code) := Delete(ks[0]);
    if code == ERROR_FILE_NOT_FOUND {
      NotFoundAgain(ks[0], child);
      var left := [rest.value] + ks[1..];
      assert left[0] == rest.value && left[1..] == ks[1..];
      InSequence(Trace(rest.value, child), TraceAll(ks[1..], at));
    }
  }

  /** Recursive deletion ends, after however many turns, exactly when the key cannot be opened or the first failure
      below it, in traversal order, is not ERROR_FILE_NOT_FOUND. */
  lemma EndsExactly(k: Key, at: Path)
    ensures (exists fuel :: DeleteIn(k, fuel).Some?) <==> Ends(k, at)
  {
    if Ends(k, at) {
      EndsInTime(k, at, 2 * Size(k));
    }
    if fuel :| DeleteIn(k, fuel).Some? {
      EndedIsDelete(k, at, fuel);
    }
  }

  /** A key with one subkey that is enumerated but not found: its deletion never ends. */
  lemma DanglingSubkey(fuel: nat)
    ensures DeleteIn(Key("parent", 0, 0, [Key("dangling", 2, 0, [])]), fuel) == None
  {
    var dangling := Key("dangling", ERROR_FILE_NOT_FOUND, ERROR_SUCCESS, []);
    var k := Key("parent", ERROR_SUCCESS, ERROR_SUCCESS, [dangling]);
    TraceOfKey(dangling, ["dangling"]);
    InSequence(Trace(dangling, ["dangling"]), []);
    assert [] + [dangling.name] == ["dangling"];
    assert TraceAll([dangling], []) == Trace(dangling, ["dangling"]) + TraceAll([], []);
    EndsExactly(k, []);
  }
}
