/** Creating keys level by level (3rdpart/systemkit/src/windows/registry_manager_windows.cpp:1071-1145). */
module RegistryCreate {
  import opened Options
  import opened RegistryTree
  import opened RegistryDelete
  import opened RegistryTermination
  import opened RegistryManager

  const SEPARATOR := '\\'

  // ---- Paths as strings ----

  /** The positions of the separators, as the scanning loop collects them. */
  function Separators(s: string): seq<nat> {
    if s == [] then []
    else
      var n := |s| - 1;
      if s[n] == SEPARATOR then Separators(s[..n]) + [n] else Separators(s[..n])
  }

  /** The names between the separators. */
  function Components(s: string): (p: Path)
    ensures |p| == |Separators(s)| + 1
  {
    if s == [] then [""]
    else
      var n := |s| - 1;
      var before := Components(s[..n]);
      if s[n] == SEPARATOR then before + [""]
      else before[..|before| - 1] + [before[|before| - 1] + [s[n]]]
  }

  /** The path created on level `i`: everything before separator `i`, and at last the full path. */
  function Level(s: string, i: nat): string
    requires i <= |Separators(s)|
  {
    SeparatorAt(s);
    if i < |Separators(s)| then s[..Separators(s)[i]] else s
  }

  lemma {:induction false} SeparatorAt(s: string)
    ensures forall i :: 0 <= i < |Separators(s)| ==> Separators(s)[i] < |s| && s[Separators(s)[i]] == SEPARATOR
    ensures forall i, j :: 0 <= i < j < |Separators(s)| ==> Separators(s)[i] < Separators(s)[j]
  {
    if s == [] {
    } else {
      SeparatorAt(s[..|s| - 1]);
    }
  }

  /** The part of a path before its `i`-th separator has the first `i + 1` names of the path. */
  lemma {:induction false} PrefixComponents(s: string, i: nat)
    requires i < |Separators(s)|
    ensures Separators(s)[i] < |s|
    ensures Components(s[..Separators(s)[i]]) == Components(s)[..i + 1]
  {
    SeparatorAt(s);
    var n := |s| - 1;
    var init := s[..n];
    if i < |Separators(init)| {
      PrefixComponents(init, i);
      assert Separators(s)[i] == Separators(init)[i];
      assert s[..Separators(s)[i]] == init[..Separators(init)[i]];
      assert Components(s)[..i + 1] == Components(init)[..i + 1];
    } else {
      assert Components(s)[..i + 1] == Components(init);
    }
  }

  /** The levels are a strictly growing chain of prefixes ending in the path itself; each adds one name. */
  lemma LevelsGrow(s: string, i: nat)
    requires i <= |Separators(s)|
    ensures Level(s, i) <= s
    ensures i < |Separators(s)| ==> Separators(s)[i] < |s| && Level(s, i) < Level(s, i + 1)
    ensures Level(s, |Separators(s)|) == s
    ensures Components(Level(s, i)) == Components(s)[..i + 1]
  {
    SeparatorAt(s);
    if i < |Separators(s)| {
      PrefixComponents(s, i);
    }
  }

  // ---- Creation in the tree ----

  function Fresh(name: string): Key {
    Key(name, ERROR_SUCCESS, ERROR_SUCCESS, [])
  }

  /** RegCreateKeyEx when it succeeds: the keys of the path that are missing appear, at the end of their
      parents' lists. */
  function Create(k: Key, p: Path): Key
    decreases |p|
  {
    if p == [] then k
    else
      var i := Index(k.children, p[0]);
      if i < |k.children| then k.(children := k.children[i := Create(k.children[i], p[1..])])
      else k.(children := k.children + [Create(Fresh(p[0]), p[1..])])
  }

  lemma {:induction false} CreateKeepsName(k: Key, p: Path)
    ensures Create(k, p).name == k.name
  {
  }

  lemma {:induction false} IndexAfter(ks: seq<Key>, i: nat, x: Key)
    requires i < |ks| && x.name == ks[i].name
    ensures Index(ks[i := x], x.name) == Index(ks, x.name)
  {
    if i == 0 {
      assert ks[i := x][0] == x;
    } else {
      assert ks[i := x][1..] == ks[1..][i - 1 := x];
      IndexAfter(ks[1..], i - 1, x);
    }
  }

  lemma {:induction false} IndexNew(ks: seq<Key>, x: Key)
    requires Index(ks, x.name) == |ks|
    ensures Index(ks + [x], x.name) == |ks|
  {
    if ks == [] {
    } else {
      assert (ks + [x])[1..] == ks[1..] + [x];
      IndexNew(ks[1..], x);
    }
  }

  /** Creating a prefix first changes nothing. */
  lemma {:induction false} CreatePrefixFirst(k: Key, p: Path, q: Path)
    ensures Create(Create(k, p), p + q) == Create(k, p + q)
    decreases |p|
  {
    if p == [] {
      assert p + q == q;
    } else {
      var i := Index(k.children, p[0]);
      assert (p + q)[0] == p[0] && (p + q)[1..] == p[1..] + q;
      var child := if i < |k.children| then k.children[i] else Fresh(p[0]);
      var made := Create(child, p[1..]);
      CreateKeepsName(child, p[1..]);
      CreatePrefixFirst(child, p[1..], q);
      if i < |k.children| {
        IndexAfter(k.children, i, made);
      } else {
        IndexNew(k.children, made);
        assert (k.children + [made])[|k.children| := Create(child, p[1..] + q)]
            == k.children + [Create(child, p[1..] + q)];
      }
    }
  }

  /** `at` and everything on the way from there along `p`. */
  function Along(at: Path, p: Path): set<Path>
    decreases |p|
  {
    {at} + if p == [] then {} else Along(at + [p[0]], p[1..])
  }

  /** Creation adds the path and its parents, and nothing else. */
  lemma {:induction false} CreateAddsPath(k: Key, at: Path, p: Path)
    ensures Paths(Create(k, p), at) == Paths(k, at) + Along(at, p)
    decreases |p|
  {
    if p == [] {
    } else {
      var i := Index(k.children, p[0]);
      var child := if i < |k.children| then k.children[i] else Fresh(p[0]);
      CreateKeepsName(child, p[1..]);
      CreateAddsPath(child, at + [p[0]], p[1..]);
      var made := Create(child, p[1..]);
      if i < |k.children| {
        ChildPathsGrow(k.children, at, i, made, Along(at + [p[0]], p[1..]));
      } else {
        NewChildPaths(k.children, at, made);
      }
    }
  }

  lemma {:induction false} ChildPathsGrow(ks: seq<Key>, at: Path, i: nat, x: Key, more: set<Path>)
    requires i < |ks| && x.name == ks[i].name
    requires Paths(x, at + [x.name]) == Paths(ks[i], at + [x.name]) + more
    ensures PathsAll(ks[i := x], at) == PathsAll(ks, at) + more
  {
    if i == 0 {
      assert ks[i := x][1..] == ks[1..];
    } else {
      ChildPathsGrow(ks[1..], at, i - 1, x, more);
      assert ks[i := x][1..] == ks[1..][i - 1 := x];
    }
  }

  lemma {:induction false} NewChildPaths(ks: seq<Key>, at: Path, x: Key)
    ensures PathsAll(ks + [x], at) == PathsAll(ks, at) + Paths(x, at + [x.name])
  {
    if ks == [] {
      assert ks + [x] == [x] && [x][1..] == [];
    } else {
      assert (ks + [x])[1..] == ks[1..] + [x];
      NewChildPaths(ks[1..], at, x);
    }
  }

  // ---- How the system reads a path ----

  /** What the system makes of the text of a path, empty names between separators in particular, is its own
      business. All that creation by levels needs is that more text never changes the names read before. */
  ghost predicate ReadsPrefixes(reading: string -> Path, s: string) {
    forall i :: 0 <= i < |Separators(s)| ==> ReadsOn(reading, s, i)
  }

  ghost predicate ReadsOn(reading: string -> Path, s: string, i: nat)
    requires i < |Separators(s)|
  {
    reading(Level(s, i)) <= reading(Level(s, i + 1))
  }

  lemma LevelNames(s: string, i: nat)
    requires i < |Separators(s)|
    ensures Components(Level(s, i)) == Components(s)[..i + 1]
    ensures Components(Level(s, i + 1)) == Components(s)[..i + 2]
  {
    LevelsGrow(s, i);
    LevelsGrow(s, i + 1);
  }

  /** Names exactly as they stand between the separators are such a reading. */
  lemma ComponentsRead(s: string)
    ensures ReadsPrefixes(Components, s)
  {
    forall i | 0 <= i < |Separators(s)| ensures ReadsOn(Components, s, i) {
      LevelNames(s, i);
    }
  }

  function NonEmptyNames(p: Path): Path {
    if p == [] then []
    else if p[|p| - 1] == "" then NonEmptyNames(p[..|p| - 1])
    else NonEmptyNames(p[..|p| - 1]) + [p[|p| - 1]]
  }

  function NonEmptyComponents(s: string): Path {
    NonEmptyNames(Components(s))
  }

  lemma NonEmptyOn(p: Path, i: nat)
    requires i < |p|
    ensures NonEmptyNames(p[..i]) <= NonEmptyNames(p[..i + 1])
  {
    assert p[..i + 1][..i] == p[..i];
  }

  /** So are the names without the empty ones. */
  lemma NonEmptyRead(s: string)
    ensures ReadsPrefixes(NonEmptyComponents, s)
  {
    forall i | 0 <= i < |Separators(s)| ensures ReadsOn(NonEmptyComponents, s, i) {
      LevelNames(s, i);
      NonEmptyOn(Components(s), i + 1);
    }
  }

  /** The tree after the first `i` levels: that of creating the last of them directly. */
  function Made(k: Key, reading: string -> Path, s: string, i: nat): Key
    requires i <= |Separators(s)| + 1
  {
    if i == 0 then k else Create(k, reading(Level(s, i - 1)))
  }

  /** One level more: creating it on top of the levels before is creating its path directly. */
  lemma NextLevel(k: Key, reading: string -> Path, s: string, i: nat)
    requires i <= |Separators(s)| && ReadsPrefixes(reading, s)
    ensures Create(Made(k, reading, s, i), reading(Level(s, i))) == Made(k, reading, s, i + 1)
  {
    if i > 0 {
      assert ReadsOn(reading, s, i - 1);
      MorePath(k, reading(Level(s, i - 1)), reading(Level(s, i)));
    }
  }

  lemma MorePath(k: Key, p: Path, q: Path)
    requires p <= q
    ensures Create(Create(k, p), q) == Create(k, q)
  {
    assert q == p + q[|p|..];
    CreatePrefixFirst(k, p, q[|p|..]);
  }

  // ---- autoCreateKey ----

  datatype Outcome = Done | AccessDenied | CreateFailed

  /** The number of levels created before the first one that is refused. */
  function LevelsGranted(level: nat -> int, i: nat, n: nat): (m: nat)
    requires i <= n
    ensures i <= m <= n
    ensures forall j :: i <= j < m ==> level(j) == ERROR_SUCCESS
    ensures m < n ==> level(m) != ERROR_SUCCESS
    decreases n - i
  {
    if i == n || level(i) != ERROR_SUCCESS then i else LevelsGranted(level, i + 1, n)
  }

  /** The first answer other than success, if any, decides. */
  predicate RefusedAt(level: nat -> int, i: nat) {
    level(i) != ERROR_SUCCESS && forall j :: 0 <= j < i ==> level(j) == ERROR_SUCCESS
  }

  /** Done exactly when every level is granted; access denied exactly when the first refusal answers 5; and a
      failed creation exactly when it answers anything else. */
  lemma EndingMeans(level: nat -> int, n: nat)
    ensures var outcome := Ending(level, LevelsGranted(level, 0, n), n);
            && (outcome == Done <==> forall i :: 0 <= i < n ==> level(i) == ERROR_SUCCESS)
            && (outcome == AccessDenied <==> exists i :: 0 <= i < n && RefusedAt(level, i) && level(i) == 5)
            && (outcome == CreateFailed <==> exists i :: 0 <= i < n && RefusedAt(level, i) && level(i) != 5)
  {
    var m := LevelsGranted(level, 0, n);
    if m < n {
      assert RefusedAt(level, m);
      forall i | 0 <= i < n && RefusedAt(level, i) ensures i == m {
      }
    }
  }

  method FindSeparators(subKey: string) returns (separatorPositions: seq<nat>)
    ensures separatorPositions == Separators(subKey)
  {
    separatorPositions := [];
    for i := 0 to |subKey|
      invariant separatorPositions == Separators(subKey[..i])
    {
      assert subKey[..i + 1][..i] == subKey[..i];
      if subKey[i] == SEPARATOR {
        separatorPositions := separatorPositions + [i];
      }
    }
    assert subKey[..|subKey|] == subKey;
  }

  /** How the loop ends after `granted` of `n` levels. */
  function Ending(level: nat -> int, granted: nat, n: nat): Outcome {
    if granted == n then Done else if level(granted) == ERROR_ACCESS_DENIED then AccessDenied else CreateFailed
  }

  method CreateEachLevel(registry: Registry, subKey: string, separatorPositions: seq<nat>, reading: string -> Path,
                         level: nat -> int)
    returns (outcome: Outcome)
    requires separatorPositions == Separators(subKey) && ReadsPrefixes(reading, subKey)
    modifies registry`root
    ensures var n := |Separators(subKey)| + 1;
            var granted := LevelsGranted(level, 0, n);
            && registry.root == Made(old(registry.root), reading, subKey, granted)
            && outcome == Ending(level, granted, n)
  {
    ghost var n := |separatorPositions| + 1;
    ghost var before := registry.root;
    SeparatorAt(subKey);
    var i := 0;
    while i <= |separatorPositions|
      invariant i <= n
      invariant registry.root == Made(before, reading, subKey, i)
      invariant LevelsGranted(level, 0, n) == LevelsGranted(level, i, n)
    {
      NextLevel(before, reading, subKey, i);
      var currentPath := if i < |separatorPositions| then subKey[..separatorPositions[i]] else subKey;
      assert currentPath == Level(subKey, i);
      var result := level(i);
      if result != ERROR_SUCCESS {
        return if result == ERROR_ACCESS_DENIED then AccessDenied else CreateFailed;
      }
      registry.root := Create(registry.root, reading(currentPath));
      i := i + 1;
    }
    outcome := Done;
  }

  /** `direct` is the answer to creating the full path at once, `level(i)` the answer on level `i`. */
  method AutoCreateKey(registry: Registry, subKey: string, reading: string -> Path, direct: int, level: nat -> int)
    returns (outcome: Outcome)
    requires ReadsPrefixes(reading, subKey)
    modifies registry`root
    ensures subKey == "" ==> outcome == Done && registry.root == old(registry.root)
    ensures subKey != "" ==>
              var n := |Separators(subKey)| + 1;
              var granted := if direct == ERROR_SUCCESS then n else LevelsGranted(level, 0, n);
              && registry.root == Made(old(registry.root), reading, subKey, granted)
              && outcome == Ending(level, granted, n)
    ensures subKey != "" && outcome == Done ==> registry.root == Create(old(registry.root), reading(subKey))
  {
    if subKey == "" {
      return Done;
    }
    var separatorPositions := FindSeparators(subKey);
    LevelsGrow(subKey, |separatorPositions|);
    if direct == ERROR_SUCCESS {
      registry.root := Create(registry.root, reading(subKey));
      return Done;
    }
    outcome := CreateEachLevel(registry, subKey, separatorPositions, reading, level);
  }

  // ---- Undoing a creation ----

  /** The length of the shortest prefix of the path that is missing. */
  function FirstMissing(k: Key, p: Path): (m: nat)
    requires Find(k, p) == None
    ensures 0 < m <= |p|
    decreases |p|
  {
    var i := Index(k.children, p[0]);
    if i == |k.children| then 1 else 1 + FirstMissing(k.children[i], p[1..])
  }

  lemma {:induction false} FreshIsPlain(name: string, p: Path)
    ensures Delete(Create(Fresh(name), p)) == (None, ERROR_SUCCESS)
    decreases |p|
  {
    if p == [] {
    } else {
      var made := Create(Fresh(p[0]), p[1..]);
      FreshIsPlain(p[0], p[1..]);
      assert [made][1..] == [];
      assert Create(Fresh(name), p).children == [made];
      assert DeleteAll([made]) == DeleteAll([]);
    }
  }

  /** Deleting the shortest prefix that was missing undoes a creation completely. */
  lemma {:induction false} DeleteUndoesCreate(k: Key, p: Path)
    requires Find(k, p) == None
    ensures var q := p[..FirstMissing(k, p)];
            && Find(k, q) == None
            && Find(Create(k, p), q).Some?
            && Delete(Find(Create(k, p), q).value) == (None, ERROR_SUCCESS)
            && Put(Create(k, p), q, None) == k
    decreases |p|
  {
    var i := Index(k.children, p[0]);
    if i == |k.children| {
      UndoNewChild(k, p);
    } else {
      DeleteUndoesCreate(k.children[i], p[1..]);
      UndoInChild(k, p, p[1..][..FirstMissing(k.children[i], p[1..])]);
      assert p[..FirstMissing(k, p)] == [p[0]] + p[1..][..FirstMissing(k.children[i], p[1..])];
    }
  }

  lemma UndoNewChild(k: Key, p: Path)
    requires p != [] && Index(k.children, p[0]) == |k.children|
    ensures var q := p[..1];
            && Find(k, q) == None
            && Find(Create(k, p), q).Some?
            && Delete(Find(Create(k, p), q).value) == (None, ERROR_SUCCESS)
            && Put(Create(k, p), q, None) == k
  {
    var made := Create(Fresh(p[0]), p[1..]);
    CreateKeepsName(Fresh(p[0]), p[1..]);
    IndexNew(k.children, made);
    FreshIsPlain(p[0], p[1..]);
    assert p[..1][1..] == [];
    assert (k.children + [made])[..|k.children|] + [] + (k.children + [made])[|k.children| + 1..] == k.children;
  }

  lemma UndoInChild(k: Key, p: Path, r: Path)
    requires p != [] && r != [] && Index(k.children, p[0]) < |k.children|
    requires var child := k.children[Index(k.children, p[0])];
             && Find(child, r) == None
             && Find(Create(child, p[1..]), r).Some?
             && Put(Create(child, p[1..]), r, None) == child
    ensures var q, child := [p[0]] + r, k.children[Index(k.children, p[0])];
            && Find(k, q) == None
            && Find(Create(k, p), q) == Find(Create(child, p[1..]), r)
            && Put(Create(k, p), q, None) == k
  {
    var i := Index(k.children, p[0]);
    var child, q := k.children[i], [p[0]] + r;
    var made := Create(child, p[1..]);
    CreateKeepsName(child, p[1..]);
    IndexAfter(k.children, i, made);
    assert q[0] == p[0] && q[1..] == r;
    PutBack(k.children, i, made);
  }

  lemma PutBack(ks: seq<Key>, i: nat, x: Key)
    requires i < |ks|
    ensures ks[i := x][..i] + [ks[i]] + ks[i := x][i + 1..] == ks
  {
  }

  /** The two methods together: create a missing path, delete the shortest prefix that was missing, and
      the registry is what it was. */
  method CreateThenDelete(registry: Registry, subKey: string, reading: string -> Path, direct: int)
    returns (result: int)
    requires subKey != "" && ReadsPrefixes(reading, subKey)
    requires Find(registry.root, reading(subKey)) == None
    modifies registry
    ensures result == ERROR_SUCCESS && registry.root == old(registry.root)
  {
    var path := reading(subKey);
    var prefix := path[..FirstMissing(registry.root, path)];
    DeleteUndoesCreate(registry.root, path);
    var outcome := AutoCreateKey(registry, subKey, reading, direct, (i: nat) => ERROR_SUCCESS);
    EndsUnlessNotFound(Find(registry.root, prefix).value, prefix);
    result := registry.DeleteKeyRecursively(prefix);
  }
}
