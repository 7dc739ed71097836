/** Keys of the registry (3rdpart/systemkit/src/windows/registry_manager_windows.cpp) as a tree, and the tree
    with one key replaced. */
module RegistryTree {

  import opened Options

  const ERROR_SUCCESS := 0
  const ERROR_FILE_NOT_FOUND := 2
  const ERROR_ACCESS_DENIED := 5

  /** A key: `open` is what the system answers when the key is opened for reading, `remove` what it answers when
      the key is deleted once it has no subkeys: 0, or why not. Either may be ERROR_FILE_NOT_FOUND though the key
      is enumerated. Enumeration lists `children` in order. */
  datatype Key = Key(name: string, open: int, remove: int, children: seq<Key>)

  /** A key is reached from the root by the names on the way. */
  type Path = seq<string>

  function Size(k: Key): nat
    decreases k, 1
  {
    1 + SizeAll(k.children)
  }

  function SizeAll(ks: seq<Key>): nat
    decreases ks, 0
  {
    if ks == [] then 0 else Size(ks[0]) + SizeAll(ks[1..])
  }

  /** The first key of that name, or the length of the list. */
  function Index(ks: seq<Key>, name: string): (i: nat)
    ensures i <= |ks|
    ensures i < |ks| ==> ks[i].name == name
    ensures forall j :: 0 <= j < i ==> ks[j].name != name
  {
    if ks == [] then 0 else if ks[0].name == name then 0 else 1 + Index(ks[1..], name)
  }

  function Find(k: Key, p: Path): Option<Key>
    decreases |p|
  {
    if p == [] then Some(k)
    else
      var i := Index(k.children, p[0]);
      if i == |k.children| then None else Find(k.children[i], p[1..])
  }

  function Listed(x: Option<Key>): seq<Key> {
    if x.Some? then [x.value] else []
  }

  /** The tree with the key at `p` replaced, or removed. */
  function Put(k: Key, p: Path, x: Option<Key>): Key
    requires p == [] ==> x.Some?
    decreases |p|
  {
    if p == [] then x.value
    else
      var i := Index(k.children, p[0]);
      if i == |k.children| then k
      else
        var c := if |p| == 1 then x else Some(Put(k.children[i], p[1..], x));
        k.(children := k.children[..i] + Listed(c) + k.children[i + 1..])
  }

  // ---- The tree under replacement ----

  lemma IndexAt(ks: seq<Key>, i: nat, x: Key, name: string)
    requires i < |ks| && i == Index(ks, name) && x.name == name
    ensures Index(ks[..i] + [x] + ks[i + 1..], name) == i
  {
    var after := ks[..i] + [x] + ks[i + 1..];
    assert after[i] == x;
    assert forall j :: 0 <= j < i ==> after[j] == ks[j];
  }

  lemma {:induction false} FindPut(k: Key, p: Path, x: Key)
    requires Find(k, p).Some? && (p != [] ==> x.name == p[|p| - 1])
    ensures Find(Put(k, p, Some(x)), p) == Some(x)
    decreases |p|
  {
    if p == [] {
      return;
    }
    var i := Index(k.children, p[0]);
    if |p| == 1 {
      IndexAt(k.children, i, x, p[0]);
    } else {
      FindPut(k.children[i], p[1..], x);
      IndexAt(k.children, i, Put(k.children[i], p[1..], Some(x)), p[0]);
    }
  }

  lemma {:induction false} PutPut(k: Key, p: Path, x: Key, y: Option<Key>)
    requires Find(k, p).Some? && (if p == [] then y.Some? else x.name == p[|p| - 1])
    ensures Put(Put(k, p, Some(x)), p, y) == Put(k, p, y)
    decreases |p|
  {
    if p == [] {
      return;
    }
    var i := Index(k.children, p[0]);
    var c := k.children[i];
    var d := if |p| == 1 then x else Put(c, p[1..], Some(x));
    IndexAt(k.children, i, d, p[0]);
    if |p| > 1 {
      PutPut(c, p[1..], x, y);
    }
    Around(k.children, i, d);
  }

  /** The list with one key replaced is as before around it. */
  lemma Around(ks: seq<Key>, i: nat, d: Key)
    requires i < |ks|
    ensures var after := ks[..i] + [d] + ks[i + 1..];
            after[i] == d && after[..i] == ks[..i] && after[i + 1..] == ks[i + 1..]
  {
  }

  /** The first child of a key is found under its name, and replacing it is replacing the list's head. */
  lemma {:induction false} FirstChild(k: Key, p: Path, x: Option<Key>)
    requires Find(k, p).Some? && Find(k, p).value.children != []
    ensures var at := Find(k, p).value;
            && Find(k, p + [at.children[0].name]) == Some(at.children[0])
            && Put(k, p + [at.children[0].name], x)
               == Put(k, p, Some(at.(children := Listed(x) + at.children[1..])))
    decreases |p|
  {
    var at := Find(k, p).value;
    var c := at.children[0].name;
    var q := p + [c];
    if p == [] {
      HeadChild(k, x);
      assert q == [c];
      return;
    }
    var i := Index(k.children, p[0]);
    assert q[0] == p[0] && q[1..] == p[1..] + [c];
    if |p| == 1 {
      assert k.children[i] == at;
      HeadChild(at, x);
      assert q[1..] == [c];
    } else {
      FirstChild(k.children[i], p[1..], x);
    }
  }

  lemma HeadChild(at: Key, x: Option<Key>)
    requires at.children != []
    ensures Find(at, [at.children[0].name]) == Some(at.children[0])
    ensures Put(at, [at.children[0].name], x) == at.(children := Listed(x) + at.children[1..])
  {
    var q := [at.children[0].name];
    assert q[1..] == [];
    assert Index(at.children, q[0]) == 0;
    assert at.children[..0] + Listed(x) + at.children[1..] == Listed(x) + at.children[1..];
  }

  lemma {:induction false} PutSame(k: Key, p: Path)
    requires Find(k, p).Some?
    ensures Put(k, p, Find(k, p)) == k
    ensures p != [] ==> Find(k, p).value.name == p[|p| - 1]
    decreases |p|
  {
    if p == [] {
      return;
    }
    var i := Index(k.children, p[0]);
    if |p| > 1 {
      PutSame(k.children[i], p[1..]);
    } else {
      assert p[1..] == [];
    }
    assert k.children == k.children[..i] + [k.children[i]] + k.children[i + 1..];
  }

  lemma SizeOfChild(k: Key)
    requires k.children != []
    ensures Size(k.children[0]) < Size(k)
    ensures SizeAll(k.children[1..]) < SizeAll(k.children)
  {
  }
}
