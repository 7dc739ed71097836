/** `findFile` (3rdpart/common/include/common/utils/path.h:58-82): a search of a directory tree with an
    explicit stack. */
module FindFile {

  import opened Options

  type Path = seq<string>

  /** An entry of a file system; `Special` is neither a regular file nor a directory. */
  datatype Node =
    | File(name: string)
    | Directory(name: string, readable: bool, entries: seq<Node>)
    | Special(name: string)

  /** A directory waiting on the stack. */
  datatype Located = Located(path: Path, node: Node)

  /** What a directory iterator yields; nothing when the directory cannot be opened. */
  function Listing(n: Node): seq<Node> {
    if n.Directory? && n.readable then n.entries else []
  }

  function Size(n: Node): nat
    decreases n, 1
  {
    1 + if n.Directory? then SizeAll(n.entries) else 0
  }

  function SizeAll(ns: seq<Node>): nat
    decreases ns, 0
  {
    if ns == [] then 0 else Size(ns[0]) + SizeAll(ns[1..])
  }

  function StackSize(stack: seq<Located>): nat {
    if stack == [] then 0 else StackSize(stack[..|stack| - 1]) + Size(stack[|stack| - 1].node)
  }

  // ---- What there is to find ----

  /** Names leading from `n`, through readable directories, to a regular file. */
  predicate Leads(n: Node, names: Path)
    decreases |names|, 1
  {
    LeadsFrom(Listing(n), names)
  }

  predicate LeadsFrom(ns: seq<Node>, names: Path)
    decreases |names|, 0
  {
    && names != []
    && exists i :: 0 <= i < |ns| && ns[i].name == names[0]
         && if |names| == 1 then ns[i].File? else ns[i].Directory? && Leads(ns[i], names[1..])
  }

  /** The paths of the regular files called `name` below `n`, which stands at `at`. */
  function Matches(n: Node, at: Path, name: string): set<Path>
    decreases n, 1
  {
    if n.Directory? && n.readable then MatchesAmong(n.entries, at, name) else {}
  }

  function MatchesAmong(ns: seq<Node>, at: Path, name: string): set<Path>
    decreases ns, 0
  {
    if ns == [] then {}
    else
      (match ns[0]
       case File(n) => if n == name then {at + [n]} else {}
       case Directory(n, _, _) => Matches(ns[0], at + [n], name)
       case Special(_) => {})
      + MatchesAmong(ns[1..], at, name)
  }

  function MatchesOnStack(stack: seq<Located>, name: string): set<Path> {
    if stack == [] then {}
    else
      var top := stack[|stack| - 1];
      MatchesOnStack(stack[..|stack| - 1], name) + Matches(top.node, top.path, name)
  }

  /** `Matches` is what one means by it: the files of that name some chain of names leads to. */
  lemma {:induction false} MatchesExactly(n: Node, at: Path, name: string, names: Path)
    ensures at + names in Matches(n, at, name) <==> names != [] && names[|names| - 1] == name && Leads(n, names)
    decreases n, 1
  {
    if n.Directory? && n.readable {
      MatchesAmongExactly(n.entries, at, name, names);
    }
  }

  lemma {:induction false} MatchesAmongExactly(ns: seq<Node>, at: Path, name: string, names: Path)
    ensures at + names in MatchesAmong(ns, at, name)
            <==> names != [] && names[|names| - 1] == name && LeadsFrom(ns, names)
    decreases ns, 0
  {
    if ns == [] {
    } else {
      MatchesAmongExactly(ns[1..], at, name, names);
      LeadsFromFirst(ns, names);
      match ns[0] {
        case File(n) => assert at + names == at + [n] <==> names == [n] by {
          if at + names == at + [n] { assert names == (at + names)[|at|..]; }
        }
        case Directory(n, _, _) => MatchesInDirectory(ns[0], at, name, names);
        case Special(_) =>
      }
    }
  }

  lemma LeadsFromFirst(ns: seq<Node>, names: Path)
    requires ns != []
    ensures LeadsFrom(ns, names) <==>
            || LeadsFrom(ns[1..], names)
            || (names != [] && ns[0].name == names[0]
                && if |names| == 1 then ns[0].File? else ns[0].Directory? && Leads(ns[0], names[1..]))
  {
    if LeadsFrom(ns[1..], names) {
      var i :| 0 <= i < |ns[1..]| && ns[1..][i].name == names[0]
               && if |names| == 1 then ns[1..][i].File? else ns[1..][i].Directory? && Leads(ns[1..][i], names[1..]);
      assert ns[i + 1] == ns[1..][i];
    }
    if LeadsFrom(ns, names) {
      var i :| 0 <= i < |ns| && ns[i].name == names[0]
               && if |names| == 1 then ns[i].File? else ns[i].Directory? && Leads(ns[i], names[1..]);
      if i > 0 {
        assert ns[1..][i - 1] == ns[i];
      }
    }
  }

  lemma {:induction false} MatchesInDirectory(d: Node, at: Path, name: string, names: Path)
    requires d.Directory?
    ensures at + names in Matches(d, at + [d.name], name) <==>
            |names| > 1 && names[0] == d.name && Leads(d, names[1..]) && names[|names| - 1] == name
    decreases d, 2
  {
    var child := at + [d.name];
    if names != [] && names[0] == d.name {
      assert child + names[1..] == at + names;
      MatchesExactly(d, child, name, names[1..]);
    } else if at + names in Matches(d, child, name) {
      MatchesBelow(d, child, name, at + names);
      FirstName(at, d.name, names);
    }
  }

  lemma FirstName(at: Path, x: string, names: Path)
    requires at + [x] < at + names
    ensures |names| > 1 && names[0] == x
  {
    assert (at + names)[|at|] == (at + [x])[|at|];
  }

  lemma {:induction false} MatchesBelow(n: Node, at: Path, name: string, p: Path)
    requires p in Matches(n, at, name)
    ensures at < p
    decreases n, 1
  {
    MatchesAmongBelow(n.entries, at, name, p);
  }

  lemma {:induction false} MatchesAmongBelow(ns: seq<Node>, at: Path, name: string, p: Path)
    requires p in MatchesAmong(ns, at, name)
    ensures at < p
    decreases ns, 0
  {
    if p in MatchesAmong(ns[1..], at, name) {
      MatchesAmongBelow(ns[1..], at, name, p);
    } else if ns[0].Directory? {
      MatchesBelow(ns[0], at + [ns[0].name], name, p);
    }
  }

  // ---- The search ----

  /** Sound and complete on every finite tree: a path is returned if and only if a regular file of that
      name can be reached, and the path returned is one of its paths. */
  method Find(directory: Path, root: Node, name: string) returns (result: Option<Path>)
    ensures result.None? <==> Matches(root, directory, name) == {}
    ensures result.Some? ==> result.value in Matches(root, directory, name)
  {
    var dirsToSearch := [Located(directory, root)];
    StackPush([], Located(directory, root), name);
    while dirsToSearch != []
      invariant MatchesOnStack(dirsToSearch, name) == Matches(root, directory, name)
      decreases StackSize(dirsToSearch)
    {
      var current := dirsToSearch[|dirsToSearch| - 1];
      dirsToSearch := dirsToSearch[..|dirsToSearch| - 1];
      ghost var below := StackSize(dirsToSearch) + Size(current.node);
      var listing := Listing(current.node);
      assert listing[0..] == listing;
      for i := 0 to |listing|
        invariant MatchesOnStack(dirsToSearch, name) + MatchesAmong(listing[i..], current.path, name)
               == Matches(root, directory, name)
        invariant StackSize(dirsToSearch) + SizeAll(listing[i..]) < below
      {
        var entry := listing[i];
        assert listing[i..][1..] == listing[i + 1..];
        if entry.File? && entry.name == name {
          return Some(current.path + [entry.name]);
        } else if entry.Directory? {
          StackPush(dirsToSearch, Located(current.path + [entry.name], entry), name);
          dirsToSearch := dirsToSearch + [Located(current.path + [entry.name], entry)];
        }
      }
    }
    result := None;
  }

  lemma StackPush(stack: seq<Located>, x: Located, name: string)
    ensures MatchesOnStack(stack + [x], name) == MatchesOnStack(stack, name) + Matches(x.node, x.path, name)
    ensures StackSize(stack + [x]) == StackSize(stack) + Size(x.node)
  {
    assert (stack + [x])[..|stack|] == stack;
  }
}
