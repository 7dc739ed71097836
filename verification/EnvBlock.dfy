/** Environment blocks: `createEnvironmentBlock`
    (3rdpart/systemkit/src/windows/process_launcher_windows.cpp:80-126) prints one, and the same file and
    `getAll` and `getNames` (3rdpart/systemkit/src/windows/environment_variables_windows.cpp) parse them.
    Text is a sequence of UTF-16 code units. */
module EnvBlock {
  import opened Lexicographic
  import opened RegistryCodec

  type Text = seq<Unit>

  const EQUALS: Unit := 0x3D

  datatype Variable = Variable(name: Text, value: Text)

  /** A `std::map` from names to values: its entries in the order of iteration. */
  type EnvMap = seq<Variable>

  predicate Ascending(m: EnvMap) {
    forall i, j :: 0 <= i < j < |m| ==> Less(m[i].name, m[j].name)
  }

  /** `m[name] = value` */
  function Insert(m: EnvMap, v: Variable): EnvMap {
    if m == [] then [v]
    else if Less(v.name, m[0].name) then [v] + m
    else if v.name == m[0].name then [v] + m[1..]
    else [m[0]] + Insert(m[1..], v)
  }

  function InsertAll(m: EnvMap, vs: seq<Variable>): EnvMap
    decreases |vs|
  {
    if vs == [] then m else InsertAll(Insert(m, vs[0]), vs[1..])
  }

  predicate HasName(m: EnvMap, name: Text) {
    exists i :: 0 <= i < |m| && m[i].name == name
  }

  // ---- The map ----

  lemma {:induction false} InsertMembers(m: EnvMap, v: Variable)
    ensures v in Insert(m, v)
    ensures forall x :: x in Insert(m, v) ==> x == v || x in m
    ensures forall x :: x in m && x.name != v.name ==> x in Insert(m, v)
  {
    if m != [] && !Less(v.name, m[0].name) && v.name != m[0].name {
      InsertMembers(m[1..], v);
      assert Insert(m, v)[1..] == Insert(m[1..], v);
    }
  }

  lemma {:induction false} InsertAscending(m: EnvMap, v: Variable)
    requires Ascending(m)
    ensures Ascending(Insert(m, v))
  {
    if m == [] {
    } else {
      var rest := m[1..];
      if Less(v.name, m[0].name) {
        ConsAscending(v, m);
      } else if v.name == m[0].name {
        if rest != [] { ConsAscending(v, rest); }
      } else {
        Total(v.name, m[0].name);
        InsertAscending(rest, v);
        InsertMembers(rest, v);
        assert forall x :: x in rest ==> Less(m[0].name, x.name);
        assert Insert(rest, v)[0] in Insert(rest, v);
        ConsAscending(m[0], Insert(rest, v));
      }
    }
  }

  lemma ConsAscending(v: Variable, m: EnvMap)
    requires Ascending(m) && m != [] && Less(v.name, m[0].name)
    ensures Ascending([v] + m)
  {
    var a := [v] + m;
    forall i, j | 0 <= i < j < |a| ensures Less(a[i].name, a[j].name) {
      if i == 0 && j > 1 {
        Transitive(v.name, m[0].name, m[j - 1].name);
      }
    }
  }

  /** A name greater than all the others goes to the end. */
  lemma {:induction false} InsertLast(m: EnvMap, v: Variable)
    requires forall x :: x in m ==> Less(x.name, v.name)
    ensures Insert(m, v) == m + [v]
  {
    if m == [] {
    } else {
      assert m[0] in m;
      NotBoth(m[0].name, v.name);
      InsertLast(m[1..], v);
    }
  }

  lemma NotBoth(a: Text, b: Text)
    requires Less(a, b)
    ensures a != b && !Less(b, a)
  {
    Irreflexive(a);
    if Less(b, a) {
      Transitive(a, b, a);
    }
  }

  lemma {:induction false} InsertAllAscending(m: EnvMap, vs: seq<Variable>)
    requires Ascending(m)
    ensures Ascending(InsertAll(m, vs))
    decreases |vs|
  {
    if vs == [] {
    } else {
      InsertAscending(m, vs[0]);
      InsertAllAscending(Insert(m, vs[0]), vs[1..]);
    }
  }

  /** Inserting an ascending list in order, above everything there, appends it. */
  lemma {:induction false} InsertAllInOrder(m: EnvMap, vs: EnvMap)
    requires Ascending(m + vs)
    ensures InsertAll(m, vs) == m + vs
    decreases |vs|
  {
    if vs == [] {
      assert m + vs == m;
    } else {
      forall x | x in m ensures Less(x.name, vs[0].name) {
        var i :| 0 <= i < |m| && m[i] == x;
        assert (m + vs)[i] == x && (m + vs)[|m|] == vs[0];
      }
      InsertLast(m, vs[0]);
      assert (m + [vs[0]]) + vs[1..] == m + vs;
      InsertAllInOrder(m + [vs[0]], vs[1..]);
    }
  }

  // ---- Parsing ----

  /** The position of the first equals sign, or the length. */
  function FindEquals(entry: Text): (n: nat)
    ensures n <= |entry| && EQUALS !in entry[..n] && (n < |entry| ==> entry[n] == EQUALS)
  {
    if entry == [] || entry[0] == EQUALS then 0
    else
      var n := FindEquals(entry[1..]);
      assert entry[..n + 1] == [entry[0]] + entry[1..][..n];
      n + 1
  }

  /** The variable an entry sets, if any: entries without an equals sign, or starting with one, are skipped. */
  function Parsed(entry: Text): seq<Variable> {
    var n := FindEquals(entry);
    if 0 < n < |entry| then [Variable(entry[..n], entry[n + 1..])] else []
  }

  function Bare(v: Variable): Text {
    v.name + [EQUALS] + v.value
  }

  function ParsedAll(entries: seq<Text>): seq<Variable> {
    if entries == [] then [] else Parsed(entries[0]) + ParsedAll(entries[1..])
  }

  /** An entry that sets a variable is its name, which is not empty and has no equals sign, an equals sign, and
      its value. */
  ghost predicate Sets(entry: Text, v: Variable) {
    entry == Bare(v) && v.name != [] && EQUALS !in v.name
  }

  lemma SplitAt(name: Text, rest: Text)
    requires EQUALS !in name
    ensures FindEquals(name + [EQUALS] + rest) == |name|
  {
    var entry := name + [EQUALS] + rest;
    assert entry[|name|] == EQUALS;
    assert forall i :: 0 <= i < |name| ==> entry[i] == name[i];
    assert forall i :: 0 <= i < FindEquals(entry) ==> entry[..FindEquals(entry)][i] == entry[i];
  }

  /** An entry is read as the variable it sets, and as none exactly when it has no equals sign or starts with one. */
  lemma ParsedExactly(entry: Text)
    ensures forall v :: v in Parsed(entry) <==> Sets(entry, v)
    ensures Parsed(entry) == [] <==> EQUALS !in entry || entry[0] == EQUALS
  {
    var n := FindEquals(entry);
    if 0 < n < |entry| {
      assert entry == entry[..n] + [EQUALS] + entry[n + 1..];
    }
    assert n == |entry| ==> entry[..n] == entry;
    forall v | Sets(entry, v) ensures v in Parsed(entry) {
      SplitAt(v.name, v.value);
      assert Bare(v)[..|v.name|] == v.name && Bare(v)[|v.name| + 1..] == v.value;
    }
  }

  /** The map a block stands for. */
  function EnvOf(block: Text): EnvMap {
    InsertAll([], ParsedAll(AsMultiString(block)))
  }

  /** A block as the system hands it out: it ends in NUL, and with an empty entry. */
  predicate WellFormed(block: Text) {
    && block != [] && block[|block| - 1] == 0
    && (|block| > 1 ==> block[|block| - 2] == 0)
  }

  /** The variables set by the entries from `current` on. */
  function SetFrom(block: Text, current: nat): seq<Variable>
    requires current <= |block|
  {
    ParsedAll(AsMultiString(block[current..]))
  }

  /** One turn of a parsing loop. */
  lemma Turn(block: Text, current: nat, entry: Text)
    requires WellFormed(block) && current < |block| && block[current] != 0
    requires entry == CString(block[current..]) && current + |entry| < |block|
    ensures current + |entry| + 1 < |block|
    ensures SetFrom(block, current) == Parsed(entry) + SetFrom(block, current + |entry| + 1)
  {
    StopsEarly(block[current..]);
    var rest := block[current + |entry| + 1..];
    assert block[current..][|entry| + 1..] == rest;
    assert AsMultiString(block[current..]) == [entry] + AsMultiString(rest);
    assert ([entry] + AsMultiString(rest))[1..] == AsMultiString(rest);
  }

  lemma {:induction false} StopsEarly(data: Text)
    requires |data| > 1 && data[|data| - 2] == 0
    ensures |CString(data)| <= |data| - 2
  {
    if data[0] != 0 && |data| > 2 {
      StopsEarly(data[1..]);
    }
  }

  method SplitEntry(entry: Text) returns (found: seq<Variable>)
    ensures found == Parsed(entry) && |found| <= 1
    ensures found != [] ==> Sets(entry, found[0])
    ensures found == [] <==> EQUALS !in entry || entry[0] == EQUALS
  {
    ParsedExactly(entry);
    found := [];
    var equalsPos := FindEquals(entry);
    if equalsPos < |entry| && equalsPos > 0 {
      found := [Variable(entry[..equalsPos], entry[equalsPos + 1..])];
    }
  }

  /** The body shared by the parsing loops: read the entry at `current`, split it, and move on. */
  method ReadEntry(block: Text, current: nat) returns (found: seq<Variable>, next: nat)
    requires WellFormed(block) && current < |block| && block[current] != 0
    ensures current < next < |block| && |found| <= 1
    ensures SetFrom(block, current) == found + SetFrom(block, next)
  {
    var entry := ReadString(block, current);
    found := SplitEntry(entry);
    Turn(block, current, entry);
    next := current + |entry| + 1;
  }

  lemma SetFromStart(block: Text)
    ensures SetFrom(block, 0) == ParsedAll(AsMultiString(block))
  {
    assert block[0..] == block;
  }

  lemma SetFromEnd(block: Text, current: nat)
    requires current < |block| && block[current] == 0
    ensures SetFrom(block, current) == []
  {
  }

  /** `getAll` for the process; `createEnvironmentBlock` starts with the same loop. */
  method GetAll(block: Text) returns (envVars: EnvMap)
    requires WellFormed(block)
    ensures envVars == EnvOf(block)
  {
    envVars := [];
    var current := 0;
    SetFromStart(block);
    while block[current] != 0
      invariant current < |block|
      invariant EnvOf(block) == InsertAll(envVars, SetFrom(block, current))
      decreases |block| - current
    {
      var found, next := ReadEntry(block, current);
      InsertFound(envVars, found, SetFrom(block, next));
      if found != [] {
        envVars := Insert(envVars, found[0]);
      }
      current := next;
    }
    SetFromEnd(block, current);
  }

  lemma InsertFound(m: EnvMap, found: seq<Variable>, rest: seq<Variable>)
    requires |found| <= 1
    ensures InsertAll(m, found + rest) == InsertAll(if found == [] then m else Insert(m, found[0]), rest)
  {
    if found == [] {
      assert found + rest == rest;
    } else {
      assert (found + rest)[1..] == rest;
    }
  }

  function NamesOf(vs: seq<Variable>): seq<Text> {
    if vs == [] then [] else [vs[0].name] + NamesOf(vs[1..])
  }

  function NamesIn(block: Text): seq<Text> {
    NamesOf(ParsedAll(AsMultiString(block)))
  }

  lemma Regrouped<T>(a: seq<T>, b: seq<T>, c: seq<T>)
    ensures a + (b + c) == (a + b) + c
  {
  }

  /** `getNames` for the process: the names in the order of the block, repeated ones repeated. */
  method GetNames(block: Text) returns (names: seq<Text>)
    requires WellFormed(block)
    ensures names == NamesIn(block)
  {
    names := [];
    var current := 0;
    ghost var read: seq<Variable> := [];
    ghost var all := SetFrom(block, 0);
    while block[current] != 0
      invariant current < |block|
      invariant all == read + SetFrom(block, current)
      invariant names == NamesOf(read)
      decreases |block| - current
    {
      var found, next := ReadEntry(block, current);
      NamesOfJoined(read, found);
      Regrouped(read, found, SetFrom(block, next));
      if found != [] {
        names := names + [found[0].name];
      }
      read := read + found;
      current := next;
    }
    SetFromEnd(block, current);
    SetFromStart(block);
    assert all == read;
  }

  lemma NamesOfJoined(vs: seq<Variable>, found: seq<Variable>)
    requires |found| <= 1
    ensures NamesOf(vs + found) == NamesOf(vs) + (if found == [] then [] else [found[0].name])
  {
    if found == [] {
      assert vs + found == vs;
    } else {
      assert found == [found[0]];
      NamesOfNext(vs, found[0]);
    }
  }

  lemma {:induction false} NamesOfNext(vs: seq<Variable>, v: Variable)
    ensures NamesOf(vs + [v]) == NamesOf(vs) + [v.name]
  {
    if vs == [] {
      assert vs + [v] == [v] && [v][1..] == [];
    } else {
      assert (vs + [v])[1..] == vs[1..] + [v];
      NamesOfNext(vs[1..], v);
    }
  }

  /** The entries that set a variable: they have an equals sign and do not start with one. */
  function Setting(entries: seq<Text>): seq<Text> {
    if entries == [] then []
    else
      (if EQUALS in entries[0] && entries[0][0] != EQUALS then [entries[0]] else []) + Setting(entries[1..])
  }

  /** The names stand in the order of the entries that set them, each what comes before its equals sign. */
  ghost predicate NamesOfEntries(names: seq<Text>, entries: seq<Text>) {
    && |names| == |entries|
    && forall i :: 0 <= i < |names| ==> EQUALS !in names[i] && names[i] + [EQUALS] <= entries[i]
  }

  lemma {:induction false} NamesFollowEntries(entries: seq<Text>)
    ensures NamesOfEntries(NamesOf(ParsedAll(entries)), Setting(entries))
  {
    if entries == [] {
    } else {
      NamesFollowEntries(entries[1..]);
      ParsedExactly(entries[0]);
      var first, rest := Parsed(entries[0]), ParsedAll(entries[1..]);
      if first == [] {
        assert first + rest == rest;
        assert Setting(entries) == Setting(entries[1..]);
      } else {
        NameComesFirst(entries[0], first[0]);
        assert (first + rest)[0] == first[0] && (first + rest)[1..] == rest;
        assert NamesOf(first + rest) == [first[0].name] + NamesOf(rest);
        assert Setting(entries) == [entries[0]] + Setting(entries[1..]);
      }
    }
  }

  lemma NameComesFirst(entry: Text, v: Variable)
    requires v in Parsed(entry)
    ensures EQUALS !in v.name && v.name + [EQUALS] <= entry
  {
    ParsedExactly(entry);
    assert Bare(v) == (v.name + [EQUALS]) + v.value;
  }

  /** `getNames` lists the names in the order of the block, repeated ones repeated. */
  lemma NamesInOrder(block: Text)
    ensures var entries := AsMultiString(block); NamesOfEntries(NamesIn(block), Setting(entries))
  {
    var entries := AsMultiString(block);
    NamesFollowEntries(entries);
    assert NamesIn(block) == NamesOf(ParsedAll(entries));
  }

  lemma {:induction false} NamesListed(vs: seq<Variable>, name: Text)
    ensures name in NamesOf(vs) <==> HasName(vs, name)
  {
    if vs == [] {
    } else {
      NamesListed(vs[1..], name);
      HasNameCons(vs, name);
    }
  }

  /** The names listed are exactly the keys of the map. */
  lemma NamesAreKeys(block: Text, name: Text)
    ensures name in NamesIn(block) <==> HasName(EnvOf(block), name)
  {
    var vs := ParsedAll(AsMultiString(block));
    KeysInserted([], vs, name);
    NamesListed(vs, name);
  }

  lemma {:induction false} KeysInserted(m: EnvMap, vs: seq<Variable>, name: Text)
    ensures HasName(InsertAll(m, vs), name) <==> HasName(m, name) || HasName(vs, name)
    decreases |vs|
  {
    if vs == [] {
    } else {
      KeysInserted(Insert(m, vs[0]), vs[1..], name);
      KeyInserted(m, vs[0], name);
      HasNameCons(vs, name);
    }
  }

  lemma HasNameCons(vs: seq<Variable>, name: Text)
    requires vs != []
    ensures HasName(vs, name) <==> vs[0].name == name || HasName(vs[1..], name)
  {
    if HasName(vs[1..], name) {
      var i :| 0 <= i < |vs[1..]| && vs[1..][i].name == name;
      assert vs[i + 1].name == name;
    }
    if HasName(vs, name) {
      var i :| 0 <= i < |vs| && vs[i].name == name;
      if i > 0 {
        assert vs[1..][i - 1].name == name;
      }
    }
  }

  lemma {:induction false} KeyInserted(m: EnvMap, v: Variable, name: Text)
    ensures HasName(Insert(m, v), name) <==> HasName(m, name) || v.name == name
  {
    HasNameCons(Insert(m, v), name);
    if m != [] {
      HasNameCons(m, name);
      if Less(v.name, m[0].name) {
        assert ([v] + m)[1..] == m;
      } else if v.name == m[0].name {
        assert ([v] + m[1..])[1..] == m[1..];
      } else {
        KeyInserted(m[1..], v, name);
        assert Insert(m, v)[1..] == Insert(m[1..], v);
      }
    }
  }

  /** No name twice, as in any map; the order is that of the map the overrides come from. */
  predicate Distinct(vs: seq<Variable>) {
    forall i, j :: 0 <= i < j < |vs| ==> vs[i].name != vs[j].name
  }

  // ---- What parsing means ----

  lemma {:induction false} InsertAllAppend(m: EnvMap, vs: seq<Variable>, more: seq<Variable>)
    ensures InsertAll(m, vs + more) == InsertAll(InsertAll(m, vs), more)
    decreases |vs|
  {
    if vs == [] {
      assert vs + more == more;
    } else {
      assert (vs + more)[1..] == vs[1..] + more;
      InsertAllAppend(Insert(m, vs[0]), vs[1..], more);
    }
  }

  lemma {:induction false} ParsedAllAppend(entries: seq<Text>, last: Text)
    ensures ParsedAll(entries + [last]) == ParsedAll(entries) + Parsed(last)
  {
    if entries == [] {
      assert entries + [last] == [last] && [last][1..] == [];
    } else {
      assert (entries + [last])[1..] == entries[1..] + [last];
      ParsedAllAppend(entries[1..], last);
      Regrouped(Parsed(entries[0]), ParsedAll(entries[1..]), Parsed(last));
    }
  }

  /** A map keeps one value per name: the one inserted last. */
  lemma {:induction false} InsertExactly(m: EnvMap, v: Variable, x: Variable)
    requires Ascending(m)
    ensures x in Insert(m, v) <==> x == v || (x in m && x.name != v.name)
  {
    InsertMembers(m, v);
    InsertAscending(m, v);
    if x in Insert(m, v) && x != v {
      NamesDiffer(Insert(m, v), x, v);
    }
  }

  lemma NamesDiffer(m: EnvMap, x: Variable, y: Variable)
    requires Ascending(m) && x in m && y in m && x != y
    ensures x.name != y.name
  {
    Irreflexive(x.name);
  }

  /** The entry sets the variable, and no later one sets the same name. */
  ghost predicate SetsLast(entries: seq<Text>, i: nat, v: Variable) {
    i < |entries| && Sets(entries[i], v)
    && forall j, w :: i < j < |entries| && Sets(entries[j], w) ==> w.name != v.name
  }

  ghost predicate SetBySome(entries: seq<Text>, v: Variable) {
    exists i: nat :: SetsLast(entries, i, v)
  }

  /** The map has a variable exactly when some entry sets it and no later one sets the same name. */
  lemma {:induction false} MapOfEntries(entries: seq<Text>, v: Variable)
    ensures v in InsertAll([], ParsedAll(entries)) <==> SetBySome(entries, v)
  {
    if entries == [] {
    } else {
      var n := |entries| - 1;
      var init, last := entries[..n], entries[n];
      assert entries == init + [last];
      MapOfEntries(init, v);
      ParsedAllAppend(init, last);
      InsertAllAppend([], ParsedAll(init), Parsed(last));
      InsertAllAscending([], ParsedAll(init));
      ParsedExactly(last);
      LastEntry(InsertAll([], ParsedAll(init)), last, v);
      SetsLastNext(init, last, v);
    }
  }

  lemma LastEntry(m: EnvMap, last: Text, v: Variable)
    requires Ascending(m)
    ensures v in InsertAll(m, Parsed(last)) <==>
              Sets(last, v) || (v in m && forall w :: Sets(last, w) ==> w.name != v.name)
  {
    ParsedExactly(last);
    if Parsed(last) != [] {
      var w := Parsed(last)[0];
      assert Parsed(last) == [w] && [w][1..] == [];
      assert InsertAll(m, [w]) == Insert(m, w);
      InsertExactly(m, w, v);
    }
  }

  lemma SetsLastNext(init: seq<Text>, last: Text, v: Variable)
    ensures SetBySome(init + [last], v) <==>
              Sets(last, v) || (SetBySome(init, v) && forall w :: Sets(last, w) ==> w.name != v.name)
  {
    var all := init + [last];
    if Sets(last, v) {
      assert SetsLast(all, |init|, v);
    }
    if i: nat :| SetsLast(init, i, v) && forall w :: Sets(last, w) ==> w.name != v.name {
      assert SetsLast(all, i, v);
    }
    if i: nat :| SetsLast(all, i, v) {
      if i < |init| {
        assert all[|init|] == last;
        assert forall j :: 0 <= j < |init| ==> all[j] == init[j];
        assert SetsLast(init, i, v);
      }
    }
  }

  /** `getAll` yields a variable exactly when some entry of the block sets it and no later one sets the same name. */
  lemma EnvOfExactly(block: Text, v: Variable)
    ensures var entries := AsMultiString(block);
            v in EnvOf(block) <==> SetBySome(entries, v)
  {
    var entries := AsMultiString(block);
    MapOfEntries(entries, v);
    assert EnvOf(block) == InsertAll([], ParsedAll(entries));
  }

  ghost predicate SetsName(entry: Text, name: Text) {
    exists v :: Sets(entry, v) && v.name == name
  }

  lemma {:induction false} NamesSet(entries: seq<Text>, name: Text)
    ensures HasName(ParsedAll(entries), name) <==> exists i :: 0 <= i < |entries| && SetsName(entries[i], name)
  {
    if entries == [] {
    } else {
      var first, rest := Parsed(entries[0]), ParsedAll(entries[1..]);
      NamesSet(entries[1..], name);
      ParsedExactly(entries[0]);
      FirstSets(entries[0], name);
      if first == [] {
        assert first + rest == rest;
      } else {
        HasNameCons(first + rest, name);
        assert (first + rest)[1..] == rest;
      }
      assert forall i :: 0 < i < |entries| ==> entries[i] == entries[1..][i - 1];
      assert forall i :: 0 <= i < |entries[1..]| ==> entries[1..][i] == entries[i + 1];
    }
  }

  lemma FirstSets(entry: Text, name: Text)
    ensures SetsName(entry, name) <==> Parsed(entry) != [] && Parsed(entry)[0].name == name
  {
    ParsedExactly(entry);
    if Parsed(entry) != [] {
      assert Parsed(entry)[0] in Parsed(entry);
    }
  }

  /** The keys, so the names `getNames` lists too, are exactly the names some entry of the block sets. */
  lemma KeysExactly(block: Text, name: Text)
    ensures var entries := AsMultiString(block);
            HasName(EnvOf(block), name) <==> exists i :: 0 <= i < |entries| && SetsName(entries[i], name)
  {
    var entries := AsMultiString(block);
    NamesSet(entries, name);
    KeysInserted([], ParsedAll(entries), name);
    assert EnvOf(block) == InsertAll([], ParsedAll(entries));
  }

  /** Overriding: an override is there, and a variable of the map as long as none has its name. */
  lemma {:induction false} OverriddenExactly(m: EnvMap, vs: seq<Variable>, v: Variable)
    requires Ascending(m) && Distinct(vs)
    ensures v in InsertAll(m, vs) <==> v in vs || (v in m && forall w :: w in vs ==> w.name != v.name)
    decreases |vs|
  {
    if vs == [] {
    } else {
      InsertAscending(m, vs[0]);
      InsertExactly(m, vs[0], v);
      OverriddenExactly(Insert(m, vs[0]), vs[1..], v);
      assert vs == [vs[0]] + vs[1..];
    }
  }

  // ---- Printing ----

  function Printed(m: EnvMap): Text {
    if m == [] then [] else Bare(m[0]) + [0] + Printed(m[1..])
  }

  function BareLengths(m: EnvMap): nat {
    if m == [] then 0 else |m[0].name| + |m[0].value| + 2 + BareLengths(m[1..])
  }

  lemma {:induction false} PrintedLength(m: EnvMap)
    ensures |Printed(m)| == BareLengths(m)
  {
    if m == [] {
    } else {
      PrintedLength(m[1..]);
    }
  }

  /** What `createEnvironmentBlock` returns. */
  function EnvironmentBlock(overrides: seq<Variable>, current: Text): Text {
    if overrides == [] then [] else Printed(InsertAll(EnvOf(current), overrides)) + [0]
  }

  method CreateEnvironmentBlock(environmentVariables: seq<Variable>, current: Text) returns (result: Text)
    requires WellFormed(current)
    ensures result == EnvironmentBlock(environmentVariables, current)
  {
    result := [];
    if environmentVariables == [] {
      return;
    }
    var envMap := GetAll(current);
    ghost var parsed := envMap;
    for i := 0 to |environmentVariables|
      invariant InsertAll(parsed, environmentVariables) == InsertAll(envMap, environmentVariables[i..])
    {
      assert environmentVariables[i..][1..] == environmentVariables[i + 1..];
      envMap := Insert(envMap, environmentVariables[i]);
    }
    assert environmentVariables[|environmentVariables|..] == [];
    result := PrintBlock(envMap);
  }

  method PrintBlock(envMap: EnvMap) returns (result: Text)
    ensures result == Printed(envMap) + [0]
  {
    result := [];
    for i := 0 to |envMap|
      invariant Printed(envMap) == result + Printed(envMap[i..])
    {
      OnePrinted(envMap, i);
      Regrouped(result, Bare(envMap[i]) + [0], Printed(envMap[i + 1..]));
      result := result + (Bare(envMap[i]) + [0]);
    }
    assert envMap[|envMap|..] == [];
    result := result + [0];
  }

  lemma OnePrinted(m: EnvMap, i: nat)
    requires i < |m|
    ensures Printed(m[i..]) == (Bare(m[i]) + [0]) + Printed(m[i + 1..])
  {
    assert m[i..][1..] == m[i + 1..];
  }

  // ---- Round trip ----

  /** A variable a block can carry. */
  predicate Clean(v: Variable) {
    && v.name != [] && EQUALS !in v.name && 0 !in v.name
    && 0 !in v.value
  }

  predicate AllClean(m: seq<Variable>) {
    forall v :: v in m ==> Clean(v)
  }

  lemma {:induction false} EntriesPlain(data: Text)
    ensures forall e :: e in AsMultiString(data) ==> 0 !in e
    decreases |data|
  {
    if data != [] && data[0] != 0 {
      CStringIsPlainPart(data);
      if |CString(data)| < |data| {
        EntriesPlain(data[|CString(data)| + 1..]);
      }
    }
  }

  lemma {:induction false} ParsedAllClean(entries: seq<Text>)
    requires forall e :: e in entries ==> 0 !in e
    ensures AllClean(ParsedAll(entries))
  {
    if entries == [] {
    } else {
      assert entries[0] in entries;
      ParsedAllClean(entries[1..]);
    }
  }

  lemma {:induction false} InsertAllClean(m: EnvMap, vs: seq<Variable>)
    requires AllClean(m) && AllClean(vs)
    ensures AllClean(InsertAll(m, vs))
    decreases |vs|
  {
    if vs == [] {
    } else {
      InsertMembers(m, vs[0]);
      assert vs[0] in vs;
      InsertAllClean(Insert(m, vs[0]), vs[1..]);
    }
  }

  /** Whatever the block, parsing yields an ascending map of clean variables. */
  lemma EnvOfClean(block: Text)
    ensures AllClean(EnvOf(block)) && Ascending(EnvOf(block))
  {
    EntriesPlain(block);
    ParsedAllClean(AsMultiString(block));
    InsertAllClean([], ParsedAll(AsMultiString(block)));
    InsertAllAscending([], ParsedAll(AsMultiString(block)));
  }

  lemma ParsedBare(v: Variable)
    requires Clean(v)
    ensures Parsed(Bare(v)) == [v]
  {
    SplitAt(v.name, v.value);
    assert Bare(v)[..|v.name|] == v.name && Bare(v)[|v.name| + 1..] == v.value;
  }

  /** Reading back a printed list of clean variables. */
  lemma {:induction false} ParsePrinted(m: EnvMap)
    requires AllClean(m)
    ensures ParsedAll(AsMultiString(Printed(m) + [0])) == m
  {
    if m == [] {
    } else {
      assert m[0] in m;
      ParsePrinted(m[1..]);
      Regrouped(Bare(m[0]) + [0], Printed(m[1..]), [0]);
      ParseHead(m[0], Printed(m[1..]) + [0]);
    }
  }

  lemma ParseHead(v: Variable, rest: Text)
    requires Clean(v)
    ensures ParsedAll(AsMultiString(Bare(v) + [0] + rest)) == [v] + ParsedAll(AsMultiString(rest))
  {
    ParsedBare(v);
    DecodeHead(Bare(v), rest);
    assert ([Bare(v)] + AsMultiString(rest))[1..] == AsMultiString(rest);
  }

  lemma {:induction false} InsertAllKeeps(m: EnvMap, vs: seq<Variable>, v: Variable)
    requires v in m && forall w :: w in vs ==> w.name != v.name
    ensures v in InsertAll(m, vs)
    decreases |vs|
  {
    if vs == [] {
    } else {
      assert vs[0] in vs;
      InsertMembers(m, vs[0]);
      InsertAllKeeps(Insert(m, vs[0]), vs[1..], v);
    }
  }

  lemma {:induction false} OverridesPresent(m: EnvMap, vs: seq<Variable>, v: Variable)
    requires Distinct(vs) && v in vs
    ensures v in InsertAll(m, vs)
    decreases |vs|
  {
    InsertMembers(m, vs[0]);
    if v == vs[0] {
      assert forall w :: w in vs[1..] ==> w.name != v.name;
      InsertAllKeeps(Insert(m, vs[0]), vs[1..], v);
    } else {
      OverridesPresent(Insert(m, vs[0]), vs[1..], v);
    }
  }

  /** The entries of the printed block are the merged variables, by strictly ascending names. */
  lemma PrintedInOrder(overrides: seq<Variable>, current: Text)
    requires overrides != [] && AllClean(overrides)
    ensures var entries := ParsedAll(AsMultiString(EnvironmentBlock(overrides, current)));
            && entries == InsertAll(EnvOf(current), overrides)
            && Ascending(entries)
  {
    EnvOfClean(current);
    InsertAllClean(EnvOf(current), overrides);
    InsertAllAscending(EnvOf(current), overrides);
    ParsePrinted(InsertAll(EnvOf(current), overrides));
  }

  /** The block of a process started with overrides parses to the current environment overridden by them,
      exactly when the overrides are clean: names non-empty and free of '=' and NUL, values free of NUL. */
  lemma RoundTripExactly(overrides: seq<Variable>, current: Text)
    requires overrides != [] && Distinct(overrides)
    ensures EnvOf(EnvironmentBlock(overrides, current)) == InsertAll(EnvOf(current), overrides) <==> AllClean(overrides)
  {
    var merged := InsertAll(EnvOf(current), overrides);
    EnvOfClean(current);
    EnvOfClean(EnvironmentBlock(overrides, current));
    if AllClean(overrides) {
      PrintedInOrder(overrides, current);
      assert [] + merged == merged;
      InsertAllInOrder([], merged);
    }
    if EnvOf(EnvironmentBlock(overrides, current)) == merged {
      forall v | v in overrides ensures Clean(v) {
        OverridesPresent(EnvOf(current), overrides, v);
      }
    }
  }

  /** Nothing without overrides; otherwise the variables, each with its equals sign and NUL, and one more NUL. */
  lemma BlockLength(overrides: seq<Variable>, current: Text)
    ensures |EnvironmentBlock(overrides, current)|
            == if overrides == [] then 0 else BareLengths(InsertAll(EnvOf(current), overrides)) + 1
  {
    PrintedLength(InsertAll(EnvOf(current), overrides));
  }

  /** The printed block can itself be parsed, whatever the overrides: the parsers stay inside it. */
  lemma BlockWellFormed(overrides: seq<Variable>, current: Text)
    requires overrides != []
    ensures WellFormed(EnvironmentBlock(overrides, current))
  {
    PrintedEnds(InsertAll(EnvOf(current), overrides));
  }

  lemma {:induction false} PrintedEnds(m: EnvMap)
    ensures m != [] ==> Printed(m) != [] && Printed(m)[|Printed(m)| - 1] == 0
    ensures m == [] ==> Printed(m) == []
  {
    if m == [] {
    } else {
      PrintedEnds(m[1..]);
    }
  }
}
