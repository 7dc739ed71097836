/** String values of the registry (3rdpart/systemkit/src/windows/registry_manager_windows.cpp): REG_SZ and
    REG_MULTI_SZ, written by `setString` and `setMultiString` and read by `asString` and `asMultiString`.
    Strings are sequences of UTF-16 code units. */
module RegistryCodec {
  import opened Options

  newtype Byte = b: int | 0 <= b < 0x100
  type Unit = u: int | 0 <= u < 0x1_0000

  // ---- Units and bytes ----

  function ToBytes(units: seq<Unit>): (bytes: seq<Byte>)
    ensures |bytes| == 2 * |units|
  {
    if units == [] then []
    else [(units[0] % 0x100) as Byte, (units[0] / 0x100) as Byte] + ToBytes(units[1..])
  }

  /** The units at the address of the bytes; a last odd byte is not part of any. */
  function ToUnits(bytes: seq<Byte>): (units: seq<Unit>)
    ensures |units| == |bytes| / 2
  {
    if |bytes| < 2 then []
    else [bytes[0] as int + 0x100 * bytes[1] as int] + ToUnits(bytes[2..])
  }

  lemma {:induction false} BytesRoundTrip(units: seq<Unit>)
    ensures ToUnits(ToBytes(units)) == units
  {
    if units == [] {
    } else {
      BytesRoundTrip(units[1..]);
      assert ToBytes(units)[2..] == ToBytes(units[1..]);
    }
  }

  lemma {:induction false} BytesAt(units: seq<Unit>, i: nat)
    requires i < |units|
    ensures ToBytes(units)[2 * i] as int == units[i] % 0x100
    ensures ToBytes(units)[2 * i + 1] as int == units[i] / 0x100
  {
    if i > 0 {
      BytesAt(units[1..], i - 1);
    }
  }

  // ---- REG_SZ ----

  /** A decoded string: wide, or narrow when the data cannot be a sequence of units. */
  datatype Text = Wide(units: seq<Unit>) | Narrow(bytes: seq<Byte>)

  /** The data `setString` writes: the string with its terminator. */
  function StringData(value: seq<Unit>): seq<Byte> {
    ToBytes(value + [0])
  }

  function AsString(data: seq<Byte>): Text {
    if data == [] then Wide([])
    else if |data| % 2 == 0 then
      var hasTerminator := data[|data| - 1] == 0 && data[|data| - 2] == 0;
      Wide(ToUnits(data)[..|data| / 2 - if hasTerminator then 1 else 0])
    else Narrow(if data[|data| - 1] == 0 then data[..|data| - 1] else data)
  }

  predicate Terminated(data: seq<Byte>) {
    |data| >= 2 && data[|data| - 1] == 0 && data[|data| - 2] == 0
  }

  lemma {:induction false} EvenRoundTrip(data: seq<Byte>)
    requires |data| % 2 == 0
    ensures ToBytes(ToUnits(data)) == data
  {
    if data == [] {
    } else {
      EvenRoundTrip(data[2..]);
      assert ToUnits(data)[1..] == ToUnits(data[2..]);
      assert data == [data[0], data[1]] + data[2..];
    }
  }

  lemma {:induction false} LastUnitZero(units: seq<Unit>)
    requires units != [] && Terminated(ToBytes(units))
    ensures units[|units| - 1] == 0
  {
    var bytes := ToBytes(units);
    if |units| == 1 {
      assert units[1..] == [];
      ZeroUnit(units[0], bytes[0], bytes[1]);
    } else {
      assert bytes[2..] == ToBytes(units[1..]);
      LastUnitZero(units[1..]);
    }
  }

  lemma ZeroUnit(u: Unit, low: Byte, high: Byte)
    requires low as int == u % 0x100 && high as int == u / 0x100
    ensures low == 0 && high == 0 ==> u == 0
  {
  }

  /** What is read of any data: the units it is made of, without one terminator if it ends in one; and data of odd
      length byte by byte, without one last NUL. */
  lemma AsStringExactly(data: seq<Byte>)
    ensures match AsString(data)
            case Wide(units) =>
              && |data| % 2 == 0
              && data == if Terminated(data) then ToBytes(units + [0]) else ToBytes(units)
            case Narrow(bytes) =>
              && |data| % 2 == 1
              && data == if data[|data| - 1] == 0 then bytes + [0] else bytes
  {
    if data != [] && |data| % 2 == 0 {
      EvenRoundTrip(data);
      var units := ToUnits(data);
      if Terminated(data) {
        LastUnitZero(units);
        assert units[..|units| - 1] + [0] == units;
      } else {
        assert units[..|units|] == units;
      }
    }
  }

  /** Every string comes back, terminators inside it and at its end included. */
  lemma StringRoundTrip(value: seq<Unit>)
    ensures AsString(StringData(value)) == Wide(value)
  {
    BytesRoundTrip(value + [0]);
    BytesAt(value + [0], |value|);
  }

  // ---- REG_MULTI_SZ ----

  /** The part of a string before its first NUL: what a C function sees of it. */
  function CString(v: seq<Unit>): (c: seq<Unit>)
    ensures |c| <= |v|
  {
    if v == [] || v[0] == 0 then [] else [v[0]] + CString(v[1..])
  }

  lemma {:induction false} CStringIsPlainPart(v: seq<Unit>)
    ensures 0 !in CString(v)
    ensures CString(v) == v <==> 0 !in v
  {
    if v != [] && v[0] != 0 {
      CStringIsPlainPart(v[1..]);
      assert v == [v[0]] + v[1..];
      assert CString(v)[1..] == CString(v[1..]);
    }
  }

  function Zeros(n: nat): seq<Unit> {
    seq(n, _ => 0)
  }

  /** The room one string takes: what is copied of it, and NULs. */
  function Field(v: seq<Unit>): (f: seq<Unit>)
    ensures |f| == |v| + 1
  {
    CString(v) + Zeros(|v| + 1 - |CString(v)|)
  }

  function Fields(vs: seq<seq<Unit>>): seq<Unit> {
    if vs == [] then [] else Field(vs[0]) + Fields(vs[1..])
  }

  /** The buffer `setMultiString` writes. */
  function MultiStringData(vs: seq<seq<Unit>>): seq<Unit> {
    Fields(vs) + [0]
  }

  lemma {:induction false} FieldsAppend(vs: seq<seq<Unit>>, v: seq<Unit>)
    ensures Fields(vs + [v]) == Fields(vs) + Field(v)
  {
    if vs == [] {
      assert vs + [v] == [v] && [v][1..] == [];
    } else {
      assert (vs + [v])[1..] == vs[1..] + [v];
      FieldsAppend(vs[1..], v);
    }
  }

  function Lengths(vs: seq<seq<Unit>>): nat {
    if vs == [] then 0 else Lengths(vs[..|vs| - 1]) + |vs[|vs| - 1]| + 1
  }

  lemma {:induction false} FieldsLength(vs: seq<seq<Unit>>)
    ensures |Fields(vs)| == Lengths(vs)
  {
    if vs == [] {
    } else {
      var n := |vs| - 1;
      FieldsLength(vs[..n]);
      assert vs == vs[..n] + [vs[n]];
      FieldsAppend(vs[..n], vs[n]);
    }
  }

  lemma {:induction false} FieldsSplit(vs: seq<seq<Unit>>, k: nat)
    requires k <= |vs|
    ensures Fields(vs) == Fields(vs[..k]) + Fields(vs[k..])
  {
    if k == 0 {
      assert vs[0..] == vs;
    } else {
      FieldsSplit(vs[1..], k - 1);
      assert vs[..k][1..] == vs[1..][..k - 1] && vs[1..][k - 1..] == vs[k..];
    }
  }

  /** The layout of what is written: a string without NULs stands behind the strings before it and their terminators,
      with its own; and the data ends one NUL behind the last. */
  lemma MultiStringLayout(vs: seq<seq<Unit>>, k: nat)
    requires k < |vs| && 0 !in vs[k]
    ensures var data, at := MultiStringData(vs), Lengths(vs[..k]);
            && |data| == Lengths(vs) + 1 && data[|data| - 1] == 0 && at + |vs[k]| + 1 < |data|
            && data[at..at + |vs[k]| + 1] == vs[k] + [0]
  {
    FieldsLength(vs);
    FieldsLength(vs[..k]);
    CStringIsPlainPart(vs[k]);
    FieldsAround(vs, k);
    assert Zeros(1) == [0];
    InTheMiddle(Fields(vs[..k]), Field(vs[k]), Fields(vs[k + 1..]));
  }

  lemma FieldsAround(vs: seq<seq<Unit>>, k: nat)
    requires k < |vs|
    ensures Fields(vs) == Fields(vs[..k]) + (Field(vs[k]) + Fields(vs[k + 1..]))
  {
    FieldsSplit(vs, k);
    assert vs[k..][0] == vs[k] && vs[k..][1..] == vs[k + 1..];
  }

  lemma InTheMiddle(a: seq<Unit>, b: seq<Unit>, c: seq<Unit>)
    ensures var data := (a + (b + c)) + [0];
            |data| == |a| + |b| + |c| + 1 && data[|data| - 1] == 0 && data[|a|..|a| + |b|] == b
  {
  }

  lemma {:induction false} CStringLength(v: seq<Unit>, j: nat)
    requires j <= |v| && (forall i :: 0 <= i < j ==> v[i] != 0) && (j == |v| || v[j] == 0)
    ensures CString(v) == v[..j]
  {
    if j > 0 {
      CStringLength(v[1..], j - 1);
      assert v[..j] == [v[0]] + v[1..][..j - 1];
    }
  }

  /** `wcscpy_s(&buffer[pos], |v| + 1, v)` into a zeroed field. */
  method CopyString(buffer: array<Unit>, pos: nat, v: seq<Unit>)
    requires pos + |v| + 1 <= buffer.Length
    requires forall i :: pos <= i < buffer.Length ==> buffer[i] == 0
    modifies buffer
    ensures buffer[..pos] == old(buffer[..pos])
    ensures buffer[pos..pos + |v| + 1] == Field(v)
    ensures forall i :: pos + |v| + 1 <= i < buffer.Length ==> buffer[i] == 0
  {
    var j := 0;
    while j < |v| && v[j] != 0
      invariant j <= |v|
      invariant forall i :: 0 <= i < j ==> v[i] != 0
      invariant forall i :: 0 <= i < pos ==> buffer[i] == old(buffer[i])
      invariant forall i :: 0 <= i < j ==> buffer[pos + i] == v[i]
      invariant forall i :: pos + j <= i < buffer.Length ==> buffer[i] == 0
    {
      buffer[pos + j] := v[j];
      j := j + 1;
    }
    buffer[pos + j] := 0;
    CStringLength(v, j);
  }

  method TotalSize(values: seq<seq<Unit>>) returns (totalSize: nat)
    ensures totalSize == |MultiStringData(values)|
  {
    totalSize := 1;
    for k := 0 to |values|
      invariant totalSize == |Fields(values[..k])| + 1
    {
      NextField(values, k);
      totalSize := totalSize + |values[k]| + 1;
    }
    assert values[..|values|] == values;
  }

  /** The buffer is sized in one loop and filled in another; the filling ends one unit before the end. */
  method EncodeMultiString(values: seq<seq<Unit>>) returns (buffer: array<Unit>)
    ensures fresh(buffer) && buffer[..] == MultiStringData(values)
  {
    var totalSize := TotalSize(values);
    buffer := new Unit[totalSize](_ => 0);
    var currentPos: nat := 0;
    for k := 0 to |values|
      invariant currentPos + |Fields(values[k..])| + 1 == buffer.Length
      invariant buffer[..currentPos] == Fields(values[..k])
      invariant forall i :: currentPos <= i < buffer.Length ==> buffer[i] == 0
    {
      assert values[k..] == [values[k]] + values[k + 1..];
      CopyString(buffer, currentPos, values[k]);
      FieldWritten(buffer, currentPos, |values[k]| + 1);
      NextField(values, k);
      currentPos := currentPos + |values[k]| + 1;
    }
    assert values[..|values|] == values && currentPos == buffer.Length - 1;
    assert buffer[..] == buffer[..currentPos] + [buffer[currentPos]];
  }

  lemma NextField(values: seq<seq<Unit>>, k: nat)
    requires k < |values|
    ensures Fields(values[..k + 1]) == Fields(values[..k]) + Field(values[k])
  {
    assert values[..k + 1] == values[..k] + [values[k]];
    FieldsAppend(values[..k], values[k]);
  }

  lemma FieldWritten(buffer: array<Unit>, pos: nat, n: nat)
    requires pos + n <= buffer.Length
    ensures buffer[..pos + n] == buffer[..pos] + buffer[pos..pos + n]
  {
  }

  /** What `asMultiString` reads, up to the first empty string. */
  function AsMultiString(data: seq<Unit>): seq<seq<Unit>> {
    if data == [] || data[0] == 0 then []
    else
      var s := CString(data);
      CStringNonEmpty(data);
      if |s| < |data| then [s] + AsMultiString(data[|s| + 1..]) else [s]
  }

  lemma CStringNonEmpty(data: seq<Unit>)
    requires data != [] && data[0] != 0
    ensures CString(data) != []
  {
  }

  /** `std::wstring(current)`: the units up to the next NUL, or to the end of the data when there is none. */
  method ReadString(data: seq<Unit>, current: nat) returns (wstr: seq<Unit>)
    requires current < |data|
    ensures wstr == CString(data[current..]) && current + |wstr| <= |data|
    ensures data[|data| - 1] == 0 ==> current + |wstr| < |data|
  {
    var length := 0;
    while current + length < |data| && data[current + length] != 0
      invariant current + length <= |data|
      invariant forall i :: 0 <= i < length ==> data[current..][i] != 0
      decreases |data| - length
    {
      length := length + 1;
    }
    CStringLength(data[current..], length);
    wstr := data[current..current + length];
  }

  /** The decoder comes to a string that does not end inside the data. */
  predicate Overruns(data: seq<Unit>) {
    && data != [] && data[0] != 0
    && var s := CString(data);
       CStringNonEmpty(data);
       (|s| == |data| || Overruns(data[|s| + 1..]))
  }

  /** An empty string: a NUL at the start, or after another. */
  predicate HasEmptyString(data: seq<Unit>) {
    || (data != [] && data[0] == 0)
    || exists i :: 0 < i < |data| && data[i] == 0 && data[i - 1] == 0
  }

  /** The decoder walks a pointer over the units, and the source checks for their end only between strings:
      None stands for reading past it. */
  method DecodeMultiString(data: seq<Unit>) returns (result: Option<seq<seq<Unit>>>)
    ensures result == if Overruns(data) then None else Some(AsMultiString(data))
  {
    var strings: seq<seq<Unit>> := [];
    var current := 0;
    ghost var rest := data;
    assert [] + AsMultiString(data) == AsMultiString(data);
    while current < |data| && data[current] != 0
      invariant current <= |data| && rest == data[current..]
      invariant Decoded(data) == Continued(strings, rest)
      decreases |data| - current
    {
      var wstr := ReadString(data, current);
      NextString(strings, rest, wstr);
      if current + |wstr| == |data| {
        return None;
      }
      strings := strings + [wstr];
      rest := rest[|wstr| + 1..];
      current := current + |wstr| + 1;
    }
    assert strings + [] == strings;
    result := Some(strings);
  }

  /** What is read of data, or None if that goes past its end; and the same with strings read before it. */
  function Decoded(data: seq<Unit>): Option<seq<seq<Unit>>> {
    if Overruns(data) then None else Some(AsMultiString(data))
  }

  function Continued(strings: seq<seq<Unit>>, rest: seq<Unit>): Option<seq<seq<Unit>>> {
    match Decoded(rest)
    case None => None
    case Some(more) => Some(strings + more)
  }

  lemma NextString(strings: seq<seq<Unit>>, rest: seq<Unit>, wstr: seq<Unit>)
    requires rest != [] && rest[0] != 0 && wstr == CString(rest)
    ensures if |wstr| == |rest| then Decoded(rest) == None
            else Continued(strings, rest) == Continued(strings + [wstr], rest[|wstr| + 1..])
  {
    if |wstr| < |rest| {
      OneStringMore(strings, wstr, AsMultiString(rest[|wstr| + 1..]));
    }
  }

  lemma OneStringMore(strings: seq<seq<Unit>>, s: seq<Unit>, rest: seq<seq<Unit>>)
    ensures strings + ([s] + rest) == (strings + [s]) + rest
  {
  }

  /** It reads past the end exactly when the data is not empty, has no empty string and no NUL at its end. */
  lemma {:induction false} OverrunsExactly(data: seq<Unit>)
    ensures Overruns(data) <==> data != [] && data[|data| - 1] != 0 && !HasEmptyString(data)
    decreases |data|
  {
    if data != [] && data[0] != 0 {
      var s := CString(data);
      CStringNonEmpty(data);
      CStringEnds(data);
      if |s| < |data| {
        OverrunsExactly(data[|s| + 1..]);
        EmptyStringAfter(data, |s|);
      } else {
        assert s == data;
      }
    }
  }

  /** What `setMultiString` writes is read without going past its end. */
  lemma WrittenStaysInside(vs: seq<seq<Unit>>)
    ensures !Overruns(MultiStringData(vs))
  {
    OverrunsExactly(MultiStringData(vs));
  }

  lemma {:induction false} CStringEnds(v: seq<Unit>)
    ensures CString(v) == v[..|CString(v)|] && 0 !in CString(v)
    ensures |CString(v)| < |v| ==> v[|CString(v)|] == 0
  {
    if v != [] && v[0] != 0 {
      CStringEnds(v[1..]);
      assert v[..|CString(v)|] == [v[0]] + v[1..][..|CString(v)| - 1];
    }
  }

  lemma EmptyStringAfter(data: seq<Unit>, n: nat)
    requires 0 < n < |data| && 0 !in data[..n] && data[n] == 0
    ensures HasEmptyString(data) <==> HasEmptyString(data[n + 1..])
  {
    var rest := data[n + 1..];
    assert forall i :: 0 <= i < n ==> data[..n][i] == data[i];
    assert forall i :: 0 <= i < |rest| ==> rest[i] == data[n + 1 + i];
    if HasEmptyString(data) {
      var i :| 0 < i < |data| && data[i] == 0 && data[i - 1] == 0;
      if i > n + 1 {
        assert rest[i - n - 1] == 0 && rest[i - n - 2] == 0;
      }
    }
    if HasEmptyString(rest) && rest[0] != 0 {
      var i :| 0 < i < |rest| && rest[i] == 0 && rest[i - 1] == 0;
      assert data[n + 1 + i] == 0 && data[n + i] == 0;
    }
  }

  /** What survives the round trip: strings up to the first empty one; a string with a NUL inside is cut
      there and is the last. */
  function Recovered(vs: seq<seq<Unit>>): seq<seq<Unit>> {
    if vs == [] || CString(vs[0]) == [] then []
    else if CString(vs[0]) == vs[0] then [vs[0]] + Recovered(vs[1..])
    else [CString(vs[0])]
  }

  lemma {:induction false} CStringOf(c: seq<Unit>, rest: seq<Unit>)
    requires 0 !in c
    ensures CString(c + [0] + rest) == c
  {
    var v := c + [0] + rest;
    CStringLength(v, |c|);
  }

  lemma {:induction false} MultiStringRoundTrip(vs: seq<seq<Unit>>)
    ensures AsMultiString(MultiStringData(vs)) == Recovered(vs)
  {
    if vs == [] {
    } else {
      MultiStringRoundTrip(vs[1..]);
      HeadField(vs);
    }
  }

  lemma HeadField(vs: seq<seq<Unit>>)
    requires vs != []
    ensures var c := CString(vs[0]);
            AsMultiString(MultiStringData(vs))
            == if c == [] then []
               else if c == vs[0] then [c] + AsMultiString(MultiStringData(vs[1..]))
               else [c]
  {
    var c := CString(vs[0]);
    var rest := Zeros(|vs[0]| - |c|) + MultiStringData(vs[1..]);
    CStringIsPlainPart(vs[0]);
    DataHead(vs);
    DecodeHead(c, rest);
    if |c| == |vs[0]| {
      CStringWhole(vs[0]);
      assert rest == MultiStringData(vs[1..]);
    } else {
      assert rest[0] == 0;
    }
  }

  lemma {:induction false} CStringWhole(v: seq<Unit>)
    requires |CString(v)| == |v|
    ensures CString(v) == v
  {
    if v == [] {
    } else {
      CStringWhole(v[1..]);
    }
  }

  lemma DataHead(vs: seq<seq<Unit>>)
    requires vs != []
    ensures MultiStringData(vs)
            == CString(vs[0]) + [0] + (Zeros(|vs[0]| - |CString(vs[0])|) + MultiStringData(vs[1..]))
  {
    var c := CString(vs[0]);
    var n := |vs[0]| - |c|;
    assert Zeros(n + 1) == [0] + Zeros(n);
    Regroup(c, Zeros(n), Fields(vs[1..]), [0]);
  }

  lemma Regroup(a: seq<Unit>, b: seq<Unit>, c: seq<Unit>, d: seq<Unit>)
    ensures ((a + ([0] + b)) + c) + d == a + [0] + (b + (c + d))
  {
  }

  lemma DecodeHead(c: seq<Unit>, rest: seq<Unit>)
    requires 0 !in c
    ensures AsMultiString(c + [0] + rest) == if c == [] then [] else [c] + AsMultiString(rest)
  {
    var data := c + [0] + rest;
    CStringOf(c, rest);
    assert data[|c| + 1..] == rest && data[|c|] == 0;
    if c != [] {
      assert data[0] == c[0];
    }
  }

  predicate Plain(v: seq<Unit>) {
    v != [] && 0 !in v
  }

  /** A list comes back unchanged exactly when no string in it is empty or contains a NUL. */
  lemma {:induction false} MultiStringIdentityExactly(vs: seq<seq<Unit>>)
    ensures AsMultiString(MultiStringData(vs)) == vs <==> forall i :: 0 <= i < |vs| ==> Plain(vs[i])
  {
    MultiStringRoundTrip(vs);
    RecoveredIdentity(vs);
  }

  lemma {:induction false} RecoveredIdentity(vs: seq<seq<Unit>>)
    ensures Recovered(vs) == vs <==> forall i :: 0 <= i < |vs| ==> Plain(vs[i])
  {
    if vs == [] {
    } else {
      RecoveredIdentity(vs[1..]);
      CStringIsPlainPart(vs[0]);
      assert vs == [vs[0]] + vs[1..];
      if Plain(vs[0]) && Recovered(vs) == vs {
        assert Recovered(vs)[1..] == Recovered(vs[1..]);
        forall i | 0 <= i < |vs| ensures Plain(vs[i]) {
          if i > 0 {
            assert vs[i] == vs[1..][i - 1];
          }
        }
      }
      if forall i :: 0 <= i < |vs| ==> Plain(vs[i]) {
        assert forall i :: 0 <= i < |vs[1..]| ==> vs[1..][i] == vs[i + 1];
      }
    }
  }

  /** NUL-free strings: exactly the longest prefix of non-empty strings comes back. */
  lemma {:induction false} MultiStringPrefix(vs: seq<seq<Unit>>, n: nat)
    requires n <= |vs| && (forall i :: 0 <= i < n ==> Plain(vs[i])) && (n == |vs| || vs[n] == [])
    ensures AsMultiString(MultiStringData(vs)) == vs[..n]
  {
    MultiStringRoundTrip(vs);
    RecoveredPrefix(vs, n);
  }

  lemma {:induction false} RecoveredPrefix(vs: seq<seq<Unit>>, n: nat)
    requires n <= |vs| && (forall i :: 0 <= i < n ==> Plain(vs[i])) && (n == |vs| || vs[n] == [])
    ensures Recovered(vs) == vs[..n]
  {
    if n > 0 {
      RecoveredPrefix(vs[1..], n - 1);
      CStringIsPlainPart(vs[0]);
      assert vs[..n] == [vs[0]] + vs[1..][..n - 1];
    }
  }
}
