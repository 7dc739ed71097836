/** `replaceAll` and `split` (3rdpart/common/include/common/utils/strings.h) and the Windows branch of
    `fixPath` (3rdpart/common/include/common/utils/path.h:89-110). */
module Strings {

  // ---- replaceAll ----

  /** Where `from` first occurs in `s`, or beyond the end. */
  function First(s: string, from: string): (i: nat)
    requires from != ""
    ensures i <= |s| ==> i + |from| <= |s|
    ensures i <= |s| + 1
  {
    if from <= s then 0 else if s == "" then 1 else 1 + First(s[1..], from)
  }

  /** `s.find(from, start)`: a position beyond the end stands for npos. */
  function FindFrom(s: string, from: string, start: nat): nat
    requires from != "" && start <= |s|
  {
    start + First(s[start..], from)
  }

  lemma {:induction false} FirstIsFirst(s: string, from: string, j: nat)
    requires from != "" && j <= |s|
    ensures j < First(s, from) ==> !(from <= s[j..])
    ensures j == First(s, from) ==> from <= s[j..]
  {
    if j > 0 && !(from <= s) {
      FirstIsFirst(s[1..], from, j - 1);
      assert s[1..][j - 1..] == s[j..];
    }
  }

  /** The recursive leftmost non-overlapping replacement. */
  function ReplaceAll(s: string, from: string, to: string): string {
    if from == "" || s == "" then s
    else if from <= s then to + ReplaceAll(s[|from|..], from, to)
    else [s[0]] + ReplaceAll(s[1..], from, to)
  }

  /** The pieces of `s` between those occurrences. */
  function Pieces(s: string, from: string): (ps: seq<string>)
    requires from != ""
    ensures ps != []
  {
    if s == "" then [""]
    else if from <= s then [""] + Pieces(s[|from|..], from)
    else
      var ps := Pieces(s[1..], from);
      [[s[0]] + ps[0]] + ps[1..]
  }

  /** Those are the leftmost occurrences: none begins before the end of a piece, and the last piece has none. */
  lemma {:induction false} PiecesLeftmost(s: string, from: string, i: nat)
    requires from != "" && i < |Pieces(s, from)|
    ensures var ps := Pieces(s, from);
            if i < |ps| - 1 then First(ps[i] + from, from) == |ps[i]| else First(ps[i], from) > |ps[i]|
  {
    if s == "" {
    } else if from <= s {
      if i == 0 {
        assert "" + from == from;
      } else {
        PiecesLeftmost(s[|from|..], from, i - 1);
      }
    } else {
      PiecesLeftmost(s[1..], from, i);
      if i == 0 {
        PieceOneLonger(s, from);
      }
    }
  }

  /** A first piece one character longer. */
  lemma PieceOneLonger(s: string, from: string)
    requires s != "" && from != "" && !(from <= s)
    ensures var ps, more := Pieces(s[1..], from), if |Pieces(s, from)| > 1 then from else "";
            && Pieces(s, from) == [[s[0]] + ps[0]] + ps[1..]
            && First([s[0]] + (ps[0] + more), from) == 1 + First(ps[0] + more, from)
            && ([s[0]] + ps[0]) + more == [s[0]] + (ps[0] + more)
  {
    var ps, more := Pieces(s[1..], from), if |Pieces(s, from)| > 1 then from else "";
    PiecesStart(s[1..], from);
    OneBefore(s, ps[0] + more, from);
  }

  lemma OneBefore(s: string, t: string, from: string)
    requires s != "" && from != "" && t <= s[1..] && !(from <= s)
    ensures First([s[0]] + t, from) == 1 + First(t, from)
  {
    var longer := [s[0]] + t;
    assert longer[1..] == t && longer <= s;
    assert !(from <= longer);
  }

  /** A text begins with its first piece and, when there are more, with what separates it from the next. */
  lemma {:induction false} PiecesStart(s: string, from: string)
    requires from != ""
    ensures var ps := Pieces(s, from); ps[0] + (if |ps| > 1 then from else "") <= s
  {
    if s == "" {
    } else if from <= s {
      assert "" + from == from;
    } else {
      var ps := Pieces(s[1..], from);
      PiecesStart(s[1..], from);
      StartsLonger(s, ps[0], if |ps| > 1 then from else "");
    }
  }

  lemma StartsLonger(s: string, piece: string, more: string)
    requires s != "" && piece + more <= s[1..]
    ensures ([s[0]] + piece) + more <= s
  {
    assert ([s[0]] + piece) + more == [s[0]] + (piece + more);
  }

  function Join(ps: seq<string>, glue: string): string
    requires ps != []
  {
    if |ps| == 1 then ps[0] else ps[0] + glue + Join(ps[1..], glue)
  }

  lemma JoinNewPiece(ps: seq<string>, glue: string)
    requires ps != []
    ensures Join([""] + ps, glue) == glue + Join(ps, glue)
  {
    assert ([""] + ps)[1..] == ps;
  }

  lemma JoinLongerPiece(c: char, ps: seq<string>, glue: string)
    requires ps != []
    ensures Join([[c] + ps[0]] + ps[1..], glue) == [c] + Join(ps, glue)
  {
    assert ([[c] + ps[0]] + ps[1..])[1..] == ps[1..];
  }

  /** A text is its pieces joined by `from`; replacing is joining the same pieces by `to`. */
  lemma {:induction false} ReplaceAllJoinsPieces(s: string, from: string, to: string)
    requires from != ""
    ensures s == Join(Pieces(s, from), from)
    ensures ReplaceAll(s, from, to) == Join(Pieces(s, from), to)
  {
    if s == "" {
    } else {
      if from <= s {
        var rest := s[|from|..];
        ReplaceAllJoinsPieces(rest, from, to);
        JoinNewPiece(Pieces(rest, from), from);
        JoinNewPiece(Pieces(rest, from), to);
      } else {
        ReplaceAllJoinsPieces(s[1..], from, to);
        JoinLongerPiece(s[0], Pieces(s[1..], from), from);
        JoinLongerPiece(s[0], Pieces(s[1..], from), to);
      }
    }
  }

  lemma {:induction false} JoinLength(ps: seq<string>, a: string, b: string)
    requires ps != []
    ensures |Join(ps, a)| - |Join(ps, b)| == (|ps| - 1) * (|a| - |b|)
  {
    if |ps| > 1 {
      JoinLength(ps[1..], a, b);
      assert (|ps| - 1) * (|a| - |b|) == (|ps| - 2) * (|a| - |b|) + (|a| - |b|);
    }
  }

  /** The length changes by the difference of the two texts for every occurrence replaced. */
  lemma ReplaceAllLength(s: string, from: string, to: string)
    requires from != ""
    ensures |ReplaceAll(s, from, to)| == |s| + (|Pieces(s, from)| - 1) * (|to| - |from|)
  {
    ReplaceAllJoinsPieces(s, from, to);
    JoinLength(Pieces(s, from), to, from);
  }

  /** Up to the first occurrence nothing changes; without one nothing changes at all. */
  lemma {:induction false} ReplaceFirst(s: string, from: string, to: string, i: nat, tail: string)
    requires from != "" && i == First(s, from) && i + |from| <= |s| && tail == s[i + |from|..]
    ensures ReplaceAll(s, from, to) == s[..i] + (to + ReplaceAll(tail, from, to))
  {
    if i == 0 {
      assert s[..0] == "";
    } else {
      ReplaceFirst(s[1..], from, to, i - 1, tail);
      OneFurther(s, i, to + ReplaceAll(tail, from, to));
    }
  }

  lemma OneFurther(s: string, i: nat, x: string)
    requires 0 < i <= |s|
    ensures [s[0]] + (s[1..][..i - 1] + x) == s[..i] + x
  {
    assert s[..i] == [s[0]] + s[1..][..i - 1];
  }

  lemma {:induction false} ReplaceNone(s: string, from: string, to: string)
    requires from != "" && First(s, from) > |s|
    ensures ReplaceAll(s, from, to) == s
  {
    if s == "" {
    } else {
      ReplaceNone(s[1..], from, to);
    }
  }

  /** The in-place loop: it edits `result` and goes on after what it has put in, so that it ends even when
      `to` contains `from`. */
  method ReplaceAllInPlace(str: string, from: string, to: string) returns (result: string)
    ensures result == ReplaceAll(str, from, to)
    ensures from == "" ==> result == str
  {
    if from == "" {
      return str;
    }
    result := str;
    var startPos: nat := 0;
    ghost var done, rest, goal := "", str, ReplaceAll(str, from, to);
    while true
      invariant result == done + rest && startPos == |done|
      invariant goal == done + ReplaceAll(rest, from, to)
      decreases |rest|
    {
      ghost var done', rest' := NextReplacement(result, done, rest, from, to);
      var found := FindFrom(result, from, startPos);
      if found > |result| {
        return;
      }
      result := result[..found] + to + result[found + |from|..];
      startPos := found + |to|;
      done, rest := done', rest';
    }
  }

  /** One turn of the loop: `done` is behind it, `rest` is before it, and so afterwards. */
  lemma NextReplacement(s: string, done: string, rest: string, from: string, to: string)
    returns (done': string, rest': string)
    requires from != "" && s == done + rest
    ensures var found := FindFrom(s, from, |done|);
            if found > |s| then done + ReplaceAll(rest, from, to) == s
            else
              && found + |from| <= |s| && |done'| == found + |to| && |rest'| < |rest|
              && s[..found] + to + s[found + |from|..] == done' + rest'
              && done + ReplaceAll(rest, from, to) == done' + ReplaceAll(rest', from, to)
  {
    assert s[|done|..] == rest;
    var i := First(rest, from);
    if i > |rest| {
      done', rest' := done, rest;
      ReplaceNone(rest, from, to);
    } else {
      done', rest' := done + (rest[..i] + to), rest[i + |from|..];
      ReplaceFirst(rest, from, to, i, rest');
      Seams(done, rest, i, |from|, to);
      Regroup(done, rest[..i], to, ReplaceAll(rest', from, to));
    }
  }

  lemma Regroup(a: string, b: string, c: string, d: string)
    ensures a + (b + (c + d)) == (a + (b + c)) + d
  {
  }

  /** Replacing `n` characters behind `i` characters of the rest. */
  lemma Seams(done: string, rest: string, i: nat, n: nat, to: string)
    requires i + n <= |rest|
    ensures var at := |done| + i;
            (done + rest)[..at] + to + (done + rest)[at + n..] == (done + (rest[..i] + to)) + rest[i + n..]
  {
    assert (done + rest)[..|done| + i] == done + rest[..i];
    assert (done + rest)[|done| + i + n..] == rest[i + n..];
  }

  // ---- fixPath ----

  function Doubled(path: string): string {
    if path == "" then ""
    else if path[0] == '\\' then "\\\\" + Doubled(path[1..])
    else [path[0]] + Doubled(path[1..])
  }

  method FixPath(path: string) returns (fixedPath: string)
    ensures fixedPath == ReplaceAll(path, "\\", "\\\\")
  {
    fixedPath := "";
    for i := 0 to |path|
      invariant Doubled(path) == fixedPath + Doubled(path[i..])
    {
      assert path[i..][1..] == path[i + 1..];
      if path[i] == '\\' {
        fixedPath := fixedPath + ['\\'];
      }
      fixedPath := fixedPath + [path[i]];
    }
    assert path[|path|..] == "";
    DoubledIsReplaced(path);
  }

  /** Replacement at the head of a text, and past a character that starts no occurrence. */
  lemma ReplaceHead(rest: string, from: string, to: string)
    requires from != ""
    ensures ReplaceAll(from + rest, from, to) == to + ReplaceAll(rest, from, to)
  {
    assert (from + rest)[|from|..] == rest;
  }

  lemma ReplaceSkip(c: char, rest: string, from: string, to: string)
    requires from != "" && c != from[0]
    ensures ReplaceAll([c] + rest, from, to) == [c] + ReplaceAll(rest, from, to)
  {
    assert ([c] + rest)[1..] == rest;
    assert ([c] + rest)[0] == c;
  }

  lemma {:induction false} DoubledIsReplaced(path: string)
    ensures Doubled(path) == ReplaceAll(path, "\\", "\\\\")
  {
    if path == "" {
    } else {
      DoubledIsReplaced(path[1..]);
      assert path == [path[0]] + path[1..];
      if path[0] == '\\' {
        ReplaceHead(path[1..], "\\", "\\\\");
      } else {
        ReplaceSkip(path[0], path[1..], "\\", "\\\\");
      }
    }
  }

  /** Taking the doubled backslashes back gives the path again, whatever runs of backslashes it has. */
  lemma {:induction false} FixPathUndone(path: string)
    ensures ReplaceAll(ReplaceAll(path, "\\", "\\\\"), "\\\\", "\\") == path
  {
    DoubledIsReplaced(path);
    HalvedAgain(path);
  }

  lemma {:induction false} HalvedAgain(path: string)
    ensures ReplaceAll(Doubled(path), "\\\\", "\\") == path
  {
    if path == "" {
    } else {
      HalvedAgain(path[1..]);
      assert path == [path[0]] + path[1..];
      if path[0] == '\\' {
        ReplaceHead(Doubled(path[1..]), "\\\\", "\\");
      } else {
        ReplaceSkip(path[0], Doubled(path[1..]), "\\\\", "\\");
      }
    }
  }

  // ---- split ----

  /** The position of the first delimiter at or after `start`, or the length. */
  function NextDelimiter(s: string, d: char, start: nat): (i: nat)
    requires start <= |s|
    ensures start <= i <= |s| && (i < |s| ==> s[i] == d)
    ensures forall j :: start <= j < i ==> s[j] != d
    decreases |s| - start
  {
    if start == |s| || s[start] == d then start else NextDelimiter(s, d, start + 1)
  }

  predicate DelimiterFree(tokens: seq<string>, d: char) {
    forall t :: t in tokens ==> d !in t
  }

  function JoinAll(tokens: seq<string>, d: char): string {
    if tokens == [] then "" else tokens[0] + (if |tokens| == 1 then "" else [d] + JoinAll(tokens[1..], d))
  }

  /** Every token followed by a delimiter. */
  function Terminated(tokens: seq<string>, d: char): string {
    if tokens == [] then "" else tokens[0] + [d] + Terminated(tokens[1..], d)
  }

  lemma {:induction false} TerminatedAppend(tokens: seq<string>, t: string, d: char)
    ensures Terminated(tokens + [t], d) == Terminated(tokens, d) + t + [d]
  {
    if tokens == [] {
      assert tokens + [t] == [t] && [t][1..] == [];
    } else {
      TerminatedAppend(tokens[1..], t, d);
      assert (tokens + [t])[1..] == tokens[1..] + [t];
    }
  }

  lemma {:induction false} TerminatedIsJoined(tokens: seq<string>, d: char)
    requires tokens != []
    ensures Terminated(tokens, d) == JoinAll(tokens, d) + [d]
  {
    if |tokens| == 1 {
      assert tokens[1..] == [];
    } else {
      TerminatedIsJoined(tokens[1..], d);
    }
  }

  lemma DropLast(s: string, d: char)
    ensures (s + [d])[..|s + [d]| - 1] == s
  {
  }

  /** The `getline` loop. No token holds the delimiter, and joining the tokens gives the text back, or the
      text without its last character when that is a delimiter. */
  method Split(str: string, delimiter: char) returns (tokens: seq<string>)
    ensures DelimiterFree(tokens, delimiter)
    ensures JoinAll(tokens, delimiter)
            == if str != "" && str[|str| - 1] == delimiter then str[..|str| - 1] else str
    ensures tokens == [] <==> str == ""
  {
    tokens := [];
    var position := 0;
    ghost var ended := true;
    while position < |str|
      invariant position <= |str|
      invariant DelimiterFree(tokens, delimiter)
      invariant ended ==> Terminated(tokens, delimiter) == str[..position]
      invariant ended && position > 0 ==> str[position - 1] == delimiter
      invariant !ended ==> position == |str| && str != "" && str[|str| - 1] != delimiter
                           && Terminated(tokens, delimiter) == str + [delimiter]
      invariant tokens == [] <==> position == 0
    {
      var i := NextDelimiter(str, delimiter, position);
      var token := str[position..i];
      TerminatedAppend(tokens, token, delimiter);
      assert str[..i] == str[..position] + token;
      tokens := tokens + [token];
      if i < |str| {
        assert str[..i + 1] == str[..i] + [delimiter];
        position := i + 1;
      } else {
        assert str[..i] == str;
        position := |str|;
        ended := false;
      }
    }
    assert str[..|str|] == str;
    if str != "" {
      TerminatedIsJoined(tokens, delimiter);
      DropLast(JoinAll(tokens, delimiter), delimiter);
      DropLast(str, delimiter);
    }
  }
}
