/** Sums of weights over a list of threads: how many are awake, how much they still have to do. */
module Weights {

  function Weight<T>(s: seq<T>, f: T -> nat): nat {
    if s == [] then 0 else Weight(s[..|s| - 1], f) + f(s[|s| - 1])
  }

  lemma {:induction false} WeightUpdate<T>(s: seq<T>, i: nat, x: T, f: T -> nat)
    requires i < |s|
    ensures Weight(s[i := x], f) == Weight(s, f) - f(s[i]) + f(x)
  {
    var n := |s| - 1;
    if i == n {
      assert s[i := x][..n] == s[..n];
    } else {
      WeightUpdate(s[..n], i, x, f);
      assert s[i := x][..n] == s[..n][i := x];
    }
  }

  /** Some weight is somewhere. */
  lemma {:induction false} SomeWeight<T>(s: seq<T>, f: T -> nat) returns (i: nat)
    requires Weight(s, f) > 0
    ensures i < |s| && f(s[i]) > 0
  {
    var n := |s| - 1;
    i := n;
    if f(s[n]) == 0 {
      i := SomeWeight(s[..n], f);
    }
  }

  lemma WeightAppend<T>(s: seq<T>, x: T, f: T -> nat)
    ensures Weight(s + [x], f) == Weight(s, f) + f(x)
  {
    assert (s + [x])[..|s|] == s;
  }
}
