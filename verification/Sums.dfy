/** Sums of integer vectors. */
module Sums {
  function Sum(s: seq<int>): int {
    if s == [] then 0 else Sum(s[..|s| - 1]) + s[|s| - 1]
  }

  function Add(a: seq<int>, b: seq<int>): (r: seq<int>)
    requires |a| == |b|
    ensures |r| == |a|
  {
    seq(|a|, i requires 0 <= i < |a| => a[i] + b[i])
  }

  lemma {:induction false} SumAdd(a: seq<int>, b: seq<int>)
    requires |a| == |b|
    ensures Sum(Add(a, b)) == Sum(a) + Sum(b)
  {
    if a != [] {
      var n := |a| - 1;
      assert Add(a, b)[..n] == Add(a[..n], b[..n]);
      SumAdd(a[..n], b[..n]);
    }
  }

  lemma {:induction false} SumUpdate(s: seq<int>, i: nat, v: int)
    requires i < |s|
    ensures Sum(s[i := v]) == Sum(s) - s[i] + v
  {
    var n := |s| - 1;
    if i == n {
      assert s[i := v][..n] == s[..n];
    } else {
      assert s[i := v][..n] == s[..n][i := v];
      SumUpdate(s[..n], i, v);
    }
  }

  lemma {:induction false} SumAtLeast(s: seq<int>, low: int)
    requires forall i :: 0 <= i < |s| ==> low <= s[i]
    ensures |s| * low <= Sum(s)
  {
    if s != [] {
      var n := |s| - 1;
      SumAtLeast(s[..n], low);
      OneLess(|s|, low);
    }
  }

  lemma OneLess(n: int, low: int)
    ensures (n - 1) * low == n * low - low
  {
  }

  /** No component exceeds what the others, at their lowest, leave of the sum. */
  lemma ComponentBound(s: seq<int>, i: nat, low: int)
    requires i < |s| && forall j :: 0 <= j < |s| ==> low <= s[j]
    ensures s[i] <= Sum(s) - (|s| - 1) * low
  {
    var n, t := |s|, s[i := low];
    SumUpdate(s, i, low);
    SumAtLeast(t, low);
    OneLess(n, low);
    assert n * low <= Sum(s) - s[i] + low;
    hide Sum;
  }

  /** Components that are nowhere positive have no positive sum. */
  lemma {:induction false} NoPositive(s: seq<int>)
    requires forall i :: 0 <= i < |s| ==> s[i] <= 0
    ensures Sum(s) <= 0
  {
    if s != [] {
      NoPositive(s[..|s| - 1]);
    }
  }

  /** Non-negative components with sum 0 are all 0. */
  lemma ZeroSum(s: seq<int>, i: nat)
    requires i < |s| && Sum(s) == 0 && forall j :: 0 <= j < |s| ==> 0 <= s[j]
    ensures s[i] == 0
  {
    ComponentBound(s, i, 0);
  }
}
