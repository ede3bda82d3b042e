/** Whole runs of the balancing algorithms. */
module Fairness {
  import opened Sums
  import opened Balancer

  // ---- weighted round robin on plain vectors --------------------------------------------------

  /** The first extreme component among the first `n`. */
  function Best(v: seq<int>, n: nat, largest: bool): (b: nat)
    requires 0 < n <= |v|
    ensures b < n
    ensures forall j :: 0 <= j < n ==> !Better(v[j], v[b], largest)
    ensures forall j :: 0 <= j < b ==> Better(v[b], v[j], largest)
  {
    if n == 1 then 0
    else
      var b := Best(v, n - 1, largest);
      if Better(v[n - 1], v[b], largest) then n - 1 else b
  }

  predicate IsConfig(ws: seq<int>) {
    ws != [] && forall i :: 0 <= i < |ws| ==> ws[i] >= 1
  }

  /** Which backend is picked in a state of the current weights, all backends healthy. */
  function Pick(ws: seq<int>, v: seq<int>, largest: bool): (b: nat)
    requires |v| == |ws| > 0
    ensures b < |ws|
  {
    Best(Add(v, ws), |ws|, largest)
  }

  /** The current weights after that pick. */
  function Next(ws: seq<int>, v: seq<int>, largest: bool): (r: seq<int>)
    requires |v| == |ws| > 0
    ensures |r| == |ws|
  {
    var b := Pick(ws, v, largest);
    Add(v, ws)[b := Add(v, ws)[b] - Sum(ws)]
  }

  function Zeros(n: nat): seq<int> { seq(n, _ => 0) }

  /** The current weights after `k` picks from zero. */
  function After(ws: seq<int>, k: nat, largest: bool): (v: seq<int>)
    requires ws != []
    ensures |v| == |ws|
  {
    if k == 0 then Zeros(|ws|) else Next(ws, After(ws, k - 1, largest), largest)
  }

  /** How often backend `i` is among the first `k` picks. */
  function Picks(ws: seq<int>, i: nat, k: nat, largest: bool): nat
    requires ws != []
  {
    if k == 0 then 0
    else Picks(ws, i, k - 1, largest) + if Pick(ws, After(ws, k - 1, largest), largest) == i then 1 else 0
  }

  lemma {:induction false} ZerosSum(n: nat)
    ensures Sum(Zeros(n)) == 0
  {
    if n > 0 {
      assert Zeros(n)[..n - 1] == Zeros(n - 1);
      ZerosSum(n - 1);
    }
  }

  lemma NextShape(ws: seq<int>, v: seq<int>, largest: bool)
    requires |v| == |ws| > 0
    ensures var b := Pick(ws, v, largest);
            b == Best(Add(v, ws), |ws|, largest) && Next(ws, v, largest) == Add(v, ws)[b := Add(v, ws)[b] - Sum(ws)]
  {
    hide Add, Best, Sum;
  }

  lemma NextSum(ws: seq<int>, v: seq<int>, largest: bool)
    requires |v| == |ws| > 0
    ensures Sum(Next(ws, v, largest)) == Sum(v)
  {
    hide *;
    var c, b := Add(v, ws), Pick(ws, v, largest);
    NextShape(ws, v, largest);
    SumAdd(v, ws);
    SumUpdate(c, b, c[b] - Sum(ws));
  }

  /** The weights always balance. */
  lemma {:induction false} AfterSum(ws: seq<int>, k: nat, largest: bool)
    requires ws != []
    ensures Sum(After(ws, k, largest)) == 0
  {
    if k == 0 {
      ZerosSum(|ws|);
    } else {
      AfterSum(ws, k - 1, largest);
      NextSum(ws, After(ws, k - 1, largest), largest);
    }
  }

  lemma {:induction false} TotalPositive(ws: seq<int>)
    requires forall i :: 0 <= i < |ws| ==> ws[i] >= 1
    ensures Sum(ws) >= |ws|
  {
    SumAtLeast(ws, 1);
  }

  /** With the largest weight winning, no current weight falls to -W or below. */
  lemma NextLow(ws: seq<int>, v: seq<int>)
    requires IsConfig(ws) && |v| == |ws| && Sum(v) == 0
    requires forall i :: 0 <= i < |v| ==> v[i] >= 1 - Sum(ws)
    ensures forall i :: 0 <= i < |ws| ==> Next(ws, v, true)[i] >= 1 - Sum(ws)
  {
    var c, b := Add(v, ws), Pick(ws, v, true);
    SumAdd(v, ws);
    TotalPositive(ws);
    hide Sum;
    if c[b] <= 0 {
      forall i | 0 <= i < |c| ensures c[i] <= 0 { assert !Better(c[i], c[b], true); }
      NoPositive(c);
      assert false;
    }
  }

  lemma {:induction false} AfterLow(ws: seq<int>, k: nat)
    requires IsConfig(ws)
    ensures forall i :: 0 <= i < |ws| ==> After(ws, k, true)[i] >= 1 - Sum(ws)
  {
    TotalPositive(ws);
    hide Next, Sum;
    if k > 0 {
      AfterLow(ws, k - 1);
      AfterSum(ws, k - 1, true);
      NextLow(ws, After(ws, k - 1, true));
    }
  }

  /** Bounded weights: after any number of picks with the largest weight winning, every current
      weight lies between 1 - W and (n - 1)(W - 1). */
  lemma BoundedWeights(ws: seq<int>, k: nat, i: nat)
    requires IsConfig(ws) && i < |ws|
    ensures 1 - Sum(ws) <= After(ws, k, true)[i] <= (|ws| - 1) * (Sum(ws) - 1)
  {
    hide *;
    AfterLow(ws, k);
    AfterSum(ws, k, true) by { assert ws != [] by { ConfigNotEmpty(ws); } }
    ComponentBound(After(ws, k, true), i, 1 - Sum(ws));
    NegatedFactor(|ws| - 1, Sum(ws) - 1);
    assert -(Sum(ws) - 1) == 1 - Sum(ws);
  }

  lemma ConfigNotEmpty(ws: seq<int>)
    requires IsConfig(ws)
    ensures ws != []
  {
  }

  lemma NegatedFactor(a: int, b: int)
    ensures a * -b == -(a * b)
  {
  }

  /** Every current weight is what the backend has been credited less what its picks cost. */
  lemma {:induction false} Ledger(ws: seq<int>, k: nat, i: nat, largest: bool)
    requires ws != [] && i < |ws|
    ensures After(ws, k, largest)[i] == k * ws[i] - Sum(ws) * Picks(ws, i, k, largest)
  {
    hide Sum, Pick, Next;
    if k > 0 {
      Ledger(ws, k - 1, i, largest);
      NextComponent(ws, After(ws, k - 1, largest), i, largest);
      LedgerStep(k - 1, ws[i], Sum(ws), Picks(ws, i, k - 1, largest));
    }
  }

  lemma NextComponent(ws: seq<int>, v: seq<int>, i: nat, largest: bool)
    requires |v| == |ws| > 0 && i < |ws|
    ensures Next(ws, v, largest)[i] == v[i] + ws[i] - if Pick(ws, v, largest) == i then Sum(ws) else 0
  {
    hide Pick, Sum;
  }

  lemma LedgerStep(k: int, wi: int, w: int, c: int)
    ensures (k + 1) * wi == k * wi + wi && w * (c + 1) == w * c + w
  {
  }

  /** After W picks everything is back to zero. */
  lemma Period(ws: seq<int>)
    requires IsConfig(ws)
    ensures Sum(ws) > 0 && After(ws, Sum(ws), true) == Zeros(|ws|)
  {
    TotalPositive(ws);
    var w := Sum(ws);
    AfterLow(ws, w);
    AfterSum(ws, w, true);
    hide After, Sum, Picks;
    var v := After(ws, w, true);
    forall i | 0 <= i < |ws| ensures v[i] >= 0 {
      Ledger(ws, w, i, true);
      MultipleAbove(w, ws[i], Picks(ws, i, w, true));
    }
    forall i | 0 <= i < |ws| ensures v[i] == 0 {
      ZeroSum(v, i);
    }
  }

  lemma MulOrder(w: int, x: int, y: int)
    requires w > 0
    ensures x < y ==> w * x < w * y
    ensures x <= y ==> w * x <= w * y
  {
  }

  lemma MultipleAbove(w: int, a: int, c: int)
    requires w > 0 && w * a - w * c >= 1 - w
    ensures w * a - w * c >= 0
  {
    var d := a - c;
    assert w * d == w * a - w * c;
    MulOrder(w, d, -1);
  }

  lemma {:induction false} Periodic(ws: seq<int>, j: nat)
    requires IsConfig(ws) && Sum(ws) > 0
    ensures After(ws, j + Sum(ws), true) == After(ws, j, true)
  {
    hide Next, Sum, IsConfig;
    if j == 0 {
      Period(ws);
    } else {
      Periodic(ws, j - 1);
      assert j + Sum(ws) - 1 == j - 1 + Sum(ws);
    }
  }

  /** Weighted fairness: any W consecutive picks take backend i exactly weight_i times and leave the
      current weights as they were, which at the start of the run means all zero. */
  lemma WeightedFairness(ws: seq<int>, j: nat, i: nat)
    requires IsConfig(ws) && i < |ws|
    ensures Sum(ws) > 0
    ensures Picks(ws, i, j + Sum(ws), true) - Picks(ws, i, j, true) == ws[i]
    ensures After(ws, j + Sum(ws), true) == After(ws, j, true)
    ensures After(ws, Sum(ws), true) == Zeros(|ws|)
  {
    hide After, Sum, Picks;
    var w := Sum(ws);
    Period(ws);
    Periodic(ws, j);
    Ledger(ws, j, i, true);
    Ledger(ws, j + w, i, true);
    SamePosition(j, w, ws[i], Picks(ws, i, j, true), Picks(ws, i, j + w, true));
  }

  lemma SamePosition(j: int, w: int, wi: int, a: int, b: int)
    requires w > 0 && (j + w) * wi - w * b == j * wi - w * a
    ensures b - a == wi
  {
    assert (j + w) * wi == j * wi + w * wi;
    assert w * (b - a) == w * b - w * a;
    MulOrder(w, b - a, wi);
    MulOrder(w, wi, b - a);
  }

  // ---- as written: the smallest weight wins ----------------------------------------------------

  lemma BestIs(v: seq<int>, m: nat, largest: bool)
    requires m < |v|
    requires forall j :: 0 <= j < |v| ==> !Better(v[j], v[m], largest)
    requires forall j :: 0 <= j < m ==> Better(v[m], v[j], largest)
    ensures Best(v, |v|, largest) == m
  {
    var b := Best(v, |v|, largest);
    hide Best;
  }

  lemma MinFormula(k: int, wi: int, wm: int, w: int)
    requires k >= 0 && w >= 0
    ensures wm <= wi ==> k * wm - w * k + wm <= k * wi + wi
    ensures wm < wi ==> k * wm - w * k + wm < k * wi + wi
  {
    assert (k + 1) * wi == k * wi + wi && (k + 1) * wm == k * wm + wm;
    MulOrder(k + 1, wm, wi);
    assert w * k >= 0;
  }

  /** As written, every pick of every run is the first backend of least weight. */
  lemma {:induction false} SmallestStarves(ws: seq<int>, k: nat)
    requires IsConfig(ws)
    ensures var m := Best(ws, |ws|, false);
            && Pick(ws, After(ws, k, false), false) == m
            && forall i :: 0 <= i < |ws| ==> Picks(ws, i, k, false) == if i == m then k else 0
  {
    var m, v := Best(ws, |ws|, false), After(ws, k, false);
    if k > 0 { SmallestStarves(ws, k - 1); }
    assert forall i :: 0 <= i < |ws| ==> Picks(ws, i, k, false) == if i == m then k else 0;
    TotalPositive(ws);
    hide After, Picks, Sum, Best;
    var c := Add(v, ws);
    forall i | 0 <= i < |ws| ensures !Better(c[i], c[m], false) && (i < m ==> Better(c[m], c[i], false)) {
      Ledger(ws, k, i, false);
      Ledger(ws, k, m, false);
      MinFormula(k, ws[i], ws[m], Sum(ws));
      BestOf(ws, i);
    }
    BestIs(c, m, false);
  }

  lemma BestOf(ws: seq<int>, i: nat)
    requires i < |ws|
    ensures var m := Best(ws, |ws|, false); ws[m] <= ws[i] && (i < m ==> ws[m] < ws[i])
  {
    var m := Best(ws, |ws|, false);
    assert !Better(ws[i], ws[m], false);
  }

  /** As written, W picks share the load by weight exactly when there is only one backend. */
  lemma WrittenIsFairIff(ws: seq<int>)
    requires IsConfig(ws)
    ensures Sum(ws) > 0
    ensures (forall i :: 0 <= i < |ws| ==> Picks(ws, i, Sum(ws), false) == ws[i]) <==> |ws| == 1
  {
    TotalPositive(ws);
    SmallestStarves(ws, Sum(ws));
    hide Picks;
    if |ws| == 1 {
      assert Sum(ws) == ws[0] by { assert ws[..0] == []; }
    } else {
      var other := if Best(ws, |ws|, false) == 0 then 1 else 0;
      assert Picks(ws, other, Sum(ws), false) == 0 < ws[other];
    }
  }
}
