/** The written comparison on 32-bit counters that may wrap around: how long the first choice keeps every
    client to itself, and that this always ends. */
module Starvation {
  import opened Text
  import opened Numbers
  import opened Sums
  import opened Balancer
  import opened Fairness
  import opened Counters

  // ---- one backend's reign --------------------------------------------------------------------

  /** What counter `i` would hold after `k` picks that all went to `m`, if it had no width. */
  function Drained(ws: seq<int>, m: nat, i: nat, k: int): int
    requires i < |ws|
  {
    k * ws[i] - if i == m then k * Sum(ws) else 0
  }

  /** After `k` picks of `m`, the written comparison takes it once more: once credited and cut to 32 bits
      it is below every backend before it and not above any behind it. */
  predicate StaysSmallest(ws: seq<int>, m: nat, k: int)
    requires m < |ws|
  {
    forall i :: 0 <= i < |ws| && i != m ==>
      var mine, other := Wrap(Drained(ws, m, m, k) + ws[m]), Wrap(Drained(ws, m, i, k) + ws[i]);
      mine <= other && (i < m ==> mine < other)
  }

  /** The counters after `k` such picks. */
  predicate IsDrained(ws: seq<int>, stats: seq<Stat>, m: nat, k: int)
    requires |ws| <= |stats|
  {
    forall i :: 0 <= i < |ws| ==> stats[i].healthy && stats[i].weight == Wrap(Drained(ws, m, i, k))
  }

  /** The same, with the next call's credit. */
  predicate IsCredited(ws: seq<int>, c: seq<Stat>, m: nat, k: int)
    requires |ws| <= |c|
  {
    forall i :: 0 <= i < |ws| ==> c[i].healthy && c[i].weight == Wrap(Drained(ws, m, i, k) + ws[i])
  }

  lemma CreditDrained(ws: seq<int>, stats: seq<Stat>, m: nat, k: int)
    requires |ws| <= |stats| && IsDrained(ws, stats, m, k)
    ensures IsCredited(ws, Credit(ws, stats, |ws|), m, k)
  {
    forall i | 0 <= i < |ws|
      ensures var c := Credit(ws, stats, |ws|)[i]; c.healthy && c.weight == Wrap(Drained(ws, m, i, k) + ws[i])
    {
      WrapAdd(Drained(ws, m, i, k), ws[i]);
      hide Wrap, Drained;
    }
  }

  /** The loop over such counters ends with `m` exactly when that stays the smallest. */
  lemma BestIsSmallest(ws: seq<int>, c: seq<Stat>, m: nat, k: int)
    requires m < |ws| <= |c| && IsCredited(ws, c, m, k)
    ensures BestWeight(c, |ws|, false) == m <==> StaysSmallest(ws, m, k)
    ensures c[BestWeight(c, |ws|, false)].healthy
  {
    var b := BestWeight(c, |ws|, false);
    hide BestWeight, Wrap, Drained;
    if b == m {
      forall i | 0 <= i < |ws| && i != m
        ensures c[m].weight <= c[i].weight && (i < m ==> c[m].weight < c[i].weight)
      {
        assert !Better(c[i].weight, c[b].weight, false);
      }
    } else if b < m {
      assert !Better(c[m].weight, c[b].weight, false);
    } else {
      assert Better(c[b].weight, c[m].weight, false);
    }
  }

  /** In such a state the next pick is `m` exactly when it stays the smallest. */
  lemma NextPickIff(config: Config, stats: seq<Stat>, m: nat, k: int)
    requires m < |config.weights| <= |stats| && IsDrained(config.weights, stats, m, k)
    ensures WeightedChoice(config, stats, false).0 == Some(m) <==> StaysSmallest(config.weights, m, k)
  {
    hide *;
    var ws := config.weights;
    CreditDrained(ws, stats, m, k);
    ChoiceShape(config, stats, false);
    BestIsSmallest(ws, Credit(ws, stats, |ws|), m, k);
  }

  lemma DrainedStep(ws: seq<int>, m: nat, i: nat, k: int)
    requires i < |ws|
    ensures Drained(ws, m, i, k + 1) == Drained(ws, m, i, k) + ws[i] - if i == m then Sum(ws) else 0
  {
    hide Sum;
    assert (k + 1) * ws[i] == k * ws[i] + ws[i] && (k + 1) * Sum(ws) == k * Sum(ws) + Sum(ws);
  }

  /** That pick drains the counters once more. */
  lemma PickDrains(config: Config, stats: seq<Stat>, m: nat, k: int)
    requires m < |config.weights| <= |stats| && config.totalWeight == Sum(config.weights)
    requires IsDrained(config.weights, stats, m, k) && WeightedChoice(config, stats, false).0 == Some(m)
    ensures var after := WeightedChoice(config, stats, false).1;
            |after| == |stats| && IsDrained(config.weights, after, m, k + 1)
  {
    hide *;
    var ws := config.weights;
    var c := Credit(ws, stats, |ws|);
    CreditDrained(ws, stats, m, k);
    ChoiceShape(config, stats, false);
    BestIsSmallest(ws, c, m, k);
    FullPrice(config, c[m], m);
    PaidIsDrained(ws, c, m, k);
  }

  lemma FullPrice(config: Config, s: Stat, m: nat)
    requires m < |config.weights| && s.healthy
    ensures Price(config, s, m) == config.totalWeight
  {
  }

  lemma PaidIsDrained(ws: seq<int>, c: seq<Stat>, m: nat, k: int)
    requires m < |ws| <= |c| && IsCredited(ws, c, m, k)
    ensures IsDrained(ws, c[m := c[m].(weight := Wrap(c[m].weight - Sum(ws)))], m, k + 1)
  {
    hide Wrap, Drained, Sum;
    var after := c[m := c[m].(weight := Wrap(c[m].weight - Sum(ws)))];
    forall i | 0 <= i < |ws| ensures after[i].healthy && after[i].weight == Wrap(Drained(ws, m, i, k + 1)) {
      DrainedStep(ws, m, i, k);
      if i == m {
        WrapAdd(Drained(ws, m, m, k) + ws[m], -Sum(ws));
      }
    }
  }

  /** The `j`-th choice of a run with the written comparison. */
  function PickAt(config: Config, stats: seq<Stat>, j: nat): Option<nat>
    requires 0 < |config.weights| <= |stats|
  {
    WeightedChoice(config, Chosen(config, stats, j, false), false).0
  }

  lemma ChosenStep(config: Config, stats: seq<Stat>, k: nat)
    requires 0 < |config.weights| <= |stats|
    ensures Chosen(config, stats, k, false)
              == if k == 0 then stats else WeightedChoice(config, Chosen(config, stats, k - 1, false), false).1
  {
    hide WeightedChoice;
  }

  lemma {:induction false} ReignDrains(config: Config, stats: seq<Stat>, m: nat, k: nat)
    requires m < |config.weights| <= |stats| && config.totalWeight == Sum(config.weights)
    requires Healthy(stats, |config.weights|) && Weights(stats, |config.weights|) == Zeros(|config.weights|)
    requires forall j :: 0 <= j < k ==> PickAt(config, stats, j) == Some(m)
    ensures IsDrained(config.weights, Chosen(config, stats, k, false), m, k)
  {
    hide *;
    ChosenStep(config, stats, k);
    if k == 0 {
      NothingDrained(config.weights, stats, m);
    } else {
      ReignDrains(config, stats, m, k - 1);
      assert PickAt(config, stats, k - 1) == Some(m);
      PickIsChoice(config, stats, k - 1);
      PickDrains(config, Chosen(config, stats, k - 1, false), m, k - 1);
    }
  }

  lemma NothingDrained(ws: seq<int>, stats: seq<Stat>, m: nat)
    requires |ws| <= |stats| && Healthy(stats, |ws|) && Weights(stats, |ws|) == Zeros(|ws|)
    ensures IsDrained(ws, stats, m, 0)
  {
    forall i | 0 <= i < |ws| ensures stats[i].weight == 0 && Drained(ws, m, i, 0) == 0 {
      assert stats[i].weight == Weights(stats, |ws|)[i];
      hide Sum;
    }
  }

  /** Starvation on the real counters, exactly: from zero weights and with every backend healthy, the
      first `k` clients all go to `m` if and only if after each number of picks below `k` its wrapped
      weight stays the smallest. The first number at which it does not is when another backend is first
      picked. */
  lemma {:induction false} ReignIff(config: Config, stats: seq<Stat>, m: nat, k: nat)
    requires m < |config.weights| <= |stats| && config.totalWeight == Sum(config.weights)
    requires Healthy(stats, |config.weights|) && Weights(stats, |config.weights|) == Zeros(|config.weights|)
    ensures (forall j :: 0 <= j < k ==> PickAt(config, stats, j) == Some(m))
            <==> (forall j :: 0 <= j < k ==> StaysSmallest(config.weights, m, j))
  {
    hide *;
    if k > 0 {
      ReignIff(config, stats, m, k - 1);
      if forall j :: 0 <= j < k - 1 ==> PickAt(config, stats, j) == Some(m) {
        ReignDrains(config, stats, m, k - 1);
        PickIsChoice(config, stats, k - 1);
        NextPickIff(config, Chosen(config, stats, k - 1, false), m, k - 1);
      }
    }
  }

  lemma PickIsChoice(config: Config, stats: seq<Stat>, j: nat)
    requires 0 < |config.weights| <= |stats|
    ensures PickAt(config, stats, j) == WeightedChoice(config, Chosen(config, stats, j, false), false).0
  {
  }

  // ---- every reign ends -------------------------------------------------------------------------

  function Power(e: nat): int { if e == 0 then 1 else 2 * Power(e - 1) }

  /** A positive number below 2^e, times some number, is an odd multiple of 2^e. */
  lemma {:induction false} OddMultiple(w: int, e: nat) returns (h: int, q: int)
    requires 0 < w < Power(e)
    ensures h * w == Power(e) * q && q % 2 == 1 && 1 <= h <= Power(e)
  {
    if w % 2 == 1 {
      h, q := Power(e), w;
    } else {
      var half := w / 2;
      assert w == 2 * half && e > 0;
      h, q := OddMultiple(half, e - 1);
      assert h * w == 2 * (h * half) && Power(e) * q == 2 * (Power(e - 1) * q);
    }
  }

  const HALF: int := 0x8000_0000

  lemma PowerOfInt()
    ensures Power(31) == HALF
  {
    assert Power(8) == 256;
    assert Power(16) == 65536;
    assert Power(24) == 16777216;
  }

  /** An odd multiple of 2^31 wraps to the least int. */
  lemma OddHalfWraps(q: int)
    requires q % 2 == 1
    ensures Wrap(HALF * q) == INT_MIN
  {
    WrapIs(HALF * q, INT_MIN, (q + 1) / 2);
  }

  /** With the other's counter at the least int, `m` is picked only if its own is there too. */
  lemma TieAt(ws: seq<int>, m: nat, i: nat, h: int, q: int) returns (u: int)
    requires m < |ws| && i < |ws| && i != m && h * ws[i] == HALF * q && q % 2 == 1
    requires StaysSmallest(ws, m, h - 1)
    ensures Sum(ws) - h * (Sum(ws) - ws[m]) == INT_MIN + WORD * u
  {
    var w, wm := Sum(ws), ws[m];
    OddHalfWraps(q);
    assert Drained(ws, m, i, h - 1) + ws[i] == h * ws[i] by { hide Sum; }
    var x := Drained(ws, m, m, h - 1) + wm;
    assert x == w - h * (w - wm) by { hide Sum; Rearranged(h, w, wm); }
    assert Wrap(x) <= INT_MIN;
    u := WrapShift(x);
  }

  lemma Rearranged(h: int, w: int, wm: int)
    ensures (h - 1) * wm - (h - 1) * w + wm == w - h * (w - wm)
  {
  }

  lemma TripleOdd(h: int, w: int, q: int)
    requires h * w == HALF * q && q % 2 == 1
    ensures (3 * h) * w == HALF * (3 * q) && (3 * q) % 2 == 1
  {
    assert (3 * h) * w == 3 * (h * w);
  }

  /** There are not both ties, or the total weight would be a multiple of 2^31. */
  lemma NotBothTies(w: int, x: int, u: int, v: int)
    requires 0 < w <= INT_MAX
    requires w - x == INT_MIN + WORD * u
    ensures w - 3 * x != INT_MIN + WORD * v
  {
    NoMultiple(w, 3 * u - v);
  }

  lemma NoMultiple(w: int, t: int)
    requires 0 < w <= INT_MAX
    ensures w != INT_MIN + HALF * t
  {
  }

  /** With two backends or more, no backend keeps every client for ever: the counters wrap around and
      another one is picked within the first 3 * 2^31 calls. */
  lemma ReignEnds(ws: seq<int>, m: nat)
    requires IsConfig(ws) && |ws| > 1 && m < |ws| && Sum(ws) <= INT_MAX
    ensures exists k :: 0 <= k < 3 * HALF && !StaysSmallest(ws, m, k)
  {
    var i := if m == 0 then 1 else 0;
    ComponentAtMostSum(ws, i);
    TotalPositive(ws);
    PowerOfInt();
    assert 0 < ws[i] <= INT_MAX;
    hide *;
    var h, q := OddMultiple(ws[i], 31);
    if StaysSmallest(ws, m, h - 1) && StaysSmallest(ws, m, 3 * h - 1) {
      NotBothSmallest(ws, m, i, h, q);
    }
  }

  /** So every run with the written comparison comes to a call that `m` does not get. */
  lemma StarvationEnds(config: Config, stats: seq<Stat>, m: nat)
    requires IsConfig(config.weights) && config.totalWeight == Sum(config.weights) <= INT_MAX
    requires m < |config.weights| <= |stats| && |config.weights| > 1
    requires Healthy(stats, |config.weights|) && Weights(stats, |config.weights|) == Zeros(|config.weights|)
    ensures exists j :: 0 <= j < 3 * HALF && PickAt(config, stats, j) != Some(m)
  {
    hide *;
    ReignEnds(config.weights, m);
    ReignIff(config, stats, m, 3 * HALF);
  }

  lemma NotBothSmallest(ws: seq<int>, m: nat, i: nat, h: int, q: int)
    requires m < |ws| && i < |ws| && i != m && h * ws[i] == HALF * q && q % 2 == 1
    requires 0 < Sum(ws) <= INT_MAX && StaysSmallest(ws, m, h - 1)
    ensures !StaysSmallest(ws, m, 3 * h - 1)
  {
    hide *;
    if StaysSmallest(ws, m, 3 * h - 1) {
      TripleOdd(h, ws[i], q);
      var u := TieAt(ws, m, i, h, q);
      var v := TieAt(ws, m, i, 3 * h, 3 * q);
      var d := Sum(ws) - ws[m];
      assert (3 * h) * d == 3 * (h * d);
      NotBothTies(Sum(ws), h * d, u, v);
    }
  }
}
