/** The same runs on the shared 32-bit counters, and what happens when a backend is down. */
module Counters {
  import opened Text
  import opened Numbers
  import opened Sums
  import opened Balancer
  import opened Fairness

  // ---- weighted round robin ---------------------------------------------------------------------

  /** The current weights of the first `n` backends. */
  function Weights(stats: seq<Stat>, n: nat): (v: seq<int>)
    requires n <= |stats|
    ensures |v| == n
  {
    seq(n, i requires 0 <= i < n => stats[i].weight)
  }

  predicate Healthy(stats: seq<Stat>, n: nat)
    requires n <= |stats|
  {
    forall i :: 0 <= i < n ==> stats[i].healthy
  }

  /** Nothing overflows in a choice from these weights. */
  predicate Roomy(config: Config, stats: seq<Stat>)
    requires |config.weights| <= |stats|
  {
    forall i :: 0 <= i < |config.weights| ==>
      var c := stats[i].weight + config.weights[i];
      INT_MIN <= c <= INT_MAX && INT_MIN <= c - config.totalWeight
  }

  /** The first counters are healthy and carry these weights. */
  predicate Carry(stats: seq<Stat>, v: seq<int>) {
    |v| <= |stats| && forall i :: 0 <= i < |v| ==> stats[i].healthy && stats[i].weight == v[i]
  }

  /** Counters that differ in current weights only. */
  predicate SameButWeights(a: seq<Stat>, b: seq<Stat>) {
    |a| == |b| && forall i :: 0 <= i < |a| ==> a[i].(weight := 0) == b[i].(weight := 0)
  }

  lemma {:induction false} BestAgrees(stats: seq<Stat>, v: seq<int>, n: nat, largest: bool)
    requires 0 < n <= |v| && Carry(stats, v)
    ensures BestWeight(stats, n, largest) == Best(v, n, largest)
  {
    if n > 1 {
      BestAgrees(stats, v, n - 1, largest);
    }
  }

  lemma CreditAgrees(config: Config, stats: seq<Stat>)
    requires 0 < |config.weights| <= |stats|
    requires Healthy(stats, |config.weights|) && Roomy(config, stats)
    ensures var n, ws := |config.weights|, config.weights;
            var c := Credit(ws, stats, n);
            Carry(c, Add(Weights(stats, n), ws)) && SameButWeights(c, stats)
  {
    hide Wrap;
  }

  /** With every backend healthy and no overflow, the choice on the counters is the one on vectors. */
  lemma ChoiceIsNext(config: Config, stats: seq<Stat>, largest: bool)
    requires 0 < |config.weights| <= |stats| && config.totalWeight == Sum(config.weights) > 0
    requires Healthy(stats, |config.weights|) && Roomy(config, stats)
    ensures var n := |config.weights|;
            var (pick, after) := WeightedChoice(config, stats, largest);
            && pick == Some(Pick(config.weights, Weights(stats, n), largest))
            && SameButWeights(after, stats) && |after| == |stats| && Healthy(after, n)
            && Weights(after, n) == Next(config.weights, Weights(stats, n), largest)
  {
    hide *;
    var n, ws := |config.weights|, config.weights;
    var v, c := Weights(stats, n), Credit(ws, stats, n);
    var sum := Add(v, ws);
    CreditAgrees(config, stats);
    BestAgrees(c, sum, n, largest);
    var b := BestWeight(c, n, largest);
    ChoiceShape(config, stats, largest);
    NextShape(ws, v, largest);
    PriceFits(config, stats, b);
    assert Price(config, c[b], b) == config.totalWeight by { HealthyPrice(config, c, sum, b); }
    PayFor(stats, c, sum, b, sum[b] - Sum(ws));
  }

  /** What the chosen backend pays: the total weight, or its own credit back when it is down. */
  function Price(config: Config, chosen: Stat, b: nat): int
    requires b < |config.weights|
  {
    if chosen.healthy then config.totalWeight else config.weights[b]
  }

  lemma ChoiceShape(config: Config, stats: seq<Stat>, largest: bool)
    requires 0 < |config.weights| <= |stats|
    ensures var n := |config.weights|;
            var c := Credit(config.weights, stats, n);
            var b := BestWeight(c, n, largest);
            WeightedChoice(config, stats, largest)
              == (if c[b].healthy then Some(b) else None,
                  c[b := c[b].(weight := Wrap(c[b].weight - Price(config, c[b], b)))])
  {
    hide Credit, BestWeight, Wrap;
  }

  lemma HealthyPrice(config: Config, c: seq<Stat>, sum: seq<int>, b: nat)
    requires b < |sum| == |config.weights| && Carry(c, sum)
    ensures c[b].weight == sum[b] && Price(config, c[b], b) == config.totalWeight
  {
  }

  lemma PriceFits(config: Config, stats: seq<Stat>, b: nat)
    requires b < |config.weights| <= |stats| && Roomy(config, stats) && config.totalWeight == Sum(config.weights) > 0
    ensures var sum := Add(Weights(stats, |config.weights|), config.weights)[b];
            Wrap(sum - config.totalWeight) == sum - Sum(config.weights)
  {
    hide Sum;
  }

  lemma PayFor(stats: seq<Stat>, c: seq<Stat>, sum: seq<int>, b: nat, x: int)
    requires b < |sum| <= |c| && Carry(c, sum) && SameButWeights(c, stats)
    ensures c[b].healthy && c[b].weight == sum[b]
    ensures var after := c[b := c[b].(weight := x)];
            && Healthy(after, |sum|) && Weights(after, |sum|) == sum[b := x]
            && SameButWeights(after, stats) && |after| == |stats|
  {
  }

  /** The counters after `k` weighted choices. */
  function Chosen(config: Config, stats: seq<Stat>, k: nat, largest: bool): (r: seq<Stat>)
    requires 0 < |config.weights| <= |stats|
    ensures |r| == |stats|
  {
    if k == 0 then stats else WeightedChoice(config, Chosen(config, stats, k - 1, largest), largest).1
  }

  /** The configuration the weighted algorithm rests on, and a product n * W that fits an int. */
  predicate Sane(config: Config) {
    IsConfig(config.weights) && config.totalWeight == Sum(config.weights)
    && |config.weights| * Sum(config.weights) <= INT_MAX
  }

  lemma Products(n: int, w: int)
    requires n >= 1 && w >= 0
    ensures (n - 1) * (w - 1) == (n - 1) * w - (n - 1)
    ensures n * w == (n - 1) * w + w
    ensures n > 1 ==> (n - 1) * w >= w
  {
  }

  /** The arithmetic of one counter. */
  lemma RoomAt(n: int, w: int, wi: int, x: int)
    requires n >= 1 && 1 <= wi <= w && n * w <= INT_MAX
    requires 1 - w <= x <= (n - 1) * (w - 1)
    ensures x + wi <= INT_MAX && INT_MIN <= x + wi
    ensures n > 1 || x == 0 ==> INT_MIN <= x + wi - w
  {
    Products(n, w);
  }

  lemma NoOverflow(config: Config, stats: seq<Stat>, k: nat)
    requires Sane(config) && |config.weights| <= |stats|
    requires Weights(stats, |config.weights|) == After(config.weights, k, true)
    ensures Roomy(config, stats)
  {
    hide After, Sum, Wrap, IsConfig;
    var ws, n, w := config.weights, |config.weights|, Sum(config.weights);
    ConfigNotEmpty(ws);
    var v := After(ws, k, true);
    forall i | 0 <= i < n
      ensures var c := stats[i].weight + ws[i]; INT_MIN <= c <= INT_MAX && INT_MIN <= c - config.totalWeight
    {
      assert stats[i].weight == v[i];
      BoundedWeights(ws, k, i);
      ComponentAtMostSum(ws, i);
      if n == 1 { OneIsZero(ws, k); }
      AtLeastOne(ws, i);
      RoomAt(n, w, ws[i], v[i]);
    }
  }

  lemma AtLeastOne(ws: seq<int>, i: nat)
    requires IsConfig(ws) && i < |ws|
    ensures ws[i] >= 1
  {
  }

  lemma OneIsZero(ws: seq<int>, k: nat)
    requires |ws| == 1
    ensures After(ws, k, true)[0] == 0
  {
    hide After;
    AfterSum(ws, k, true);
    assert After(ws, k, true)[..0] == [];
  }

  lemma ComponentAtMostSum(ws: seq<int>, i: nat)
    requires IsConfig(ws) && i < |ws|
    ensures ws[i] <= Sum(ws)
  {
    ComponentBound(ws, i, 0);
  }

  /** Smooth weighted round robin on the real counters: from zero weights and with every backend
      healthy, the k-th choice is the k-th pick of the vector run, whose shares are exact in every
      window of W picks, and no int overflows on the way. */
  lemma {:induction false} CountersFollowVectors(config: Config, stats: seq<Stat>, k: nat)
    requires Sane(config) && |config.weights| <= |stats| && Healthy(stats, |config.weights|)
    requires Weights(stats, |config.weights|) == Zeros(|config.weights|)
    ensures var n, s := |config.weights|, Chosen(config, stats, k, true);
            && Healthy(s, n) && Weights(s, n) == After(config.weights, k, true) && Roomy(config, s)
            && WeightedChoice(config, s, true).0 == Some(Pick(config.weights, After(config.weights, k, true), true))
  {
    hide WeightedChoice, Next, Pick, Weights, Healthy, Roomy, Zeros;
    var s := Chosen(config, stats, k, true);
    TotalPositive(config.weights);
    if k > 0 {
      CountersFollowVectors(config, stats, k - 1);
      ChoiceIsNext(config, Chosen(config, stats, k - 1, true), true);
    }
    NoOverflow(config, s, k);
    ChoiceIsNext(config, s, true);
  }

  lemma SmallestRoom(ws: seq<int>, k: nat, i: nat)
    requires IsConfig(ws) && i < |ws| && (k + 1) * Sum(ws) <= INT_MAX
    ensures var x := After(ws, k, false)[i];
            INT_MIN <= x + ws[i] <= INT_MAX && INT_MIN <= x + ws[i] - Sum(ws)
  {
    SmallestStarves(ws, k);
    Ledger(ws, k, i, false);
    ComponentAtMostSum(ws, i);
    TotalPositive(ws);
    SmallestArithmetic(k, ws[i], Sum(ws), Picks(ws, i, k, false));
  }

  lemma SmallestArithmetic(k: int, wi: int, w: int, c: int)
    requires k >= 0 && 1 <= wi <= w && (c == 0 || c == k)
    ensures -(k * w) <= k * wi - w * c <= k * w
    ensures (k + 1) * w == k * w + w
  {
    MulOrder(k + 1, wi, w);
    assert k * wi >= 0 && k * w >= 0 && w * k == k * w && w * 0 == 0;
    assert (k + 1) * wi == k * wi + wi && (k + 1) * w == k * w + w;
    assert k * w - k * wi == k * (w - wi) >= 0;
  }

  /** The written comparison on the real counters: the first backend of least weight gets every
      connection of a run from zero weights, for as long as the counters do not wrap around. */
  lemma {:induction false} CountersStarve(config: Config, stats: seq<Stat>, k: nat)
    requires IsConfig(config.weights) && config.totalWeight == Sum(config.weights)
    requires |config.weights| <= |stats| && Healthy(stats, |config.weights|)
    requires Weights(stats, |config.weights|) == Zeros(|config.weights|)
    requires (k + 1) * Sum(config.weights) <= INT_MAX
    ensures var n, s := |config.weights|, Chosen(config, stats, k, false);
            && Healthy(s, n) && Weights(s, n) == After(config.weights, k, false)
            && WeightedChoice(config, s, false).0 == Some(Best(config.weights, n, false))
  {
    hide WeightedChoice, Next, Pick, Healthy, Zeros, Wrap, Sum, Best;
    var n, s := |config.weights|, Chosen(config, stats, k, false);
    TotalPositive(config.weights);
    if k > 0 {
      assert (k + 1) * Sum(config.weights) == k * Sum(config.weights) + Sum(config.weights);
      CountersStarve(config, stats, k - 1);
      SmallestIsRoomy(config, Chosen(config, stats, k - 1, false), k - 1);
      ChoiceIsNext(config, Chosen(config, stats, k - 1, false), false);
    }
    SmallestIsRoomy(config, s, k);
    ChoiceIsNext(config, s, false);
    SmallestStarves(config.weights, k);
  }

  lemma SmallestIsRoomy(config: Config, stats: seq<Stat>, k: nat)
    requires IsConfig(config.weights) && config.totalWeight == Sum(config.weights)
    requires |config.weights| <= |stats| && (k + 1) * Sum(config.weights) <= INT_MAX
    requires Weights(stats, |config.weights|) == After(config.weights, k, false)
    ensures Roomy(config, stats)
  {
    hide After, Sum, IsConfig;
    var ws := config.weights;
    forall i | 0 <= i < |ws|
      ensures var c := stats[i].weight + ws[i]; INT_MIN <= c <= INT_MAX && INT_MIN <= c - config.totalWeight
    {
      assert stats[i].weight == Weights(stats, |ws|)[i];
      SmallestRoom(ws, k, i);
    }
  }

  // ---- a backend that is down -------------------------------------------------------------------

  /** What one weighted choice credits: the first backend always, the others when healthy. */
  function Credits(config: Config, stats: seq<Stat>): (v: seq<int>)
    requires |config.weights| <= |stats|
    ensures |v| == |config.weights|
  {
    seq(|config.weights|, i requires 0 <= i < |config.weights| =>
      if i == 0 || stats[i].healthy then config.weights[i] else 0)
  }

  /** The credit falls short of a total exactly when some weight is left out. */
  lemma CreditsBelow(ws: seq<int>, v: seq<int>)
    requires |v| == |ws| && forall i :: 0 <= i < |ws| ==> v[i] <= ws[i]
    ensures Sum(v) <= Sum(ws)
    ensures Sum(v) == Sum(ws) <==> v == ws
  {
    var d := seq(|ws|, i requires 0 <= i < |ws| => ws[i] - v[i]);
    assert Add(v, d) == ws;
    SumAdd(v, d);
    SumAtLeast(d, 0);
    hide Sum, Add;
    if Sum(d) == 0 {
      forall i | 0 <= i < |ws| ensures v[i] == ws[i] { ZeroSum(d, i); }
    }
  }

  lemma CreditIsAdd(config: Config, stats: seq<Stat>)
    requires 0 < |config.weights| <= |stats| && Roomy(config, stats)
    requires forall i :: 0 <= i < |config.weights| ==> INT_MIN <= stats[i].weight <= INT_MAX
    ensures var n := |config.weights|;
            Weights(Credit(config.weights, stats, n), n) == Add(Weights(stats, n), Credits(config, stats))
  {
    hide Wrap;
  }

  lemma WeightsUpdate(c: seq<Stat>, n: nat, b: nat, x: int)
    requires b < n <= |c|
    ensures Sum(Weights(c[b := c[b].(weight := x)], n)) == Sum(Weights(c, n)) - c[b].weight + x
  {
    SumUpdate(Weights(c, n), b, x);
    hide Sum;
    assert Weights(c[b := c[b].(weight := x)], n) == Weights(c, n)[b := x];
  }

  lemma CreditPriceFits(config: Config, stats: seq<Stat>, b: nat)
    requires IsConfig(config.weights) && b < |config.weights| <= |stats| && Roomy(config, stats)
    requires config.totalWeight == Sum(config.weights)
    requires b == 0 || Credit(config.weights, stats, |config.weights|)[b].healthy
    ensures var c := Credit(config.weights, stats, |config.weights|)[b];
            Wrap(c.weight - Price(config, c, b)) == c.weight - Price(config, c, b)
  {
    TotalPositive(config.weights);
    ComponentAtMostSum(config.weights, b);
    hide Sum;
  }

  /** The sum of the current weights after one choice. */
  lemma ChoiceSum(config: Config, stats: seq<Stat>, largest: bool)
    requires IsConfig(config.weights) && |config.weights| <= |stats| && Roomy(config, stats)
    requires config.totalWeight == Sum(config.weights)
    requires forall i :: 0 <= i < |config.weights| ==> INT_MIN <= stats[i].weight <= INT_MAX
    ensures var n := |config.weights|;
            var (pick, after) := WeightedChoice(config, stats, largest);
            && |after| == |stats|
            && Sum(Weights(after, n)) == Sum(Weights(stats, n)) + Sum(Credits(config, stats))
                                         - (if pick.Some? then config.totalWeight else config.weights[0])
  {
    hide *;
    ConfigNotEmpty(config.weights);
    var ws, n := config.weights, |config.weights|;
    var c := Credit(ws, stats, n);
    var b := BestWeight(c, n, largest);
    CreditIsAdd(config, stats);
    SumAdd(Weights(stats, n), Credits(config, stats));
    ChoiceShape(config, stats, largest);
    CreditPriceFits(config, stats, b);
    assert Price(config, c[b], b) == if c[b].healthy then config.totalWeight else ws[b] by { PriceIs(config, c[b], b); }
    WeightsUpdate(c, n, b, c[b].weight - Price(config, c[b], b));
  }

  lemma PriceIs(config: Config, s: Stat, b: nat)
    requires b < |config.weights|
    ensures Price(config, s, b) == if s.healthy then config.totalWeight else config.weights[b]
  {
  }

  /** The first backend is healthy, or a healthy one beats it once both are credited. */
  predicate SomeBackendWins(config: Config, stats: seq<Stat>, largest: bool)
    requires 0 < |config.weights| <= |stats|
  {
    stats[0].healthy
    || exists i :: 1 <= i < |config.weights| && stats[i].healthy
                   && Better(stats[i].weight + config.weights[i], stats[0].weight + config.weights[0], largest)
  }

  /** A backend is picked exactly then. */
  lemma PickedIff(config: Config, stats: seq<Stat>, largest: bool)
    requires 0 < |config.weights| <= |stats| && Roomy(config, stats)
    ensures WeightedChoice(config, stats, largest).0.Some? <==> SomeBackendWins(config, stats, largest)
  {
    var ws, n := config.weights, |config.weights|;
    var c := Credit(ws, stats, n);
    ChoiceShape(config, stats, largest);
    var b := BestWeight(c, n, largest);
    assert forall i :: 0 <= i < n && (i == 0 || stats[i].healthy) ==>
      c[i].weight == stats[i].weight + ws[i] && c[i].healthy == stats[i].healthy;
    assert forall i :: 1 <= i < n ==> c[i].healthy == stats[i].healthy;
    hide WeightedChoice, Credit, BestWeight, Wrap;
    if b != 0 {
      assert Better(c[b].weight, c[0].weight, largest);
    } else {
      forall i | 1 <= i < n && stats[i].healthy ensures !Better(c[i].weight, c[0].weight, largest) {}
    }
  }

  /** One choice leaves the sum of the weights as it was exactly when it finds a backend and all but
      perhaps the first are healthy, or no backend at all is: otherwise the call moves the sum. */
  lemma WeightConservedIff(config: Config, stats: seq<Stat>, largest: bool)
    requires IsConfig(config.weights) && |config.weights| <= |stats| && Roomy(config, stats)
    requires config.totalWeight == Sum(config.weights)
    requires forall i :: 0 <= i < |config.weights| ==> INT_MIN <= stats[i].weight <= INT_MAX
    ensures var n, after := |config.weights|, WeightedChoice(config, stats, largest).1;
            && |after| == |stats|
            && (Sum(Weights(after, n)) == Sum(Weights(stats, n))
                <==> || (SomeBackendWins(config, stats, largest) && forall i :: 1 <= i < n ==> stats[i].healthy)
                     || (forall i :: 0 <= i < n ==> !stats[i].healthy))
  {
    var ws, n, v := config.weights, |config.weights|, Credits(config, stats);
    var first := Zeros(n)[0 := ws[0]];
    ChoiceSum(config, stats, largest);
    PickedIff(config, stats, largest);
    CreditsBelow(ws, v);
    CreditsBelow(v, first);
    ZerosSum(n);
    SumUpdate(Zeros(n), 0, ws[0]);
    var pick := WeightedChoice(config, stats, largest).0;
    hide Sum, Weights, WeightedChoice, Roomy;
    assert Sum(first) == ws[0];
    if pick.Some? {
      assert v == ws <==> forall i :: 1 <= i < n ==> v[i] == ws[i];
    } else {
      assert v == first <==> forall i :: 1 <= i < n ==> v[i] == first[i];
    }
  }

  // ---- least connections ------------------------------------------------------------------------

  /** A backend is returned only when healthy, and then none of the healthy ones has fewer
      connections. Nothing is returned exactly when the first backend is down and no healthy one has
      fewer connections than it. */
  lemma LeastIsMinimal(config: Config, stats: seq<Stat>)
    requires 0 < |config.weights| <= |stats|
    ensures match LeastChoice(config, stats)
            case Some(b) => b < |config.weights| && stats[b].healthy
                            && forall j :: 0 <= j < |config.weights| && stats[j].healthy ==>
                                 stats[b].connections <= stats[j].connections
            case None => !stats[0].healthy
                         && forall j :: 0 <= j < |config.weights| && stats[j].healthy ==>
                              stats[0].connections <= stats[j].connections
    ensures LeastChoice(config, stats) == None <==>
              !stats[0].healthy && forall j :: 0 <= j < |config.weights| && stats[j].healthy ==>
                stats[0].connections <= stats[j].connections
  {
    var b := Fewest(stats, |config.weights|);
    hide Fewest;
  }

  /** The counters after accepting one client per outcome, true for a connection that succeeded. */
  function Accepted(config: Config, stats: seq<Stat>, outcomes: seq<bool>): (r: seq<Stat>)
    requires 0 < |config.weights| <= |stats|
    ensures |r| == |stats|
    decreases |outcomes|
  {
    if outcomes == [] then stats
    else
      var before := Accepted(config, stats, outcomes[..|outcomes| - 1]);
      match LeastChoice(config, before)
      case None => before
      case Some(b) => Connected(before, b, outcomes[|outcomes| - 1])
  }

  /** The round-robin index after `k` calls. */
  function Turn(n: nat, k: nat): (i: nat)
    requires n > 0
    ensures i < n
  {
    if k == 0 then 0 else (Turn(n, k - 1) + 1) % n
  }

  /** k div n and k mod n. */
  function Quot(k: nat, n: nat): nat
    requires n > 0
  {
    k / n
  }

  function Rem(k: nat, n: nat): (r: nat)
    requires n > 0
    ensures r < n
  {
    k % n
  }

  lemma DivStep(k: nat, n: nat)
    requires n > 0
    ensures Rem(k, n) + 1 < n ==> Quot(k + 1, n) == Quot(k, n) && Rem(k + 1, n) == Rem(k, n) + 1
    ensures Rem(k, n) + 1 == n ==> Quot(k + 1, n) == Quot(k, n) + 1 && Rem(k + 1, n) == 0
    ensures Quot(k, n) <= k
  {
    var q, r := k / n, k % n;
    assert k == n * q + r;
    assert n * (q + 1) == n * q + n;
    DivUnique(k + 1, n, if r + 1 < n then q else q + 1, if r + 1 < n then r + 1 else 0);
  }

  lemma DivUnique(k: int, n: int, q: int, r: int)
    requires n > 0 && 0 <= r < n && k == n * q + r
    ensures k / n == q && k % n == r
  {
    var d := q - k / n;
    assert n * d == n * q - n * (k / n);
    MulOrder(n, d, -1);
    MulOrder(n, 1, d);
  }

  lemma {:induction false} TurnIsMod(n: nat, k: nat)
    requires n > 0
    ensures Turn(n, k) == Rem(k, n)
  {
    hide Quot, Rem;
    if k == 0 {
      NoneYet(n);
    } else {
      TurnIsMod(n, k - 1);
      DivStep(k - 1, n);
      NextTurn(Rem(k - 1, n), n);
    }
  }

  lemma NextTurn(r: nat, n: nat)
    requires r < n
    ensures (r + 1) % n == if r + 1 == n then 0 else r + 1
  {
    DivUnique(r + 1, n, if r + 1 == n then 1 else 0, if r + 1 == n then 0 else r + 1);
  }

  /** Round robin with every backend healthy picks its turn. */
  lemma RoundRobinPicks(config: Config, stats: seq<Stat>, k: nat)
    requires config.algorithm == RoundRobin && 0 < |config.weights| <= |stats|
    requires Healthy(stats, |config.weights|)
    ensures var n := |config.weights|;
            Choice(config, Turn(n, k), stats, false) == (Some(Rem(k, n)), Turn(n, k + 1), stats)
  {
    hide Rem;
    TurnIsMod(|config.weights|, k);
  }

  /** Round robin under any health: the backend whose turn it is, or none when it is down; the turn passes on
      in either case, and no counter changes. */
  lemma RoundRobinTurn(config: Config, index: nat, stats: seq<Stat>, largest: bool)
    requires config.algorithm == RoundRobin && index < |config.weights| <= |stats|
    ensures var (pick, next, after) := Choice(config, index, stats, largest);
            && (pick == Some(index) <==> stats[index].healthy) && (pick == None <==> !stats[index].healthy)
            && next == (if index == |config.weights| - 1 then 0 else index + 1) && after == stats
  {
    NextTurn(index, |config.weights|);
  }

  /** A connection attempt counts once for its backend, and once more as failed when it fails; nothing else
      changes. */
  lemma ConnectionCounts(stats: seq<Stat>, b: nat, ok: bool)
    requires b < |stats| && stats[b].connections < INT_MAX && stats[b].failedConnections < INT_MAX
    requires INT_MIN <= stats[b].connections && INT_MIN <= stats[b].failedConnections
    ensures var s := Connected(stats, b, ok);
            && |s| == |stats| && (forall i :: 0 <= i < |s| && i != b ==> s[i] == stats[i])
            && s[b].connections == stats[b].connections + 1
            && s[b].failedConnections == stats[b].failedConnections + (if ok then 0 else 1)
            && s[b].weight == stats[b].weight && s[b].healthy == stats[b].healthy
  {
    hide Wrap;
  }

  lemma FewestIs(stats: seq<Stat>, n: nat, m: nat)
    requires m < n <= |stats|
    requires forall j :: 0 <= j < n ==> stats[j].healthy && stats[m].connections <= stats[j].connections
    requires forall j :: 0 <= j < m ==> stats[m].connections < stats[j].connections
    ensures Fewest(stats, n) == m
  {
    hide Fewest;
    var b := Fewest(stats, n);
  }

  /** No counter is full before the last of n * INT_MAX clients. */
  lemma NotYetFull(k: int, n: nat)
    requires n > 0 && 0 < k <= n * INT_MAX
    ensures Quot(k - 1, n) + 1 <= INT_MAX
  {
    var q := (k - 1) / n;
    assert n * q <= k - 1;
    MulOrder(n, INT_MAX, q);
  }

  /** Least connections is round robin: from zero counters and with every backend healthy, the k-th
      client goes to backend k mod n whatever became of the earlier connections, and the counters
      never differ by more than one, until every counter is full. */
  lemma {:induction false} LeastIsRoundRobin(config: Config, stats: seq<Stat>, outcomes: seq<bool>)
    requires 0 < |config.weights| <= |stats| && Healthy(stats, |config.weights|)
    requires forall i :: 0 <= i < |config.weights| ==> stats[i].connections == 0
    requires |outcomes| <= |config.weights| * INT_MAX
    ensures var n, k, s := |config.weights|, |outcomes|, Accepted(config, stats, outcomes);
            && Healthy(s, n)
            && (forall i :: 0 <= i < n ==> s[i].connections == Quot(k, n) + if i < Rem(k, n) then 1 else 0)
            && LeastChoice(config, s) == Some(Rem(k, n))
    decreases |outcomes|
  {
    hide Wrap, Fewest, Quot, Rem;
    var n, k := |config.weights|, |outcomes|;
    if k > 0 {
      LeastIsRoundRobin(config, stats, outcomes[..k - 1]);
      DivStep(k - 1, n);
      NotYetFull(k, n);
    } else {
      NoneYet(n);
    }
    FewestIs(Accepted(config, stats, outcomes), n, Rem(k, n));
  }

  /** The next client is the turn's. */
  predicate TakesTurn(config: Config, s: seq<Stat>, k: nat)
    requires 0 < |config.weights| <= |s|
  {
    LeastChoice(config, s) == Some(Rem(k, |config.weights|))
  }

  /** The counters of the first `n` backends differ by at most one. */
  predicate Level(s: seq<Stat>, n: nat)
    requires n <= |s|
  {
    forall i, j :: 0 <= i < n && 0 <= j < n ==> s[i].connections - s[j].connections <= 1
  }

  lemma RoundIsLevel(config: Config, stats: seq<Stat>, outcomes: seq<bool>)
    requires 0 < |config.weights| <= |stats| && Healthy(stats, |config.weights|)
    requires forall i :: 0 <= i < |config.weights| ==> stats[i].connections == 0
    requires |outcomes| <= |config.weights| * INT_MAX
    ensures var s := Accepted(config, stats, outcomes);
            TakesTurn(config, s, |outcomes|) && Level(s, |config.weights|)
  {
    hide Quot, Rem, Fewest, Accepted, LeastChoice;
    LeastIsRoundRobin(config, stats, outcomes);
  }

  lemma AllFull(n: nat)
    requires n > 0
    ensures Quot(n * INT_MAX, n) == INT_MAX && Rem(n * INT_MAX, n) == 0
  {
    DivUnique(n * INT_MAX, n, INT_MAX, 0);
  }

  lemma ConnectedAt(stats: seq<Stat>, b: nat, ok: bool)
    requires b < |stats|
    ensures var s := Connected(stats, b, ok);
            && |s| == |stats| && (forall i :: 0 <= i < |s| && i != b ==> s[i] == stats[i])
            && s[b].connections == Wrap(stats[b].connections + 1) && s[b].healthy == stats[b].healthy
  {
    hide Wrap;
  }

  /** Client number n * INT_MAX + 1 wraps the counter of backend 0 around, which then looks emptiest and gets
      the next client too, for two backends or more. */
  lemma FullCounterWraps(config: Config, stats: seq<Stat>, outcomes: seq<bool>)
    requires 1 < |config.weights| <= |stats| && Healthy(stats, |config.weights|)
    requires forall i :: 0 <= i < |config.weights| ==> stats[i].connections == 0
    requires |outcomes| == |config.weights| * INT_MAX + 1
    ensures var s := Accepted(config, stats, outcomes);
            && s[0].connections == INT_MIN && s[1].connections == INT_MAX
            && LeastChoice(config, s) == Some(0)
            && !TakesTurn(config, s, |outcomes|) && !Level(s, |config.weights|)
  {
    hide Wrap, Fewest, Quot, Rem, Connected;
    var n, k := |config.weights|, |outcomes| - 1;
    var before := Accepted(config, stats, outcomes[..k]);
    LeastIsRoundRobin(config, stats, outcomes[..k]);
    AllFull(n);
    ConnectedAt(before, 0, outcomes[k]);
    assert Wrap(INT_MAX + 1) == INT_MIN by { WrapIs(INT_MAX + 1, INT_MIN, 1); }
    var s := Accepted(config, stats, outcomes);
    assert s == Connected(before, 0, outcomes[k]);
    FewestIs(s, n, 0);
    DivStep(k, n);
  }

  lemma OneTakesEveryTurn(config: Config, s: seq<Stat>, k: nat)
    requires |config.weights| == 1 <= |s| && s[0].healthy
    ensures TakesTurn(config, s, k) && Level(s, 1)
  {
    DivUnique(k, 1, k, 0);
  }

  lemma {:induction false} AcceptedStaysHealthy(config: Config, stats: seq<Stat>, outcomes: seq<bool>)
    requires 0 < |config.weights| <= |stats| && Healthy(stats, |config.weights|)
    ensures Healthy(Accepted(config, stats, outcomes), |config.weights|)
    decreases |outcomes|
  {
    hide Wrap, Fewest;
    if outcomes != [] {
      AcceptedStaysHealthy(config, stats, outcomes[..|outcomes| - 1]);
    }
  }

  /** How long this lasts, exactly: with one backend for ever, with more for n * INT_MAX clients. For no
      longer does every client go to the backend whose turn it is, and for no longer do the counters stay
      within one of each other. */
  lemma LeastIsRoundRobinIff(config: Config, stats: seq<Stat>, outcomes: seq<bool>)
    requires 0 < |config.weights| <= |stats| && Healthy(stats, |config.weights|)
    requires forall i :: 0 <= i < |config.weights| ==> stats[i].connections == 0
    ensures var n := |config.weights|;
            && ((forall k :: 0 <= k <= |outcomes| ==> TakesTurn(config, Accepted(config, stats, outcomes[..k]), k))
                <==> n == 1 || |outcomes| <= n * INT_MAX)
            && ((forall k :: 0 <= k <= |outcomes| ==> Level(Accepted(config, stats, outcomes[..k]), n))
                <==> n == 1 || |outcomes| <= n * INT_MAX)
  {
    hide TakesTurn, Level, Accepted;
    var n := |config.weights|;
    if n == 1 {
      forall k | 0 <= k <= |outcomes|
        ensures TakesTurn(config, Accepted(config, stats, outcomes[..k]), k)
        ensures Level(Accepted(config, stats, outcomes[..k]), n)
      {
        AcceptedStaysHealthy(config, stats, outcomes[..k]);
        OneTakesEveryTurn(config, Accepted(config, stats, outcomes[..k]), k);
      }
    } else if |outcomes| <= n * INT_MAX {
      forall k | 0 <= k <= |outcomes|
        ensures TakesTurn(config, Accepted(config, stats, outcomes[..k]), k)
        ensures Level(Accepted(config, stats, outcomes[..k]), n)
      {
        RoundIsLevel(config, stats, outcomes[..k]);
      }
    } else {
      var k := n * INT_MAX + 1;
      FullCounterWraps(config, stats, outcomes[..k]);
    }
  }

  lemma NoneYet(n: nat)
    requires n > 0
    ensures Quot(0, n) == 0 && Rem(0, n) == 0
  {
    DivUnique(0, n, 0, 0);
  }
}
