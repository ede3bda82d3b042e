/** Choosing a backend (get_next_backend, new_backend_fd) on the counters of one listener. */
module Balancer {
  import opened Text
  import opened Numbers

  datatype Algorithm = RoundRobin | WeightedRoundRobin | LeastConnections

  /** The backends by their weights; their addresses play no part in the choice. */
  datatype Config = Config(algorithm: Algorithm, weights: seq<int>, totalWeight: int)

  /** BackendStat. */
  datatype Stat = Stat(connections: int, failedConnections: int, weight: int, healthy: bool)

  const WORD: int := 0x1_0000_0000

  /** What an atomic int holds after an addition. */
  function Wrap(x: int): (r: int)
    ensures INT_MIN <= r <= INT_MAX
    ensures INT_MIN <= x <= INT_MAX ==> r == x
  {
    (x - INT_MIN) % WORD + INT_MIN
  }

  lemma WrapIs(x: int, y: int, u: int)
    requires x == y + WORD * u && INT_MIN <= y <= INT_MAX
    ensures Wrap(x) == y
  {
  }

  lemma WrapShift(x: int) returns (u: int)
    ensures x == Wrap(x) + WORD * u
  {
    u := (x - INT_MIN) / WORD;
  }

  /** Wrapping around on the way changes nothing. */
  lemma WrapAdd(x: int, y: int)
    ensures Wrap(Wrap(x) + y) == Wrap(x + y)
  {
    var u := WrapShift(x);
    var v := WrapShift(x + y);
    hide Wrap;
    WrapIs(Wrap(x) + y, Wrap(x + y), v - u);
  }

  /** As written the smallest current weight wins; smooth weighted round robin needs the largest. */
  predicate Better(a: int, b: int, largest: bool) {
    if largest then a > b else a < b
  }

  // ---- one choice, on values ----------------------------------------------------------------

  /** Adds the configured weights to the backends the loop visits: the first one always, the others
      when healthy. */
  function Credit(weights: seq<int>, stats: seq<Stat>, n: nat): (r: seq<Stat>)
    requires n <= |weights| <= |stats|
    ensures |r| == |stats|
  {
    seq(|stats|, i requires 0 <= i < |stats| =>
      if i < n && (i == 0 || stats[i].healthy) then stats[i].(weight := Wrap(stats[i].weight + weights[i]))
      else stats[i])
  }

  /** The backend the weighted loop ends with, among the first `n`. */
  function BestWeight(stats: seq<Stat>, n: nat, largest: bool): (b: nat)
    requires 0 < n <= |stats|
    ensures b < n && (b == 0 || stats[b].healthy)
    ensures forall j :: 0 <= j < n && (j == 0 || stats[j].healthy) ==>
              !Better(stats[j].weight, stats[b].weight, largest)
    ensures forall j :: 0 <= j < b && (j == 0 || stats[j].healthy) ==> Better(stats[b].weight, stats[j].weight, largest)
  {
    if n == 1 then 0
    else
      var b := BestWeight(stats, n - 1, largest);
      if stats[n - 1].healthy && Better(stats[n - 1].weight, stats[b].weight, largest) then n - 1 else b
  }

  /** The backend the least-connections loop ends with, among the first `n`. */
  function Fewest(stats: seq<Stat>, n: nat): (b: nat)
    requires 0 < n <= |stats|
    ensures b < n && (b == 0 || stats[b].healthy)
    ensures forall j :: 0 <= j < n && (j == 0 || stats[j].healthy) ==> stats[b].connections <= stats[j].connections
    ensures forall j :: 0 <= j < b && (j == 0 || stats[j].healthy) ==> stats[b].connections < stats[j].connections
  {
    if n == 1 then 0
    else
      var b := Fewest(stats, n - 1);
      if stats[n - 1].healthy && stats[n - 1].connections < stats[b].connections then n - 1 else b
  }

  /** The weighted choice and the counters it leaves. */
  function WeightedChoice(config: Config, stats: seq<Stat>, largest: bool): (Option<nat>, seq<Stat>)
    requires 0 < |config.weights| <= |stats|
  {
    var n := |config.weights|;
    var credited := Credit(config.weights, stats, n);
    var b := BestWeight(credited, n, largest);
    if credited[b].healthy
    then (Some(b), credited[b := credited[b].(weight := Wrap(credited[b].weight - config.totalWeight))])
    else (None, credited[b := credited[b].(weight := Wrap(credited[b].weight - config.weights[b]))])
  }

  function LeastChoice(config: Config, stats: seq<Stat>): Option<nat>
    requires 0 < |config.weights| <= |stats|
  {
    var b := Fewest(stats, |config.weights|);
    if stats[b].healthy then Some(b) else None
  }

  /** The chosen backend, the next index and the counters left, for each algorithm. */
  function Choice(config: Config, index: nat, stats: seq<Stat>, largest: bool): (Option<nat>, nat, seq<Stat>)
    requires 0 < |config.weights| <= |stats| && index < |config.weights|
  {
    match config.algorithm
    case RoundRobin =>
      (if stats[index].healthy then Some(index) else None, (index + 1) % |config.weights|, stats)
    case WeightedRoundRobin =>
      var (pick, after) := WeightedChoice(config, stats, largest);
      (pick, index, after)
    case LeastConnections => (LeastChoice(config, stats), index, stats)
  }

  /** The counters after a connection attempt to backend `b`: the attempt counts even when it fails. */
  function Connected(stats: seq<Stat>, b: nat, ok: bool): seq<Stat>
    requires b < |stats|
  {
    var s := stats[b];
    stats[b := s.(connections := Wrap(s.connections + 1),
                  failedConnections := if ok then s.failedConnections else Wrap(s.failedConnections + 1))]
  }

  // ---- the shared counters ------------------------------------------------------------------

  /** ShmLoadBalancer, used by one worker. */
  class ShmLoadBalancer {
    var currentIndex: nat
    var stats: seq<Stat>

    /** What init_mmap and the configuration owe the algorithms. */
    ghost predicate Fits(config: Config)
      reads this
    {
      0 < |config.weights| <= |stats| && currentIndex < |config.weights|
    }

    constructor (slots: nat)
      ensures currentIndex == 0 && stats == seq(slots, _ => Stat(0, 0, 0, true))
    {
      currentIndex := 0;
      stats := seq(slots, _ => Stat(0, 0, 0, true));
    }

    /** get_next_backend. */
    method GetNextBackend(config: Config, largest: bool) returns (pick: Option<nat>)
      requires Fits(config)
      modifies this
      ensures Fits(config)
      ensures (pick, currentIndex, stats) == Choice(config, old(currentIndex), old(stats), largest)
    {
      match config.algorithm {
        case RoundRobin =>
          var i := currentIndex;
          currentIndex := (currentIndex + 1) % |config.weights|;
          pick := if stats[i].healthy then Some(i) else None;
        case WeightedRoundRobin =>
          pick := PickByWeight(config, largest);
        case LeastConnections =>
          pick := PickFewest(config);
      }
    }

    /** The weighted branch. */
    method PickByWeight(config: Config, largest: bool) returns (pick: Option<nat>)
      requires 0 < |config.weights| <= |stats|
      modifies this`stats
      ensures (pick, stats) == WeightedChoice(config, old(stats), largest)
    {
      hide *;
      ghost var was := stats;
      var b := 0;
      CreditStep(config.weights, was, 0);
      stats := stats[0 := stats[0].(weight := Wrap(stats[0].weight + config.weights[0]))];
      BestWeightStep(stats, 1, largest);
      for i := 1 to |config.weights|
        invariant stats == Credit(config.weights, was, i)
        invariant b < i && b == BestWeight(stats, i, largest)
      {
        ghost var before := stats;
        CreditStep(config.weights, was, i);
        if !stats[i].healthy {
          BestWeightStep(stats, i + 1, largest);
          continue;
        }
        stats := stats[i := stats[i].(weight := Wrap(stats[i].weight + config.weights[i]))];
        assert stats[..i] == before[..i];
        BestWeightPrefix(before, stats, i, largest);
        BestWeightStep(stats, i + 1, largest);
        if Better(stats[i].weight, stats[b].weight, largest) {
          b := i;
        }
      }
      ChoiceIs(config, was, largest);
      if stats[b].healthy {
        stats := stats[b := stats[b].(weight := Wrap(stats[b].weight - config.totalWeight))];
        return Some(b);
      } else {
        stats := stats[b := stats[b].(weight := Wrap(stats[b].weight - config.weights[b]))];
        return None;
      }
    }

    /** The least-connections branch. */
    method PickFewest(config: Config) returns (pick: Option<nat>)
      requires Fits(config)
      ensures pick == LeastChoice(config, stats)
    {
      var b := 0;
      for i := 1 to |config.weights|
        invariant b < i && b == Fewest(stats, i)
      {
        if !stats[i].healthy {
          continue;
        }
        if stats[i].connections < stats[b].connections {
          b := i;
        }
      }
      return if stats[b].healthy then Some(b) else None;
    }

    /** new_backend_fd: whether the connection succeeds is up to the network. */
    method NewBackend(config: Config, largest: bool) returns (pick: Option<nat>, connected: bool)
      requires Fits(config)
      modifies this
      ensures Fits(config)
      ensures var (choice, index, after) := Choice(config, old(currentIndex), old(stats), largest);
              && pick == choice && currentIndex == index
              && (pick == None ==> !connected && stats == after)
              && (pick.Some? ==> pick.value < |after| && stats == Connected(after, pick.value, connected))
    {
      pick := GetNextBackend(config, largest);
      if pick == None {
        return pick, false;
      }
      connected := *;
      var b := pick.value;
      if !connected {
        stats := stats[b := stats[b].(failedConnections := Wrap(stats[b].failedConnections + 1))];
      }
      stats := stats[b := stats[b].(connections := Wrap(stats[b].connections + 1))];
    }
  }

  lemma BestWeightStep(stats: seq<Stat>, n: nat, largest: bool)
    requires 0 < n <= |stats|
    ensures BestWeight(stats, n, largest)
            == if n == 1 then 0
               else var b := BestWeight(stats, n - 1, largest);
                    if stats[n - 1].healthy && Better(stats[n - 1].weight, stats[b].weight, largest) then n - 1 else b
  {
    hide Better;
  }

  lemma ChoiceIs(config: Config, stats: seq<Stat>, largest: bool)
    requires 0 < |config.weights| <= |stats|
    ensures var n := |config.weights|;
            var c := Credit(config.weights, stats, n);
            var b := BestWeight(c, n, largest);
            WeightedChoice(config, stats, largest)
              == if c[b].healthy
                 then (Some(b), c[b := c[b].(weight := Wrap(c[b].weight - config.totalWeight))])
                 else (None, c[b := c[b].(weight := Wrap(c[b].weight - config.weights[b]))])
  {
    hide Wrap, Credit, BestWeight;
  }

  /** One more backend visited. */
  lemma CreditStep(weights: seq<int>, stats: seq<Stat>, i: nat)
    requires i < |weights| <= |stats|
    ensures var c := Credit(weights, stats, i);
            && c[i] == stats[i]
            && Credit(weights, stats, i + 1)
               == (if i == 0 || c[i].healthy then c[i := c[i].(weight := Wrap(c[i].weight + weights[i]))] else c)
    ensures Credit(weights, stats, 0) == stats
  {
    hide Wrap;
  }

  /** The best of a prefix does not depend on what comes behind it. */
  lemma {:induction false} BestWeightPrefix(a: seq<Stat>, b: seq<Stat>, n: nat, largest: bool)
    requires 0 < n <= |a| == |b| && a[..n] == b[..n]
    ensures BestWeight(a, n, largest) == BestWeight(b, n, largest)
  {
    BestWeightStep(a, n, largest);
    BestWeightStep(b, n, largest);
    forall i | 0 <= i < n ensures a[i] == b[i] { assert a[..n][i] == b[..n][i]; }
    hide *;
    if n > 1 {
      assert a[..n - 1] == b[..n - 1];
      BestWeightPrefix(a, b, n - 1, largest);
    }
  }
}
