/** The weighted algorithm run by several worker processes on the same shared counters, every
    operation on an atomic being one step, and every backend healthy. */
module Concurrent {
  import opened Numbers
  import opened Sums
  import opened Balancer

  /** Where a worker stands in get_next_backend. */
  datatype Pc =
    | Idle                        // not in a call
    | Loop(i: nat, sel: nat)      // at the loop head; backend `sel` is the choice so far
    | Compare(i: nat, sel: nat)   // has credited backend `i`, is about to compare it with `sel`
    | Pay(sel: nat)               // about to charge the chosen backend

  datatype State = State(weights: seq<int>, pcs: seq<Pc>)

  predicate PcFits(pc: Pc, n: nat) {
    match pc
    case Idle => true
    case Loop(i, sel) => 1 <= i <= n && sel < n
    case Compare(i, sel) => 1 <= i < n && sel < n
    case Pay(sel) => sel < n
  }

  predicate Fits(ws: seq<int>, s: State) {
    ws != [] && |s.weights| == |ws| && forall w :: 0 <= w < |s.pcs| ==> PcFits(s.pcs[w], |ws|)
  }

  predicate Start(ws: seq<int>, s: State) {
    && ws != [] && |s.weights| == |ws| && (forall i :: 0 <= i < |ws| ==> s.weights[i] == 0)
    && forall w :: 0 <= w < |s.pcs| ==> s.pcs[w] == Idle
  }

  /** An atomic addition to counter `i` by worker `w`, which then stands at `pc`. */
  function Bump(s: State, w: nat, i: nat, x: int, pc: Pc): State
    requires w < |s.pcs| && i < |s.weights|
  {
    State(s.weights[i := Wrap(s.weights[i] + x)], s.pcs[w := pc])
  }

  /** One step of worker `w`. The comparison loads two counters one after the other while others
      change them, so either outcome is possible. */
  ghost predicate Moves(ws: seq<int>, s: State, s': State, w: nat)
    requires Fits(ws, s) && w < |s.pcs|
  {
    match s.pcs[w]
    case Idle => s' == Bump(s, w, 0, ws[0], Loop(1, 0))
    case Loop(i, sel) =>
      if i < |ws| then s' == Bump(s, w, i, ws[i], Compare(i, sel))
      else s' == s.(pcs := s.pcs[w := Pay(sel)])
    case Compare(i, sel) =>
      s' == s.(pcs := s.pcs[w := Loop(i + 1, sel)]) || s' == s.(pcs := s.pcs[w := Loop(i + 1, i)])
    case Pay(sel) => s' == Bump(s, w, sel, -Sum(ws), Idle)
  }

  ghost predicate Step(ws: seq<int>, s: State, s': State) {
    Fits(ws, s) && exists w :: 0 <= w < |s.pcs| && Moves(ws, s, s', w)
  }

  /** The weight a worker's unfinished call has credited so far. */
  function InFlight(ws: seq<int>, pc: Pc): int
    requires PcFits(pc, |ws|)
  {
    match pc
    case Idle => 0
    case Loop(i, sel) => Sum(ws[..i])
    case Compare(i, sel) => Sum(ws[..i + 1])
    case Pay(sel) => Sum(ws)
  }

  function Outstanding(ws: seq<int>, s: State): int
    requires Fits(ws, s)
  {
    Sum(seq(|s.pcs|, w requires 0 <= w < |s.pcs| => InFlight(ws, s.pcs[w])))
  }

  /** How far the counters are from the weight credited by calls in flight. */
  function Drift(ws: seq<int>, s: State): int
    requires Fits(ws, s)
  {
    Sum(s.weights) - Outstanding(ws, s)
  }

  /** Equal up to wrap-around. */
  predicate Congruent(a: int, b: int) { (a - b) % WORD == 0 }

  ghost predicate Balanced(ws: seq<int>, s: State) {
    Fits(ws, s) && Congruent(Drift(ws, s), 0)
  }

  /** The counter that worker `w` adds to next, if any, stays an int. */
  predicate Room(ws: seq<int>, s: State, w: nat)
    requires Fits(ws, s) && w < |s.pcs|
  {
    match s.pcs[w]
    case Idle => INT_MIN <= s.weights[0] + ws[0] <= INT_MAX
    case Loop(i, sel) => i < |ws| ==> INT_MIN <= s.weights[i] + ws[i] <= INT_MAX
    case Compare(i, sel) => true
    case Pay(sel) => INT_MIN <= s.weights[sel] - Sum(ws) <= INT_MAX
  }

  /** A step in which no counter wraps around. */
  ghost predicate ExactStep(ws: seq<int>, s: State, s': State) {
    Fits(ws, s) && exists w :: 0 <= w < |s.pcs| && Moves(ws, s, s', w) && Room(ws, s, w)
  }

  lemma WrapCongruent(x: int)
    ensures Congruent(Wrap(x) - x, 0)
  {
    var y := x - INT_MIN;
    assert y - y % WORD == WORD * (y / WORD);
    assert Wrap(x) - x == -(WORD * (y / WORD));
  }

  lemma CongruentAdd(a: int, b: int)
    requires Congruent(a, 0) && Congruent(b, 0)
    ensures Congruent(a + b, 0)
  {
    assert a + b == WORD * (a / WORD + b / WORD);
  }

  lemma PrefixSum(ws: seq<int>, i: nat)
    requires i < |ws|
    ensures Sum(ws[..i + 1]) == Sum(ws[..i]) + ws[i]
  {
    assert ws[..i + 1][..i] == ws[..i];
  }

  lemma OutstandingUpdate(ws: seq<int>, s: State, w: nat, pc: Pc, weights: seq<int>)
    requires Fits(ws, s) && w < |s.pcs| && PcFits(pc, |ws|) && |weights| == |ws|
    ensures var t := State(weights, s.pcs[w := pc]);
            Fits(ws, t) && Outstanding(ws, t) == Outstanding(ws, s) - InFlight(ws, s.pcs[w]) + InFlight(ws, pc)
  {
    hide InFlight, Sum, PcFits;
    var t := State(weights, s.pcs[w := pc]);
    var v := seq(|s.pcs|, k requires 0 <= k < |s.pcs| => InFlight(ws, s.pcs[k]));
    SumUpdate(v, w, InFlight(ws, pc));
    assert v[w := InFlight(ws, pc)] == seq(|t.pcs|, k requires 0 <= k < |t.pcs| => InFlight(ws, t.pcs[k]));
  }

  /** An addition of `x` that raises the worker's outstanding credit by `x` drifts by what wraps around. */
  lemma BumpDrift(ws: seq<int>, s: State, w: nat, i: nat, x: int, pc: Pc)
    requires Fits(ws, s) && w < |s.pcs| && i < |ws| && PcFits(pc, |ws|)
    requires InFlight(ws, pc) == InFlight(ws, s.pcs[w]) + x
    ensures var sum, t := s.weights[i] + x, Bump(s, w, i, x, pc);
            && Fits(ws, t) && Drift(ws, t) == Drift(ws, s) + (Wrap(sum) - sum)
            && Congruent(Wrap(sum) - sum, 0)
            && (INT_MIN <= sum <= INT_MAX <==> Wrap(sum) == sum)
  {
    var sum := s.weights[i] + x;
    SumUpdate(s.weights, i, Wrap(sum));
    OutstandingUpdate(ws, s, w, pc, s.weights[i := Wrap(sum)]);
    WrapCongruent(sum);
    hide Sum, Wrap, InFlight, Congruent, Outstanding;
  }

  /** A step that touches no counter and credits nothing. */
  lemma MoveDrift(ws: seq<int>, s: State, w: nat, pc: Pc)
    requires Fits(ws, s) && w < |s.pcs| && PcFits(pc, |ws|)
    requires InFlight(ws, pc) == InFlight(ws, s.pcs[w])
    ensures var t := s.(pcs := s.pcs[w := pc]); Fits(ws, t) && Drift(ws, t) == Drift(ws, s)
  {
    OutstandingUpdate(ws, s, w, pc, s.weights);
  }

  /** What one worker's step drifts by: a multiple of 2^32, and nothing exactly when no counter wraps
      around. */
  lemma WorkerDrift(ws: seq<int>, s: State, s': State, w: nat)
    requires Fits(ws, s) && w < |s.pcs| && Moves(ws, s, s', w)
    ensures Fits(ws, s') && Congruent(Drift(ws, s') - Drift(ws, s), 0)
    ensures Room(ws, s, w) <==> Drift(ws, s') == Drift(ws, s)
  {
    assert ws[..|ws|] == ws && ws[..0] == [];
    assert Congruent(0, 0);
    hide Fits, Drift, Wrap, Outstanding, Congruent;
    assert Fits(ws, s) && |s.weights| == |ws| > 0 && PcFits(s.pcs[w], |ws|) by { FitsAt(ws, s, w); }
    match s.pcs[w] {
      case Idle =>
        PrefixSum(ws, 0);
        BumpDrift(ws, s, w, 0, ws[0], Loop(1, 0));
      case Loop(i, sel) =>
        if i < |ws| {
          PrefixSum(ws, i);
          BumpDrift(ws, s, w, i, ws[i], Compare(i, sel));
        } else {
          MoveDrift(ws, s, w, Pay(sel));
        }
      case Compare(i, sel) =>
        MoveDrift(ws, s, w, Loop(i + 1, sel));
        MoveDrift(ws, s, w, Loop(i + 1, i));
      case Pay(sel) =>
        BumpDrift(ws, s, w, sel, -Sum(ws), Idle);
    }
  }

  lemma FitsAt(ws: seq<int>, s: State, w: nat)
    requires Fits(ws, s) && w < |s.pcs|
    ensures |s.weights| == |ws| > 0 && PcFits(s.pcs[w], |ws|)
  {
  }

  lemma StepKeeps(ws: seq<int>, s: State, s': State)
    requires Balanced(ws, s) && Step(ws, s, s')
    ensures Balanced(ws, s')
  {
    var w :| 0 <= w < |s.pcs| && Moves(ws, s, s', w);
    hide Drift, Congruent, Moves;
    WorkerDrift(ws, s, s', w);
    CongruentAdd(Drift(ws, s), Drift(ws, s') - Drift(ws, s));
  }

  /** A step keeps the exact ledger exactly when no counter wraps around in it. */
  lemma ExactStepIff(ws: seq<int>, s: State, s': State)
    requires Step(ws, s, s')
    ensures Fits(ws, s') && (Drift(ws, s') == Drift(ws, s) <==> ExactStep(ws, s, s'))
  {
    hide Drift, Congruent, Moves, Room;
    var w :| 0 <= w < |s.pcs| && Moves(ws, s, s', w);
    WorkerDrift(ws, s, s', w);
    if ExactStep(ws, s, s') {
      var v :| 0 <= v < |s.pcs| && Moves(ws, s, s', v) && Room(ws, s, v);
      WorkerDrift(ws, s, s', v);
    }
  }

  // ---- whole runs -------------------------------------------------------------------------------

  ghost predicate IsRun(ws: seq<int>, run: seq<State>) {
    run != [] && Start(ws, run[0]) && forall k :: 0 <= k < |run| - 1 ==> Step(ws, run[k], run[k + 1])
  }

  /** A run in which no counter ever wraps around. */
  ghost predicate IsExactRun(ws: seq<int>, run: seq<State>) {
    run != [] && Start(ws, run[0]) && forall k :: 0 <= k < |run| - 1 ==> ExactStep(ws, run[k], run[k + 1])
  }

  /** No call is in flight. */
  predicate Quiet(s: State) {
    forall w :: 0 <= w < |s.pcs| ==> s.pcs[w] == Idle
  }

  lemma {:induction false} ZeroVectorSum(v: seq<int>)
    requires forall i :: 0 <= i < |v| ==> v[i] == 0
    ensures Sum(v) == 0
  {
    if v != [] { ZeroVectorSum(v[..|v| - 1]); }
  }

  lemma QuietOwesNothing(ws: seq<int>, s: State)
    requires Fits(ws, s) && Quiet(s)
    ensures Outstanding(ws, s) == 0
  {
    ZeroVectorSum(seq(|s.pcs|, w requires 0 <= w < |s.pcs| => InFlight(ws, s.pcs[w])));
  }

  lemma StartsBalanced(ws: seq<int>, s: State)
    requires Start(ws, s)
    ensures Fits(ws, s) && Drift(ws, s) == 0
  {
    ZeroVectorSum(s.weights);
    QuietOwesNothing(ws, s);
  }

  /** The concurrent weight ledger under every interleaving of any number of workers: the sum of all
      current weights is, modulo 2^32, the weight that calls still in flight have credited; with no call
      in flight it is a multiple of 2^32. */
  lemma {:induction false} WeightLedger(ws: seq<int>, run: seq<State>, k: nat)
    requires IsRun(ws, run) && k < |run|
    ensures Fits(ws, run[k]) && Congruent(Sum(run[k].weights), Outstanding(ws, run[k]))
    ensures Quiet(run[k]) ==> Congruent(Sum(run[k].weights), 0)
  {
    if k == 0 {
      StartsBalanced(ws, run[0]);
    } else {
      WeightLedger(ws, run, k - 1);
      assert Step(ws, run[k - 1], run[k - 1 + 1]);
      hide Sum, Outstanding, Step;
      StepKeeps(ws, run[k - 1], run[k]);
    }
    if Quiet(run[k]) {
      QuietOwesNothing(ws, run[k]);
    }
  }

  /** The exact ledger: the sum of all current weights is the weight that calls still in flight have
      credited, and with no call in flight it is 0, as long as no addition leaves the range of an int. */
  lemma {:induction false} ExactLedger(ws: seq<int>, run: seq<State>, k: nat)
    requires IsExactRun(ws, run) && k < |run|
    ensures Fits(ws, run[k]) && Sum(run[k].weights) == Outstanding(ws, run[k])
    ensures Quiet(run[k]) ==> Sum(run[k].weights) == 0
  {
    if k == 0 {
      StartsBalanced(ws, run[0]);
    } else {
      ExactLedger(ws, run, k - 1);
      assert ExactStep(ws, run[k - 1], run[k - 1 + 1]);
      hide Sum, Outstanding;
      ExactIsStep(ws, run[k - 1], run[k]);
      ExactStepIff(ws, run[k - 1], run[k]);
    }
    if Quiet(run[k]) {
      QuietOwesNothing(ws, run[k]);
    }
  }

  lemma ExactIsStep(ws: seq<int>, s: State, s': State)
    requires ExactStep(ws, s, s')
    ensures Step(ws, s, s')
  {
    hide Moves, Room;
  }

  /** The ledger is balanced at every moment of the run. */
  ghost predicate AlwaysExact(ws: seq<int>, run: seq<State>) {
    forall k :: 0 <= k < |run| ==> Fits(ws, run[k]) && Sum(run[k].weights) == Outstanding(ws, run[k])
  }

  /** It is so exactly when no counter ever wraps around. */
  lemma ExactLedgerIff(ws: seq<int>, run: seq<State>)
    requires IsRun(ws, run)
    ensures AlwaysExact(ws, run) <==> IsExactRun(ws, run)
  {
    hide Sum, Outstanding, Step, ExactStep, Start;
    if IsExactRun(ws, run) {
      forall k | 0 <= k < |run| ensures Fits(ws, run[k]) && Sum(run[k].weights) == Outstanding(ws, run[k]) {
        ExactLedger(ws, run, k);
      }
    }
    if AlwaysExact(ws, run) {
      forall k | 0 <= k < |run| - 1 ensures ExactStep(ws, run[k], run[k + 1]) {
        assert Step(ws, run[k], run[k + 1]);
        ExactStepIff(ws, run[k], run[k + 1]);
      }
    }
  }

  // ---- a run that wraps around --------------------------------------------------------------------

  const TWO_WEIGHTS: seq<int> := [0x3FFF_FFFF, 0x4000_0000]

  /** One worker's first call, and its second up to the credit of backend 1. Each comparison of the written
      code leaves the choice at backend 0: 2^30 is not below 2^30 - 1. */
  function WrappingRun(): seq<State> {
    var a, b := 0x3FFF_FFFF, 0x4000_0000;
    [State([0, 0], [Idle]), State([a, 0], [Loop(1, 0)]), State([a, b], [Compare(1, 0)]),
     State([a, b], [Loop(2, 0)]), State([a, b], [Pay(0)]), State([-b, b], [Idle]),
     State([-1, b], [Loop(1, 0)]), State([-1, INT_MIN], [Compare(1, 0)])]
  }

  lemma TwoSums()
    ensures Sum(TWO_WEIGHTS) == INT_MAX
    ensures Sum([-1, INT_MIN]) == INT_MIN - 1
  {
    var ws, v := TWO_WEIGHTS, [-1, INT_MIN];
    assert ws[..1] == [ws[0]] && v[..1] == [v[0]] && ws[..1][..0] == [] && v[..1][..0] == [];
  }

  lemma LastOutstanding()
    ensures Fits(TWO_WEIGHTS, WrappingRun()[7]) && Outstanding(TWO_WEIGHTS, WrappingRun()[7]) == INT_MAX
  {
    var ws, s := TWO_WEIGHTS, WrappingRun()[7];
    TwoSums();
    assert ws[..2] == ws;
    hide Sum;
    assert InFlight(ws, s.pcs[0]) == INT_MAX;
    var v := seq(|s.pcs|, w requires 0 <= w < |s.pcs| => InFlight(ws, s.pcs[w]));
    assert v == [INT_MAX];
    OneSum(INT_MAX);
  }

  lemma OneSum(x: int)
    ensures Sum([x]) == x
  {
    assert [x][..0] == [];
  }

  lemma WrappingSteps(k: nat)
    requires k < 7
    ensures Step(TWO_WEIGHTS, WrappingRun()[k], WrappingRun()[k + 1])
  {
    TwoSums();
    hide Sum;
    var s, t := WrappingRun()[k], WrappingRun()[k + 1];
    assert Fits(TWO_WEIGHTS, s);
    assert Moves(TWO_WEIGHTS, s, t, 0);
  }

  /** The input for which the exact ledger fails: two backends of weights 2^30 - 1 and 2^30, whose total
      fits an int, and one worker. While the second client is being placed the counter of backend 1
      wraps around, and the counters are off by 2^32. */
  lemma LedgerOffByWord()
    ensures IsRun(TWO_WEIGHTS, WrappingRun()) && !AlwaysExact(TWO_WEIGHTS, WrappingRun())
    ensures Sum(WrappingRun()[7].weights) == Outstanding(TWO_WEIGHTS, WrappingRun()[7]) - WORD
  {
    forall k | 0 <= k < |WrappingRun()| - 1 ensures Step(TWO_WEIGHTS, WrappingRun()[k], WrappingRun()[k + 1]) {
      WrappingSteps(k);
    }
    LastOutstanding();
    TwoSums();
    hide Sum, Outstanding, Step;
  }

  // ---- short runs -----------------------------------------------------------------------------------

  /** Every current weight is between these bounds. */
  predicate Within(s: State, bound: int) {
    forall i :: 0 <= i < |s.weights| ==> -bound <= s.weights[i] <= bound
  }

  /** One step moves a counter by at most the total weight. */
  lemma SmallStep(ws: seq<int>, s: State, s': State, bound: int)
    requires Step(ws, s, s') && Within(s, bound) && bound + Sum(ws) <= INT_MAX
    requires forall i :: 0 <= i < |ws| ==> 0 <= ws[i]
    ensures ExactStep(ws, s, s') && Within(s', bound + Sum(ws))
  {
    forall i | 0 <= i < |ws| ensures ws[i] <= Sum(ws) { ComponentBound(ws, i, 0); }
    SumAtLeast(ws, 0);
    hide Sum;
    var w :| 0 <= w < |s.pcs| && Moves(ws, s, s', w);
    FitsAt(ws, s, w);
    assert Room(ws, s, w);
  }

  lemma {:induction false} SmallWeights(ws: seq<int>, run: seq<State>, k: nat)
    requires IsRun(ws, run) && k < |run| && |run| * Sum(ws) <= INT_MAX
    requires forall i :: 0 <= i < |ws| ==> 0 <= ws[i]
    ensures Within(run[k], k * Sum(ws)) && (k + 1 < |run| ==> ExactStep(ws, run[k], run[k + 1]))
  {
    SumAtLeast(ws, 0);
    hide Sum, Step, ExactStep;
    if k > 0 {
      SmallWeights(ws, run, k - 1);
      assert Step(ws, run[k - 1], run[k - 1 + 1]);
      ShorterRun(k, |run|, Sum(ws));
      SmallStep(ws, run[k - 1], run[k], (k - 1) * Sum(ws));
    }
    if k + 1 < |run| {
      assert Step(ws, run[k], run[k + 1]);
      ShorterRun(k + 1, |run|, Sum(ws));
      SmallStep(ws, run[k], run[k + 1], k * Sum(ws));
    }
  }

  lemma ShorterRun(k: int, n: int, w: int)
    requires 0 < k < n && 0 <= w
    ensures (k - 1) * w + w == k * w <= n * w
  {
    assert n * w - k * w == (n - k) * w;
  }

  /** A run whose length times the total weight fits an int is exact, whatever the interleaving. */
  lemma ShortRunIsExact(ws: seq<int>, run: seq<State>)
    requires IsRun(ws, run) && |run| * Sum(ws) <= INT_MAX
    requires forall i :: 0 <= i < |ws| ==> 0 <= ws[i]
    ensures IsExactRun(ws, run)
  {
    hide Step, ExactStep, Start, Sum;
    forall k | 0 <= k < |run| - 1 ensures ExactStep(ws, run[k], run[k + 1]) {
      SmallWeights(ws, run, k);
    }
  }
}
