/** The weights and the total weight of a listener (the backend loop of load_config). */
module ConfigLoader {
  import opened Text
  import opened Numbers
  import opened Sums
  import opened Balancer
  import opened Fairness

  /** The weight taken from one item of the configuration file, None when it gives none. The 64-bit number
      of the file is narrowed to an int. */
  function LoadedWeight(item: Option<int>, weighted: bool): int {
    var w := match item case None => 0 case Some(x) => Wrap(x);
    if weighted && w == 0 then 1 else w
  }

  /** The item the loop reads for backend `j`. As written it is indexed with the number of the listener. */
  function Index(listener: nat, j: nat, repaired: bool): nat {
    if repaired then j else listener
  }

  /** The backend loop; None when it reads beyond the list, where inet_pton is given no text. */
  method LoadBackends(items: seq<Option<int>>, listener: nat, weighted: bool, repaired: bool)
    returns (loaded: Option<(seq<int>, int)>)
    ensures loaded == None <==> !repaired && items != [] && listener >= |items|
    ensures loaded.Some? ==>
              var (weights, total) := loaded.value;
              && |weights| == |items|
              && (forall j :: 0 <= j < |items| ==>
                    && Index(listener, j, repaired) < |items|
                    && weights[j] == LoadedWeight(items[Index(listener, j, repaired)], weighted))
              && total == if weighted then Wrap(Sum(weights)) else 0
  {
    hide Wrap, Sum;
    Nothing();
    var weights: seq<int>, total := [], 0;
    for j := 0 to |items|
      invariant |weights| == j
      invariant j > 0 ==> repaired || listener < |items|
      invariant forall k :: 0 <= k < j ==>
                  && Index(listener, k, repaired) < |items|
                  && weights[k] == LoadedWeight(items[Index(listener, k, repaired)], weighted)
      invariant total == if weighted then Wrap(Sum(weights)) else 0
    {
      var i := if repaired then j else listener;
      if i >= |items| {
        return None;
      }
      var weight := match items[i] case None => 0 case Some(x) => Wrap(x);
      if weighted {
        if weight == 0 { weight := 1; }
        WrapAdd(Sum(weights), weight);
        total := Wrap(total + weight);
      }
      SumSnoc(weights, weight);
      weights := weights + [weight];
    }
    return Some((weights, total));
  }

  /** A weight that is given is loaded as it is, when it is an int and not 0; the weighted algorithm puts 1 for
      a missing weight and for 0, the others 0. */
  lemma GivenWeightIsLoaded(k: int, weighted: bool)
    requires INT_MIN <= k <= INT_MAX
    ensures k != 0 ==> LoadedWeight(Some(k), weighted) == k
    ensures LoadedWeight(Some(0), weighted) == LoadedWeight(None, weighted) == if weighted then 1 else 0
    ensures LoadedWeight(Some(k + WORD), weighted) == LoadedWeight(Some(k), weighted)
  {
    WrapIs(k + WORD, k, 1);
    hide Wrap;
  }

  lemma Nothing()
    ensures Wrap(Sum([])) == 0
  {
  }

  lemma SumSnoc(v: seq<int>, x: int)
    ensures Sum(v + [x]) == Sum(v) + x
  {
    assert (v + [x])[..|v|] == v;
  }

  /** The loaded total is the sum of the loaded weights exactly when that sum is an int. */
  lemma TotalIsSumIff(weights: seq<int>)
    ensures Wrap(Sum(weights)) == Sum(weights) <==> INT_MIN <= Sum(weights) <= INT_MAX
  {
    hide Sum;
  }

  /** With the repair the weights are fit for the weighted algorithm exactly when there are some and
      none is negative as an int. */
  lemma LoadedIsConfigIff(items: seq<Option<int>>, weights: seq<int>)
    requires |weights| == |items| && forall j :: 0 <= j < |items| ==> weights[j] == LoadedWeight(items[j], true)
    ensures IsConfig(weights) <==>
              items != [] && forall j :: 0 <= j < |items| && items[j].Some? ==> Wrap(items[j].value) >= 0
  {
    forall j | 0 <= j < |items| ensures weights[j] >= 1 <==> items[j] == None || Wrap(items[j].value) >= 0 {}
  }

  /** As written the weights come out right exactly when every backend has the weight of the item with
      the listener's number. */
  lemma WrittenLoadsRightIff(items: seq<Option<int>>, listener: nat, weighted: bool,
                             written: seq<int>, right: seq<int>)
    requires listener < |items| && |written| == |right| == |items|
    requires forall j :: 0 <= j < |items| ==> written[j] == LoadedWeight(items[Index(listener, j, false)], weighted)
    requires forall j :: 0 <= j < |items| ==> right[j] == LoadedWeight(items[Index(listener, j, true)], weighted)
    ensures written == right <==>
              forall j :: 0 <= j < |items| ==>
                LoadedWeight(items[j], weighted) == LoadedWeight(items[listener], weighted)
  {
    if written == right {
      forall j | 0 <= j < |items| ensures LoadedWeight(items[j], weighted) == LoadedWeight(items[listener], weighted) {
        assert written[j] == right[j];
      }
    }
  }
}
