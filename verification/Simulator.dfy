/**
 The protocol mix of the load simulator (backend/polling/simulator.py), over exact reals:
 weights are normalized and polling tasks are apportioned by largest weight.
 */
module Simulator {
  import opened Base
  import opened Envelopes

  function Sum(s: seq<real>, n: nat): real
    requires n <= |s|
  {
    if n == 0 then 0.0 else Sum(s, n - 1) + s[n - 1]
  }

  function Count(s: seq<int>, n: nat): int
    requires n <= |s|
  {
    if n == 0 then 0 else Count(s, n - 1) + s[n - 1]
  }

  lemma {:induction false} SumOfUpdate(s: seq<real>, n: nat, i: nat, x: real)
    requires n <= |s| && i < |s|
    ensures Sum(s[i := x], n) == Sum(s, n) + if i < n then x - s[i] else 0.0
  {
    if n > 0 {
      SumOfUpdate(s, n - 1, i, x);
    }
  }

  lemma {:induction false} CountOfUpdate(s: seq<int>, n: nat, i: nat, x: int)
    requires n <= |s| && i < |s|
    ensures Count(s[i := x], n) == Count(s, n) + if i < n then x - s[i] else 0
  {
    if n > 0 {
      CountOfUpdate(s, n - 1, i, x);
    }
  }

  lemma {:induction false} SumOfPrefix(s: seq<real>, t: seq<real>, n: nat)
    requires n <= |s| && n <= |t| && forall i | 0 <= i < n :: s[i] == t[i]
    ensures Sum(s, n) == Sum(t, n)
  {
    if n > 0 {
      SumOfPrefix(s, t, n - 1);
    }
  }

  // ------------------------------------------------------------------------- parsing the mix

  /** One item of a mix; a name without a protocol is unsupported or out of scope. */
  datatype Item = Item(protocol: Option<Protocol>, weight: real)

  datatype Outcome = Mix(protocols: seq<Protocol>, shares: seq<real>) | Rejected

  predicate Acceptable(items: seq<Item>)
  {
    forall item | item in items :: item.protocol.Some? && item.weight >= 0.0
  }

  /** The weight that the first `n` items give a protocol. */
  function WeightOf(items: seq<Item>, n: nat, protocol: Protocol): real
    requires n <= |items|
  {
    if n == 0 then 0.0
    else WeightOf(items, n - 1, protocol) + if items[n - 1].protocol == Some(protocol) then items[n - 1].weight else 0.0
  }

  function TotalWeight(items: seq<Item>, n: nat): real
    requires n <= |items|
  {
    if n == 0 then 0.0 else TotalWeight(items, n - 1) + items[n - 1].weight
  }

  predicate Distinct<T(==)>(s: seq<T>)
  {
    forall i, j | 0 <= i < j < |s| :: s[i] != s[j]
  }

  lemma {:induction false} WeightIfNamed(items: seq<Item>, n: nat, protocol: Protocol)
    requires n <= |items| && forall i | 0 <= i < n :: items[i].protocol != Some(protocol)
    ensures WeightOf(items, n, protocol) == 0.0
  {
    if n > 0 {
      WeightIfNamed(items, n - 1, protocol);
    }
  }

  /** Accumulates the weights per protocol, in order of first appearance; the first bad item ends it. */
  method Accumulate(items: seq<Item>) returns (ok: bool, protocols: seq<Protocol>, weights: seq<real>)
    ensures ok <==> Acceptable(items)
    ensures ok ==> Distinct(protocols) && |weights| == |protocols|
    ensures ok ==> Sum(weights, |weights|) == TotalWeight(items, |items|)
    ensures ok ==> forall p :: p in protocols <==> exists i :: 0 <= i < |items| && items[i].protocol == Some(p)
    ensures ok ==> forall k | 0 <= k < |protocols| ::
            weights[k] == WeightOf(items, |items|, protocols[k]) && weights[k] >= 0.0
  {
    ok, protocols, weights := true, [], [];
    var i := 0;
    while i < |items|
      invariant 0 <= i <= |items| && ok
      invariant forall j | 0 <= j < i :: items[j].protocol.Some? && items[j].weight >= 0.0
      invariant Distinct(protocols) && |weights| == |protocols| && Sum(weights, |weights|) == TotalWeight(items, i)
      invariant forall p :: p in protocols <==> exists j :: 0 <= j < i && items[j].protocol == Some(p)
      invariant forall k | 0 <= k < |protocols| :: weights[k] == WeightOf(items, i, protocols[k]) && weights[k] >= 0.0
    {
      if items[i].protocol.None? || items[i].weight < 0.0 {
        assert items[i] in items;
        ok := false;
        return;
      }
      var p := items[i].protocol.value;
      var k := 0;
      while k < |protocols| && protocols[k] != p
        invariant 0 <= k <= |protocols| && forall j | 0 <= j < k :: protocols[j] != p
      {
        k := k + 1;
      }
      if k < |protocols| {
        SumOfUpdate(weights, |weights|, k, weights[k] + items[i].weight);
        weights := weights[k := weights[k] + items[i].weight];
      } else {
        WeightIfNamed(items, i, p);
        SumOfPrefix(weights, weights + [items[i].weight], |weights|);
        protocols, weights := protocols + [p], weights + [items[i].weight];
      }
      i := i + 1;
    }
  }

  function Scaled(weights: seq<real>, total: real): seq<real>
    requires total > 0.0
  {
    seq(|weights|, i requires 0 <= i < |weights| => weights[i] / total)
  }

  lemma {:induction false} ScaledSum(weights: seq<real>, total: real, n: nat)
    requires total > 0.0 && n <= |weights|
    ensures Sum(Scaled(weights, total), n) == Sum(weights, n) / total
  {
    if n > 0 {
      ScaledSum(weights, total, n - 1);
    }
  }

  lemma Ratios(x: real, total: real)
    requires x >= 0.0 && total > 0.0
    ensures x / total >= 0.0 && total / total == 1.0
  {
  }

  lemma Normalizes(weights: seq<real>, total: real)
    requires total == Sum(weights, |weights|) && total > 0.0 && forall i | 0 <= i < |weights| :: weights[i] >= 0.0
    ensures IsMix(Scaled(weights, total))
  {
    ScaledSum(weights, total, |weights|);
    Ratios(0.0, total);
    forall i | 0 <= i < |weights|
      ensures Scaled(weights, total)[i] >= 0.0
    {
      Ratios(weights[i], total);
    }
  }

  /** Normalizes a mix: the shares are in proportion to the weights and add up to one. */
  method ParseMix(items: seq<Item>) returns (outcome: Outcome)
    ensures outcome.Rejected? <==> !Acceptable(items) || TotalWeight(items, |items|) <= 0.0
    ensures outcome.Mix? ==>
              && Distinct(outcome.protocols) && |outcome.shares| == |outcome.protocols| && IsMix(outcome.shares)
              && (forall p :: p in outcome.protocols <==> exists i :: 0 <= i < |items| && items[i].protocol == Some(p))
              && forall k | 0 <= k < |outcome.protocols| ::
                   outcome.shares[k] == WeightOf(items, |items|, outcome.protocols[k]) / TotalWeight(items, |items|)
  {
    var ok, protocols, weights := Accumulate(items);
    if !ok {
      return Rejected;
    }
    var total := TotalOf(weights);
    if total <= 0.0 {
      return Rejected;
    }
    Normalizes(weights, total);
    return Mix(protocols, Scaled(weights, total));
  }

  method TotalOf(weights: seq<real>) returns (total: real)
    ensures total == Sum(weights, |weights|)
  {
    total := 0.0;
    for i := 0 to |weights|
      invariant total == Sum(weights, i)
    {
      total := total + weights[i];
    }
  }

  // ----------------------------------------------------------------------------- apportionment

  function Quota(total: nat, share: real): int
  {
    (total as real * share).Floor
  }

  /** Heavier shares come first; equal ones keep their order. */
  predicate Ahead(shares: seq<real>, i: nat, j: nat)
    requires i < |shares| && j < |shares|
  {
    shares[i] > shares[j] || (shares[i] == shares[j] && i < j)
  }

  predicate IsOrder(shares: seq<real>, order: seq<nat>, n: nat)
  {
    && |order| == n <= |shares|
    && (forall k | 0 <= k < |order| :: order[k] < n)
    && (forall k, l | 0 <= k < l < |order| && order[k] < |shares| && order[l] < |shares| ::
        Ahead(shares, order[k], order[l]))
    && (forall i: nat | i < n :: i in order)
  }

  lemma InsertOrder(shares: seq<real>, order: seq<nat>, n: nat, k: nat)
    requires n < |shares| && IsOrder(shares, order, n) && k <= n
    requires forall l | 0 <= l < k :: shares[order[l]] >= shares[n]
    requires k < n ==> shares[order[k]] < shares[n]
    ensures IsOrder(shares, order[..k] + [n] + order[k..], n + 1)
  {
    var longer := order[..k] + [n] + order[k..];
    forall a, b | 0 <= a < b < |longer|
      ensures longer[a] < n + 1 && longer[b] < n + 1 && Ahead(shares, longer[a], longer[b])
    {
      assert longer[a] == if a < k then order[a] else if a == k then n else order[a - 1];
      assert longer[b] == if b < k then order[b] else if b == k then n else order[b - 1];
    }
    forall i: nat | i < n + 1
      ensures i in longer
    {
      if i < n {
        assert i in order;
        var l :| 0 <= l < n && order[l] == i;
        assert longer[if l < k then l else l + 1] == i;
      } else {
        assert longer[k] == n;
      }
    }
  }

  /** The order of the shares, heaviest first. */
  method DescendingOrder(shares: seq<real>) returns (order: seq<nat>)
    ensures IsOrder(shares, order, |shares|)
  {
    order := [];
    for n := 0 to |shares|
      invariant IsOrder(shares, order, n)
    {
      var k := 0;
      while k < n && shares[order[k]] >= shares[n]
        invariant 0 <= k <= n && forall l | 0 <= l < k :: shares[order[l]] >= shares[n]
      {
        k := k + 1;
      }
      InsertOrder(shares, order, n, k);
      order := order[..k] + [n] + order[k..];
    }
  }

  predicate IsMix(shares: seq<real>)
  {
    Sum(shares, |shares|) == 1.0 && forall i | 0 <= i < |shares| :: shares[i] >= 0.0
  }

  function Quotas(total: nat, shares: seq<real>): seq<int>
  {
    seq(|shares|, i requires 0 <= i < |shares| => Quota(total, shares[i]))
  }

  function Positive(shares: seq<real>, n: nat): set<nat>
    requires n <= |shares|
  {
    set i: nat | i < n && shares[i] > 0.0
  }

  /** What the quota of a share misses: less than one task, and nothing for an empty share. */
  function Gap(total: nat, share: real): (gap: real)
    ensures 0.0 <= gap < 1.0
    ensures share == 0.0 ==> gap == 0.0
  {
    assert share == 0.0 ==> total as real * share == 0.0;
    total as real * share - Quota(total, share) as real
  }

  function Missed(total: nat, shares: seq<real>, n: nat): real
    requires n <= |shares|
  {
    if n == 0 then 0.0 else Missed(total, shares, n - 1) + Gap(total, shares[n - 1])
  }

  lemma {:induction false} QuotasAndGaps(total: nat, shares: seq<real>, n: nat)
    requires n <= |shares|
    ensures total as real * Sum(shares, n) == Count(Quotas(total, shares), n) as real + Missed(total, shares, n)
  {
    if n > 0 {
      QuotasAndGaps(total, shares, n - 1);
      Distributes(total as real, Sum(shares, n - 1), shares[n - 1]);
    }
  }

  lemma Distributes(x: real, y: real, z: real)
    ensures x * (y + z) == x * y + x * z
  {
  }

  lemma QuotaGrows(total: nat, a: real, b: real)
    requires a <= b
    ensures total as real * a <= total as real * b && Quota(total, a) <= Quota(total, b)
  {
  }

  /** The quotas miss less than one task for each protocol with a positive share. */
  lemma {:induction false} QuotasMissLittle(total: nat, shares: seq<real>, n: nat)
    requires n <= |shares| && forall i | 0 <= i < |shares| :: shares[i] >= 0.0
    ensures 0.0 <= Missed(total, shares, n) <= |Positive(shares, n)| as real
    ensures Positive(shares, n) != {} ==> Missed(total, shares, n) < |Positive(shares, n)| as real
  {
    if n > 0 {
      QuotasMissLittle(total, shares, n - 1);
      var before := Positive(shares, n - 1);
      if shares[n - 1] > 0.0 {
        assert Positive(shares, n) == before + {n - 1} && n - 1 !in before;
      } else {
        assert Positive(shares, n) == before;
      }
    }
  }

  function Remainder(total: nat, shares: seq<real>): int
  {
    total - Count(Quotas(total, shares), |shares|)
  }

  lemma RemainderIsSmall(total: nat, shares: seq<real>)
    requires IsMix(shares)
    ensures 0 <= Remainder(total, shares) < |Positive(shares, |shares|)| <= |shares|
  {
    QuotasMissLittle(total, shares, |shares|);
    QuotasAndGaps(total, shares, |shares|);
    if Positive(shares, |shares|) == {} {
      NothingPositive(shares, |shares|);
    }
    PositiveCount(shares, |shares|);
  }

  lemma {:induction false} NothingPositive(shares: seq<real>, n: nat)
    requires n <= |shares| && Positive(shares, |shares|) == {} && forall i | 0 <= i < |shares| :: shares[i] >= 0.0
    ensures Sum(shares, n) == 0.0
  {
    if n > 0 {
      NothingPositive(shares, n - 1);
      assert n - 1 !in Positive(shares, |shares|);
    }
  }

  lemma {:induction false} PositiveCount(shares: seq<real>, n: nat)
    requires n <= |shares|
    ensures |Positive(shares, n)| <= n
  {
    if n > 0 {
      PositiveCount(shares, n - 1);
      assert Positive(shares, n) == Positive(shares, n - 1) + if shares[n - 1] > 0.0 then {n - 1} else {};
    } else {
      assert Positive(shares, 0) == {};
    }
  }

  /** Each share gets its quota, and the first of the order get one more. */
  method ProtocolCounts(total: nat, shares: seq<real>) returns (counts: seq<int>, order: seq<nat>)
    requires IsMix(shares)
    ensures IsOrder(shares, order, |shares|) && 0 <= Remainder(total, shares) <= |order| && |counts| == |shares|
    ensures forall i: nat | i < |shares| ::
            counts[i] == Quota(total, shares[i]) + if i in order[..Remainder(total, shares)] then 1 else 0
    ensures Count(counts, |counts|) == total
  {
    counts := Quotas(total, shares);
    RemainderIsSmall(total, shares);
    var served := CountOf(counts);
    var remainder := total - served;
    order := DescendingOrder(shares);
    var k := 0;
    while k < remainder
      invariant 0 <= k <= remainder && |counts| == |shares|
      invariant forall i: nat | i < |shares| :: counts[i] == Quota(total, shares[i]) + if i in order[..k] then 1 else 0
      invariant Count(counts, |counts|) == total - remainder + k
    {
      var i := order[k];
      NotYetServed(shares, order, k);
      CountOfUpdate(counts, |counts|, i, counts[i] + 1);
      counts := counts[i := counts[i] + 1];
      assert order[..k + 1] == order[..k] + [i];
      k := k + 1;
    }
  }

  lemma NotYetServed(shares: seq<real>, order: seq<nat>, k: nat)
    requires IsOrder(shares, order, |shares|) && k < |order|
    ensures order[k] !in order[..k]
  {
    forall l | 0 <= l < k
      ensures order[l] != order[k]
    {
      assert Ahead(shares, order[l], order[k]);
    }
  }

  method CountOf(counts: seq<int>) returns (sum: int)
    ensures sum == Count(counts, |counts|)
  {
    sum := 0;
    for i := 0 to |counts|
      invariant sum == Count(counts, i)
    {
      sum := sum + counts[i];
    }
  }

  // ---------------------------------------------------------------------- it is a fair division

  /** What `ProtocolCounts` promises about its result. */
  ghost predicate Apportioned(total: nat, shares: seq<real>, counts: seq<int>, order: seq<nat>)
  {
    && IsOrder(shares, order, |shares|) && 0 <= Remainder(total, shares) <= |order| && |counts| == |shares|
    && forall i: nat | i < |shares| ::
        counts[i] == Quota(total, shares[i]) + if i in order[..Remainder(total, shares)] then 1 else 0
  }

  /** Every count differs from the exact share by at most one, and by less than one if it is below. */
  lemma CountsAreRoundedShares(total: nat, shares: seq<real>, counts: seq<int>, order: seq<nat>, i: nat)
    requires Apportioned(total, shares, counts, order) && i < |shares|
    ensures counts[i] as real - 1.0 <= total as real * shares[i] < counts[i] as real + 1.0
  {
  }

  /** A heavier share never gets less, and of two equal ones the earlier never gets less. */
  lemma HeavierGetsNoLess(total: nat, shares: seq<real>, counts: seq<int>, order: seq<nat>, i: nat, j: nat)
    requires Apportioned(total, shares, counts, order) && i < |shares| && j < |shares|
    requires shares[i] > shares[j] || (shares[i] == shares[j] && i < j)
    ensures counts[i] >= counts[j]
  {
    QuotaGrows(total, shares[j], shares[i]);
    var first := order[..Remainder(total, shares)];
    if j in first {
      var l :| 0 <= l < |first| && first[l] == j;
      assert i in order;
      var k :| 0 <= k < |order| && order[k] == i;
      assert first[k] == i;
    }
  }

  /** A protocol without a share gets no task. */
  lemma NothingForNothing(total: nat, shares: seq<real>, counts: seq<int>, order: seq<nat>, i: nat)
    requires Apportioned(total, shares, counts, order) && IsMix(shares) && i < |shares| && shares[i] == 0.0
    ensures counts[i] == 0
  {
    var r := Remainder(total, shares);
    RemainderIsSmall(total, shares);
    assert total as real * shares[i] == 0.0;
    if i in order[..r] {
      var k :| 0 <= k < r && order[k] == i;
      forall p | p in Positive(shares, |shares|)
        ensures p in order[..k]
      {
        assert p in order;
        var l :| 0 <= l < |order| && order[l] == p;
        assert order[..k][l] == p;
      }
      FewInPrefix(Positive(shares, |shares|), order[..k]);
    }
  }

  lemma {:induction false} FewInPrefix(s: set<nat>, list: seq<nat>)
    requires forall x | x in s :: x in list
    ensures |s| <= |list|
  {
    if list == [] {
      assert s == {};
    } else {
      var last := list[|list| - 1];
      FewInPrefix(s - {last}, list[..|list| - 1]);
      assert |s| <= |s - {last}| + 1;
    }
  }
}
