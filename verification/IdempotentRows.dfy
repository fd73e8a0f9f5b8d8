/**
 The first de-duplication of a batch: items that share an idempotency key collapse
 into one item, which keeps the place of the first of them, and items without a key
 all stay (backend/polling/event_writer.py).
 */
module IdempotentRows {
  import opened Base
  import opened LatestState

  /** A later item with the same key takes over unless both times say it is older. */
  predicate Replaces<K(==), T>(prior: Item<K, T>, item: Item<K, T>)
  {
    prior.time.None? || item.time.None? || item.time.value >= prior.time.value
  }

  /** The first of the first `n` positions that holds `key`, or `n`. */
  function FindUpTo<K(==), T>(items: seq<Item<K, T>>, n: nat, key: K): (p: nat)
    requires n <= |items|
    ensures p <= n
    ensures p < n ==> items[p].key == Some(key)
    ensures forall i | 0 <= i < p :: items[i].key != Some(key)
  {
    if n == 0 then 0
    else
      var p := FindUpTo(items, n - 1, key);
      if p == n - 1 && items[p].key != Some(key) then n else p
  }

  function Find<K(==), T>(items: seq<Item<K, T>>, key: K): (p: nat)
    ensures p <= |items|
    ensures p < |items| ==> items[p].key == Some(key)
    ensures forall i | 0 <= i < p :: items[i].key != Some(key)
  {
    FindUpTo(items, |items|, key)
  }

  function PutItem<K(==), T>(deduped: seq<Item<K, T>>, item: Item<K, T>): seq<Item<K, T>>
  {
    if item.key.None? then deduped + [item]
    else
      var p := Find(deduped, item.key.value);
      if p == |deduped| then deduped + [item]
      else if Replaces(deduped[p], item) then deduped[p := item]
      else deduped
  }

  /** The list after the first `n` items. */
  function Deduped<K(==), T>(items: seq<Item<K, T>>, n: nat): seq<Item<K, T>>
    requires n <= |items|
  {
    if n == 0 then [] else PutItem(Deduped(items, n - 1), items[n - 1])
  }

  // ------------------------------------------------------- what the list holds

  /** Item `i` owns a place in the result: it has no key, or is the first with its key. */
  predicate OwnsPlace<K(==), T>(items: seq<Item<K, T>>, i: nat)
    requires i < |items|
  {
    items[i].key.None? || Find(items, items[i].key.value) == i
  }

  /** How many places the first `n` items own. */
  function Places<K(==), T>(items: seq<Item<K, T>>, n: nat): (count: nat)
    requires n <= |items|
    ensures count <= n
  {
    if n == 0 then 0 else Places(items, n - 1) + if OwnsPlace(items, n - 1) then 1 else 0
  }

  /** Among the first `n` items, the one that the key ends up with. */
  function KeptIndex<K(==), T>(items: seq<Item<K, T>>, n: nat, key: K): (kept: Option<nat>)
    requires n <= |items|
    ensures kept.Some? ==> kept.value < n && items[kept.value].key == Some(key)
    ensures kept.None? <==> Find(items, key) >= n
  {
    if n == 0 then None
    else
      var prior := KeptIndex(items, n - 1, key);
      if items[n - 1].key != Some(key) then prior
      else if prior.None? || Replaces(items[prior.value], items[n - 1]) then Some(n - 1)
      else prior
  }

  /** The item that stands, after `n` items, in the place owned by item `i`. */
  function Tenant<K(==), T>(items: seq<Item<K, T>>, n: nat, i: nat): Item<K, T>
    requires i < n <= |items| && OwnsPlace(items, i)
  {
    if items[i].key.None? then items[i] else items[KeptIndex(items, n, items[i].key.value).value]
  }

  lemma {:induction false} PlacesGrow<K, T>(items: seq<Item<K, T>>, i: nat, n: nat)
    requires i < n <= |items|
    ensures Places(items, i) + (if OwnsPlace(items, i) then 1 else 0) <= Places(items, n)
  {
    if i < n - 1 {
      PlacesGrow(items, i, n - 1);
    }
  }

  lemma {:induction false} PlaceHasOwner<K, T>(items: seq<Item<K, T>>, n: nat, p: nat) returns (i: nat)
    requires n <= |items| && p < Places(items, n)
    ensures i < n && OwnsPlace(items, i) && Places(items, i) == p
  {
    if p < Places(items, n - 1) {
      i := PlaceHasOwner(items, n - 1, p);
    } else {
      i := n - 1;
    }
  }

  ghost predicate HoldsTenants<K, T>(items: seq<Item<K, T>>, n: nat, deduped: seq<Item<K, T>>)
    requires n <= |items|
  {
    && |deduped| == Places(items, n)
    && forall i | 0 <= i < n && OwnsPlace(items, i) ::
         Places(items, i) < |deduped| && deduped[Places(items, i)] == Tenant(items, n, i)
  }

  lemma FindInTenants<K, T>(items: seq<Item<K, T>>, n: nat, deduped: seq<Item<K, T>>, key: K)
    requires n <= |items| && HoldsTenants(items, n, deduped)
    ensures Find(deduped, key) == if Find(items, key) < n then Places(items, Find(items, key)) else |deduped|
  {
    var p, first := Find(deduped, key), Find(items, key);
    if p < |deduped| {
      var i := PlaceHasOwner(items, n, p);
      assert deduped[p] == Tenant(items, n, i);
    }
    if first < n {
      assert OwnsPlace(items, first);
      assert deduped[Places(items, first)] == Tenant(items, n, first);
    }
  }

  lemma {:induction false} DedupedHoldsTenants<K, T>(items: seq<Item<K, T>>, n: nat)
    requires n <= |items|
    ensures HoldsTenants(items, n, Deduped(items, n))
  {
    if n > 0 {
      DedupedHoldsTenants(items, n - 1);
      TenantsAfterOneMore(items, n - 1, Deduped(items, n - 1));
    }
  }

  lemma TenantsAfterOneMore<K, T>(items: seq<Item<K, T>>, n: nat, before: seq<Item<K, T>>)
    requires n < |items| && HoldsTenants(items, n, before)
    ensures HoldsTenants(items, n + 1, PutItem(before, items[n]))
  {
    if items[n].key.Some? {
      FindInTenants(items, n, before, items[n].key.value);
    }
    forall i | 0 <= i < n + 1 && OwnsPlace(items, i)
      ensures var after := PutItem(before, items[n]);
              Places(items, i) < |after| && after[Places(items, i)] == Tenant(items, n + 1, i)
    {
      TenantAfterOneMore(items, n, before, i);
    }
  }

  lemma TenantAfterOneMore<K, T>(items: seq<Item<K, T>>, n: nat, before: seq<Item<K, T>>, i: nat)
    requires n < |items| && HoldsTenants(items, n, before) && i <= n && OwnsPlace(items, i)
    ensures var after := PutItem(before, items[n]);
            Places(items, i) < |after| && after[Places(items, i)] == Tenant(items, n + 1, i)
  {
    var after := PutItem(before, items[n]);
    if OwnsPlace(items, n) {
      if items[n].key.Some? {
        FindInTenants(items, n, before, items[n].key.value);
      }
      assert after == before + [items[n]];
      if i < n {
        assert Tenant(items, n + 1, i) == Tenant(items, n, i);
      }
    } else {
      TenantAfterRepeat(items, n, before, i);
    }
  }

  lemma TenantAfterRepeat<K, T>(items: seq<Item<K, T>>, n: nat, before: seq<Item<K, T>>, i: nat)
    requires n < |items| && HoldsTenants(items, n, before) && i < n && OwnsPlace(items, i) && !OwnsPlace(items, n)
    ensures var after := PutItem(before, items[n]);
            Places(items, i) < |after| && after[Places(items, i)] == Tenant(items, n + 1, i)
  {
    var key := items[n].key.value;
    var first := Find(items, key);
    FindInTenants(items, n, before, key);
    assert OwnsPlace(items, first);
    assert before[Places(items, first)] == Tenant(items, n, first);
    if i < first {
      PlacesGrow(items, i, first);
      assert Tenant(items, n + 1, i) == Tenant(items, n, i);
    } else if first < i {
      PlacesGrow(items, first, i);
      assert Tenant(items, n + 1, i) == Tenant(items, n, i);
    }
  }

  /**
   The kept item of a key: everything with that key after it is dated and strictly
   older, and everything before it is no newer, unless an undated item intervenes
   (an undated item always takes over, and is always taken over).
   */
  ghost predicate IsKept<K, T>(items: seq<Item<K, T>>, n: nat, key: K, i: nat)
    requires n <= |items|
  {
    && i < n && items[i].key == Some(key)
    && (forall j | i < j < n && items[j].key == Some(key) ::
          items[i].time.Some? && items[j].time.Some? && items[j].time.value < items[i].time.value)
    && (forall j | 0 <= j < i && items[j].key == Some(key) :: Outranked(items, key, j, i))
  }

  ghost predicate Outranked<K, T>(items: seq<Item<K, T>>, key: K, j: nat, i: nat)
    requires j < i < |items|
  {
    || items[i].time.None?
    || items[j].time.None?
    || (exists u :: j < u < i && items[u].key == Some(key) && items[u].time.None?)
    || items[j].time.value <= items[i].time.value
  }

  lemma {:induction false} KeptIndexExact<K, T>(items: seq<Item<K, T>>, n: nat, key: K)
    requires n <= |items| && KeptIndex(items, n, key).Some?
    ensures IsKept(items, n, key, KeptIndex(items, n, key).value)
  {
    if KeptIndex(items, n - 1, key).Some? {
      KeptIndexExact(items, n - 1, key);
      var i := KeptIndex(items, n - 1, key).value;
      if KeptIndex(items, n, key) == Some(n - 1) {
        forall j | 0 <= j < n - 1 && items[j].key == Some(key)
          ensures Outranked(items, key, j, n - 1)
        {
          if j < i {
            assert Outranked(items, key, j, i);
          }
        }
      }
    }
  }

  /**
   The whole result: keyless items keep their order, a key keeps the place of its
   first item, and the item standing there is the one described by `IsKept`.
   */
  lemma DedupedExact<K, T>(items: seq<Item<K, T>>)
    ensures var result := Deduped(items, |items|);
      && |result| == Places(items, |items|)
      && forall i | 0 <= i < |items| && OwnsPlace(items, i) ::
           Places(items, i) < |result|
           && var kept := result[Places(items, i)];
              if items[i].key.None? then kept == items[i]
              else exists k: nat :: IsKept(items, |items|, items[i].key.value, k) && kept == items[k]
  {
    DedupedHoldsTenants(items, |items|);
    forall i | 0 <= i < |items| && OwnsPlace(items, i) && items[i].key.Some?
      ensures exists k: nat ::
              IsKept(items, |items|, items[i].key.value, k) && Deduped(items, |items|)[Places(items, i)] == items[k]
    {
      KeptIndexExact(items, |items|, items[i].key.value);
    }
  }

  /** When every item of a key is dated, the last item of maximal time is kept. */
  lemma DatedItemsKeepLastMaximum<K, T>(items: seq<Item<K, T>>, key: K, i: nat)
    requires IsKept(items, |items|, key, i)
    requires forall j | 0 <= j < |items| && items[j].key == Some(key) :: items[j].time.Some?
    ensures forall j | 0 <= j < |items| && items[j].key == Some(key) ::
              items[j].time.value <= items[i].time.value
              && (items[j].time.value == items[i].time.value ==> j <= i)
  {
    forall j | 0 <= j < |items| && items[j].key == Some(key)
      ensures items[j].time.value <= items[i].time.value
    {
      if j < i {
        assert Outranked(items, key, j, i);
      }
    }
  }

  /** The code's `latest` dictionary finds the place of every key in the list. */
  ghost predicate Indexes<K, T>(latest: map<K, nat>, deduped: seq<Item<K, T>>)
  {
    && (forall key | key in latest :: latest[key] < |deduped| && deduped[latest[key]].key == Some(key))
    && (forall p | 0 <= p < |deduped| && deduped[p].key.Some? ::
        deduped[p].key.value in latest && latest[deduped[p].key.value] == p)
  }

  lemma IndexedPlace<K, T>(latest: map<K, nat>, deduped: seq<Item<K, T>>, key: K)
    requires Indexes(latest, deduped)
    ensures Find(deduped, key) == if key in latest then latest[key] else |deduped|
  {
  }

  method DedupeIdempotent<K(==), T>(items: seq<Item<K, T>>) returns (deduped: seq<Item<K, T>>)
    ensures deduped == Deduped(items, |items|)
  {
    deduped := [];
    var latest: map<K, nat> := map[];
    for n := 0 to |items|
      invariant deduped == Deduped(items, n)
      invariant Indexes(latest, deduped)
    {
      var item := items[n];
      if item.key.None? {
        deduped := deduped + [item];
      } else {
        var key := item.key.value;
        IndexedPlace(latest, deduped, key);
        if key !in latest {
          latest := latest[key := |deduped|];
          deduped := deduped + [item];
        } else {
          var prior := deduped[latest[key]];
          if prior.time.None? || item.time.None? || item.time.value >= prior.time.value {
            deduped := deduped[latest[key] := item];
          }
        }
      }
    }
  }

  // --------------------------------------- batches made of one group per key

  /** The items of the first `n` groups. */
  function Flatten<K(==), T>(groups: seq<seq<Item<K, T>>>, n: nat): seq<Item<K, T>>
    requires n <= |groups|
  {
    if n == 0 then [] else Flatten(groups, n - 1) + groups[n - 1]
  }

  function LastOf<K(==), T>(group: seq<Item<K, T>>): seq<Item<K, T>>
  {
    if group == [] then [] else [group[|group| - 1]]
  }

  /** Only the last item of each of the first `n` groups. */
  function LastOfEach<K(==), T>(groups: seq<seq<Item<K, T>>>, n: nat): seq<Item<K, T>>
    requires n <= |groups|
  {
    if n == 0 then [] else LastOfEach(groups, n - 1) + LastOf(groups[n - 1])
  }

  ghost predicate AllHave<K, T>(group: seq<Item<K, T>>, key: K, time: int)
  {
    forall item | item in group :: item.key == Some(key) && item.time == Some(time)
  }

  /** Group `i` holds items of one key and one time, and no other group has that key. */
  ghost predicate Keyed<K, T>(groups: seq<seq<Item<K, T>>>, keys: seq<K>, times: seq<int>)
  {
    && |groups| == |keys| == |times|
    && (forall i | 0 <= i < |groups| :: AllHave(groups[i], keys[i], times[i]))
    && (forall i, j | 0 <= i < j < |keys| :: keys[i] != keys[j])
  }

  ghost predicate EndsWith<K, T>(group: seq<Item<K, T>>, item: Item<K, T>)
  {
    item in LastOf(group)
  }

  lemma {:induction false} LastOfEachExact<K, T>(groups: seq<seq<Item<K, T>>>, n: nat, item: Item<K, T>)
    requires n <= |groups|
    ensures item in LastOfEach(groups, n) <==> exists i :: 0 <= i < n && EndsWith(groups[i], item)
  {
    if n > 0 {
      LastOfEachExact(groups, n - 1, item);
      assert item in LastOfEach(groups, n) <==> item in LastOfEach(groups, n - 1) || EndsWith(groups[n - 1], item);
    }
  }

  lemma FindIs<K, T>(items: seq<Item<K, T>>, key: K, p: nat)
    requires p <= |items| && (p < |items| ==> items[p].key == Some(key))
    requires forall i | 0 <= i < p :: items[i].key != Some(key)
    ensures Find(items, key) == p
  {
  }

  /** Items of one new key and one time collapse onto the last of them. */
  lemma {:induction false} SameKeyCollapses<K, T>(items: seq<Item<K, T>>, m: nat, n: nat, key: K, time: int)
    requires m + n <= |items|
    requires forall item | item in Deduped(items, m) :: item.key != Some(key)
    requires forall i | m <= i < m + n :: items[i].key == Some(key) && items[i].time == Some(time)
    ensures Deduped(items, m + n) == Deduped(items, m) + if n == 0 then [] else [items[m + n - 1]]
  {
    if n > 0 {
      SameKeyCollapses(items, m, n - 1, key, time);
      FindIs(Deduped(items, m + n - 1), key, |Deduped(items, m)|);
    }
  }

  lemma {:induction false} DedupedOfPrefix<K, T>(items: seq<Item<K, T>>, more: seq<Item<K, T>>, n: nat)
    requires n <= |items|
    ensures Deduped(items + more, n) == Deduped(items, n)
  {
    if n > 0 {
      DedupedOfPrefix(items, more, n - 1);
    }
  }

  lemma EarlierGroupsLackKey<K,
      T>(groups: seq<seq<Item<K, T>>>, keys: seq<K>, times: seq<int>, n: nat, i: nat, item: Item<K, T>)
    requires Keyed(groups, keys, times) && n <= i < |groups| && item in LastOfEach(groups, n)
    ensures item.key != Some(keys[i])
  {
    LastOfEachExact(groups, n, item);
    var j :| 0 <= j < n && EndsWith(groups[j], item);
    assert AllHave(groups[j], keys[j], times[j]);
  }

  lemma {:induction false} GroupsCollapse<K, T>(groups: seq<seq<Item<K, T>>>, keys: seq<K>, times: seq<int>, n: nat)
    requires Keyed(groups, keys, times) && n <= |groups|
    ensures Deduped(Flatten(groups, n), |Flatten(groups, n)|) == LastOfEach(groups, n)
  {
    if n > 0 {
      GroupsCollapse(groups, keys, times, n - 1);
      AppendGroup(groups, keys, times, n - 1);
    }
  }

  lemma HaveAt<K, T>(earlier: seq<Item<K, T>>, group: seq<Item<K, T>>, key: K, time: int)
    requires AllHave(group, key, time)
    ensures var items := earlier + group; forall i | |earlier| <= i < |items| ::
            items[i].key == Some(key) && items[i].time == Some(time)
  {
    var items := earlier + group;
    forall i | |earlier| <= i < |items|
      ensures items[i] in group
    {
      assert items[i] == group[i - |earlier|];
    }
  }

  lemma AppendGroup<K, T>(groups: seq<seq<Item<K, T>>>, keys: seq<K>, times: seq<int>, n: nat)
    requires Keyed(groups, keys, times) && n < |groups|
    requires Deduped(Flatten(groups, n), |Flatten(groups, n)|) == LastOfEach(groups, n)
    ensures var items := Flatten(groups, n + 1);
      Deduped(items, |items|) == LastOfEach(groups, n) + LastOf(groups[n])
  {
    var earlier, group, items := Flatten(groups, n), groups[n], Flatten(groups, n + 1);
    assert items == earlier + group;
    DedupedOfPrefix(earlier, group, |earlier|);
    forall item | item in Deduped(items, |earlier|)
      ensures item.key != Some(keys[n])
    {
      EarlierGroupsLackKey(groups, keys, times, n, n, item);
    }
    assert AllHave(group, keys[n], times[n]);
    HaveAt(earlier, group, keys[n], times[n]);
    SameKeyCollapses(items, |earlier|, |group|, keys[n], times[n]);
  }

  /** The only item with the key of group `i` that survives is the last item of that group. */
  lemma SurvivorOfGroup<K, T>(groups: seq<seq<Item<K, T>>>, keys: seq<K>, times: seq<int>, i: nat, item: Item<K, T>)
    requires Keyed(groups, keys, times) && i < |groups|
    ensures item in Deduped(Flatten(groups, |groups|), |Flatten(groups, |groups|)|) && item.key == Some(keys[i])
       <==> EndsWith(groups[i], item)
  {
    GroupsCollapse(groups, keys, times, |groups|);
    LastOfEachExact(groups, |groups|, item);
    assert AllHave(groups[i], keys[i], times[i]);
    if item in LastOfEach(groups, |groups|) {
      var j :| 0 <= j < |groups| && EndsWith(groups[j], item);
      assert AllHave(groups[j], keys[j], times[j]);
    }
  }
}
