/**
 De-duplication to the latest state: of the items with one key only the newest is
 kept, ties going to the later item, and items without a key are dropped
 (backend/polling/event_writer.py). An item is a row together with the key and the
 time that the de-duplication looks at.
 */
module LatestState {
  import opened Base

  datatype Item<K, T> = Item(key: Option<K>, time: Option<int>, row: T)

  predicate SameKey<K(==), T>(a: Item<K, T>, b: Item<K, T>)
  {
    a.key.Some? && a.key == b.key
  }

  /** Items order by (has a time, time). */
  predicate NotAfter<K, T>(a: Item<K, T>, b: Item<K, T>)
  {
    a.time.None? || (b.time.Some? && a.time.value <= b.time.value)
  }

  /** The dictionary maps a key to the index of its item; it keeps insertion order. */
  datatype Entry<K> = Entry(key: K, index: nat)

  /** The first of the first `n` entries with this key, or `n`. */
  function PositionUpTo<K(==)>(entries: seq<Entry<K>>, n: nat, key: K): (p: nat)
    requires n <= |entries|
    ensures p <= n
    ensures p < n ==> entries[p].key == key
    ensures forall i | 0 <= i < p :: entries[i].key != key
  {
    if n == 0 then 0
    else
      var p := PositionUpTo(entries, n - 1, key);
      if p == n - 1 && entries[p].key != key then n else p
  }

  function Position<K(==)>(entries: seq<Entry<K>>, key: K): (p: nat)
    ensures p <= |entries|
    ensures p < |entries| ==> entries[p].key == key
    ensures forall i | 0 <= i < p :: entries[i].key != key
  {
    PositionUpTo(entries, |entries|, key)
  }

  ghost predicate Below<K>(entries: seq<Entry<K>>, n: nat)
  {
    forall p | 0 <= p < |entries| :: entries[p].index < n
  }

  /** The dictionary after one more item: a key keeps its place, the newer item wins. */
  function Put<K(==), T>(entries: seq<Entry<K>>, items: seq<Item<K, T>>, index: nat): seq<Entry<K>>
    requires index < |items| && Below(entries, index)
  {
    if items[index].key.None? then entries
    else
      var key := items[index].key.value;
      var p := Position(entries, key);
      if p == |entries| then entries + [Entry(key, index)]
      else if NotAfter(items[entries[p].index], items[index]) then entries[p := Entry(key, index)]
      else entries
  }

  /** The dictionary of the first `n` items. */
  function Entries<K(==), T>(items: seq<Item<K, T>>, n: nat): (entries: seq<Entry<K>>)
    requires n <= |items|
    ensures Below(entries, n)
  {
    if n == 0 then [] else Put(Entries(items, n - 1), items, n - 1)
  }

  /** The items the dictionary holds in the end. */
  function Kept<K(==), T>(items: seq<Item<K, T>>): seq<Item<K, T>>
  {
    var entries := Entries(items, |items|);
    seq(|entries|, p requires 0 <= p < |entries| => items[entries[p].index])
  }

  /** Item `j` is older than item `i`: undated, or dated earlier, or at the same time but before it. */
  predicate IsOlder<K, T>(items: seq<Item<K, T>>, j: nat, i: nat)
    requires j < |items| && i < |items|
  {
    match items[j].time
    case None => items[i].time.Some? || j < i
    case Some(earlier) =>
      match items[i].time
      case None => false
      case Some(later) => earlier < later || (earlier == later && j < i)
  }

  /** `i` is the latest item of `key` among the first `n` items. */
  ghost predicate IsLatest<K, T>(items: seq<Item<K, T>>, n: nat, key: K, i: nat)
    requires n <= |items|
  {
    && i < n && items[i].key == Some(key)
    && forall j | 0 <= j < n && j != i && items[j].key == Some(key) :: IsOlder(items, j, i)
  }

  lemma LatestOfOneMore<K, T>(items: seq<Item<K, T>>, n: nat, key: K, i: nat)
    requires n < |items| && IsLatest(items, n, key, i)
    ensures IsLatest(items, n + 1, key,
                     if items[n].key == Some(key) && NotAfter(items[i], items[n]) then n else i)
  {
  }

  ghost predicate Covers<K, T>(items: seq<Item<K, T>>, n: nat, entries: seq<Entry<K>>)
    requires n <= |items|
  {
    forall i | 0 <= i < n && items[i].key.Some? ::
      exists p :: 0 <= p < |entries| && entries[p].key == items[i].key.value
  }

  ghost predicate Distinct<K>(entries: seq<Entry<K>>)
  {
    forall p, q | 0 <= p < q < |entries| :: entries[p].key != entries[q].key
  }

  ghost predicate AllLatest<K, T>(items: seq<Item<K, T>>, n: nat, entries: seq<Entry<K>>)
    requires n <= |items|
  {
    forall p | 0 <= p < |entries| :: IsLatest(items, n, entries[p].key, entries[p].index)
  }

  lemma PutCovers<K, T>(items: seq<Item<K, T>>, n: nat, entries: seq<Entry<K>>, after: seq<Entry<K>>)
    requires n < |items| && Below(entries, n) && Covers(items, n, entries) && Distinct(entries)
    requires after == Put(entries, items, n)
    ensures Covers(items, n + 1, after) && Distinct(after)
  {
    forall i | 0 <= i < n + 1 && items[i].key.Some?
      ensures exists p :: 0 <= p < |after| && after[p].key == items[i].key.value
    {
      if i < n {
        var p :| 0 <= p < |entries| && entries[p].key == items[i].key.value;
        assert after[p].key == items[i].key.value;
      } else {
        var p := Position(entries, items[n].key.value);
        assert after[p].key == items[n].key.value;
      }
    }
  }

  lemma PutIsLatest<K, T>(items: seq<Item<K, T>>, n: nat, entries: seq<Entry<K>>, after: seq<Entry<K>>)
    requires n < |items| && Below(entries, n)
    requires AllLatest(items, n, entries) && Covers(items, n, entries) && Distinct(entries)
    requires after == Put(entries, items, n)
    ensures AllLatest(items, n + 1, after)
  {
    forall p | 0 <= p < |after|
      ensures IsLatest(items, n + 1, after[p].key, after[p].index)
    {
      if p < |entries| {
        LatestOfOneMore(items, n, entries[p].key, entries[p].index);
      }
    }
  }

  lemma {:induction false} EntriesCover<K, T>(items: seq<Item<K, T>>, n: nat)
    requires n <= |items|
    ensures Covers(items, n, Entries(items, n)) && Distinct(Entries(items, n))
  {
    if n > 0 {
      EntriesCover(items, n - 1);
      PutCovers(items, n - 1, Entries(items, n - 1), Entries(items, n));
    }
  }

  lemma {:induction false} EntriesLatest<K, T>(items: seq<Item<K, T>>, n: nat)
    requires n <= |items|
    ensures AllLatest(items, n, Entries(items, n))
  {
    if n > 0 {
      EntriesLatest(items, n - 1);
      EntryPutIsLatest(items, n - 1);
    }
  }

  lemma EntryPutIsLatest<K, T>(items: seq<Item<K, T>>, n: nat)
    requires n < |items| && AllLatest(items, n, Entries(items, n))
    ensures AllLatest(items, n + 1, Entries(items, n + 1))
  {
    EntriesCover(items, n);
    PutIsLatest(items, n, Entries(items, n), Entries(items, n + 1));
  }

  /** `item` is the one item of its key that the de-duplication must keep. */
  ghost predicate IsSurvivor<K, T>(items: seq<Item<K, T>>, item: Item<K, T>)
  {
    item.key.Some? && exists i: nat | i < |items| :: items[i] == item && IsLatest(items, |items|, item.key.value, i)
  }

  lemma KeptAt<K, T>(items: seq<Item<K, T>>, p: nat)
    requires p < |Kept(items)|
    ensures Kept(items)[p].key == Some(Entries(items, |items|)[p].key)
    ensures IsSurvivor(items, Kept(items)[p])
  {
    EntriesLatest(items, |items|);
    var e := Entries(items, |items|)[p];
    assert IsLatest(items, |items|, e.key, e.index);
  }

  lemma EveryKeyKept<K, T>(items: seq<Item<K, T>>, i: nat)
    requires i < |items| && items[i].key.Some?
    ensures exists p :: 0 <= p < |Kept(items)| && SameKey(items[i], Kept(items)[p])
  {
    EntriesCover(items, |items|);
    var entries := Entries(items, |items|);
    var p :| 0 <= p < |entries| && entries[p].key == items[i].key.value;
    KeptAt(items, p);
    assert SameKey(items[i], Kept(items)[p]);
  }

  lemma NoKeyKeptTwice<K, T>(items: seq<Item<K, T>>, p: nat, q: nat)
    requires p < q < |Kept(items)|
    ensures !SameKey(Kept(items)[p], Kept(items)[q])
  {
    EntriesCover(items, |items|);
    KeptAt(items, p);
    KeptAt(items, q);
    var entries := Entries(items, |items|);
    assert entries[p].key != entries[q].key;
    assert Kept(items)[p].key.value == entries[p].key;
    assert Kept(items)[q].key.value == entries[q].key;
  }

  /**
   Exactly one item per key is kept, and it is the latest one: every kept item is
   maximal for its key, no key is kept twice, and no key is lost.
   */
  lemma KeptExact<K, T>(items: seq<Item<K, T>>)
    ensures forall p | 0 <= p < |Kept(items)| :: IsSurvivor(items, Kept(items)[p])
    ensures forall p, q | 0 <= p < q < |Kept(items)| :: !SameKey(Kept(items)[p], Kept(items)[q])
    ensures forall i | 0 <= i < |items| && items[i].key.Some? ::
              exists p :: 0 <= p < |Kept(items)| && SameKey(items[i], Kept(items)[p])
  {
    forall p | 0 <= p < |Kept(items)|
      ensures IsSurvivor(items, Kept(items)[p])
    {
      KeptAt(items, p);
    }
    forall p, q | 0 <= p < q < |Kept(items)|
      ensures !SameKey(Kept(items)[p], Kept(items)[q])
    {
      NoKeyKeptTwice(items, p, q);
    }
    forall i | 0 <= i < |items| && items[i].key.Some?
      ensures exists p :: 0 <= p < |Kept(items)| && SameKey(items[i], Kept(items)[p])
    {
      EveryKeyKept(items, i);
    }
  }

  lemma {:induction false} DistinctKeysKeepAll<K, T>(items: seq<Item<K, T>>, n: nat)
    requires n <= |items|
    requires forall i | 0 <= i < |items| :: items[i].key.Some?
    requires forall i, j | 0 <= i < j < |items| :: !SameKey(items[i], items[j])
    ensures |Entries(items, n)| == n
    ensures forall i | 0 <= i < n :: Entries(items, n)[i] == Entry(items[i].key.value, i)
  {
    if n > 0 {
      DistinctKeysKeepAll(items, n - 1);
    }
  }

  /** The writer applies this de-duplication twice; the second pass changes nothing. */
  lemma KeptIdempotent<K, T>(items: seq<Item<K, T>>)
    ensures Kept(Kept(items)) == Kept(items)
  {
    KeptExact(items);
    DistinctKeysKeepAll(Kept(items), |Kept(items)|);
  }

  /** No two items of one key carry the same time (or both lack one). */
  ghost predicate DistinctTimes<K, T>(items: seq<Item<K, T>>)
  {
    forall i, j | 0 <= i < j < |items| && SameKey(items[i], items[j]) :: items[i].time != items[j].time
  }

  /** Under distinct times the item that must be kept is determined by the items as a multiset. */
  lemma SurvivorOfReordering<K, T>(items: seq<Item<K, T>>, other: seq<Item<K, T>>, item: Item<K, T>, rival: Item<K, T>)
    requires multiset(items) == multiset(other) && DistinctTimes(items)
    requires IsSurvivor(items, item) && IsSurvivor(other, rival) && SameKey(item, rival)
    ensures item == rival
  {
    var i: nat :| i < |items| && items[i] == item && IsLatest(items, |items|, item.key.value, i);
    var k: nat :| k < |other| && other[k] == rival && IsLatest(other, |other|, rival.key.value, k);
    assert rival in multiset(items) && item in multiset(other);
    var j: nat :| j < |items| && items[j] == rival;
    var m: nat :| m < |other| && other[m] == item;
    assert NotAfter(items[j], items[i]) && NotAfter(other[m], other[k]);
  }

  lemma SurvivorSurvivesReordering<K, T>(items: seq<Item<K, T>>, other: seq<Item<K, T>>, p: nat)
    requires multiset(items) == multiset(other) && p < |Kept(items)|
    requires DistinctTimes(items) || DistinctTimes(other)
    ensures Kept(items)[p] in Kept(other)
  {
    var item := Kept(items)[p];
    KeptAt(items, p);
    assert item in multiset(other) by {
      assert item in items;
    }
    var i: nat :| i < |other| && other[i] == item;
    EveryKeyKept(other, i);
    var q :| 0 <= q < |Kept(other)| && SameKey(other[i], Kept(other)[q]);
    KeptAt(other, q);
    if DistinctTimes(items) {
      SurvivorOfReordering(items, other, item, Kept(other)[q]);
    } else {
      SurvivorOfReordering(other, items, Kept(other)[q], item);
    }
  }

  /** Key `a` appears among the first `n` items before key `b` does. */
  ghost predicate AppearsBefore<K, T>(items: seq<Item<K, T>>, n: nat, a: K, b: K)
    requires n <= |items|
  {
    exists i :: 0 <= i < n && items[i].key == Some(a) && forall j | 0 <= j <= i :: items[j].key != Some(b)
  }

  ghost predicate InOrder<K, T>(items: seq<Item<K, T>>, n: nat, entries: seq<Entry<K>>)
    requires n <= |items|
  {
    forall p, q | 0 <= p < q < |entries| :: AppearsBefore(items, n, entries[p].key, entries[q].key)
  }

  lemma AppearsStill<K, T>(items: seq<Item<K, T>>, n: nat, a: K, b: K)
    requires 0 < n <= |items| && AppearsBefore(items, n - 1, a, b)
    ensures AppearsBefore(items, n, a, b)
  {
  }

  lemma {:induction false} EntriesInOrder<K, T>(items: seq<Item<K, T>>, n: nat)
    requires n <= |items|
    ensures InOrder(items, n, Entries(items, n))
  {
    if n > 0 {
      EntriesInOrder(items, n - 1);
      OrderGoesOn(items, n, Entries(items, n - 1));
    }
  }

  lemma OrderGoesOn<K, T>(items: seq<Item<K, T>>, n: nat, before: seq<Entry<K>>)
    requires 0 < n <= |items| && before == Entries(items, n - 1)
    ensures InOrder(items, n - 1, before) ==> InOrder(items, n, Put(before, items, n - 1))
  {
    EntriesCover(items, n - 1);
    EntriesLatest(items, n - 1);
    PutInOrder(items, n, before, Put(before, items, n - 1));
  }

  lemma PutInOrder<K, T>(items: seq<Item<K, T>>, n: nat, before: seq<Entry<K>>, after: seq<Entry<K>>)
    requires 0 < n <= |items| && Below(before, n - 1) && after == Put(before, items, n - 1)
    ensures Covers(items, n - 1, before) && AllLatest(items, n - 1, before) && InOrder(items, n - 1, before) ==>
              InOrder(items, n, after)
  {
    if Covers(items, n - 1, before) && AllLatest(items, n - 1, before) && InOrder(items, n - 1, before) {
      forall p, q | 0 <= p < q < |after|
        ensures AppearsBefore(items, n, after[p].key, after[q].key)
      {
        if q < |before| {
          assert after[p].key == before[p].key && after[q].key == before[q].key;
          AppearsStill(items, n, before[p].key, before[q].key);
        } else {
          NewKeyAppearsLast(items, n, before, p);
        }
      }
    }
  }

  lemma NewKeyAppearsLast<K, T>(items: seq<Item<K, T>>, n: nat, before: seq<Entry<K>>, p: nat)
    requires 0 < n <= |items| && p < |before| && Below(before, n - 1) && Covers(items, n - 1, before)
    requires AllLatest(items, n - 1, before) && items[n - 1].key.Some?
    requires Position(before, items[n - 1].key.value) == |before|
    ensures AppearsBefore(items, n, before[p].key, items[n - 1].key.value)
  {
    var i := before[p].index;
    assert IsLatest(items, n - 1, before[p].key, i);
    forall j | 0 <= j <= i
      ensures items[j].key != items[n - 1].key
    {
    }
  }

  /** The survivors are in the order in which their keys first appear. */
  lemma KeptInOrder<K, T>(items: seq<Item<K, T>>, p: nat, q: nat)
    requires p < q < |Kept(items)|
    ensures Kept(items)[p].key.Some? && Kept(items)[q].key.Some?
    ensures AppearsBefore(items, |items|, Kept(items)[p].key.value, Kept(items)[q].key.value)
  {
    EntriesInOrder(items, |items|);
    KeptAt(items, p);
    KeptAt(items, q);
  }

  /** With distinct times the survivors do not depend on the order of the batch. */
  lemma SurvivorsIndependentOfOrder<K, T>(items: seq<Item<K, T>>, other: seq<Item<K, T>>)
    requires multiset(items) == multiset(other) && DistinctTimes(items)
    ensures forall item :: item in Kept(items) <==> item in Kept(other)
  {
    forall p | 0 <= p < |Kept(items)|
      ensures Kept(items)[p] in Kept(other)
    {
      SurvivorSurvivesReordering(items, other, p);
    }
    forall p | 0 <= p < |Kept(other)|
      ensures Kept(other)[p] in Kept(items)
    {
      SurvivorSurvivesReordering(other, items, p);
    }
  }

  /** The code's dictionary finds the entry of every key that has one. */
  ghost predicate Tracks<K>(place: map<K, nat>, entries: seq<Entry<K>>)
  {
    && (forall key | key in place :: place[key] < |entries| && entries[place[key]].key == key)
    && (forall p | 0 <= p < |entries| :: entries[p].key in place && place[entries[p].key] == p)
  }

  lemma TrackedPosition<K>(place: map<K, nat>, entries: seq<Entry<K>>, key: K)
    requires Tracks(place, entries)
    ensures Position(entries, key) == if key in place then place[key] else |entries|
  {
  }

  /** One pass over the items with a dictionary from keys to the newest item. */
  method LatestEntries<K(==), T>(items: seq<Item<K, T>>) returns (entries: seq<Entry<K>>)
    ensures entries == Entries(items, |items|)
  {
    var place: map<K, nat> := map[];
    entries := [];
    for index := 0 to |items|
      invariant entries == Entries(items, index)
      invariant Tracks(place, entries)
    {
      var item := items[index];
      if item.key.Some? {
        var key := item.key.value;
        TrackedPosition(place, entries, key);
        if key !in place {
          place := place[key := |entries|];
          entries := entries + [Entry(key, index)];
        } else if NotAfter(items[entries[place[key]].index], item) {
          entries := entries[place[key] := Entry(key, index)];
        }
      }
    }
  }

  method Dedupe<K(==), T>(items: seq<Item<K, T>>) returns (result: seq<Item<K, T>>)
    ensures result == Kept(items)
  {
    var entries := LatestEntries(items);
    result := [];
    for p := 0 to |entries|
      invariant result == Kept(items)[..p]
    {
      result := result + [items[entries[p].index]];
    }
  }

  // ------------------------------------------------- the items that are still up to date

  /** Items without a key are always current, the others if the dictionary ends with them. */
  predicate IsCurrent<K(==), T>(items: seq<Item<K, T>>, i: nat)
    requires i < |items|
  {
    items[i].key.None? || exists p | 0 <= p < |Entries(items, |items|)| :: Entries(items, |items|)[p].index == i
  }

  /** The current ones of the first `n` items, in their order. */
  function Current<K(==), T>(items: seq<Item<K, T>>, n: nat): seq<Item<K, T>>
    requires n <= |items|
  {
    if n == 0 then [] else Current(items, n - 1) + if IsCurrent(items, n - 1) then [items[n - 1]] else []
  }

  method KeepCurrent<K(==), T>(items: seq<Item<K, T>>) returns (result: seq<Item<K, T>>)
    ensures result == Current(items, |items|)
  {
    var entries := LatestEntries(items);
    var latest := set p | 0 <= p < |entries| :: entries[p].index;
    result := [];
    for i := 0 to |items|
      invariant result == Current(items, i)
    {
      assert i in latest <==> exists p | 0 <= p < |entries| :: entries[p].index == i;
      if items[i].key.None? || i in latest {
        result := result + [items[i]];
      }
    }
  }

  /** An item with a key is current exactly when it is the latest of its key. */
  lemma CurrentIffLatest<K, T>(items: seq<Item<K, T>>, i: nat)
    requires i < |items| && items[i].key.Some?
    ensures IsCurrent(items, i) <==> IsLatest(items, |items|, items[i].key.value, i)
  {
    var entries := Entries(items, |items|);
    EntriesLatest(items, |items|);
    EntriesCover(items, |items|);
    if IsCurrent(items, i) {
      var p :| 0 <= p < |entries| && entries[p].index == i;
      assert IsLatest(items, |items|, entries[p].key, i);
    }
    if IsLatest(items, |items|, items[i].key.value, i) {
      var p :| 0 <= p < |entries| && entries[p].key == items[i].key.value;
      assert IsLatest(items, |items|, entries[p].key, entries[p].index);
      assert entries[p].index == i;
    }
  }
}
