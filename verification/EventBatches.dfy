/**
 Which batches of rows keep the events of a store unique: from the rows that de-duplication
 leaves of a batch to what one writer makes of them (backend/polling/event_writer.py).
 */
module EventBatches {
  import opened Base
  import opened Envelopes
  import opened LatestState
  import opened IdempotentRows
  import opened EventRows
  import opened EventStore

  function StateKeys(rows: seq<EventRow>): seq<StateKey>
    requires forall row | row in rows :: Targets(row)
  {
    seq(|rows|, i requires 0 <= i < |rows| => KeyOf(rows[i]))
  }

  /** The row is the latest state of its key in the batch, and a breach. */
  ghost predicate LatestBreach(rows: seq<EventRow>, i: int)
  {
    0 <= i < |rows| && Targets(rows[i]) && OpensEvent(rows[i]) && IsLatest(StateItems(rows), |rows|, KeyOf(rows[i]), i)
  }

  /** Two ROOT breaches of a batch, each the latest of its key, are about one place but name different origins. */
  ghost predicate RootsDisagree(rows: seq<EventRow>)
  {
    exists i, j :: LatestBreach(rows, i) && LatestBreach(rows, j) && Disagree(KeyOf(rows[i]), KeyOf(rows[j]))
  }

  predicate Disagree(a: StateKey, b: StateKey)
  {
    IsRoot(a) && IsRoot(b) && PlaceOf(a) == PlaceOf(b) && a != b
  }

  /** The rows that the non-collection statement gets. */
  function BreachKeys(rows: seq<EventRow>): (keys: seq<StateKey>)
    requires forall row | row in Opening(LatestRows(rows)) :: Targets(row)
  {
    StateKeys(Opening(LatestRows(rows)))
  }

  lemma BreachesTarget(rows: seq<EventRow>)
    ensures forall row | row in Opening(LatestRows(rows)) :: Targets(row)
  {
    SurvivorsHaveOwnKeys(rows);
    OpeningHasOwnKeys(LatestRows(rows));
  }

  lemma BreachKeysDiffer(rows: seq<EventRow>, i: nat, j: nat)
    requires forall row | row in Opening(LatestRows(rows)) :: Targets(row)
    requires i < j < |BreachKeys(rows)|
    ensures BreachKeys(rows)[i] != BreachKeys(rows)[j]
  {
    var states := LatestRows(rows);
    var opening := Opening(states);
    SurvivorsHaveOwnKeys(rows);
    OpeningHasOwnKeys(states);
    assert opening[i] in states && opening[j] in states && opening[i] != opening[j];
    var p :| 0 <= p < |states| && states[p] == opening[i];
    var q :| 0 <= q < |states| && states[q] == opening[j];
    assert p < q || q < p;
  }

  /** Every row of the statement comes from the latest breach of its key ... */
  lemma BreachKeyHasRow(rows: seq<EventRow>, key: StateKey)
    requires forall row | row in Opening(LatestRows(rows)) :: Targets(row)
    requires key in BreachKeys(rows)
    ensures exists i :: LatestBreach(rows, i) && KeyOf(rows[i]) == key
  {
    SurvivorsHaveOwnKeys(rows);
    OpeningHasOwnKeys(LatestRows(rows));
    var p :| 0 <= p < |BreachKeys(rows)| && BreachKeys(rows)[p] == key;
    var row := Opening(LatestRows(rows))[p];
    assert row in LatestRows(rows) && OpensEvent(row);
    var q :| 0 <= q < |LatestRows(rows)| && LatestRows(rows)[q] == row;
    var i := SurvivingIndex(rows, q);
    assert LatestBreach(rows, i);
  }

  /** The index in the batch of a row that survives the de-duplication. */
  lemma SurvivingIndex(rows: seq<EventRow>, q: nat) returns (i: nat)
    requires q < |LatestRows(rows)|
    ensures i < |rows| && rows[i] == LatestRows(rows)[q] && Targets(rows[i])
            && IsLatest(StateItems(rows), |rows|, KeyOf(rows[i]), i)
  {
    var items := StateItems(rows);
    KeptAt(items, q);
    i :| i < |items| && items[i] == Kept(items)[q] && IsLatest(items, |items|, Kept(items)[q].key.value, i);
  }

  /** ... and every such breach is a row of the statement. */
  lemma LatestBreachIsKept(rows: seq<EventRow>, i: nat)
    requires forall row | row in Opening(LatestRows(rows)) :: Targets(row)
    requires LatestBreach(rows, i)
    ensures KeyOf(rows[i]) in BreachKeys(rows)
  {
    var items := StateItems(rows);
    EveryKeyKept(items, i);
    var q :| 0 <= q < |Kept(items)| && SameKey(items[i], Kept(items)[q]);
    var k := SurvivingIndex(rows, q);
    KeptAt(items, q);
    assert items[k].key == items[i].key;
    assert k == i;
    SurvivorsHaveOwnKeys(rows);
    OpeningHasOwnKeys(LatestRows(rows));
    assert rows[i] in LatestRows(rows);
    var p :| 0 <= p < |Opening(LatestRows(rows))| && Opening(LatestRows(rows))[p] == rows[i];
    assert BreachKeys(rows)[p] == KeyOf(rows[i]);
  }

  /**
   The rows that a batch leaves for the statement have their places to themselves if and
   only if no two ROOT breaches of the batch, each the latest of its key, are about one
   place and name different origins.
   */
  lemma BatchRootsApartIff(rows: seq<EventRow>)
    ensures forall row | row in Opening(LatestRows(rows)) :: Targets(row)
    ensures RootsApart(BreachKeys(rows)) <==> !RootsDisagree(rows)
  {
    BreachesTarget(rows);
    var keys := BreachKeys(rows);
    if RootsDisagree(rows) {
      var i, j :| LatestBreach(rows, i) && LatestBreach(rows, j) && Disagree(KeyOf(rows[i]), KeyOf(rows[j]));
      LatestBreachIsKept(rows, i);
      LatestBreachIsKept(rows, j);
      var p :| 0 <= p < |keys| && keys[p] == KeyOf(rows[i]);
      var q :| 0 <= q < |keys| && keys[q] == KeyOf(rows[j]);
      assert p < q || q < p;
    }
    forall p, q | 0 <= p < q < |keys| && IsRoot(keys[p]) && IsRoot(keys[q]) && PlaceOf(keys[p]) == PlaceOf(keys[q])
      ensures RootsDisagree(rows)
    {
      BreachKeysDiffer(rows, p, q);
      BreachKeyHasRow(rows, keys[p]);
      BreachKeyHasRow(rows, keys[q]);
    }
  }

  /** It is enough that all ROOT breaches of the batch that are about one place name the same origin. */
  lemma AgreeingRootsAreApart(rows: seq<EventRow>)
    requires forall i, j | 0 <= i < j < |rows| && Targets(rows[i]) && Targets(rows[j]) && OpensEvent(rows[i])
             && OpensEvent(rows[j]) ::
               !Disagree(KeyOf(rows[i]), KeyOf(rows[j]))
    ensures forall row | row in Opening(LatestRows(rows)) :: Targets(row)
    ensures RootsApart(BreachKeys(rows))
  {
    BatchRootsApartIff(rows);
    forall i, j | LatestBreach(rows, i) && LatestBreach(rows, j)
      ensures !Disagree(KeyOf(rows[i]), KeyOf(rows[j]))
    {
      assert i < j || i == j || j < i;
    }
  }

  function Nones(n: nat): seq<Option<Id>>
  {
    seq(n, i => None)
  }

  /** A batch that meets an empty store leaves unique events if and only if its ROOT rows do not disagree. */
  lemma FirstBatchUniqueIff(rows: seq<EventRow>, ids: seq<Id>)
    requires forall row | row in Opening(LatestRows(rows)) :: Targets(row)
    requires NewIds(map[], BreachKeys(rows), ids)
    ensures var keys := BreachKeys(rows);
            Unique(Pipeline, Written(Pipeline, map[], keys, Nones(|keys|), ids, |keys|)) <==> !RootsDisagree(rows)
  {
    var keys := BreachKeys(rows);
    var found := Nones(|keys|);
    BatchRootsApartIff(rows);
    BatchKeepsUniqueIff(map[], keys, found, ids);
    AllNewCreatesTwiceIff(keys);
  }

  lemma AllNewCreatesTwiceIff(keys: seq<StateKey>)
    ensures CreatesTwice(keys, Nones(|keys|)) <==> !RootsApart(keys)
  {
    if !RootsApart(keys) {
      var i, j :| 0 <= i < j < |keys| && IsRoot(keys[i]) && IsRoot(keys[j]) && PlaceOf(keys[i]) == PlaceOf(keys[j]);
      assert Nones(|keys|)[i].None? && Nones(|keys|)[j].None?;
    }
  }

  /** With every lock taken, such a batch alone makes two live events out of an empty store. */
  lemma DisagreeingBatchDuplicates(u: Setup, rows: seq<EventRow>)
    requires u.engine == Pipeline && RootsDisagree(rows)
    ensures exists t :: Reaches(u, EMPTY, t) && !Unique(Pipeline, t.events)
  {
    BreachesTarget(rows);
    var keys := BreachKeys(rows);
    var ids := EnoughIds({}, |keys|);
    FirstBatchUniqueIff(rows, ids);
    var t := State(Written(Pipeline, map[], keys, Nones(|keys|), ids, |keys|), map[]);
    Here(u, t);
    OneWriterWrites(u, map[], keys, Nones(|keys|), ids, t);
  }

  lemma TwoResultsStay(a: Envelope, b: Envelope)
    requires a.key.Some? && b.key.Some? && a.key != b.key
    ensures CollapsedRows([a, b]) == [BuildRow(a), BuildRow(b)]
  {
    var items := KeyItems(BuildRows([a, b]));
    assert items == [KeyItem(BuildRow(a)), KeyItem(BuildRow(b))];
    assert Deduped(items, 0) == [];
    assert Deduped(items, 1) == [items[0]];
    assert Deduped(items, 2) == [items[0], items[1]];
  }

  /**
   Such batches exist for every metric that can breach: two results of one CI, one of them
   with another root cause in its metadata. Nothing in the preparation of the batch brings
   them together.
   */
  lemma DisagreeingResults(u: Setup, e: Envelope, first: Id, second: Id, cause: Id)
    requires u.engine == Pipeline && first != second && OpensEvent(BuildRow(e)) && BuildRow(e).correlation == Root
    requires BuildRow(e).rootCauseCi != Some(cause)
    ensures var rows := CollapsedRows([e.(key := Some(first)),
            e.(key := Some(second), metadata := e.metadata.(rootCauseCi := Some(cause)))]);
            RootsDisagree(rows)
    ensures exists t :: Reaches(u, EMPTY, t) && !Unique(Pipeline, t.events)
  {
    var a, b := e.(key := Some(first)), e.(key := Some(second), metadata := e.metadata.(rootCauseCi := Some(cause)));
    TwoResultsStay(a, b);
    var rows := [BuildRow(a), BuildRow(b)];
    assert BreachType(a) == BreachType(b) == BreachType(e);
    assert LatestBreach(rows, 0) && LatestBreach(rows, 1);
    assert Disagree(KeyOf(rows[0]), KeyOf(rows[1]));
    DisagreeingBatchDuplicates(u, rows);
  }
}
