/**
 The passes of one legacy poll cycle that turn its observations into events
 (backend/engines/correlation.py, backend/engines/snmp_worker.py): candidates for ROOT
 events are written first, with an empty cache, and everything else afterwards, with the
 cache rebuilt. Every event-producing row must reach the write path of one refresh helper
 once, whatever the parent indexes say.
 */
module Correlation {
  import opened Base
  import opened Envelopes
  import opened EventRows

  /** What the passes look at in a row. `down` is a missing or zero value, `raised` a WARNING or CRITICAL status. */
  datatype Row = Row(
    node: Option<Id>, metric: Option<Metric>, eventType: Option<EventType>,
    icmp: bool, fromPing: bool, down: bool, raised: bool, availabilityKind: bool)

  datatype Helper = CollectionHelper | AvailabilityHelper | LatencyHelper | JitterHelper | LossHelper

  /** A row on the write path of a helper, resolved against an empty or a rebuilt cache. */
  datatype Entry = Entry(helper: Helper, row: Row, emptyCache: bool)

  datatype Triple = Triple(node: Id, metric: Metric, eventType: EventType)
  datatype Pair = Pair(node: Id, metric: Metric)

  predicate IsComplete(row: Row)
  {
    row.node.Some? && row.metric.Some? && row.eventType.Some?
  }

  function TripleOf(row: Row): Triple
    requires IsComplete(row)
  {
    Triple(row.node.value, row.metric.value, row.eventType.value)
  }

  predicate IsCandidate(candidates: set<Triple>, row: Row)
  {
    IsComplete(row) && TripleOf(row) in candidates
  }

  predicate IsThreshold(row: Row, metric: Metric)
  {
    row.icmp && row.metric == Some(metric) && row.eventType == Some(ThresholdBreach) && row.raised
  }

  /** The filter at the head of each helper. */
  predicate Accepts(helper: Helper, row: Row)
  {
    match helper
    case CollectionHelper => true
    case AvailabilityHelper => row.icmp && row.fromPing && row.down
    case LatencyHelper => IsThreshold(row, IcmpLatency)
    case JitterHelper => IsThreshold(row, IcmpJitter)
    case LossHelper => IsThreshold(row, IcmpPacketLoss)
  }

  // ----------------------------------------------------------------------- the rows of a cycle

  /** A row of a failed collection. */
  predicate IsFailureRow(row: Row)
  {
    row.eventType == Some(CollectionFailure)
  }

  /** A row of a collected value: the checked value itself or one of its ICMP sidecars. */
  predicate IsUpdateRow(row: Row)
  {
    match row.eventType
    case Some(CollectionFailure) => false
    case Some(Availability) => row.icmp && row.fromPing && row.down && row.availabilityKind
    case Some(ThresholdBreach) =>
      row.icmp && row.raised && !row.availabilityKind
          && row.metric in {Some(IcmpLatency), Some(IcmpJitter), Some(IcmpPacketLoss)}
    case None => row.availabilityKind ==> !row.down
  }

  function SyntheticRow(node: Id, metric: Metric): Row
  {
    Row(Some(node), Some(metric), Some(ThresholdBreach), true, false, true, true, false)
  }

  /** The helper whose family a row belongs to. */
  function HelperOf(row: Row): Helper
  {
    if row.eventType == Some(Availability) then AvailabilityHelper
    else if row.eventType == Some(CollectionFailure) then CollectionHelper
    else if row.metric == Some(IcmpJitter) then JitterHelper
    else if row.metric == Some(IcmpPacketLoss) then LossHelper
    else LatencyHelper
  }

  // ------------------------------------------------------------------------- list handling

  function Select(rows: seq<Row>, keep: Row -> bool): seq<Row>
  {
    if rows == [] then []
    else Select(rows[..|rows| - 1], keep) + if keep(rows[|rows| - 1]) then [rows[|rows| - 1]] else []
  }

  lemma {:induction false} SelectCount(rows: seq<Row>, keep: Row -> bool, row: Row)
    ensures multiset(Select(rows, keep))[row] == if keep(row) then multiset(rows)[row] else 0
  {
    if rows != [] {
      SelectCount(rows[..|rows| - 1], keep, row);
      assert rows == rows[..|rows| - 1] + [rows[|rows| - 1]];
    }
  }

  function Entries(helper: Helper, rows: seq<Row>, emptyCache: bool): seq<Entry>
  {
    if rows == [] then []
    else
      var last := rows[|rows| - 1];
      Entries(helper, rows[..|rows| - 1], emptyCache) +
          if Accepts(helper, last) then [Entry(helper, last, emptyCache)] else []
  }

  lemma {:induction false} EntriesCount(helper: Helper, rows: seq<Row>, emptyCache: bool, e: Entry)
    ensures multiset(Entries(helper, rows, emptyCache))[e] ==
              if e.helper == helper && e.emptyCache == emptyCache
                  && Accepts(helper, e.row) then multiset(rows)[e.row] else 0
  {
    if rows != [] {
      EntriesCount(helper, rows[..|rows| - 1], emptyCache, e);
      assert rows == rows[..|rows| - 1] + [rows[|rows| - 1]];
    }
  }

  /** A refresh helper puts the rows that pass its filter on its write path. */
  method Refresh(helper: Helper, rows: seq<Row>, emptyCache: bool) returns (written: seq<Entry>)
    ensures written == Entries(helper, rows, emptyCache)
  {
    written := [];
    var i := 0;
    while i < |rows|
      invariant 0 <= i <= |rows|
      invariant written == Entries(helper, rows[..i], emptyCache)
    {
      assert rows[..i + 1][..i] == rows[..i];
      if Accepts(helper, rows[i]) {
        written := written + [Entry(helper, rows[i], emptyCache)];
      }
      i := i + 1;
    }
    assert rows[..i] == rows;
  }

  // ---------------------------------------------------------------- candidates and pass 2

  /** A row that misses the open parents and has no parent among the observed CIs. */
  predicate IsIndependent(row: Row, openParents: set<Pair>, cycleParents: map<Pair, Id>)
  {
    IsComplete(row) && Pair(row.node.value, row.metric.value) !in openParents
        && Pair(row.node.value, row.metric.value) !in cycleParents
  }

  method CycleRootCandidates(observations: seq<Row>, openParents: set<Pair>, cycleParents: map<Pair, Id>)
    returns (candidates: set<Triple>)
    ensures forall triple :: triple in candidates <==>
              Pair(triple.node, triple.metric) !in openParents && Pair(triple.node, triple.metric) !in cycleParents
              && exists i :: 0 <= i < |observations| && observations[i].node == Some(triple.node)
                  && observations[i].metric == Some(triple.metric)
                  && observations[i].eventType == Some(triple.eventType)
  {
    candidates := {};
    var i := 0;
    while i < |observations|
      invariant 0 <= i <= |observations|
      invariant forall triple :: triple in candidates <==>
                  exists j :: 0 <= j < i && IsIndependent(observations[j], openParents, cycleParents)
                      && TripleOf(observations[j]) == triple
    {
      var row := observations[i];
      if IsIndependent(row, openParents, cycleParents) {
        candidates := candidates + {TripleOf(row)};
      }
      i := i + 1;
    }
  }

  /** The helper that pass 2 hands a family to: every threshold row goes to the latency helper. */
  function FamilyOf(row: Row): Helper
  {
    if row.eventType == Some(CollectionFailure) then CollectionHelper
    else if row.eventType == Some(Availability) then AvailabilityHelper
    else LatencyHelper
  }

  function InFamily(candidates: set<Triple>, family: Helper): Row -> bool
  {
    row => IsCandidate(candidates, row) && FamilyOf(row) == family
  }

  const FAMILIES: seq<Helper> := [CollectionHelper, AvailabilityHelper, LatencyHelper]

  function Position(family: Helper): nat
    ensures forall i | 0 <= i < |FAMILIES| :: FAMILIES[i] == family <==> Position(family) == i
  {
    match family
    case CollectionHelper => 0
    case AvailabilityHelper => 1
    case LatencyHelper => 2
    case _ => 3
  }

  function GroupOf(observations: seq<Row>, candidates: set<Triple>, family: Helper): seq<Row>
  {
    Select(observations, InFamily(candidates, family))
  }

  /** What one family puts on the write path. */
  function OwnEntries(observations: seq<Row>, candidates: set<Triple>, writing: set<Helper>, family: Helper): seq<Entry>
  {
    if family in writing then Entries(family, GroupOf(observations, candidates, family), true) else []
  }

  /** What the first `n` families of a pass put on the write path, unless their helper fails or is not wired. */
  function FamilyEntries(observations: seq<Row>, candidates: set<Triple>, writing: set<Helper>, n: nat): seq<Entry>
    requires n <= |FAMILIES|
  {
    if n == 0 then []
    else
      FamilyEntries(observations, candidates, writing, n - 1)
          + OwnEntries(observations, candidates, writing, FAMILIES[n - 1])
  }

  /** The number of rows in the first `n` groups that no failure skips. */
  function Forwarded(observations: seq<Row>, candidates: set<Triple>, failing: set<Helper>, n: nat): nat
    requires n <= |FAMILIES|
  {
    if n == 0 then 0
    else
      Forwarded(observations, candidates, failing, n - 1)
      + if FAMILIES[n - 1] in failing then 0 else |GroupOf(observations, candidates, FAMILIES[n - 1])|
  }

  /** Groups the candidate rows by family. */
  method Group(observations: seq<Row>, candidates: set<Triple>) returns (groups: map<Helper, seq<Row>>)
    ensures forall i | 0 <= i < |FAMILIES| ::
            FAMILIES[i] in groups && groups[FAMILIES[i]] == GroupOf(observations, candidates, FAMILIES[i])
  {
    groups := map[CollectionHelper := [], AvailabilityHelper := [], LatencyHelper := []];
    var i := 0;
    while i < |observations|
      invariant 0 <= i <= |observations| && groups.Keys == {CollectionHelper, AvailabilityHelper, LatencyHelper}
      invariant forall family | family in groups :: groups[family] == GroupOf(observations[..i], candidates, family)
    {
      assert observations[..i + 1][..i] == observations[..i];
      var row := observations[i];
      if IsCandidate(candidates, row) {
        groups := groups[FamilyOf(row) := groups[FamilyOf(row)] + [row]];
      }
      i := i + 1;
    }
    assert observations[..i] == observations;
  }

  /**
   Calls each wired helper once with the candidates of its family and an empty cache; a
   helper that fails is skipped and the others still get their rows.
   */
  method Materialize(observations: seq<Row>, candidates: set<Triple>, wired: set<Helper>, failing: set<Helper>)
    returns (written: seq<Entry>, materialized: nat)
    ensures written == FamilyEntries(observations, candidates, wired - failing, |FAMILIES|)
    ensures materialized == Forwarded(observations, candidates, failing, |FAMILIES|)
  {
    written, materialized := [], 0;
    var groups := Group(observations, candidates);
    var f := 0;
    while f < |FAMILIES|
      invariant 0 <= f <= |FAMILIES|
      invariant written == FamilyEntries(observations, candidates, wired - failing, f)
      invariant materialized == Forwarded(observations, candidates, failing, f)
    {
      var family := FAMILIES[f];
      if family !in failing {
        if family in wired {
          var own := Refresh(family, groups[family], true);
          written := written + own;
        }
        materialized := materialized + |groups[family]|;
      }
      f := f + 1;
    }
  }

  /** The entry of a candidate row that a pass with these helpers writes. */
  predicate Written(candidates: set<Triple>, writing: set<Helper>, e: Entry)
  {
    e.helper in writing && e.helper == FamilyOf(e.row) && e.emptyCache && Accepts(e.helper, e.row)
        && IsCandidate(candidates, e.row)
  }

  lemma OwnEntriesCount(observations: seq<Row>, candidates: set<Triple>, writing: set<Helper>, family: Helper, e: Entry)
    ensures multiset(OwnEntries(observations, candidates, writing, family))[e] ==
              if e.helper == family && Written(candidates, writing, e) then multiset(observations)[e.row] else 0
  {
    EntriesCount(family, GroupOf(observations, candidates, family), true, e);
    SelectCount(observations, InFamily(candidates, family), e.row);
  }

  lemma {:induction false} FamilyEntriesCount(observations: seq<Row>, candidates: set<Triple>, writing: set<Helper>,
      n: nat, e: Entry)
    requires n <= |FAMILIES|
    ensures multiset(FamilyEntries(observations, candidates, writing, n))[e] ==
              if Position(e.helper) < n && Written(candidates, writing, e) then multiset(observations)[e.row] else 0
  {
    if n != 0 {
      FamilyEntriesCount(observations, candidates, writing, n - 1, e);
      OwnEntriesCount(observations, candidates, writing, FAMILIES[n - 1], e);
      assert FAMILIES[n - 1] == e.helper <==> Position(e.helper) == n - 1;
    }
  }

  // ------------------------------------------------------- synthetic rows of unreachable CIs

  /** The last availability sample of a CI among the first `n` rows. */
  function LastSample(rows: seq<Row>, node: Id, n: nat): Option<Row>
    requires n <= |rows|
  {
    if n == 0 then None
    else if rows[n - 1].node == Some(node) && rows[n - 1].fromPing then Some(rows[n - 1])
    else LastSample(rows, node, n - 1)
  }

  /** A CI that is down, has the metric configured and no sample of it in this cycle. */
  predicate NeedsSynthetic(updates: seq<Row>, availability: seq<Row>, metric: Metric, configured: set<Pair>, node: Id)
  {
    var sample := LastSample(availability, node, |availability|);
    && sample.Some? && sample.value.down && Pair(node, metric) in configured
    && forall i | 0 <= i < |updates| :: !(updates[i].node == Some(node) && updates[i].metric == Some(metric))
  }

  /** The rows for some CIs, in order. */
  function RowsFor(nodes: seq<Id>, metric: Metric, keep: Id -> bool): seq<Row>
  {
    if nodes == [] then []
    else
      var last := nodes[|nodes| - 1];
      RowsFor(nodes[..|nodes| - 1], metric, keep) + if keep(last) then [SyntheticRow(last, metric)] else []
  }

  lemma {:induction false} RowsForCount(nodes: seq<Id>, metric: Metric, keep: Id -> bool, row: Row)
    requires forall i, j | 0 <= i < j < |nodes| :: nodes[i] != nodes[j]
    ensures multiset(RowsFor(nodes, metric, keep))[row] ==
              if row.node.Some? && row == SyntheticRow(row.node.value, metric) && row.node.value in nodes
                  && keep(row.node.value) then 1 else 0
  {
    if nodes != [] {
      RowsForCount(nodes[..|nodes| - 1], metric, keep, row);
      assert nodes == nodes[..|nodes| - 1] + [nodes[|nodes| - 1]];
    }
  }

  predicate OnePerNeed(added: seq<Row>, updates: seq<Row>, availability: seq<Row>, metric: Metric,
      configured: set<Pair>, row: Row)
  {
    multiset(added)[row] ==
      if row.node.Some? && row == SyntheticRow(row.node.value, metric)
          && NeedsSynthetic(updates, availability, metric, configured, row.node.value)
      then 1 else 0
  }

  method LatestSamples(availability: seq<Row>) returns (nodes: seq<Id>, latest: map<Id, Row>)
    ensures forall i, j | 0 <= i < j < |nodes| :: nodes[i] != nodes[j]
    ensures forall node :: node in nodes <==> node in latest
    ensures forall node ::
            LastSample(availability, node, |availability|) == if node in latest then Some(latest[node]) else None
  {
    nodes, latest := [], map[];
    var i := 0;
    while i < |availability|
      invariant 0 <= i <= |availability|
      invariant forall j, k | 0 <= j < k < |nodes| :: nodes[j] != nodes[k]
      invariant forall node :: node in nodes <==> node in latest
      invariant forall node :: LastSample(availability, node, i) == if node in latest then Some(latest[node]) else None
    {
      var row := availability[i];
      if row.node.Some? && row.fromPing {
        if row.node.value !in latest {
          nodes := nodes + [row.node.value];
        }
        latest := latest[row.node.value := row];
      }
      i := i + 1;
    }
  }

  predicate Sampled(updates: seq<Row>, node: Id, metric: Metric)
  {
    exists i :: 0 <= i < |updates| && updates[i].node == Some(node) && updates[i].metric == Some(metric)
  }

  /** The CIs that have a sample of the metric. */
  method SampledNodes(updates: seq<Row>, metric: Metric) returns (existing: set<Id>)
    ensures forall node :: node in existing <==> Sampled(updates, node, metric)
  {
    existing := {};
    var i := 0;
    while i < |updates|
      invariant 0 <= i <= |updates|
      invariant forall node :: node in existing <==> exists j ::
                0 <= j < i && updates[j].node == Some(node) && updates[j].metric == Some(metric)
    {
      if updates[i].node.Some? && updates[i].metric == Some(metric) {
        existing := existing + {updates[i].node.value};
      }
      i := i + 1;
    }
  }

  function Wanted(latest: map<Id, Row>, existing: set<Id>, metric: Metric, configured: set<Pair>): Id -> bool
  {
    (node: Id) => node in latest && latest[node].down && Pair(node, metric) in configured && node !in existing
  }

  lemma WantedNeed(updates: seq<Row>, availability: seq<Row>, latest: map<Id, Row>, existing: set<Id>, metric: Metric,
      configured: set<Pair>, node: Id)
    requires node in existing <==> Sampled(updates, node, metric)
    requires LastSample(availability, node, |availability|) == if node in latest then Some(latest[node]) else None
    ensures Wanted(latest, existing, metric, configured)(node)
            <==> NeedsSynthetic(updates, availability, metric, configured, node)
  {
  }

  /** Makes exactly one synthetic row for every CI that needs one. */
  method InjectSynthetic(updates: seq<Row>, availability: seq<Row>, metric: Metric, configured: set<Pair>)
    returns (added: seq<Row>)
    ensures forall row :: OnePerNeed(added, updates, availability, metric, configured, row)
  {
    var existing := SampledNodes(updates, metric);
    var nodes, latest := LatestSamples(availability);
    var keep := Wanted(latest, existing, metric, configured);
    added := CollectRows(nodes, metric, keep);
    forall row
      ensures OnePerNeed(added, updates, availability, metric, configured, row)
    {
      RowsForCount(nodes, metric, keep, row);
      if row.node.Some? {
        WantedNeed(updates, availability, latest, existing, metric, configured, row.node.value);
        assert keep(row.node.value) ==> row.node.value in nodes;
      }
    }
  }

  method CollectRows(nodes: seq<Id>, metric: Metric, keep: Id -> bool) returns (added: seq<Row>)
    ensures added == RowsFor(nodes, metric, keep)
  {
    added := [];
    var i := 0;
    while i < |nodes|
      invariant 0 <= i <= |nodes|
      invariant added == RowsFor(nodes[..i], metric, keep)
    {
      assert nodes[..i + 1][..i] == nodes[..i];
      if keep(nodes[i]) {
        added := added + [SyntheticRow(nodes[i], metric)];
      }
      i := i + 1;
    }
    assert nodes[..i] == nodes;
  }

  // ----------------------------------------------------------------------- the whole cycle

  function Producing(): Row -> bool { (row: Row) => row.eventType.Some? }
  function IcmpProducing(): Row -> bool { (row: Row) => row.eventType == Some(Availability)
      || row.eventType == Some(ThresholdBreach) }
  function OfMetric(metric: Metric): Row -> bool { (row: Row) => row.metric == Some(metric) }
  function OfAvailability(): Row -> bool { (row: Row) => row.availabilityKind }
  function Chosen(candidates: set<Triple>): Row -> bool { (row: Row) => IsCandidate(candidates, row) }
  function Others(candidates: set<Triple>): Row -> bool { (row: Row) => !IsCandidate(candidates, row) }

  datatype Cycle = Cycle(failures: seq<Row>, latest: seq<Row>, jitter: seq<Row>, loss: seq<Row>,
      candidates: set<Triple>, failing: set<Helper>)

  /** The ROOT candidates of pass 2, each written against an empty cache. */
  function RootFailures(c: Cycle): seq<Entry>
  {
    FamilyEntries(c.failures, c.candidates, {CollectionHelper} - c.failing, |FAMILIES|)
  }

  function Observed(c: Cycle): seq<Row>
  {
    c.failures + Select(c.latest, Producing())
  }

  function RootIcmp(c: Cycle): seq<Entry>
  {
    FamilyEntries(Select(Observed(c), IcmpProducing()), c.candidates, {AvailabilityHelper, LatencyHelper} - c.failing,
        |FAMILIES|)
  }

  function RootSidecars(c: Cycle, helper: Helper, metric: Metric): seq<Entry>
  {
    Entries(helper, Select(Select(c.latest, OfMetric(metric)), Chosen(c.candidates)), true)
  }

  function Pass2(c: Cycle): seq<Entry>
  {
    RootFailures(c) + RootIcmp(c) + RootSidecars(c, JitterHelper, IcmpJitter)
        + RootSidecars(c, LossHelper, IcmpPacketLoss)
  }

  /** Everything that is no candidate, written in pass 3 against the rebuilt cache. */
  function LaterFailures(c: Cycle): seq<Entry>
  {
    Entries(CollectionHelper, Select(c.failures, Others(c.candidates)), false)
  }

  function LaterAvailability(c: Cycle): seq<Entry>
  {
    Entries(AvailabilityHelper, Select(Select(c.latest, OfAvailability()), Others(c.candidates)), false)
  }

  function LaterMetric(c: Cycle, helper: Helper, metric: Metric, extra: seq<Row>): seq<Entry>
  {
    Entries(helper, Select(Select(c.latest, OfMetric(metric)) + extra, Others(c.candidates)), false)
  }

  function Pass3(c: Cycle): seq<Entry>
  {
    LaterFailures(c) + LaterAvailability(c)
    + (LaterMetric(c, LatencyHelper, IcmpLatency, []) + LaterMetric(c, JitterHelper, IcmpJitter, c.jitter)
        + LaterMetric(c, LossHelper, IcmpPacketLoss, c.loss))
  }

  /** The rows are built as the collection loop builds them, and the synthetic ones are new. */
  ghost predicate WellFormed(c: Cycle)
  {
    && (forall row | row in c.failures :: IsFailureRow(row))
    && (forall row | row in c.latest :: IsUpdateRow(row))
    && (forall row | row in c.jitter ::
        row.node.Some? && row == SyntheticRow(row.node.value, IcmpJitter) && !IsCandidate(c.candidates, row))
    && (forall row | row in c.loss ::
        row.node.Some? && row == SyntheticRow(row.node.value, IcmpPacketLoss) && !IsCandidate(c.candidates, row))
  }

  /** Every row that has to reach the event store in this cycle. */
  function Obligations(c: Cycle): multiset<Row>
  {
    multiset(c.failures) + multiset(Select(c.latest, Producing())) + multiset(c.jitter) + multiset(c.loss)
  }

  /** A candidate whose helper fails is skipped in pass 2 and, being a candidate, in pass 3 as well. */
  predicate Skipped(c: Cycle, row: Row)
  {
    IsCandidate(c.candidates, row) && HelperOf(row) in c.failing
        && HelperOf(row) in {CollectionHelper, AvailabilityHelper, LatencyHelper}
  }

  /** The one way in which a row is written: by its own helper, against an empty cache if it is a candidate. */
  predicate Due(c: Cycle, e: Entry)
  {
    e.helper == HelperOf(e.row) && e.emptyCache == IsCandidate(c.candidates, e.row) && !Skipped(c, e.row)
  }

  lemma RowKinds(c: Cycle, row: Row)
    requires WellFormed(c)
    ensures !IsFailureRow(row) ==> multiset(c.failures)[row] == 0
    ensures !IsUpdateRow(row) ==> multiset(c.latest)[row] == 0
    ensures multiset(Select(c.latest, Producing()))[row] == if row.eventType.Some? then multiset(c.latest)[row] else 0
  {
    SelectCount(c.latest, Producing(), row);
    assert row in multiset(c.failures) <==> row in c.failures;
    assert row in multiset(c.latest) <==> row in c.latest;
  }

  lemma SyntheticKinds(c: Cycle, row: Row)
    requires WellFormed(c)
    ensures multiset(c.jitter)[row] > 0
            ==> HelperOf(row) == JitterHelper && row.eventType.Some? && !IsCandidate(c.candidates, row)
    ensures multiset(c.loss)[row] > 0
            ==> HelperOf(row) == LossHelper && row.eventType.Some? && !IsCandidate(c.candidates, row)
  {
    assert row in multiset(c.jitter) <==> row in c.jitter;
    assert row in multiset(c.loss) <==> row in c.loss;
  }

  /** An event-producing row of the cycle, due in pass 2 or 3 with this helper. */
  predicate DueIn(c: Cycle, e: Entry, helper: Helper, emptyCache: bool)
  {
    Due(c, e) && e.helper == helper && e.emptyCache == emptyCache && e.row.eventType.Some?
  }

  lemma RootFailuresCount(c: Cycle, e: Entry)
    requires WellFormed(c)
    ensures multiset(RootFailures(c))[e] ==
            if DueIn(c, e, CollectionHelper, true) then multiset(c.failures)[e.row] else 0
  {
    RowKinds(c, e.row);
    FamilyEntriesCount(c.failures, c.candidates, {CollectionHelper} - c.failing, |FAMILIES|, e);
  }

  lemma ObservedIcmpCount(c: Cycle, row: Row)
    requires WellFormed(c)
    ensures multiset(Select(Observed(c), IcmpProducing()))[row] ==
            if IcmpProducing()(row) then multiset(c.latest)[row] else 0
  {
    RowKinds(c, row);
    SelectCount(Observed(c), IcmpProducing(), row);
    assert multiset(Observed(c)) == multiset(c.failures) + multiset(Select(c.latest, Producing()));
  }

  /** For a row of the cycle, the families of pass 2 and the filters of their helpers come to this. */
  lemma RootIcmpLogic(c: Cycle, e: Entry)
    requires IsUpdateRow(e.row) && IcmpProducing()(e.row)
    ensures Position(e.helper) < |FAMILIES| && Written(c.candidates, {AvailabilityHelper, LatencyHelper} - c.failing, e)
       <==> DueIn(c, e, AvailabilityHelper, true) || DueIn(c, e, LatencyHelper, true)
  {
  }

  lemma RootIcmpFrom(c: Cycle, icmp: seq<Row>, e: Entry)
    requires multiset(icmp)[e.row] > 0 ==> IsUpdateRow(e.row) && IcmpProducing()(e.row)
    ensures multiset(FamilyEntries(icmp, c.candidates, {AvailabilityHelper, LatencyHelper} - c.failing,
            |FAMILIES|))[e] ==
              if DueIn(c, e, AvailabilityHelper, true)
                  || DueIn(c, e, LatencyHelper, true) then multiset(icmp)[e.row] else 0
  {
    FamilyEntriesCount(icmp, c.candidates, {AvailabilityHelper, LatencyHelper} - c.failing, |FAMILIES|, e);
    if multiset(icmp)[e.row] > 0 {
      RootIcmpLogic(c, e);
    }
  }

  lemma RootIcmpCount(c: Cycle, e: Entry)
    requires WellFormed(c)
    ensures multiset(RootIcmp(c))[e] ==
              if DueIn(c, e, AvailabilityHelper, true)
                  || DueIn(c, e, LatencyHelper, true) then multiset(c.latest)[e.row] else 0
  {
    RowKinds(c, e.row);
    ObservedIcmpCount(c, e.row);
    RootIcmpFrom(c, Select(Observed(c), IcmpProducing()), e);
    if IsUpdateRow(e.row) {
      ProducingUpdates(e.row);
    }
  }

  lemma ProducingUpdates(row: Row)
    requires IsUpdateRow(row)
    ensures row.eventType.Some? <==> IcmpProducing()(row)
  {
  }

  lemma SelectedEntriesCount(helper: Helper, rows: seq<Row>, keep: Row -> bool, emptyCache: bool, e: Entry)
    ensures multiset(Entries(helper, Select(rows, keep), emptyCache))[e] ==
              if e.helper == helper && e.emptyCache == emptyCache && Accepts(helper, e.row)
                  && keep(e.row) then multiset(rows)[e.row] else 0
  {
    EntriesCount(helper, Select(rows, keep), emptyCache, e);
    SelectCount(rows, keep, e.row);
  }

  /** The filter of a sidecar's helper lets exactly the due rows of its metric through. */
  lemma MetricLogic(c: Cycle, helper: Helper, metric: Metric, e: Entry)
    requires IsUpdateRow(e.row) && Serves(helper, metric) && e.row.metric == Some(metric)
    ensures e.helper == helper && !e.emptyCache && Accepts(helper, e.row) && !IsCandidate(c.candidates, e.row)
            <==> DueIn(c, e, helper, false)
    ensures helper != LatencyHelper ==>
              (e.helper == helper && e.emptyCache && Accepts(helper, e.row) && IsCandidate(c.candidates, e.row) <==>
               DueIn(c, e, helper, true))
  {
  }

  /** A row that is due with a sidecar's helper has its metric. */
  lemma DueMetric(c: Cycle, helper: Helper, metric: Metric, e: Entry, emptyCache: bool)
    requires Serves(helper, metric) && DueIn(c, e, helper, emptyCache) && IsUpdateRow(e.row)
    ensures e.row.metric == Some(metric)
  {
  }

  lemma RootSidecarsCount(c: Cycle, helper: Helper, metric: Metric, e: Entry)
    requires WellFormed(c) && Serves(helper, metric) && helper != LatencyHelper
    ensures multiset(RootSidecars(c, helper, metric))[e] ==
            if DueIn(c, e, helper, true) then multiset(c.latest)[e.row] else 0
  {
    var rows := Select(c.latest, OfMetric(metric));
    RowKinds(c, e.row);
    SelectedEntriesCount(helper, rows, Chosen(c.candidates), true, e);
    SelectCount(c.latest, OfMetric(metric), e.row);
    if IsUpdateRow(e.row) {
      if e.row.metric == Some(metric) {
        MetricLogic(c, helper, metric, e);
      } else if DueIn(c, e, helper, true) {
        DueMetric(c, helper, metric, e, true);
      }
    }
  }

  lemma LaterFailuresCount(c: Cycle, e: Entry)
    requires WellFormed(c)
    ensures multiset(LaterFailures(c))[e] ==
            if DueIn(c, e, CollectionHelper, false) then multiset(c.failures)[e.row] else 0
  {
    RowKinds(c, e.row);
    EntriesCount(CollectionHelper, Select(c.failures, Others(c.candidates)), false, e);
    SelectCount(c.failures, Others(c.candidates), e.row);
  }

  lemma LaterAvailabilityCount(c: Cycle, e: Entry)
    requires WellFormed(c)
    ensures multiset(LaterAvailability(c))[e] ==
            if DueIn(c, e, AvailabilityHelper, false) then multiset(c.latest)[e.row] else 0
  {
    RowKinds(c, e.row);
    EntriesCount(AvailabilityHelper, Select(Select(c.latest, OfAvailability()), Others(c.candidates)), false, e);
    SelectCount(Select(c.latest, OfAvailability()), Others(c.candidates), e.row);
    SelectCount(c.latest, OfAvailability(), e.row);
  }

  predicate Serves(helper: Helper, metric: Metric)
  {
    || (helper == LatencyHelper && metric == IcmpLatency)
    || (helper == JitterHelper && metric == IcmpJitter)
    || (helper == LossHelper && metric == IcmpPacketLoss)
  }

  lemma LaterMetricCount(c: Cycle, helper: Helper, metric: Metric, extra: seq<Row>, e: Entry)
    requires WellFormed(c) && Serves(helper, metric)
    requires forall row | row in extra :: IsUpdateRow(row) && row.metric == Some(metric)
    ensures multiset(LaterMetric(c, helper, metric, extra))[e] ==
              if DueIn(c, e, helper, false) then multiset(c.latest)[e.row] + multiset(extra)[e.row] else 0
  {
    var own := Select(c.latest, OfMetric(metric));
    RowKinds(c, e.row);
    SelectedEntriesCount(helper, own + extra, Others(c.candidates), false, e);
    SelectCount(c.latest, OfMetric(metric), e.row);
    assert multiset(own + extra)[e.row] == multiset(own)[e.row] + multiset(extra)[e.row];
    assert e.row in multiset(extra) <==> e.row in extra;
    if IsUpdateRow(e.row) {
      if e.row.metric == Some(metric) {
        MetricLogic(c, helper, metric, e);
      } else if DueIn(c, e, helper, false) {
        DueMetric(c, helper, metric, e, false);
      }
    }
  }

  lemma JoinedCount(a: seq<Entry>, b: seq<Entry>, e: Entry)
    ensures multiset(a + b)[e] == multiset(a)[e] + multiset(b)[e]
  {
    assert multiset(a + b) == multiset(a) + multiset(b);
  }

  /** Of the shares of the four first writes, one at most is not zero. */
  lemma RootSharesAddUp(c: Cycle, e: Entry, f: nat, l: nat)
    requires (f > 0 ==> IsFailureRow(e.row)) && (l > 0 ==> IsUpdateRow(e.row))
    ensures (if DueIn(c, e, CollectionHelper, true) then f else 0)
            + (if DueIn(c, e, AvailabilityHelper, true) || DueIn(c, e, LatencyHelper, true) then l else 0)
            + (if DueIn(c, e, JitterHelper, true) then l else 0) + (if DueIn(c, e, LossHelper, true) then l else 0)
            == if Due(c, e) && e.emptyCache && e.row.eventType.Some? then f + l else 0
  {
  }

  /** Pass 2 writes the candidates that are due, each once. */
  lemma Pass2Count(c: Cycle, e: Entry)
    requires WellFormed(c)
    ensures multiset(Pass2(c))[e] ==
              if Due(c, e) && e.emptyCache
                  && e.row.eventType.Some? then multiset(c.failures)[e.row] + multiset(c.latest)[e.row] else 0
  {
    var jitter, loss := RootSidecars(c, JitterHelper, IcmpJitter), RootSidecars(c, LossHelper, IcmpPacketLoss);
    RootFailuresCount(c, e);
    RootIcmpCount(c, e);
    RootSidecarsCount(c, JitterHelper, IcmpJitter, e);
    RootSidecarsCount(c, LossHelper, IcmpPacketLoss, e);
    JoinedCount(RootFailures(c), RootIcmp(c), e);
    JoinedCount(RootFailures(c) + RootIcmp(c), jitter, e);
    JoinedCount(RootFailures(c) + RootIcmp(c) + jitter, loss, e);
    RowKinds(c, e.row);
    RootSharesAddUp(c, e, multiset(c.failures)[e.row], multiset(c.latest)[e.row]);
  }

  lemma LaterMetricsCount(c: Cycle, e: Entry)
    requires WellFormed(c)
    ensures multiset(LaterMetric(c, LatencyHelper, IcmpLatency, [])
            + LaterMetric(c, JitterHelper, IcmpJitter, c.jitter)
            + LaterMetric(c, LossHelper, IcmpPacketLoss, c.loss))[e] ==
              if DueIn(c, e, LatencyHelper, false) then multiset(c.latest)[e.row]
              else if DueIn(c, e, JitterHelper, false) then multiset(c.latest)[e.row] + multiset(c.jitter)[e.row]
              else if DueIn(c, e, LossHelper, false) then multiset(c.latest)[e.row] + multiset(c.loss)[e.row]
              else 0
  {
    var latency, jitter, loss :=
        LaterMetric(c, LatencyHelper, IcmpLatency, []), LaterMetric(c, JitterHelper, IcmpJitter, c.jitter),
        LaterMetric(c, LossHelper, IcmpPacketLoss, c.loss);
    LaterMetricCount(c, LatencyHelper, IcmpLatency, [], e);
    LaterMetricCount(c, JitterHelper, IcmpJitter, c.jitter, e);
    LaterMetricCount(c, LossHelper, IcmpPacketLoss, c.loss, e);
    JoinedCount(latency, jitter, e);
    JoinedCount(latency + jitter, loss, e);
  }

  /** Of the shares of the five later writes, one at most is not zero. */
  lemma SharesAddUp(c: Cycle, e: Entry, f: nat, l: nat, j: nat, s: nat)
    requires (f > 0 ==> IsFailureRow(e.row)) && (l > 0 ==> IsUpdateRow(e.row))
    requires j > 0 ==> HelperOf(e.row) == JitterHelper && e.row.eventType.Some?
    requires s > 0 ==> HelperOf(e.row) == LossHelper && e.row.eventType.Some?
    ensures (if DueIn(c, e, CollectionHelper, false) then f else 0)
            + (if DueIn(c, e, AvailabilityHelper, false) then l else 0)
            + (if DueIn(c, e, LatencyHelper, false) then l else if DueIn(c, e, JitterHelper, false) then l + j
               else if DueIn(c, e, LossHelper, false) then l + s else 0)
            == if Due(c, e) && !e.emptyCache && e.row.eventType.Some? then f + l + j + s else 0
  {
  }

  /** Pass 3 writes the others, each once. */
  lemma Pass3Count(c: Cycle, e: Entry)
    requires WellFormed(c)
    ensures multiset(Pass3(c))[e] ==
              if Due(c, e) && !e.emptyCache && e.row.eventType.Some?
              then multiset(c.failures)[e.row] + multiset(c.latest)[e.row] + multiset(c.jitter)[e.row]
                  + multiset(c.loss)[e.row] else 0
  {
    var metrics := LaterMetric(c, LatencyHelper, IcmpLatency, []) + LaterMetric(c, JitterHelper, IcmpJitter, c.jitter)
        + LaterMetric(c, LossHelper, IcmpPacketLoss, c.loss);
    LaterFailuresCount(c, e);
    LaterAvailabilityCount(c, e);
    LaterMetricsCount(c, e);
    JoinedCount(LaterFailures(c), LaterAvailability(c), e);
    JoinedCount(LaterFailures(c) + LaterAvailability(c), metrics, e);
    RowKinds(c, e.row);
    SyntheticKinds(c, e.row);
    SharesAddUp(c, e, multiset(c.failures)[e.row], multiset(c.latest)[e.row], multiset(c.jitter)[e.row],
        multiset(c.loss)[e.row]);
  }

  /**
   The write paths of one cycle hold each event-producing row exactly once, by its own
   helper and with the right cache, and nothing else, for all parent indexes. The one
   exception is a candidate whose helper failed in pass 2: it is not written at all.
   */
  lemma CycleConserves(c: Cycle, e: Entry)
    requires WellFormed(c)
    ensures multiset(Pass2(c) + Pass3(c))[e] == if Due(c, e) then Obligations(c)[e.row] else 0
  {
    Pass2Count(c, e);
    Pass3Count(c, e);
    JoinedCount(Pass2(c), Pass3(c), e);
    RowKinds(c, e.row);
    SyntheticKinds(c, e.row);
  }

  /** What the collection loop and the topology hand to the passes. */
  datatype Inputs = Inputs(
    failures: seq<Row>, latest: seq<Row>, openParents: set<Pair>, cycleParents: map<Pair, Id>, configured: set<Pair>,
        failing: set<Helper>)

  /** The candidates are the triples of the observations that have no parent, open or among the observed CIs. */
  ghost predicate AreCandidates(candidates: set<Triple>, observations: seq<Row>, i: Inputs)
  {
    forall triple :: triple in candidates <==>
      Pair(triple.node, triple.metric) !in i.openParents && Pair(triple.node, triple.metric) !in i.cycleParents
      && exists k :: 0 <= k < |observations| && observations[k].node == Some(triple.node)
          && observations[k].metric == Some(triple.metric)
          && observations[k].eventType == Some(triple.eventType)
  }

  /** A CI gets a synthetic row only without a sample of the metric, so the row is no candidate. */
  lemma SyntheticIsNew(c: Cycle, i: Inputs, added: seq<Row>, metric: Metric, row: Row)
    requires metric == IcmpJitter || metric == IcmpPacketLoss
    requires c.failures == i.failures && c.latest == i.latest && forall r | r in c.failures :: IsFailureRow(r)
    requires AreCandidates(c.candidates, Observed(c), i)
    requires OnePerNeed(added, Select(c.latest, OfMetric(metric)), Select(c.latest, OfAvailability()), metric,
             i.configured, row)
    requires row in added
    ensures row.node.Some? && row == SyntheticRow(row.node.value, metric) && !IsCandidate(c.candidates, row)
  {
    assert multiset(added)[row] > 0;
    if IsCandidate(c.candidates, row) {
      var triple := TripleOf(row);
      var k :| 0 <= k < |Observed(c)| && Observed(c)[k].node == Some(triple.node)
          && Observed(c)[k].metric == Some(triple.metric) && Observed(c)[k].eventType == Some(triple.eventType);
      ObservedUpdate(c, metric, Observed(c)[k]);
    }
  }

  lemma ObservedUpdate(c: Cycle, metric: Metric, row: Row)
    requires row in Observed(c) && row.metric == Some(metric) && row.eventType == Some(ThresholdBreach)
    requires forall r | r in c.failures :: IsFailureRow(r)
    ensures row in Select(c.latest, OfMetric(metric))
  {
    SelectCount(c.latest, Producing(), row);
    SelectCount(c.latest, OfMetric(metric), row);
    var producing := Select(c.latest, Producing());
    assert row in producing ==> multiset(producing)[row] > 0;
    assert multiset(Select(c.latest, OfMetric(metric)))[row] > 0;
  }

  /** The first half of a cycle: the candidates and their ROOT events. */
  method WriteRoots(i: Inputs) returns (candidates: set<Triple>, log: seq<Entry>)
    ensures var c := Cycle(i.failures, i.latest, [], [], candidates, i.failing);
            AreCandidates(candidates, Observed(c), i) && log == Pass2(c)
  {
    var observed := i.failures + Select(i.latest, Producing());
    candidates := CycleRootCandidates(observed, i.openParents, i.cycleParents);
    var failures, collected := Materialize(i.failures, candidates, {CollectionHelper}, i.failing);
    var icmp, materialized :=
        Materialize(Select(observed, IcmpProducing()), candidates, {AvailabilityHelper, LatencyHelper}, i.failing);
    var jitter := Refresh(JitterHelper, Select(Select(i.latest, OfMetric(IcmpJitter)), Chosen(candidates)), true);
    var loss := Refresh(LossHelper, Select(Select(i.latest, OfMetric(IcmpPacketLoss)), Chosen(candidates)), true);
    log := failures + icmp + jitter + loss;
  }

  /** The second half: everything that is no candidate. */
  method WriteOthers(i: Inputs, candidates: set<Triple>, jitter: seq<Row>, loss: seq<Row>) returns (log: seq<Entry>)
    ensures log == Pass3(Cycle(i.failures, i.latest, jitter, loss, candidates, i.failing))
  {
    var others := Others(candidates);
    var failures := Refresh(CollectionHelper, Select(i.failures, others), false);
    var availability := Refresh(AvailabilityHelper, Select(Select(i.latest, OfAvailability()), others), false);
    var latencies := Refresh(LatencyHelper, Select(Select(i.latest, OfMetric(IcmpLatency)) + [], others), false);
    var jitters := Refresh(JitterHelper, Select(Select(i.latest, OfMetric(IcmpJitter)) + jitter, others), false);
    var losses := Refresh(LossHelper, Select(Select(i.latest, OfMetric(IcmpPacketLoss)) + loss, others), false);
    log := failures + availability + (latencies + jitters + losses);
  }

  /**
   A whole cycle. Its log holds exactly what is due: every collection failure, every update
   with an event and every synthetic row, once each.
   */
  method RunCycle(i: Inputs) returns (log: seq<Entry>, c: Cycle)
    requires forall row | row in i.failures :: IsFailureRow(row)
    requires forall row | row in i.latest :: IsUpdateRow(row)
    ensures c.failures == i.failures && c.latest == i.latest && c.failing == i.failing
            && AreCandidates(c.candidates, Observed(c), i)
    ensures forall row ::
            OnePerNeed(c.jitter, Select(i.latest, OfMetric(IcmpJitter)), Select(i.latest, OfAvailability()),
            IcmpJitter, i.configured, row)
    ensures forall row ::
            OnePerNeed(c.loss, Select(i.latest, OfMetric(IcmpPacketLoss)), Select(i.latest, OfAvailability()),
            IcmpPacketLoss, i.configured, row)
    ensures forall e :: multiset(log)[e] == if Due(c, e) then Obligations(c)[e.row] else 0
  {
    var candidates, roots := WriteRoots(i);
    var availability := Select(i.latest, OfAvailability());
    var jitter := InjectSynthetic(Select(i.latest, OfMetric(IcmpJitter)), availability, IcmpJitter, i.configured);
    var loss := InjectSynthetic(Select(i.latest, OfMetric(IcmpPacketLoss)), availability, IcmpPacketLoss, i.configured);
    var others := WriteOthers(i, candidates, jitter, loss);
    log := roots + others;
    c := Cycle(i.failures, i.latest, jitter, loss, candidates, i.failing);
    assert Pass2(c) == Pass2(Cycle(i.failures, i.latest, [], [], candidates, i.failing));
    forall row | row in jitter
      ensures row.node.Some? && row == SyntheticRow(row.node.value, IcmpJitter) && !IsCandidate(candidates, row)
    {
      SyntheticIsNew(c, i, jitter, IcmpJitter, row);
    }
    forall row | row in loss
      ensures row.node.Some? && row == SyntheticRow(row.node.value, IcmpPacketLoss) && !IsCandidate(candidates, row)
    {
      SyntheticIsNew(c, i, loss, IcmpPacketLoss, row);
    }
    forall e
      ensures multiset(log)[e] == if Due(c, e) then Obligations(c)[e.row] else 0
    {
      CycleConserves(c, e);
    }
  }
}
