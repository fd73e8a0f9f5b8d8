/**
 Event rows of one writer batch: how a row is built from an envelope, which rows
 are left after the two de-duplications, and what the shared idempotency key does
 to the envelopes that one polling result contributes
 (backend/polling/event_writer.py, backend/polling/writer_pool.py).
 */
module EventRows {
  import opened Base
  import opened Envelopes
  import opened LatestState
  import opened IdempotentRows

  datatype EventType = CollectionFailure | Availability | ThresholdBreach

  datatype EventRow = EventRow(
    key: Option<Id>,
    ci: Id,
    metric: Metric,
    isBreach: bool,
    eventType: Option<EventType>,
    snmpNoResponse: bool,
    protocol: Protocol,
    availabilitySource: Option<AvailabilitySource>,
    recoverCollection: bool,
    recoverNonCollection: bool,
    observed: Option<int>,
    correlation: Correlation,
    propagatedFrom: Option<Id>,
    rootCauseEvent: Option<Id>,
    rootCauseCi: Option<Id>)

  // ---------------------------------------------------------------- building rows

  predicate Compare(left: real, right: real, op: Operator)
  {
    match op
    case AtMost => left <= right
    case Equal => left == right
    case NotEqual => left != right
    case AtLeast => left >= right
  }

  predicate IsSnmpNoResponse(e: Envelope)
  {
    e.protocol == SNMP && (e.status in {NoData, Timeout} || (e.status == Error && e.noResponse))
  }

  predicate Crosses(threshold: Option<real>, value: real, op: Operator)
  {
    threshold.Some? && Compare(value, threshold.value, op)
  }

  /** The event type that the envelope opens, if it is a breach at all. */
  function BreachType(e: Envelope): Option<EventType>
  {
    if IsSnmpNoResponse(e) then Some(CollectionFailure)
    else if e.status !in {Ok, Warning, Critical} then Some(CollectionFailure)
    else if e.numeric.None? then None
    else if e.protocol == ICMP && e.metadata.availabilitySource.Some? then
      if e.numeric.value == 0.0 then Some(Availability) else None
    else if Crosses(e.metadata.critical, e.numeric.value, e.metadata.operator)
         || Crosses(e.metadata.warning, e.numeric.value, e.metadata.operator) then Some(ThresholdBreach)
    else None
  }

  function BuildRow(e: Envelope): EventRow
  {
    var breach := BreachType(e);
    EventRow(
      e.key, e.ci, e.metric, breach.Some?, breach, IsSnmpNoResponse(e), e.protocol,
      e.metadata.availabilitySource,
      e.numeric.Some?, e.numeric.Some? && breach.None?,
      Some(e.observed),
      if e.metadata.correlation.Some? then e.metadata.correlation.value else Root,
      e.metadata.propagatedFrom, e.metadata.rootCauseEvent,
      Coalesce(e.metadata.rootCauseCi, Some(e.ci)))
  }

  function BuildRows(envelopes: seq<Envelope>): seq<EventRow>
  {
    seq(|envelopes|, i requires 0 <= i < |envelopes| => BuildRow(envelopes[i]))
  }

  // ------------------------------------------------------- what a row says of its envelope

  /** The result was collected: its status is one of the three regular ones. */
  predicate IsCollected(e: Envelope)
  {
    e.status == Ok || e.status == Warning || e.status == Critical
  }

  /** The result says whether a host answers. */
  predicate IsAvailability(e: Envelope)
  {
    e.protocol == ICMP && e.metadata.availabilitySource.Some?
  }

  predicate IsReached(limit: Option<real>, value: real, op: Operator)
  {
    && limit.Some?
    && (op == AtMost ==> value <= limit.value) && (op == AtLeast ==> limit.value <= value)
    && (op == Equal ==> value <= limit.value && limit.value <= value)
        && (op == NotEqual ==> value < limit.value || limit.value < value)
  }

  /** A collection failure is any irregular status; SNMP without a response is one of them. */
  lemma CollectionFailureIff(e: Envelope)
    ensures BuildRow(e).eventType == Some(CollectionFailure) <==> !IsCollected(e)
    ensures BuildRow(e).snmpNoResponse <==>
              e.protocol == SNMP && (e.status == NoData || e.status == Timeout || (e.status == Error && e.noResponse))
    ensures BuildRow(e).snmpNoResponse ==> BuildRow(e).eventType == Some(CollectionFailure)
  {
  }

  /** A host is down exactly when its check was collected and measured zero. */
  lemma AvailabilityBreachIff(e: Envelope)
    ensures BuildRow(e).eventType == Some(Availability)
            <==> IsAvailability(e) && IsCollected(e) && e.numeric == Some(0.0)
  {
  }

  /** A threshold is breached exactly when the critical or the warning limit is reached. */
  lemma ThresholdBreachIff(e: Envelope)
    ensures BuildRow(e).eventType == Some(ThresholdBreach) <==>
              && IsCollected(e) && !IsAvailability(e) && e.numeric.Some?
              && (IsReached(e.metadata.critical, e.numeric.value, e.metadata.operator)
                  || IsReached(e.metadata.warning, e.numeric.value, e.metadata.operator))
  {
  }

  /** A row is a breach exactly when it names an event type, and a recovery when it measured something else. */
  lemma RecoveryIff(e: Envelope)
    ensures BuildRow(e).isBreach <==> BuildRow(e).eventType.Some?
    ensures BuildRow(e).recoverNonCollection <==> e.numeric.Some? && !BuildRow(e).isBreach
    ensures BuildRow(e).recoverCollection <==> e.numeric.Some?
  {
  }

  /** The origin of a row is that of its metadata, by default a root cause at its own CI. */
  lemma OriginOf(e: Envelope)
    ensures var row, m := BuildRow(e), e.metadata;
            && row.correlation == (if m.correlation == Some(Propagated) then Propagated else Root)
            && row.propagatedFrom == m.propagatedFrom && row.rootCauseEvent == m.rootCauseEvent
            && row.rootCauseCi == Some(if m.rootCauseCi.Some? then m.rootCauseCi.value else e.ci)
            && row.key == e.key && row.ci == e.ci && row.metric == e.metric && row.protocol == e.protocol
            && row.observed == Some(e.observed) && row.availabilitySource == m.availabilitySource
  {
  }

  /** A report of a measurement opens its event exactly when a limit is reached, and recovers it otherwise. */
  lemma ReportOpensIff(d: Envelope, e: Envelope, metric: Metric, value: real, warning: real, critical: real)
    requires Reports(d, e, metric, value, warning, critical)
    ensures BuildRow(d).eventType == Some(ThresholdBreach) <==> value >= warning || value >= critical
    ensures BuildRow(d).recoverNonCollection <==> value < warning && value < critical
  {
  }

  // ------------------------------------------- latest state per non-collection key

  datatype StateKey = StateKey(
    ci: Id, metric: Metric, eventType: EventType, correlation: Correlation,
    propagatedFrom: Option<Id>, rootCauseEvent: Option<Id>, rootCauseCi: Option<Id>)

  /** The non-collection event a row breaches or recovers, if any. */
  function TargetType(row: EventRow): Option<EventType>
  {
    if row.eventType.Some? && row.eventType != Some(CollectionFailure) then row.eventType
    else if !row.recoverNonCollection then None
    else if row.protocol == ICMP && row.availabilitySource.Some? then Some(Availability)
    else Some(ThresholdBreach)
  }

  predicate Targets(row: EventRow)
  {
    TargetType(row).Some?
  }

  function KeyOf(row: EventRow): StateKey
    requires Targets(row)
  {
    StateKey(row.ci, row.metric, TargetType(row).value, row.correlation,
             row.propagatedFrom, row.rootCauseEvent, row.rootCauseCi)
  }

  /**
   A collected result with a measurement targets the event that it opens or recovers: that
   of its host if it is a check of it, and otherwise that of its threshold.
   */
  lemma TargetIff(e: Envelope)
    ensures TargetType(BuildRow(e)) == Some(Availability) <==> IsCollected(e) && e.numeric.Some? && IsAvailability(e)
    ensures TargetType(BuildRow(e)) == Some(ThresholdBreach)
            <==> IsCollected(e) && e.numeric.Some? && !IsAvailability(e)
    ensures TargetType(BuildRow(e)) != Some(CollectionFailure)
  {
  }

  /** The key of a row is its place and its origin. */
  lemma KeysAgreeIff(a: EventRow, b: EventRow)
    requires Targets(a) && Targets(b)
    ensures KeyOf(a) == KeyOf(b) <==>
              && a.ci == b.ci && a.metric == b.metric && TargetType(a) == TargetType(b)
                  && a.correlation == b.correlation
              && a.propagatedFrom == b.propagatedFrom && a.rootCauseEvent == b.rootCauseEvent
                  && a.rootCauseCi == b.rootCauseCi
  {
  }

  /** What the de-duplication to the latest state looks at. */
  function StateItem(row: EventRow): Item<StateKey, EventRow>
  {
    Item(if Targets(row) then Some(KeyOf(row)) else None, row.observed, row)
  }

  function StateItems(rows: seq<EventRow>): seq<Item<StateKey, EventRow>>
  {
    seq(|rows|, i requires 0 <= i < |rows| => StateItem(rows[i]))
  }

  /** What the collapse of idempotent rows looks at. */
  function KeyItem(row: EventRow): Item<Id, EventRow>
  {
    Item(row.key, row.observed, row)
  }

  function KeyItems(rows: seq<EventRow>): seq<Item<Id, EventRow>>
  {
    seq(|rows|, i requires 0 <= i < |rows| => KeyItem(rows[i]))
  }

  function RowsOf<K>(items: seq<Item<K, EventRow>>): seq<EventRow>
  {
    seq(|items|, i requires 0 <= i < |items| => items[i].row)
  }

  /** One row per key, the latest; rows that target no event are dropped. */
  function LatestRows(rows: seq<EventRow>): seq<EventRow>
  {
    RowsOf(Kept(StateItems(rows)))
  }

  /** A kept item is still the item of its row, so the second pass sees the same items. */
  lemma LatestRowsAreStateItems(rows: seq<EventRow>)
    ensures StateItems(LatestRows(rows)) == Kept(StateItems(rows))
  {
    var items := StateItems(rows);
    forall p | 0 <= p < |Kept(items)|
      ensures Kept(items)[p] == StateItem(Kept(items)[p].row)
    {
      KeptAt(items, p);
    }
  }

  lemma LatestRowsIdempotent(rows: seq<EventRow>)
    ensures LatestRows(LatestRows(rows)) == LatestRows(rows)
  {
    LatestRowsAreStateItems(rows);
    KeptIdempotent(StateItems(rows));
  }

  /** The rows that open or refresh a non-collection event. */
  predicate OpensEvent(row: EventRow)
  {
    row.isBreach && row.eventType.Some? && row.eventType != Some(CollectionFailure)
  }

  /** Every surviving row targets an event and no two survivors share a key: no key is both breached and recovered. */
  lemma SurvivorsHaveOwnKeys(rows: seq<EventRow>)
    ensures forall row | row in LatestRows(rows) :: Targets(row)
    ensures forall p, q | 0 <= p < q < |LatestRows(rows)| && Targets(LatestRows(rows)[p])
            && Targets(LatestRows(rows)[q]) ::
              KeyOf(LatestRows(rows)[p]) != KeyOf(LatestRows(rows)[q])
  {
    var kept := Kept(StateItems(rows));
    LatestRowsAreStateItems(rows);
    forall p | 0 <= p < |kept|
      ensures Targets(LatestRows(rows)[p])
    {
      KeptAt(StateItems(rows), p);
      assert kept[p] == StateItem(LatestRows(rows)[p]);
    }
    forall p, q | 0 <= p < q < |kept| && Targets(LatestRows(rows)[p]) && Targets(LatestRows(rows)[q])
      ensures KeyOf(LatestRows(rows)[p]) != KeyOf(LatestRows(rows)[q])
    {
      NoKeyKeptTwice(StateItems(rows), p, q);
      assert kept[p] == StateItem(LatestRows(rows)[p]) && kept[q] == StateItem(LatestRows(rows)[q]);
    }
  }

  /** Two rows target the same event: they agree on its place and on its origin. */
  predicate SameTarget(a: EventRow, b: EventRow)
  {
    && TargetType(a).Some? && TargetType(a) == TargetType(b) && a.ci == b.ci && a.metric == b.metric
    && a.correlation == b.correlation && a.propagatedFrom == b.propagatedFrom
    && a.rootCauseEvent == b.rootCauseEvent && a.rootCauseCi == b.rootCauseCi
  }

  /** All other rows of the event are undated, or dated earlier, or come before it with the same date. */
  ghost predicate IsLatestRow(rows: seq<EventRow>, k: int)
  {
    && 0 <= k < |rows| && TargetType(rows[k]).Some?
    && forall j | 0 <= j < |rows| && j != k && SameTarget(rows[j], rows[k]) ::
         && (rows[k].observed.None? ==> rows[j].observed.None? && j < k)
         && (rows[k].observed.Some? && rows[j].observed.Some? ==>
               rows[j].observed.value < rows[k].observed.value
               || (rows[j].observed.value == rows[k].observed.value && j < k))
  }

  lemma LatestRowIff(rows: seq<EventRow>, k: nat)
    requires k < |rows| && Targets(rows[k])
    ensures IsLatest(StateItems(rows), |rows|, KeyOf(rows[k]), k) <==> IsLatestRow(rows, k)
  {
    var items := StateItems(rows);
    forall j | 0 <= j < |rows|
      ensures items[j].key == Some(KeyOf(rows[k])) <==> SameTarget(rows[j], rows[k])
    {
    }
  }

  /** The de-duplication leaves exactly the latest rows. */
  lemma LatestRowsExact(rows: seq<EventRow>, row: EventRow)
    ensures row in LatestRows(rows) <==> exists k :: IsLatestRow(rows, k) && rows[k] == row
  {
    if row in LatestRows(rows) {
      var p :| 0 <= p < |LatestRows(rows)| && LatestRows(rows)[p] == row;
      KeptAt(StateItems(rows), p);
      var k: nat :| k < |rows| && StateItems(rows)[k] == Kept(StateItems(rows))[p]
          && IsLatest(StateItems(rows), |rows|, Kept(StateItems(rows))[p].key.value, k);
      LatestRowIff(rows, k);
    }
    if k :| IsLatestRow(rows, k) && rows[k] == row {
      LatestRowIff(rows, k);
      LatestIsKept(StateItems(rows), k);
    }
  }

  lemma LatestIsKept(items: seq<Item<StateKey, EventRow>>, k: nat)
    requires k < |items| && items[k].key.Some? && IsLatest(items, |items|, items[k].key.value, k)
    ensures items[k].row in RowsOf(Kept(items))
  {
    EveryKeyKept(items, k);
    var p :| 0 <= p < |Kept(items)| && SameKey(items[k], Kept(items)[p]);
    KeptAt(items, p);
    assert RowsOf(Kept(items))[p] == items[k].row;
  }

  // ------------------------------------- the envelopes of one result share its key

  /** A polling result in a writer batch, with the latency its jitter is measured against. */
  datatype Polled = Polled(envelope: Envelope, previous: Option<real>)

  function PolledRows(polled: Polled, icmp: IcmpSettings): seq<EventRow>
  {
    BuildRows(EventEnvelopes(polled.envelope, icmp, polled.previous))
  }

  /** The rows a batch hands to the de-duplication, result by result. */
  function GroupsOf(batch: seq<Polled>, icmp: IcmpSettings): seq<seq<Item<Id, EventRow>>>
  {
    seq(|batch|, i requires 0 <= i < |batch| => KeyItems(PolledRows(batch[i], icmp)))
  }

  /** What is left of a batch once rows with one idempotency key are collapsed. */
  function Survivors(batch: seq<Polled>, icmp: IcmpSettings): seq<EventRow>
  {
    var items := Flatten(GroupsOf(batch, icmp), |batch|);
    RowsOf(Deduped(items, |items|))
  }

  /** The result queue holds one row per idempotency key. */
  ghost predicate KeysUnique(batch: seq<Polled>)
  {
    && (forall i | 0 <= i < |batch| :: batch[i].envelope.key.Some?)
    && (forall i, j | 0 <= i < j < |batch| :: batch[i].envelope.key != batch[j].envelope.key)
  }

  predicate EndsWithRow(rows: seq<EventRow>, row: EventRow)
  {
    rows != [] && rows[|rows| - 1] == row
  }

  lemma PolledRowsFacts(polled: Polled, icmp: IcmpSettings)
    ensures var e, rows := polled.envelope, PolledRows(polled, icmp);
      && (forall i | 0 <= i < |rows| :: rows[i].key == e.key && rows[i].observed == Some(e.observed))
      && if DerivedEnvelopes(e, icmp, polled.previous) == [] then rows ==
          if IsInternalAvailability(e) then [] else [BuildRow(e)]
         else rows != [] && rows[|rows| - 1].availabilitySource.None?
  {
    var e, rows := polled.envelope, PolledRows(polled, icmp);
    var derived, all := DerivedEnvelopes(e, icmp, polled.previous), EventEnvelopes(e, icmp, polled.previous);
    assert forall d | d in derived :: d.key == e.key && d.observed == e.observed && d.metadata.availabilitySource.None?;
    if derived != [] {
      assert all[|all| - 1] == derived[|derived| - 1];
      assert derived[|derived| - 1] in derived;
    }
  }

  lemma GroupsAreKeyed(batch: seq<Polled>, icmp: IcmpSettings) returns (keys: seq<Id>, times: seq<int>)
    requires KeysUnique(batch)
    ensures Keyed(GroupsOf(batch, icmp), keys, times)
    ensures forall i | 0 <= i < |batch| :: Some(keys[i]) == batch[i].envelope.key
  {
    keys := seq(|batch|, i requires 0 <= i < |batch| => batch[i].envelope.key.value);
    times := seq(|batch|, i requires 0 <= i < |batch| => batch[i].envelope.observed);
    forall i | 0 <= i < |batch|
      ensures AllHave(KeyItems(PolledRows(batch[i], icmp)), keys[i], times[i])
    {
      PolledRowsFacts(batch[i], icmp);
    }
  }

  /**
   Derived latency, jitter and packet-loss envelopes keep the key of the result
   they come from: of all the rows of a result only the last one survives.
   */
  lemma OneRowPerResult(batch: seq<Polled>, icmp: IcmpSettings, i: nat, row: EventRow)
    requires KeysUnique(batch) && i < |batch|
    ensures row in Survivors(batch, icmp) && row.key == batch[i].envelope.key
            <==> EndsWithRow(PolledRows(batch[i], icmp), row)
  {
    var keys, times := GroupsAreKeyed(batch, icmp);
    SurvivorOfGroup(GroupsOf(batch, icmp), keys, times, i, KeyItem(row));
    SurvivingRow(batch, icmp, row);
    EndsWithKeyItem(PolledRows(batch[i], icmp), row);
  }

  lemma SurvivingRow(batch: seq<Polled>, icmp: IcmpSettings, row: EventRow)
    requires KeysUnique(batch)
    ensures var items := Flatten(GroupsOf(batch, icmp), |batch|);
      row in Survivors(batch, icmp) <==> KeyItem(row) in Deduped(items, |items|)
  {
    var items := Flatten(GroupsOf(batch, icmp), |batch|);
    var kept := Deduped(items, |items|);
    if row in Survivors(batch, icmp) {
      var p :| 0 <= p < |kept| && kept[p].row == row;
      SurvivorIsKeyItem(batch, icmp, kept[p]);
    }
    if KeyItem(row) in kept {
      var p :| 0 <= p < |kept| && kept[p] == KeyItem(row);
      assert Survivors(batch, icmp)[p] == row;
    }
  }

  lemma EndsWithKeyItem(rows: seq<EventRow>, row: EventRow)
    ensures EndsWith(KeyItems(rows), KeyItem(row)) <==> EndsWithRow(rows, row)
  {
    if rows != [] {
      assert LastOf(KeyItems(rows)) == [KeyItem(rows[|rows| - 1])];
    }
  }

  lemma SurvivorIsKeyItem(batch: seq<Polled>, icmp: IcmpSettings, item: Item<Id, EventRow>)
    requires KeysUnique(batch)
    requires var items := Flatten(GroupsOf(batch, icmp), |batch|); item in Deduped(items, |items|)
    ensures item == KeyItem(item.row)
  {
    var j := GroupOfSurvivor(batch, icmp, item);
    KeyItemOfItsRow(PolledRows(batch[j], icmp), item);
  }

  lemma GroupOfSurvivor(batch: seq<Polled>, icmp: IcmpSettings, item: Item<Id, EventRow>) returns (j: nat)
    requires KeysUnique(batch)
    requires var items := Flatten(GroupsOf(batch, icmp), |batch|); item in Deduped(items, |items|)
    ensures j < |batch| && item in KeyItems(PolledRows(batch[j], icmp))
  {
    var keys, times := GroupsAreKeyed(batch, icmp);
    GroupsCollapse(GroupsOf(batch, icmp), keys, times, |batch|);
    LastOfEachExact(GroupsOf(batch, icmp), |batch|, item);
    j :| j < |batch| && EndsWith(GroupsOf(batch, icmp)[j], item);
  }

  lemma KeyItemOfItsRow(rows: seq<EventRow>, item: Item<Id, EventRow>)
    requires item in KeyItems(rows)
    ensures item == KeyItem(item.row)
  {
  }

  /** Neither a latency nor a loss is reported for the result. */
  predicate NothingReported(e: Envelope, icmp: IcmpSettings)
  {
    && e.metadata.latency.None?
    && (IcmpPacketLoss in e.metadata.sidecars && e.numeric.Some? ==>
          var loss := if e.numeric.value > 0.0 then 0.0 else 100.0; loss < icmp.lossWarning && loss < icmp.lossCritical)
  }

  /** A regular host check whose own row is its last one. */
  predicate ChecksHost(e: Envelope, icmp: IcmpSettings)
  {
    && IsAvailability(e) && IsCollected(e) && e.numeric.Some? && NothingReported(e, icmp)
    && !(e.metric == IcmpAvailability && e.metadata.internal)
  }

  lemma LastRowTarget(polled: Polled, icmp: IcmpSettings, row: EventRow)
    ensures EndsWithRow(PolledRows(polled, icmp), row) && TargetType(row) == Some(Availability) <==>
              ChecksHost(polled.envelope, icmp) && row == BuildRow(polled.envelope)
  {
    PolledRowsFacts(polled, icmp);
    TargetIff(polled.envelope);
  }

  /**
   A polled result opens an AVAILABILITY event exactly when it is a regular check of a host
   that is down, and recovers one when the host is up, provided that no latency, jitter or
   packet-loss envelope was derived from it.
   */
  lemma AvailabilityReachesStoreIffNothingDerived(batch: seq<Polled>, icmp: IcmpSettings, i: nat)
    requires KeysUnique(batch) && i < |batch|
    ensures var e := batch[i].envelope;
            (exists row :: row in Survivors(batch, icmp) && row.key == e.key
                && row.eventType == Some(Availability)) <==>
            ChecksHost(e, icmp) && e.numeric == Some(0.0)
    ensures var e := batch[i].envelope;
            (exists row ::
               row in Survivors(batch, icmp) && row.key == e.key && TargetType(row) == Some(Availability)
                   && !row.isBreach) <==>
            ChecksHost(e, icmp) && e.numeric != Some(0.0)
  {
    var e := batch[i].envelope;
    AvailabilityBreachIff(e);
    RecoveryIff(e);
    forall row
      ensures row in Survivors(batch, icmp) && row.key == e.key && TargetType(row) == Some(Availability) <==>
                ChecksHost(e, icmp) && row == BuildRow(e)
    {
      AvailabilityRowIff(batch, icmp, i, row);
    }
  }

  lemma AvailabilityRowIff(batch: seq<Polled>, icmp: IcmpSettings, i: nat, row: EventRow)
    requires KeysUnique(batch) && i < |batch|
    ensures row in Survivors(batch, icmp) && row.key == batch[i].envelope.key
            && TargetType(row) == Some(Availability) <==>
              ChecksHost(batch[i].envelope, icmp) && row == BuildRow(batch[i].envelope)
  {
    OneRowPerResult(batch, icmp, i, row);
    LastRowTarget(batch[i], icmp, row);
  }

  /**
   A host that is down and measures packet loss opens no AVAILABILITY event, and a
   host that answers with a latency recovers none, whatever else is in the batch.
   */
  lemma MeasuredHostLosesAvailability(batch: seq<Polled>, icmp: IcmpSettings, i: nat, row: EventRow)
    requires KeysUnique(batch) && i < |batch|
    requires var e := batch[i].envelope;
      || e.metadata.latency.Some?
      || (e.numeric == Some(0.0) && IcmpPacketLoss in e.metadata.sidecars && icmp.lossWarning <= 100.0)
    requires row in Survivors(batch, icmp) && row.key == batch[i].envelope.key
    ensures TargetType(row) != Some(Availability)
  {
    AvailabilityRowIff(batch, icmp, i, row);
  }

  // ------------------------------------------------------------------ one batch

  /** Of the latest states, the breaches. */
  function Opening(states: seq<EventRow>): seq<EventRow>
  {
    if states == [] then []
    else
      var last := states[|states| - 1];
      Opening(states[..|states| - 1]) + if OpensEvent(last) then [last] else []
  }

  /** A row that is alone in its batch is its own latest state. */
  lemma LatestOfOne(row: EventRow)
    ensures LatestRows([row]) == if Targets(row) then [row] else []
    ensures Opening(LatestRows([row])) == if Targets(row) && OpensEvent(row) then [row] else []
  {
    var items := StateItems([row]);
    assert items == [StateItem(row)];
    assert Entries(items, 0) == [];
    assert Entries(items, 1) == if Targets(row) then [Entry(KeyOf(row), 0)] else [];
    if Targets(row) {
      assert LatestRows([row]) == [row];
      assert [row][..0] == [];
    }
  }

  /**
   The result of a host check alone: it reaches the statements as a breach if the host is
   down, and else as a recovery.
   */
  lemma HostCheckAlone(polled: Polled, icmp: IcmpSettings)
    requires ChecksHost(polled.envelope, icmp)
    ensures var row, rows := BuildRow(polled.envelope), Survivors([polled], icmp);
            && rows == [row] && LatestRows(rows) == [row]
            && Opening(LatestRows(rows)) == if polled.envelope.numeric == Some(0.0) then [row] else []
  {
    var row, groups := BuildRow(polled.envelope), GroupsOf([polled], icmp);
    PolledRowsFacts(polled, icmp);
    assert PolledRows(polled, icmp) == [row];
    assert KeyItems([row]) == [KeyItem(row)];
    assert groups == [[KeyItem(row)]];
    assert Flatten(groups, 0) == [];
    assert Flatten(groups, 1) == [KeyItem(row)];
    assert Deduped([KeyItem(row)], 0) == [];
    assert Survivors([polled], icmp) == [row];
    LatestOfOne(row);
    AvailabilityBreachIff(polled.envelope);
    TargetIff(polled.envelope);
  }

  /** The rows that the collapse of idempotent rows leaves of some envelopes. */
  function CollapsedRows(envelopes: seq<Envelope>): seq<EventRow>
  {
    var items := KeyItems(BuildRows(envelopes));
    RowsOf(Deduped(items, |items|))
  }

  /** The rows that a batch of envelopes leaves for the metric and the event statements. */
  method PrepareBatch(envelopes: seq<Envelope>)
    returns (rows: seq<EventRow>, metrics: seq<EventRow>, states: seq<EventRow>, opening: seq<EventRow>)
    ensures rows == CollapsedRows(envelopes)
    ensures metrics == RowsOf(Current(StateItems(rows), |rows|))
    ensures states == LatestRows(rows)
    ensures opening == Opening(LatestRows(states)) == Opening(states)
  {
    var collapsed := DedupeIdempotent(KeyItems(BuildRows(envelopes)));
    rows := RowsOf(collapsed);
    var current := KeepCurrent(StateItems(rows));
    metrics := RowsOf(current);
    var kept := Dedupe(StateItems(rows));
    states := RowsOf(kept);
    LatestRowsIdempotent(rows);
    var again := Dedupe(StateItems(states));
    opening := Opening(RowsOf(again));
  }

  /** A metric row is left out exactly when a later state of the same event is in the batch. */
  lemma MetricRowsExact(rows: seq<EventRow>, i: nat)
    requires i < |rows|
    ensures IsCurrent(StateItems(rows), i) <==> TargetType(rows[i]).None? || IsLatestRow(rows, i)
  {
    if Targets(rows[i]) {
      CurrentIffLatest(StateItems(rows), i);
      LatestRowIff(rows, i);
    }
  }

  /** No envelope with the same idempotency key was observed later, or at the same time and comes after it. */
  ghost predicate IsNewest(envelopes: seq<Envelope>, i: int)
  {
    && 0 <= i < |envelopes|
    && (envelopes[i].key.Some? ==>
          forall j | 0 <= j < |envelopes| && envelopes[j].key == envelopes[i].key ::
            && envelopes[j].observed <= envelopes[i].observed
            && (envelopes[j].observed == envelopes[i].observed ==> j <= i))
  }

  /** Of the envelopes with one idempotency key the newest has its row left, and those without a key all have. */
  lemma CollapsedExact(envelopes: seq<Envelope>, row: EventRow)
    ensures row in CollapsedRows(envelopes) <==> exists i :: IsNewest(envelopes, i) && BuildRow(envelopes[i]) == row
  {
    var items := KeyItems(BuildRows(envelopes));
    var result := Deduped(items, |items|);
    DedupedExact(items);
    if row in CollapsedRows(envelopes) {
      var p :| 0 <= p < |result| && result[p].row == row;
      var i := PlaceHasOwner(items, |items|, p);
      if items[i].key.None? {
        assert IsNewest(envelopes, i);
      } else {
        var k: nat :| IsKept(items, |items|, items[i].key.value, k) && result[p] == items[k];
        DatedItemsKeepLastMaximum(items, items[i].key.value, k);
        assert IsNewest(envelopes, k) by {
          NewestByItems(envelopes, k);
        }
      }
    }
    if i :| IsNewest(envelopes, i) && BuildRow(envelopes[i]) == row {
      NewestIsLeft(envelopes, i);
    }
  }

  lemma NewestByItems(envelopes: seq<Envelope>, k: nat)
    requires k < |envelopes| && envelopes[k].key.Some?
    requires var items := KeyItems(BuildRows(envelopes));
             forall j | 0 <= j < |items| && items[j].key == items[k].key ::
               items[j].time.Some? && items[k].time.Some? && items[j].time.value <= items[k].time.value
               && (items[j].time.value == items[k].time.value ==> j <= k)
    ensures IsNewest(envelopes, k)
  {
    var items := KeyItems(BuildRows(envelopes));
    forall j | 0 <= j < |envelopes|
      ensures items[j].key == envelopes[j].key && items[j].time == Some(envelopes[j].observed)
    {
    }
  }

  lemma NewestIsLeft(envelopes: seq<Envelope>, i: nat)
    requires IsNewest(envelopes, i)
    ensures BuildRow(envelopes[i]) in CollapsedRows(envelopes)
  {
    var items := KeyItems(BuildRows(envelopes));
    var result := Deduped(items, |items|);
    DedupedExact(items);
    if items[i].key.None? {
      assert OwnsPlace(items, i);
      assert CollapsedRows(envelopes)[Places(items, i)] == BuildRow(envelopes[i]);
    } else {
      var first := Find(items, items[i].key.value);
      assert OwnsPlace(items, first);
      var k: nat :| IsKept(items, |items|, items[i].key.value, k) && result[Places(items, first)] == items[k];
      KeptIsNewest(envelopes, i, k);
      assert CollapsedRows(envelopes)[Places(items, first)] == items[k].row;
    }
  }

  lemma KeptIsNewest(envelopes: seq<Envelope>, i: nat, k: nat)
    requires IsNewest(envelopes, i) && envelopes[i].key.Some?
    requires var items := KeyItems(BuildRows(envelopes)); IsKept(items, |items|, envelopes[i].key.value, k)
    ensures i == k
  {
    var items := KeyItems(BuildRows(envelopes));
    DatedItemsKeepLastMaximum(items, envelopes[i].key.value, k);
    assert items[i].key == envelopes[i].key && items[i].time == Some(envelopes[i].observed);
    assert items[k].key == envelopes[k].key && items[k].time == Some(envelopes[k].observed);
  }

  /** The breach rows of a batch all have different state keys. */
  lemma {:induction false} OpeningHasOwnKeys(states: seq<EventRow>)
    requires forall row | row in states :: Targets(row)
    requires forall p, q | 0 <= p < q < |states| ::
             Targets(states[p]) && Targets(states[q]) && KeyOf(states[p]) != KeyOf(states[q])
    ensures forall row | row in Opening(states) :: row in states && OpensEvent(row)
    ensures forall p, q | 0 <= p < q < |Opening(states)| :: Opening(states)[p] != Opening(states)[q]
    ensures forall row | row in states && OpensEvent(row) :: row in Opening(states)
  {
    if states != [] {
      OpeningHasOwnKeys(states[..|states| - 1]);
    }
  }
}
