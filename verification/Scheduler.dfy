/**
 Expansion of due metric definitions into polling tasks (backend/polling/scheduler.py,
 backend/polling/icmp_measurements.py): ICMP telemetry is never polled itself, but where
 nothing else checks the availability of its source, one internal check is added.
 */
module Scheduler {
  import opened Base
  import opened Envelopes

  datatype Kind = AvailabilityKind | TelemetryKind | OtherKind

  /** The metric identifiers with a meaning of their own; identifiers are numbered in string order. */
  datatype Catalog = Catalog(sidecars: set<Id>, pings: set<Id>, pingChecks: set<Id>, availability: Id)

  /** `payloadValid` says whether the fields that the payload of another protocol requires are there. */
  datatype Record = Record(
    protocol: Option<Protocol>, ci: Option<Id>, metric: Option<Id>, kind: Kind, criticality: int,
    ip: Option<Id>, ipAddress: Option<Id>, source: Option<Id>, otherSource: Option<Id>, payloadValid: bool,
        internal: bool)

  datatype Task = Task(ci: Id, metric: Id, protocol: Protocol, priority: nat, source: Option<Id>, internal: bool)

  datatype Key = Key(ci: Id, source: Option<Id>)

  datatype Outcome = Built(tasks: seq<Task>) | Rejected

  // ----------------------------------------------------------------- what a record means

  predicate IsTelemetry(catalog: Catalog, metric: Id, kind: Kind)
  {
    metric in catalog.sidecars || kind == TelemetryKind
  }

  predicate IsAvailability(catalog: Catalog, metric: Id, kind: Kind)
  {
    !IsTelemetry(catalog, metric, kind) && (kind == AvailabilityKind || metric in catalog.pings)
  }

  function SourceOf(record: Record, protocol: Protocol): Option<Id>
  {
    if protocol == ICMP then Coalesce(record.ip, Coalesce(record.ipAddress, record.source)) else record.otherSource
  }

  function PriorityOf(catalog: Catalog, metric: Id, criticality: int, protocol: Protocol): nat
  {
    if protocol == ICMP || metric in catalog.pingChecks then 0 else if criticality >= 3 then 10 else 50
  }

  predicate IsNamed(record: Record)
  {
    record.protocol.Some? && record.ci.Some? && record.metric.Some?
  }

  /** A telemetry record of the ICMP protocol: derived, not polled. */
  predicate IsSidecar(catalog: Catalog, record: Record)
  {
    IsNamed(record) && record.protocol.value == ICMP && IsTelemetry(catalog, record.metric.value, record.kind)
  }

  predicate HasPayload(record: Record)
    requires IsNamed(record)
  {
    if record.protocol.value == ICMP then record.ip.Some? else record.payloadValid
  }

  predicate Acceptable(catalog: Catalog, record: Record)
  {
    IsNamed(record) && (IsSidecar(catalog, record) || HasPayload(record))
  }

  function TaskFor(catalog: Catalog, record: Record): Task
    requires IsNamed(record)
  {
    var protocol := record.protocol.value;
    Task(record.ci.value, record.metric.value, protocol,
         PriorityOf(catalog, record.metric.value, record.criticality, protocol), SourceOf(record, protocol),
             record.internal)
  }

  function KeyFor(record: Record): Key
    requires IsNamed(record)
  {
    Key(record.ci.value, SourceOf(record, record.protocol.value))
  }

  /** The availability check that stands in for a telemetry record. */
  function Synthetic(catalog: Catalog, record: Record): Record
    requires IsNamed(record)
  {
    record.(metric := Some(catalog.availability), kind := AvailabilityKind, internal := true,
        ip := Coalesce(record.ip, record.ipAddress))
  }

  predicate HasAddress(record: Record)
  {
    record.ip.Some? || record.ipAddress.Some?
  }

  /** The synthesized task has the source that its telemetry record was filed under, and can be built. */
  lemma SyntheticKeepsSource(catalog: Catalog, record: Record)
    requires IsSidecar(catalog, record) && HasAddress(record)
    ensures Acceptable(catalog, Synthetic(catalog, record)) && KeyFor(Synthetic(catalog, record)) == KeyFor(record)
    ensures TaskFor(catalog, Synthetic(catalog, record))
            == Task(record.ci.value, catalog.availability, ICMP, 0, KeyFor(record).source, true)
  {
  }

  // ------------------------------------------------------------------- the specification

  /** Tasks of the first `n` records that are polled themselves. */
  function Direct(catalog: Catalog, records: seq<Record>, n: nat): seq<Task>
    requires n <= |records| && forall record | record in records :: IsNamed(record)
  {
    if n == 0 then []
    else
      var last := records[n - 1];
      Direct(catalog, records, n - 1) + if IsSidecar(catalog, last) then [] else [TaskFor(catalog, last)]
  }

  /** The keys of the addressed telemetry records, each once, in order of first appearance. */
  function SidecarKeys(catalog: Catalog, records: seq<Record>, n: nat): seq<Key>
    requires n <= |records| && forall record | record in records :: IsNamed(record)
  {
    if n == 0 then []
    else
      var before := SidecarKeys(catalog, records, n - 1);
      var record := records[n - 1];
      if IsSidecar(catalog, record) && HasAddress(record)
          && KeyFor(record) !in before then before + [KeyFor(record)] else before
  }

  predicate IsCheck(catalog: Catalog, record: Record)
  {
    IsNamed(record) && record.protocol.value == ICMP && IsAvailability(catalog, record.metric.value, record.kind)
  }

  /** The keys that some record checks for availability. */
  function CheckedKeys(catalog: Catalog, records: seq<Record>): set<Key>
    requires forall record | record in records :: IsNamed(record)
  {
    set record | record in records && IsCheck(catalog, record) :: KeyFor(record)
  }

  function InternalTask(catalog: Catalog, key: Key): Task
  {
    Task(key.ci, catalog.availability, ICMP, 0, key.source, true)
  }

  /** One internal check for each key that nothing checks. */
  function Added(catalog: Catalog, keys: seq<Key>, checked: set<Key>): seq<Task>
  {
    if keys == [] then []
    else
      var last := keys[|keys| - 1];
      Added(catalog, keys[..|keys| - 1], checked) + if last in checked then [] else [InternalTask(catalog, last)]
  }

  function ProtocolRank(protocol: Protocol): nat
  {
    match protocol
    case CLI => 0
    case ICMP => 1
    case MqttStub => 2
    case REST => 3
    case SNMP => 4
  }

  /** The key that polling tasks are sorted by. */
  predicate Before(a: Task, b: Task)
  {
    || a.priority < b.priority
    || (a.priority == b.priority
        && (ProtocolRank(a.protocol) < ProtocolRank(b.protocol) || (a.protocol == b.protocol && a.metric < b.metric)))
  }

  predicate Ordered(tasks: seq<Task>)
  {
    forall i, j | 0 <= i < j < |tasks| :: !Before(tasks[j], tasks[i])
  }

  /** Puts a task behind all those that do not come after it. */
  function Place(sorted: seq<Task>, task: Task): seq<Task>
  {
    if sorted == [] || !Before(task, sorted[|sorted| - 1]) then sorted + [task]
    else Place(sorted[..|sorted| - 1], task) + [sorted[|sorted| - 1]]
  }

  function StableSort(tasks: seq<Task>): seq<Task>
  {
    if tasks == [] then [] else Place(StableSort(tasks[..|tasks| - 1]), tasks[|tasks| - 1])
  }

  // ------------------------------------------------------------------- sorting is sound

  lemma {:induction false} PlaceHolds(sorted: seq<Task>, task: Task)
    ensures multiset(Place(sorted, task)) == multiset(sorted) + multiset{task}
  {
    if sorted != [] && Before(task, sorted[|sorted| - 1]) {
      var last := |sorted| - 1;
      PlaceHolds(sorted[..last], task);
      assert sorted == sorted[..last] + [sorted[last]];
    }
  }

  lemma {:induction false} PlaceKeepsOrder(sorted: seq<Task>, task: Task)
    requires Ordered(sorted)
    ensures Ordered(Place(sorted, task))
    ensures forall x | x in Place(sorted, task) :: x in sorted || x == task
  {
    if sorted != [] && Before(task, sorted[|sorted| - 1]) {
      var last := |sorted| - 1;
      PlaceKeepsOrder(sorted[..last], task);
      var front := Place(sorted[..last], task);
      forall i | 0 <= i < |front|
        ensures !Before(sorted[last], front[i])
      {
        assert front[i] in front;
      }
    }
  }

  lemma {:induction false} SortIsSound(tasks: seq<Task>)
    ensures Ordered(StableSort(tasks)) && multiset(StableSort(tasks)) == multiset(tasks)
            && |StableSort(tasks)| == |tasks|
  {
    if tasks != [] {
      var last := |tasks| - 1;
      SortIsSound(tasks[..last]);
      PlaceKeepsOrder(StableSort(tasks[..last]), tasks[last]);
      PlaceHolds(StableSort(tasks[..last]), tasks[last]);
      assert tasks == tasks[..last] + [tasks[last]];
      assert |multiset(StableSort(tasks))| == |multiset(tasks)|;
    }
  }

  /** Tasks that compare equal keep their order. */
  function Alike(tasks: seq<Task>, like: Task): seq<Task>
  {
    if tasks == [] then []
    else
      var last := tasks[|tasks| - 1];
      Alike(tasks[..|tasks| - 1], like) + if Before(last, like) || Before(like, last) then [] else [last]
  }

  lemma AlikeAppended(tasks: seq<Task>, task: Task, like: Task)
    ensures Alike(tasks + [task], like) == Alike(tasks, like) + if Before(task, like)
            || Before(like, task) then [] else [task]
  {
    assert (tasks + [task])[..|tasks|] == tasks;
  }

  lemma {:induction false} PlaceIsStable(sorted: seq<Task>, task: Task, like: Task)
    requires Ordered(sorted)
    ensures Alike(Place(sorted, task), like) == Alike(sorted, like) + if Before(task, like)
            || Before(like, task) then [] else [task]
  {
    if sorted == [] || !Before(task, sorted[|sorted| - 1]) {
      AlikeAppended(sorted, task, like);
    } else {
      var last := |sorted| - 1;
      PlaceIsStable(sorted[..last], task, like);
      AlikeAppended(Place(sorted[..last], task), sorted[last], like);
    }
  }

  lemma {:induction false} SortIsStable(tasks: seq<Task>, like: Task)
    ensures Alike(StableSort(tasks), like) == Alike(tasks, like)
  {
    if tasks != [] {
      var last := |tasks| - 1;
      SortIsStable(tasks[..last], like);
      SortIsSound(tasks[..last]);
      PlaceIsStable(StableSort(tasks[..last]), tasks[last], like);
    }
  }

  // ------------------------------------------------------------------------- the program

  lemma {:induction false} DirectOfPrefix(catalog: Catalog, a: seq<Record>, b: seq<Record>, n: nat)
    requires n <= |a| && n <= |b| && a[..n] == b[..n]
    requires forall record | record in a :: IsNamed(record)
    requires forall record | record in b :: IsNamed(record)
    ensures Direct(catalog, a, n) == Direct(catalog, b, n) && SidecarKeys(catalog, a, n) == SidecarKeys(catalog, b, n)
  {
    if n != 0 {
      assert a[n - 1] == a[..n][n - 1] && a[..n - 1] == a[..n][..n - 1] && b[..n - 1] == b[..n][..n - 1];
      DirectOfPrefix(catalog, a, b, n - 1);
    }
  }

  /** What the first `i` records yield does not depend on the next one. */
  lemma PrefixesAgree(catalog: Catalog, records: seq<Record>, i: nat)
    requires i < |records| && forall j | 0 <= j <= i :: IsNamed(records[j])
    ensures Direct(catalog, records[..i + 1], i) == Direct(catalog, records[..i], i)
    ensures SidecarKeys(catalog, records[..i + 1], i) == SidecarKeys(catalog, records[..i], i)
  {
    DirectOfPrefix(catalog, records[..i + 1], records[..i], i);
  }

  /** Builds one task, or fails as the payload builder does. */
  method AddTask(catalog: Catalog, record: Record, tasks: seq<Task>) returns (ok: bool, longer: seq<Task>)
    requires IsNamed(record)
    ensures ok == HasPayload(record)
    ensures longer == if ok then tasks + [TaskFor(catalog, record)] else tasks
  {
    ok := HasPayload(record);
    longer := if ok then tasks + [TaskFor(catalog, record)] else tasks;
  }

  /** The telemetry records kept so far: the first one of each key, in order. */
  ghost predicate Filed(catalog: Catalog, keys: seq<Key>, filed: map<Key, Record>)
  {
    forall key | key in keys ::
        key in filed && IsSidecar(catalog, filed[key]) && HasAddress(filed[key]) && KeyFor(filed[key]) == key
  }

  /** Goes through the records once; the first unacceptable one ends it. */
  method Expand(catalog: Catalog, records: seq<Record>)
    returns (ok: bool, tasks: seq<Task>, keys: seq<Key>, filed: map<Key, Record>, checked: set<Key>)
    ensures ok <==> forall record | record in records :: Acceptable(catalog, record)
    ensures ok ==> (forall record | record in records :: IsNamed(record))
    ensures ok ==> tasks == Direct(catalog, records, |records|) && keys == SidecarKeys(catalog, records, |records|)
    ensures ok ==> checked == CheckedKeys(catalog, records) && Filed(catalog, keys, filed)
  {
    ok, tasks, keys, filed, checked := true, [], [], map[], {};
    var i := 0;
    while i < |records|
      invariant 0 <= i <= |records| && ok
      invariant forall j | 0 <= j < i :: Acceptable(catalog, records[j])
      invariant tasks == Direct(catalog, records[..i], i) && keys == SidecarKeys(catalog, records[..i], i)
      invariant forall key :: key in checked <==> exists j ::
                0 <= j < i && IsCheck(catalog, records[j]) && KeyFor(records[j]) == key
      invariant Filed(catalog, keys, filed)
    {
      var record := records[i];
      if !IsNamed(record) {
        assert !Acceptable(catalog, records[i]);
        ok := false;
        return;
      }
      PrefixesAgree(catalog, records, i);
      var key := KeyFor(record);
      if IsSidecar(catalog, record) {
        if HasAddress(record) && key !in keys {
          filed := filed[key := record];
          keys := keys + [key];
        }
      } else {
        if IsCheck(catalog, record) {
          checked := checked + {key};
        }
        ok, tasks := AddTask(catalog, record, tasks);
        if !ok {
          assert !Acceptable(catalog, records[i]);
          return;
        }
      }
      i := i + 1;
    }
    assert records[..i] == records;
    assert checked == CheckedKeys(catalog, records);
  }

  /** One internal task for every filed key that is not checked. */
  method AddInternalTasks(catalog: Catalog, keys: seq<Key>, filed: map<Key, Record>, checked: set<Key>,
      tasks: seq<Task>) returns (longer: seq<Task>)
    requires Filed(catalog, keys, filed)
    ensures longer == tasks + Added(catalog, keys, checked)
  {
    longer := tasks;
    var i := 0;
    while i < |keys|
      invariant 0 <= i <= |keys|
      invariant longer == tasks + Added(catalog, keys[..i], checked)
    {
      assert keys[..i + 1][..i] == keys[..i] && keys[i] in keys;
      if keys[i] !in checked {
        var synthetic := Synthetic(catalog, filed[keys[i]]);
        SyntheticKeepsSource(catalog, filed[keys[i]]);
        var ok;
        ok, longer := AddTask(catalog, synthetic, longer);
      }
      i := i + 1;
    }
    assert keys[..i] == keys;
  }

  /** Rejects the records if one of them is unacceptable, and otherwise builds and sorts their tasks. */
  method BuildTasks(catalog: Catalog, records: seq<Record>) returns (outcome: Outcome)
    ensures outcome.Built? <==>
              forall record | record in records ::
                && record.protocol.Some? && record.ci.Some? && record.metric.Some?
                && (record.protocol == Some(ICMP) ==>
                      record.ip.Some? || record.kind == TelemetryKind || record.metric.value in catalog.sidecars)
                && (record.protocol != Some(ICMP) ==> record.payloadValid)
    ensures outcome.Built? ==>
              && (forall record | record in records :: IsNamed(record))
              && outcome.tasks == Schedule(catalog, records)
  {
    var ok, tasks, keys, filed, checked := Expand(catalog, records);
    if !ok {
      return Rejected;
    }
    tasks := AddInternalTasks(catalog, keys, filed, checked, tasks);
    return Built(StableSort(tasks));
  }

  // --------------------------------------------------------- what a schedule looks like

  function Polled(catalog: Catalog, records: seq<Record>, n: nat): nat
    requires n <= |records|
  {
    if n == 0 then 0 else Polled(catalog, records, n - 1) + if IsSidecar(catalog, records[n - 1]) then 0 else 1
  }

  lemma {:induction false} DirectTasks(catalog: Catalog, records: seq<Record>, n: nat, task: Task)
    requires n <= |records| && forall record | record in records :: IsNamed(record)
    ensures |Direct(catalog, records, n)| == Polled(catalog, records, n)
    ensures task in Direct(catalog, records, n) <==>
              exists i :: 0 <= i < n && !IsSidecar(catalog, records[i]) && TaskFor(catalog, records[i]) == task
  {
    if n != 0 {
      DirectTasks(catalog, records, n - 1, task);
    }
  }

  /** A key is filed once if some addressed telemetry record has it, and not otherwise. */
  lemma {:induction false} SidecarKeysExact(catalog: Catalog, records: seq<Record>, n: nat, key: Key)
    requires n <= |records| && forall record | record in records :: IsNamed(record)
    ensures key in SidecarKeys(catalog, records, n) <==>
              exists i :: 0 <= i < n && IsSidecar(catalog, records[i]) && HasAddress(records[i])
                  && KeyFor(records[i]) == key
    ensures multiset(SidecarKeys(catalog, records, n))[key] <= 1
  {
    if n != 0 {
      SidecarKeysExact(catalog, records, n - 1, key);
    }
  }

  /** Each unchecked key gets its task as often as it is filed. */
  lemma {:induction false} AddedCount(catalog: Catalog, keys: seq<Key>, checked: set<Key>, key: Key)
    ensures multiset(Added(catalog, keys, checked))[InternalTask(catalog, key)] ==
            if key in checked then 0 else multiset(keys)[key]
  {
    if keys != [] {
      var front, last := keys[..|keys| - 1], keys[|keys| - 1];
      AddedCount(catalog, front, checked, key);
      assert keys == front + [last];
    }
  }

  /** Nothing else is added, and each unchecked key once per filing. */
  lemma {:induction false} AddedOrigin(catalog: Catalog, keys: seq<Key>, checked: set<Key>, task: Task)
    ensures task in Added(catalog, keys, checked) ==> exists k ::
            k in keys && k !in checked && task == InternalTask(catalog, k)
    ensures |Added(catalog, keys, checked)| == Unchecked(keys, checked)
  {
    if keys != [] {
      var front, last := keys[..|keys| - 1], keys[|keys| - 1];
      AddedOrigin(catalog, front, checked, task);
      assert last in keys;
      if task in Added(catalog, front, checked) {
        var k :| k in front && k !in checked && task == InternalTask(catalog, k);
        assert k in keys;
      }
    }
  }

  function Unchecked(keys: seq<Key>, checked: set<Key>): nat
  {
    if keys == [] then 0 else Unchecked(keys[..|keys| - 1], checked) + if keys[|keys| - 1] in checked then 0 else 1
  }

  /** The schedule of acceptable records, as a specification. */
  function Schedule(catalog: Catalog, records: seq<Record>): seq<Task>
    requires forall record | record in records :: IsNamed(record)
  {
    StableSort(Direct(catalog, records, |records|)
        + Added(catalog, SidecarKeys(catalog, records, |records|), CheckedKeys(catalog, records)))
  }

  /** A key has an addressed telemetry record and no record that checks its availability. */
  ghost predicate NeedsCheck(catalog: Catalog, records: seq<Record>, key: Key)
  {
    && (exists i ::
          0 <= i < |records| && IsSidecar(catalog, records[i]) && HasAddress(records[i]) && KeyFor(records[i]) == key)
    && (forall i | 0 <= i < |records| && IsCheck(catalog, records[i]) :: KeyFor(records[i]) != key)
  }

  lemma ScheduleMembers(catalog: Catalog, records: seq<Record>, task: Task)
    requires forall record | record in records :: IsNamed(record)
    ensures task in Schedule(catalog, records) <==>
              || (exists i ::
                    0 <= i < |records| && !IsSidecar(catalog, records[i]) && TaskFor(catalog, records[i]) == task)
              || (exists key :: NeedsCheck(catalog, records, key) && InternalTask(catalog, key) == task)
    ensures |Schedule(catalog, records)| ==
              Polled(catalog, records, |records|)
                  + Unchecked(SidecarKeys(catalog, records, |records|), CheckedKeys(catalog, records))
    ensures Ordered(Schedule(catalog, records))
  {
    var direct := Direct(catalog, records, |records|);
    var keys := SidecarKeys(catalog, records, |records|);
    var checked := CheckedKeys(catalog, records);
    var all := direct + Added(catalog, keys, checked);
    SortIsSound(all);
    SameMembers(all, StableSort(all), task);
    DirectTasks(catalog, records, |records|, task);
    AddedCount(catalog, keys, checked, Key(task.ci, task.source));
    AddedOrigin(catalog, keys, checked, task);
    forall key
      ensures key in keys && key !in checked <==> NeedsCheck(catalog, records, key)
    {
      NeedsCheckExact(catalog, records, key);
    }
    if key :| NeedsCheck(catalog, records, key) && InternalTask(catalog, key) == task {
      assert key == Key(task.ci, task.source) && multiset(keys)[key] > 0;
    }
  }

  lemma SameMembers(a: seq<Task>, b: seq<Task>, task: Task)
    requires multiset(a) == multiset(b)
    ensures task in a <==> task in b
  {
    assert task in a <==> task in multiset(a);
    assert task in b <==> task in multiset(b);
  }

  lemma NeedsCheckExact(catalog: Catalog, records: seq<Record>, key: Key)
    requires forall record | record in records :: IsNamed(record)
    ensures key in SidecarKeys(catalog, records, |records|) && key !in CheckedKeys(catalog, records)
            <==> NeedsCheck(catalog, records, key)
  {
    SidecarKeysExact(catalog, records, |records|, key);
    if key in CheckedKeys(catalog, records) {
      var record :| record in records && IsCheck(catalog, record) && KeyFor(record) == key;
      var i :| 0 <= i < |records| && records[i] == record;
      assert IsCheck(catalog, records[i]) && KeyFor(records[i]) == key;
    }
  }

  /** Each key that needs a check gets exactly one internal availability task, and a key that does not gets none. */
  lemma OneCheckPerKey(catalog: Catalog, records: seq<Record>, key: Key)
    requires forall record | record in records :: IsNamed(record)
    ensures multiset(Added(catalog, SidecarKeys(catalog, records, |records|),
            CheckedKeys(catalog, records)))[InternalTask(catalog, key)]
            == if NeedsCheck(catalog, records, key) then 1 else 0
  {
    var keys := SidecarKeys(catalog, records, |records|);
    AddedCount(catalog, keys, CheckedKeys(catalog, records), key);
    SidecarKeysExact(catalog, records, |records|, key);
    NeedsCheckExact(catalog, records, key);
    assert key in keys <==> multiset(keys)[key] > 0;
  }

  // ------------------------------------------------ the schedule in terms of the records

  /** Where a record is polled from: the first address that it has, or the source of another protocol. */
  predicate IsSource(record: Record, source: Option<Id>)
  {
    && (record.protocol == Some(ICMP) && record.ip.Some? ==> source == record.ip)
    && (record.protocol == Some(ICMP) && record.ip.None? && record.ipAddress.Some? ==> source == record.ipAddress)
    && (record.protocol == Some(ICMP) && record.ip.None? && record.ipAddress.None? ==> source == record.source)
    && (record.protocol != Some(ICMP) ==> source == record.otherSource)
  }

  /** ICMP and ping checks come first, then what is critical. */
  predicate IsPriority(catalog: Catalog, record: Record, priority: nat)
  {
    var urgent := record.protocol == Some(ICMP) || (record.metric.Some? && record.metric.value in catalog.pingChecks);
    && (priority == 0 <==> urgent) && (priority == 10 <==> !urgent && record.criticality >= 3)
    && (priority == 50 <==> !urgent && record.criticality < 3)
  }

  predicate IsTaskOf(catalog: Catalog, record: Record, task: Task)
  {
    && record.ci == Some(task.ci) && record.metric == Some(task.metric) && record.protocol == Some(task.protocol)
    && IsPriority(catalog, record, task.priority) && IsSource(record, task.source) && task.internal == record.internal
  }

  lemma TaskForExact(catalog: Catalog, record: Record, task: Task)
    requires IsNamed(record)
    ensures TaskFor(catalog, record) == task <==> IsTaskOf(catalog, record, task)
  {
  }

  predicate OfTelemetry(catalog: Catalog, record: Record)
  {
    record.protocol == Some(ICMP)
    && (record.kind == TelemetryKind || (record.metric.Some? && record.metric.value in catalog.sidecars))
  }

  /** An ICMP record that checks availability, and not a telemetry record. */
  predicate OfAvailability(catalog: Catalog, record: Record)
  {
    record.protocol == Some(ICMP) && !OfTelemetry(catalog, record)
    && (record.kind == AvailabilityKind || (record.metric.Some? && record.metric.value in catalog.pings))
  }

  predicate IsFiledUnder(record: Record, key: Key)
  {
    record.ci == Some(key.ci) && IsSource(record, key.source)
  }

  /** An addressed telemetry record has the key, and no record checks its availability. */
  ghost predicate IsUnchecked(catalog: Catalog, records: seq<Record>, key: Key)
  {
    && (exists i :: 0 <= i < |records| && OfTelemetry(catalog, records[i]) && IsFiledUnder(records[i], key)
                    && (records[i].ip.Some? || records[i].ipAddress.Some?))
    && (forall i | 0 <= i < |records| && OfAvailability(catalog, records[i]) :: !IsFiledUnder(records[i], key))
  }

  lemma NeedsCheckIff(catalog: Catalog, records: seq<Record>, key: Key)
    requires forall record | record in records :: IsNamed(record)
    ensures NeedsCheck(catalog, records, key) <==> IsUnchecked(catalog, records, key)
  {
    forall i | 0 <= i < |records|
      ensures IsSidecar(catalog, records[i]) <==> OfTelemetry(catalog, records[i])
      ensures IsCheck(catalog, records[i]) <==> OfAvailability(catalog, records[i])
      ensures KeyFor(records[i]) == key <==> IsFiledUnder(records[i], key)
    {
      assert records[i] in records;
    }
  }

  /** How many of the first `n` records are polled as this task. */
  ghost function Requests(catalog: Catalog, records: seq<Record>, n: nat, task: Task): nat
    requires n <= |records|
  {
    if n == 0 then 0
    else Requests(catalog, records, n - 1, task)
         + if !OfTelemetry(catalog, records[n - 1]) && IsTaskOf(catalog, records[n - 1], task) then 1 else 0
  }

  lemma {:induction false} RequestsAreDirect(catalog: Catalog, records: seq<Record>, n: nat, task: Task)
    requires n <= |records| && forall record | record in records :: IsNamed(record)
    ensures multiset(Direct(catalog, records, n))[task] == Requests(catalog, records, n, task)
  {
    if n != 0 {
      RequestsAreDirect(catalog, records, n - 1, task);
      assert records[n - 1] in records;
      OneMoreRequest(catalog, records[n - 1], Direct(catalog, records, n - 1), task);
    }
  }

  lemma OneMoreRequest(catalog: Catalog, record: Record, direct: seq<Task>, task: Task)
    requires IsNamed(record)
    ensures multiset(direct + if IsSidecar(catalog, record) then [] else [TaskFor(catalog, record)])[task] ==
              multiset(direct)[task] + if !OfTelemetry(catalog, record) && IsTaskOf(catalog, record, task) then 1 else 0
  {
    TaskForExact(catalog, record, task);
    assert IsSidecar(catalog, record) <==> OfTelemetry(catalog, record);
    assert direct + [] == direct;
  }

  lemma ChecksAreAdded(catalog: Catalog, records: seq<Record>, task: Task)
    requires forall record | record in records :: IsNamed(record)
    ensures multiset(Added(catalog, SidecarKeys(catalog, records, |records|), CheckedKeys(catalog, records)))[task]
            == if task.metric == catalog.availability && task.protocol == ICMP && task.priority == 0 && task.internal
                  && IsUnchecked(catalog, records, Key(task.ci, task.source)) then 1 else 0
  {
    var key := Key(task.ci, task.source);
    OneCheckPerKey(catalog, records, key);
    NeedsCheckIff(catalog, records, key);
    if task != InternalTask(catalog, key) {
      AddedOrigin(catalog, SidecarKeys(catalog, records, |records|), CheckedKeys(catalog, records), task);
    }
  }

  /**
   Every record that is not telemetry is polled once, and every key that needs a check gets
   one internal check; there are no other tasks, so no telemetry record is ever polled.
   */
  lemma ScheduleExact(catalog: Catalog, records: seq<Record>, task: Task)
    requires forall record | record in records :: IsNamed(record)
    ensures multiset(Schedule(catalog, records))[task] ==
              Requests(catalog, records, |records|, task)
              + if task.metric == catalog.availability && task.protocol == ICMP && task.priority == 0 && task.internal
                   && IsUnchecked(catalog, records, Key(task.ci, task.source)) then 1 else 0
  {
    SortIsSound(Direct(catalog, records, |records|)
                + Added(catalog, SidecarKeys(catalog, records, |records|), CheckedKeys(catalog, records)));
    RequestsAreDirect(catalog, records, |records|, task);
    ChecksAreAdded(catalog, records, task);
  }

  /** The names of the protocols differ in their first letter. */
  function Initial(protocol: Protocol): char
  {
    match protocol
    case ICMP => 'I'
    case SNMP => 'S'
    case CLI => 'C'
    case REST => 'R'
    case MqttStub => 'M'
  }

  /** Tasks come in the order of their priority, then of the name of their protocol, then of their metric. */
  lemma ScheduleIsOrdered(catalog: Catalog, records: seq<Record>, i: nat, j: nat)
    requires forall record | record in records :: IsNamed(record)
    requires i < j < |Schedule(catalog, records)|
    ensures var a, b := Schedule(catalog, records)[i], Schedule(catalog, records)[j];
            && a.priority <= b.priority
            && (a.priority == b.priority ==> Initial(a.protocol) <= Initial(b.protocol))
            && (a.priority == b.priority && a.protocol == b.protocol ==> a.metric <= b.metric)
  {
    SortIsSound(Direct(catalog, records, |records|)
                + Added(catalog, SidecarKeys(catalog, records, |records|), CheckedKeys(catalog, records)));
    assert !Before(Schedule(catalog, records)[j], Schedule(catalog, records)[i]);
  }

  /** All ICMP tasks are in the first priority class, before every task of another class. */
  lemma IcmpFirst(catalog: Catalog, records: seq<Record>, i: nat, j: nat)
    requires forall record | record in records :: IsNamed(record)
    requires i < |Schedule(catalog, records)| && j < |Schedule(catalog, records)|
    requires Schedule(catalog, records)[i].protocol == ICMP && Schedule(catalog, records)[j].priority > 0
    ensures Schedule(catalog, records)[i].priority == 0 && i < j
  {
    ScheduleMembers(catalog, records, Schedule(catalog, records)[i]);
    var tasks := Schedule(catalog, records);
    assert tasks[i].priority == 0;
    assert Before(tasks[i], tasks[j]);
  }
}
