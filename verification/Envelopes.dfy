/**
 The normalized result envelope that a polling result carries, the metric
 samples a writer derives from it, and the extra ICMP event envelopes a writer
 derives from it (backend/polling/writer_pool.py).
 */
module Envelopes {
  import opened Base

  /** The four metrics the pipeline treats specially, and all the others. */
  datatype Metric = IcmpAvailability | IcmpLatency | IcmpJitter | IcmpPacketLoss | Named(id: Id)

  datatype AvailabilitySource = PingCheck | IcmpCheck
  datatype Protocol = ICMP | SNMP | CLI | REST | MqttStub
  datatype Status = Ok | Warning | Critical | NoData | Timeout | Error
  datatype Operator = AtLeast | AtMost | Equal | NotEqual
  datatype Correlation = Root | Propagated

  datatype Metadata = Metadata(
    internal: bool,
    availabilitySource: Option<AvailabilitySource>,
    sidecars: set<Metric>,
    latency: Option<real>,
    warning: Option<real>,
    critical: Option<real>,
    operator: Operator,
    correlation: Option<Correlation>,
    propagatedFrom: Option<Id>,
    rootCauseEvent: Option<Id>,
    rootCauseCi: Option<Id>)

  datatype Envelope = Envelope(
    key: Option<Id>,
    ci: Id,
    metric: Metric,
    protocol: Protocol,
    observed: int,
    status: Status,
    numeric: Option<real>,
    noResponse: bool,
    metadata: Metadata)

  datatype IcmpSettings = IcmpSettings(
    latencyWarning: real, latencyCritical: real,
    jitterWarning: real, jitterCritical: real,
    lossWarning: real, lossCritical: real)

  /** The primary key of the metric_values table. */
  datatype SampleKey = SampleKey(time: int, node: Id, metric: Metric)

  datatype Sample = Sample(key: SampleKey, value: real)

  predicate IsInternalAvailability(e: Envelope)
  {
    e.protocol == ICMP && e.metric == IcmpAvailability && e.metadata.internal
  }

  function KeyFor(e: Envelope, metric: Metric): SampleKey
  {
    SampleKey(e.observed, e.ci, metric)
  }

  function Distance(x: real, y: real): real
  {
    if x < y then y - x else x - y
  }

  function Loss(numeric: real): real
  {
    if numeric > 0.0 then 0.0 else 100.0
  }

  /** The envelope's own sample; internal availability polls store none. */
  function MainSamples(e: Envelope): seq<Sample>
  {
    if IsInternalAvailability(e) || e.numeric.None? then []
    else [Sample(KeyFor(e, e.metric), e.numeric.value)]
  }

  function LatencySamples(e: Envelope): seq<Sample>
  {
    if IcmpLatency in e.metadata.sidecars && e.metadata.latency.Some?
    then [Sample(KeyFor(e, IcmpLatency), e.metadata.latency.value)]
    else []
  }

  /** Jitter needs this envelope's latency sample and an earlier stored one. */
  function JitterSamples(e: Envelope, previous: Option<real>): seq<Sample>
  {
    if IcmpJitter in e.metadata.sidecars && LatencySamples(e) != [] && previous.Some?
    then [Sample(KeyFor(e, IcmpJitter), Distance(e.metadata.latency.value, previous.value))]
    else []
  }

  function LossSamples(e: Envelope): seq<Sample>
  {
    if IcmpPacketLoss in e.metadata.sidecars && e.numeric.Some?
    then [Sample(KeyFor(e, IcmpPacketLoss), Loss(e.numeric.value))]
    else []
  }

  /** Everything one attempt stores for an envelope; `previous` is read from the database. */
  function AllSamples(e: Envelope, previous: Option<real>): seq<Sample>
  {
    MainSamples(e) + (LatencySamples(e) + JitterSamples(e, previous) + LossSamples(e))
  }

  function KeysOf(samples: seq<Sample>): set<SampleKey>
  {
    set s | s in samples :: s.key
  }

  /** The keys that every attempt stores, whatever the database held before. */
  function FixedKeys(e: Envelope): set<SampleKey>
  {
    KeysOf(MainSamples(e) + LatencySamples(e) + LossSamples(e))
  }

  /**
   Two attempts at one envelope may disagree about jitter, but they share every
   other key, and they store something exactly when there is a shared key.
   */
  lemma SampleSetsShareFixedKeys(e: Envelope, previous: Option<real>)
    ensures FixedKeys(e) <= KeysOf(AllSamples(e, previous)) <= FixedKeys(e) + {KeyFor(e, IcmpJitter)}
    ensures AllSamples(e, previous) == [] <==> FixedKeys(e) == {}
  {
    var fixed := MainSamples(e) + LatencySamples(e) + LossSamples(e);
    forall k | k in FixedKeys(e)
      ensures k in KeysOf(AllSamples(e, previous))
    {
      var s :| s in fixed && s.key == k;
      assert s in AllSamples(e, previous);
    }
    if fixed != [] {
      assert fixed[0].key in FixedKeys(e);
    }
  }

  // ------------------------------------------------------------ what each sample is worth

  /** The envelope's own measurement; internal availability polls only serve the events. */
  predicate OwnMeasure(e: Envelope, s: Sample)
  {
    && s.key.metric == e.metric && e.numeric == Some(s.value)
    && !(e.protocol == ICMP && e.metric == IcmpAvailability && e.metadata.internal)
  }

  predicate LatencyMeasure(e: Envelope, s: Sample)
  {
    s.key.metric == IcmpLatency && IcmpLatency in e.metadata.sidecars && e.metadata.latency == Some(s.value)
  }

  /** `value` is how far apart two measurements are. */
  predicate IsGap(value: real, a: real, b: real)
  {
    value >= 0.0 && (value == a - b || value == b - a)
  }

  predicate JitterMeasure(e: Envelope, previous: Option<real>, s: Sample)
  {
    && s.key.metric == IcmpJitter && IcmpJitter in e.metadata.sidecars && IcmpLatency in e.metadata.sidecars
    && e.metadata.latency.Some? && previous.Some? && IsGap(s.value, e.metadata.latency.value, previous.value)
  }

  /** A host that answers loses nothing, any other one everything. */
  predicate LossMeasure(e: Envelope, s: Sample)
  {
    && s.key.metric == IcmpPacketLoss && IcmpPacketLoss in e.metadata.sidecars
    && e.numeric.Some? && s.value == if e.numeric.value > 0.0 then 0.0 else 100.0
  }

  /** The sample belongs to the envelope and has the right value, whatever an attempt reads from the database. */
  predicate FixedMeasure(e: Envelope, s: Sample)
  {
    && s.key.time == e.observed && s.key.node == e.ci
    && (OwnMeasure(e, s) || LatencyMeasure(e, s) || LossMeasure(e, s))
  }

  predicate Measure(e: Envelope, previous: Option<real>, s: Sample)
  {
    FixedMeasure(e, s) || (s.key.time == e.observed && s.key.node == e.ci && JitterMeasure(e, previous, s))
  }

  /** An attempt stores exactly the measurements of its envelope. */
  lemma SamplesExact(e: Envelope, previous: Option<real>, s: Sample)
    ensures s in AllSamples(e, previous) <==> Measure(e, previous, s)
  {
  }

  function One(holds: bool): nat
  {
    if holds then 1 else 0
  }

  /** How many measurements an attempt has. */
  function Measures(e: Envelope, previous: Option<real>): nat
  {
    One(e.numeric.Some? && !(e.protocol == ICMP && e.metric == IcmpAvailability && e.metadata.internal))
    + One(IcmpLatency in e.metadata.sidecars && e.metadata.latency.Some?)
    + One({IcmpLatency, IcmpJitter} <= e.metadata.sidecars && e.metadata.latency.Some? && previous.Some?)
    + One(IcmpPacketLoss in e.metadata.sidecars && e.numeric.Some?)
  }

  /** ... each of them once. */
  lemma SamplesCounted(e: Envelope, previous: Option<real>)
    ensures |AllSamples(e, previous)| == Measures(e, previous)
  {
  }

  function ThresholdStatus(value: real, warning: real, critical: real): Status
  {
    if value >= critical then Critical else if value >= warning then Warning else Ok
  }

  function ThresholdMetadata(warning: real, critical: real): Metadata
  {
    Metadata(false, None, {}, None, Some(warning), Some(critical), AtLeast, None, None, None, None)
  }

  function Derived(e: Envelope, metric: Metric, value: real, warning: real, critical: real): Envelope
  {
    e.(metric := metric, status := ThresholdStatus(value, warning, critical), numeric := Some(value),
       metadata := ThresholdMetadata(warning, critical))
  }

  function LatencyEnvelopes(e: Envelope, icmp: IcmpSettings): seq<Envelope>
  {
    if e.metadata.latency.None? then []
    else [Derived(e, IcmpLatency, e.metadata.latency.value, icmp.latencyWarning, icmp.latencyCritical)]
  }

  function JitterEnvelopes(e: Envelope, icmp: IcmpSettings, previous: Option<real>): seq<Envelope>
  {
    if e.metadata.latency.None? || previous.None? then []
    else
      var jitter := Distance(e.metadata.latency.value, previous.value);
      if ThresholdStatus(jitter, icmp.jitterWarning, icmp.jitterCritical) == Ok then []
      else [Derived(e, IcmpJitter, jitter, icmp.jitterWarning, icmp.jitterCritical)]
  }

  function LossEnvelopes(e: Envelope, icmp: IcmpSettings): seq<Envelope>
  {
    if IcmpPacketLoss !in e.metadata.sidecars || e.numeric.None? then []
    else
      var loss := Loss(e.numeric.value);
      if ThresholdStatus(loss, icmp.lossWarning, icmp.lossCritical) == Ok then []
      else [Derived(e, IcmpPacketLoss, loss, icmp.lossWarning, icmp.lossCritical)]
  }

  /** The derived envelopes, in the order in which the writer appends them. */
  function DerivedEnvelopes(e: Envelope, icmp: IcmpSettings, previous: Option<real>): seq<Envelope>
  {
    LatencyEnvelopes(e, icmp) + JitterEnvelopes(e, icmp, previous) + LossEnvelopes(e, icmp)
  }

  /** `d` reports `value` of the metric for the CI and time of `e`, with its status under two limits. */
  predicate Reports(d: Envelope, e: Envelope, metric: Metric, value: real, warning: real, critical: real)
  {
    && d.key == e.key && d.ci == e.ci && d.observed == e.observed && d.protocol == e.protocol
        && d.noResponse == e.noResponse
    && d.metric == metric && d.numeric == Some(value)
    && (d.status == Critical <==> value >= critical)
    && (d.status == Warning <==> warning <= value < critical)
    && (d.status == Ok <==> value < warning && value < critical)
    && d.metadata == Metadata(false, None, {}, None, Some(warning), Some(critical), AtLeast, None, None, None, None)
  }

  /** Jitter and loss are reported only when a limit is reached. */
  predicate ReportsAlarm(d: Envelope, e: Envelope, metric: Metric, value: real, warning: real, critical: real)
  {
    Reports(d, e, metric, value, warning, critical) && (value >= warning || value >= critical)
  }

  /** The envelope `d` is the report of one of the three measurements that an ICMP result can carry. */
  predicate IsReport(d: Envelope, e: Envelope, icmp: IcmpSettings, previous: Option<real>)
  {
    && d.numeric.Some?
    && (|| (&& e.metadata.latency == d.numeric
            && Reports(d, e, IcmpLatency, d.numeric.value, icmp.latencyWarning, icmp.latencyCritical))
        || (&& e.metadata.latency.Some? && previous.Some?
            && IsGap(d.numeric.value, e.metadata.latency.value, previous.value)
            && ReportsAlarm(d, e, IcmpJitter, d.numeric.value, icmp.jitterWarning, icmp.jitterCritical))
        || (&& IcmpPacketLoss in e.metadata.sidecars && e.numeric.Some?
            && d.numeric.value == (if e.numeric.value > 0.0 then 0.0 else 100.0)
            && ReportsAlarm(d, e, IcmpPacketLoss, d.numeric.value, icmp.lossWarning, icmp.lossCritical)))
  }

  /** The derived envelopes are exactly these reports. */
  lemma DerivedExact(e: Envelope, icmp: IcmpSettings, previous: Option<real>, d: Envelope)
    ensures d in DerivedEnvelopes(e, icmp, previous) <==> IsReport(d, e, icmp, previous)
  {
    DerivedAreReports(e, icmp, previous);
    if IsReport(d, e, icmp, previous) {
      ReportIsDerived(e, icmp, previous, d);
    }
  }

  lemma DerivedAreReports(e: Envelope, icmp: IcmpSettings, previous: Option<real>)
    ensures forall d | d in DerivedEnvelopes(e, icmp, previous) :: IsReport(d, e, icmp, previous)
  {
  }

  lemma ReportIsDerived(e: Envelope, icmp: IcmpSettings, previous: Option<real>, d: Envelope)
    requires IsReport(d, e, icmp, previous)
    ensures d in DerivedEnvelopes(e, icmp, previous)
  {
    var value := d.numeric.value;
    if d.metric == IcmpLatency {
      assert d == Derived(e, IcmpLatency, value, icmp.latencyWarning, icmp.latencyCritical);
    } else if d.metric == IcmpJitter {
      assert d == Derived(e, IcmpJitter, value, icmp.jitterWarning, icmp.jitterCritical);
    } else {
      assert d == Derived(e, IcmpPacketLoss, value, icmp.lossWarning, icmp.lossCritical);
    }
  }

  /** Their order matters, because the last of them is the one that survives. */
  lemma DerivedInOrder(e: Envelope, icmp: IcmpSettings, previous: Option<real>, i: nat, j: nat)
    requires i < j < |DerivedEnvelopes(e, icmp, previous)|
    ensures var first, second :=
            DerivedEnvelopes(e, icmp, previous)[i].metric, DerivedEnvelopes(e, icmp, previous)[j].metric;
            (first == IcmpLatency && second in {IcmpJitter, IcmpPacketLoss})
                || (first == IcmpJitter && second == IcmpPacketLoss)
  {
  }

  /** The event payloads that one result contributes to a batch. */
  function EventEnvelopes(e: Envelope, icmp: IcmpSettings, previous: Option<real>): seq<Envelope>
  {
    (if IsInternalAvailability(e) then [] else [e]) + DerivedEnvelopes(e, icmp, previous)
  }

  /** Whether a result contributes an event payload at all does not depend on the database. */
  predicate HasEvents(e: Envelope, icmp: IcmpSettings)
  {
    !IsInternalAvailability(e) || LatencyEnvelopes(e, icmp) != [] || LossEnvelopes(e, icmp) != []
  }

  /** There is something to tell the event store: the result itself, its latency, or a loss that reaches a limit. */
  predicate TellsSomething(e: Envelope, icmp: IcmpSettings)
  {
    || !(e.protocol == ICMP && e.metric == IcmpAvailability && e.metadata.internal)
    || e.metadata.latency.Some?
    || (IcmpPacketLoss in e.metadata.sidecars && e.numeric.Some? && e.numeric.value > 0.0
        && (0.0 >= icmp.lossWarning || 0.0 >= icmp.lossCritical))
    || (IcmpPacketLoss in e.metadata.sidecars && e.numeric.Some? && e.numeric.value <= 0.0
        && (100.0 >= icmp.lossWarning || 100.0 >= icmp.lossCritical))
  }

  /** An attempt contributes payloads whatever earlier latency it reads, or never. */
  lemma EventPayloadsDecidedByEnvelope(e: Envelope, icmp: IcmpSettings, previous: Option<real>)
    ensures EventEnvelopes(e, icmp, previous) != [] <==> HasEvents(e, icmp)
    ensures HasEvents(e, icmp) <==> TellsSomething(e, icmp)
  {
  }

  /** A latency or loss poll that carries the sidecar of its own metric has two measurements under one key. */
  predicate FixesKeyTwice(e: Envelope)
  {
    e.numeric.Some? && e.metric in e.metadata.sidecars
    && (e.metric == IcmpPacketLoss || (e.metric == IcmpLatency && e.metadata.latency.Some?))
  }

  predicate DistinctKeys(samples: seq<Sample>)
  {
    forall i, j | 0 <= i < j < |samples| :: samples[i].key != samples[j].key
  }

  /** One transaction can store the samples that do not depend on earlier ones exactly if no key is fixed twice. */
  lemma DistinctKeysIff(e: Envelope)
    ensures DistinctKeys(AllSamples(e, None)) <==> !FixesKeyTwice(e)
  {
    var main, latency, loss := MainSamples(e), LatencySamples(e), LossSamples(e);
    var all := AllSamples(e, None);
    assert all == main + latency + loss;
    if FixesKeyTwice(e) {
      if e.metric == IcmpLatency {
        assert all[0].key == all[1].key;
      } else {
        assert all[0].key == all[|all| - 1].key;
      }
    }
  }
}
