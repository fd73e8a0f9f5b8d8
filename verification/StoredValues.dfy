/**
 The values in the sample table, over whole runs of the result writers
 (backend/polling/writer_pool.py).
 */
module StoredValues {
  import opened Base
  import opened Envelopes
  import opened ResultPipeline

  /** The sample is a measurement of a result that has its receipt. */
  ghost predicate IsMeasured(t: State, s: Sample)
  {
    exists r, previous: Option<real> :: Received(t, r) && Measure(t.queue[r].envelope, previous, s)
  }

  /**
   In every run, however many writers race and fail: whatever is in the table is a
   measurement of a stored result, with its value, and of every stored result the table has
   each measurement that does not depend on earlier ones.
   */
  lemma TableHoldsMeasurements(start: State, steps: seq<Step>, t: State)
    requires IsInitial(start) && Leads(start, steps, t)
    ensures forall s | s in t.samples :: IsMeasured(t, s)
    ensures forall r, s | Received(t, r) && FixedMeasure(t.queue[r].envelope, s) :: s in t.samples
  {
    RunsAreSafe(start, steps, t);
    forall s | s in t.samples
      ensures IsMeasured(t, s)
    {
      InsertedExact(t.commits, s);
      var i, r :| 0 <= i < |t.commits| && r in t.commits[i] && s in t.commits[i][r];
      CommittedExact(t.commits, r);
      var previous: Option<real> :| t.commits[i][r] == AllSamples(t.queue[r].envelope, previous);
      SamplesExact(t.queue[r].envelope, previous, s);
    }
    forall r, s | Received(t, r) && FixedMeasure(t.queue[r].envelope, s)
      ensures s in t.samples
    {
      StoredMeasure(t, r, s);
    }
  }

  lemma StoredMeasure(t: State, r: Id, s: Sample)
    requires Safe(t) && Received(t, r) && FixedMeasure(t.queue[r].envelope, s)
    ensures s in t.samples
  {
    CommittedExact(t.commits, r);
    var i :| 0 <= i < |t.commits| && r in t.commits[i];
    var previous: Option<real> :| t.commits[i][r] == AllSamples(t.queue[r].envelope, previous);
    SamplesExact(t.queue[r].envelope, previous, s);
    CommittedSamplesStay(t.commits, i, r);
  }

  /** In particular the table has a result's own value, once it is stored, under its own time, CI and metric. */
  lemma OwnValueIsStored(start: State, steps: seq<Step>, t: State, r: Id)
    requires IsInitial(start) && Leads(start, steps, t) && Received(t, r)
    requires var e := t.queue[r].envelope;
             e.numeric.Some? && !(e.protocol == ICMP && e.metric == IcmpAvailability && e.metadata.internal)
    ensures var e := t.queue[r].envelope;
            forall s | s in t.samples && s.key == SampleKey(e.observed, e.ci, e.metric) :: s.value == e.numeric.value
    ensures var e := t.queue[r].envelope;
            Sample(SampleKey(e.observed, e.ci, e.metric), e.numeric.value) in t.samples
  {
    var e := t.queue[r].envelope;
    var own := Sample(SampleKey(e.observed, e.ci, e.metric), e.numeric.value);
    RunsAreSafe(start, steps, t);
    StoredMeasure(t, r, own);
  }
}
