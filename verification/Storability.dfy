/**
 Which results of the queue can still be stored, whatever state the writers have left the
 pipeline in (backend/polling/writer_pool.py, backend/polling/pg_queue.py).
 */
module Storability {
  import opened Base
  import opened Envelopes
  import opened ResultPipeline
  import opened EventDelivery
  import opened EventLoss

  /** The primary key of the sample table admits the result by itself, without a jitter sample. */
  ghost predicate Admissible(samples: set<Sample>, e: Envelope)
  {
    && DistinctKeys(AllSamples(e, None))
    && forall i | 0 <= i < |AllSamples(e, None)| :: !HasKey(samples, AllSamples(e, None)[i].key)
  }

  /** A leased row says until when. */
  ghost predicate LeasesDated(s: State)
  {
    forall r | r in s.queue && s.queue[r].status == Leased :: s.queue[r].lease.Some?
  }

  lemma StepKeepsLeasesDated(s: State, step: Step)
    requires Enabled(s, step) && LeasesDated(s)
    ensures LeasesDated(Apply(s, step))
  {
  }

  lemma {:induction false} RunsKeepLeasesDated(s: State, steps: seq<Step>, t: State)
    requires Leads(s, steps, t) && LeasesDated(s)
    ensures LeasesDated(t)
    decreases |steps|
  {
    if steps != [] {
      StepKeepsLeasesDated(s, steps[0]);
      RunsKeepLeasesDated(Apply(s, steps[0]), steps[1..], t);
    }
  }

  // ---------------------------------------------------------------------- what can be stored

  /** Nobody has the row, and it is as it was otherwise. */
  ghost predicate Claimed(s: State, t: State, v: WriterId, r: Id)
  {
    && Reaches(s, t) && t.samples == s.samples && t.receipts == s.receipts
    && r in s.queue && r in t.queue && t.queue[r].key == s.queue[r].key && t.queue[r].envelope == s.queue[r].envelope
    && v in t.writers
  }

  /** If a claim has locked the row, its writer crashes, and if the row is leased, time passes. */
  lemma BecomesEligible(s: State, r: Id) returns (t: State)
    requires LocksHeld(s) && LeasesDated(s) && r in s.queue && s.queue[r].status in {Ready, RetryWait, Leased}
    ensures Reaches(s, t) && t.samples == s.samples && t.receipts == s.receipts
    ensures r in t.queue && Eligible(t.queue[r], t.now)
    ensures t.queue[r].(lock := None) == s.queue[r].(lock := None)
  {
    ReachesSelf(s);
    var free := s;
    if s.queue[r].lock.Some? {
      ReachesThen(s, s, Crash(s.queue[r].lock.value.owner));
      free := Apply(s, Crash(s.queue[r].lock.value.owner));
    }
    ReachesThen(s, free, Tick(Rest(free, r)));
    t := Apply(free, Tick(Rest(free, r)));
  }

  /** A new writer claims the row alone and finds no receipt. */
  lemma FoundUnstored(s: State, v: WriterId, r: Id) returns (t: State)
    requires r in s.queue && Eligible(s.queue[r], s.now) && v !in s.writers && !Received(s, r)
             && s.queue[r].error != Neo4jPending
    ensures Claimed(s, t, v, r) && t.writers[v] == Checking({}, {}, {r}, {})
  {
    ReachesSelf(s);
    var claim := Claim(v, {r}, 60);
    ReachesThen(s, s, claim);
    t := Apply(s, claim);
    assert t.writers[v] == Checking({r}, {}, {}, {});
    ReachesThen(s, t, Check(v, r));
    assert {r} - {r} == {} && {} + {r} == {r};
    t := Apply(t, Check(v, r));
  }

  lemma ReadyToStore(s: State, v: WriterId, r: Id) returns (t: State)
    requires r in s.queue && Eligible(s.queue[r], s.now) && v !in s.writers && !Received(s, r)
             && s.queue[r].error != Neo4jPending
    ensures Claimed(s, t, v, r) && t.writers[v] == Storing({r}, {})
  {
    t := FoundUnstored(s, v, r);
    ReachesThen(s, t, Triage(v));
    t := Apply(t, Triage(v));
    assert t.writers[v] == Closing({}, {r}, {});
    ReachesThen(s, t, BeginStore(v));
    t := Apply(t, BeginStore(v));
  }

  lemma AdmissibleIsEnabled(s: State, v: WriterId, r: Id, plan: Plan)
    requires v in s.writers && s.writers[v] == Storing({r}, {}) && r in s.queue
             && Admissible(s.samples, s.queue[r].envelope)
    requires plan == map[r := AllSamples(s.queue[r].envelope, None)]
    ensures Enabled(s, Store(v, plan, true))
  {
  }

  lemma EligibleIsStored(s: State, r: Id)
    requires r in s.queue && Eligible(s.queue[r], s.now) && !Received(s, r) && s.queue[r].error != Neo4jPending
    requires Admissible(s.samples, s.queue[r].envelope)
    ensures exists t :: Reaches(s, t) && Received(t, r)
  {
    var v := Unused(s.writers.Keys);
    var t := ReadyToStore(s, v, r);
    var plan := map[r := AllSamples(t.queue[r].envelope, None)];
    AdmissibleIsEnabled(t, v, r, plan);
    ReachesThen(s, t, Store(v, plan, true));
    assert t.queue[r].key in KeysOfRows(t.queue, {r});
  }

  lemma AdmissibleIsStored(s: State, r: Id)
    requires LocksHeld(s) && ReceiptFirst(s) && LeasesDated(s) && r in s.queue && !Received(s, r)
    requires s.queue[r].status != Polled && Admissible(s.samples, s.queue[r].envelope)
    ensures exists t :: Reaches(s, t) && Received(t, r)
  {
    var middle := BecomesEligible(s, r);
    EligibleIsStored(middle, r);
    var t :| Reaches(middle, t) && Received(t, r);
    ReachesFrom(s, middle, t);
  }

  // ------------------------------------------------------------------- what cannot be stored

  /** The transaction that stores a result shows that the table admitted it. */
  lemma StoringShowsAdmissible(s: State, step: Step, r: Id)
    requires step.Store? && Enabled(s, step) && r in s.writers[step.w].unstored && r in s.queue
    ensures Admissible(s.samples, s.queue[r].envelope)
  {
    var e := s.queue[r].envelope;
    assert r in step.plan;
    var previous: Option<real> :| step.plan[r] == AllSamples(e, previous);
    DistinctWithoutJitter(e, previous);
    forall i | 0 <= i < |AllSamples(e, None)|
      ensures !HasKey(s.samples, AllSamples(e, None)[i].key)
    {
      var j := WithJitter(e, previous, i);
      assert step.plan[r][j] == AllSamples(e, None)[i];
    }
  }

  /** The samples without jitter are all there when there is jitter. */
  lemma WithJitter(e: Envelope, previous: Option<real>, i: nat) returns (j: nat)
    requires i < |AllSamples(e, None)|
    ensures j < |AllSamples(e, previous)| && AllSamples(e, previous)[j] == AllSamples(e, None)[i]
  {
    j := if i < |MainSamples(e) + LatencySamples(e)| then i else i + |JitterSamples(e, previous)|;
  }

  lemma SamplesGrow(s: State, step: Step)
    requires Enabled(s, step)
    ensures s.samples <= Apply(s, step).samples
  {
  }

  lemma {:induction false} StoredWasAdmissible(s: State, steps: seq<Step>, t: State, r: Id)
    requires KeysUnique(s) && WritersKnown(s) && Leads(s, steps, t)
    requires r in s.queue && !Received(s, r) && Received(t, r)
    ensures Admissible(s.samples, s.queue[r].envelope)
    decreases |steps|
  {
    var step, next := steps[0], Apply(s, steps[0]);
    StepKeepsRows(s, step);
    if step.Store? && r in s.writers[step.w].unstored {
      StoringShowsAdmissible(s, step, r);
    } else {
      ReceiptUntouched(s, step, r);
      StepKeepsKeys(s, step);
      SamplesGrow(s, step);
      StoredWasAdmissible(next, steps[1..], t, r);
      var all := AllSamples(s.queue[r].envelope, None);
      forall i | 0 <= i < |all|
        ensures !HasKey(s.samples, all[i].key)
      {
        assert !HasKey(next.samples, all[i].key);
      }
    }
  }

  /** The table has none of the keys that the envelope fixes, and the envelope fixes none of them twice. */
  ghost predicate HasRoom(samples: set<Sample>, e: Envelope)
  {
    && !FixesKeyTwice(e)
    && forall measure, sample | FixedMeasure(e, measure) && sample in samples :: sample.key != measure.key
  }

  lemma HasRoomIff(samples: set<Sample>, e: Envelope)
    ensures Admissible(samples, e) <==> HasRoom(samples, e)
  {
    DistinctKeysIff(e);
    var all := AllSamples(e, None);
    forall measure
      ensures measure in all <==> FixedMeasure(e, measure)
    {
      SamplesExact(e, None, measure);
    }
    if HasRoom(samples, e) {
      forall i | 0 <= i < |all|
        ensures !HasKey(samples, all[i].key)
      {
        assert FixedMeasure(e, all[i]);
      }
    }
    if Admissible(samples, e) {
      forall measure, sample | FixedMeasure(e, measure) && sample in samples
        ensures sample.key != measure.key
      {
        var i :| 0 <= i < |all| && all[i] == measure;
        assert !HasKey(samples, all[i].key);
      }
    }
  }

  /**
   In whatever state a run has left the pipeline, a result that is not stored yet can still
   be stored if and only if its row was not queued with a polling status and the sample
   table has none of the keys that its envelope fixes, nor does the envelope fix one twice.
   */
  lemma StorableIff(start: State, before: seq<Step>, s: State, r: Id)
    requires IsInitial(start) && Leads(start, before, s) && r in s.queue && !Received(s, r)
    ensures (exists t :: Reaches(s, t) && Received(t, r)) <==>
            s.queue[r].status != Polled && HasRoom(s.samples, s.queue[r].envelope)
  {
    HasRoomIff(s.samples, s.queue[r].envelope);
    RunsAreSafe(start, before, s);
    RunsKeepLeasesDated(start, before, s);
    if s.queue[r].status != Polled && Admissible(s.samples, s.queue[r].envelope) {
      AdmissibleIsStored(s, r);
    }
    forall t | Reaches(s, t) && Received(t, r)
      ensures s.queue[r].status != Polled && Admissible(s.samples, s.queue[r].envelope)
    {
      var steps :| Leads(s, steps, t);
      StoredWasAdmissible(s, steps, t, r);
      if s.queue[r].status == Polled {
        PolledRowIsStranded(s, steps, t, r);
        assert false;
      }
    }
  }
}
