/**
 What happens outside the discipline: how a crash or a lost acknowledgement turns a
 stored result into a written one whose events were never published, why nothing
 repairs it afterwards, and when an overrun lease lets a result be written too early
 (backend/polling/writer_pool.py, backend/polling/pg_queue.py).
 */
module EventLoss {
  import opened Base
  import opened Envelopes
  import opened ResultPipeline

  ghost predicate Reaches(s: State, t: State)
  {
    exists steps :: Leads(s, steps, t)
  }

  /** Anything but a step of writer `w`. */
  predicate ByOther(step: Step, w: WriterId)
  {
    match step
    case Tick(_) => true
    case Enqueue(_, _, _, _) => true
    case ExpireLeases => true
    case _ => step.w != w
  }

  /** `t` follows from `s` while writer `w` does nothing. */
  ghost predicate Meanwhile(s: State, w: WriterId, t: State)
  {
    exists steps :: Leads(s, steps, t) && forall step | step in steps :: ByOther(step, w)
  }

  lemma MeanwhileNothing(s: State, w: WriterId)
    ensures Meanwhile(s, w, s)
  {
    assert Leads(s, [], s);
  }

  lemma MeanwhileThen(s: State, w: WriterId, t: State, step: Step)
    requires Meanwhile(s, w, t) && Enabled(t, step) && ByOther(step, w)
    ensures Meanwhile(s, w, Apply(t, step))
  {
    var steps :| Leads(s, steps, t) && forall other | other in steps :: ByOther(other, w);
    LeadsThen(s, steps, t, step);
  }

  lemma ReachesSelf(s: State)
    ensures Reaches(s, s)
  {
    assert Leads(s, [], s);
  }

  lemma ReachesThen(s: State, t: State, step: Step)
    requires Reaches(s, t) && Enabled(t, step)
    ensures Reaches(s, Apply(t, step))
  {
    var steps :| Leads(s, steps, t);
    LeadsThen(s, steps, t, step);
  }

  lemma ReachesFrom(s: State, t: State, u: State)
    requires Reaches(s, t) && Reaches(t, u)
    ensures Reaches(s, u)
  {
    var steps :| Leads(t, steps, u);
    ReachesAlong(s, t, steps, u);
  }

  lemma {:induction false} ReachesAlong(s: State, t: State, steps: seq<Step>, u: State)
    requires Reaches(s, t) && Leads(t, steps, u)
    ensures Reaches(s, u)
    decreases |steps|
  {
    if steps != [] {
      ReachesThen(s, t, steps[0]);
      ReachesAlong(s, Apply(t, steps[0]), steps[1..], u);
    }
  }

  /** The row is done, no writer has it in hand, and its events are missing. */
  ghost predicate Lost(s: State, r: Id)
  {
    && r in s.queue && s.queue[r].status == Written && s.queue[r].lock.None?
    && HasEvents(s.queue[r].envelope, s.icmp) && r !in s.published
    && forall w | w in s.writers :: r !in Mentioned(s.writers[w])
  }

  /** Whatever happens next, lost events stay lost. */
  lemma {:induction false} LostForGood(s: State, steps: seq<Step>, t: State, r: Id)
    requires Leads(s, steps, t) && Lost(s, r)
    ensures Lost(t, r)
    decreases |steps|
  {
    if steps != [] {
      StepKeepsLost(s, steps[0], r);
      LostForGood(Apply(s, steps[0]), steps[1..], t, r);
    }
  }

  lemma StepKeepsLost(s: State, step: Step, r: Id)
    requires Enabled(s, step) && Lost(s, r)
    ensures Lost(Apply(s, step), r)
  {
    var after := Apply(s, step);
    forall w | w in after.writers
      ensures r !in Mentioned(after.writers[w])
    {
      if w in s.writers {
        MentionedShrinks(s, step, w);
      }
    }
    if step.Publish? || step.Close? || step.Requeue? || step.Finish? {
      assert r !in Mentioned(s.writers[step.w]);
    }
  }

  /** Stored, unmarked, claimable, and with its events still missing. */
  ghost predicate Abandoned(s: State, r: Id)
  {
    && Received(s, r) && Eligible(s.queue[r], s.now) && s.queue[r].error != Neo4jPending
    && HasEvents(s.queue[r].envelope, s.icmp) && r !in s.published
  }

  lemma CheckingAbandoned(s: State, w: WriterId, v: WriterId, r: Id) returns (t: State)
    requires Abandoned(s, r) && v !in s.writers && v != w
    ensures Meanwhile(s, w, t) && Received(t, r) && t.queue[r].envelope == s.queue[r].envelope
            && LockedBy(t.queue[r], v)
    ensures t.icmp == s.icmp && t.published == s.published
    ensures t.writers == s.writers[v := Checking({}, {r}, {}, {})]
  {
    MeanwhileNothing(s, w);
    var claim := Claim(v, {r}, 60);
    MeanwhileThen(s, w, s, claim);
    t := Apply(s, claim);
    assert t.writers[v] == Checking({r}, {}, {}, {});
    MeanwhileThen(s, w, t, Check(v, r));
    assert {r} - {r} == {} && {} + {r} == {r};
    t := Apply(t, Check(v, r));
  }

  /** The next writer takes an abandoned result for a completed duplicate. */
  lemma AbandonedIsWritten(s: State, w: WriterId, v: WriterId, r: Id) returns (t: State)
    requires Abandoned(s, r) && v !in s.writers && v != w
    ensures Meanwhile(s, w, t) && r in t.queue && t.queue[r].envelope == s.queue[r].envelope
    ensures t.queue[r].status == Written && t.queue[r].lock.None?
    ensures t.icmp == s.icmp && t.published == s.published
    ensures t.writers == s.writers[v := Closing({}, {}, {})]
  {
    t := CheckingAbandoned(s, w, v, r);
    MeanwhileThen(s, w, t, Triage(v));
    assert {r} - {} == {r} && {r} * {} == {};
    t := Apply(t, Triage(v));
    MeanwhileThen(s, w, t, Close(v, r));
    assert {r} - {r} == {};
    t := Apply(t, Close(v, r));
  }

  lemma AbandonedIsLost(s: State, v: WriterId, r: Id)
    requires Abandoned(s, r) && v !in s.writers && forall w | w in s.writers :: r !in Mentioned(s.writers[w])
    ensures exists t :: Reaches(s, t) && Lost(t, r)
  {
    var t := AbandonedIsWritten(s, v + 1, v, r);
    assert Lost(t, r);
  }

  /** A writer holds a stored, unmarked result and is about to publish its events. */
  ghost predicate AboutToPublish(s: State, w: WriterId, r: Id)
  {
    && w in s.writers && s.writers[w].Publishing? && r in s.writers[w].batch
    && Received(s, r) && s.queue[r].error != Neo4jPending && HeldBy(s.queue[r], w)
    && HasEvents(s.queue[r].envelope, s.icmp) && r !in s.published
    && forall v | v in s.writers && v != w :: r !in Mentioned(s.writers[v])
  }

  function Rest(s: State, r: Id): nat
    requires r in s.queue
  {
    if s.queue[r].lease.Some?
        && s.now < s.queue[r].lease.value.expires then s.queue[r].lease.value.expires - s.now else 0
  }

  /** A crash between the two stores: the next writer completes the result without its events. */
  lemma CrashLosesEvents(s: State, w: WriterId, r: Id)
    requires LocksHeld(s) && AboutToPublish(s, w, r)
    ensures exists t :: Reaches(Apply(s, Crash(w)), t) && Lost(t, r)
  {
    var crashed := Apply(s, Crash(w));
    var idle := Tick(Rest(s, r));
    ReachesSelf(crashed);
    ReachesThen(crashed, crashed, idle);
    var late := Apply(crashed, idle);
    assert Abandoned(late, r);
    AbandonedIsLost(late, w, r);
    var t :| Reaches(late, t) && Lost(t, r);
    ReachesFrom(crashed, late, t);
  }

  lemma RequeuedIsLost(s: State, w: WriterId, v: WriterId, r: Id)
    requires w in s.writers && s.writers[w].Requeueing? && s.writers[w].code == TimescaleError && r in s.writers[w].todo
    requires Received(s, r) && Free(s.queue[r], w) && HasEvents(s.queue[r].envelope, s.icmp) && r !in s.published
             && v !in s.writers
    requires forall u | u in s.writers && u != w :: r !in Mentioned(s.writers[u])
    ensures exists t :: Reaches(s, t) && Lost(t, r)
  {
    ReachesSelf(s);
    ReachesThen(s, s, Requeue(w, r));
    var requeued := Apply(s, Requeue(w, r));
    AbandonedIsLost(requeued, v, r);
    var t :| Reaches(requeued, t) && Lost(t, r);
    ReachesFrom(s, requeued, t);
  }

  /** A commit whose acknowledgement is lost: the row is requeued without a replay mark and then completed. */
  lemma LostAcknowledgementLosesEvents(s: State, w: WriterId, v: WriterId, plan: Plan, r: Id)
    requires Enabled(s, Store(w, plan, false)) && r in plan && v !in s.writers
    requires Free(s.queue[r], w) && HasEvents(s.queue[r].envelope, s.icmp) && r !in s.published
    requires forall u | u in s.writers && u != w :: r !in Mentioned(s.writers[u])
    ensures exists t :: Reaches(Apply(s, Store(w, plan, false)), t) && Lost(t, r)
  {
    assert s.queue[r].key in KeysOfRows(s.queue, s.writers[w].unstored);
    RequeuedIsLost(Apply(s, Store(w, plan, false)), w, v, r);
  }

  // ------------------------------------------------------- iterations that outlive their lease

  /** While the writer does nothing, the result is written although its events are unpublished. */
  ghost predicate WrittenTooEarly(s: State, w: WriterId, r: Id)
  {
    exists t :: Meanwhile(s, w, t) && r in t.queue && t.queue[r].status == Written && r !in t.published
  }

  lemma {:induction false} Unused(taken: set<WriterId>) returns (v: WriterId)
    ensures forall w | w in taken :: w < v
  {
    v := 0;
    if taken != {} {
      var w :| w in taken;
      v := Unused(taken - {w});
      assert forall u | u in taken && u != w :: u in taken - {w};
      if v <= w {
        v := w + 1;
      }
    }
  }

  lemma ExpiredIsWritten(s: State, w: WriterId, r: Id)
    requires AboutToPublish(s, w, r) && s.queue[r].lock.None?
    ensures WrittenTooEarly(s, w, r)
  {
    var v := Unused(s.writers.Keys);
    var idle := Tick(Rest(s, r));
    var late := Apply(s, idle);
    assert Abandoned(late, r);
    var t := AbandonedIsWritten(late, w, v, r);
    var steps :| Leads(late, steps, t) && forall step | step in steps :: ByOther(step, w);
    assert ([idle] + steps)[1..] == steps;
    assert Leads(s, [idle] + steps, t);
  }

  /** Nobody else touches what an uncommitted claim has locked. */
  lemma LockedRowStays(s: State, step: Step, w: WriterId, r: Id)
    requires Enabled(s, step) && ByOther(step, w) && r in s.queue && LockedBy(s.queue[r], w)
    ensures r in Apply(s, step).queue && Apply(s, step).queue[r] == s.queue[r]
  {
  }

  lemma {:induction false} LockedRowWaits(s: State, steps: seq<Step>, t: State, w: WriterId, r: Id)
    requires Leads(s, steps, t) && (forall step | step in steps :: ByOther(step, w)) && r in s.queue
             && LockedBy(s.queue[r], w)
    ensures r in t.queue && t.queue[r] == s.queue[r]
    decreases |steps|
  {
    if steps != [] {
      assert ByOther(steps[0], w);
      LockedRowStays(s, steps[0], w, r);
      LockedRowWaits(Apply(s, steps[0]), steps[1..], t, w, r);
    }
  }

  /** Another writer can complete a result before its events are published exactly when the claim is committed. */
  lemma WrittenTooEarlyIffCommitted(s: State, w: WriterId, r: Id)
    requires LocksHeld(s) && AboutToPublish(s, w, r)
    ensures WrittenTooEarly(s, w, r) <==> s.queue[r].lock.None?
  {
    if s.queue[r].lock.None? {
      ExpiredIsWritten(s, w, r);
    } else {
      forall t | Meanwhile(s, w, t)
        ensures r in t.queue && t.queue[r].status != Written
      {
        var steps :| Leads(s, steps, t) && forall step | step in steps :: ByOther(step, w);
        LockedRowWaits(s, steps, t, w, r);
      }
    }
  }

  /** A step within one iteration of the writer. */
  predicate Within(step: Step, w: WriterId)
  {
    !(step.Claim? && step.w == w) && !(step.Stop? && step.w == w) && !(step.Crash? && step.w == w)
  }

  ghost predicate AllWithin(steps: seq<Step>, w: WriterId)
  {
    forall step | step in steps :: Within(step, w)
  }

  /** A step with which the writer commits its claim. */
  predicate Commits(step: Step, w: WriterId)
  {
    (step.Close? || step.Requeue? || step.Finish?) && step.w == w
  }

  /** The writer completes some duplicate. */
  ghost predicate ClosesAny(steps: seq<Step>, w: WriterId)
  {
    exists q :: Close(w, q) in steps
  }

  ghost predicate AllLocked(s: State, w: WriterId)
  {
    w in s.writers && forall r | r in Mentioned(s.writers[w]) :: r in s.queue && LockedBy(s.queue[r], w)
  }

  ghost predicate NoneLocked(s: State, w: WriterId)
  {
    forall r | r in s.queue :: !LockedBy(s.queue[r], w)
  }

  lemma StepKeepsAllLocked(s: State, step: Step, w: WriterId)
    requires Enabled(s, step) && Within(step, w) && !Commits(step, w) && AllLocked(s, w)
    ensures AllLocked(Apply(s, step), w)
  {
    var after := Apply(s, step);
    MentionedShrinks(s, step, w);
    forall r | r in Mentioned(after.writers[w])
      ensures r in after.queue && LockedBy(after.queue[r], w)
    {
      assert r in s.queue && LockedBy(s.queue[r], w);
    }
  }

  lemma StepKeepsNoneLocked(s: State, step: Step, w: WriterId)
    requires Enabled(s, step) && Within(step, w) && (NoneLocked(s, w) || Commits(step, w))
    ensures NoneLocked(Apply(s, step), w)
  {
  }

  lemma {:induction false} NoneLockedStays(s: State, steps: seq<Step>, t: State, w: WriterId)
    requires Leads(s, steps, t) && AllWithin(steps, w) && NoneLocked(s, w)
    ensures NoneLocked(t, w)
    decreases |steps|
  {
    if steps != [] {
      assert Within(steps[0], w);
      StepKeepsNoneLocked(s, steps[0], w);
      NoneLockedStays(Apply(s, steps[0]), steps[1..], t, w);
    }
  }

  /** A writer that has begun to requeue or to complete its batch does not publish in that iteration. */
  lemma {:induction false} PublishesBefore(s: State, steps: seq<Step>, t: State, w: WriterId)
    requires Leads(s, steps, t) && AllWithin(steps, w) && w in s.writers
             && (s.writers[w].Requeueing? || s.writers[w].Completing?)
    ensures w in t.writers && !t.writers[w].Publishing?
    decreases |steps|
  {
    if steps != [] {
      assert Within(steps[0], w);
      PublishesBefore(Apply(s, steps[0]), steps[1..], t, w);
    }
  }

  /** Up to the publication, the rows of a claim stay locked until a duplicate is completed. */
  lemma {:induction false} LockedUntilClose(s: State, steps: seq<Step>, t: State, w: WriterId)
    requires Leads(s, steps, t) && AllWithin(steps, w) && AllLocked(s, w) && w in t.writers && t.writers[w].Publishing?
    ensures if ClosesAny(steps, w) then NoneLocked(t, w) else AllLocked(t, w)
    decreases |steps|
  {
    if steps != [] {
      var step, next := steps[0], Apply(s, steps[0]);
      assert steps == [step] + steps[1..];
      assert Within(step, w);
      if step.Close? && step.w == w {
        assert Close(w, step.r) in steps;
        StepKeepsNoneLocked(s, step, w);
        NoneLockedStays(next, steps[1..], t, w);
      } else if s.writers[w].Requeueing? || s.writers[w].Completing? {
        PublishesBefore(s, steps, t, w);
      } else {
        StepKeepsAllLocked(s, step, w);
        LockedUntilClose(next, steps[1..], t, w);
        assert forall q :: Close(w, q) in steps <==> Close(w, q) in steps[1..];
        assert ClosesAny(steps, w) <==> ClosesAny(steps[1..], w);
      }
    }
  }

  /** The duplicates that a writer is still going to complete, as far as it knows. */
  function MayClose(at: Writer): set<Id>
  {
    match at
    case Checking(todo, dups, _, pending) => todo + dups - pending
    case Closing(todo, _, _) => todo
    case _ => {}
  }

  lemma MayCloseShrinks(s: State, step: Step, w: WriterId)
    requires Enabled(s, step) && Within(step, w) && w in s.writers
    ensures w in Apply(s, step).writers && MayClose(Apply(s, step).writers[w]) <= MayClose(s.writers[w])
  {
  }

  /** An iteration completes as duplicates only unmarked results of its batch ... */
  lemma {:induction false} ClosesOnlyUnmarked(s: State, steps: seq<Step>, t: State, w: WriterId, q: Id)
    requires Leads(s, steps, t) && AllWithin(steps, w) && w in s.writers && Close(w, q) in steps
    ensures q in MayClose(s.writers[w])
    decreases |steps|
  {
    var step := steps[0];
    assert steps == [step] + steps[1..];
    assert Within(step, w);
    if step != Close(w, q) {
      MayCloseShrinks(s, step, w);
      ClosesOnlyUnmarked(Apply(s, step), steps[1..], t, w, q);
    }
  }

  /** ... that have a receipt. */
  lemma {:induction false} ClosesOnlyReceived(s: State, steps: seq<Step>, t: State, w: WriterId, q: Id)
    requires KeysUnique(s) && WritersKnown(s) && ReceiptFirst(s) && Leads(s, steps, t) && Close(w, q) in steps
    ensures Received(t, q)
    decreases |steps|
  {
    var step, next := steps[0], Apply(s, steps[0]);
    assert steps == [step] + steps[1..];
    if step == Close(w, q) {
      assert q in Acknowledged(s.writers[w]);
      ReceiptsStay(s, step, q);
      ReceivedStays(next, steps[1..], t, q);
    } else {
      StepKeepsKeys(s, step);
      StepKeepsReceiptFirst(s, step);
      ClosesOnlyReceived(next, steps[1..], t, w, q);
    }
  }

  lemma {:induction false} ReceivedStays(s: State, steps: seq<Step>, t: State, q: Id)
    requires Leads(s, steps, t) && Received(s, q)
    ensures Received(t, q)
    decreases |steps|
  {
    if steps != [] {
      ReceiptsStay(s, steps[0], q);
      ReceivedStays(Apply(s, steps[0]), steps[1..], t, q);
    }
  }

  /** ... and before it publishes, it completes all of those that had their receipt from the start. */
  lemma {:induction false} ClosesAllDuplicates(s: State, steps: seq<Step>, t: State, w: WriterId, q: Id)
    requires Leads(s, steps, t) && AllWithin(steps, w) && w in s.writers && q in MayClose(s.writers[w])
             && Received(s, q)
    requires w in t.writers && t.writers[w].Publishing?
    ensures Close(w, q) in steps
    decreases |steps|
  {
    if steps != [] {
      var step, next := steps[0], Apply(s, steps[0]);
      assert steps == [step] + steps[1..];
      assert Within(step, w);
      if step != Close(w, q) {
        ReceiptsStay(s, step, q);
        ClosesAllDuplicates(next, steps[1..], t, w, q);
      }
    }
  }

  /** The steps from a claim of the writer to a later state of the same iteration. */
  ghost predicate Iteration(s: State, w: WriterId, ids: set<Id>, ttl: int, steps: seq<Step>, t: State)
  {
    Enabled(s, Claim(w, ids, ttl)) && Leads(Apply(s, Claim(w, ids, ttl)), steps, t) && AllWithin(steps, w)
  }

  lemma {:induction false} RunsKeepLocks(s: State, steps: seq<Step>, t: State)
    requires LocksHeld(s) && Leads(s, steps, t)
    ensures LocksHeld(t)
    decreases |steps|
  {
    if steps != [] {
      StepKeepsLocks(s, steps[0]);
      RunsKeepLocks(Apply(s, steps[0]), steps[1..], t);
    }
  }

  /** A claim is committed before the publication exactly when a duplicate was completed. */
  lemma CommittedIffClosed(s: State, w: WriterId, ids: set<Id>, ttl: int, steps: seq<Step>, t: State, r: Id)
    requires Iteration(s, w, ids, ttl, steps, t)
    requires w in t.writers && t.writers[w].Publishing? && r in t.writers[w].batch && r in t.queue
             && HeldBy(t.queue[r], w)
    ensures t.queue[r].lock.None? <==> ClosesAny(steps, w)
  {
    assert AllLocked(Apply(s, Claim(w, ids, ttl)), w);
    LockedUntilClose(Apply(s, Claim(w, ids, ttl)), steps, t, w);
    assert r in Mentioned(t.writers[w]);
  }

  /**
   When an iteration outlives its lease before it publishes, another writer can complete one
   of its results without the events if and only if the iteration has completed a duplicate:
   that commits the claim, and until then the claimed rows are locked.
   */
  lemma OverrunWritesTooEarlyIff(s: State, w: WriterId, ids: set<Id>, ttl: int, steps: seq<Step>, t: State, r: Id)
    requires LocksHeld(s) && Iteration(s, w, ids, ttl, steps, t) && AboutToPublish(t, w, r)
    ensures WrittenTooEarly(t, w, r) <==> ClosesAny(steps, w)
  {
    StepKeepsLocks(s, Claim(w, ids, ttl));
    RunsKeepLocks(Apply(s, Claim(w, ids, ttl)), steps, t);
    CommittedIffClosed(s, w, ids, ttl, steps, t, r);
    WrittenTooEarlyIffCommitted(t, w, r);
  }

  /** Whatever an iteration completes as a duplicate is an unmarked result of its batch that has a receipt. */
  lemma ClosedIsDuplicate(s: State, w: WriterId, ids: set<Id>, ttl: int, steps: seq<Step>, t: State, q: Id)
    requires KeysUnique(s) && WritersKnown(s) && ReceiptFirst(s)
    requires Iteration(s, w, ids, ttl, steps, t) && Close(w, q) in steps
    ensures q in ids && q in s.queue && s.queue[q].error != Neo4jPending && Received(t, q)
  {
    StepKeepsKeys(s, Claim(w, ids, ttl));
    StepKeepsReceiptFirst(s, Claim(w, ids, ttl));
    ClosesOnlyUnmarked(Apply(s, Claim(w, ids, ttl)), steps, t, w, q);
    ClosesOnlyReceived(Apply(s, Claim(w, ids, ttl)), steps, t, w, q);
  }

  /**
   Before it publishes, an iteration completes every unmarked result of its batch that had
   its receipt when it was claimed.
   */
  lemma DuplicateIsClosed(s: State, w: WriterId, ids: set<Id>, ttl: int, steps: seq<Step>, t: State, q: Id)
    requires Iteration(s, w, ids, ttl, steps, t) && w in t.writers && t.writers[w].Publishing?
    requires q in ids && q in s.queue && s.queue[q].error != Neo4jPending && Received(s, q)
    ensures Close(w, q) in steps
  {
    ReceiptsStay(s, Claim(w, ids, ttl), q);
    ClosesAllDuplicates(Apply(s, Claim(w, ids, ttl)), steps, t, w, q);
  }

  // ------------------------------------------------------------ the loss is reachable

  function Start(icmp: IcmpSettings): State
  {
    State(0, icmp, map[], {}, {}, [], {}, map[])
  }

  /** Row 0 of the queue, leased by writer 0, with nothing stored yet. */
  ghost predicate Untouched(t: State, icmp: IcmpSettings, e: Envelope)
  {
    && Reaches(Start(icmp), t) && t.now == 0 && t.icmp == icmp && t.published == {} && t.samples == {}
        && t.receipts == {}
    && t.queue == map[0 := Row(0, e, Ready, None, NoCode, Some(Lease(0, 60)))]
  }

  lemma ReachesClaimed(icmp: IcmpSettings, e: Envelope) returns (t: State)
    ensures Untouched(t, icmp, e) && t.writers == map[0 := Checking({0}, {}, {}, {})]
  {
    var s := Start(icmp);
    ReachesSelf(s);
    ReachesThen(s, s, Enqueue(0, 0, e, Ready));
    t := Apply(s, Enqueue(0, 0, e, Ready));
    ReachesThen(s, t, Claim(0, {0}, 60));
    t := Apply(t, Claim(0, {0}, 60));
    assert t.writers[0] == Checking({0}, {}, {}, {});
  }

  lemma ReachesTriage(icmp: IcmpSettings, e: Envelope) returns (t: State)
    ensures Untouched(t, icmp, e) && t.writers == map[0 := Checking({}, {}, {0}, {})]
  {
    t := ReachesClaimed(icmp, e);
    ReachesThen(Start(icmp), t, Check(0, 0));
    assert {0} - {0} == {} && {} + {0} == {0};
    t := Apply(t, Check(0, 0));
  }

  lemma ReachesStoring(icmp: IcmpSettings, e: Envelope) returns (t: State)
    ensures Untouched(t, icmp, e) && t.writers == map[0 := Storing({0}, {})]
  {
    t := ReachesTriage(icmp, e);
    ReachesThen(Start(icmp), t, Triage(0));
    t := Apply(t, Triage(0));
    assert t.writers[0] == Closing({}, {0}, {});
    ReachesThen(Start(icmp), t, BeginStore(0));
    t := Apply(t, BeginStore(0));
  }

  lemma ReachesPublishing(icmp: IcmpSettings, e: Envelope) returns (t: State)
    requires HasEvents(e, icmp) && DistinctKeys(AllSamples(e, None))
    ensures Reaches(Start(icmp), t) && LocksHeld(t) && AboutToPublish(t, 0, 0) && t.queue[0].envelope == e
  {
    var s := ReachesStoring(icmp, e);
    var plan := map[0 := AllSamples(e, None)];
    assert Enabled(s, Store(0, plan, true));
    ReachesThen(Start(icmp), s, Store(0, plan, true));
    assert 0 in KeysOfRows(s.queue, {0});
    t := Apply(s, Store(0, plan, true));
  }

  lemma LossIsReachable(icmp: IcmpSettings, e: Envelope)
    requires HasEvents(e, icmp) && DistinctKeys(AllSamples(e, None))
    ensures exists t :: Reaches(Start(icmp), t) && Lost(t, 0) && t.queue[0].envelope == e
  {
    var s := ReachesPublishing(icmp, e);
    ReachesThen(Start(icmp), s, Crash(0));
    CrashLosesEvents(s, 0, 0);
    var t :| Reaches(Apply(s, Crash(0)), t) && Lost(t, 0);
    ReachesFrom(Start(icmp), Apply(s, Crash(0)), t);
    EnvelopeStays(Apply(s, Crash(0)), t);
  }

  lemma EnvelopeStays(s: State, t: State)
    requires Reaches(s, t)
    ensures t.icmp == s.icmp && forall r | r in s.queue :: r in t.queue && t.queue[r].envelope == s.queue[r].envelope
  {
    var steps :| Leads(s, steps, t);
    EnvelopeStaysAlong(s, steps, t);
  }

  lemma {:induction false} EnvelopeStaysAlong(s: State, steps: seq<Step>, t: State)
    requires Leads(s, steps, t)
    ensures t.icmp == s.icmp && forall r | r in s.queue :: r in t.queue && t.queue[r].envelope == s.queue[r].envelope
    decreases |steps|
  {
    if steps != [] {
      StepKeepsRows(s, steps[0]);
      EnvelopeStaysAlong(Apply(s, steps[0]), steps[1..], t);
    }
  }
  // ----------------------------------------------------------- a result written too early

  /** A result without any sample. */
  function Blank(e: Envelope): Envelope
  {
    e.(numeric := None, metadata := e.metadata.(sidecars := {}))
  }

  /** What the run below does not touch after its first commit. */
  ghost predicate BlankStored(t: State, icmp: IcmpSettings)
  {
    Reaches(Start(icmp), t) && t.now == 0 && t.icmp == icmp && t.published == {} && t.samples == {} && t.receipts == {0}
  }

  lemma BlankPlanIsEnabled(s: State, plan: Plan)
    requires s.writers == map[0 := Storing({0}, {})] && 0 in s.queue && AllSamples(s.queue[0].envelope, None) == []
             && plan == map[0 := []]
    ensures Enabled(s, Store(0, plan, false))
  {
  }

  lemma StoreUnacknowledged(s: State, w: WriterId, plan: Plan, ids: set<Id>)
    requires Enabled(s, Store(w, plan, false)) && s.writers[w].unstored == ids
    ensures Apply(s, Store(w, plan, false)) ==
              s.(receipts := s.receipts + KeysOfRows(s.queue, ids), samples := s.samples + SamplesOf(plan),
                 commits := s.commits + [plan], writers := s.writers[w := Requeueing(ids, TimescaleError)])
  {
  }

  lemma BlankPlanSets(queue: map<Id, Row>, plan: Plan)
    requires queue.Keys == {0} && queue[0].key == 0 && plan == map[0 := []]
    ensures KeysOfRows(queue, {0}) == {0} && SamplesOf(plan) == {}
  {
    assert 0 in KeysOfRows(queue, {0});
  }

  /** Result 0 is stored, but its writer does not learn of it. */
  lemma ReachesUnacknowledged(icmp: IcmpSettings, blank: Envelope) returns (t: State)
    requires AllSamples(blank, None) == []
    ensures BlankStored(t, icmp) && t.writers == map[0 := Requeueing({0}, TimescaleError)]
    ensures t.queue == map[0 := Row(0, blank, Ready, None, NoCode, Some(Lease(0, 60)))]
  {
    var s := ReachesStoring(icmp, blank);
    var plan: Plan := map[0 := []];
    BlankPlanIsEnabled(s, plan);
    StoreUnacknowledged(s, 0, plan, {0});
    BlankPlanSets(s.queue, plan);
    ReachesThen(Start(icmp), s, Store(0, plan, false));
    t := Apply(s, Store(0, plan, false));
  }

  lemma ReachesRequeued(icmp: IcmpSettings, blank: Envelope) returns (t: State)
    requires AllSamples(blank, None) == []
    ensures BlankStored(t, icmp) && t.writers == map[0 := Requeueing({}, TimescaleError)]
    ensures t.queue == map[0 := Row(0, blank, RetryWait, None, TimescaleError, None)]
  {
    var s := ReachesUnacknowledged(icmp, blank);
    ReachesThen(Start(icmp), s, Requeue(0, 0));
    assert {0} - {0} == {};
    t := Apply(s, Requeue(0, 0));
  }

  /** It puts the result back. */
  lemma ReachesPutBack(icmp: IcmpSettings, e: Envelope) returns (t: State)
    ensures BlankStored(t, icmp) && t.writers == map[]
    ensures t.queue == map[0 := Row(0, Blank(e), RetryWait, None, TimescaleError, None)]
  {
    assert AllSamples(Blank(e), None) == [];
    var s := ReachesRequeued(icmp, Blank(e));
    ReachesThen(Start(icmp), s, Stop(0));
    t := Apply(s, Stop(0));
  }

  lemma ReachesTwoRows(icmp: IcmpSettings, e: Envelope) returns (t: State)
    ensures BlankStored(t, icmp) && t.writers == map[]
    ensures t.queue == map[0 := Row(0, Blank(e), RetryWait, None, TimescaleError, None),
            1 := Row(1, e, Ready, None, NoCode, None)]
  {
    var s := ReachesPutBack(icmp, e);
    ReachesThen(Start(icmp), s, Enqueue(1, 1, e, Ready));
    t := Apply(s, Enqueue(1, 1, e, Ready));
  }

  /** The next batch holds that duplicate and a new result 1. */
  lemma ReachesSecondBatch(icmp: IcmpSettings, e: Envelope) returns (t: State)
    ensures BlankStored(t, icmp) && t.writers == map[0 := Checking({0, 1}, {}, {}, {})]
    ensures t.queue == map[0 := Row(0, Blank(e), RetryWait, None, TimescaleError, Some(Lease(0, 60))),
                           1 := Row(1, e, Ready, None, NoCode, Some(Lease(0, 60)))]
  {
    var s := ReachesTwoRows(icmp, e);
    ReachesThen(Start(icmp), s, Claim(0, {0, 1}, 60));
    t := Apply(s, Claim(0, {0, 1}, 60));
    assert t.writers[0] == Checking({0, 1}, {}, {}, {});
  }

  lemma ReachesSorted(icmp: IcmpSettings, e: Envelope) returns (t: State)
    ensures BlankStored(t, icmp) && t.writers == map[0 := Closing({0}, {1}, {})]
    ensures t.queue == map[0 := Row(0, Blank(e), RetryWait, None, TimescaleError, Some(Lease(0, 60))),
                           1 := Row(1, e, Ready, None, NoCode, Some(Lease(0, 60)))]
  {
    t := ReachesSecondBatch(icmp, e);
    ReachesThen(Start(icmp), t, Check(0, 0));
    assert {0, 1} - {0} == {1} && {} + {0} == {0};
    t := Apply(t, Check(0, 0));
    ReachesThen(Start(icmp), t, Check(0, 1));
    assert {1} - {1} == {} && {} + {1} == {1};
    t := Apply(t, Check(0, 1));
    ReachesThen(Start(icmp), t, Triage(0));
    t := Apply(t, Triage(0));
    assert t.writers[0] == Closing({0}, {1}, {});
  }

  /** Completing the duplicate commits the claim of result 1. */
  lemma ReachesCommitted(icmp: IcmpSettings, e: Envelope) returns (t: State)
    ensures BlankStored(t, icmp) && t.writers == map[0 := Storing({1}, {})]
    ensures t.queue == map[0 := Row(0, Blank(e), Written, None, TimescaleError, None),
                           1 := Row(1, e, Leased, Some(Lease(0, 60)), NoCode, None)]
  {
    t := ReachesSorted(icmp, e);
    ReachesThen(Start(icmp), t, Close(0, 0));
    assert {0} - {0} == {};
    t := Apply(t, Close(0, 0));
    ReachesThen(Start(icmp), t, BeginStore(0));
    t := Apply(t, BeginStore(0));
  }

  /**
   From an empty queue, every result that has events and can be stored can be written before
   its events are published.
   */
  lemma TooEarlyIsReachable(icmp: IcmpSettings, e: Envelope)
    requires HasEvents(e, icmp) && DistinctKeys(AllSamples(e, None))
    ensures exists t ::
              Reaches(Start(icmp), t) && AboutToPublish(t, 0, 1) && t.queue[1].envelope == e && WrittenTooEarly(t, 0, 1)
  {
    var s := ReachesCommitted(icmp, e);
    var store := Store(0, map[1 := AllSamples(e, None)], true);
    assert Enabled(s, store);
    ReachesThen(Start(icmp), s, store);
    assert 1 in KeysOfRows(s.queue, {1});
    var t := Apply(s, store);
    ExpiredIsWritten(t, 0, 1);
  }

  // ------------------------------------------------------- which envelopes can lose their events

  /** No plan stores a key twice for one result. */
  ghost predicate PlansDistinct(commits: seq<Plan>)
  {
    forall i, r | 0 <= i < |commits| && r in commits[i] :: DistinctKeys(commits[i][r])
  }

  lemma {:induction false} RunsKeepPlansDistinct(s: State, steps: seq<Step>, t: State)
    requires Leads(s, steps, t) && PlansDistinct(s.commits)
    ensures PlansDistinct(t.commits)
    decreases |steps|
  {
    if steps != [] {
      var step, next := steps[0], Apply(s, steps[0]);
      StepKeepsRows(s, step);
      if step.Store? {
        forall r | r in step.plan
          ensures DistinctKeys(step.plan[r])
        {
          assert Insertable(s.samples, step.plan);
        }
      }
      RunsKeepPlansDistinct(next, steps[1..], t);
    }
  }

  /** Without an earlier latency there is one sample less, at most. */
  lemma DistinctWithoutJitter(e: Envelope, previous: Option<real>)
    requires DistinctKeys(AllSamples(e, previous))
    ensures DistinctKeys(AllSamples(e, None))
  {
    var all, fewer := AllSamples(e, previous), AllSamples(e, None);
    var jitter := JitterSamples(e, previous);
    var n := |MainSamples(e) + LatencySamples(e)|;
    forall i | 0 <= i < |fewer|
      ensures fewer[i] == all[if i < n then i else i + |jitter|]
    {
    }
    forall i, j | 0 <= i < j < |fewer|
      ensures fewer[i].key != fewer[j].key
    {
      assert fewer[i] == all[if i < n then i else i + |jitter|] && fewer[j] == all[if j < n then j else j + |jitter|];
    }
  }

  lemma LostWasStorable(icmp: IcmpSettings, e: Envelope, t: State, r: Id)
    requires Reaches(Start(icmp), t) && Lost(t, r) && t.queue[r].envelope == e
    ensures HasEvents(e, icmp) && DistinctKeys(AllSamples(e, None))
  {
    var steps :| Leads(Start(icmp), steps, t);
    EnvelopeStaysAlong(Start(icmp), steps, t);
    RunsAreSafe(Start(icmp), steps, t);
    RunsKeepPlansDistinct(Start(icmp), steps, t);
    assert Received(t, r);
    CommittedExact(t.commits, r);
    var i :| 0 <= i < |t.commits| && r in t.commits[i];
    assert Computed(e, t.commits[i][r]);
    var previous: Option<real> :| t.commits[i][r] == AllSamples(e, previous);
    DistinctWithoutJitter(e, previous);
  }

  /** A result can lose its events in some run if and only if it has any and one transaction can store its samples. */
  lemma EventsCanBeLostIff(icmp: IcmpSettings, e: Envelope)
    ensures (exists t, r :: Reaches(Start(icmp), t) && Lost(t, r) && t.queue[r].envelope == e) <==>
            TellsSomething(e, icmp) && !FixesKeyTwice(e)
  {
    EventPayloadsDecidedByEnvelope(e, icmp, None);
    DistinctKeysIff(e);
    if HasEvents(e, icmp) && DistinctKeys(AllSamples(e, None)) {
      LossIsReachable(icmp, e);
    }
    forall t, r | Reaches(Start(icmp), t) && Lost(t, r) && t.queue[r].envelope == e
      ensures HasEvents(e, icmp) && DistinctKeys(AllSamples(e, None))
    {
      LostWasStorable(icmp, e, t, r);
    }
  }
}
