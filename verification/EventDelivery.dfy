/**
 What the writer pool promises about events (backend/polling/writer_pool.py): under
 which discipline no event is lost, and which rows of the result queue no writer ever
 reaches.
 */
module EventDelivery {
  import opened Base
  import opened Envelopes
  import opened ResultPipeline

  // ---------------------------------------------------------------- stranded results

  /** A row queued with a polling status stays as it is: it is never leased, stored or published. */
  lemma {:induction false} PolledRowIsStranded(s: State, steps: seq<Step>, t: State, r: Id)
    requires KeysUnique(s) && WritersKnown(s) && PolledUntouched(s) && LocksHeld(s) && ReceiptFirst(s)
    requires ReceiptsMatchCommits(s) && Leads(s, steps, t)
    requires r in s.queue && s.queue[r].status == Polled && !Received(s, r) && r !in s.published
    ensures r in t.queue && t.queue[r] == s.queue[r]
    ensures !Received(t, r) && r !in t.published
    ensures forall i | 0 <= i < |t.commits| :: r !in t.commits[i]
    decreases |steps|
  {
    if steps == [] {
      CommittedExact(s.commits, r);
    } else {
      StepKeepsKeys(s, steps[0]);
      StepKeepsPolled(s, steps[0]);
      StepKeepsLocks(s, steps[0]);
      StepKeepsReceiptFirst(s, steps[0]);
      StepKeepsReceipts(s, steps[0]);
      PolledIsUnreceived(s, steps[0], r);
      if r in Apply(s, steps[0]).published {
        PublishedIsReceived(s, steps[0], r);
        assert false;
      }
      PolledRowIsStranded(Apply(s, steps[0]), steps[1..], t, r);
    }
  }

  // -------------------------------------------------------------- disciplined writers

  /** Every writer acts on a result only while its lease on it runs, or while its claim still locks the row. */
  ghost predicate LeasesRun(s: State)
  {
    forall w, r | w in s.writers && r in Mentioned(s.writers[w]) && r in s.queue && s.queue[r].lock.None?
        && s.queue[r].lease.Some? ::
      s.now < s.queue[r].lease.value.expires
  }

  /** No crash, no commit whose acknowledgement is lost, and no iteration that outlives a lease it has committed. */
  ghost predicate Disciplined(s: State, step: Step)
    requires Enabled(s, step)
  {
    !step.Crash? && (step.Store? ==> step.acknowledged) && LeasesRun(Apply(s, step))
  }

  ghost predicate AllDisciplined(s: State, steps: seq<Step>)
    decreases |steps|
  {
    steps == [] || (Enabled(s, steps[0]) && Disciplined(s, steps[0]) && AllDisciplined(Apply(s, steps[0]), steps[1..]))
  }

  /** A writer keeps the results it has sorted apart. */
  ghost predicate Parted(at: Writer)
  {
    match at
    case Checking(todo, dups, unstored, _) => todo !! dups !! unstored
    case Closing(todo, unstored, replay) => todo !! unstored !! replay
    case Storing(unstored, replay) => unstored !! replay
    case _ => true
  }

  /** A writer holds the lease of everything it still has to deal with. */
  ghost predicate Held(s: State)
  {
    && (forall w | w in s.writers :: Parted(s.writers[w]))
    && (forall w, r | w in s.writers && r in Mentioned(s.writers[w]) :: r in s.queue && HeldBy(s.queue[r], w))
  }

  ghost predicate Silent(s: State, r: Id)
  {
    r in s.queue && HasEvents(s.queue[r].envelope, s.icmp) ==> r in s.published
  }

  /** Stored by some writer that has yet to publish the events or to mark the row for a replay. */
  predicate Unsettled(at: Writer, r: Id)
  {
    (at.Publishing? && r in at.batch) || (at.Requeueing? && at.code == Neo4jPending && r in at.todo)
  }

  ghost predicate InFlight(s: State, r: Id)
  {
    exists w :: w in s.writers && Unsettled(s.writers[w], r)
  }

  /** What a writer knows about the results it holds. */
  ghost predicate Informed(s: State, at: Writer)
  {
    match at
    case Checking(todo, dups, unstored, pending) =>
      && (forall r | r in Mentioned(at) && r in s.queue :: r in pending <==> s.queue[r].error == Neo4jPending)
      && (forall r | r in unstored :: !Received(s, r))
    case Closing(todo, unstored, _) => (forall r | r in todo :: Silent(s, r))
        && (forall r | r in unstored :: !Received(s, r))
    case Storing(unstored, _) => forall r | r in unstored :: !Received(s, r)
    case Requeueing(todo, code) => code != Neo4jPending ==> forall r | r in todo :: !Received(s, r)
    case Publishing(_) => true
    case Completing(todo) => forall r | r in todo :: Silent(s, r)
  }

  ghost predicate AllInformed(s: State)
  {
    forall w | w in s.writers :: Informed(s, s.writers[w])
  }

  /** A stored result whose events are not published is marked for a replay or is in flight. */
  ghost predicate Accounted(s: State)
  {
    && (forall r | r in s.queue && Received(s, r) && !Silent(s, r) ::
        s.queue[r].error == Neo4jPending || InFlight(s, r))
    && (forall r | r in s.queue && s.queue[r].status == Written :: Silent(s, r))
  }

  lemma StepKeepsHeld(s: State, step: Step)
    requires Enabled(s, step) && WritersKnown(s) && LeasesRun(s) && Held(s)
    ensures Held(Apply(s, step))
  {
    var after := Apply(s, step);
    forall w | w in after.writers
      ensures Parted(after.writers[w])
    {
      assert w in s.writers ==> Parted(s.writers[w]);
    }
    forall w, r | w in after.writers && r in Mentioned(after.writers[w])
      ensures r in after.queue && HeldBy(after.queue[r], w)
    {
      HeldStays(s, step, w, r);
    }
  }

  lemma HeldStays(s: State, step: Step, w: WriterId, r: Id)
    requires Enabled(s, step) && WritersKnown(s) && LeasesRun(s) && Held(s)
    requires w in Apply(s, step).writers && r in Mentioned(Apply(s, step).writers[w])
    ensures r in Apply(s, step).queue && HeldBy(Apply(s, step).queue[r], w)
  {
    if w in s.writers {
      MentionedShrinks(s, step, w);
      assert HeldBy(s.queue[r], w) && Parted(s.writers[w]);
    }
  }

  lemma KeyNamesItsRow(s: State, ids: set<Id>, r: Id)
    requires KeysUnique(s) && r in s.queue
    ensures s.queue[r].key in KeysOfRows(s.queue, ids) <==> r in ids
  {
    if s.queue[r].key in KeysOfRows(s.queue, ids) {
      var q :| q in ids && q in s.queue && s.queue[q].key == s.queue[r].key;
      assert q == r;
    }
  }

  /** A receipt appears only through the transaction of a writer that stores the result. */
  lemma ReceiptUntouched(s: State, step: Step, r: Id)
    requires Enabled(s, step) && KeysUnique(s) && r in s.queue
    requires step.Store? ==> r !in s.writers[step.w].unstored
    ensures Received(Apply(s, step), r) <==> Received(s, r)
  {
    if step.Store? {
      KeyNamesItsRow(s, s.writers[step.w].unstored, r);
    } else {
      StepKeepsRows(s, step);
    }
  }

  lemma HeldApart(s: State, v: WriterId, w: WriterId)
    requires Held(s) && v in s.writers && w in s.writers
    ensures v == w || Mentioned(s.writers[v]) !! Mentioned(s.writers[w])
  {
    forall r | r in Mentioned(s.writers[v]) && r in Mentioned(s.writers[w])
      ensures v == w
    {
      assert HeldBy(s.queue[r], v) && HeldBy(s.queue[r], w);
    }
  }

  /** Only the writer that holds a result changes its row. */
  lemma RowUntouched(s: State, step: Step, w: WriterId, r: Id)
    requires Enabled(s, step) && LeasesRun(s) && Held(s)
    requires w in s.writers && r in Mentioned(s.writers[w])
    requires w in Apply(s, step).writers && Apply(s, step).writers[w] == s.writers[w]
    ensures r in Apply(s, step).queue && Apply(s, step).queue[r] == s.queue[r]
  {
    assert HeldBy(s.queue[r], w);
    if step.Close? || step.Requeue? || step.Finish? {
      HeldApart(s, step.w, w);
    }
  }

  lemma OthersUntouched(s: State, step: Step, w: WriterId, r: Id)
    requires Enabled(s, step) && KeysUnique(s) && LeasesRun(s) && Held(s)
    requires w in s.writers && r in Mentioned(s.writers[w])
    requires w in Apply(s, step).writers && Apply(s, step).writers[w] == s.writers[w]
    ensures r in Apply(s, step).queue && Apply(s, step).queue[r] == s.queue[r]
    ensures Received(Apply(s, step), r) <==> Received(s, r)
    ensures Silent(s, r) ==> Silent(Apply(s, step), r)
  {
    RowUntouched(s, step, w, r);
    if step.Store? {
      HeldApart(s, step.w, w);
    }
    ReceiptUntouched(s, step, r);
  }

  lemma BystanderKeepsInformed(s: State, step: Step, w: WriterId)
    requires Enabled(s, step) && KeysUnique(s) && LeasesRun(s) && Held(s)
    requires w in s.writers && Informed(s, s.writers[w])
    requires w in Apply(s, step).writers && Apply(s, step).writers[w] == s.writers[w]
    ensures Informed(Apply(s, step), s.writers[w])
  {
    forall r | r in Mentioned(s.writers[w])
      ensures r in Apply(s, step).queue && Apply(s, step).queue[r] == s.queue[r]
      ensures Received(Apply(s, step), r) <==> Received(s, r)
      ensures Silent(s, r) ==> Silent(Apply(s, step), r)
    {
      OthersUntouched(s, step, w, r);
    }
  }

  /** A leased duplicate that is not marked for a replay has had its events published. */
  lemma DuplicatesAreSilent(s: State, w: WriterId, r: Id)
    requires Held(s) && ReceiptFirst(s) && Accounted(s) && w in s.writers && Informed(s, s.writers[w])
    requires s.writers[w].Checking? && r in s.writers[w].dups - s.writers[w].pending
    ensures Silent(s, r)
  {
    assert r in Acknowledged(s.writers[w]) && r in Mentioned(s.writers[w]);
    forall v | v in s.writers
      ensures !Unsettled(s.writers[v], r)
    {
      HeldApart(s, v, w);
    }
    assert !InFlight(s, r);
  }

  lemma StepKeepsRowsKnown(s: State, step: Step, r: Id)
    requires Enabled(s, step) && r in s.queue
    ensures r in Apply(s, step).queue && Apply(s, step).icmp == s.icmp
    ensures Apply(s, step).queue[r].key == s.queue[r].key && Apply(s, step).queue[r].envelope == s.queue[r].envelope
    ensures Silent(s, r) ==> Silent(Apply(s, step), r)
  {
  }

  predicate Acts(s: State, step: Step, w: WriterId)
  {
    match step
    case Tick(_) => false
    case Enqueue(_, _, _, _) => false
    case ExpireLeases => false
    case _ => step.w == w
  }

  lemma ActorStaysInformed(s: State, step: Step, w: WriterId)
    requires Enabled(s, step) && KeysUnique(s) && WritersKnown(s) && ReceiptFirst(s) && LeasesRun(s) && Held(s)
    requires Accounted(s) && Disciplined(s, step) && Acts(s, step, w)
    requires w in s.writers ==> Informed(s, s.writers[w])
    requires w in Apply(s, step).writers
    ensures Informed(Apply(s, step), Apply(s, step).writers[w])
  {
    var after := Apply(s, step);
    if step.Triage? {
      forall r | r in s.writers[w].dups - s.writers[w].pending
        ensures Silent(after, r)
      {
        DuplicatesAreSilent(s, w, r);
      }
    } else if step.Close? || step.Requeue? || step.Finish? {
      forall r | r in s.queue
        ensures Silent(s, r) ==> Silent(after, r)
        ensures Received(after, r) <==> Received(s, r)
      {
        StepKeepsRowsKnown(s, step, r);
      }
    }
  }

  lemma StepKeepsInformed(s: State, step: Step)
    requires Enabled(s, step) && KeysUnique(s) && WritersKnown(s) && ReceiptFirst(s) && LeasesRun(s) && Held(s)
    requires Accounted(s) && AllInformed(s) && Disciplined(s, step)
    ensures AllInformed(Apply(s, step))
  {
    forall w | w in Apply(s, step).writers
      ensures Informed(Apply(s, step), Apply(s, step).writers[w])
    {
      if Acts(s, step, w) {
        ActorStaysInformed(s, step, w);
      } else {
        BystanderKeepsInformed(s, step, w);
      }
    }
  }

  /** An unsettled result stays unsettled until its events are published or its row is marked. */
  lemma InFlightUntilSettled(s: State, step: Step, r: Id)
    requires Enabled(s, step) && Disciplined(s, step) && r in s.queue && InFlight(s, r)
    ensures var after := Apply(s, step);
            r in after.queue && (Silent(after, r) || after.queue[r].error == Neo4jPending || InFlight(after, r))
  {
    var after := Apply(s, step);
    StepKeepsRowsKnown(s, step, r);
    var w :| w in s.writers && Unsettled(s.writers[w], r);
    if w in after.writers && after.writers[w] == s.writers[w] {
      assert Unsettled(after.writers[w], r);
    } else if step.PublishFails? && !Silent(s, r) {
      assert Unsettled(after.writers[w], r);
    } else if step.Requeue? && step.r != r {
      assert Unsettled(after.writers[w], r);
    }
  }

  /** A row loses its replay mark only to a writer that holds it unstored. */
  lemma MarkStays(s: State, step: Step, r: Id)
    requires Enabled(s, step) && AllInformed(s) && Received(s, r) && s.queue[r].error == Neo4jPending
    ensures r in Apply(s, step).queue && Apply(s, step).queue[r].error == Neo4jPending
  {
    if step.Requeue? {
      assert Informed(s, s.writers[step.w]);
    }
  }

  lemma NewReceiptIsInFlight(s: State, step: Step, r: Id)
    requires Enabled(s, step) && Disciplined(s, step) && KeysUnique(s) && ReceiptsMatchCommits(s)
    requires Received(Apply(s, step), r) && !Received(s, r)
    ensures InFlight(Apply(s, step), r)
  {
    var after := Apply(s, step);
    if step.Store? && r in s.writers[step.w].unstored {
      assert Unsettled(after.writers[step.w], r);
    } else if r in s.queue {
      ReceiptUntouched(s, step, r);
    }
  }

  lemma WrittenIsSilent(s: State, step: Step, r: Id)
    requires Enabled(s, step) && AllInformed(s) && Accounted(s)
    requires r in Apply(s, step).queue && Apply(s, step).queue[r].status == Written
    ensures Silent(Apply(s, step), r)
  {
    assert r in s.queue;
    StepKeepsRowsKnown(s, step, r);
    if s.queue[r].status != Written {
      assert Informed(s, s.writers[step.w]);
    }
  }

  lemma StepKeepsAccounted(s: State, step: Step)
    requires Enabled(s, step) && Disciplined(s, step) && KeysUnique(s) && ReceiptsMatchCommits(s)
    requires AllInformed(s) && Accounted(s)
    ensures Accounted(Apply(s, step))
  {
    var after := Apply(s, step);
    forall r | Received(after, r) && !Silent(after, r)
      ensures after.queue[r].error == Neo4jPending || InFlight(after, r)
    {
      if !Received(s, r) {
        NewReceiptIsInFlight(s, step, r);
      } else {
        StepKeepsRowsKnown(s, step, r);
        if s.queue[r].error == Neo4jPending {
          MarkStays(s, step, r);
        } else {
          InFlightUntilSettled(s, step, r);
        }
      }
    }
    forall r | r in after.queue && after.queue[r].status == Written
      ensures Silent(after, r)
    {
      WrittenIsSilent(s, step, r);
    }
  }

  /** What disciplined runs keep on top of `Safe`. */
  ghost predicate Delivering(s: State)
  {
    Safe(s) && LeasesRun(s) && Held(s) && AllInformed(s) && Accounted(s)
  }

  lemma StepKeepsDelivering(s: State, step: Step)
    requires Enabled(s, step) && Disciplined(s, step) && Delivering(s)
    ensures Delivering(Apply(s, step))
  {
    StepKeepsSafe(s, step);
    StepKeepsHeld(s, step);
    StepKeepsInformed(s, step);
    StepKeepsAccounted(s, step);
  }

  lemma {:induction false} DisciplinedRunsDeliver(s: State, steps: seq<Step>, t: State)
    requires Delivering(s) && Leads(s, steps, t) && AllDisciplined(s, steps)
    ensures Delivering(t)
    decreases |steps|
  {
    if steps != [] {
      StepKeepsDelivering(s, steps[0]);
      DisciplinedRunsDeliver(Apply(s, steps[0]), steps[1..], t);
    }
  }

  /**
   Without crashes, lost acknowledgements and overrun committed leases, a result becomes written
   only after its events are in the event store, and a stored result whose events are
   missing is still marked for a replay or in some writer's hands.
   */
  lemma NoLostEvent(s: State, steps: seq<Step>, t: State, r: Id)
    requires IsInitial(s) && Leads(s, steps, t) && AllDisciplined(s, steps)
    requires r in t.queue && HasEvents(t.queue[r].envelope, t.icmp) && r !in t.published
    ensures t.queue[r].status != Written
    ensures Received(t, r) ==> t.queue[r].error == Neo4jPending || InFlight(t, r)
  {
    DisciplinedRunsDeliver(s, steps, t);
  }

  // ------------------------------------------------------ a replay stores nothing twice

  ghost predicate StoredOnce(commits: seq<Plan>)
  {
    forall i, j | 0 <= i < j < |commits| :: commits[i].Keys !! commits[j].Keys
  }

  lemma StepKeepsStoredOnce(s: State, step: Step)
    requires Enabled(s, step) && Delivering(s) && StoredOnce(s.commits)
    ensures StoredOnce(Apply(s, step).commits)
  {
    if step.Store? {
      forall i | 0 <= i < |s.commits|
        ensures s.commits[i].Keys !! step.plan.Keys
      {
        StoresOnlyNew(s, step, i);
      }
    } else {
      StepKeepsRows(s, step);
    }
  }

  lemma StoresOnlyNew(s: State, step: Step, i: nat)
    requires step.Store? && Enabled(s, step) && Delivering(s) && i < |s.commits|
    ensures s.commits[i].Keys !! step.plan.Keys
  {
    assert Informed(s, s.writers[step.w]);
    forall r | r in step.plan
      ensures r !in s.commits[i]
    {
      CommittedExact(s.commits, r);
    }
  }

  /** A Neo4j failure is replayed without a second insert: in a disciplined run no result is stored twice. */
  lemma {:induction false} ReplayStoresNothing(s: State, steps: seq<Step>, t: State)
    requires Delivering(s) && StoredOnce(s.commits) && Leads(s, steps, t) && AllDisciplined(s, steps)
    ensures StoredOnce(t.commits)
    decreases |steps|
  {
    if steps != [] {
      StepKeepsStoredOnce(s, steps[0]);
      StepKeepsDelivering(s, steps[0]);
      ReplayStoresNothing(Apply(s, steps[0]), steps[1..], t);
    }
  }
}
