/**
 The result writer pool as a step protocol (backend/polling/writer_pool.py over
 backend/polling/pg_queue.py). Any number of writers lease results, look up
 receipts, store samples and receipts in one transaction and then publish events;
 they may fail at either store, crash between any two steps, or outlive their lease.
 A claim is committed by the first row that its writer completes or puts back; until
 then the claimed rows are locked, and nobody else sees the lease.
 */
module ResultPipeline {
  import opened Base
  import opened Envelopes

  type WriterId = nat

  /** `Polled` stands for a row whose status is a polling status such as OK or TIMEOUT. */
  datatype RowStatus = Ready | RetryWait | Leased | Written | Polled
  datatype ErrorCode = NoCode | TimescaleError | Neo4jPending
  datatype Lease = Lease(owner: WriterId, expires: int)

  /** `lock` is the lease that a claim will write when its transaction commits. */
  datatype Row = Row(key: Id, envelope: Envelope, status: RowStatus, lease: Option<Lease>, error: ErrorCode,
      lock: Option<Lease>)

  /** Where a writer is in one iteration, with the results it still has to deal with. */
  datatype Writer =
    | Checking(todo: set<Id>, dups: set<Id>, unstored: set<Id>, pending: set<Id>)
    | Closing(todo: set<Id>, unstored: set<Id>, replay: set<Id>)
    | Storing(unstored: set<Id>, replay: set<Id>)
    | Requeueing(todo: set<Id>, code: ErrorCode)
    | Publishing(batch: set<Id>)
    | Completing(todo: set<Id>)

  /** What one transaction stores: for each result its samples. */
  type Plan = map<Id, seq<Sample>>

  datatype State = State(
    now: int,
    icmp: IcmpSettings,
    queue: map<Id, Row>,
    receipts: set<Id>,
    samples: set<Sample>,
    commits: seq<Plan>,
    published: set<Id>,
    writers: map<WriterId, Writer>)

  datatype Step =
    | Tick(dt: nat)
    | Enqueue(r: Id, key: Id, envelope: Envelope, status: RowStatus)
    | ExpireLeases
    | Claim(w: WriterId, ids: set<Id>, ttl: int)
    | Check(w: WriterId, r: Id)
    | Triage(w: WriterId)
    | Close(w: WriterId, r: Id)
    | BeginStore(w: WriterId)
    | Store(w: WriterId, plan: Plan, acknowledged: bool)
    | StoreFails(w: WriterId)
    | Requeue(w: WriterId, r: Id)
    | Publish(w: WriterId)
    | PublishFails(w: WriterId)
    | Finish(w: WriterId, r: Id)
    | Stop(w: WriterId)
    | Crash(w: WriterId)

  predicate IsInitial(s: State)
  {
    s.queue == map[] && s.receipts == {} && s.samples == {} && s.commits == [] && s.published == {}
        && s.writers == map[]
  }

  // ------------------------------------------------------------ the transition system

  predicate Claimable(row: Row, now: int)
  {
    row.status in {Ready, RetryWait} || (row.status == Leased && row.lease.Some? && row.lease.value.expires <= now)
  }

  /** Claims skip locked rows. */
  predicate Eligible(row: Row, now: int)
  {
    row.lock.None? && Claimable(row, now)
  }

  predicate LockedBy(row: Row, w: WriterId)
  {
    row.lock.Some? && row.lock.value.owner == w
  }

  /** No other writer's transaction has the row locked. */
  predicate Free(row: Row, w: WriterId)
  {
    row.lock.Some? ==> row.lock.value.owner == w
  }

  /** The writer has leased the row, or has it locked until the lease is committed. */
  predicate HeldBy(row: Row, w: WriterId)
  {
    if row.lock.Some? then row.lock.value.owner == w
    else row.status == Leased && row.lease.Some? && row.lease.value.owner == w
  }

  /** The writer's transaction commits: the leases of its claim become visible. */
  function Commit(queue: map<Id, Row>, w: WriterId): map<Id, Row>
  {
    map r | r in queue ::
        if LockedBy(queue[r], w) then queue[r].(status := Leased, lease := queue[r].lock, lock := None) else queue[r]
  }

  /** The writer's session ends: a claim that was not committed is undone. */
  function Released(queue: map<Id, Row>, w: WriterId): map<Id, Row>
  {
    map r | r in queue :: if LockedBy(queue[r], w) then queue[r].(lock := None) else queue[r]
  }

  /** The samples of one result as some attempt computes them. */
  ghost predicate Computed(e: Envelope, samples: seq<Sample>)
  {
    exists previous: Option<real> :: samples == AllSamples(e, previous)
  }

  predicate HasKey(samples: set<Sample>, key: SampleKey)
  {
    exists sample :: sample in samples && sample.key == key
  }

  /** The primary key of the sample table admits the whole plan. */
  predicate Insertable(samples: set<Sample>, plan: Plan)
  {
    && (forall r, i | r in plan && 0 <= i < |plan[r]| :: !HasKey(samples, plan[r][i].key))
    && (forall r, q, i, j | r in plan && q in plan && 0 <= i < |plan[r]| && 0 <= j < |plan[q]| && (r != q || i != j) ::
          plan[r][i].key != plan[q][j].key)
  }

  /** The table refuses a plan only for a key that it has already, or that the plan holds twice. */
  lemma InsertableIff(samples: set<Sample>, plan: Plan)
    ensures Insertable(samples, plan) <==>
              && (forall r, i, sample | r in plan && 0 <= i < |plan[r]| && sample in samples ::
                    sample.key != plan[r][i].key)
              && (forall r, q, i, j | r in plan && q in plan && 0 <= i < |plan[r]| && 0 <= j < |plan[q]|
                    && plan[r][i].key == plan[q][j].key :: r == q && i == j)
  {
    forall r, i | r in plan && 0 <= i < |plan[r]|
      ensures !HasKey(samples, plan[r][i].key) <==> forall sample | sample in samples :: sample.key != plan[r][i].key
    {
    }
  }

  function SamplesOf(plan: Plan): set<Sample>
  {
    set r, sample | r in plan && sample in plan[r] :: sample
  }

  function KeysOfRows(queue: map<Id, Row>, ids: set<Id>): set<Id>
  {
    set r | r in ids && r in queue :: queue[r].key
  }

  ghost predicate Enabled(s: State, step: Step)
  {
    match step
    case Tick(_) => true
    case Enqueue(r, key, _, status) =>
      r !in s.queue && (forall q | q in s.queue :: s.queue[q].key != key) && status in {Ready, Polled}
    case ExpireLeases => true
    case Claim(w, ids, _) =>
      w !in s.writers && ids != {} && forall r | r in ids :: r in s.queue && Eligible(s.queue[r], s.now)
    case Check(w, r) => w in s.writers && s.writers[w].Checking? && r in s.writers[w].todo && r in s.queue
    case Triage(w) => w in s.writers && s.writers[w].Checking? && s.writers[w].todo == {}
    case Close(w, r) => w in s.writers && s.writers[w].Closing? && r in s.writers[w].todo && r in s.queue
        && Free(s.queue[r], w)
    case BeginStore(w) => w in s.writers && s.writers[w].Closing? && s.writers[w].todo == {}
    case Store(w, plan, _) =>
      && w in s.writers && s.writers[w].Storing? && plan.Keys == s.writers[w].unstored
      && (forall r | r in plan :: r in s.queue && Computed(s.queue[r].envelope, plan[r]))
      && Insertable(s.samples, plan)
    case StoreFails(w) => w in s.writers && s.writers[w].Storing?
    case Requeue(w, r) => w in s.writers && s.writers[w].Requeueing? && r in s.writers[w].todo && r in s.queue
        && Free(s.queue[r], w)
    case Publish(w) => w in s.writers && s.writers[w].Publishing?
    case PublishFails(w) => w in s.writers && s.writers[w].Publishing?
    case Finish(w, r) => w in s.writers && s.writers[w].Completing? && r in s.writers[w].todo && r in s.queue
        && Free(s.queue[r], w)
    case Stop(w) => w in s.writers && (s.writers[w].Requeueing? || s.writers[w].Completing?) && s.writers[w].todo == {}
    case Crash(w) => w in s.writers
  }

  function With(s: State, w: WriterId, writer: Writer): State
  {
    s.(writers := s.writers[w := writer])
  }

  function Without(s: State, w: WriterId): State
  {
    s.(queue := Released(s.queue, w), writers := map v | v in s.writers && v != w :: s.writers[v])
  }

  /** The writer changes a row and commits. */
  function SetRow(s: State, w: WriterId, r: Id, row: Row): State
  {
    s.(queue := Commit(s.queue, w)[r := row])
  }

  function Complete(row: Row): Row
  {
    row.(status := Written, lease := None, lock := None)
  }

  function Retry(row: Row, code: ErrorCode): Row
  {
    row.(status := RetryWait, lease := None, error := code, lock := None)
  }

  function EventsOf(queue: map<Id, Row>, icmp: IcmpSettings, ids: set<Id>): set<Id>
  {
    set r | r in ids && r in queue && HasEvents(queue[r].envelope, icmp)
  }

  function WithEvents(s: State, ids: set<Id>): set<Id>
  {
    EventsOf(s.queue, s.icmp, ids)
  }

  function Received(s: State, r: Id): bool
  {
    r in s.queue && s.queue[r].key in s.receipts
  }

  ghost function Apply(s: State, step: Step): State
    requires Enabled(s, step)
  {
    match step
    case Tick(dt) => s.(now := s.now + dt)
    case Enqueue(r, key, envelope, status) => s.(queue := s.queue[r := Row(key, envelope, status, None, NoCode, None)])
    case ExpireLeases =>
      s.(queue := map r | r in s.queue ::
           if s.queue[r].status == Leased && Eligible(s.queue[r], s.now)
           then s.queue[r].(status := RetryWait, lease := None) else s.queue[r])
    case Claim(w, ids, ttl) =>
      var pending := set r | r in ids && s.queue[r].error == Neo4jPending;
      With(s.(queue := map r | r in s.queue ::
                if r in ids then s.queue[r].(lock := Some(Lease(w, s.now + ttl))) else s.queue[r]),
           w, Checking(ids, {}, {}, pending))
    case Check(w, r) =>
      var at := s.writers[w];
      With(s, w, if Received(s, r) then Checking(at.todo - {r}, at.dups + {r}, at.unstored, at.pending)
                 else Checking(at.todo - {r}, at.dups, at.unstored + {r}, at.pending))
    case Triage(w) =>
      var at := s.writers[w];
      With(s, w, Closing(at.dups - at.pending, at.unstored, at.dups * at.pending))
    case Close(w, r) =>
      var at := s.writers[w];
      With(SetRow(s, w, r, Complete(s.queue[r])), w, Closing(at.todo - {r}, at.unstored, at.replay))
    case BeginStore(w) => With(s, w, Storing(s.writers[w].unstored, s.writers[w].replay))
    case Store(w, plan, acknowledged) =>
      var at := s.writers[w];
      With(s.(receipts := s.receipts + KeysOfRows(s.queue, at.unstored), samples := s.samples
          + SamplesOf(plan), commits := s.commits + [plan]),
           w, if acknowledged then Publishing(at.unstored + at.replay) else Requeueing(at.unstored, TimescaleError))
    case StoreFails(w) => With(s, w, Requeueing(s.writers[w].unstored, TimescaleError))
    case Requeue(w, r) =>
      var at := s.writers[w];
      With(SetRow(s, w, r, Retry(s.queue[r], at.code)), w, Requeueing(at.todo - {r}, at.code))
    case Publish(w) =>
      var batch := s.writers[w].batch;
      With(s.(published := s.published + WithEvents(s, batch)), w, Completing(batch))
    case PublishFails(w) => With(s, w, Requeueing(WithEvents(s, s.writers[w].batch), Neo4jPending))
    case Finish(w, r) =>
      var at := s.writers[w];
      With(SetRow(s, w, r, Complete(s.queue[r])), w, Completing(at.todo - {r}))
    case Stop(w) => Without(s, w)
    case Crash(w) => Without(s, w)
  }

  /** Performing the steps one after the other leads from `s` to `t`. */
  ghost predicate Leads(s: State, steps: seq<Step>, t: State)
    decreases |steps|
  {
    if steps == [] then s == t
    else Enabled(s, steps[0]) && Leads(Apply(s, steps[0]), steps[1..], t)
  }

  lemma {:induction false} LeadsThen(s: State, steps: seq<Step>, t: State, step: Step)
    requires Leads(s, steps, t) && Enabled(t, step)
    ensures Leads(s, steps + [step], Apply(t, step))
    decreases |steps|
  {
    if steps == [] {
      assert steps + [step] == [step];
      assert [step][1..] == [];
    } else {
      LeadsThen(Apply(s, steps[0]), steps[1..], t, step);
      assert (steps + [step])[1..] == steps[1..] + [step];
    }
  }

  /**
   The expiry of leases puts back the unlocked rows whose lease is over, and no others. It makes
   no row claimable that was not so before: a claim takes rows with an old lease as well.
   */
  lemma ExpiryExact(s: State, r: Id)
    requires r in s.queue
    ensures var before, after := s.queue[r], Apply(s, ExpireLeases).queue;
            r in after
            && (if before.status == Leased && before.lock.None? && before.lease.Some?
                && before.lease.value.expires <= s.now
                then after[r] == before.(status := RetryWait, lease := None) else after[r] == before)
            && (Eligible(after[r], s.now) <==> Eligible(before, s.now))
    ensures Apply(s, ExpireLeases) == s.(queue := Apply(s, ExpireLeases).queue)
            && Apply(s, ExpireLeases).queue.Keys == s.queue.Keys
  {
  }

  // ------------------------------------------------------------- what every step keeps

  function Mentioned(at: Writer): set<Id>
  {
    match at
    case Checking(todo, dups, unstored, _) => todo + dups + unstored
    case Closing(todo, unstored, replay) => todo + unstored + replay
    case Storing(unstored, replay) => unstored + replay
    case Requeueing(todo, _) => todo
    case Publishing(batch) => batch
    case Completing(todo) => todo
  }

  /** The results that a writer holds because it saw, or wrote, their receipt. */
  function Acknowledged(at: Writer): set<Id>
  {
    match at
    case Checking(_, dups, _, _) => dups
    case Closing(todo, _, replay) => todo + replay
    case Storing(_, replay) => replay
    case Requeueing(todo, code) => if code == Neo4jPending then todo else {}
    case Publishing(batch) => batch
    case Completing(todo) => todo
  }

  ghost predicate KeysUnique(s: State)
  {
    forall r, q | r in s.queue && q in s.queue && r != q :: s.queue[r].key != s.queue[q].key
  }

  ghost predicate WritersKnown(s: State)
  {
    forall w | w in s.writers :: Mentioned(s.writers[w]) <= s.queue.Keys
  }

  /** Rows with a polling status belong to no writer. */
  ghost predicate PolledUntouched(s: State)
  {
    forall w, r | w in s.writers && r in Mentioned(s.writers[w]) && r in s.queue :: s.queue[r].status != Polled
  }

  /** A locked row is one that its writer could claim, and the writer is still there. */
  ghost predicate LocksHeld(s: State)
  {
    forall r | r in s.queue && s.queue[r].lock.Some? ::
        Claimable(s.queue[r], s.now) && s.queue[r].lock.value.owner in s.writers
  }

  /** A row is written, or waits for a replay of its events, only when its receipt is stored. */
  ghost predicate ReceiptFirst(s: State)
  {
    && (forall r | r in s.queue && (s.queue[r].status == Written || s.queue[r].error == Neo4jPending) :: Received(s, r))
    && (forall w, r | w in s.writers && r in Acknowledged(s.writers[w]) :: Received(s, r))
  }

  /** Rows are never removed and keep their key and envelope. */
  ghost predicate RowsKept(s: State, after: State)
  {
    forall r | r in s.queue ::
        r in after.queue && after.queue[r].key == s.queue[r].key && after.queue[r].envelope == s.queue[r].envelope
  }

  ghost predicate LedgerUntouched(s: State, after: State)
  {
    after.receipts == s.receipts && after.samples == s.samples && after.commits == s.commits
  }

  /** Both queues have the same rows, apart from who works on them. */
  ghost predicate SameResults(queue: map<Id, Row>, after: map<Id, Row>)
  {
    after.Keys == queue.Keys && forall r | r in queue ::
        after[r].key == queue[r].key && after[r].envelope == queue[r].envelope
  }

  lemma StepKeepsResults(s: State, step: Step)
    requires Enabled(s, step) && !step.Enqueue?
    ensures SameResults(s.queue, Apply(s, step).queue)
  {
    match step
    case Close(w, r) => assert SameResults(s.queue, Commit(s.queue, w));
    case Requeue(w, r) => assert SameResults(s.queue, Commit(s.queue, w));
    case Finish(w, r) => assert SameResults(s.queue, Commit(s.queue, w));
    case Stop(w) => assert SameResults(s.queue, Released(s.queue, w));
    case Crash(w) => assert SameResults(s.queue, Released(s.queue, w));
    case _ =>
  }

  lemma StepKeepsRows(s: State, step: Step)
    requires Enabled(s, step)
    ensures RowsKept(s, Apply(s, step))
    ensures !step.Store? ==> LedgerUntouched(s, Apply(s, step))
    ensures !step.Enqueue? ==> Apply(s, step).queue.Keys == s.queue.Keys
  {
    if !step.Enqueue? {
      StepKeepsResults(s, step);
    }
  }

  /** An iteration only ever drops results. */
  lemma MentionedShrinks(s: State, step: Step, w: WriterId)
    requires Enabled(s, step) && w in s.writers && w in Apply(s, step).writers
    ensures Mentioned(Apply(s, step).writers[w]) <= Mentioned(s.writers[w])
  {
  }

  lemma StepKeepsKeys(s: State, step: Step)
    requires Enabled(s, step) && KeysUnique(s) && WritersKnown(s)
    ensures KeysUnique(Apply(s, step)) && WritersKnown(Apply(s, step))
  {
    var after := Apply(s, step);
    if step.Enqueue? {
      assert after.writers == s.writers && s.queue.Keys <= after.queue.Keys;
    } else {
      StepKeepsResults(s, step);
      forall w | w in after.writers
        ensures Mentioned(after.writers[w]) <= after.queue.Keys
      {
        if w in s.writers {
          MentionedShrinks(s, step, w);
        }
      }
    }
  }

  lemma PolledStays(s: State, step: Step, r: Id)
    requires Enabled(s, step) && PolledUntouched(s) && LocksHeld(s) && r in s.queue
    ensures r in Apply(s, step).queue
    ensures s.queue[r].status == Polled ==> Apply(s, step).queue[r] == s.queue[r]
    ensures s.queue[r].status != Polled ==> Apply(s, step).queue[r].status != Polled
  {
    if step.Close? || step.Requeue? || step.Finish? {
      assert step.r in Mentioned(s.writers[step.w]);
    }
  }

  lemma StepKeepsPolled(s: State, step: Step)
    requires Enabled(s, step) && PolledUntouched(s) && WritersKnown(s) && LocksHeld(s)
    ensures PolledUntouched(Apply(s, step))
    ensures forall r | r in s.queue && s.queue[r].status == Polled ::
              r in Apply(s, step).queue && Apply(s, step).queue[r] == s.queue[r]
  {
    var after := Apply(s, step);
    forall r | r in s.queue
      ensures r in after.queue && (s.queue[r].status == Polled ==> after.queue[r] == s.queue[r])
    {
      PolledStays(s, step, r);
    }
    forall w, r | w in after.writers && r in Mentioned(after.writers[w]) && r in after.queue
      ensures after.queue[r].status != Polled
    {
      if w in s.writers {
        MentionedShrinks(s, step, w);
      }
      assert r in s.queue && s.queue[r].status != Polled;
      PolledStays(s, step, r);
    }
  }

  lemma StepKeepsLocks(s: State, step: Step)
    requires Enabled(s, step) && LocksHeld(s)
    ensures LocksHeld(Apply(s, step))
  {
  }

  lemma ReceiptsStay(s: State, step: Step, r: Id)
    requires Enabled(s, step) && Received(s, r)
    ensures Received(Apply(s, step), r)
  {
    StepKeepsRows(s, step);
  }

  /** What a writer acknowledges has its receipt from before, or from its own transaction. */
  lemma AcknowledgedIsReceived(s: State, step: Step, w: WriterId, r: Id)
    requires Enabled(s, step) && ReceiptFirst(s) && WritersKnown(s)
    requires w in Apply(s, step).writers && r in Acknowledged(Apply(s, step).writers[w])
    ensures Received(Apply(s, step), r)
  {
    if Received(s, r) {
      ReceiptsStay(s, step, r);
    } else {
      assert w in s.writers ==> r !in Acknowledged(s.writers[w]);
      assert step.Store? && step.w == w && r in Mentioned(s.writers[w]) && r in s.writers[w].unstored;
      assert s.queue[r].key in KeysOfRows(s.queue, s.writers[w].unstored);
    }
  }

  /** A row is completed or marked only by a writer that acknowledges it. */
  lemma FinishedIsReceived(s: State, step: Step, r: Id)
    requires Enabled(s, step) && ReceiptFirst(s)
    requires r in Apply(s, step).queue
             && (Apply(s, step).queue[r].status == Written || Apply(s, step).queue[r].error == Neo4jPending)
    ensures Received(Apply(s, step), r)
  {
    if step.Close? || step.Finish? || step.Requeue? {
      assert step.r in Acknowledged(s.writers[step.w]) ==> Received(s, step.r);
    }
    if Received(s, r) {
      ReceiptsStay(s, step, r);
    }
  }

  lemma StepKeepsReceiptFirst(s: State, step: Step)
    requires Enabled(s, step) && ReceiptFirst(s) && WritersKnown(s)
    ensures ReceiptFirst(Apply(s, step))
  {
    var after := Apply(s, step);
    forall w, r | w in after.writers && r in Acknowledged(after.writers[w])
      ensures Received(after, r)
    {
      AcknowledgedIsReceived(s, step, w, r);
    }
    forall r | r in after.queue && (after.queue[r].status == Written || after.queue[r].error == Neo4jPending)
      ensures Received(after, r)
    {
      FinishedIsReceived(s, step, r);
    }
  }

  // ------------------------------------------------------------ samples exactly once

  function Committed(commits: seq<Plan>): set<Id>
  {
    if commits == [] then {} else Committed(commits[..|commits| - 1]) + commits[|commits| - 1].Keys
  }

  function Inserted(commits: seq<Plan>): set<Sample>
  {
    if commits == [] then {} else Inserted(commits[..|commits| - 1]) + SamplesOf(commits[|commits| - 1])
  }

  /** A result holds a receipt exactly when some transaction stored it. */
  ghost predicate ReceiptsMatchCommits(s: State)
  {
    && Committed(s.commits) <= s.queue.Keys
    && (forall r | r in s.queue :: s.queue[r].key in s.receipts <==> r in Committed(s.commits))
    && (forall key | key in s.receipts :: exists r :: r in s.queue && s.queue[r].key == key)
  }

  /** The sample table holds what the transactions inserted, under a primary key. */
  ghost predicate TableMatchesCommits(s: State)
  {
    && s.samples == Inserted(s.commits)
    && (forall i, r | 0 <= i < |s.commits| && r in s.commits[i] ::
        r in s.queue && Computed(s.queue[r].envelope, s.commits[i][r]))
    && (forall a, b | a in s.samples && b in s.samples && a.key == b.key :: a == b)
  }

  ghost predicate Apart(a: set<Sample>, b: set<Sample>)
  {
    forall x, y | x in a && y in b :: x.key != y.key
  }

  ghost predicate ApartWithin(plan: Plan)
  {
    forall r, q, x, y | r in plan && q in plan && r != q && x in plan[r] && y in plan[q] :: x.key != y.key
  }

  /** Samples inserted by different transactions, or for different results, have different keys. */
  ghost predicate InsertedOnce(commits: seq<Plan>)
  {
    && (forall i, j | 0 <= i < j < |commits| :: Apart(SamplesOf(commits[i]), SamplesOf(commits[j])))
    && (forall i | 0 <= i < |commits| :: ApartWithin(commits[i]))
  }

  lemma StepKeepsReceipts(s: State, step: Step)
    requires Enabled(s, step) && KeysUnique(s) && WritersKnown(s) && ReceiptsMatchCommits(s)
    ensures ReceiptsMatchCommits(Apply(s, step))
  {
    StepKeepsRows(s, step);
    var after := Apply(s, step);
    if step.Store? {
      StoreKeepsReceipts(s, step, after);
    } else if step.Enqueue? {
      forall key | key in after.receipts
        ensures exists r :: r in after.queue && after.queue[r].key == key
      {
        var r :| r in s.queue && s.queue[r].key == key;
        assert after.queue[r].key == key;
      }
    } else {
      forall key | key in after.receipts
        ensures exists r :: r in after.queue && after.queue[r].key == key
      {
        var r :| r in s.queue && s.queue[r].key == key;
        assert after.queue[r].key == key;
      }
    }
  }

  lemma StoreKeepsReceipts(s: State, step: Step, after: State)
    requires step.Store? && Enabled(s, step) && after == Apply(s, step)
    requires KeysUnique(s) && WritersKnown(s) && ReceiptsMatchCommits(s)
    ensures ReceiptsMatchCommits(after)
  {
    var stored := s.writers[step.w].unstored;
    assert stored <= Mentioned(s.writers[step.w]) <= s.queue.Keys;
    assert after.queue == s.queue && after.receipts == s.receipts + KeysOfRows(s.queue, stored);
    assert Committed(after.commits) == Committed(s.commits) + stored by {
      assert after.commits[..|s.commits|] == s.commits;
    }
    forall key | key in after.receipts
      ensures exists r :: r in after.queue && after.queue[r].key == key
    {
    }
    forall r | r in s.queue
      ensures s.queue[r].key in KeysOfRows(s.queue, stored) <==> r in stored
    {
    }
  }

  lemma PlannedKeyAbsent(samples: set<Sample>, plan: Plan, sample: Sample)
    requires Insertable(samples, plan) && sample in SamplesOf(plan)
    ensures !HasKey(samples, sample.key)
  {
    var r :| r in plan && sample in plan[r];
    var i :| 0 <= i < |plan[r]| && plan[r][i] == sample;
  }

  lemma PlannedKeysDistinct(samples: set<Sample>, plan: Plan, a: Sample, b: Sample)
    requires Insertable(samples, plan) && a in SamplesOf(plan) && b in SamplesOf(plan) && a.key == b.key
    ensures a == b
  {
    var r :| r in plan && a in plan[r];
    var i :| 0 <= i < |plan[r]| && plan[r][i] == a;
    var q :| q in plan && b in plan[q];
    var j :| 0 <= j < |plan[q]| && plan[q][j] == b;
  }

  lemma StepKeepsTable(s: State, step: Step)
    requires Enabled(s, step) && TableMatchesCommits(s)
    ensures TableMatchesCommits(Apply(s, step))
  {
    StepKeepsRows(s, step);
    if step.Store? {
      var after := Apply(s, step);
      assert after.commits[..|s.commits|] == s.commits;
      forall a, b | a in after.samples && b in after.samples && a.key == b.key
        ensures a == b
      {
        InsertKeepsPrimaryKey(s.samples, step.plan, a, b);
      }
    }
  }

  lemma InsertKeepsPrimaryKey(samples: set<Sample>, plan: Plan, a: Sample, b: Sample)
    requires Insertable(samples, plan) && a.key == b.key
    requires forall x, y | x in samples && y in samples && x.key == y.key :: x == y
    requires a in samples + SamplesOf(plan) && b in samples + SamplesOf(plan)
    ensures a == b
  {
    if a in SamplesOf(plan) && b in SamplesOf(plan) {
      PlannedKeysDistinct(samples, plan, a, b);
    } else if a in SamplesOf(plan) {
      PlannedKeyAbsent(samples, plan, a);
    } else if b in SamplesOf(plan) {
      PlannedKeyAbsent(samples, plan, b);
    }
  }

  lemma {:induction false} CommittedSamplesStay(commits: seq<Plan>, i: nat, r: Id)
    requires i < |commits| && r in commits[i]
    ensures r in Committed(commits)
    ensures forall sample | sample in commits[i][r] :: sample in Inserted(commits)
  {
    if i < |commits| - 1 {
      CommittedSamplesStay(commits[..|commits| - 1], i, r);
    }
  }

  lemma InsertableIsApart(samples: set<Sample>, plan: Plan)
    requires Insertable(samples, plan)
    ensures Apart(samples, SamplesOf(plan)) && ApartWithin(plan)
  {
    forall x, y | x in samples && y in SamplesOf(plan)
      ensures x.key != y.key
    {
      PlannedKeyAbsent(samples, plan, y);
    }
    forall r, q, x: Sample, y: Sample | r in plan && q in plan && r != q && x in plan[r] && y in plan[q]
      ensures x.key != y.key
    {
      var i :| 0 <= i < |plan[r]| && plan[r][i] == x;
      var j :| 0 <= j < |plan[q]| && plan[q][j] == y;
    }
  }

  /** The primary key turns away a second transaction that would store a key again. */
  lemma InsertKeepsInsertedOnce(commits: seq<Plan>, plan: Plan)
    requires InsertedOnce(commits) && Insertable(Inserted(commits), plan)
    ensures InsertedOnce(commits + [plan])
  {
    InsertableIsApart(Inserted(commits), plan);
    forall i | 0 <= i < |commits|
      ensures Apart(SamplesOf(commits[i]), SamplesOf(plan))
    {
      forall x, y | x in SamplesOf(commits[i]) && y in SamplesOf(plan)
        ensures x.key != y.key
      {
        var r :| r in commits[i] && x in commits[i][r];
        CommittedSamplesStay(commits, i, r);
      }
    }
  }

  lemma StepKeepsInsertedOnce(s: State, step: Step)
    requires Enabled(s, step) && TableMatchesCommits(s) && InsertedOnce(s.commits)
    ensures InsertedOnce(Apply(s, step).commits)
  {
    if step.Store? {
      InsertKeepsInsertedOnce(s.commits, step.plan);
    } else {
      StepKeepsRows(s, step);
    }
  }

  /** What holds in every state that any writers, failures, crashes and overruns lead to. */
  ghost predicate Safe(s: State)
  {
    && KeysUnique(s) && WritersKnown(s) && PolledUntouched(s) && LocksHeld(s) && ReceiptFirst(s)
    && ReceiptsMatchCommits(s) && TableMatchesCommits(s) && InsertedOnce(s.commits)
    && (forall r | r in s.published :: Received(s, r))
    && (forall r | r in s.queue && s.queue[r].status == Polled :: !Received(s, r))
  }

  lemma PublishedIsReceived(s: State, step: Step, r: Id)
    requires Enabled(s, step) && ReceiptFirst(s) && (r in s.published ==> Received(s, r))
             && r in Apply(s, step).published
    ensures Received(Apply(s, step), r)
  {
    assert r in s.published || r in Acknowledged(s.writers[step.w]);
    ReceiptsStay(s, step, r);
  }

  lemma PolledIsUnreceived(s: State, step: Step, r: Id)
    requires Enabled(s, step) && WritersKnown(s) && PolledUntouched(s) && LocksHeld(s) && ReceiptsMatchCommits(s)
             && KeysUnique(s)
    requires r in s.queue && s.queue[r].status == Polled ==> !Received(s, r)
    requires r in Apply(s, step).queue && Apply(s, step).queue[r].status == Polled
    ensures !Received(Apply(s, step), r)
  {
    if r in s.queue {
      PolledStays(s, step, r);
      if step.Store? {
        assert s.writers[step.w].unstored <= Mentioned(s.writers[step.w]);
      } else {
        StepKeepsRows(s, step);
      }
    }
  }

  lemma StepKeepsPublished(s: State, step: Step)
    requires Enabled(s, step) && WritersKnown(s) && PolledUntouched(s) && LocksHeld(s) && ReceiptFirst(s)
             && ReceiptsMatchCommits(s) && KeysUnique(s)
    requires forall r | r in s.published :: Received(s, r)
    requires forall r | r in s.queue && s.queue[r].status == Polled :: !Received(s, r)
    ensures forall r | r in Apply(s, step).published :: Received(Apply(s, step), r)
    ensures forall r | r in Apply(s, step).queue && Apply(s, step).queue[r].status == Polled ::
            !Received(Apply(s, step), r)
  {
    var after := Apply(s, step);
    forall r | r in after.published
      ensures Received(after, r)
    {
      PublishedIsReceived(s, step, r);
    }
    forall r | r in after.queue && after.queue[r].status == Polled
      ensures !Received(after, r)
    {
      PolledIsUnreceived(s, step, r);
    }
  }

  lemma StepKeepsSafe(s: State, step: Step)
    requires Enabled(s, step) && Safe(s)
    ensures Safe(Apply(s, step))
  {
    StepKeepsKeys(s, step);
    StepKeepsPolled(s, step);
    StepKeepsLocks(s, step);
    StepKeepsReceiptFirst(s, step);
    StepKeepsReceipts(s, step);
    StepKeepsTable(s, step);
    StepKeepsInsertedOnce(s, step);
    StepKeepsPublished(s, step);
  }

  lemma {:induction false} RunsAreSafe(s: State, steps: seq<Step>, t: State)
    requires Safe(s) && Leads(s, steps, t)
    ensures Safe(t)
    decreases |steps|
  {
    if steps != [] {
      StepKeepsSafe(s, steps[0]);
      RunsAreSafe(Apply(s, steps[0]), steps[1..], t);
    }
  }

  /**
   In every run, however many writers race, fail, crash or outlive their leases:
   a result has its receipt iff some transaction stored it, a result that has any
   samples is stored by at most one transaction, the table holds all the samples
   of the committed plans and nothing else, and no key is in it twice.
   */
  lemma ExactlyOnceSamples(s: State, steps: seq<Step>, t: State)
    requires IsInitial(s) && Leads(s, steps, t)
    ensures forall r | r in t.queue :: t.queue[r].key in t.receipts <==> exists i ::
            0 <= i < |t.commits| && r in t.commits[i]
    ensures forall i, r | 0 <= i < |t.commits| && r in t.commits[i] ::
              r in t.queue && Computed(t.queue[r].envelope, t.commits[i][r])
              && forall sample | sample in t.commits[i][r] :: sample in t.samples
    ensures forall i, j, r | 0 <= i < j < |t.commits| && r in t.commits[i] && r in t.commits[j] ::
              t.commits[i][r] == t.commits[j][r] == []
    ensures forall sample | sample in t.samples :: exists i, r ::
            0 <= i < |t.commits| && r in t.commits[i] && sample in t.commits[i][r]
    ensures forall a, b | a in t.samples && b in t.samples && a.key == b.key :: a == b
  {
    RunsAreSafe(s, steps, t);
    forall r | r in t.queue
      ensures t.queue[r].key in t.receipts <==> exists i :: 0 <= i < |t.commits| && r in t.commits[i]
    {
      CommittedExact(t.commits, r);
    }
    forall i, r | 0 <= i < |t.commits| && r in t.commits[i]
      ensures forall sample | sample in t.commits[i][r] :: sample in t.samples
    {
      CommittedSamplesStay(t.commits, i, r);
    }
    forall i, j, r | 0 <= i < j < |t.commits| && r in t.commits[i] && r in t.commits[j]
      ensures t.commits[i][r] == t.commits[j][r] == []
    {
      StoredTwiceIsEmpty(t, i, j, r);
    }
    forall sample | sample in t.samples
      ensures exists i, r :: 0 <= i < |t.commits| && r in t.commits[i] && sample in t.commits[i][r]
    {
      InsertedExact(t.commits, sample);
    }
  }

  lemma SampleWithKey(plan: Plan, r: Id, e: Envelope, key: SampleKey) returns (sample: Sample)
    requires r in plan && Computed(e, plan[r]) && key in FixedKeys(e)
    ensures sample in plan[r] && sample in SamplesOf(plan) && sample.key == key
  {
    var previous: Option<real> :| plan[r] == AllSamples(e, previous);
    SampleSetsShareFixedKeys(e, previous);
    assert key in KeysOf(plan[r]);
    sample :| sample in plan[r] && sample.key == key;
  }

  /** No two commits, and no two results of one commit, share a fixed key. */
  lemma FixedKeyInsertedOnce(commits: seq<Plan>, i: nat, j: nat, r: Id, q: Id, a: Envelope, b: Envelope, key: SampleKey)
    requires InsertedOnce(commits) && i <= j < |commits| && r in commits[i] && q in commits[j] && (i < j || r != q)
    requires Computed(a, commits[i][r]) && Computed(b, commits[j][q])
    requires key in FixedKeys(a)
    ensures key !in FixedKeys(b)
  {
    if key in FixedKeys(b) {
      var x := SampleWithKey(commits[i], r, a, key);
      var y := SampleWithKey(commits[j], q, b, key);
    }
  }

  lemma NoFixedKeyNoSamples(e: Envelope, samples: seq<Sample>)
    requires Computed(e, samples) && FixedKeys(e) == {}
    ensures samples == []
  {
    var previous: Option<real> :| samples == AllSamples(e, previous);
    SampleSetsShareFixedKeys(e, previous);
  }

  lemma StoredTwiceIsEmpty(t: State, i: nat, j: nat, r: Id)
    requires Safe(t) && i < j < |t.commits| && r in t.commits[i] && r in t.commits[j]
    ensures t.commits[i][r] == t.commits[j][r] == []
  {
    var e := t.queue[r].envelope;
    if key :| key in FixedKeys(e) {
      FixedKeyInsertedOnce(t.commits, i, j, r, r, e, e, key);
    }
    NoFixedKeyNoSamples(e, t.commits[i][r]);
    NoFixedKeyNoSamples(e, t.commits[j][r]);
  }

  lemma {:induction false} CommittedExact(commits: seq<Plan>, r: Id)
    ensures r in Committed(commits) <==> exists i :: 0 <= i < |commits| && r in commits[i]
  {
    if commits != [] {
      var rest := commits[..|commits| - 1];
      CommittedExact(rest, r);
      if r in Committed(rest) {
        var i :| 0 <= i < |rest| && r in rest[i];
        assert r in commits[i];
      }
      if i :| 0 <= i < |commits| && r in commits[i] {
        assert i < |rest| ==> r in rest[i];
      }
    }
  }

  lemma {:induction false} InsertedExact(commits: seq<Plan>, sample: Sample)
    requires sample in Inserted(commits)
    ensures exists i, r :: 0 <= i < |commits| && r in commits[i] && sample in commits[i][r]
  {
    var last := |commits| - 1;
    if sample in SamplesOf(commits[last]) {
      var r :| r in commits[last] && sample in commits[last][r];
    } else {
      InsertedExact(commits[..last], sample);
      var i, r :| 0 <= i < last && r in commits[..last][i] && sample in commits[..last][i][r];
      assert r in commits[i] && sample in commits[i][r];
    }
  }

  /** Two results whose envelopes fix a common sample key never both get a receipt, so one of them is never written. */
  lemma CommonKeyExcludes(s: State, steps: seq<Step>, t: State, r: Id, q: Id, key: SampleKey)
    requires IsInitial(s) && Leads(s, steps, t)
    requires r in t.queue && q in t.queue && r != q
    requires key in FixedKeys(t.queue[r].envelope) && key in FixedKeys(t.queue[q].envelope)
    ensures !(Received(t, r) && Received(t, q)) && !(t.queue[r].status == Written && t.queue[q].status == Written)
  {
    RunsAreSafe(s, steps, t);
    if Received(t, r) && Received(t, q) {
      CommittedExact(t.commits, r);
      CommittedExact(t.commits, q);
      var i :| 0 <= i < |t.commits| && r in t.commits[i];
      var j :| 0 <= j < |t.commits| && q in t.commits[j];
      if i <= j {
        FixedKeyInsertedOnce(t.commits, i, j, r, q, t.queue[r].envelope, t.queue[q].envelope, key);
      } else {
        FixedKeyInsertedOnce(t.commits, j, i, q, r, t.queue[q].envelope, t.queue[r].envelope, key);
      }
    }
  }

  /** In every run a row is written, or marked for a replay of its events, only once its receipt is stored. */
  lemma WrittenOrPendingHasReceipt(s: State, steps: seq<Step>, t: State, r: Id)
    requires IsInitial(s) && Leads(s, steps, t)
    requires r in t.queue && (t.queue[r].status == Written || t.queue[r].error == Neo4jPending)
    ensures t.queue[r].key in t.receipts
  {
    RunsAreSafe(s, steps, t);
  }
}
