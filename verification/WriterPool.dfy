/**
 One iteration of a result writer as the program that performs it
 (backend/polling/writer_pool.py). Every statement it issues is a step of the
 protocol in ResultPipeline, so whatever holds of every run holds of every
 interleaving of such iterations; its statistics describe what became of the batch.
 */
module WriterPool {
  import opened Base
  import opened Envelopes
  import opened PlanSizes
  import opened ResultPipeline

  datatype Stats = Stats(claimed: nat, inserted: int, duplicates: nat, written: nat, retried: nat, deadLettered: nat)

  /** What the telemetry database answers to the transaction, its key constraint aside. */
  datatype StoreAnswer = Confirmed | CommittedButLost | Failed

  /** A step of writer `w`'s own program; crashing is not one. */
  predicate IsOwn(step: Step, w: WriterId)
  {
    match step
    case Tick(_) => false
    case Enqueue(_, _, _, _) => false
    case ExpireLeases => false
    case Crash(_) => false
    case _ => step.w == w
  }

  /** One statement of writer `w`. */
  ghost predicate OwnStep(s: State, w: WriterId, t: State)
  {
    exists step :: IsOwn(step, w) && Enabled(s, step) && t == Apply(s, step)
  }

  /** The states that a writer goes through while nobody else acts. */
  ghost predicate IsTrace(trace: seq<State>, w: WriterId)
  {
    trace != [] && forall i | 0 <= i < |trace| - 1 :: OwnStep(trace[i], w, trace[i + 1])
  }

  /** Writer `w` alone takes the store from `s` to `t`. */
  ghost predicate Performs(s: State, w: WriterId, t: State)
  {
    exists trace :: IsTrace(trace, w) && trace[0] == s && trace[|trace| - 1] == t
  }

  lemma PerformsNothing(s: State, w: WriterId)
    ensures Performs(s, w, s)
  {
    var trace := [s];
    assert IsTrace(trace, w) && trace[0] == s && trace[|trace| - 1] == s;
  }

  lemma PerformsThen(s: State, w: WriterId, t: State, step: Step)
    requires Performs(s, w, t) && Enabled(t, step) && IsOwn(step, w)
    ensures Performs(s, w, Apply(t, step))
  {
    assert OwnStep(t, w, Apply(t, step));
    PerformsOne(s, w, t, Apply(t, step));
  }

  lemma PerformsOne(s: State, w: WriterId, t: State, u: State)
    requires Performs(s, w, t) && OwnStep(t, w, u)
    ensures Performs(s, w, u)
  {
    var trace :| IsTrace(trace, w) && trace[0] == s && trace[|trace| - 1] == t;
    var longer := trace + [u];
    forall i | 0 <= i < |longer| - 1
      ensures OwnStep(longer[i], w, longer[i + 1])
    {
      assert i < |trace| - 1 ==> OwnStep(trace[i], w, trace[i + 1]);
    }
    assert IsTrace(longer, w) && longer[0] == s && longer[|longer| - 1] == u;
  }

  lemma PerformsMore(s: State, w: WriterId, t: State, u: State)
    requires Performs(s, w, t) && Performs(t, w, u)
    ensures Performs(s, w, u)
  {
    var trace :| IsTrace(trace, w) && trace[0] == t && trace[|trace| - 1] == u;
    PerformsAlong(s, w, trace, |trace| - 1);
  }

  lemma {:induction false} PerformsAlong(s: State, w: WriterId, trace: seq<State>, n: nat)
    requires IsTrace(trace, w) && n < |trace| && Performs(s, w, trace[0])
    ensures Performs(s, w, trace[n])
  {
    if n > 0 {
      PerformsAlong(s, w, trace, n - 1);
      assert OwnStep(trace[n - 1], w, trace[n - 1 + 1]);
      PerformsOne(s, w, trace[n - 1], trace[n]);
    }
  }

  /** What a writer performs is a run of the protocol, of its own steps. */
  lemma PerformsIsRun(s: State, w: WriterId, t: State)
    requires Performs(s, w, t)
    ensures exists steps :: Leads(s, steps, t) && forall step | step in steps :: IsOwn(step, w)
  {
    var trace :| IsTrace(trace, w) && trace[0] == s && trace[|trace| - 1] == t;
    TraceIsRun(trace, w, |trace| - 1);
  }

  lemma {:induction false} TraceIsRun(trace: seq<State>, w: WriterId, n: nat)
    requires IsTrace(trace, w) && n < |trace|
    ensures exists steps :: Leads(trace[0], steps, trace[n]) && forall step | step in steps :: IsOwn(step, w)
  {
    if n == 0 {
      assert Leads(trace[0], [], trace[0]);
    } else {
      TraceIsRun(trace, w, n - 1);
      assert OwnStep(trace[n - 1], w, trace[n - 1 + 1]);
      var steps :| Leads(trace[0], steps, trace[n - 1]) && forall step | step in steps :: IsOwn(step, w);
      var step :| IsOwn(step, w) && Enabled(trace[n - 1], step) && trace[n] == Apply(trace[n - 1], step);
      LeadsThen(trace[0], steps, trace[n - 1], step);
    }
  }

  /** What the protocol keeps is kept by every iteration, between which other writers may act. */
  lemma IterationsKeepSafe(s: State, w: WriterId, t: State)
    requires Safe(s) && Performs(s, w, t)
    ensures Safe(t)
  {
    PerformsIsRun(s, w, t);
    var steps :| Leads(s, steps, t);
    RunsAreSafe(s, steps, t);
  }

  /** What a claim leaves: the rows are locked, with the lease that is going to be committed. */
  function AllLocked(queue: map<Id, Row>, ids: set<Id>, lease: Lease): map<Id, Row>
  {
    map r | r in queue :: if r in ids then queue[r].(lock := Some(lease)) else queue[r]
  }

  /** The first row that a writer changes commits its claim. */
  function CommittedIf(queue: map<Id, Row>, w: WriterId, changes: bool): map<Id, Row>
  {
    if changes then Commit(queue, w) else queue
  }

  /** Rows that are not locked by another writer. */
  predicate AllFree(queue: map<Id, Row>, ids: set<Id>, w: WriterId)
  {
    forall r | r in ids :: r in queue && Free(queue[r], w)
  }

  function AllComplete(queue: map<Id, Row>, ids: set<Id>): map<Id, Row>
  {
    map r | r in queue :: if r in ids then Complete(queue[r]) else queue[r]
  }

  function AllRetried(queue: map<Id, Row>, ids: set<Id>, code: ErrorCode): map<Id, Row>
  {
    map r | r in queue :: if r in ids then Retry(queue[r], code) else queue[r]
  }

  /** The same phase with other results left to complete. */
  function Left(at: Writer, todo: set<Id>): Writer
  {
    match at
    case Closing(_, unstored, replay) => Closing(todo, unstored, replay)
    case _ => Completing(todo)
  }

  function FinishStep(at: Writer, w: WriterId, r: Id): Step
  {
    if at.Closing? then Close(w, r) else Finish(w, r)
  }

  /** `s` after the first `i` of the rows were completed. */
  function CompletedTo(s: State, w: WriterId, at: Writer, rows: seq<Id>, i: nat): State
    requires i <= |rows|
  {
    s.(queue := AllComplete(CommittedIf(s.queue, w, i > 0), Upto(rows, i)),
        writers := s.writers[w := Left(at, From(rows, i))])
  }

  lemma CompleteMore(queue: map<Id, Row>, w: WriterId, begun: bool, done: set<Id>, r: Id)
    requires r in queue && r !in done && (begun || done == {}) && Free(queue[r], w)
    ensures var was := AllComplete(CommittedIf(queue, w, begun), done);
            r in was && Free(was[r], w)
                && AllComplete(Commit(queue, w), done + {r}) == Commit(was, w)[r := Complete(was[r])]
  {
  }

  lemma RetryMore(queue: map<Id, Row>, w: WriterId, begun: bool, done: set<Id>, code: ErrorCode, r: Id)
    requires r in queue && r !in done && (begun || done == {}) && Free(queue[r], w)
    ensures var was := AllRetried(CommittedIf(queue, w, begun), done, code);
            r in was && Free(was[r], w)
                && AllRetried(Commit(queue, w), done + {r}, code) == Commit(was, w)[r := Retry(was[r], code)]
  {
  }

  lemma CompleteOne(s: State, w: WriterId, at: Writer, rows: seq<Id>, i: nat)
    requires (at.Closing? || at.Completing?) && Distinct(rows) && i < |rows| && AllFree(s.queue, Elems(rows), w)
    requires Performs(s, w, CompletedTo(s, w, at, rows, i))
    ensures var was := CompletedTo(s, w, at, rows, i);
            rows[i] in was.queue && CompletedTo(s, w, at, rows, i + 1) ==
              was.(queue := Commit(was.queue, w)[rows[i] := Complete(was.queue[rows[i]])],
                  writers := was.writers[w := Left(at, From(rows, i + 1))])
    ensures Performs(s, w, CompletedTo(s, w, at, rows, i + 1))
  {
    HandleOne(rows, i);
    var was := CompletedTo(s, w, at, rows, i);
    assert rows[i] in Elems(rows);
    CompleteMore(s.queue, w, i > 0, Upto(rows, i), rows[i]);
    CompleteStep(s, w, was, at, From(rows, i), rows[i]);
  }

  lemma CompleteStep(s: State, w: WriterId, t: State, at: Writer, todo: set<Id>, r: Id)
    requires (at.Closing? || at.Completing?) && Performs(s, w, t) && w in t.writers && t.writers[w] == Left(at, todo)
    requires r in todo && r in t.queue && Free(t.queue[r], w)
    ensures Performs(s, w,
            t.(queue := Commit(t.queue, w)[r := Complete(t.queue[r])], writers := t.writers[w := Left(at, todo - {r})]))
  {
    PerformsThen(s, w, t, FinishStep(at, w, r));
  }

  function RetriedTo(s: State, w: WriterId, code: ErrorCode, rows: seq<Id>, i: nat): State
    requires i <= |rows|
  {
    s.(queue := AllRetried(CommittedIf(s.queue, w, i > 0), Upto(rows, i), code),
        writers := s.writers[w := Requeueing(From(rows, i), code)])
  }

  lemma RequeueOne(s: State, w: WriterId, code: ErrorCode, rows: seq<Id>, i: nat)
    requires Distinct(rows) && i < |rows| && AllFree(s.queue, Elems(rows), w)
    requires Performs(s, w, RetriedTo(s, w, code, rows, i))
    ensures var was := RetriedTo(s, w, code, rows, i);
            rows[i] in was.queue && RetriedTo(s, w, code, rows, i + 1) ==
              was.(queue := Commit(was.queue, w)[rows[i] := Retry(was.queue[rows[i]], code)],
                  writers := was.writers[w := Requeueing(From(rows, i + 1), code)])
    ensures Performs(s, w, RetriedTo(s, w, code, rows, i + 1))
  {
    HandleOne(rows, i);
    var was := RetriedTo(s, w, code, rows, i);
    assert rows[i] in Elems(rows);
    RetryMore(s.queue, w, i > 0, Upto(rows, i), code, rows[i]);
    RequeueStep(s, w, was, code, From(rows, i), rows[i]);
  }

  lemma RequeueStep(s: State, w: WriterId, t: State, code: ErrorCode, todo: set<Id>, r: Id)
    requires Performs(s, w, t) && w in t.writers && t.writers[w] == Requeueing(todo, code)
    requires r in todo && r in t.queue && Free(t.queue[r], w)
    ensures Performs(s, w,
            t.(queue := Commit(t.queue, w)[r := Retry(t.queue[r], code)],
            writers := t.writers[w := Requeueing(todo - {r}, code)]))
  {
    PerformsThen(s, w, t, Requeue(w, r));
  }

  // ------------------------------------------------------- what one attempt stores

  /** How an attempt builds the samples of a row from the latency history it reads. */
  function Builder(queue: map<Id, Row>, previous: map<Id, real>): Id -> seq<Sample>
  {
    r => if r in queue then AllSamples(queue[r].envelope, PreviousOf(previous, r)) else []
  }

  function PreviousOf(previous: map<Id, real>, r: Id): Option<real>
  {
    if r in previous then Some(previous[r]) else None
  }

  /** The samples are the measurements of the envelope, each once. */
  ghost predicate AreMeasurements(e: Envelope, previous: Option<real>, samples: seq<Sample>)
  {
    |samples| == Measures(e, previous) && forall s :: s in samples <==> Measure(e, previous, s)
  }

  /** What the plan stores for one result are its measurements. */
  ghost predicate PlansResult(queue: map<Id, Row>, previous: map<Id, real>, plan: Plan, r: Id)
  {
    r in queue && r in plan && AreMeasurements(queue[r].envelope, PreviousOf(previous, r), plan[r])
  }

  /** The plan stores the measurements of each of the results. */
  ghost predicate IsPlan(queue: map<Id, Row>, ids: set<Id>, previous: map<Id, real>, plan: Plan)
  {
    plan.Keys == ids && forall r {:trigger PlansResult(queue, previous, plan, r)} | r in ids ::
        PlansResult(queue, previous, plan, r)
  }

  lemma PlanTransfers(queue: map<Id, Row>, after: map<Id, Row>, ids: set<Id>, previous: map<Id, real>, plan: Plan)
    requires SameResults(queue, after) && IsPlan(after, ids, previous, plan)
    ensures IsPlan(queue, ids, previous, plan)
  {
    forall r | r in ids
      ensures PlansResult(queue, previous, plan, r)
    {
      assert PlansResult(after, previous, plan, r);
    }
  }

  /** Builds the samples of the results, row by row, and counts them. */
  method BuildSamples(queue: map<Id, Row>, rows: seq<Id>, previous: map<Id, real>) returns (plan: Plan, count: nat)
    requires Elems(rows) <= queue.Keys
    ensures IsPlan(queue, Elems(rows), previous, plan) && count == Volume(plan, rows)
    ensures forall r | r in rows :: Computed(queue[r].envelope, plan[r])
  {
    plan, count := BuildPlan(rows, Builder(queue, previous));
    BuiltIsPlan(queue, Elems(rows), previous, plan);
  }

  lemma BuiltIsPlan(queue: map<Id, Row>, ids: set<Id>, previous: map<Id, real>, plan: Plan)
    requires ids <= queue.Keys && plan == PlanOf(Builder(queue, previous), ids)
    ensures IsPlan(queue, ids, previous, plan)
    ensures forall r | r in ids :: Computed(queue[r].envelope, plan[r])
  {
    forall r | r in ids
      ensures PlansResult(queue, previous, plan, r)
      ensures Computed(queue[r].envelope, plan[r])
    {
      assert plan[r] == AllSamples(queue[r].envelope, PreviousOf(previous, r));
      BuiltAreMeasurements(queue[r].envelope, PreviousOf(previous, r));
    }
  }

  lemma BuiltAreMeasurements(e: Envelope, previous: Option<real>)
    ensures AreMeasurements(e, previous, AllSamples(e, previous))
  {
    SamplesCounted(e, previous);
    forall s
      ensures s in AllSamples(e, previous) <==> Measure(e, previous, s)
    {
      SamplesExact(e, previous, s);
    }
  }

  lemma InsertableApart(samples: set<Sample>, plan: Plan)
    requires Insertable(samples, plan)
    ensures AllDiffer(plan) && samples !! SamplesOf(plan)
  {
    forall sample | sample in SamplesOf(plan)
      ensures sample !in samples
    {
      var r :| r in plan && sample in plan[r];
      var i :| 0 <= i < |plan[r]| && plan[r][i] == sample;
      assert !HasKey(samples, plan[r][i].key);
    }
  }

  /** How many samples the plan holds, counted result by result. */
  function Volume(plan: Plan, rows: seq<Id>): nat
  {
    if forall r | r in rows :: r in plan then Total(plan, rows, |rows|) else 0
  }

  /** Under the primary key the table grows by the whole plan. */
  lemma StoreGrows(samples: set<Sample>, plan: Plan, rows: seq<Id>)
    requires Distinct(rows) && Elems(rows) == plan.Keys && Insertable(samples, plan)
    ensures |samples + SamplesOf(plan)| == |samples| + Volume(plan, rows)
  {
    InsertableApart(samples, plan);
    Ends(rows);
    NothingCollapses(plan, rows, |rows|);
    assert Stored(plan, Upto(rows, |rows|)) == SamplesOf(plan);
  }

  lemma ClaimLocks(s: State, w: WriterId, ids: set<Id>, ttl: int, pending: set<Id>)
    requires Enabled(s, Claim(w, ids, ttl))
    requires forall r :: r in pending <==> r in ids && s.queue[r].error == Neo4jPending
    ensures Apply(s, Claim(w, ids, ttl)) ==
              s.(queue := AllLocked(s.queue, ids, Lease(w, s.now + ttl)),
                  writers := s.writers[w := Checking(ids, {}, {}, pending)])
  {
    assert Apply(s, Claim(w, ids, ttl)).writers[w].pending == pending;
    assert Apply(s, Claim(w, ids, ttl)).queue == AllLocked(s.queue, ids, Lease(w, s.now + ttl));
  }

  lemma CameAndWent(writers: map<WriterId, Writer>, w: WriterId, at: Writer)
    requires w !in writers
    ensures writers[w := at] - {w} == writers
  {
  }

  lemma StopLeaves(s: State, w: WriterId)
    requires Enabled(s, Stop(w))
    ensures Apply(s, Stop(w)) == s.(queue := Released(s.queue, w), writers := s.writers - {w})
  {
    assert Apply(s, Stop(w)).writers == s.writers - {w};
  }

  /** The rows that are changed after the attempt to store. */
  function Outcome(queue: map<Id, Row>, icmp: IcmpSettings, rest: set<Id>, replay: set<Id>, stored: bool,
      graphUp: bool): set<Id>
  {
    if !stored then rest else if graphUp then rest + replay else EventsOf(queue, icmp, rest + replay)
  }

  /** The queue after the results were stored or not, and their events published or not, and the session ended. */
  function Settled(queue: map<Id, Row>, icmp: IcmpSettings, w: WriterId, rest: set<Id>, replay: set<Id>, stored: bool,
      graphUp: bool): map<Id, Row>
  {
    var ids := Outcome(queue, icmp, rest, replay, stored, graphUp);
    var committed := CommittedIf(queue, w, ids != {});
    Released(if !stored then AllRetried(committed, ids, TimescaleError)
             else if graphUp then AllComplete(committed, ids)
             else AllRetried(committed, ids, Neo4jPending), w)
  }

  lemma JoinRows(rest: seq<Id>, replay: seq<Id>)
    requires Distinct(rest) && Distinct(replay) && Elems(rest) !! Elems(replay)
    ensures Distinct(rest + replay) && Elems(rest + replay) == Elems(rest) + Elems(replay)
  {
    var rows := rest + replay;
    forall i, j | 0 <= i < j < |rows|
      ensures rows[i] != rows[j]
    {
      assert i < |rest| ==> rows[i] in Elems(rest);
      assert j >= |rest| ==> rows[j] in Elems(replay);
    }
  }

  /** The claimed rows that were done before: stored, and not marked for a replay. */
  function DoneBefore(s: State, ids: set<Id>): set<Id>
  {
    set r | r in ids && Received(s, r) && s.queue[r].error != Neo4jPending
  }

  /** The claimed rows that were never stored. */
  function NewIn(s: State, ids: set<Id>): set<Id>
  {
    set r | r in ids && r in s.queue && !Received(s, r)
  }

  /** The claimed rows that are stored and wait for a replay of their events. */
  function ReplaysIn(s: State, ids: set<Id>): set<Id>
  {
    set r | r in ids && Received(s, r) && s.queue[r].error == Neo4jPending
  }

  lemma PartsCount(s: State, batch: seq<Id>, closed: seq<Id>, rest: seq<Id>, replay: seq<Id>)
    requires Distinct(batch) && Distinct(closed) && Distinct(rest) && Distinct(replay) && Elems(batch) <= s.queue.Keys
    requires Elems(closed) == DoneBefore(s, Elems(batch)) && Elems(rest) == NewIn(s, Elems(batch))
             && Elems(replay) == ReplaysIn(s, Elems(batch))
    ensures Elems(rest) !! Elems(replay) && Elems(closed) + Elems(rest) + Elems(replay) == Elems(batch)
    ensures |closed| == |DoneBefore(s, Elems(batch))| && |replay| == |ReplaysIn(s, Elems(batch))|
    ensures |closed| + |rest| + |replay| == |batch|
  {
    DistinctCount(batch);
    DistinctCount(closed);
    DistinctCount(rest);
    DistinctCount(replay);
    var c, n, p := Elems(closed), Elems(rest), Elems(replay);
    assert c !! n && (c + n) !! p && Elems(batch) == c + n + p;
    assert |c + n| == |c| + |n| && |c + n + p| == |c + n| + |p|;
  }

  lemma LockingChangesNothing(s: State, locked: State, lease: Lease, ids: set<Id>)
    requires locked.queue == AllLocked(s.queue, ids, lease) && locked.receipts == s.receipts
    ensures DoneBefore(locked, ids) == DoneBefore(s, ids) && NewIn(locked, ids) == NewIn(s, ids)
            && ReplaysIn(locked, ids) == ReplaysIn(s, ids)
    ensures ids <= s.queue.Keys ==>
              AllFree(locked.queue, ids, lease.owner)
              && (set r | r in ids && s.queue[r].error == Neo4jPending)
                  == (set r | r in ids && locked.queue[r].error == Neo4jPending)
  {
  }

  /** After the claim and the completed duplicates, the batch is still the writer's. */
  lemma OpenedStaysFree(queue: map<Id, Row>, ids: set<Id>, lease: Lease, closed: set<Id>)
    requires ids <= queue.Keys
    ensures AllFree(Opened(queue, lease, ids, closed), ids, lease.owner)
  {
  }

  /** The queue after a batch was claimed and its completed duplicates were written. */
  function Opened(queue: map<Id, Row>, lease: Lease, ids: set<Id>, closed: set<Id>): map<Id, Row>
  {
    AllComplete(CommittedIf(AllLocked(queue, ids, lease), lease.owner, closed != {}), closed)
  }

  /** There are `n` of them. */
  ghost predicate Number(ids: set<Id>, n: int)
  {
    exists rows: seq<Id> :: Distinct(rows) && Elems(rows) == ids && n == |rows|
  }

  lemma NumberIs(ids: set<Id>, n: int)
    requires Number(ids, n)
    ensures n == |ids|
  {
    var rows: seq<Id> :| Distinct(rows) && Elems(rows) == ids && n == |rows|;
    DistinctCount(rows);
  }

  lemma CountOpened(s: State, lease: Lease, batch: seq<Id>, closed: seq<Id>, rest: seq<Id>, replay: seq<Id>)
    requires Distinct(batch) && Distinct(closed) && Distinct(rest) && Distinct(replay)
             && forall r | r in batch :: r in s.queue
    requires Elems(closed) == DoneBefore(s, Elems(batch)) && Elems(rest) == NewIn(s, Elems(batch))
             && Elems(replay) == ReplaysIn(s, Elems(batch))
    ensures Elems(rest) !! Elems(replay) && Elems(batch) <= s.queue.Keys
    ensures AllFree(Opened(s.queue, lease, Elems(batch), Elems(closed)), Elems(rest) + Elems(replay), lease.owner)
    ensures |closed| + |rest| + |replay| == |batch|
  {
    OpenedStaysFree(s.queue, Elems(batch), lease, Elems(closed));
    PartsCount(s, batch, closed, rest, replay);
  }

  lemma FreeRowsAreKnown(queue: map<Id, Row>, w: WriterId, rest: set<Id>, replay: set<Id>)
    requires AllFree(queue, rest + replay, w)
    ensures rest <= queue.Keys && replay <= queue.Keys
  {
    forall r | r in rest || r in replay
      ensures r in queue
    {
      assert r in rest + replay;
    }
  }

  ghost predicate NothingLocked(queue: map<Id, Row>, w: WriterId)
  {
    forall r | r in queue :: !LockedBy(queue[r], w)
  }

  predicate Finished(row: Row)
  {
    row.status == Written && row.lock.None? && row.lease.None?
  }

  /** The row waits for another attempt, for the reason given. */
  predicate IsPutBack(row: Row, code: ErrorCode)
  {
    row.status == RetryWait && row.lock.None? && row.lease.None? && row.error == code
  }

  /** What becomes of the results that were not done before. */
  ghost predicate Outcomes(before: map<Id, Row>, after: map<Id, Row>, icmp: IcmpSettings, rest: set<Id>,
      replay: set<Id>,
      stored: bool, graphUp: bool)
  {
    && (stored && graphUp ==> forall r | r in rest + replay && r in before :: r in after && Finished(after[r]))
    && (stored && !graphUp ==>
          forall r | r in rest + replay && r in before && HasEvents(before[r].envelope, icmp) ::
            r in after && IsPutBack(after[r], Neo4jPending))
    && (!stored ==> forall r | r in rest && r in before :: r in after && IsPutBack(after[r], TimescaleError))
  }

  /** The row is as it was before the claim, or, if the claim was committed, leased until its lease is over. */
  predicate IsLeft(before: Row, after: Row, lease: Lease)
  {
    after == before.(lock := None) || after == before.(status := Leased, lease := Some(lease), lock := None)
  }

  /** Replays are left alone if the table is not reached, and rows without events if the event store is not. */
  ghost predicate LeftAlone(before: map<Id, Row>, after: map<Id, Row>, icmp: IcmpSettings, lease: Lease, rest: set<Id>,
      replay: set<Id>, stored: bool, graphUp: bool)
  {
    && (!stored ==> forall r | r in replay && r in before :: r in after && IsLeft(before[r], after[r], lease))
    && (stored && !graphUp ==>
          forall r | r in rest + replay && r in before && !HasEvents(before[r].envelope, icmp) ::
            r in after && IsLeft(before[r], after[r], lease))
  }

  lemma SettledLeaves(queue: map<Id, Row>, icmp: IcmpSettings, lease: Lease, ids: set<Id>, closed: set<Id>,
      rest: set<Id>, replay: set<Id>, stored: bool, graphUp: bool)
    requires rest + replay <= ids && closed !! rest && closed !! replay && rest !! replay
    ensures var after := Settled(Opened(queue, lease, ids, closed), icmp, lease.owner, rest, replay, stored, graphUp);
            LeftAlone(queue, after, icmp, lease, rest, replay, stored, graphUp)
  {
    var middle := Opened(queue, lease, ids, closed);
    var after := Settled(middle, icmp, lease.owner, rest, replay, stored, graphUp);
    forall r | r in rest + replay && r in queue
      ensures r in after
      ensures r !in Outcome(middle, icmp, rest, replay, stored, graphUp) ==> IsLeft(queue[r], after[r], lease)
    {
    }
  }

  /** Rows outside the batch stay as they are. */
  ghost predicate OthersKept(before: map<Id, Row>, after: map<Id, Row>, w: WriterId, ids: set<Id>)
  {
    forall r | r in before && r !in ids && !LockedBy(before[r], w) :: r in after && after[r] == before[r]
  }

  lemma SettledOutcomes(queue: map<Id, Row>, icmp: IcmpSettings, w: WriterId, rest: set<Id>, replay: set<Id>,
      stored: bool, graphUp: bool)
    ensures Outcomes(queue, Settled(queue, icmp, w, rest, replay, stored, graphUp), icmp, rest, replay, stored, graphUp)
  {
  }

  lemma SettledKeepsOthers(queue: map<Id, Row>, icmp: IcmpSettings, w: WriterId, rest: set<Id>, replay: set<Id>,
      stored: bool, graphUp: bool)
    ensures OthersKept(queue, Settled(queue, icmp, w, rest, replay, stored, graphUp), w, rest + replay)
    ensures SameResults(queue, Settled(queue, icmp, w, rest, replay, stored, graphUp))
  {
  }

  /** What was finished when the batch was opened stays so, like every row outside of the batch. */
  lemma KeptThroughout(queue: map<Id, Row>, middle: map<Id, Row>, after: map<Id, Row>, w: WriterId, ids: set<Id>,
      closed: set<Id>,
      open: set<Id>)
    requires SameResults(queue, middle) && OthersKept(queue, middle, w, ids) && OthersKept(middle, after, w, open)
    requires closed !! open && open <= ids && forall r | r in closed && r in middle :: Finished(middle[r])
    ensures OthersKept(queue, after, w, ids) && forall r | r in closed && r in queue :: r in after && Finished(after[r])
  {
  }

  lemma OutcomesTransfer(queue: map<Id, Row>, before: map<Id, Row>, after: map<Id, Row>, icmp: IcmpSettings,
      rest: set<Id>,
      replay: set<Id>, stored: bool, graphUp: bool)
    requires SameResults(queue, before) && Outcomes(before, after, icmp, rest, replay, stored, graphUp)
    ensures Outcomes(queue, after, icmp, rest, replay, stored, graphUp)
  {
  }

  lemma EventsTransfer(queue: map<Id, Row>, before: map<Id, Row>, icmp: IcmpSettings, ids: set<Id>)
    requires SameResults(queue, before)
    ensures EventsOf(queue, icmp, ids) == EventsOf(before, icmp, ids)
  {
  }

  /** Opening a batch changes no envelope, and no row outside of it. */
  lemma OpenedSame(queue: map<Id, Row>, lease: Lease, ids: set<Id>, closed: set<Id>)
    requires closed <= ids
    ensures SameResults(queue, Opened(queue, lease, ids, closed))
    ensures OthersKept(queue, Opened(queue, lease, ids, closed), lease.owner, ids)
    ensures forall r | r in closed && r in queue :: Finished(Opened(queue, lease, ids, closed)[r])
  {
  }

  /** One iteration: the claim that it makes, the latencies that it reads, and what the two stores answer. */
  datatype Iteration =
    Iteration(lease: Lease, ids: set<Id>, previous: map<Id, real>, answer: StoreAnswer, graphUp: bool)

  /** What is left to do after the first half, and how many results were done before. */
  datatype Middle = Middle(rest: seq<Id>, replay: seq<Id>, closed: nat)

  /** How the second half ends: whether the table admits the plan, whether it is stored, and the numbers of rows. */
  datatype Ending = Ending(admitted: bool, stored: bool, inserted: nat, written: nat, retried: nat)

  function StatsOf(o: Middle, e: Ending): Stats
  {
    Stats(o.closed + |o.rest| + |o.replay|, e.inserted, o.closed, o.closed + e.written, e.retried, 0)
  }

  /** After the claim, the lookup and the completion of duplicates. */
  ghost predicate OpenResult(s: State, m: State, it: Iteration, o: Middle)
  {
    && m == s.(queue := Opened(s.queue, it.lease, it.ids, DoneBefore(s, it.ids)),
               writers := s.writers[it.lease.owner := Storing(Elems(o.rest), Elems(o.replay))])
    && Distinct(o.rest) && Distinct(o.replay)
    && Elems(o.rest) == NewIn(s, it.ids) && Elems(o.replay) == ReplaysIn(s, it.ids)
    && Number(DoneBefore(s, it.ids), o.closed) && Number(it.ids, o.closed + |o.rest| + |o.replay|)
  }

  /** After the attempt to store and what follows from it. */
  ghost predicate SettleResult(m: State, t: State, w: WriterId, rest: seq<Id>, replay: seq<Id>,
      previous: map<Id, real>, answer: StoreAnswer, graphUp: bool, e: Ending, plan: Plan)
  {
    && IsPlan(m.queue, Elems(rest), previous, plan)
    && (e.stored <==> answer == Confirmed && e.admitted)
    && t.samples == (if answer != Failed && e.admitted then m.samples + SamplesOf(plan) else m.samples)
    && t.queue == Settled(m.queue, m.icmp, w, Elems(rest), Elems(replay), e.stored, graphUp)
    && t.published == (if e.stored && graphUp then m.published + EventsOf(m.queue, m.icmp, Elems(rest) + Elems(replay))
                       else m.published)
    && t.writers == m.writers - {w} && t.icmp == m.icmp
    && e.inserted == (if e.stored then Volume(plan, rest) else 0)
    && e.written == (if e.stored && graphUp then |rest| + |replay| else 0)
    && (!e.stored ==> e.retried == |rest|) && (e.stored && graphUp ==> e.retried == 0)
    && (e.stored && !graphUp ==> Number(EventsOf(m.queue, m.icmp, Elems(rest) + Elems(replay)), e.retried))
  }

  /** The second half of the iteration `it`, after the first half `o`. */
  ghost predicate SettlesAfter(m: State, t: State, it: Iteration, o: Middle, e: Ending, plan: Plan)
  {
    SettleResult(m, t, it.lease.owner, o.rest, o.replay, it.previous, it.answer, it.graphUp, e, plan)
  }

  /** What an iteration makes of the rows and of the statistics, in terms of the rows as they were before it. */
  ghost predicate RowsResult(s: State, t: State, it: Iteration, stored: bool, stats: Stats)
  {
    var done, rest, replay := DoneBefore(s, it.ids), NewIn(s, it.ids), ReplaysIn(s, it.ids);
    var open := EventsOf(s.queue, s.icmp, rest + replay);
    && Outcomes(s.queue, t.queue, s.icmp, rest, replay, stored, it.graphUp)
    && LeftAlone(s.queue, t.queue, s.icmp, it.lease, rest, replay, stored, it.graphUp)
    && (forall r | r in done :: r in t.queue && Finished(t.queue[r]))
    && OthersKept(s.queue, t.queue, it.lease.owner, it.ids) && NothingLocked(t.queue, it.lease.owner)
    && t.published == (if stored && it.graphUp then s.published + open else s.published)
    && Number(it.ids, stats.claimed) && stats.deadLettered == 0 && Number(done, stats.duplicates)
    && stats.written == (if stored && it.graphUp then stats.claimed else stats.duplicates)
    && (!stored ==> Number(rest, stats.retried)) && (stored && it.graphUp ==> stats.retried == 0)
    && (stored && !it.graphUp ==> Number(open, stats.retried))
  }

  /**
   What an iteration makes of everything: some plan holds the measurements of the new
   results, and they are stored if the table admits them and is reached.
   */
  ghost predicate IterationResult(s: State, t: State, it: Iteration, stats: Stats, stored: bool)
  {
    exists plan: Plan ::
      && IsPlan(s.queue, NewIn(s, it.ids), it.previous, plan)
      && (stored <==> it.answer == Confirmed && Insertable(s.samples, plan))
      && t.samples == (if it.answer != Failed && Insertable(s.samples, plan) then s.samples + SamplesOf(plan)
                       else s.samples)
      && stats.inserted == (if stored then |t.samples| - |s.samples| else 0)
      && RowsResult(s, t, it, stored, stats)
  }

  lemma Describe(s: State, m: State, t: State, it: Iteration, o: Middle, e: Ending, plan: Plan)
    requires it.ids <= s.queue.Keys && OpenResult(s, m, it, o) && SettlesAfter(m, t, it, o, e, plan)
    requires e.admitted <==> Insertable(s.samples, plan)
    ensures IterationResult(s, t, it, StatsOf(o, e), e.stored)
  {
    DescribePlan(s, m.queue, it.lease, it.ids, it.previous, plan);
    DescribeStats(s, m, t, it, o, e, plan);
    if e.stored {
      StoreGrows(s.samples, plan, o.rest);
    }
    assert IsPlan(s.queue, NewIn(s, it.ids), it.previous, plan);
  }

  lemma DescribeStats(s: State, m: State, t: State, it: Iteration, o: Middle, e: Ending, plan: Plan)
    requires it.ids <= s.queue.Keys && OpenResult(s, m, it, o) && SettlesAfter(m, t, it, o, e, plan)
    ensures RowsResult(s, t, it, e.stored, StatsOf(o, e))
  {
    DescribePlan(s, m.queue, it.lease, it.ids, it.previous, plan);
    DescribeRows(s, m.queue, it.lease, it.ids, e.stored, it.graphUp);
    assert Distinct(o.rest) && Elems(o.rest) == NewIn(s, it.ids) && |o.rest| == |o.rest|;
  }

  /** The two halves of an iteration, one after the other. */
  ghost predicate Iterated(s: State, t: State, it: Iteration, admitted: bool, stats: Stats, stored: bool, plan: Plan)
  {
    exists m, o, e ::
      && OpenResult(s, m, it, o) && SettlesAfter(m, t, it, o, e, plan)
      && e.admitted == admitted && e.stored == stored && stats == StatsOf(o, e)
  }

  lemma IteratedBy(s: State, m: State, t: State, it: Iteration, o: Middle, e: Ending, plan: Plan)
    ensures OpenResult(s, m, it, o) && SettlesAfter(m, t, it, o, e, plan) ==>
              Iterated(s, t, it, e.admitted, StatsOf(o, e), e.stored, plan)
  {
  }

  /** What the two halves make of everything, if `admitted` says whether the table admits the plan. */
  lemma IterationDescribed(s: State, t: State, it: Iteration, admitted: bool, stats: Stats, stored: bool, plan: Plan)
    requires it.ids <= s.queue.Keys && (admitted <==> Insertable(s.samples, plan))
    requires Iterated(s, t, it, admitted, stats, stored, plan)
    ensures IterationResult(s, t, it, stats, stored)
  {
    var m, o, e :|
      && OpenResult(s, m, it, o) && SettlesAfter(m, t, it, o, e, plan)
      && e.admitted == admitted && e.stored == stored && stats == StatsOf(o, e);
    Describes(s, m, t, it, o, e, plan);
  }

  lemma Describes(s: State, m: State, t: State, it: Iteration, o: Middle, e: Ending, plan: Plan)
    requires it.ids <= s.queue.Keys && (e.admitted <==> Insertable(s.samples, plan))
    ensures OpenResult(s, m, it, o) && SettlesAfter(m, t, it, o, e, plan) ==>
              IterationResult(s, t, it, StatsOf(o, e), e.stored)
  {
    if OpenResult(s, m, it, o) && SettlesAfter(m, t, it, o, e, plan) {
      Describe(s, m, t, it, o, e, plan);
    }
  }

  lemma DescribePlan(s: State, middle: map<Id, Row>, lease: Lease, ids: set<Id>, previous: map<Id, real>, plan: Plan)
    requires ids <= s.queue.Keys && middle == Opened(s.queue, lease, ids, DoneBefore(s, ids))
    requires IsPlan(middle, NewIn(s, ids), previous, plan)
    ensures IsPlan(s.queue, NewIn(s, ids), previous, plan)
    ensures EventsOf(middle, s.icmp, NewIn(s, ids) + ReplaysIn(s, ids)) ==
              EventsOf(s.queue, s.icmp, NewIn(s, ids) + ReplaysIn(s, ids))
  {
    OpenedSame(s.queue, lease, ids, DoneBefore(s, ids));
    PlanTransfers(s.queue, middle, NewIn(s, ids), previous, plan);
    EventsTransfer(s.queue, middle, s.icmp, NewIn(s, ids) + ReplaysIn(s, ids));
  }

  lemma DescribeRows(s: State, middle: map<Id, Row>, lease: Lease, ids: set<Id>, stored: bool, graphUp: bool)
    requires ids <= s.queue.Keys && middle == Opened(s.queue, lease, ids, DoneBefore(s, ids))
    ensures var after := Settled(middle, s.icmp, lease.owner, NewIn(s, ids), ReplaysIn(s, ids), stored, graphUp);
            && Outcomes(s.queue, after, s.icmp, NewIn(s, ids), ReplaysIn(s, ids), stored, graphUp)
            && LeftAlone(s.queue, after, s.icmp, lease, NewIn(s, ids), ReplaysIn(s, ids), stored, graphUp)
            && (forall r | r in DoneBefore(s, ids) :: r in after && Finished(after[r]))
            && OthersKept(s.queue, after, lease.owner, ids) && NothingLocked(after, lease.owner)
  {
    var closed, rest, replay := DoneBefore(s, ids), NewIn(s, ids), ReplaysIn(s, ids);
    var after := Settled(middle, s.icmp, lease.owner, rest, replay, stored, graphUp);
    OpenedSame(s.queue, lease, ids, closed);
    SettledOutcomes(middle, s.icmp, lease.owner, rest, replay, stored, graphUp);
    OutcomesTransfer(s.queue, middle, after, s.icmp, rest, replay, stored, graphUp);
    SettledLeaves(s.queue, s.icmp, lease, ids, closed, rest, replay, stored, graphUp);
    SettledKeepsOthers(middle, s.icmp, lease.owner, rest, replay, stored, graphUp);
    SettledUnlocks(middle, s.icmp, lease.owner, rest, replay, stored, graphUp);
    KeptThroughout(s.queue, middle, after, lease.owner, ids, closed, rest + replay);
  }

  lemma SettledUnlocks(queue: map<Id, Row>, icmp: IcmpSettings, w: WriterId, rest: set<Id>, replay: set<Id>,
      stored: bool, graphUp: bool)
    ensures NothingLocked(Settled(queue, icmp, w, rest, replay, stored, graphUp), w)
  {
  }

  predicate AllEligible(queue: map<Id, Row>, batch: seq<Id>, now: int)
  {
    forall r | r in batch :: r in queue && Eligible(queue[r], now)
  }

  class Pool {
    var now: int
    var icmp: IcmpSettings
    var queue: map<Id, Row>
    var receipts: set<Id>
    var samples: set<Sample>
    ghost var commits: seq<Plan>
    var published: set<Id>
    ghost var writers: map<WriterId, Writer>

    ghost function Snapshot(): State
      reads this
    {
      State(now, icmp, queue, receipts, samples, commits, published, writers)
    }

    /** Looks up the receipt of every claimed result. */
    method LookUp(w: WriterId, batch: seq<Id>, ghost pending: set<Id>) returns (dups: seq<Id>, rest: seq<Id>)
      requires Distinct(batch) && Elems(batch) <= queue.Keys
      requires w in writers && writers[w] == Checking(Elems(batch), {}, {}, pending)
      modifies `writers
      ensures Performs(old(Snapshot()), w, Snapshot())
      ensures writers == old(writers)[w := Checking({}, Elems(dups), Elems(rest), pending)]
      ensures Distinct(dups) && Distinct(rest)
      ensures forall r :: r in dups <==> r in batch && queue[r].key in receipts
      ensures forall r :: r in rest <==> r in batch && queue[r].key !in receipts
    {
      ghost var s := Snapshot();
      dups, rest := [], [];
      PerformsNothing(s, w);
      Ends(batch);
      var i := 0;
      while i < |batch|
        invariant 0 <= i <= |batch|
        invariant Snapshot() == With(s, w, Checking(From(batch, i), Elems(dups), Elems(rest), pending))
        invariant Performs(s, w, Snapshot())
        invariant Distinct(dups) && Distinct(rest)
        invariant forall r :: r in dups <==> r in Upto(batch, i) && queue[r].key in receipts
        invariant forall r :: r in rest <==> r in Upto(batch, i) && queue[r].key !in receipts
      {
        HandleOne(batch, i);
        PerformsThen(s, w, Snapshot(), Check(w, batch[i]));
        if queue[batch[i]].key in receipts {
          assert Elems(dups + [batch[i]]) == Elems(dups) + {batch[i]};
          dups := dups + [batch[i]];
        } else {
          assert Elems(rest + [batch[i]]) == Elems(rest) + {batch[i]};
          rest := rest + [batch[i]];
        }
        writers := writers[w := Checking(From(batch, i + 1), Elems(dups), Elems(rest), pending)];
        i := i + 1;
      }
    }

    /** Completes rows one by one, as the duplicates and the published results are. */
    method CompleteAll(w: WriterId, rows: seq<Id>, ghost at: Writer)
      requires at.Closing? || at.Completing?
      requires Distinct(rows) && AllFree(queue, Elems(rows), w)
      requires w in writers && writers[w] == Left(at, Elems(rows))
      modifies `queue, `writers
      ensures Performs(old(Snapshot()), w, Snapshot())
      ensures writers == old(writers)[w := Left(at, {})]
      ensures queue == AllComplete(CommittedIf(old(queue), w, Elems(rows) != {}), Elems(rows))
    {
      ghost var s := Snapshot();
      PerformsNothing(s, w);
      Ends(rows);
      var i := 0;
      while i < |rows|
        invariant 0 <= i <= |rows|
        invariant Snapshot() == CompletedTo(s, w, at, rows, i)
        invariant Performs(s, w, Snapshot())
      {
        CompleteOne(s, w, at, rows, i);
        queue := Commit(queue, w)[rows[i] := Complete(queue[rows[i]])];
        writers := writers[w := Left(at, From(rows, i + 1))];
        i := i + 1;
      }
      assert rows != [] ==> rows[0] in Elems(rows);
    }

    /** Puts rows back for a later attempt, with the reason. */
    method RetryAll(w: WriterId, rows: seq<Id>, code: ErrorCode)
      requires Distinct(rows) && AllFree(queue, Elems(rows), w)
      requires w in writers && writers[w] == Requeueing(Elems(rows), code)
      modifies `queue, `writers
      ensures Performs(old(Snapshot()), w, Snapshot())
      ensures writers == old(writers)[w := Requeueing({}, code)]
      ensures queue == AllRetried(CommittedIf(old(queue), w, Elems(rows) != {}), Elems(rows), code)
    {
      ghost var s := Snapshot();
      PerformsNothing(s, w);
      Ends(rows);
      var i := 0;
      while i < |rows|
        invariant 0 <= i <= |rows|
        invariant Snapshot() == RetriedTo(s, w, code, rows, i)
        invariant Performs(s, w, Snapshot())
      {
        RequeueOne(s, w, code, rows, i);
        queue := Commit(queue, w)[rows[i] := Retry(queue[rows[i]], code)];
        writers := writers[w := Requeueing(From(rows, i + 1), code)];
        i := i + 1;
      }
      assert rows != [] ==> rows[0] in Elems(rows);
    }

    /** Stores the samples and receipts of the new results in one transaction. */
    method Persist(w: WriterId, rows: seq<Id>, plan: Plan, answer: StoreAnswer, ghost replay: set<Id>)
      returns (stored: bool, admitted: bool)
      requires Distinct(rows) && Elems(rows) <= queue.Keys && plan.Keys == Elems(rows)
      requires forall r | r in rows :: Computed(queue[r].envelope, plan[r])
      requires w in writers && writers[w] == Storing(Elems(rows), replay)
      modifies `samples, `receipts, `commits, `writers
      ensures Performs(old(Snapshot()), w, Snapshot())
      ensures admitted <==> Insertable(old(samples), plan)
      ensures stored <==> answer == Confirmed && admitted
      ensures writers == old(writers)[w :=
              if stored then Publishing(Elems(rows) + replay) else Requeueing(Elems(rows), TimescaleError)]
      ensures samples == if answer != Failed && admitted then old(samples) + SamplesOf(plan) else old(samples)
      ensures receipts ==
                if answer != Failed && admitted then old(receipts) + KeysOfRows(queue, Elems(rows)) else old(receipts)
    {
      admitted := Insertable(samples, plan);
      stored := answer == Confirmed && admitted;
      PerformsNothing(Snapshot(), w);
      if answer != Failed && admitted {
        PerformsThen(Snapshot(), w, Snapshot(), Store(w, plan, stored));
        samples := samples + SamplesOf(plan);
        receipts := receipts + KeysOfRows(queue, Elems(rows));
        commits := commits + [plan];
      } else {
        PerformsThen(Snapshot(), w, Snapshot(), StoreFails(w));
      }
      writers := writers[w :=
          if stored then Publishing(Elems(rows) + replay) else Requeueing(Elems(rows), TimescaleError)];
    }

    /** Claims a batch, in a transaction that stays open. */
    method ClaimBatch(w: WriterId, batch: seq<Id>, ttl: int) returns (pending: set<Id>)
      requires w !in writers && batch != []
      requires AllEligible(queue, batch, now)
      modifies `queue, `writers
      ensures Performs(old(Snapshot()), w, Snapshot())
      ensures writers == old(writers)[w := Checking(Elems(batch), {}, {}, pending)]
      ensures queue == AllLocked(old(queue), Elems(batch), Lease(w, now + ttl))
      ensures pending == set r | r in Elems(batch) && old(queue)[r].error == Neo4jPending
    {
      ghost var s := Snapshot();
      PerformsNothing(s, w);
      pending := set r | r in batch && queue[r].error == Neo4jPending;
      assert batch[0] in Elems(batch);
      ClaimLocks(s, w, Elems(batch), ttl, pending);
      PerformsThen(s, w, s, Claim(w, Elems(batch), ttl));
      queue := AllLocked(queue, Elems(batch), Lease(w, now + ttl));
      writers := writers[w := Checking(Elems(batch), {}, {}, pending)];
    }

    /** Completes the duplicates whose events are done and turns to the other results. */
    method Sort(w: WriterId, dups: seq<Id>, pending: set<Id>, ghost rest: set<Id>)
      returns (closed: seq<Id>, replay: seq<Id>)
      requires w in writers && writers[w] == Checking({}, Elems(dups), rest, pending)
      requires Distinct(dups) && AllFree(queue, Elems(dups), w)
      modifies `queue, `writers
      ensures Performs(old(Snapshot()), w, Snapshot())
      ensures writers == old(writers)[w := Storing(rest, Elems(replay))]
      ensures queue == AllComplete(CommittedIf(old(queue), w, Elems(closed) != {}), Elems(closed))
      ensures Distinct(closed) && Distinct(replay)
      ensures forall r :: r in closed <==> r in dups && r !in pending
      ensures forall r :: r in replay <==> r in dups && r in pending
    {
      ghost var s := Snapshot();
      PerformsNothing(s, w);
      closed, replay := Only(dups, Elems(dups) - pending), Only(dups, pending);
      OnlyExact(dups, Elems(dups) - pending);
      OnlyExact(dups, pending);
      assert Elems(closed) == Elems(dups) - pending && Elems(replay) == Elems(dups) * pending;
      ghost var at := Closing(Elems(closed), rest, Elems(replay));
      PerformsThen(s, w, s, Triage(w));
      writers := writers[w := at];
      ghost var t := Snapshot();
      CompleteAll(w, closed, at);
      PerformsMore(s, w, t, Snapshot());
      PerformsThen(s, w, Snapshot(), BeginStore(w));
      writers := writers[w := Storing(rest, Elems(replay))];
    }

    /** The iteration is over: the session is closed, and a claim that was not committed is undone. */
    method Leave(w: WriterId)
      requires w in writers && (writers[w].Requeueing? || writers[w].Completing?) && writers[w].todo == {}
      modifies `queue, `writers
      ensures Performs(old(Snapshot()), w, Snapshot()) && writers == old(writers) - {w}
      ensures queue == Released(old(queue), w)
    {
      PerformsNothing(Snapshot(), w);
      StopLeaves(Snapshot(), w);
      PerformsThen(Snapshot(), w, Snapshot(), Stop(w));
      queue := Released(queue, w);
      writers := writers - {w};
    }

    /** Puts rows back and ends the iteration. */
    method PutBack(w: WriterId, rows: seq<Id>, code: ErrorCode)
      requires w in writers && writers[w] == Requeueing(Elems(rows), code)
      requires Distinct(rows) && AllFree(queue, Elems(rows), w)
      modifies `queue, `writers
      ensures Performs(old(Snapshot()), w, Snapshot()) && writers == old(writers) - {w}
      ensures queue == Released(AllRetried(CommittedIf(old(queue), w, Elems(rows) != {}), Elems(rows), code), w)
    {
      ghost var s := Snapshot();
      RetryAll(w, rows, code);
      ghost var t := Snapshot();
      Leave(w);
      PerformsMore(s, w, t, Snapshot());
    }

    /** Completes published rows and ends the iteration. */
    method CompleteBatch(w: WriterId, rows: seq<Id>)
      requires w in writers && writers[w] == Completing(Elems(rows))
      requires Distinct(rows) && AllFree(queue, Elems(rows), w)
      modifies `queue, `writers
      ensures Performs(old(Snapshot()), w, Snapshot()) && writers == old(writers) - {w}
      ensures queue == Released(AllComplete(CommittedIf(old(queue), w, Elems(rows) != {}), Elems(rows)), w)
    {
      ghost var s := Snapshot();
      CompleteAll(w, rows, Completing(Elems(rows)));
      ghost var t := Snapshot();
      Leave(w);
      PerformsMore(s, w, t, Snapshot());
    }

    /** The event store took the events: completes every row of the batch. */
    method Confirm(w: WriterId, rows: seq<Id>)
      requires w in writers && writers[w] == Publishing(Elems(rows))
      requires Distinct(rows) && AllFree(queue, Elems(rows), w)
      modifies `queue, `published, `writers
      ensures Performs(old(Snapshot()), w, Snapshot()) && writers == old(writers) - {w}
      ensures published == old(published) + WithEvents(old(Snapshot()), Elems(rows))
      ensures queue == Released(AllComplete(CommittedIf(old(queue), w, Elems(rows) != {}), Elems(rows)), w)
    {
      ghost var s := Snapshot();
      PerformsNothing(s, w);
      PerformsThen(s, w, s, Publish(w));
      published := published + EventsOf(queue, icmp, Elems(rows));
      writers := writers[w := Completing(Elems(rows))];
      ghost var t := Snapshot();
      CompleteBatch(w, rows);
      PerformsMore(s, w, t, Snapshot());
    }

    /** The event store failed: marks every row with events for a replay. */
    method Mark(w: WriterId, rows: seq<Id>) returns (marked: nat)
      requires w in writers && writers[w] == Publishing(Elems(rows))
      requires Distinct(rows) && AllFree(queue, Elems(rows), w)
      modifies `queue, `writers
      ensures Performs(old(Snapshot()), w, Snapshot()) && writers == old(writers) - {w}
      ensures Number(EventsOf(old(queue), icmp, Elems(rows)), marked)
      ensures var ids := EventsOf(old(queue), icmp, Elems(rows));
              queue == Released(AllRetried(CommittedIf(old(queue), w, ids != {}), ids, Neo4jPending), w)
    {
      ghost var s := Snapshot();
      PerformsNothing(s, w);
      PerformsThen(s, w, s, PublishFails(w));
      var again := Only(rows, EventsOf(queue, icmp, Elems(rows)));
      OnlyExact(rows, EventsOf(queue, icmp, Elems(rows)));
      assert Elems(again) == EventsOf(queue, icmp, Elems(rows));
      marked := |again|;
      writers := writers[w := Requeueing(Elems(again), Neo4jPending)];
      ghost var t := Snapshot();
      PutBack(w, again, Neo4jPending);
      PerformsMore(s, w, t, Snapshot());
    }

    /** Builds the samples of the new results and tries to store them. */
    method StoreNew(w: WriterId, rest: seq<Id>, previous: map<Id, real>, answer: StoreAnswer, ghost replay: set<Id>)
      returns (stored: bool, inserted: nat, admitted: bool, ghost plan: Plan)
      requires Distinct(rest) && Elems(rest) <= queue.Keys
      requires w in writers && writers[w] == Storing(Elems(rest), replay)
      modifies `samples, `receipts, `commits, `writers
      ensures Performs(old(Snapshot()), w, Snapshot())
      ensures IsPlan(queue, Elems(rest), previous, plan)
      ensures admitted <==> Insertable(old(samples), plan)
      ensures stored <==> answer == Confirmed && admitted
      ensures samples == if answer != Failed && admitted then old(samples) + SamplesOf(plan) else old(samples)
      ensures receipts ==
                if answer != Failed && admitted then old(receipts) + KeysOfRows(queue, Elems(rest)) else old(receipts)
      ensures writers == old(writers)[w :=
              if stored then Publishing(Elems(rest) + replay) else Requeueing(Elems(rest), TimescaleError)]
      ensures inserted == if stored then Volume(plan, rest) else 0
    {
      var built, count := BuildSamples(queue, rest, previous);
      plan := built;
      stored, admitted := Persist(w, rest, built, answer, replay);
      inserted := if stored then count else 0;
    }

    /** What follows the attempt to store: requeue the new results, or publish and then complete or mark. */
    method Settle(w: WriterId, rest: seq<Id>, replay: seq<Id>, stored: bool, graphUp: bool)
      returns (written: nat, retried: nat)
      requires Distinct(rest) && Distinct(replay) && Elems(rest) !! Elems(replay)
               && AllFree(queue, Elems(rest) + Elems(replay), w)
      requires w in writers
      requires writers[w] ==
               if stored then Publishing(Elems(rest) + Elems(replay)) else Requeueing(Elems(rest), TimescaleError)
      modifies `queue, `published, `writers
      ensures Performs(old(Snapshot()), w, Snapshot()) && writers == old(writers) - {w}
      ensures queue == Settled(old(queue), icmp, w, Elems(rest), Elems(replay), stored, graphUp)
      ensures published ==
                if stored && graphUp then old(published) + EventsOf(old(queue), icmp, Elems(rest) + Elems(replay))
                else old(published)
      ensures written == if stored && graphUp then |rest| + |replay| else 0
      ensures (!stored ==> retried == |rest|) && (stored && graphUp ==> retried == 0)
      ensures stored && !graphUp ==> Number(EventsOf(old(queue), icmp, Elems(rest) + Elems(replay)), retried)
    {
      JoinRows(rest, replay);
      written, retried := 0, 0;
      if !stored {
        PutBack(w, rest, TimescaleError);
        retried := |rest|;
      } else if graphUp {
        Confirm(w, rest + replay);
        written := |rest| + |replay|;
      } else {
        retried := Mark(w, rest + replay);
      }
    }

    /** Looks up and sorts the claimed batch. */
    method Examine(w: WriterId, batch: seq<Id>, pending: set<Id>)
      returns (closed: seq<Id>, rest: seq<Id>, replay: seq<Id>)
      requires w in writers && writers[w] == Checking(Elems(batch), {}, {}, pending)
      requires Distinct(batch) && AllFree(queue, Elems(batch), w)
      requires pending == set r | r in Elems(batch) && queue[r].error == Neo4jPending
      modifies `queue, `writers
      ensures Performs(old(Snapshot()), w, Snapshot())
      ensures writers == old(writers)[w := Storing(Elems(rest), Elems(replay))]
      ensures queue == AllComplete(CommittedIf(old(queue), w, Elems(closed) != {}), Elems(closed))
      ensures Distinct(closed) && Elems(closed) == DoneBefore(old(Snapshot()), Elems(batch))
      ensures Distinct(rest) && Elems(rest) == NewIn(old(Snapshot()), Elems(batch))
      ensures Distinct(replay) && Elems(replay) == ReplaysIn(old(Snapshot()), Elems(batch))
    {
      ghost var s := Snapshot();
      var dups;
      dups, rest := LookUp(w, batch, pending);
      assert forall r :: r in batch <==> r in Elems(batch);
      ghost var t := Snapshot();
      closed, replay := Sort(w, dups, pending, Elems(rest));
      PerformsMore(s, w, t, Snapshot());
    }

    /** Claims, looks up and sorts a batch. */
    method Open(w: WriterId, batch: seq<Id>, ttl: int) returns (closed: seq<Id>, rest: seq<Id>, replay: seq<Id>)
      requires w !in writers && batch != [] && Distinct(batch)
      requires AllEligible(queue, batch, now)
      modifies `queue, `writers
      ensures Performs(old(Snapshot()), w, Snapshot())
      ensures writers == old(writers)[w := Storing(Elems(rest), Elems(replay))]
      ensures queue == Opened(old(queue), Lease(w, now + ttl), Elems(batch), Elems(closed))
      ensures Distinct(closed) && Elems(closed) == DoneBefore(old(Snapshot()), Elems(batch))
      ensures Distinct(rest) && Elems(rest) == NewIn(old(Snapshot()), Elems(batch))
      ensures Distinct(replay) && Elems(replay) == ReplaysIn(old(Snapshot()), Elems(batch))
    {
      ghost var s := Snapshot();
      var pending := ClaimBatch(w, batch, ttl);
      ghost var locked := Snapshot();
      LockingChangesNothing(s, locked, Lease(w, now + ttl), Elems(batch));
      closed, rest, replay := Examine(w, batch, pending);
      PerformsMore(s, w, locked, Snapshot());
    }

    /** Stores what is new and settles everything that is left. */
    method StoreAndSettle(w: WriterId, rest: seq<Id>, replay: seq<Id>, previous: map<Id, real>, answer: StoreAnswer,
        graphUp: bool)
      returns (e: Ending, ghost plan: Plan)
      requires Distinct(rest) && Distinct(replay) && Elems(rest) !! Elems(replay)
               && AllFree(queue, Elems(rest) + Elems(replay), w)
      requires w in writers && writers[w] == Storing(Elems(rest), Elems(replay))
      modifies `queue, `samples, `receipts, `commits, `published, `writers
      ensures Performs(old(Snapshot()), w, Snapshot())
      ensures e.admitted <==> Insertable(old(samples), plan)
      ensures SettleResult(old(Snapshot()), Snapshot(), w, rest, replay, previous, answer, graphUp, e, plan)
    {
      ghost var s := Snapshot();
      FreeRowsAreKnown(queue, w, Elems(rest), Elems(replay));
      var stored, inserted, admitted, written, retried;
      stored, inserted, admitted, plan := StoreNew(w, rest, previous, answer, Elems(replay));
      ghost var t := Snapshot();
      written, retried := Settle(w, rest, replay, stored, graphUp);
      PerformsMore(s, w, t, Snapshot());
      e := Ending(admitted, stored, inserted, written, retried);
    }

    /** The same as opening, with the numbers of the results of each kind. */
    method OpenAndCount(w: WriterId, batch: seq<Id>, ttl: int, it: Iteration) returns (o: Middle)
      requires it.lease == Lease(w, now + ttl) && it.ids == Elems(batch)
      requires w !in writers && batch != [] && Distinct(batch)
      requires AllEligible(queue, batch, now)
      modifies `queue, `writers
      ensures Performs(old(Snapshot()), w, Snapshot())
      ensures writers == old(writers)[w := Storing(Elems(o.rest), Elems(o.replay))]
      ensures OpenResult(old(Snapshot()), Snapshot(), it, o)
      ensures Elems(o.rest) !! Elems(o.replay) && AllFree(queue, Elems(o.rest) + Elems(o.replay), w)
      ensures Elems(batch) <= old(queue).Keys
    {
      ghost var s := Snapshot();
      var done, rest, replay := Open(w, batch, ttl);
      CountOpened(s, Lease(w, s.now + ttl), batch, done, rest, replay);
      o := Middle(rest, replay, |done|);
    }

    /** An iteration over a batch that is not empty. */
    method RunBatch(w: WriterId, batch: seq<Id>, ttl: int, previous: map<Id, real>, answer: StoreAnswer, graphUp: bool)
      returns (stats: Stats, stored: bool, admitted: bool, ghost plan: Plan)
      requires w !in writers && batch != [] && Distinct(batch)
      requires AllEligible(queue, batch, now)
      modifies `queue, `samples, `receipts, `commits, `published, `writers
      ensures Performs(old(Snapshot()), w, Snapshot()) && writers == old(writers)
      ensures admitted <==> Insertable(old(samples), plan)
      ensures Iterated(old(Snapshot()), Snapshot(),
                       Iteration(Lease(w, old(now) + ttl), Elems(batch), previous, answer, graphUp),
                       admitted, stats, stored, plan)
    {
      ghost var s := Snapshot();
      var it := Iteration(Lease(w, now + ttl), Elems(batch), previous, answer, graphUp);
      var o := OpenAndCount(w, batch, ttl, it);
      ghost var middle := Snapshot();
      var e;
      e, plan := StoreAndSettle(w, o.rest, o.replay, previous, answer, graphUp);
      ghost var after := Snapshot();
      CameAndWent(s.writers, w, Storing(Elems(o.rest), Elems(o.replay)));
      PerformsMore(s, w, middle, after);
      IteratedBy(s, middle, after, it, o, e, plan);
      stats, stored, admitted := StatsOf(o, e), e.stored, e.admitted;
    }

    /**
     One iteration is a run of writer `w`'s own protocol steps, whatever the two stores
     answer; `IterationDescribed` says what it makes of the rows, of the table and of the
     statistics. The results that were done before are written. The new ones are stored,
     each with its measurements, if the table admits them all; then every claimed row is
     written, or, if the event store fails, those with events wait for a replay. If the
     table is not reached, the new results are put back and the rows that only wait for a
     replay are left alone. No row stays locked.
     */
    method RunOnce(w: WriterId, enabled: bool, batch: seq<Id>, ttl: int, previous: map<Id, real>, answer: StoreAnswer,
        graphUp: bool)
      returns (stats: Stats, stored: bool, admitted: bool, ghost plan: Plan)
      requires w !in writers && Distinct(batch)
      requires AllEligible(queue, batch, now)
      modifies `queue, `samples, `receipts, `commits, `published, `writers
      ensures Performs(old(Snapshot()), w, Snapshot()) && writers == old(writers)
      ensures !enabled || batch == [] ==> Snapshot() == old(Snapshot()) && stats == Stats(0, 0, 0, 0, 0, 0) && !stored
      ensures enabled && batch != [] ==> (admitted <==> Insertable(old(samples), plan))
      ensures enabled && batch != [] ==>
                Iterated(old(Snapshot()), Snapshot(),
                         Iteration(Lease(w, old(now) + ttl), Elems(batch), previous, answer, graphUp),
                         admitted, stats, stored, plan)
    {
      PerformsNothing(Snapshot(), w);
      stats, stored, admitted, plan := Stats(0, 0, 0, 0, 0, 0), false, false, map[];
      if enabled && batch != [] {
        stats, stored, admitted, plan := RunBatch(w, batch, ttl, previous, answer, graphUp);
      }
    }
  }
}
