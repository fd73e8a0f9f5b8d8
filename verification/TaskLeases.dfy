/**
 The leased task queue (backend/polling/pg_queue.py): which rows a claim takes, what a
 lease guarantees over whole runs, and what it does not.
 */
module TaskLeases {
  import opened Base

  type WorkerId = Id

  datatype TaskStatus = Available | Leased | RetryWait | Deferred | Completed | DeadLetter

  datatype Task = Task(
    status: TaskStatus, protocol: Id, partition: int, priority: int, eligibleAt: int,
    owner: Option<WorkerId>, expires: Option<int>, leaseAttempts: nat, executeAttempts: nat)

  type Rows = map<Id, Task>

  // ------------------------------------------------------------------ what a claim takes

  datatype Filter = Filter(protocol: Id, partitions: Option<set<int>>, locked: set<Id>)

  predicate Claimable(task: Task, now: int)
  {
    || (task.status in {Available, RetryWait, Deferred} && task.eligibleAt <= now)
    || (task.status == Leased && task.expires.Some? && task.expires.value <= now)
  }

  /** The rows a claim chooses from: due, of its protocol and partitions, and not locked by another transaction. */
  function Candidates(rows: Rows, now: int, filter: Filter): set<Id>
  {
    set r | r in rows && Claimable(rows[r], now) && rows[r].protocol == filter.protocol
            && (filter.partitions.None? || rows[r].partition in filter.partitions.value) && r !in filter.locked
  }

  /** The order of claims: priority, then due time, then identifier. */
  predicate Before(rows: Rows, a: Id, b: Id)
    requires a in rows && b in rows
  {
    || rows[a].priority < rows[b].priority
    || (rows[a].priority == rows[b].priority
        && (rows[a].eligibleAt < rows[b].eligibleAt || (rows[a].eligibleAt == rows[b].eligibleAt && a < b)))
  }

  /** The row may be claimed: it waits and is due, or its lease is over. */
  predicate IsDue(task: Task, now: int, filter: Filter)
  {
    && task.protocol == filter.protocol
    && (filter.partitions.Some? ==> task.partition in filter.partitions.value)
    && task.status != Completed && task.status != DeadLetter
    && (task.status == Leased ==> task.expires.Some? && task.expires.value <= now)
    && (task.status != Leased ==> task.eligibleAt <= now)
  }

  /** The smaller priority number comes first, then what has been due for longer. */
  predicate Precedes(rows: Rows, a: Id, b: Id)
    requires a in rows && b in rows
  {
    && rows[a].priority <= rows[b].priority
    && (rows[a].priority == rows[b].priority ==> rows[a].eligibleAt <= rows[b].eligibleAt)
    && (rows[a].priority == rows[b].priority && rows[a].eligibleAt == rows[b].eligibleAt ==> a < b)
  }

  /** `chosen` are the first of the candidates, in order. */
  predicate FirstOf(rows: Rows, candidates: set<Id>, chosen: seq<Id>)
    requires candidates <= rows.Keys
  {
    && (forall i | 0 <= i < |chosen| :: chosen[i] in candidates)
    && (forall i, j | 0 <= i < j < |chosen| && chosen[i] in rows && chosen[j] in rows ::
        Before(rows, chosen[i], chosen[j]))
    && (forall i, c | 0 <= i < |chosen| && c in candidates && c !in chosen && chosen[i] in rows ::
        Before(rows, chosen[i], c))
  }

  /** The earliest of what is left comes next. */
  lemma FirstOfExtended(rows: Rows, candidates: set<Id>, rest: set<Id>, chosen: seq<Id>, next: Id)
    requires candidates <= rows.Keys && FirstOf(rows, candidates, chosen)
    requires forall c :: c in candidates <==> c in rest || c in chosen
    requires next in rest && next !in chosen && forall c | c in rest ::
             c in rows && (c == next || Before(rows, next, c))
    ensures FirstOf(rows, candidates, chosen + [next])
  {
    var longer := chosen + [next];
    forall i, j | 0 <= i < j < |longer|
      ensures Before(rows, longer[i], longer[j])
    {
      assert longer[i] == chosen[i] && (j < |chosen| ==> longer[j] == chosen[j]);
    }
    forall i, c | 0 <= i < |longer| && c in candidates && c !in longer
      ensures Before(rows, longer[i], c)
    {
      assert c !in chosen && (i < |chosen| ==> longer[i] == chosen[i]);
    }
  }

  lemma NextIsNoEarlier(rows: Rows, candidates: set<Id>, a: seq<Id>, b: seq<Id>, i: nat)
    requires candidates <= rows.Keys && FirstOf(rows, candidates, a) && FirstOf(rows, candidates, b)
    requires i < |a| && i < |b| && a[..i] == b[..i]
    ensures a[i] == b[i] || Before(rows, b[i], a[i])
  {
    assert forall k | 0 <= k < i :: a[k] == a[..i][k] == b[..i][k] == b[k];
  }

  /** The number of rows, the order and the completeness fix the choice. */
  lemma {:induction false} FirstOfIsUnique(rows: Rows, candidates: set<Id>, a: seq<Id>, b: seq<Id>)
    requires candidates <= rows.Keys && FirstOf(rows, candidates, a) && FirstOf(rows, candidates, b) && |a| == |b|
    ensures a == b
  {
    var i := 0;
    while i < |a|
      invariant 0 <= i <= |a| && a[..i] == b[..i]
    {
      NextIsNoEarlier(rows, candidates, a, b, i);
      NextIsNoEarlier(rows, candidates, b, a, i);
      assert a[..i + 1] == a[..i] + [a[i]] && b[..i + 1] == b[..i] + [b[i]];
      i := i + 1;
    }
    assert a[..|a|] == a && b[..|b|] == b;
  }

  // -------------------------------------------------------------- the transition system

  datatype State = State(now: int, rows: Rows)

  datatype Step =
    | Tick(dt: nat)
    | Insert(r: Id, protocol: Id, partition: int, priority: int, eligibleAt: int)
    | Claim(worker: WorkerId, ids: set<Id>, ttl: int)
    | Renew(r: Id, worker: WorkerId, ttl: int)
    | Expire
    | Complete(r: Id)
    | Defer(r: Id, at: int)
    | Retry(r: Id, at: int)
    | Bury(r: Id)

  predicate Enabled(s: State, step: Step)
  {
    match step
    case Claim(_, ids, _) => forall r | r in ids :: r in s.rows && Claimable(s.rows[r], s.now)
    case _ => true
  }

  function LeaseTo(task: Task, worker: WorkerId, expires: int): Task
  {
    task.(status := Leased, owner := Some(worker), expires := Some(expires), leaseAttempts := task.leaseAttempts + 1)
  }

  function Freed(task: Task, status: TaskStatus): Task
  {
    task.(status := status, owner := None, expires := None)
  }

  function Set(rows: Rows, r: Id, status: TaskStatus, at: Option<int>, attempts: nat): Rows
  {
    if r in rows
    then rows[r := Freed(rows[r], status).(eligibleAt := if at.Some? then at.value else rows[r].eligibleAt,
                                           executeAttempts := rows[r].executeAttempts + attempts)]
    else rows
  }

  function AfterClaim(rows: Rows, worker: WorkerId, ids: set<Id>, expires: int): Rows
  {
    map r | r in rows :: if r in ids then LeaseTo(rows[r], worker, expires) else rows[r]
  }

  function AfterExpire(rows: Rows, now: int): Rows
  {
    map r | r in rows ::
      if rows[r].status == Leased && rows[r].expires.Some?
          && rows[r].expires.value <= now then Freed(rows[r], RetryWait) else rows[r]
  }

  function AfterRenew(rows: Rows, r: Id, worker: WorkerId, expires: int): Rows
  {
    if r in rows && rows[r].owner == Some(worker) then rows[r := rows[r].(expires := Some(expires))] else rows
  }

  function Apply(s: State, step: Step): State
  {
    match step
    case Tick(dt) => State(s.now + dt, s.rows)
    case Insert(r, protocol, partition, priority, at) =>
      if r in s.rows then s
      else State(s.now, s.rows[r := Task(Available, protocol, partition, priority, at, None, None, 0, 0)])
    case Claim(worker, ids, ttl) => State(s.now, AfterClaim(s.rows, worker, ids, s.now + ttl))
    case Renew(r, worker, ttl) => State(s.now, AfterRenew(s.rows, r, worker, s.now + ttl))
    case Expire => State(s.now, AfterExpire(s.rows, s.now))
    case Complete(r) => State(s.now, Set(s.rows, r, Completed, None, 0))
    case Defer(r, at) => State(s.now, Set(s.rows, r, Deferred, Some(at), 0))
    case Retry(r, at) => State(s.now, Set(s.rows, r, RetryWait, Some(at), 1))
    case Bury(r) => State(s.now, Set(s.rows, r, DeadLetter, None, 0))
  }

  predicate Leads(s: State, steps: seq<Step>, t: State)
    decreases |steps|
  {
    if steps == [] then s == t else Enabled(s, steps[0]) && Leads(Apply(s, steps[0]), steps[1..], t)
  }

  // ---------------------------------------------------------------- what leases promise

  /** A row is leased exactly when it has an owner, and exactly when it has an expiry. */
  predicate LeaseFields(rows: Rows)
  {
    forall r | r in rows ::
        (rows[r].status == Leased <==> rows[r].owner.Some?) && (rows[r].status == Leased <==> rows[r].expires.Some?)
  }

  lemma StepKeepsLeaseFields(s: State, step: Step)
    requires LeaseFields(s.rows)
    ensures LeaseFields(Apply(s, step).rows)
  {
  }

  lemma {:induction false} RunsKeepLeaseFields(s: State, steps: seq<Step>, t: State)
    requires Leads(s, steps, t) && LeaseFields(s.rows)
    ensures LeaseFields(t.rows)
    decreases |steps|
  {
    if steps != [] {
      StepKeepsLeaseFields(s, steps[0]);
      RunsKeepLeaseFields(Apply(s, steps[0]), steps[1..], t);
    }
  }

  /** A transition or a renewal that names a row; none of them checks who holds the lease. */
  predicate Touches(step: Step, r: Id)
  {
    match step
    case Renew(q, _, _) => q == r
    case Complete(q) => q == r
    case Defer(q, _) => q == r
    case Retry(q, _) => q == r
    case Bury(q) => q == r
    case _ => false
  }

  predicate NoneTouches(steps: seq<Step>, r: Id)
  {
    forall step | step in steps :: !Touches(step, r)
  }

  lemma {:induction false} TimePasses(s: State, steps: seq<Step>, t: State)
    requires Leads(s, steps, t)
    ensures s.now <= t.now
    decreases |steps|
  {
    if steps != [] {
      TimePasses(Apply(s, steps[0]), steps[1..], t);
    }
  }

  /** While a lease runs and nothing names its task, the row stays as it is, so nobody else can claim it. */
  lemma {:induction false} LeaseHolds(s: State, steps: seq<Step>, t: State, r: Id)
    requires Leads(s, steps, t) && LeaseFields(s.rows) && NoneTouches(steps, r)
    requires r in s.rows && s.rows[r].status == Leased && t.now < s.rows[r].expires.value
    ensures r in t.rows && t.rows[r] == s.rows[r]
    decreases |steps|
  {
    if steps != [] {
      var next := Apply(s, steps[0]);
      TimePasses(next, steps[1..], t);
      assert steps[0] in steps && forall step | step in steps[1..] :: step in steps;
      StepKeepsLeaseFields(s, steps[0]);
      LeaseHolds(next, steps[1..], t, r);
    }
  }

  /**
   Two claims of one task: the lease of the first had expired by the time of the second,
   or some transition or renewal on that task happened in between.
   */
  lemma TwoClaims(s: State, first: Step, steps: seq<Step>, t: State, second: Step, r: Id)
    requires LeaseFields(s.rows) && first.Claim? && second.Claim? && r in first.ids && r in second.ids
    requires Enabled(s, first) && Leads(Apply(s, first), steps, t) && Enabled(t, second)
    ensures s.now + first.ttl <= t.now || !NoneTouches(steps, r)
  {
    if NoneTouches(steps, r) && t.now < s.now + first.ttl {
      LeaseHolds(Apply(s, first), steps, t, r);
    }
  }

  predicate IsTerminal(rows: Rows, r: Id)
  {
    r in rows && rows[r].status in {Completed, DeadLetter}
  }

  /** A completed or dead task stays as it is as long as no transition or renewal names it. */
  lemma {:induction false} TerminalUnlessNamed(s: State, steps: seq<Step>, t: State, r: Id)
    requires Leads(s, steps, t) && LeaseFields(s.rows) && NoneTouches(steps, r) && IsTerminal(s.rows, r)
    ensures r in t.rows && t.rows[r] == s.rows[r]
    decreases |steps|
  {
    if steps != [] {
      var next := Apply(s, steps[0]);
      assert steps[0] in steps && forall step | step in steps[1..] :: step in steps;
      StepKeepsLeaseFields(s, steps[0]);
      TerminalUnlessNamed(next, steps[1..], t, r);
    }
  }

  /** The transitions that put a task back to wait. */
  predicate PutsBack(step: Step, r: Id)
  {
    (step.Defer? || step.Retry?) && step.r == r
  }

  ghost predicate SomePutsBack(steps: seq<Step>, r: Id)
  {
    exists step :: step in steps && PutsBack(step, r)
  }

  /** In some state of the run the task is not terminal. */
  ghost predicate EverRevived(s: State, steps: seq<Step>, r: Id)
    decreases |steps|
  {
    !IsTerminal(s.rows, r) || (steps != [] && EverRevived(Apply(s, steps[0]), steps[1..], r))
  }

  lemma TerminalStep(s: State, step: Step, r: Id)
    requires Enabled(s, step) && LeaseFields(s.rows) && IsTerminal(s.rows, r)
    ensures IsTerminal(Apply(s, step).rows, r) <==> !PutsBack(step, r)
  {
  }

  /**
   A completed or dead task comes back to life in a run if and only if some step of the run
   defers or retries it, whoever takes that step.
   */
  lemma {:induction false} TerminalRevivedIff(s: State, steps: seq<Step>, t: State, r: Id)
    requires Leads(s, steps, t) && LeaseFields(s.rows) && IsTerminal(s.rows, r)
    ensures EverRevived(s, steps, r) <==> SomePutsBack(steps, r)
    decreases |steps|
  {
    if steps != [] {
      var step, rest := steps[0], steps[1..];
      assert steps == [step] + rest;
      TerminalStep(s, step, r);
      StepKeepsLeaseFields(s, step);
      if PutsBack(step, r) {
        assert step in steps && !IsTerminal(Apply(s, step).rows, r);
        assert EverRevived(Apply(s, step), rest, r);
      } else {
        TerminalRevivedIff(Apply(s, step), rest, t, r);
        assert SomePutsBack(steps, r) <==> SomePutsBack(rest, r);
      }
    }
  }

  // ------------------------------------------------------------- transitions and their workers

  /** A step and the worker that takes it; the statements themselves do not name their worker. */
  datatype Act = Act(worker: WorkerId, step: Step)

  function StepsOf(acts: seq<Act>): seq<Step>
  {
    seq(|acts|, i requires 0 <= i < |acts| => acts[i].step)
  }

  /** Claims are in the worker's own name, and a task is moved only by the worker that holds its lease. */
  ghost predicate ByHolder(s: State, act: Act)
  {
    match act.step
    case Claim(w, _, _) => w == act.worker
    case Complete(r) => r in s.rows ==> s.rows[r].owner == Some(act.worker)
    case Defer(r, _) => r in s.rows ==> s.rows[r].owner == Some(act.worker)
    case Retry(r, _) => r in s.rows ==> s.rows[r].owner == Some(act.worker)
    case Bury(r) => r in s.rows ==> s.rows[r].owner == Some(act.worker)
    case _ => true
  }

  ghost predicate AllByHolders(s: State, acts: seq<Act>)
    decreases |acts|
  {
    acts == [] || (ByHolder(s, acts[0]) && AllByHolders(Apply(s, acts[0].step), acts[1..]))
  }

  /** If every worker looked whether it still holds the lease, completed and dead tasks would stay as they are. */
  lemma {:induction false} HoldersReviveNothing(s: State, acts: seq<Act>, t: State, r: Id)
    requires Leads(s, StepsOf(acts), t) && LeaseFields(s.rows) && AllByHolders(s, acts) && IsTerminal(s.rows, r)
    ensures r in t.rows && t.rows[r] == s.rows[r]
    decreases |acts|
  {
    if acts != [] {
      assert StepsOf(acts)[1..] == StepsOf(acts[1..]);
      StepKeepsLeaseFields(s, acts[0].step);
      HoldersReviveNothing(Apply(s, acts[0].step), acts[1..], t, r);
    }
  }

  /** The steps of one worker among the first `n`, in order. */
  function StepsBy(acts: seq<Act>, n: nat, worker: WorkerId): seq<Step>
    requires n <= |acts|
  {
    if n == 0 then []
    else StepsBy(acts, n - 1, worker) + if acts[n - 1].worker == worker then [acts[n - 1].step] else []
  }

  const EMPTY := State(0, map[])

  /** Worker `a` claims a task and outlives its lease; `b` claims and completes it; `a` reports a failure. */
  function StaleRetry(r: Id, a: WorkerId, b: WorkerId, scheduler: WorkerId, ttl: nat): seq<Act>
  {
    [Act(scheduler, Insert(r, 0, 0, 0, 0)), Act(a, Claim(a, {r}, ttl)), Act(scheduler, Tick(ttl)),
     Act(b, Claim(b, {r}, ttl)), Act(b, Complete(r)), Act(a, Retry(r, ttl))]
  }

  /** The states between the steps of that run. */
  function StaleState(r: Id, a: WorkerId, b: WorkerId, ttl: nat, i: nat): State
  {
    var task := Task(Available, 0, 0, 0, 0, None, None, 0, 0);
    if i == 0 then EMPTY
    else if i == 1 then State(0, map[r := task])
    else if i == 2 then State(0,
        map[r := task.(status := Leased, owner := Some(a), expires := Some(ttl), leaseAttempts := 1)])
    else if i == 3 then State(ttl,
        map[r := task.(status := Leased, owner := Some(a), expires := Some(ttl), leaseAttempts := 1)])
    else if i == 4 then State(ttl,
        map[r := task.(status := Leased, owner := Some(b), expires := Some(2 * ttl), leaseAttempts := 2)])
    else if i == 5 then State(ttl, map[r := task.(status := Completed, leaseAttempts := 2)])
    else State(ttl, map[r := task.(status := RetryWait, eligibleAt := ttl, leaseAttempts := 2, executeAttempts := 1)])
  }

  lemma StaleStep(r: Id, a: WorkerId, b: WorkerId, scheduler: WorkerId, ttl: nat, i: nat)
    requires i < 6
    ensures var s, step := StaleState(r, a, b, ttl, i), StaleRetry(r, a, b, scheduler, ttl)[i].step;
            Enabled(s, step) && Apply(s, step) == StaleState(r, a, b, ttl, i + 1)
  {
  }

  lemma {:induction false} StaleRun(r: Id, a: WorkerId, b: WorkerId, scheduler: WorkerId, ttl: nat, i: nat)
    requires i <= 6
    ensures Leads(StaleState(r, a, b, ttl, i), StepsOf(StaleRetry(r, a, b, scheduler, ttl))[i..],
            StaleState(r, a, b, ttl, 6))
    decreases 6 - i
  {
    var steps := StepsOf(StaleRetry(r, a, b, scheduler, ttl));
    if i < 6 {
      StaleStep(r, a, b, scheduler, ttl, i);
      StaleRun(r, a, b, scheduler, ttl, i + 1);
      assert steps[i..][0] == steps[i] && steps[i..][1..] == steps[i + 1..];
    }
  }

  /**
   Each worker does what its program does, a claim and then one transition of what it
   claimed. From an empty queue the stale worker brings the completed task back, and any
   worker can claim and execute it again.
   */
  lemma StaleWorkerRevivesTask(r: Id, a: WorkerId, b: WorkerId, c: WorkerId, scheduler: WorkerId, ttl: nat)
    requires a != b && scheduler != a && scheduler != b
    ensures var acts, t := StaleRetry(r, a, b, scheduler, ttl), StaleState(r, a, b, ttl, 6);
            && StepsBy(acts, 6, a) == [Claim(a, {r}, ttl), Retry(r, ttl)]
            && StepsBy(acts, 6, b) == [Claim(b, {r}, ttl), Complete(r)]
            && Leads(EMPTY, StepsOf(acts), t)
            && IsTerminal(StaleState(r, a, b, ttl, 5).rows, r)
            && Enabled(t, Claim(c, {r}, ttl)) && Apply(t, Claim(c, {r}, ttl)).rows[r].leaseAttempts == 3
  {
    StaleRun(r, a, b, scheduler, ttl, 0);
    var acts := StaleRetry(r, a, b, scheduler, ttl);
    assert StepsOf(acts)[0..] == StepsOf(acts);
    StaleOwnSteps(r, a, b, scheduler, ttl);
  }

  lemma StaleOwnSteps(r: Id, a: WorkerId, b: WorkerId, scheduler: WorkerId, ttl: nat)
    requires a != b && scheduler != a && scheduler != b
    ensures StepsBy(StaleRetry(r, a, b, scheduler, ttl), 6, a) == [Claim(a, {r}, ttl), Retry(r, ttl)]
    ensures StepsBy(StaleRetry(r, a, b, scheduler, ttl), 6, b) == [Claim(b, {r}, ttl), Complete(r)]
  {
    var acts := StaleRetry(r, a, b, scheduler, ttl);
    assert StepsBy(acts, 1, a) == [] && StepsBy(acts, 1, b) == [];
    assert StepsBy(acts, 2, a) == [acts[1].step] && StepsBy(acts, 2, b) == [];
    assert StepsBy(acts, 4, a) == [acts[1].step] && StepsBy(acts, 4, b) == [acts[3].step];
    assert StepsBy(acts, 5, a) == [acts[1].step] && StepsBy(acts, 5, b) == [acts[3].step, acts[4].step];
  }

  function CountClaims(steps: seq<Step>, r: Id): nat
  {
    if steps == [] then 0 else (if steps[0].Claim? && r in steps[0].ids then 1 else 0) + CountClaims(steps[1..], r)
  }

  function CountRetries(steps: seq<Step>, r: Id): nat
  {
    if steps == [] then 0 else (if steps[0].Retry? && steps[0].r == r then 1 else 0) + CountRetries(steps[1..], r)
  }

  /** The counters of a row count exactly its claims and its retries. */
  lemma {:induction false} AttemptsAreCounted(s: State, steps: seq<Step>, t: State, r: Id)
    requires Leads(s, steps, t) && r in s.rows
    ensures r in t.rows
    ensures t.rows[r].leaseAttempts == s.rows[r].leaseAttempts + CountClaims(steps, r)
    ensures t.rows[r].executeAttempts == s.rows[r].executeAttempts + CountRetries(steps, r)
    decreases |steps|
  {
    if steps != [] {
      AttemptsAreCounted(Apply(s, steps[0]), steps[1..], t, r);
    }
  }

  // ------------------------------------------------------------------------- the program

  class TaskQueue {
    var now: int
    var rows: Rows

    function Snapshot(): State
      reads this
    {
      State(now, rows)
    }

    /** The earliest of some rows. */
    static method Earliest(rows: Rows, candidates: set<Id>) returns (first: Id)
      requires candidates != {} && candidates <= rows.Keys
      ensures first in candidates && forall c | c in candidates :: c == first || Before(rows, first, c)
    {
      first :| first in candidates;
      var rest := candidates - {first};
      while rest != {}
        invariant rest <= candidates && first in candidates && first !in rest
        invariant forall c | c in candidates && c !in rest :: c == first || Before(rows, first, c)
        decreases rest
      {
        var c :| c in rest;
        rest := rest - {c};
        if Before(rows, c, first) {
          first := c;
        }
      }
    }

    /** The first of some rows, in the order of claims. */
    static method Select(rows: Rows, all: set<Id>, batchSize: nat) returns (claimed: seq<Id>)
      requires all <= rows.Keys
      ensures FirstOf(rows, all, claimed)
      ensures |claimed| == if batchSize < |all| then batchSize else |all|
      ensures |claimed| < batchSize ==> forall c | c in all :: c in claimed
    {
      var rest := all;
      claimed := [];
      while |claimed| < batchSize && rest != {}
        invariant rest <= all && forall c :: c in all <==> c in rest || c in claimed
        invariant forall i | 0 <= i < |claimed| :: claimed[i] !in rest
        invariant FirstOf(rows, all, claimed)
        invariant |claimed| + |rest| == |all| && |claimed| <= batchSize
        decreases rest
      {
        var first := Earliest(rows, rest);
        FirstOfExtended(rows, all, rest, claimed, first);
        rest := rest - {first};
        claimed := claimed + [first];
      }
    }

    /** Leases the first rows that are due. */
    method ClaimTasks(filter: Filter, worker: WorkerId, ttl: int, batchSize: nat) returns (claimed: seq<Id>)
      modifies `rows
      ensures FirstOf(old(rows), Candidates(old(rows), now, filter), claimed)
      ensures |claimed| == if batchSize < |Candidates(old(rows), now, filter)| then batchSize
              else |Candidates(old(rows), now, filter)|
      ensures var ids := set r | r in claimed;
              Enabled(old(Snapshot()), Claim(worker, ids, ttl))
                  && Snapshot() == Apply(old(Snapshot()), Claim(worker, ids, ttl))
      ensures forall i | 0 <= i < |claimed| ::
                claimed[i] in old(rows) && claimed[i] !in filter.locked && IsDue(old(rows)[claimed[i]], now, filter)
      ensures forall i, j | 0 <= i < j < |claimed| :: Precedes(old(rows), claimed[i], claimed[j])
      ensures forall i, r | 0 <= i < |claimed| && r in old(rows) && r !in claimed && r !in filter.locked
                && IsDue(old(rows)[r], now, filter) :: Precedes(old(rows), claimed[i], r)
      ensures |claimed| < batchSize ==>
                forall r | r in old(rows) && r !in filter.locked && IsDue(old(rows)[r], now, filter) :: r in claimed
      ensures rows.Keys == old(rows).Keys
      ensures forall r | r in rows ::
                if r !in claimed then rows[r] == old(rows)[r]
                else rows[r] == old(rows)[r].(status := Leased, owner := Some(worker), expires := Some(now + ttl),
                                              leaseAttempts := old(rows)[r].leaseAttempts + 1)
    {
      claimed := Select(rows, Candidates(rows, now, filter), batchSize);
      rows := AfterClaim(rows, worker, (set r | r in claimed), now + ttl);
    }

    method CompleteTask(r: Id)
      modifies `rows
      ensures Snapshot() == Apply(old(Snapshot()), Complete(r))
      ensures rows == if r !in old(rows) then old(rows)
                      else old(rows)[r := old(rows)[r].(status := Completed, owner := None, expires := None)]
    {
      rows := Set(rows, r, Completed, None, 0);
    }

    method DeferTask(r: Id, at: int)
      modifies `rows
      ensures Snapshot() == Apply(old(Snapshot()), Defer(r, at))
      ensures rows == if r !in old(rows) then old(rows)
                      else old(rows)[r := old(rows)[r].(status := Deferred, owner := None, expires := None,
                                                        eligibleAt := at)]
    {
      rows := Set(rows, r, Deferred, Some(at), 0);
    }

    method RetryTask(r: Id, at: int)
      modifies `rows
      ensures Snapshot() == Apply(old(Snapshot()), Retry(r, at))
      ensures rows == if r !in old(rows) then old(rows)
                      else old(rows)[r := old(rows)[r].(status := RetryWait, owner := None, expires := None,
                                                        eligibleAt := at,
                                                        executeAttempts := old(rows)[r].executeAttempts + 1)]
    {
      rows := Set(rows, r, RetryWait, Some(at), 1);
    }

    method DeadLetterTask(r: Id)
      modifies `rows
      ensures Snapshot() == Apply(old(Snapshot()), Bury(r))
      ensures rows == if r !in old(rows) then old(rows)
                      else old(rows)[r := old(rows)[r].(status := DeadLetter, owner := None, expires := None)]
    {
      rows := Set(rows, r, DeadLetter, None, 0);
    }

    method RenewLease(r: Id, worker: WorkerId, ttl: int)
      modifies `rows
      ensures Snapshot() == Apply(old(Snapshot()), Renew(r, worker, ttl))
      ensures rows == if r in old(rows) && old(rows)[r].owner == Some(worker)
                      then old(rows)[r := old(rows)[r].(expires := Some(now + ttl))] else old(rows)
    {
      rows := AfterRenew(rows, r, worker, now + ttl);
    }

    method ExpireLeases()
      modifies `rows
      ensures Snapshot() == Apply(old(Snapshot()), Expire)
      ensures rows.Keys == old(rows).Keys
      ensures forall r | r in rows ::
                var before := old(rows)[r];
                if before.status == Leased && before.expires.Some? && before.expires.value <= now
                then rows[r] == before.(status := RetryWait, owner := None, expires := None) else rows[r] == before
    {
      rows := AfterExpire(rows, now);
    }
  }
}
