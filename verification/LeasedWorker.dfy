/**
 One iteration of the leased polling worker (backend/polling/snmp_worker.py): it claims
 tasks of each protocol, executes those that the safety limits admit and settles every
 claimed task in the queue, giving the limits back whatever happens.
 */
module LeasedWorker {
  import opened Base
  import SafetyLimits
  import opened TaskLeases

  /** How executing a task and queueing its result ends. */
  datatype Outcome = Succeeded | Failed | Raised

  datatype Stats = Stats(claimed: nat, enqueued: nat, completed: nat, retried: nat, deferred: nat)

  /** What the worker needs to know about polling tasks and the world. */
  datatype World = World(targets: map<Id, SafetyLimits.Target>, outcomes: map<Id, Outcome>, observed: int)

  function TargetOf(world: World, r: Id): SafetyLimits.Target
  {
    if r in world.targets then world.targets[r] else map[]
  }

  function OutcomeOf(world: World, r: Id): Outcome
  {
    if r in world.outcomes then world.outcomes[r] else Succeeded
  }

  predicate Admitted(limiter: SafetyLimits.ActiveSafetyLimiter, active: SafetyLimits.Counters,
      task: SafetyLimits.Target)
  {
    forall d :: !SafetyLimits.Full(limiter.config, active, task, d)
  }

  /** What becomes of a task that the worker reaches. */
  datatype Fate = Completes | Retries | Defers | Raises

  function FateOf(limiter: SafetyLimits.ActiveSafetyLimiter, active: SafetyLimits.Counters, world: World, r: Id): Fate
  {
    if !Admitted(limiter, active, TargetOf(world, r)) then Defers
    else match OutcomeOf(world, r) case Succeeded => Completes case Failed => Retries case Raised => Raises
  }

  function Fates(limiter: SafetyLimits.ActiveSafetyLimiter, active: SafetyLimits.Counters, world: World): Id -> Fate
  {
    (r: Id) => FateOf(limiter, active, world, r)
  }

  /** The row of a task after it met its fate. */
  predicate Concluded(observed: int, fate: Fate, before: Task, after: Task)
  {
    && after.owner.None? && after.expires.None? && after.leaseAttempts == before.leaseAttempts
    && after.protocol == before.protocol && after.partition == before.partition && after.priority == before.priority
    && match fate
       case Completes => after.status == Completed && after.eligibleAt == before.eligibleAt
                         && after.executeAttempts == before.executeAttempts
       case Retries => after.status == RetryWait && after.eligibleAt == observed + 60
                       && after.executeAttempts == before.executeAttempts + 1
       case Defers => after.status == Deferred && after.eligibleAt == observed + 30
                      && after.executeAttempts == before.executeAttempts
       case Raises => false
  }

  /** The tasks that were reached are concluded; all other rows are as they were. */
  ghost predicate ConcludedUpto(observed: int, fates: Id -> Fate, before: Rows, after: Rows, reached: seq<Id>)
  {
    && before.Keys == after.Keys
    && forall r | r in before && r in after ::
         if r in reached then Concluded(observed, fates(r), before[r], after[r]) else after[r] == before[r]
  }

  /**
   A task that is reached and does not raise is completed if and only if it was admitted and
   succeeded, tried again in a minute if and only if it was admitted and failed, and deferred
   for half a minute if and only if it was not admitted.
   */
  lemma ConcludedIff(limiter: SafetyLimits.ActiveSafetyLimiter, active: SafetyLimits.Counters, world: World, r: Id,
      before: Task, after: Task)
    requires Concluded(world.observed, FateOf(limiter, active, world, r), before, after)
    ensures var admitted := forall d :: !SafetyLimits.Full(limiter.config, active, TargetOf(world, r), d);
            && (after.status == Completed <==> admitted && OutcomeOf(world, r) == Succeeded)
            && (after.status == RetryWait <==> admitted && OutcomeOf(world, r) == Failed)
            && (after.status == Deferred <==> !admitted)
    ensures after.status == RetryWait ==> after.eligibleAt == world.observed + 60
    ensures after.status == Deferred ==> after.eligibleAt == world.observed + 30
    ensures after.executeAttempts == before.executeAttempts + if after.status == RetryWait then 1 else 0
    ensures after.owner.None? && after.expires.None?
  {
  }

  /** How many of some tasks meet a fate. */
  function Number(fates: Id -> Fate, tasks: seq<Id>, fate: Fate): nat
  {
    if tasks == [] then 0
    else Number(fates, tasks[..|tasks| - 1], fate) + if fates(tasks[|tasks| - 1]) == fate then 1 else 0
  }

  /** The statistics after some tasks were reached. */
  ghost predicate Counted(fates: Id -> Fate, reached: seq<Id>, stats: Stats)
  {
    && stats.enqueued == stats.completed + stats.retried
    && stats.completed == Number(fates, reached, Completes)
    && stats.retried == Number(fates, reached, Retries)
    && stats.deferred == Number(fates, reached, Defers)
  }

  /** What one task adds to the statistics. */
  predicate CountedOne(fate: Fate, stats: Stats, after: Stats)
  {
    && after.claimed == stats.claimed
    && after.enqueued == stats.enqueued + (if fate == Completes || fate == Retries then 1 else 0)
    && after.completed == stats.completed + (if fate == Completes then 1 else 0)
    && after.retried == stats.retried + (if fate == Retries then 1 else 0)
    && after.deferred == stats.deferred + (if fate == Defers then 1 else 0)
  }

  lemma CountedOneMore(fates: Id -> Fate, reached: seq<Id>, r: Id, stats: Stats, after: Stats)
    requires Counted(fates, reached, stats) && CountedOne(fates(r), stats, after)
    ensures Counted(fates, reached + [r], after)
  {
    assert (reached + [r])[..|reached|] == reached;
  }

  /** Every reached task was completed, retried or deferred. */
  lemma {:induction false} EveryTaskIsCounted(fates: Id -> Fate, tasks: seq<Id>)
    requires forall r | r in tasks :: fates(r) != Raises
    ensures Number(fates, tasks, Completes) + Number(fates, tasks, Retries) + Number(fates, tasks, Defers) == |tasks|
  {
    if tasks != [] {
      var last := |tasks| - 1;
      assert tasks[last] in tasks;
      EveryTaskIsCounted(fates, tasks[..last]);
    }
  }

  /** Nothing is full, so nothing is ever deferred. */
  lemma {:induction false} FreshLimiterDefersNothing(limiter: SafetyLimits.ActiveSafetyLimiter, world: World,
      tasks: seq<Id>)
    ensures Number(Fates(limiter, map[], world), tasks, Defers) == 0
  {
    if tasks != [] {
      FreshLimiterDefersNothing(limiter, world, tasks[..|tasks| - 1]);
    }
  }

  predicate Distinct(ids: seq<Id>)
  {
    forall i, j | 0 <= i < j < |ids| :: ids[i] != ids[j]
  }

  /** What a claim takes: the first rows that are due, and no fewer than fit. */
  ghost predicate IsClaim(rows: Rows, now: int, filter: Filter, batchSize: nat, claimed: seq<Id>)
  {
    exists due :: due == Candidates(rows, now, filter) && FirstOf(rows, due, claimed)
                  && |claimed| == if batchSize < |due| then batchSize else |due|
  }

  lemma ClaimsApart(rows: Rows, now: int, filter: Filter, batchSize: nat, claimed: seq<Id>)
    requires IsClaim(rows, now, filter, batchSize, claimed)
    ensures Distinct(claimed) && forall r | r in claimed :: r in rows && rows[r].protocol == filter.protocol
  {
  }

  /** The rows of one protocol alone decide what a claim of that protocol takes. */
  lemma ClaimSeesProtocol(before: Rows, after: Rows, now: int, filter: Filter, batchSize: nat, claimed: seq<Id>)
    requires before.Keys == after.Keys && IsClaim(after, now, filter, batchSize, claimed)
    requires forall r | r in before :: before[r].protocol == after[r].protocol
                                       && (before[r].protocol == filter.protocol ==> before[r] == after[r])
    ensures IsClaim(before, now, filter, batchSize, claimed)
  {
    assert Candidates(before, now, filter) == Candidates(after, now, filter);
  }

  /** Each transition is the conclusion of its fate. */
  lemma TransitionsConclude(observed: int, fates: Id -> Fate, rows: Rows, r: Id)
    ensures fates(r) == Completes ==> ConcludedUpto(observed, fates, rows, Set(rows, r, Completed, None, 0), [r])
    ensures fates(r) == Retries ==>
              ConcludedUpto(observed, fates, rows, Set(rows, r, RetryWait, Some(observed + 60), 1), [r])
    ensures fates(r) == Defers ==>
              ConcludedUpto(observed, fates, rows, Set(rows, r, Deferred, Some(observed + 30), 0), [r])
  {
  }

  /** Executes one task and settles it, unless it raises; then the row stays leased. */
  method RunTask(queue: TaskQueue, limiter: SafetyLimits.ActiveSafetyLimiter, world: World, r: Id, stats: Stats)
    returns (after: Stats, raised: bool)
    requires SafetyLimits.Positive(limiter.active)
    modifies queue`rows, limiter
    ensures limiter.active == old(limiter.active)
    ensures raised <==> Fates(limiter, old(limiter.active), world)(r) == Raises
    ensures raised ==> queue.rows == old(queue.rows)
    ensures !raised ==> ConcludedUpto(world.observed, Fates(limiter, old(limiter.active), world), old(queue.rows),
                                      queue.rows, [r])
    ensures CountedOne(Fates(limiter, old(limiter.active), world)(r), stats, after)
  {
    after, raised := stats, false;
    var task := TargetOf(world, r);
    ghost var before := limiter.active;
    TransitionsConclude(world.observed, Fates(limiter, before, world), queue.rows, r);
    var decision := limiter.Acquire(task);
    if !decision.Allowed? {
      queue.DeferTask(r, world.observed + 30);
      after := stats.(deferred := stats.deferred + 1);
      return;
    }
    match OutcomeOf(world, r) {
      case Raised =>
        raised := true;
      case Succeeded =>
        queue.CompleteTask(r);
        after := stats.(enqueued := stats.enqueued + 1, completed := stats.completed + 1);
      case Failed =>
        queue.RetryTask(r, world.observed + 60);
        after := stats.(enqueued := stats.enqueued + 1, retried := stats.retried + 1);
    }
    limiter.Release(task);
    SafetyLimits.ReleaseUndoesAcquire(before, SafetyLimits.KeysOf(task));
  }

  /** How far a pass over some tasks gets: to the first that raises. */
  ghost predicate Reaches(fates: Id -> Fate, tasks: seq<Id>, reached: nat, raised: bool)
  {
    && reached <= |tasks| && (raised <==> reached < |tasks|)
    && (raised ==> fates(tasks[reached]) == Raises)
    && forall i | 0 <= i < reached :: fates(tasks[i]) != Raises
  }

  lemma ConcludedOneMore(observed: int, fates: Id -> Fate, before: Rows, middle: Rows, after: Rows, reached: seq<Id>,
      r: Id)
    requires ConcludedUpto(observed, fates, before, middle, reached) && r !in reached
    requires ConcludedUpto(observed, fates, middle, after, [r])
    ensures ConcludedUpto(observed, fates, before, after, reached + [r])
  {
  }

  lemma NextTask(tasks: seq<Id>, earlier: seq<Id>, i: nat)
    requires i < |tasks| && Distinct(tasks)
    ensures tasks[..i + 1] == tasks[..i] + [tasks[i]] && tasks[i] !in tasks[..i]
    ensures earlier + tasks[..i + 1] == earlier + tasks[..i] + [tasks[i]]
  {
  }

  /** Runs the claimed tasks in order; an exception leaves the rest as they are. */
  method RunTasks(queue: TaskQueue, limiter: SafetyLimits.ActiveSafetyLimiter, world: World, claimed: seq<Id>,
      stats: Stats, ghost earlier: seq<Id>)
    returns (after: Stats, raised: bool, ghost reached: nat)
    requires SafetyLimits.Positive(limiter.active) && Distinct(claimed)
    requires Counted(Fates(limiter, limiter.active, world), earlier, stats)
    modifies queue`rows, limiter
    ensures limiter.active == old(limiter.active) && after.claimed == stats.claimed
    ensures Reaches(Fates(limiter, old(limiter.active), world), claimed, reached, raised)
    ensures ConcludedUpto(world.observed, Fates(limiter, old(limiter.active), world), old(queue.rows), queue.rows,
                          claimed[..reached])
    ensures Counted(Fates(limiter, old(limiter.active), world), earlier + claimed[..reached], after)
  {
    ghost var active, rows := limiter.active, queue.rows;
    ghost var fates := Fates(limiter, active, world);
    after, raised, reached := stats, false, 0;
    assert earlier + claimed[..0] == earlier;
    var i := 0;
    while i < |claimed| && !raised
      invariant 0 <= reached <= |claimed| && (if raised then reached < |claimed| else i == reached)
      invariant limiter.active == active && after.claimed == stats.claimed
      invariant raised ==> fates(claimed[reached]) == Raises
      invariant forall j | 0 <= j < reached :: fates(claimed[j]) != Raises
      invariant ConcludedUpto(world.observed, fates, rows, queue.rows, claimed[..reached])
      invariant Counted(fates, earlier + claimed[..reached], after)
    {
      ghost var middle, counted := queue.rows, after;
      after, raised := RunTask(queue, limiter, world, claimed[i], after);
      if !raised {
        NextTask(claimed, earlier, i);
        ConcludedOneMore(world.observed, fates, rows, middle, queue.rows, claimed[..i], claimed[i]);
        CountedOneMore(fates, earlier + claimed[..i], claimed[i], counted, after);
        reached := reached + 1;
      }
      i := i + 1;
    }
  }

  /** The rows after a claim. */
  function Leased(rows: Rows, worker: WorkerId, ids: seq<Id>, expires: int): Rows
  {
    AfterClaim(rows, worker, (set r | r in ids), expires)
  }

  /** One pass: a claim, and what becomes of its tasks up to the first that raises. */
  ghost predicate PassResult(observed: int, fates: Id -> Fate, before: Rows, after: Rows, worker: WorkerId,
      filter: Filter, now: int, ttl: int, batchSize: nat, tasks: seq<Id>, reached: nat, raised: bool)
  {
    exists leased :: leased == Leased(before, worker, tasks, now + ttl)
        && IsClaim(before, now, filter, batchSize, tasks)
                     && Reaches(fates, tasks, reached, raised)
                     && ConcludedUpto(observed, fates, leased, after, tasks[..reached])
  }

  lemma PassBy(observed: int, fates: Id -> Fate, before: Rows, leased: Rows, after: Rows, worker: WorkerId,
      filter: Filter, now: int, ttl: int, batchSize: nat, tasks: seq<Id>, reached: nat, raised: bool)
    requires reached <= |tasks|
    ensures leased == Leased(before, worker, tasks, now + ttl) && IsClaim(before, now, filter, batchSize, tasks)
            && Reaches(fates, tasks, reached, raised)
            && ConcludedUpto(observed, fates, leased, after, tasks[..reached])
            ==>
              PassResult(observed, fates, before, after, worker, filter, now, ttl, batchSize, tasks, reached, raised)
  {
  }

  /** Claims tasks; those of one claim are different. */
  method Claim(queue: TaskQueue, worker: WorkerId, filter: Filter, ttl: int, batchSize: nat)
    returns (claimed: seq<Id>)
    modifies queue`rows
    ensures IsClaim(old(queue.rows), queue.now, filter, batchSize, claimed) && Distinct(claimed)
    ensures queue.rows == Leased(old(queue.rows), worker, claimed, queue.now + ttl)
  {
    claimed := queue.ClaimTasks(filter, worker, ttl, batchSize);
    ClaimsApart(old(queue.rows), queue.now, filter, batchSize, claimed);
  }

  /** The tasks of one protocol. */
  method RunProtocol(queue: TaskQueue, limiter: SafetyLimits.ActiveSafetyLimiter, world: World, worker: WorkerId,
      filter: Filter, ttl: int, batchSize: nat, stats: Stats, ghost earlier: seq<Id>)
    returns (after: Stats, raised: bool, ghost tasks: seq<Id>, ghost reached: nat)
    requires SafetyLimits.Positive(limiter.active)
    requires Counted(Fates(limiter, limiter.active, world), earlier, stats)
    modifies queue`rows, limiter
    ensures limiter.active == old(limiter.active)
    ensures PassResult(world.observed, Fates(limiter, old(limiter.active), world), old(queue.rows), queue.rows, worker,
                       filter, queue.now, ttl, batchSize, tasks, reached, raised)
    ensures reached <= |tasks| && (raised || reached == |tasks|) && after.claimed == stats.claimed + |tasks|
    ensures Counted(Fates(limiter, old(limiter.active), world), earlier + tasks[..reached], after)
  {
    ghost var rows, active := queue.rows, limiter.active;
    var claimed := Claim(queue, worker, filter, ttl, batchSize);
    ghost var leased := queue.rows;
    tasks := claimed;
    after := stats.(claimed := stats.claimed + |claimed|);
    after, raised, reached := RunTasks(queue, limiter, world, claimed, after, earlier);
    PassBy(world.observed, Fates(limiter, active, world), rows, leased, queue.rows, worker, filter, queue.now, ttl,
           batchSize, tasks, reached, raised);
  }

  /** Two passes, each over the tasks of a claim, make one pass over the tasks of both. */
  lemma TwoPasses(observed: int, fates: Id -> Fate, before: Rows, middle: Rows, after: Rows, worker: WorkerId,
      expires: int, first: seq<Id>, second: seq<Id>, reached: nat)
    requires reached <= |second| && forall r | r in second :: r !in first
    ensures ConcludedUpto(observed, fates, Leased(before, worker, first, expires), middle, first)
            && ConcludedUpto(observed, fates, Leased(middle, worker, second, expires), after, second[..reached])
            ==>
              ConcludedUpto(observed, fates, Leased(before, worker, first + second, expires), after,
                            first + second[..reached])
  {
    assert forall r | r in second[..reached] :: r in second;
  }

  /** What the first pass does does not show in the second claim. */
  lemma SecondClaim(observed: int, fates: Id -> Fate, before: Rows, middle: Rows, worker: WorkerId, expires: int,
      now: int, icmp: Filter, snmp: Filter, batchSize: nat, first: seq<Id>, second: seq<Id>)
    requires icmp.protocol != snmp.protocol
    requires IsClaim(before, now, icmp, batchSize, first)
    requires ConcludedUpto(observed, fates, Leased(before, worker, first, expires), middle, first)
    requires IsClaim(middle, now, snmp, batchSize, second)
    ensures IsClaim(before, now, snmp, batchSize, second) && forall r | r in second :: r !in first
  {
    ClaimsApart(before, now, icmp, batchSize, first);
    ClaimsApart(middle, now, snmp, batchSize, second);
    forall r | r in before
      ensures before[r].protocol == middle[r].protocol && (r !in first ==> before[r] == middle[r])
    {
      assert r in Leased(before, worker, first, expires);
    }
    ClaimSeesProtocol(before, middle, now, snmp, batchSize, second);
  }

  lemma ReachesOn(fates: Id -> Fate, first: seq<Id>, second: seq<Id>, reached: nat, raised: bool)
    requires Reaches(fates, first, |first|, false) && Reaches(fates, second, reached, raised)
    ensures Reaches(fates, first + second, |first| + reached, raised)
    ensures (first + second)[..|first| + reached] == first + second[..reached]
  {
  }

  /** An iteration: both passes together, or the first alone if it raises, and their statistics. */
  ghost predicate Iterated(observed: int, fates: Id -> Fate, before: Rows, after: Rows, worker: WorkerId,
      icmp: Filter, snmp: Filter, now: int, ttl: int, batchSize: nat, stats: Stats, raised: bool)
  {
    exists first, second, reached: nat ::
      && IsClaim(before, now, icmp, batchSize, first)
      && (if raised && reached < |first| then second == [] else IsClaim(before, now, snmp, batchSize, second))
      && Reaches(fates, first + second, reached, raised)
      && ConcludedUpto(observed, fates, Leased(before, worker, first + second, now + ttl), after,
                       (first + second)[..reached])
      && stats.claimed == |first| + |second| && Counted(fates, (first + second)[..reached], stats)
  }

  lemma FirstPassAlone(observed: int, fates: Id -> Fate, before: Rows, after: Rows, worker: WorkerId, icmp: Filter,
      snmp: Filter, now: int, ttl: int, batchSize: nat, first: seq<Id>, reached: nat, stats: Stats)
    requires PassResult(observed, fates, before, after, worker, icmp, now, ttl, batchSize, first, reached, true)
    requires reached <= |first| == stats.claimed && Counted(fates, [] + first[..reached], stats)
    ensures Iterated(observed, fates, before, after, worker, icmp, snmp, now, ttl, batchSize, stats, true)
  {
    assert first + [] == first && [] + first[..reached] == first[..reached];
  }

  lemma PassesApart(observed: int, fates: Id -> Fate, before: Rows, middle: Rows, after: Rows, worker: WorkerId,
      icmp: Filter, snmp: Filter, now: int, ttl: int, batchSize: nat, first: seq<Id>, second: seq<Id>, reached: nat,
      raised: bool)
    requires icmp.protocol != snmp.protocol
    requires PassResult(observed, fates, before, middle, worker, icmp, now, ttl, batchSize, first, |first|, false)
    requires PassResult(observed, fates, middle, after, worker, snmp, now, ttl, batchSize, second, reached, raised)
    ensures IsClaim(before, now, icmp, batchSize, first) && IsClaim(before, now, snmp, batchSize, second)
    ensures forall r | r in second :: r !in first
  {
    assert first[..|first|] == first;
    SecondClaim(observed, fates, before, middle, worker, now + ttl, now, icmp, snmp, batchSize, first, second);
  }

  lemma PassConcludes(observed: int, fates: Id -> Fate, before: Rows, after: Rows, worker: WorkerId,
      filter: Filter, now: int, ttl: int, batchSize: nat, tasks: seq<Id>, reached: nat, raised: bool)
    requires PassResult(observed, fates, before, after, worker, filter, now, ttl, batchSize, tasks, reached, raised)
    ensures reached <= |tasks|
    ensures ConcludedUpto(observed, fates, Leased(before, worker, tasks, now + ttl), after, tasks[..reached])
  {
  }

  lemma PassesConclude(observed: int, fates: Id -> Fate, before: Rows, middle: Rows, after: Rows, worker: WorkerId,
      icmp: Filter, snmp: Filter, now: int, ttl: int, batchSize: nat, first: seq<Id>, second: seq<Id>, reached: nat,
      raised: bool)
    requires PassResult(observed, fates, before, middle, worker, icmp, now, ttl, batchSize, first, |first|, false)
    requires PassResult(observed, fates, middle, after, worker, snmp, now, ttl, batchSize, second, reached, raised)
    requires reached <= |second| && forall r | r in second :: r !in first
    ensures ConcludedUpto(observed, fates, Leased(before, worker, first + second, now + ttl), after,
                          first + second[..reached])
  {
    PassConcludes(observed, fates, before, middle, worker, icmp, now, ttl, batchSize, first, |first|, false);
    PassConcludes(observed, fates, middle, after, worker, snmp, now, ttl, batchSize, second, reached, raised);
    assert first[..|first|] == first;
    TwoPasses(observed, fates, before, middle, after, worker, now + ttl, first, second, reached);
  }

  lemma PassesReach(observed: int, fates: Id -> Fate, before: Rows, middle: Rows, after: Rows, worker: WorkerId,
      icmp: Filter, snmp: Filter, now: int, ttl: int, batchSize: nat, first: seq<Id>, second: seq<Id>, reached: nat,
      raised: bool)
    requires PassResult(observed, fates, before, middle, worker, icmp, now, ttl, batchSize, first, |first|, false)
    requires PassResult(observed, fates, middle, after, worker, snmp, now, ttl, batchSize, second, reached, raised)
    ensures Reaches(fates, first + second, |first| + reached, raised)
    ensures reached <= |second| && (first + second)[..|first| + reached] == first + second[..reached]
  {
    ReachesOn(fates, first, second, reached, raised);
  }

  lemma BothPasses(observed: int, fates: Id -> Fate, before: Rows, middle: Rows, after: Rows, worker: WorkerId,
      icmp: Filter, snmp: Filter, now: int, ttl: int, batchSize: nat, first: seq<Id>, second: seq<Id>, reached: nat,
      raised: bool, stats: Stats)
    requires icmp.protocol != snmp.protocol
    requires PassResult(observed, fates, before, middle, worker, icmp, now, ttl, batchSize, first, |first|, false)
    requires PassResult(observed, fates, middle, after, worker, snmp, now, ttl, batchSize, second, reached, raised)
    requires reached <= |second| && stats.claimed == |first| + |second|
             && Counted(fates, first + second[..reached], stats)
    ensures Iterated(observed, fates, before, after, worker, icmp, snmp, now, ttl, batchSize, stats, raised)
  {
    PassesApart(observed, fates, before, middle, after, worker, icmp, snmp, now, ttl, batchSize, first, second, reached,
                raised);
    PassesConclude(observed, fates, before, middle, after, worker, icmp, snmp, now, ttl, batchSize, first, second,
                   reached, raised);
    PassesReach(observed, fates, before, middle, after, worker, icmp, snmp, now, ttl, batchSize, first, second, reached,
                raised);
  }

  /** Every started task was queued or deferred, and every queued one completed or retried. */
  predicate Balanced(stats: Stats)
  {
    stats.claimed == stats.enqueued + stats.deferred && stats.enqueued == stats.completed + stats.retried
  }

  ghost predicate AreCounts(fates: Id -> Fate, tasks: seq<Id>, reached: nat, stats: Stats, raised: bool)
  {
    Reaches(fates, tasks, reached, raised) && stats.claimed == |tasks| && Counted(fates, tasks[..reached], stats)
  }

  lemma IterationCounts(observed: int, fates: Id -> Fate, before: Rows, after: Rows, worker: WorkerId, icmp: Filter,
      snmp: Filter, now: int, ttl: int, batchSize: nat, stats: Stats, raised: bool)
    requires Iterated(observed, fates, before, after, worker, icmp, snmp, now, ttl, batchSize, stats, raised)
    ensures exists tasks, reached: nat :: AreCounts(fates, tasks, reached, stats, raised)
  {
    var first, second, reached: nat :| Reaches(fates, first + second, reached, raised)
        && stats.claimed == |first| + |second| && Counted(fates, (first + second)[..reached], stats);
    assert AreCounts(fates, first + second, reached, stats, raised);
  }

  lemma CountsAddUp(limiter: SafetyLimits.ActiveSafetyLimiter, active: SafetyLimits.Counters, world: World,
      stats: Stats, raised: bool)
    ensures (exists tasks, reached: nat :: AreCounts(Fates(limiter, active, world), tasks, reached, stats, raised)) ==>
              (active == map[] ==> stats.deferred == 0) && (!raised ==> Balanced(stats))
  {
    var fates := Fates(limiter, active, world);
    if tasks, reached: nat :| AreCounts(fates, tasks, reached, stats, raised) {
      FreshLimiterDefersNothing(limiter, world, tasks[..reached]);
      if !raised {
        assert tasks[..reached] == tasks;
        assert forall r | r in tasks :: fates(r) != Raises;
        EveryTaskIsCounted(fates, tasks);
      }
    }
  }

  /** Both passes of an iteration. */
  method RunEnabled(queue: TaskQueue, limiter: SafetyLimits.ActiveSafetyLimiter, world: World,
      worker: WorkerId, icmp: Filter, snmp: Filter, ttl: int, batchSize: nat)
    returns (stats: Stats, raised: bool)
    requires SafetyLimits.Positive(limiter.active) && icmp.protocol != snmp.protocol
    modifies queue`rows, limiter
    ensures limiter.active == old(limiter.active)
    ensures Iterated(world.observed, Fates(limiter, old(limiter.active), world), old(queue.rows), queue.rows, worker,
                     icmp, snmp, queue.now, ttl, batchSize, stats, raised)
  {
    ghost var active, before := limiter.active, queue.rows;
    ghost var fates := Fates(limiter, active, world);
    stats, raised := Stats(0, 0, 0, 0, 0), false;
    ghost var first, second, reached;
    stats, raised, first, reached := RunProtocol(queue, limiter, world, worker, icmp, ttl, batchSize, stats, []);
    if raised {
      FirstPassAlone(world.observed, fates, before, queue.rows, worker, icmp, snmp, queue.now, ttl, batchSize, first,
                     reached, stats);
      return;
    }
    ghost var middle := queue.rows;
    assert [] + first[..reached] == first;
    stats, raised, second, reached := RunProtocol(queue, limiter, world, worker, snmp, ttl, batchSize, stats, first);
    BothPasses(world.observed, fates, before, middle, queue.rows, worker, icmp, snmp, queue.now, ttl, batchSize, first,
               second, reached, raised, stats);
  }

  /**
   One iteration over both protocols: it claims the first tasks that are due of each, works
   on them in order and stops at the first that raises. Every task that it reached is
   completed, put back or deferred, all other claimed rows stay leased, and no other row
   changes. The statistics are the numbers of the tasks of each kind, and the safety
   counters are where they were. A worker that starts with an empty limiter, as one without
   a shared limiter always does, never defers a task.
   */
  method RunOnce(queue: TaskQueue, limiter: SafetyLimits.ActiveSafetyLimiter, world: World, enabled: bool,
      worker: WorkerId, icmp: Filter, snmp: Filter, ttl: int, batchSize: nat)
    returns (stats: Stats, raised: bool)
    requires SafetyLimits.Positive(limiter.active) && icmp.protocol != snmp.protocol
    modifies queue`rows, limiter
    ensures limiter.active == old(limiter.active)
    ensures !enabled ==> queue.rows == old(queue.rows) && !raised && stats == Stats(0, 0, 0, 0, 0)
    ensures enabled ==> Iterated(world.observed, Fates(limiter, old(limiter.active), world), old(queue.rows),
                                 queue.rows, worker, icmp, snmp, queue.now, ttl, batchSize, stats, raised)
    ensures old(limiter.active) == map[] ==> stats.deferred == 0
    ensures !raised ==> Balanced(stats)
  {
    stats, raised := Stats(0, 0, 0, 0, 0), false;
    if enabled {
      ghost var active, before := limiter.active, queue.rows;
      stats, raised := RunEnabled(queue, limiter, world, worker, icmp, snmp, ttl, batchSize);
      IterationCounts(world.observed, Fates(limiter, active, world), before, queue.rows, worker, icmp, snmp, queue.now,
                      ttl, batchSize, stats, raised);
      CountsAddUp(limiter, active, world, stats, raised);
    }
  }
}
