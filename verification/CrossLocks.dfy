/**
 Deadlocks across the two databases. A result writer holds the row locks of its claim until
 it first completes or puts back a row (backend/polling/pg_queue.py), and the advisory locks
 of its events until its iteration ends (backend/polling/writer_pool.py). The sorted order
 covers advisory locks only.
 */
module CrossLocks {
  import opened Base

  type WriterId = nat

  /** Triplets, numbered in the order in which every batch takes their locks. */
  type Key = nat

  /**
   One iteration: it completes the duplicates among the claimed rows, takes the advisory
   locks of its events, and then completes or puts back other claimed rows. The first
   `next` of these actions are done.
   */
  datatype Iteration = Iteration(claimed: set<Id>, closes: seq<Id>, locks: seq<Key>, finishes: seq<Id>, next: nat)

  datatype Action = TakeLock(key: Key) | SettleRow(row: Id)

  type State = map<WriterId, Iteration>

  function Total(p: Iteration): nat
  {
    |p.closes| + |p.locks| + |p.finishes|
  }

  function ActionAt(p: Iteration, i: nat): Action
    requires i < Total(p)
  {
    if i < |p.closes| then SettleRow(p.closes[i])
    else if i < |p.closes| + |p.locks| then TakeLock(p.locks[i - |p.closes|])
    else SettleRow(p.finishes[i - |p.closes| - |p.locks|])
  }

  function NextAction(p: Iteration): Option<Action>
  {
    if p.next < Total(p) then Some(ActionAt(p, p.next)) else None
  }

  predicate WaitsForLock(p: Iteration)
  {
    NextAction(p).Some? && NextAction(p).value.TakeLock?
  }

  predicate WaitsForRow(p: Iteration)
  {
    NextAction(p).Some? && NextAction(p).value.SettleRow?
  }

  /** The first row that an iteration settles commits its claim. */
  predicate Committed(p: Iteration)
  {
    if p.closes != [] then p.next > 0 else p.next > |p.locks|
  }

  /** ... whatever it does before and after. */
  lemma CommittedIff(p: Iteration)
    requires p.next <= Total(p)
    ensures Committed(p) <==> exists i: nat :: i < p.next && ActionAt(p, i).SettleRow?
  {
    if p.closes != [] && p.next > 0 {
      assert ActionAt(p, 0).SettleRow?;
    }
    if p.closes == [] && p.next > |p.locks| {
      assert ActionAt(p, |p.locks|).SettleRow?;
    }
  }

  function Locked(p: Iteration): set<Id>
  {
    if Committed(p) then {} else p.claimed
  }

  predicate Holds(p: Iteration, key: Key)
  {
    exists i :: 0 <= i < |p.locks| && |p.closes| + i < p.next && p.locks[i] == key
  }

  /** The rows that an iteration has yet to settle. */
  function Pending(p: Iteration): set<Id>
  {
    set i | p.next <= i < Total(p) && ActionAt(p, i).SettleRow? :: ActionAt(p, i).row
  }

  predicate WellFormed(p: Iteration)
  {
    && p.next <= Total(p)
    && (forall i, j | 0 <= i < j < |p.locks| :: p.locks[i] < p.locks[j])
    && (forall i | 0 <= i < |p.closes| :: p.closes[i] in p.claimed)
    && (forall i | 0 <= i < |p.finishes| :: p.finishes[i] in p.claimed)
  }

  // ------------------------------------------------------------------ the transition system

  datatype Step =
    | Begin(w: WriterId, p: Iteration)
    | Act(w: WriterId)
    | End(w: WriterId)
    | Crash(w: WriterId)

  /** The iteration waits for something that the other one has locked. */
  predicate Blocks(other: Iteration, p: Iteration)
  {
    match NextAction(p)
    case Some(TakeLock(key)) => Holds(other, key)
    case Some(SettleRow(row)) => row in Locked(other)
    case None => false
  }

  /**
   A claim passes over locked rows. Unless iterations outlive their leases, it also passes
   over the rows that other iterations still have to settle.
   */
  predicate Enabled(overruns: bool, s: State, step: Step)
  {
    match step
    case Begin(w, p) =>
      && w !in s && WellFormed(p) && p.next == 0
      && (forall v | v in s :: Locked(s[v]) !! p.claimed)
      && (overruns || forall v | v in s :: Pending(s[v]) !! p.claimed)
    case Act(w) => w in s && NextAction(s[w]).Some? && forall v | v in s && v != w :: !Blocks(s[v], s[w])
    case End(w) => w in s && NextAction(s[w]).None?
    case Crash(w) => w in s
  }

  function Apply(overruns: bool, s: State, step: Step): State
    requires Enabled(overruns, s, step)
  {
    match step
    case Begin(w, p) => s[w := p]
    case Act(w) => s[w := s[w].(next := s[w].next + 1)]
    case End(w) => s - {w}
    case Crash(w) => s - {w}
  }

  predicate Leads(overruns: bool, s: State, steps: seq<Step>, t: State)
    decreases |steps|
  {
    if steps == [] then s == t
    else Enabled(overruns, s, steps[0]) && Leads(overruns, Apply(overruns, s, steps[0]), steps[1..], t)
  }

  // ------------------------------------------------------------------------- what runs keep

  ghost predicate Sound(s: State)
  {
    && (forall w | w in s :: WellFormed(s[w]))
    && (forall v, w | v in s && w in s && v != w :: Locked(s[v]) !! Locked(s[w]))
  }

  /** No iteration has claimed a row that another one still has to settle. */
  ghost predicate LeasesLast(s: State)
  {
    forall v, w | v in s && w in s && v != w :: Pending(s[v]) !! Locked(s[w])
  }

  lemma ActShrinks(p: Iteration)
    requires WellFormed(p) && p.next < Total(p)
    ensures var after := p.(next := p.next + 1); Locked(after) <= Locked(p) && Pending(after) <= Pending(p)
  {
    var after := p.(next := p.next + 1);
    forall row | row in Pending(after)
      ensures row in Pending(p)
    {
      var i :| after.next <= i < Total(after) && ActionAt(after, i) == SettleRow(row);
      assert ActionAt(p, i) == SettleRow(row);
    }
  }

  lemma PendingIsClaimed(p: Iteration)
    requires WellFormed(p)
    ensures Pending(p) <= p.claimed
    ensures WaitsForRow(p) ==> NextAction(p).value.row in Pending(p)
  {
  }

  lemma StepKeepsSound(overruns: bool, s: State, step: Step)
    requires Enabled(overruns, s, step) && Sound(s)
    ensures Sound(Apply(overruns, s, step))
  {
    if step.Act? {
      ActShrinks(s[step.w]);
    }
  }

  lemma StepKeepsLeases(s: State, step: Step)
    requires Enabled(false, s, step) && Sound(s) && LeasesLast(s)
    ensures LeasesLast(Apply(false, s, step))
  {
    if step.Act? {
      ActShrinks(s[step.w]);
    } else if step.Begin? {
      PendingIsClaimed(step.p);
    }
  }

  lemma {:induction false} RunsAreSound(overruns: bool, s: State, steps: seq<Step>, t: State)
    requires Leads(overruns, s, steps, t) && Sound(s)
    ensures Sound(t)
    ensures !overruns && LeasesLast(s) ==> LeasesLast(t)
    decreases |steps|
  {
    if steps != [] {
      StepKeepsSound(overruns, s, steps[0]);
      if !overruns && LeasesLast(s) {
        StepKeepsLeases(s, steps[0]);
      }
      RunsAreSound(overruns, Apply(overruns, s, steps[0]), steps[1..], t);
    }
  }

  // ------------------------------------------------------------------------------ deadlocks

  /** Each of the writers waits for another one of them. */
  ghost predicate Deadlocked(s: State, stuck: set<WriterId>)
  {
    stuck != {} && stuck <= s.Keys && forall w | w in stuck :: BlockedIn(s, stuck, w)
  }

  ghost predicate BlockedIn(s: State, stuck: set<WriterId>, w: WriterId)
    requires stuck <= s.Keys && w in stuck
  {
    exists v :: v in stuck && v != w && Blocks(s[v], s[w])
  }

  /** Nothing but a crash of one of them ends a deadlock. */
  lemma DeadlockLasts(overruns: bool, s: State, step: Step, stuck: set<WriterId>)
    requires Enabled(overruns, s, step) && Deadlocked(s, stuck) && (step.Crash? ==> step.w !in stuck)
    ensures Deadlocked(Apply(overruns, s, step), stuck)
  {
    var after := Apply(overruns, s, step);
    forall w | w in stuck
      ensures w in after && after[w] == s[w]
    {
      assert BlockedIn(s, stuck, w);
    }
    forall w | w in stuck
      ensures BlockedIn(after, stuck, w)
    {
      assert BlockedIn(s, stuck, w);
      var v :| v in stuck && v != w && Blocks(s[v], s[w]);
      assert Blocks(after[v], after[w]);
    }
  }

  /** The lock that an iteration waits for, if it waits for one. */
  function LockAhead(p: Iteration): Key
  {
    if WaitsForLock(p) then NextAction(p).value.key else 0
  }

  /** Advisory locks are taken in increasing order: who waits for one holds smaller ones only. */
  lemma WaitsAbove(p: Iteration, key: Key)
    requires WellFormed(p) && WaitsForLock(p)
    ensures Holds(p, key) ==> key < LockAhead(p)
  {
  }

  /** Among writers that wait for advisory locks, one that waits for the last of them. */
  lemma {:induction false} LastWaiting(s: State, waiting: set<WriterId>) returns (w: WriterId)
    requires waiting != {} && waiting <= s.Keys
    ensures w in waiting && forall v | v in waiting :: LockAhead(s[v]) <= LockAhead(s[w])
  {
    w :| w in waiting;
    var rest := waiting - {w};
    assert forall v | v in waiting :: v == w || v in rest;
    if rest != {} {
      var u := LastWaiting(s, rest);
      if LockAhead(s[w]) < LockAhead(s[u]) {
        w := u;
      }
    }
  }

  /** An iteration that has not committed its claim never waits for a row. */
  lemma OwnRowsAreFree(s: State, v: WriterId, w: WriterId)
    requires Sound(s) && v in s && w in s && v != w
    ensures Blocks(s[v], s[w]) ==> Committed(s[w]) || WaitsForLock(s[w])
  {
    PendingIsClaimed(s[w]);
    assert Locked(s[v]) !! Locked(s[w]);
  }

  /** It is past its advisory locks and holds some of them. */
  predicate HoldsAll(p: Iteration)
  {
    p.locks != [] && p.next >= |p.closes| + |p.locks|
  }

  /** A committed iteration waits, with its advisory locks, for a row that another one has claimed since. */
  ghost predicate Overtaken(s: State, v: WriterId, a: WriterId)
  {
    && v in s && a in s && v != a
    && Committed(s[v]) && HoldsAll(s[v]) && WaitsForRow(s[v])
    && !Committed(s[a]) && WaitsForLock(s[a]) && Blocks(s[a], s[v])
  }

  lemma SomeoneWaitsForLock(s: State, stuck: set<WriterId>)
    requires Sound(s) && Deadlocked(s, stuck)
    ensures exists w :: w in stuck && WaitsForLock(s[w])
  {
    var w :| w in stuck;
    assert BlockedIn(s, stuck, w);
    var v :| v in stuck && v != w && Blocks(s[v], s[w]);
    if !WaitsForLock(s[w]) {
      assert !Committed(s[v]);
      assert BlockedIn(s, stuck, v);
      var u :| u in stuck && u != v && Blocks(s[u], s[v]);
      OwnRowsAreFree(s, u, v);
    }
  }

  /** Whoever holds the last of the locks that are waited for does not wait for a lock. */
  lemma HolderWaitsForRow(s: State, stuck: set<WriterId>) returns (v: WriterId)
    requires Sound(s) && Deadlocked(s, stuck)
    ensures v in stuck && WaitsForRow(s[v]) && HoldsAll(s[v])
  {
    SomeoneWaitsForLock(s, stuck);
    var waiting := set w | w in stuck && WaitsForLock(s[w]);
    var w := LastWaiting(s, waiting);
    assert BlockedIn(s, stuck, w);
    v :| v in stuck && v != w && Blocks(s[v], s[w]);
    assert BlockedIn(s, stuck, v);
    assert WaitsForLock(s[v]) ==> v in waiting;
    LastHolder(s[v], s[w]);
  }

  lemma LastHolder(holder: Iteration, waiter: Iteration)
    requires WellFormed(holder) && WaitsForLock(waiter) && Blocks(holder, waiter) && NextAction(holder).Some?
    requires WaitsForLock(holder) ==> LockAhead(holder) <= LockAhead(waiter)
    ensures WaitsForRow(holder) && HoldsAll(holder)
  {
    assert WaitsForLock(holder) ==> !Holds(holder, LockAhead(waiter)) by {
      if WaitsForLock(holder) {
        WaitsAbove(holder, LockAhead(waiter));
      }
    }
  }

  /**
   Every deadlock holds an iteration that has committed its claim, took its advisory locks
   and outlived the lease of a row, and another one that has claimed this row and waits for
   an advisory lock.
   */
  lemma DeadlockNeedsOverrun(s: State, stuck: set<WriterId>)
    requires Sound(s) && Deadlocked(s, stuck)
    ensures exists v, a :: v in stuck && a in stuck && Overtaken(s, v, a)
  {
    var v := HolderWaitsForRow(s, stuck);
    assert BlockedIn(s, stuck, v);
    var a :| a in stuck && a != v && Blocks(s[a], s[v]);
    OwnRowsAreFree(s, a, v);
    assert BlockedIn(s, stuck, a);
    var b :| b in stuck && b != a && Blocks(s[b], s[a]);
    OwnRowsAreFree(s, b, a);
    assert Overtaken(s, v, a);
  }

  // --------------------------------------------------------------------- the exact condition

  /** Result 0 is a duplicate in the first batch; result 1 is in both, with the same event. */
  const FIRST := Iteration({0, 1}, [0], [0], [1], 0)
  const SECOND := Iteration({1}, [], [0], [1], 0)

  lemma DeadlockIsReachable()
    ensures exists steps, s :: Leads(true, map[], steps, s) && Deadlocked(s, {0, 1})
  {
    var s1: State := map[0 := FIRST];
    var s2: State := map[0 := FIRST.(next := 1)];
    var s3: State := map[0 := FIRST.(next := 2)];
    var s4: State := map[0 := FIRST.(next := 2), 1 := SECOND];
    var steps := [Begin(0, FIRST), Act(0), Act(0), Begin(1, SECOND)];
    assert Apply(true, map[], steps[0]) == s1;
    assert Apply(true, s1, steps[1]) == s2;
    assert Apply(true, s2, steps[2]) == s3;
    assert Apply(true, s3, steps[3]) == s4;
    assert steps[1..][1..] == [Act(0), Begin(1, SECOND)] && steps[1..][1..][1..] == [Begin(1, SECOND)];
    assert Leads(true, s3, [Begin(1, SECOND)], s4);
    assert Leads(true, map[], steps, s4);
    assert Holds(s4[0], 0) by {
      assert s4[0].locks[0] == 0;
    }
    assert Blocks(s4[0], s4[1]) && Blocks(s4[1], s4[0]);
    assert BlockedIn(s4, {0, 1}, 0) && BlockedIn(s4, {0, 1}, 1);
  }

  /**
   Over row locks and advisory locks together, result writers can deadlock if and only if
   iterations can outlive the leases that they have committed.
   */
  lemma DeadlockIffOverruns(overruns: bool)
    ensures (exists steps, s, stuck :: Leads(overruns, map[], steps, s) && Deadlocked(s, stuck)) <==> overruns
  {
    if overruns {
      DeadlockIsReachable();
    } else {
      forall steps, s, stuck | Leads(false, map[], steps, s)
        ensures !Deadlocked(s, stuck)
      {
        RunsAreSound(false, map[], steps, s);
        LastingLeasesNeverDeadlock(s, stuck);
      }
    }
  }

  lemma LastingLeasesNeverDeadlock(s: State, stuck: set<WriterId>)
    requires Sound(s) && LeasesLast(s)
    ensures !Deadlocked(s, stuck)
  {
    forall v, a
      ensures !Overtaken(s, v, a)
    {
      if v in s {
        PendingIsClaimed(s[v]);
      }
    }
    if Deadlocked(s, stuck) {
      DeadlockNeedsOverrun(s, stuck);
    }
  }
}
