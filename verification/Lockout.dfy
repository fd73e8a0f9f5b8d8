/**
 The login lockout (backend/middleware/rate_limit.py): persistent failure counters with a
 lock after more than three failures, pruned as a side effect of other identities' calls.
 */
module Lockout {
  import opened Base

  const MAX_ATTEMPTS: nat := 3
  const LOCKOUT: real := 900.0
  const RETENTION: real := 86400.0

  datatype Attempt = Attempt(count: nat, lockedUntil: Option<real>, updated: real)

  type Rows = map<Id, Attempt>

  datatype Info = Info(count: nat, lockedUntil: Option<real>)

  // ------------------------------------------------------------------ the effect of one call

  predicate LockExpired(row: Attempt, now: real)
  {
    row.lockedUntil.Some? && row.lockedUntil.value <= now
  }

  predicate Stale(row: Attempt, now: real)
  {
    row.lockedUntil.None? && row.updated < now - RETENTION
  }

  predicate Gone(row: Attempt, now: real)
  {
    LockExpired(row, now) || Stale(row, now)
  }

  function Pruned(rows: Rows, now: real): Rows
  {
    map id | id in rows && !Gone(rows[id], now) :: rows[id]
  }

  /** One more failure of a row that is there, with the in-line reset of an expired lock. */
  function Failed(row: Attempt, now: real): Attempt
  {
    if row.lockedUntil.Some? && row.lockedUntil.value > now then row
    else
      var count := (if LockExpired(row, now) then 0 else row.count) + 1;
      Attempt(count, if count > MAX_ATTEMPTS then Some(now + LOCKOUT) else None, now)
  }

  function RowOf(rows: Rows, id: Id): Option<Attempt>
  {
    if id in rows then Some(rows[id]) else None
  }

  function AfterFailure(row: Option<Attempt>, now: real): Attempt
  {
    Failed(if row.Some? then row.value else Attempt(0, None, now), now)
  }

  /** What a call does to the table. */
  datatype Op = Fail(id: Id) | Clear(id: Id) | Look(id: Id)

  function Apply(rows: Rows, op: Op, now: real): Rows
  {
    match op
    case Fail(id) => Pruned(rows, now)[id := AfterFailure(RowOf(Pruned(rows, now), id), now)]
    case Clear(id) => map q | q in rows && q != id :: rows[q]
    case Look(_) => Pruned(rows, now)
  }

  // ------------------------------------------------------------------------------ the program

  class Store {
    var rows: Rows

    constructor ()
      ensures rows == map[]
    {
      rows := map[];
    }

    method Prune(now: real)
      modifies this
      ensures rows == Pruned(old(rows), now)
    {
      rows := Pruned(rows, now);
    }

    /** Counts a failure; a running lock is reported and not extended. */
    method IncrementAttempts(id: Id, now: real) returns (info: Info)
      modifies this
      ensures rows == Apply(old(rows), Fail(id), now)
      ensures id in rows && info == Info(rows[id].count, rows[id].lockedUntil)
    {
      Prune(now);
      var row := if id in rows then rows[id] else Attempt(0, None, now);
      if row.lockedUntil.Some? && row.lockedUntil.value > now {
        rows := rows[id := row];
        return Info(row.count, row.lockedUntil);
      }
      var count := (if LockExpired(row, now) then 0 else row.count) + 1;
      var until := if count > MAX_ATTEMPTS then Some(now + LOCKOUT) else None;
      rows := rows[id := Attempt(count, until, now)];
      return Info(count, until);
    }

    method ClearAttempts(id: Id)
      modifies this
      ensures forall now :: rows == Apply(old(rows), Clear(id), now)
    {
      rows := map q | q in rows && q != id :: rows[q];
    }

    /** Whether the identity is locked, and for how many whole seconds still. */
    method IsLocked(id: Id, now: real) returns (locked: bool, retryAfter: Option<int>)
      modifies this
      ensures rows == Apply(old(rows), Look(id), now)
      ensures locked <==> id in old(rows) && old(rows)[id].lockedUntil.Some? && now < old(rows)[id].lockedUntil.value
      ensures retryAfter == if locked then Some((old(rows)[id].lockedUntil.value - now).Floor) else None
    {
      Prune(now);
      if id !in rows || rows[id].lockedUntil.None? {
        return false, None;
      }
      return true, Some((rows[id].lockedUntil.value - now).Floor);
    }

    method GetAttemptInfo(id: Id, now: real) returns (info: Info)
      modifies this
      ensures rows == Apply(old(rows), Look(id), now)
      ensures info == if id in rows then Info(rows[id].count, rows[id].lockedUntil) else Info(0, None)
    {
      Prune(now);
      info := if id in rows then Info(rows[id].count, rows[id].lockedUntil) else Info(0, None);
    }
  }

  // ----------------------------------------------------------------------- what every run keeps

  datatype Timed = Timed(op: Op, now: real)

  function Run(rows: Rows, ops: seq<Timed>, n: nat): Rows
    requires n <= |ops|
  {
    if n == 0 then rows else Apply(Run(rows, ops, n - 1), ops[n - 1].op, ops[n - 1].now)
  }

  predicate InOrder(ops: seq<Timed>)
  {
    forall i, j | 0 <= i < j < |ops| :: ops[i].now <= ops[j].now
  }

  /**
   At least one and at most four failures; a lock exactly at four, ending a quarter of an
   hour after the last one counted.
   */
  predicate Sound(row: Attempt, now: real)
  {
    && 1 <= row.count <= MAX_ATTEMPTS + 1 && row.updated <= now
    && row.lockedUntil == if row.count == MAX_ATTEMPTS + 1 then Some(row.updated + LOCKOUT) else None
  }

  predicate AllSound(rows: Rows, now: real)
  {
    forall id | id in rows :: Sound(rows[id], now)
  }

  lemma OpKeepsSound(rows: Rows, op: Op, before: real, now: real)
    requires AllSound(rows, before) && before <= now
    ensures AllSound(Apply(rows, op, now), now)
  {
  }

  /** In every run at non-decreasing times, the count is in 0..4 and an identity is locked iff its count is four. */
  lemma {:induction false} RunsAreSound(ops: seq<Timed>, n: nat, now: real)
    requires n <= |ops| && InOrder(ops) && (n > 0 ==> ops[n - 1].now <= now)
    ensures AllSound(Run(map[], ops, n), now)
  {
    if n > 0 {
      RunsAreSound(ops, n - 1, ops[n - 1].now);
      OpKeepsSound(Run(map[], ops, n - 1), ops[n - 1].op, ops[n - 1].now, ops[n - 1].now);
    }
  }

  /** The row as a call at that time sees it. */
  function Seen(row: Option<Attempt>, now: real): Option<Attempt>
  {
    if row.Some? && !Gone(row.value, now) then row else None
  }

  /** The same machine for a single identity, on its own calls only and without any pruning. */
  function Alone(ops: seq<Timed>, n: nat, id: Id): Option<Attempt>
    requires n <= |ops|
  {
    if n == 0 then None
    else
      var row, last := Alone(ops, n - 1, id), ops[n - 1];
      if last.op == Fail(id) then Some(AfterFailure(Seen(row, last.now), last.now))
      else if last.op == Clear(id) then None
      else row
  }

  lemma OpAgrees(rows: Rows, row: Option<Attempt>, op: Op, now: real, later: real, id: Id)
    requires now <= later && Seen(RowOf(rows, id), now) == Seen(row, now)
             && Seen(RowOf(rows, id), later) == Seen(row, later)
    ensures Seen(RowOf(Apply(rows, op, now), id), later) ==
              Seen(if op == Fail(id) then Some(AfterFailure(Seen(row, now), now)) else
                  if op == Clear(id) then None else row, later)
  {
    assert RowOf(Pruned(rows, now), id) == Seen(RowOf(rows, id), now);
  }

  /**
   What an identity is told depends on its own calls alone: neither the calls of others
   nor the moment at which rows are pruned can be seen.
   */
  lemma {:induction false} PruningIsInvisible(ops: seq<Timed>, n: nat, now: real, id: Id)
    requires n <= |ops| && InOrder(ops) && (n > 0 ==> ops[n - 1].now <= now)
    ensures Seen(RowOf(Run(map[], ops, n), id), now) == Seen(Alone(ops, n, id), now)
  {
    if n > 0 {
      var last := ops[n - 1];
      PruningIsInvisible(ops, n - 1, last.now, id);
      PruningIsInvisible(ops, n - 1, now, id);
      OpAgrees(Run(map[], ops, n - 1), Alone(ops, n - 1, id), last.op, last.now, now, id);
    }
  }

  /** While a lock runs, nothing but a successful login changes its row: later failures do not extend it. */
  lemma {:induction false} LockIsNeverExtended(rows: Rows, ops: seq<Timed>, n: nat, id: Id)
    requires n <= |ops| && id in rows && rows[id].lockedUntil.Some?
    requires forall i | 0 <= i < n :: ops[i].now < rows[id].lockedUntil.value && ops[i].op != Clear(id)
    ensures id in Run(rows, ops, n) && Run(rows, ops, n)[id] == rows[id]
  {
    if n > 0 {
      LockIsNeverExtended(rows, ops, n - 1, id);
    }
  }

  /** The times of the failures of an identity. */
  function FailuresOf(ops: seq<Timed>, n: nat, id: Id): seq<real>
    requires n <= |ops|
  {
    if n == 0 then []
    else FailuresOf(ops, n - 1, id) + if ops[n - 1].op == Fail(id) then [ops[n - 1].now] else []
  }

  /** Call `i` comes within a day of the last failure, and before the lock that the fourth one sets has ended. */
  ghost predicate InStreak(ops: seq<Timed>, i: nat, id: Id)
    requires i < |ops|
  {
    Continues(FailuresOf(ops, i, id), ops[i].now)
  }

  predicate Continues(failures: seq<real>, now: real)
  {
    && (0 < |failures| < 4 ==> now - 86400.0 <= failures[|failures| - 1])
    && (|failures| >= 4 ==> now < failures[3] + 900.0)
  }

  /** The row that so many failures in a row leave: a counter, locked from the fourth on. */
  predicate IsStreak(row: Option<Attempt>, failures: seq<real>)
  {
    row == if failures == [] then None
           else if |failures| < 4 then Some(Attempt(|failures|, None, failures[|failures| - 1]))
           else Some(Attempt(4, Some(failures[3] + 900.0), failures[3]))
  }

  /**
   As long as the identity does not log in, waits for no more than a day between its failures
   and calls within a lock, the counter is the number of its failures up to four, and it is
   locked from the fourth on, for a quarter of an hour. The calls of others do not matter.
   */
  lemma {:induction false} StreakIsCounted(rows: Rows, ops: seq<Timed>, n: nat, id: Id)
    requires n <= |ops| && InOrder(ops) && id !in rows
    requires forall i | 0 <= i < n :: InStreak(ops, i, id) && ops[i].op != Clear(id)
    ensures IsStreak(RowOf(Run(rows, ops, n), id), FailuresOf(ops, n, id))
  {
    if n > 0 {
      StreakIsCounted(rows, ops, n - 1, id);
      assert InStreak(ops, n - 1, id);
      StreakGoesOn(Run(rows, ops, n - 1), FailuresOf(ops, n - 1, id), ops[n - 1].op, ops[n - 1].now, id);
    }
  }

  lemma StreakGoesOn(rows: Rows, failures: seq<real>, op: Op, now: real, id: Id)
    requires IsStreak(RowOf(rows, id), failures) && Continues(failures, now) && op != Clear(id)
    ensures IsStreak(RowOf(Apply(rows, op, now), id), failures + if op == Fail(id) then [now] else [])
  {
    if op == Fail(id) {
      assert failures != [] ==> RowOf(Pruned(rows, now), id) == RowOf(rows, id);
    } else {
      assert failures + [] == failures;
    }
  }

  /**
   A failure at time `f` that completes the fourth in a row locks the identity for exactly a
   quarter of an hour: it is locked at every later time before the end, whatever happens
   but a login, and at the end the lock is gone and a failure counts as the first.
   */
  lemma LockLastsExactly(rows: Rows, f: real, ops: seq<Timed>, t: real, id: Id)
    requires id in rows && rows[id].count == MAX_ATTEMPTS && rows[id].lockedUntil.None? && !Gone(rows[id], f)
    requires forall i | 0 <= i < |ops| :: ops[i].now < f + LOCKOUT && ops[i].op != Clear(id)
    ensures var after := Run(Apply(rows, Fail(id), f), ops, |ops|);
            && RowOf(after, id) == Some(Attempt(MAX_ATTEMPTS + 1, Some(f + LOCKOUT), f))
            && (f <= t < f + LOCKOUT ==> Seen(RowOf(after, id), t) == RowOf(after, id))
            && (t >= f + LOCKOUT ==>
                  Seen(RowOf(after, id), t) == None && Apply(after, Fail(id), t)[id] == Attempt(1, None, t))
  {
    var locked := Apply(rows, Fail(id), f);
    assert locked[id] == Attempt(MAX_ATTEMPTS + 1, Some(f + LOCKOUT), f);
    LockIsNeverExtended(locked, ops, |ops|, id);
  }

  /**
   The in-line reset of an expired lock does what pruning would have done; the two differ
   exactly on an unlocked counter that has not been touched for more than a day.
   */
  lemma PruningMatchesInlineReset(row: Attempt, now: real)
    requires Sound(row, now)
    ensures AfterFailure(Seen(Some(row), now), now) == Failed(row, now) <==> !Stale(row, now)
  {
  }
}
