/**
 The sliding-window limiter of the proposal server (backend/mcp/cmdb_proposal_server.py):
 its lazily pruned queues of call times against the full logs of admitted calls.
 */
module RateLimiter {
  import opened Base

  type Calls = map<Id, seq<real>>

  /** The queues, or the logs, of the tokens and of the users. */
  datatype State = State(tokens: Calls, users: Calls)

  datatype Limits = Limits(token: int, user: int)

  datatype Call = Call(now: real, token: Option<Id>, user: Option<Id>)

  // --------------------------------------------------------------------- one call, as a function

  /** Drops the leading times before the cutoff. */
  function Pruned(queue: seq<real>, cutoff: real): seq<real>
  {
    if queue != [] && queue[0] < cutoff then Pruned(queue[1..], cutoff) else queue
  }

  function PruneOne(calls: Calls, id: Option<Id>, cutoff: real): Calls
  {
    if id.Some? && id.value in calls then calls[id.value := Pruned(calls[id.value], cutoff)] else calls
  }

  /** Only an existing queue is checked: the first call of a token or user passes whatever the limit is. */
  predicate IsFull(calls: Calls, id: Option<Id>, cutoff: real, limit: int)
  {
    id.Some? && id.value in calls && |Pruned(calls[id.value], cutoff)| >= limit
  }

  function Append(calls: Calls, id: Option<Id>, now: real): Calls
  {
    if id.None? then calls
    else calls[id.value := (if id.value in calls then calls[id.value] else []) + [now]]
  }

  predicate Admits(s: State, limits: Limits, call: Call)
  {
    !IsFull(s.tokens, call.token, call.now - 60.0, limits.token)
        && !IsFull(s.users, call.user, call.now - 60.0, limits.user)
  }

  function After(s: State, limits: Limits, call: Call): State
  {
    var cutoff := call.now - 60.0;
    var tokens := PruneOne(s.tokens, call.token, cutoff);
    var users := PruneOne(s.users, call.user, cutoff);
    if IsFull(s.tokens, call.token, cutoff, limits.token) then State(tokens, s.users)
    else if IsFull(s.users, call.user, cutoff, limits.user) then State(tokens, users)
    else State(Append(tokens, call.token, call.now), Append(users, call.user, call.now))
  }

  // ------------------------------------------------------------------------------- the program

  class Limiter {
    var tokens: Calls
    var users: Calls

    function Snapshot(): State
      reads this
    {
      State(tokens, users)
    }

    constructor ()
      ensures Snapshot() == State(map[], map[])
    {
      tokens, users := map[], map[];
    }

    /** Takes old times off the front of a queue. */
    static method Prune(queue: seq<real>, cutoff: real) returns (rest: seq<real>)
      ensures rest == Pruned(queue, cutoff)
    {
      rest := queue;
      while rest != [] && rest[0] < cutoff
        invariant Pruned(rest, cutoff) == Pruned(queue, cutoff)
      {
        rest := rest[1..];
      }
    }

    method Allow(limits: Limits, call: Call) returns (admitted: bool)
      modifies this
      ensures admitted == Admits(old(Snapshot()), limits, call)
      ensures Snapshot() == After(old(Snapshot()), limits, call)
    {
      var cutoff := call.now - 60.0;
      if call.token.Some? && call.token.value in tokens {
        var queue := Prune(tokens[call.token.value], cutoff);
        tokens := tokens[call.token.value := queue];
        if |queue| >= limits.token {
          return false;
        }
      }
      if call.user.Some? && call.user.value in users {
        var queue := Prune(users[call.user.value], cutoff);
        users := users[call.user.value := queue];
        if |queue| >= limits.user {
          return false;
        }
      }
      tokens := Append(tokens, call.token, call.now);
      users := Append(users, call.user, call.now);
      return true;
    }
  }

  // ----------------------------------------------------------------------------- whole histories

  /** The queues after some calls. */
  function Run(s: State, limits: Limits, calls: seq<Call>, n: nat): State
    requires n <= |calls|
  {
    if n == 0 then s else After(Run(s, limits, calls, n - 1), limits, calls[n - 1])
  }

  /** The full logs of the admitted calls. */
  function Log(limits: Limits, calls: seq<Call>, n: nat): State
    requires n <= |calls|
  {
    if n == 0 then State(map[], map[])
    else
      var log, last := Log(limits, calls, n - 1), calls[n - 1];
      if Admits(Run(State(map[], map[]), limits, calls, n - 1), limits, last)
      then State(Append(log.tokens, last.token, last.now), Append(log.users, last.user, last.now)) else log
  }

  predicate ShareQueue(a: Call, b: Call)
  {
    (a.token.Some? && a.token == b.token) || (a.user.Some? && a.user == b.user)
  }

  /** The calls of a token, and those of a user, come in the order of their times. */
  predicate InOrder(calls: seq<Call>)
  {
    forall i, j | 0 <= i < j < |calls| && ShareQueue(calls[i], calls[j]) :: calls[i].now <= calls[j].now
  }

  predicate Sorted(log: seq<real>)
  {
    forall i, j | 0 <= i < j < |log| :: log[i] <= log[j]
  }

  /** How many of the first `n` logged calls are in the closed window. */
  function InWindow(log: seq<real>, n: nat, from: real, to: real): nat
    requires n <= |log|
  {
    if n == 0 then 0 else InWindow(log, n - 1, from, to) + if from <= log[n - 1] <= to then 1 else 0
  }

  /** The queue is the log without a front part that is too old to matter. */
  ghost predicate IsTail(queue: seq<real>, log: seq<real>, latest: real)
  {
    && Sorted(log) && (forall i | 0 <= i < |log| :: log[i] <= latest)
    && exists k :: 0 <= k <= |log| && queue == log[k..] && forall i | 0 <= i < k :: log[i] < latest - 60.0
  }

  /** When each token, or each user, last called. */
  type Times = map<Id, real>

  function Seen(latest: Times, id: Option<Id>, now: real): Times
  {
    if id.Some? then latest[id.value := now] else latest
  }

  predicate NotBefore(latest: Times, id: Option<Id>, now: real)
  {
    id.Some? && id.value in latest ==> latest[id.value] <= now
  }

  ghost predicate Agree(calls: Calls, logs: Calls, latest: Times)
  {
    calls.Keys == logs.Keys && forall id | id in calls :: id in latest && IsTail(calls[id], logs[id], latest[id])
  }

  /** With the limit respected so far, the call `most` places earlier is out of the window. */
  predicate Spaced(log: seq<real>, most: nat)
  {
    forall i | most <= i < |log| :: log[i - most] < log[i] - 60.0
  }

  function Most(limit: int): nat
  {
    if limit < 1 then 1 else limit
  }

  ghost predicate AllSpaced(logs: Calls, limit: int)
  {
    forall id | id in logs :: Spaced(logs[id], Most(limit))
  }

  lemma {:induction false} WindowOfTail(log: seq<real>, n: nat, k: nat, from: real, to: real)
    requires k <= n <= |log|
    requires forall i | 0 <= i < k :: log[i] < from
    requires forall i | k <= i < n :: from <= log[i] <= to
    ensures InWindow(log, n, from, to) == n - k
  {
    if n > k {
      WindowOfTail(log, n - 1, k, from, to);
    } else if n > 0 {
      WindowOfTail(log, n - 1, k - 1, from, to);
    }
  }

  /** Pruning a tail leaves the calls of the window, in a tail. */
  lemma {:induction false} PrunedTail(log: seq<real>, k: nat, now: real) returns (m: nat)
    requires k <= |log| && Sorted(log) && forall i | 0 <= i < |log| :: log[i] <= now
    requires forall i | 0 <= i < k :: log[i] < now - 60.0
    ensures k <= m <= |log| && Pruned(log[k..], now - 60.0) == log[m..]
    ensures forall i | 0 <= i < m :: log[i] < now - 60.0
    ensures |log[m..]| == InWindow(log, |log|, now - 60.0, now)
    decreases |log| - k
  {
    if k < |log| && log[k] < now - 60.0 {
      assert log[k..][1..] == log[k + 1..];
      m := PrunedTail(log, k + 1, now);
    } else {
      m := k;
      WindowOfTail(log, |log|, k, now - 60.0, now);
    }
  }

  /** A lazily pruned queue decides as the full log does. */
  lemma TailDecides(queue: seq<real>, log: seq<real>, latest: real, now: real)
    requires IsTail(queue, log, latest) && latest <= now
    ensures |Pruned(queue, now - 60.0)| == InWindow(log, |log|, now - 60.0, now)
    ensures IsTail(Pruned(queue, now - 60.0), log, now) && IsTail(queue, log, now)
  {
    var k :| 0 <= k <= |log| && queue == log[k..] && forall i | 0 <= i < k :: log[i] < latest - 60.0;
    var m := PrunedTail(log, k, now);
  }

  lemma TailAppended(queue: seq<real>, log: seq<real>, now: real)
    requires IsTail(queue, log, now)
    ensures IsTail(queue + [now], log + [now], now)
  {
    var k :| 0 <= k <= |log| && queue == log[k..] && forall i | 0 <= i < k :: log[i] < now - 60.0;
    var longer := log + [now];
    assert forall i | 0 <= i < |log| :: longer[i] == log[i];
    assert longer[k..] == queue + [now];
    assert 0 <= k <= |longer| && forall i | 0 <= i < k :: longer[i] < now - 60.0;
  }

  /** An admitted call keeps its log spaced. */
  lemma AppendKeepsSpaced(log: seq<real>, most: nat, now: real)
    requires Sorted(log) && Spaced(log, most) && 0 < most && forall i | 0 <= i < |log| :: log[i] <= now
    requires |log| >= most ==> InWindow(log, |log|, now - 60.0, now) < most
    ensures Spaced(log + [now], most)
  {
    if |log| >= most && log[|log| - most] >= now - 60.0 {
      WindowAtLeast(log, |log|, |log| - most, now - 60.0, now);
    }
  }

  lemma {:induction false} WindowAtLeast(log: seq<real>, n: nat, k: nat, from: real, to: real)
    requires k <= n <= |log| && forall i | k <= i < n :: from <= log[i] <= to
    ensures InWindow(log, n, from, to) >= n - k
  {
    if n > k {
      WindowAtLeast(log, n - 1, k, from, to);
    }
  }

  /** A spaced log holds at most `most` calls in any window of a minute. */
  lemma {:induction false} SpacedWindows(log: seq<real>, n: nat, most: nat, from: real)
    requires n <= |log| && Sorted(log) && Spaced(log, most) && 0 < most
    ensures InWindow(log, n, from, from + 60.0) <= most
  {
    if n > 0 {
      if log[n - 1] > from + 60.0 {
        SpacedWindows(log, n - 1, most, from);
      } else if n > most {
        assert log[n - 1 - most] < log[n - 1] - 60.0 <= from;
        WindowAtMost(log, n, n - most, from, from + 60.0);
      } else {
        WindowSmall(log, n, from, from + 60.0);
      }
    }
  }

  lemma {:induction false} WindowSmall(log: seq<real>, n: nat, from: real, to: real)
    requires n <= |log|
    ensures InWindow(log, n, from, to) <= n
  {
    if n > 0 {
      WindowSmall(log, n - 1, from, to);
    }
  }

  lemma {:induction false} WindowAtMost(log: seq<real>, n: nat, k: nat, from: real, to: real)
    requires k <= n <= |log| && forall i | 0 <= i < k :: log[i] < from
    ensures InWindow(log, n, from, to) <= n - k
  {
    if n > k {
      WindowAtMost(log, n - 1, k, from, to);
    } else if n > 0 {
      WindowAtMost(log, n - 1, k - 1, from, to);
    }
  }

  // ----------------------------------------------------------------------- what a history keeps

  /** The log refuses: the id has been seen and its calls of the last minute reach the limit. */
  predicate LogFull(logs: Calls, id: Option<Id>, now: real, limit: int)
  {
    id.Some? && id.value in logs && InWindow(logs[id.value], |logs[id.value]|, now - 60.0, now) >= limit
  }

  lemma FullAgrees(calls: Calls, logs: Calls, latest: Times, id: Option<Id>, now: real, limit: int)
    requires Agree(calls, logs, latest) && NotBefore(latest, id, now)
    ensures IsFull(calls, id, now - 60.0, limit) <==> LogFull(logs, id, now, limit)
  {
    if id.Some? && id.value in calls {
      TailDecides(calls[id.value], logs[id.value], latest[id.value], now);
    }
  }

  lemma PruneAgrees(calls: Calls, logs: Calls, latest: Times, id: Option<Id>, now: real)
    requires Agree(calls, logs, latest) && NotBefore(latest, id, now)
    ensures Agree(calls, logs, Seen(latest, id, now))
            && Agree(PruneOne(calls, id, now - 60.0), logs, Seen(latest, id, now))
  {
    if id.Some? && id.value in calls {
      TailDecides(calls[id.value], logs[id.value], latest[id.value], now);
    }
  }

  lemma AppendAgrees(calls: Calls, logs: Calls, latest: Times, id: Option<Id>, now: real)
    requires Agree(calls, logs, latest) && (id.Some? ==> id.value in latest && latest[id.value] == now)
    ensures Agree(Append(calls, id, now), Append(logs, id, now), latest)
  {
    if id.Some? {
      if id.value in calls {
        TailAppended(calls[id.value], logs[id.value], now);
      } else {
        AppendNew(calls, id.value, now);
        AppendNew(logs, id.value, now);
        assert [now] == [now][0..];
      }
    }
  }

  lemma AppendNew(calls: Calls, id: Id, now: real)
    requires id !in calls
    ensures Append(calls, Some(id), now) == calls[id := [now]]
  {
    assert [] + [now] == [now];
  }

  lemma AppendSpaced(logs: Calls, latest: Times, id: Option<Id>, now: real, limit: int, calls: Calls)
    requires Agree(calls, logs, latest) && AllSpaced(logs, limit) && !LogFull(logs, id, now, limit)
             && NotBefore(latest, id, now)
    ensures AllSpaced(Append(logs, id, now), limit)
  {
    if id.Some? && id.value in logs {
      AppendKeepsSpaced(logs[id.value], Most(limit), now);
    }
  }

  /** One side of a call: the queues and logs of the tokens, or those of the users. */
  ghost predicate SideFaithful(calls: Calls, logs: Calls, latest: Times, limit: int)
  {
    Agree(calls, logs, latest) && AllSpaced(logs, limit)
  }

  lemma SideKeepsFaithful(calls: Calls, logs: Calls, latest: Times, id: Option<Id>, now: real, limit: int)
    requires SideFaithful(calls, logs, latest, limit) && NotBefore(latest, id, now)
    ensures IsFull(calls, id, now - 60.0, limit) <==> LogFull(logs, id, now, limit)
    ensures SideFaithful(calls, logs, Seen(latest, id, now), limit)
    ensures SideFaithful(PruneOne(calls, id, now - 60.0), logs, Seen(latest, id, now), limit)
    ensures !IsFull(calls, id, now - 60.0, limit) ==>
              SideFaithful(Append(PruneOne(calls, id, now - 60.0), id, now), Append(logs, id, now),
                  Seen(latest, id, now), limit)
  {
    FullAgrees(calls, logs, latest, id, now, limit);
    PruneAgrees(calls, logs, latest, id, now);
    if !LogFull(logs, id, now, limit) {
      AppendAgrees(PruneOne(calls, id, now - 60.0), logs, Seen(latest, id, now), id, now);
      AppendSpaced(logs, latest, id, now, limit, calls);
    }
  }

  /** A call leaves the tokens' side pruned, and appended to if it is admitted. */
  lemma TokensAfter(s: State, limits: Limits, call: Call)
    ensures var tokens := PruneOne(s.tokens, call.token, call.now - 60.0);
            After(s, limits, call).tokens ==
                if Admits(s, limits, call) then Append(tokens, call.token, call.now) else tokens
    ensures Admits(s, limits, call) ==> !IsFull(s.tokens, call.token, call.now - 60.0, limits.token)
  {
  }

  /** The users' side is not even pruned when the token is refused. */
  lemma UsersAfter(s: State, limits: Limits, call: Call)
    ensures var users := PruneOne(s.users, call.user, call.now - 60.0);
            if Admits(s, limits, call) then After(s, limits, call).users == Append(users, call.user, call.now)
            else After(s, limits, call).users in {s.users, users}
    ensures Admits(s, limits, call) ==> !IsFull(s.users, call.user, call.now - 60.0, limits.user)
  {
  }

  function Start(): State
  {
    State(map[], map[])
  }

  lemma TokensStep(s: State, logs: Calls, latest: Times, limits: Limits, call: Call, after: Calls, logged: Calls)
    requires SideFaithful(s.tokens, logs, latest, limits.token) && NotBefore(latest, call.token, call.now)
    requires after == After(s, limits, call).tokens
             && logged == if Admits(s, limits, call) then Append(logs, call.token, call.now) else logs
    ensures SideFaithful(after, logged, Seen(latest, call.token, call.now), limits.token)
  {
    SideKeepsFaithful(s.tokens, logs, latest, call.token, call.now, limits.token);
    TokensAfter(s, limits, call);
  }

  lemma UsersStep(s: State, logs: Calls, latest: Times, limits: Limits, call: Call, after: Calls, logged: Calls)
    requires SideFaithful(s.users, logs, latest, limits.user) && NotBefore(latest, call.user, call.now)
    requires after == After(s, limits, call).users
             && logged == if Admits(s, limits, call) then Append(logs, call.user, call.now) else logs
    ensures SideFaithful(after, logged, Seen(latest, call.user, call.now), limits.user)
  {
    SideKeepsFaithful(s.users, logs, latest, call.user, call.now, limits.user);
    UsersAfter(s, limits, call);
  }

  /** When each token last called among the first `n` calls. */
  function TokenTimes(calls: seq<Call>, n: nat): Times
    requires n <= |calls|
  {
    if n == 0 then map[] else Seen(TokenTimes(calls, n - 1), calls[n - 1].token, calls[n - 1].now)
  }

  function UserTimes(calls: seq<Call>, n: nat): Times
    requires n <= |calls|
  {
    if n == 0 then map[] else Seen(UserTimes(calls, n - 1), calls[n - 1].user, calls[n - 1].now)
  }

  lemma {:induction false} CalledAt(calls: seq<Call>, n: nat, id: Id)
    requires n <= |calls|
    ensures id in TokenTimes(calls, n) ==> exists i ::
            0 <= i < n && calls[i].token == Some(id) && calls[i].now == TokenTimes(calls, n)[id]
    ensures id in UserTimes(calls, n) ==> exists i ::
            0 <= i < n && calls[i].user == Some(id) && calls[i].now == UserTimes(calls, n)[id]
  {
    if n > 0 {
      CalledAt(calls, n - 1, id);
    }
  }

  lemma OrderedCallComesLater(calls: seq<Call>, n: nat)
    requires n < |calls| && InOrder(calls)
    ensures NotBefore(TokenTimes(calls, n), calls[n].token, calls[n].now)
    ensures NotBefore(UserTimes(calls, n), calls[n].user, calls[n].now)
  {
    if calls[n].token.Some? {
      CalledAt(calls, n, calls[n].token.value);
    }
    if calls[n].user.Some? {
      CalledAt(calls, n, calls[n].user.value);
    }
  }

  lemma {:induction false} TokensFaithful(limits: Limits, calls: seq<Call>, n: nat)
    requires n <= |calls| && InOrder(calls)
    ensures SideFaithful(Run(Start(), limits, calls, n).tokens, Log(limits, calls, n).tokens, TokenTimes(calls, n),
            limits.token)
  {
    if n > 0 {
      TokensFaithful(limits, calls, n - 1);
      OrderedCallComesLater(calls, n - 1);
      TokensStep(Run(Start(), limits, calls, n - 1), Log(limits, calls, n - 1).tokens, TokenTimes(calls, n - 1),
          limits, calls[n - 1],
                 Run(Start(), limits, calls, n).tokens, Log(limits, calls, n).tokens);
    }
  }

  lemma {:induction false} UsersFaithful(limits: Limits, calls: seq<Call>, n: nat)
    requires n <= |calls| && InOrder(calls)
    ensures SideFaithful(Run(Start(), limits, calls, n).users, Log(limits, calls, n).users, UserTimes(calls, n),
            limits.user)
  {
    if n > 0 {
      UsersFaithful(limits, calls, n - 1);
      OrderedCallComesLater(calls, n - 1);
      UsersStep(Run(Start(), limits, calls, n - 1), Log(limits, calls, n - 1).users, UserTimes(calls, n - 1), limits,
          calls[n - 1],
                Run(Start(), limits, calls, n).users, Log(limits, calls, n).users);
    }
  }

  lemma LogsDecide(s: State, log: State, tokenTimes: Times, userTimes: Times, limits: Limits, call: Call)
    requires SideFaithful(s.tokens, log.tokens, tokenTimes, limits.token)
             && SideFaithful(s.users, log.users, userTimes, limits.user)
    requires NotBefore(tokenTimes, call.token, call.now) && NotBefore(userTimes, call.user, call.now)
    ensures Admits(s, limits, call) <==>
              && !LogFull(log.tokens, call.token, call.now, limits.token)
              && !LogFull(log.users, call.user, call.now, limits.user)
  {
    FullAgrees(s.tokens, log.tokens, tokenTimes, call.token, call.now, limits.token);
    FullAgrees(s.users, log.users, userTimes, call.user, call.now, limits.user);
  }

  /**
   For calls in the order of their times within each queue: a call is refused exactly when the full log of its token
   or of its user, if there is one, already holds as many calls as the limit in the last
   minute. The pruning never changes an answer.
   */
  lemma RefusedIffLogFull(limits: Limits, calls: seq<Call>, n: nat)
    requires n < |calls| && InOrder(calls)
    ensures Admits(Run(Start(), limits, calls, n), limits, calls[n]) <==>
              !LogFull(Log(limits, calls, n).tokens, calls[n].token, calls[n].now, limits.token)
              && !LogFull(Log(limits, calls, n).users, calls[n].user, calls[n].now, limits.user)
  {
    TokensFaithful(limits, calls, n);
    UsersFaithful(limits, calls, n);
    OrderedCallComesLater(calls, n);
    LogsDecide(Run(Start(), limits, calls, n), Log(limits, calls, n), TokenTimes(calls, n), UserTimes(calls, n),
        limits, calls[n]);
  }

  // ------------------------------------------------------------------- the laws, over the calls

  /** The limiter lets call `i` of the history pass. */
  predicate AdmittedAt(limits: Limits, calls: seq<Call>, i: nat)
    requires i < |calls|
  {
    Admits(Run(Start(), limits, calls, i), limits, calls[i])
  }

  /** The calls that pass and belong to a token ... */
  function TokenPasses(limits: Limits, calls: seq<Call>, id: Id): seq<bool>
  {
    seq(|calls|, i requires 0 <= i < |calls| => calls[i].token == Some(id) && AdmittedAt(limits, calls, i))
  }

  /** ... or to a user. */
  function UserPasses(limits: Limits, calls: seq<Call>, id: Id): seq<bool>
  {
    seq(|calls|, i requires 0 <= i < |calls| => calls[i].user == Some(id) && AdmittedAt(limits, calls, i))
  }

  /** How many of the first `n` calls are among those that pass and in the closed window. */
  function Passed(calls: seq<Call>, passes: seq<bool>, n: nat, from: real, to: real): nat
    requires n <= |calls| == |passes|
  {
    if n == 0 then 0
    else Passed(calls, passes, n - 1, from, to) + if passes[n - 1] && from <= calls[n - 1].now <= to then 1 else 0
  }

  ghost predicate EverPassed(passes: seq<bool>, n: nat)
    requires n <= |passes|
  {
    exists i :: 0 <= i < n && passes[i]
  }

  /** How many logged calls of a token or user are in the window. */
  function Logged(logs: Calls, id: Id, from: real, to: real): nat
  {
    if id in logs then InWindow(logs[id], |logs[id]|, from, to) else 0
  }

  lemma {:induction false} WindowOfPrefix(log: seq<real>, now: real, n: nat, from: real, to: real)
    requires n <= |log|
    ensures InWindow(log + [now], n, from, to) == InWindow(log, n, from, to)
  {
    if n > 0 {
      WindowOfPrefix(log, now, n - 1, from, to);
    }
  }

  lemma LoggedOneMore(logs: Calls, caller: Option<Id>, now: real, id: Id, from: real, to: real)
    ensures Logged(Append(logs, caller, now), id, from, to) ==
              Logged(logs, id, from, to) + if caller == Some(id) && from <= now <= to then 1 else 0
    ensures id in Append(logs, caller, now) <==> id in logs || caller == Some(id)
  {
    if caller == Some(id) {
      var log := if id in logs then logs[id] else [];
      WindowOfPrefix(log, now, |log|, from, to);
      assert (log + [now])[|log|] == now;
    }
  }

  /** The log of a token is the list of its calls that passed. */
  lemma {:induction false} TokensLogged(limits: Limits, calls: seq<Call>, n: nat, id: Id, from: real, to: real)
    requires n <= |calls|
    ensures Logged(Log(limits, calls, n).tokens, id, from, to)
            == Passed(calls, TokenPasses(limits, calls, id), n, from, to)
    ensures id in Log(limits, calls, n).tokens <==> EverPassed(TokenPasses(limits, calls, id), n)
  {
    if n > 0 {
      TokensLogged(limits, calls, n - 1, id, from, to);
      LoggedOneMore(Log(limits, calls, n - 1).tokens, calls[n - 1].token, calls[n - 1].now, id, from, to);
      OneMorePass(TokenPasses(limits, calls, id), n);
    }
  }

  lemma {:induction false} UsersLogged(limits: Limits, calls: seq<Call>, n: nat, id: Id, from: real, to: real)
    requires n <= |calls|
    ensures Logged(Log(limits, calls, n).users, id, from, to)
            == Passed(calls, UserPasses(limits, calls, id), n, from, to)
    ensures id in Log(limits, calls, n).users <==> EverPassed(UserPasses(limits, calls, id), n)
  {
    if n > 0 {
      UsersLogged(limits, calls, n - 1, id, from, to);
      LoggedOneMore(Log(limits, calls, n - 1).users, calls[n - 1].user, calls[n - 1].now, id, from, to);
      OneMorePass(UserPasses(limits, calls, id), n);
    }
  }

  lemma OneMorePass(passes: seq<bool>, n: nat)
    requires 0 < n <= |passes|
    ensures EverPassed(passes, n) <==> EverPassed(passes, n - 1) || passes[n - 1]
  {
    if EverPassed(passes, n) {
      var i :| 0 <= i < n && passes[i];
      assert i < n - 1 || i == n - 1;
    }
  }

  /** A call of the token has passed before, and those that passed in the last minute reach the limit. */
  ghost predicate TokenExhausted(limits: Limits, calls: seq<Call>, n: nat)
    requires n < |calls|
  {
    calls[n].token.Some? &&
      var passes := TokenPasses(limits, calls, calls[n].token.value);
      EverPassed(passes, n) && Passed(calls, passes, n, calls[n].now - 60.0, calls[n].now) >= limits.token
  }

  ghost predicate UserExhausted(limits: Limits, calls: seq<Call>, n: nat)
    requires n < |calls|
  {
    calls[n].user.Some? &&
      var passes := UserPasses(limits, calls, calls[n].user.value);
      EverPassed(passes, n) && Passed(calls, passes, n, calls[n].now - 60.0, calls[n].now) >= limits.user
  }

  /**
   For calls in the order of their times within each queue: a call is refused if and only if
   some earlier call of its token, or of its user, has passed, and as many as the limit have
   passed in the last minute. The pruning never changes an answer.
   */
  lemma RefusedIffExhausted(limits: Limits, calls: seq<Call>, n: nat)
    requires n < |calls| && InOrder(calls)
    ensures AdmittedAt(limits, calls, n) <==> !TokenExhausted(limits, calls, n) && !UserExhausted(limits, calls, n)
  {
    RefusedIffLogFull(limits, calls, n);
    var to := calls[n].now;
    if calls[n].token.Some? {
      TokensLogged(limits, calls, n, calls[n].token.value, to - 60.0, to);
    }
    if calls[n].user.Some? {
      UsersLogged(limits, calls, n, calls[n].user.value, to - 60.0, to);
    }
  }

  /** In no closed minute do more than `most` calls of one token pass. */
  ghost predicate TokenMinutesHold(limits: Limits, calls: seq<Call>, most: int)
  {
    forall id, from, to | to == from + 60.0 ::
      Passed(calls, TokenPasses(limits, calls, id), |calls|, from, to) <= most
  }

  ghost predicate UserMinutesHold(limits: Limits, calls: seq<Call>, most: int)
  {
    forall id, from, to | to == from + 60.0 ::
      Passed(calls, UserPasses(limits, calls, id), |calls|, from, to) <= most
  }

  /**
   In every closed minute at most as many calls of a token, and of a user, pass as the limit
   says, counting a limit below one as one.
   */
  lemma EveryMinuteIsLimited(limits: Limits, calls: seq<Call>)
    requires InOrder(calls)
    ensures TokenMinutesHold(limits, calls, if limits.token < 1 then 1 else limits.token)
    ensures UserMinutesHold(limits, calls, if limits.user < 1 then 1 else limits.user)
  {
    TokensFaithful(limits, calls, |calls|);
    UsersFaithful(limits, calls, |calls|);
    var log := Log(limits, calls, |calls|);
    forall id, from, to | to == from + 60.0
      ensures Passed(calls, TokenPasses(limits, calls, id), |calls|, from, to) <= Most(limits.token)
    {
      TokensLogged(limits, calls, |calls|, id, from, to);
      if id in log.tokens {
        SpacedWindows(log.tokens[id], |log.tokens[id]|, Most(limits.token), from);
      }
    }
    forall id, from, to | to == from + 60.0
      ensures Passed(calls, UserPasses(limits, calls, id), |calls|, from, to) <= Most(limits.user)
    {
      UsersLogged(limits, calls, |calls|, id, from, to);
      if id in log.users {
        SpacedWindows(log.users[id], |log.users[id]|, Most(limits.user), from);
      }
    }
  }

  /** The first call of a history always passes. */
  lemma FirstCallPasses(limits: Limits, call: Call)
    ensures AdmittedAt(limits, [call], 0)
  {
    assert Run(Start(), limits, [call], 0) == Start();
  }

  /**
   A token's minutes respect its limit in all histories if and only if the limit is at least
   one: a first call is never checked.
   */
  lemma LimitRespectedIffPositive(limits: Limits)
    ensures (forall calls | InOrder(calls) :: TokenMinutesHold(limits, calls, limits.token)) <==> limits.token >= 1
  {
    if limits.token >= 1 {
      forall calls | InOrder(calls)
        ensures TokenMinutesHold(limits, calls, limits.token)
      {
        EveryMinuteIsLimited(limits, calls);
      }
    } else {
      var call := Call(0.0, Some(0), None);
      FirstCallPasses(limits, call);
      var passes := TokenPasses(limits, [call], 0);
      assert passes[0];
      assert Passed([call], passes, 0, 0.0, 60.0) == 0;
      assert Passed([call], passes, 1, 0.0, 0.0 + 60.0) == 1;
      assert InOrder([call]) && !TokenMinutesHold(limits, [call], limits.token);
    }
  }

  /**
   The order within one queue matters. The clock is read before the lock is taken, so a call may
   come after one with a later time: if that one was refused because of its user but had the
   token's queue pruned, the earlier call is admitted although the window is full.
   */
  lemma LateCallOverfillsMinute() returns (limits: Limits, calls: seq<Call>)
    ensures !InOrder(calls) && limits == Limits(1, 1)
    ensures !TokenMinutesHold(limits, calls, limits.token)
  {
    limits := Limits(1, 1);
    var first, second, third, late :=
        Call(100.0, Some(0), None), Call(150.0, None, Some(1)), Call(161.0, Some(0), Some(1)),
        Call(155.0, Some(0), None);
    calls := [first, second, third, late];
    var s1 := State(map[0 := [100.0]], map[]);
    var s2 := State(map[0 := [100.0]], map[1 := [150.0]]);
    var s3 := State(map[0 := []], map[1 := [150.0]]);
    AppendNew(map[], 0, 100.0);
    AppendNew(map[], 1, 150.0);
    assert After(Start(), limits, first) == s1 && After(s1, limits, second) == s2;
    assert Pruned([100.0], 101.0) == [] && Pruned([150.0], 101.0) == [150.0];
    assert IsFull(s2.users, Some(1), 101.0, 1) && After(s2, limits, third) == s3;
    assert Run(Start(), limits, calls, 0) == Start();
    assert Run(Start(), limits, calls, 1) == s1;
    assert Run(Start(), limits, calls, 2) == s2;
    assert Run(Start(), limits, calls, 3) == s3;
    var passes := TokenPasses(limits, calls, 0);
    assert passes == [true, false, false, true];
    FirstAndLastPass(calls, passes);
    assert ShareQueue(calls[2], calls[3]) && calls[2].now > calls[3].now;
  }

  lemma FirstAndLastPass(calls: seq<Call>, passes: seq<bool>)
    requires |calls| == 4 && passes == [true, false, false, true]
    requires calls[0].now <= calls[3].now <= calls[0].now + 60.0
    ensures Passed(calls, passes, 4, calls[0].now, calls[0].now + 60.0) == 2
  {
    var from, to := calls[0].now, calls[0].now + 60.0;
    assert Passed(calls, passes, 0, from, to) == 0;
    assert Passed(calls, passes, 1, from, to) == 1;
    assert Passed(calls, passes, 2, from, to) == 1;
    assert Passed(calls, passes, 3, from, to) == 1;
  }
}
