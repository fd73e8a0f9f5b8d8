/**
 Back-pressure and retry decisions and their effect on a task queue
 (backend/polling/backpressure.py over backend/polling/pg_queue.py).
 */
module RetryPolicy {
  import opened Base
  import opened TaskLeases

  // ------------------------------------------------------------------------ back-pressure

  datatype Signal = QueueDepth | QueueAge | ResultAge | WriterLag | DbLatency | FailureRate | Saturation

  const SIGNALS: seq<Signal> := [QueueDepth, QueueAge, ResultAge, WriterLag, DbLatency, FailureRate, Saturation]

  type Levels = Signal -> real

  /** One check comes before another. */
  ghost predicate IsBefore(a: Signal, b: Signal)
  {
    exists i, j :: 0 <= i < j < |SIGNALS| && SIGNALS[i] == a && SIGNALS[j] == b
  }

  /** The signals above their thresholds, in the order of the checks. */
  method PressureReasons(levels: Levels, thresholds: Levels) returns (reasons: seq<Signal>)
    ensures forall signal :: signal in reasons <==> levels(signal) > thresholds(signal)
    ensures forall i, j | 0 <= i < j < |reasons| :: IsBefore(reasons[i], reasons[j]) && reasons[i] != reasons[j]
  {
    reasons := [];
    var i := 0;
    while i < |SIGNALS|
      invariant 0 <= i <= |SIGNALS|
      invariant forall signal :: signal in reasons <==> signal in SIGNALS[..i] && levels(signal) > thresholds(signal)
      invariant forall j, k | 0 <= j < k < |reasons| :: IsBefore(reasons[j], reasons[k]) && reasons[j] != reasons[k]
    {
      if levels(SIGNALS[i]) > thresholds(SIGNALS[i]) {
        assert SIGNALS[i] !in SIGNALS[..i];
        forall k | 0 <= k < |reasons|
          ensures IsBefore(reasons[k], SIGNALS[i])
        {
          assert reasons[k] in SIGNALS[..i];
        }
        reasons := reasons + [SIGNALS[i]];
      }
      i := i + 1;
    }
    forall signal: Signal
      ensures signal in SIGNALS[..i]
    {
      assert SIGNALS[match signal case QueueDepth => 0 case QueueAge => 1 case ResultAge => 2 case WriterLag => 3
                     case DbLatency => 4 case FailureRate => 5 case Saturation => 6] == signal;
    }
  }

  /** Work is put off, never dropped; availability checks only when the protocol itself keeps failing. */
  method EvaluateBackpressure(levels: Levels, thresholds: Levels, icmp: bool, now: int, wait: int)
    returns (deferredUntil: Option<int>)
    ensures deferredUntil.Some? <==>
              (exists signal :: levels(signal) > thresholds(signal))
                  && (icmp ==> levels(FailureRate) > thresholds(FailureRate))
    ensures deferredUntil.Some? ==> deferredUntil.value == now + wait
  {
    var reasons := PressureReasons(levels, thresholds);
    if reasons == [] || (icmp && FailureRate !in reasons) {
      assert forall signal :: levels(signal) > thresholds(signal) ==> signal in reasons;
      return None;
    }
    assert reasons[0] in reasons;
    return Some(now + wait);
  }

  // ----------------------------------------------------------------------- retry decisions

  datatype Config = Config(base: int, most: int, maxAttempts: int, circuitThreshold: int, cooldown: int)

  datatype Decision = RetryAt(at: int) | CircuitOpen(at: int) | Dead

  function Power(n: nat): nat
  {
    if n == 0 then 1 else 2 * Power(n - 1)
  }

  function Backoff(config: Config, attempts: int): int
  {
    var delay := config.base * Power(if attempts < 0 then 0 else attempts);
    if delay < config.most then delay else config.most
  }

  function Decide(config: Config, attempts: int, now: int): Decision
  {
    if attempts >= config.maxAttempts then Dead
    else if attempts >= config.circuitThreshold then CircuitOpen(now + config.cooldown)
    else RetryAt(now + Backoff(config, attempts))
  }

  /** How a decision changes the queue. */
  function StepFor(decision: Decision, r: Id): Step
  {
    match decision
    case RetryAt(at) => Retry(r, at)
    case CircuitOpen(at) => Retry(r, at)
    case Dead => Bury(r)
  }

  method ApplyDecision(queue: TaskQueue, r: Id, decision: Decision)
    modifies queue`rows
    ensures queue.Snapshot() == Apply(old(queue.Snapshot()), StepFor(decision, r))
  {
    match decision {
      case RetryAt(at) => queue.RetryTask(r, at);
      case CircuitOpen(at) => queue.RetryTask(r, at);
      case Dead => queue.DeadLetterTask(r);
    }
  }

  /** The steps that decide and apply once for each of the given times. */
  function Decisions(config: Config, attempts: int, times: seq<int>, r: Id): seq<Step>
    decreases |times|
  {
    if times == [] then []
    else [StepFor(Decide(config, attempts, times[0]), r)] + Decisions(config, attempts + 1, times[1..], r)
  }

  /**
   A task that keeps failing is retried exactly `max(0, max attempts - attempts)` times:
   up to then every decision sends it back to wait, for the back-off of its attempts or, once
   these have reached the threshold, for the cool-down; and the next decision buries it.
   */
  lemma {:induction false} RetriedThenBuried(config: Config, s: State, times: seq<int>, t: State, r: Id)
    requires r in s.rows && Leads(s, Decisions(config, s.rows[r].executeAttempts, times, r), t)
    requires var left := config.maxAttempts - s.rows[r].executeAttempts;
             |times| <= (if left <= 0 then 0 else left) + 1
    ensures r in t.rows
    ensures var attempts, last := s.rows[r].executeAttempts, s.rows[r].executeAttempts + |times| - 1;
            if times == [] then t.rows[r] == s.rows[r]
            else if last < config.maxAttempts then
              && t.rows[r].executeAttempts == attempts + |times| && t.rows[r].status == RetryWait
              && t.rows[r].eligibleAt == times[|times| - 1]
                 + (if last >= config.circuitThreshold then config.cooldown else Backoff(config, last))
            else t.rows[r].executeAttempts == last && t.rows[r].status == DeadLetter
    decreases |times|
  {
    if times != [] {
      var attempts := s.rows[r].executeAttempts;
      var steps := Decisions(config, attempts, times, r);
      var next := Apply(s, steps[0]);
      assert steps[1..] == Decisions(config, attempts + 1, times[1..], r);
      if attempts < config.maxAttempts {
        RetriedThenBuried(config, next, times[1..], t, r);
      } else {
        assert times[1..] == [];
      }
    }
  }

  lemma {:induction false} PowerGrows(m: nat, n: nat)
    requires m <= n
    ensures 1 <= Power(m) <= Power(n) && n < Power(n)
  {
    if n > 0 {
      PowerGrows(if m < n then m else n - 1, n - 1);
    }
  }

  /** Back-off starts with the base delay and doubles with every attempt, up to the maximum. */
  lemma BackoffDoubles(config: Config, attempts: int)
    ensures attempts <= 0
            ==> Backoff(config, attempts) == if config.base < config.most then config.base else config.most
    ensures attempts >= 0 && config.most >= 0 ==>
              var twice := 2 * Backoff(config, attempts);
              Backoff(config, attempts + 1) == if twice < config.most then twice else config.most
  {
    if attempts >= 0 {
      assert config.base * Power(attempts + 1) == 2 * (config.base * Power(attempts));
    }
  }

  /** Back-off never exceeds its maximum. */
  lemma BackoffIsBounded(config: Config, attempts: int)
    ensures Backoff(config, attempts) <= config.most
    ensures 0 <= config.base <= config.most ==> config.base <= Backoff(config, attempts)
  {
    PowerGrows(0, if attempts < 0 then 0 else attempts);
  }

  lemma BackoffGrows(config: Config, a: int, b: int)
    requires config.base >= 0 && a <= b
    ensures Backoff(config, a) <= Backoff(config, b)
  {
    var m, n := if a < 0 then 0 else a, if b < 0 then 0 else b;
    PowerGrows(m, n);
    assert config.base * Power(m) <= config.base * Power(n);
  }

  /** Back-off is non-decreasing exactly when the base delay is not negative. */
  lemma BackoffMonotoneIff(config: Config)
    ensures (forall a, b | a <= b :: Backoff(config, a) <= Backoff(config, b)) <==> config.base >= 0
  {
    if config.base >= 0 {
      forall a, b | a <= b
        ensures Backoff(config, a) <= Backoff(config, b)
      {
        BackoffGrows(config, a, b);
      }
    } else {
      var n: nat := if config.most < 0 then -config.most else 1;
      PowerGrows(n, n);
      assert config.base * Power(n) <= 0 - Power(n);
      assert Backoff(config, n) == config.base * Power(n);
      assert Backoff(config, n + 1) == config.base * Power(n + 1) == 2 * (config.base * Power(n));
      assert Backoff(config, n) > Backoff(config, n + 1);
    }
  }

  /** Within one task's life the waits only grow until the circuit opens, and then stay the same until it is buried. */
  lemma WaitsGrowThenStay(config: Config, a: int, b: int, now: int)
    requires a <= b < config.maxAttempts && config.base >= 0
    ensures Decide(config, b, now).RetryAt? ==>
              && Decide(config, a, now).RetryAt?
              && Decide(config, a, now).at <= Decide(config, b, now).at <= now + config.most
    ensures Decide(config, a, now).CircuitOpen?
            ==> Decide(config, b, now) == Decide(config, a, now) == CircuitOpen(now + config.cooldown)
  {
    BackoffGrows(config, a, b);
    BackoffIsBounded(config, b);
  }
}
