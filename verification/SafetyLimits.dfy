/**
 The in-process safety counters of a leased polling worker (backend/polling/safety_limits.py):
 at most so many tasks in flight per CI, address, site and so on.
 */
module SafetyLimits {
  datatype Dimension = CiId | IpAddress | SiteId | Subnet | CredentialRef | ProtocolName | Endpoint | SourceName

  const DIMENSIONS: seq<Dimension> :=
      [CiId, IpAddress, SiteId, Subnet, CredentialRef, ProtocolName, Endpoint, SourceName]

  /** The attributes of a task; an empty one counts as absent. */
  type Target = map<Dimension, string>

  type Config = map<Dimension, int>

  datatype Key = Key(dimension: Dimension, name: string)

  type Counters = map<Key, nat>

  datatype Decision = Allowed | Refused(dimension: Dimension, name: string, current: nat, limit: int)

  lemma AllDimensions(d: Dimension)
    ensures d in DIMENSIONS
  {
    assert DIMENSIONS[match d case CiId => 0 case IpAddress => 1 case SiteId => 2 case Subnet => 3
                      case CredentialRef => 4 case ProtocolName => 5 case Endpoint => 6 case SourceName => 7] == d;
  }

  predicate HasKey(task: Target, d: Dimension)
  {
    d in task && task[d] != ""
  }

  predicate Names(task: Target, key: Key)
  {
    HasKey(task, key.dimension) && task[key.dimension] == key.name
  }

  /** The counters a task takes part in. */
  function KeysOf(task: Target): set<Key>
  {
    set d | d in task && task[d] != "" :: Key(d, task[d])
  }

  /** A limit that is missing, zero or negative does not limit anything. */
  predicate Limits(config: Config, d: Dimension)
  {
    d in config && config[d] > 0
  }

  function Get(active: Counters, key: Key): nat
  {
    if key in active then active[key] else 0
  }

  /** The dimension refuses a polling task. */
  predicate Full(config: Config, active: Counters, task: Target, d: Dimension)
  {
    HasKey(task, d) && Limits(config, d) && Get(active, Key(d, task[d])) >= config[d]
  }

  /** As many tasks as a limit allows are in flight already. */
  predicate IsReached(config: Config, active: Counters, task: Target, d: Dimension)
  {
    && d in task && task[d] != "" && d in config && config[d] > 0
    && Key(d, task[d]) in active && active[Key(d, task[d])] >= config[d]
  }

  /** The dimensions before it do not refuse. */
  predicate FirstFull(config: Config, active: Counters, task: Target, d: Dimension)
  {
    exists i | 0 <= i < |DIMENSIONS| :: DIMENSIONS[i] == d && forall j | 0 <= j < i ::
        !Full(config, active, task, DIMENSIONS[j])
  }

  function Incremented(active: Counters, keys: set<Key>): Counters
  {
    map key | key in active.Keys + keys :: Get(active, key) + if key in keys then 1 else 0
  }

  /** Counters that reach zero are dropped. */
  function Decremented(active: Counters, keys: set<Key>): Counters
  {
    map key | key in active && !(key in keys && active[key] <= 1) ::
        if key in keys then active[key] - 1 else active[key]
  }

  // -------------------------------------------------------------- acquire and release

  class ActiveSafetyLimiter {
    const config: Config
    var active: Counters

    constructor (config: Config)
      ensures this.config == config && active == map[]
    {
      this.config := config;
      active := map[];
    }

    /** Refuses at the first full dimension and changes nothing, or counts it in every dimension it has. */
    method Acquire(task: Target) returns (decision: Decision)
      modifies this
      ensures decision.Allowed? <==> forall d :: !Full(config, old(active), task, d)
      ensures decision.Refused? <==>
                exists d :: IsReached(config, old(active), task, d)
      ensures decision.Allowed? ==>
                forall d, name ::
                  (if Key(d, name) in active then active[Key(d, name)] else 0)
                  == (if Key(d, name) in old(active) then old(active)[Key(d, name)] else 0)
                     + (if d in task && task[d] == name && name != "" then 1 else 0)
      ensures active == if decision.Allowed? then Incremented(old(active), KeysOf(task)) else old(active)
      ensures decision.Refused? ==>
                && Full(config, old(active), task, decision.dimension)
                && decision.name == task[decision.dimension] && decision.limit == config[decision.dimension]
                && decision.current == Get(old(active), Key(decision.dimension, decision.name))
                && FirstFull(config, old(active), task, decision.dimension)
    {
      var i := 0;
      while i < |DIMENSIONS|
        invariant 0 <= i <= |DIMENSIONS|
        invariant forall j | 0 <= j < i :: !Full(config, active, task, DIMENSIONS[j])
        invariant active == old(active)
      {
        var d := DIMENSIONS[i];
        if Full(config, active, task, d) {
          assert IsReached(config, active, task, d);
          return Refused(d, task[d], Get(active, Key(d, task[d])), config[d]);
        }
        i := i + 1;
      }
      forall d
        ensures !Full(config, active, task, d) && !IsReached(config, active, task, d)
      {
        AllDimensions(d);
      }
      active := Incremented(active, KeysOf(task));
      return Allowed;
    }

    method Release(task: Target)
      modifies this
      ensures active == Decremented(old(active), KeysOf(task))
    {
      active := Decremented(active, KeysOf(task));
    }
  }

  // ---------------------------------------------------------- counters over histories

  /** How many tasks take part in a counter. */
  function Count(tasks: seq<Target>, key: Key): nat
  {
    if tasks == [] then 0 else Count(tasks[..|tasks| - 1], key) + if Names(tasks[|tasks| - 1], key) then 1 else 0
  }

  /** A counter is the number of its tasks in flight, and absent when there is none. */
  ghost predicate Counted(active: Counters, inFlight: seq<Target>)
  {
    forall key :: Get(active, key) == Count(inFlight, key) && (key in active <==> Count(inFlight, key) > 0)
  }

  ghost predicate WithinLimits(config: Config, active: Counters)
  {
    forall key | key in active && Limits(config, key.dimension) :: active[key] <= config[key.dimension]
  }

  datatype Step = Acquiring(task: Target) | Releasing(i: nat)

  /** Tasks in flight and their counters. */
  datatype State = State(active: Counters, inFlight: seq<Target>)

  predicate Enabled(s: State, step: Step)
  {
    step.Releasing? ==> step.i < |s.inFlight|
  }

  ghost function Apply(config: Config, s: State, step: Step): State
    requires Enabled(s, step)
  {
    match step
    case Acquiring(task) =>
      if forall d :: !Full(config, s.active, task, d)
      then State(Incremented(s.active, KeysOf(task)), s.inFlight + [task]) else s
    case Releasing(i) =>
      State(Decremented(s.active, KeysOf(s.inFlight[i])), s.inFlight[..i] + s.inFlight[i + 1..])
  }

  ghost predicate Leads(config: Config, s: State, steps: seq<Step>, t: State)
    decreases |steps|
  {
    if steps == [] then s == t
    else Enabled(s, steps[0]) && Leads(config, Apply(config, s, steps[0]), steps[1..], t)
  }

  lemma KeysAreNamed(task: Target, key: Key)
    ensures key in KeysOf(task) <==> Names(task, key)
  {
  }

  lemma {:induction false} CountJoined(a: seq<Target>, b: seq<Target>, key: Key)
    ensures Count(a + b, key) == Count(a, key) + Count(b, key)
  {
    if b == [] {
      assert a + b == a;
    } else {
      var last := |b| - 1;
      assert (a + b)[..|a + b| - 1] == a + b[..last];
      CountJoined(a, b[..last], key);
    }
  }

  lemma CountWithout(tasks: seq<Target>, i: nat, key: Key)
    requires i < |tasks|
    ensures Count(tasks, key) == Count(tasks[..i] + tasks[i + 1..], key) + if Names(tasks[i], key) then 1 else 0
  {
    assert tasks == tasks[..i] + ([tasks[i]] + tasks[i + 1..]);
    CountJoined(tasks[..i], [tasks[i]] + tasks[i + 1..], key);
    CountJoined([tasks[i]], tasks[i + 1..], key);
    CountJoined(tasks[..i], tasks[i + 1..], key);
    assert [tasks[i]][..0] == [];
  }

  lemma StepKeepsCounted(config: Config, s: State, step: Step)
    requires Enabled(s, step) && Counted(s.active, s.inFlight)
    ensures Counted(Apply(config, s, step).active, Apply(config, s, step).inFlight)
  {
    var t := Apply(config, s, step);
    forall key
      ensures Get(t.active, key) == Count(t.inFlight, key) && (key in t.active <==> Count(t.inFlight, key) > 0)
    {
      match step
      case Acquiring(task) =>
        KeysAreNamed(task, key);
        CountJoined(s.inFlight, [task], key);
        assert [task][..0] == [];
      case Releasing(i) =>
        KeysAreNamed(s.inFlight[i], key);
        CountWithout(s.inFlight, i, key);
    }
  }

  lemma StepKeepsWithinLimits(config: Config, s: State, step: Step)
    requires Enabled(s, step) && WithinLimits(config, s.active)
    ensures WithinLimits(config, Apply(config, s, step).active)
  {
    if step.Acquiring? {
      forall key | key in KeysOf(step.task)
        ensures Full(config, s.active, step.task, key.dimension) || !Limits(config, key.dimension)
                || Get(s.active, key) < config[key.dimension]
      {
      }
    }
  }

  /**
   In every history that releases only what was acquired, each counter is the number of
   tasks in flight that take part in it, absent at zero, and no limit is ever exceeded.
   */
  lemma {:induction false} HistoriesKeepCounters(config: Config, s: State, steps: seq<Step>, t: State)
    requires Leads(config, s, steps, t) && Counted(s.active, s.inFlight) && WithinLimits(config, s.active)
    ensures Counted(t.active, t.inFlight) && WithinLimits(config, t.active)
    decreases |steps|
  {
    if steps != [] {
      StepKeepsCounted(config, s, steps[0]);
      StepKeepsWithinLimits(config, s, steps[0]);
      HistoriesKeepCounters(config, Apply(config, s, steps[0]), steps[1..], t);
    }
  }

  /** How many tasks have a name in a dimension. */
  function Having(tasks: seq<Target>, d: Dimension, name: string): nat
  {
    if tasks == [] then 0
    else
      var last := tasks[|tasks| - 1];
      Having(tasks[..|tasks| - 1], d, name) + if d in last && last[d] == name then 1 else 0
  }

  lemma {:induction false} HavingIsCount(tasks: seq<Target>, d: Dimension, name: string)
    requires name != ""
    ensures Having(tasks, d, name) == Count(tasks, Key(d, name))
  {
    if tasks != [] {
      HavingIsCount(tasks[..|tasks| - 1], d, name);
    }
  }

  /** From an empty limiter on, no more tasks of one name are in flight than its dimension allows. */
  lemma FreshCounters(config: Config, steps: seq<Step>, t: State, d: Dimension, name: string)
    requires Leads(config, State(map[], []), steps, t) && d in config && config[d] > 0 && name != ""
    ensures Having(t.inFlight, d, name) <= config[d]
  {
    HistoriesKeepCounters(config, State(map[], []), steps, t);
    HavingIsCount(t.inFlight, d, name);
    assert Get(t.active, Key(d, name)) == Count(t.inFlight, Key(d, name));
  }

  ghost predicate Positive(active: Counters)
  {
    forall key | key in active :: active[key] > 0
  }

  /** Releasing what was just acquired restores the counters. */
  lemma ReleaseUndoesAcquire(active: Counters, keys: set<Key>)
    requires Positive(active)
    ensures Decremented(Incremented(active, keys), keys) == active
  {
  }
}
