/**
 The order in which event writers take their advisory locks
 (backend/polling/event_writer.py, backend/services/event_lock.py): a batch takes
 the locks of its collection failures in sorted order, then those of its other
 events in sorted order. The lock of a triplet is a hash of it, so distinct
 triplets may share a lock.
 */
module LockOrder {
  import opened Base
  import opened EventRows

  /** Identifiers stand for strings; their numbers follow the order of the strings. */
  datatype Triplet = Triplet(ci: Id, metric: Id, kind: EventType)

  /** Names of event types compare as AVAILABILITY, COLLECTION_FAILURE, THRESHOLD_BREACH. */
  function KindRank(kind: EventType): nat
  {
    match kind
    case Availability => 0
    case CollectionFailure => 1
    case ThresholdBreach => 2
  }

  /** The order of Python tuples. */
  predicate Less(a: Triplet, b: Triplet)
  {
    a.ci < b.ci
    || (a.ci == b.ci && (a.metric < b.metric || (a.metric == b.metric && KindRank(a.kind) < KindRank(b.kind))))
  }

  /** The one order that both phases of every batch follow. */
  predicate Before(a: Triplet, b: Triplet)
  {
    if a.kind.CollectionFailure? == b.kind.CollectionFailure? then Less(a, b) else a.kind.CollectionFailure?
  }

  predicate Increasing(plan: seq<Triplet>)
  {
    forall i, j | 0 <= i < j < |plan| :: Before(plan[i], plan[j])
  }

  // ------------------------------------------------------------- what a batch asks for

  datatype Demand = Demand(ci: Option<Id>, metric: Option<Id>, kind: Option<EventType>)

  predicate IsComplete(d: Demand)
  {
    d.ci.Some? && d.metric.Some? && d.kind.Some?
  }

  function TripletOf(d: Demand): Triplet
    requires IsComplete(d)
  {
    Triplet(d.ci.value, d.metric.value, d.kind.value)
  }

  /** The distinct triplets of the rows that name one. */
  function Triplets(rows: seq<Demand>): set<Triplet>
  {
    set d | d in rows && IsComplete(d) :: TripletOf(d)
  }

  predicate Sorted(plan: seq<Triplet>)
  {
    forall i, j | 0 <= i < j < |plan| :: Less(plan[i], plan[j])
  }

  lemma InsertKeepsSorted(plan: seq<Triplet>, i: nat, x: Triplet)
    requires Sorted(plan) && i <= |plan|
    requires forall j | 0 <= j < i :: Less(plan[j], x)
    requires i < |plan| ==> Less(x, plan[i])
    ensures Sorted(plan[..i] + [x] + plan[i..])
    ensures forall y :: y in plan[..i] + [x] + plan[i..] <==> y in plan || y == x
  {
    var longer := plan[..i] + [x] + plan[i..];
    forall j, k | 0 <= j < k < |longer|
      ensures Less(longer[j], longer[k])
    {
      assert longer[j] == if j < i then plan[j] else if j == i then x else plan[j - 1];
      assert longer[k] == if k < i then plan[k] else if k == i then x else plan[k - 1];
    }
    assert plan == plan[..i] + plan[i..];
  }

  /** Puts a triplet in its place; one that is there already is not repeated. */
  method Insert(plan: seq<Triplet>, x: Triplet) returns (longer: seq<Triplet>)
    requires Sorted(plan)
    ensures Sorted(longer) && forall y :: y in longer <==> y in plan || y == x
  {
    var i := 0;
    while i < |plan| && Less(plan[i], x)
      invariant 0 <= i <= |plan|
      invariant forall j | 0 <= j < i :: Less(plan[j], x)
    {
      i := i + 1;
    }
    if i < |plan| && plan[i] == x {
      return plan;
    }
    InsertKeepsSorted(plan, i, x);
    longer := plan[..i] + [x] + plan[i..];
  }

  /** The names of the event types differ in their first letter. */
  function Initial(kind: EventType): char
  {
    match kind
    case CollectionFailure => 'C'
    case Availability => 'A'
    case ThresholdBreach => 'T'
  }

  /** By CI, then by metric, then by the name of the event type. */
  predicate InTupleOrder(a: Triplet, b: Triplet)
  {
    && a.ci <= b.ci && (a.ci == b.ci ==> a.metric <= b.metric)
    && (a.ci == b.ci && a.metric == b.metric ==> Initial(a.kind) < Initial(b.kind))
  }

  /** Some row names all three parts of the triplet. */
  ghost predicate IsDemanded(rows: seq<Demand>, x: Triplet)
  {
    exists k :: 0 <= k < |rows| && rows[k] == Demand(Some(x.ci), Some(x.metric), Some(x.kind))
  }

  lemma DemandedIff(rows: seq<Demand>, x: Triplet)
    ensures x in Triplets(rows) <==> IsDemanded(rows, x)
  {
    if x in Triplets(rows) {
      var d :| d in rows && IsComplete(d) && TripletOf(d) == x;
      var k :| 0 <= k < |rows| && rows[k] == d;
    }
    if IsDemanded(rows, x) {
      var k :| 0 <= k < |rows| && rows[k] == Demand(Some(x.ci), Some(x.metric), Some(x.kind));
      assert rows[k] in rows && TripletOf(rows[k]) == x;
    }
  }

  /** The order in which one phase takes its locks. */
  method SortedTriplets(rows: seq<Demand>) returns (plan: seq<Triplet>)
    ensures Sorted(plan) && forall x :: x in plan <==> x in Triplets(rows)
    ensures forall i, j | 0 <= i < j < |plan| :: InTupleOrder(plan[i], plan[j])
    ensures forall x :: x in plan <==> IsDemanded(rows, x)
  {
    plan := [];
    var i := 0;
    while i < |rows|
      invariant 0 <= i <= |rows|
      invariant Sorted(plan)
      invariant forall x :: x in plan <==> exists k :: 0 <= k < i && IsComplete(rows[k]) && TripletOf(rows[k]) == x
    {
      if IsComplete(rows[i]) {
        plan := Insert(plan, TripletOf(rows[i]));
      }
      i := i + 1;
    }
    forall x
      ensures x in Triplets(rows) <==> IsDemanded(rows, x)
    {
      DemandedIff(rows, x);
    }
  }

  /** Both phases of a batch together: one strictly increasing sequence of the global order. */
  method AcquisitionOrder(failures: seq<Demand>, others: seq<Demand>) returns (plan: seq<Triplet>)
    requires forall d | d in failures :: d.kind == Some(CollectionFailure)
    requires forall d | d in others :: d.kind != Some(CollectionFailure)
    ensures Increasing(plan)
    ensures forall x :: x in plan <==> IsDemanded(failures, x) || IsDemanded(others, x)
    ensures forall i, j | 0 <= i < j < |plan| ::
              || (plan[i].kind == CollectionFailure && plan[j].kind != CollectionFailure)
              || ((plan[i].kind == CollectionFailure <==> plan[j].kind == CollectionFailure)
                  && InTupleOrder(plan[i], plan[j]))
  {
    var first := SortedTriplets(failures);
    var second := SortedTriplets(others);
    plan := first + second;
    forall i, j | 0 <= i < j < |plan|
      ensures Before(plan[i], plan[j])
    {
      assert i < |first| ==> plan[i] in first;
      assert i >= |first| ==> plan[i] in second;
      assert j < |first| ==> plan[j] in first;
      assert j >= |first| ==> plan[j] in second;
    }
  }

  // --------------------------------------------------------------- writers taking locks

  type WriterId = nat
  type Key = int

  /** A writer that has taken the locks of the first `next` triplets of its plan. */
  datatype Progress = Progress(plan: seq<Triplet>, next: nat)

  type State = map<WriterId, Progress>

  datatype Step = Start(w: WriterId, plan: seq<Triplet>) | Take(w: WriterId) | Finish(w: WriterId)

  ghost predicate Holds(h: Triplet -> Key, at: Progress, key: Key)
  {
    exists i :: 0 <= i < at.next && i < |at.plan| && h(at.plan[i]) == key
  }

  /** The lock that a writer asks for next is free, or its own. */
  ghost predicate CanTake(h: Triplet -> Key, s: State, w: WriterId)
  {
    && w in s && s[w].next < |s[w].plan|
    && forall v | v in s && v != w :: !Holds(h, s[v], h(s[w].plan[s[w].next]))
  }

  ghost predicate CanMove(h: Triplet -> Key, s: State, w: WriterId)
  {
    w in s && (s[w].next >= |s[w].plan| || CanTake(h, s, w))
  }

  /** `ordered` writers follow the global order; the others take their locks as they come. */
  ghost predicate Enabled(h: Triplet -> Key, ordered: bool, s: State, step: Step)
  {
    match step
    case Start(w, plan) => w !in s && (ordered ==> Increasing(plan))
    case Take(w) => CanTake(h, s, w)
    case Finish(w) => w in s && s[w].next >= |s[w].plan|
  }

  ghost function Apply(h: Triplet -> Key, ordered: bool, s: State, step: Step): State
    requires Enabled(h, ordered, s, step)
  {
    match step
    case Start(w, plan) => s[w := Progress(plan, 0)]
    case Take(w) => s[w := Progress(s[w].plan, s[w].next + 1)]
    case Finish(w) => map v | v in s && v != w :: s[v]
  }

  ghost predicate Leads(h: Triplet -> Key, ordered: bool, s: State, steps: seq<Step>, t: State)
    decreases |steps|
  {
    if steps == [] then s == t
    else Enabled(h, ordered, s, steps[0]) && Leads(h, ordered, Apply(h, ordered, s, steps[0]), steps[1..], t)
  }

  /** In every reachable state with a writer some writer can go on. */
  ghost predicate DeadlockFree(h: Triplet -> Key, ordered: bool)
  {
    forall steps, t: State | Leads(h, ordered, map[], steps, t) && t != map[] :: exists w :: CanMove(h, t, w)
  }

  /** Triplets that share a lock share it with everything between them. */
  ghost predicate Convex(h: Triplet -> Key)
  {
    forall a, b, c | Before(a, b) && Before(b, c) && h(a) == h(c) :: h(b) == h(a)
  }

  // ------------------------------------------------------- convex lock keys: no deadlock

  ghost predicate Exclusive(h: Triplet -> Key, s: State)
  {
    && (forall w | w in s :: Increasing(s[w].plan))
    && (forall v, w, key | v in s && w in s && v != w && Holds(h, s[v], key) :: !Holds(h, s[w], key))
  }

  lemma StepKeepsExclusive(h: Triplet -> Key, s: State, step: Step)
    requires Enabled(h, true, s, step) && Exclusive(h, s)
    ensures Exclusive(h, Apply(h, true, s, step))
  {
    var t := Apply(h, true, s, step);
    forall w, key | w in t && Holds(h, t[w], key)
      ensures (w in s && Holds(h, s[w], key)) || (step == Take(w) && h(s[w].plan[s[w].next]) == key)
    {
    }
  }

  lemma {:induction false} RunsAreExclusive(h: Triplet -> Key, s: State, steps: seq<Step>, t: State)
    requires Leads(h, true, s, steps, t) && Exclusive(h, s)
    ensures Exclusive(h, t)
    decreases |steps|
  {
    if steps != [] {
      StepKeepsExclusive(h, s, steps[0]);
      RunsAreExclusive(h, Apply(h, true, s, steps[0]), steps[1..], t);
    }
  }

  function Pending(at: Progress): Triplet
    requires at.next < |at.plan|
  {
    at.plan[at.next]
  }

  /** Of finitely many waiting writers one waits for the last triplet in the order. */
  lemma {:induction false} LastPending(s: State, ws: set<WriterId>) returns (w: WriterId)
    requires ws != {} && forall v | v in ws :: v in s && s[v].next < |s[v].plan|
    ensures w in ws
    ensures forall v | v in ws :: Pending(s[v]) == Pending(s[w]) || Before(Pending(s[v]), Pending(s[w]))
    decreases ws
  {
    var u :| u in ws;
    var rest := ws - {u};
    if rest == {} {
      assert ws == {u};
      return u;
    }
    var x := LastPending(s, rest);
    w := if Before(Pending(s[x]), Pending(s[u])) then u else x;
  }

  /** With convex lock keys the writer that waits for the last triplet, or the one it waits for, can go on. */
  lemma SomeoneCanMove(h: Triplet -> Key, s: State)
    requires Exclusive(h, s) && Convex(h) && s != map[]
    ensures exists w :: CanMove(h, s, w)
  {
    if w :| w in s && s[w].next >= |s[w].plan| {
      assert CanMove(h, s, w);
    } else {
      assert s.Keys != {};
      var w := LastPending(s, s.Keys);
      if !CanTake(h, s, w) {
        var v :| v in s && v != w && Holds(h, s[v], h(Pending(s[w])));
        HolderCanTake(h, s, v, w);
        assert CanMove(h, s, v);
      } else {
        assert CanMove(h, s, w);
      }
    }
  }

  /** A holder that itself waits for something no later in the order waits for the lock that it holds. */
  lemma HolderCanTake(h: Triplet -> Key, s: State, v: WriterId, w: WriterId)
    requires Exclusive(h, s) && Convex(h) && v in s && w in s
    requires s[v].next < |s[v].plan| && s[w].next < |s[w].plan|
    requires Holds(h, s[v], h(Pending(s[w])))
    requires Pending(s[v]) == Pending(s[w]) || Before(Pending(s[v]), Pending(s[w]))
    ensures CanTake(h, s, v)
  {
    var i :| 0 <= i < s[v].next && h(s[v].plan[i]) == h(Pending(s[w]));
    assert Before(s[v].plan[i], Pending(s[v]));
    assert h(Pending(s[v])) == h(Pending(s[w]));
  }

  // ----------------------------------------------------- without deadlocks all can finish

  ghost predicate Reached(h: Triplet -> Key, ordered: bool, s: State)
  {
    exists steps :: Leads(h, ordered, map[], steps, s)
  }

  /** Some continuation ends all writers. */
  ghost predicate CanEnd(h: Triplet -> Key, ordered: bool, s: State)
  {
    exists steps :: Leads(h, ordered, s, steps, map[])
  }

  lemma {:induction false} OneStepOn(h: Triplet -> Key, ordered: bool, s: State, steps: seq<Step>, t: State, step: Step)
    requires Leads(h, ordered, s, steps, t) && Enabled(h, ordered, t, step)
    ensures Leads(h, ordered, s, steps + [step], Apply(h, ordered, t, step))
    decreases |steps|
  {
    if steps == [] {
      assert [step][1..] == [];
    } else {
      OneStepOn(h, ordered, Apply(h, ordered, s, steps[0]), steps[1..], t, step);
      assert (steps + [step])[1..] == steps[1..] + [step];
    }
  }

  /** The locks that the writers have yet to take, and their ends. */
  function Todo(s: State): set<(WriterId, nat)>
  {
    set w, i: nat | w in s && s[w].next <= i <= |s[w].plan| :: (w, i)
  }

  lemma {:induction false} AllCanEnd(h: Triplet -> Key, ordered: bool, s: State)
    requires DeadlockFree(h, ordered) && Reached(h, ordered, s)
             && forall w | w in s :: s[w].next <= |s[w].plan|
    ensures CanEnd(h, ordered, s)
    decreases Todo(s)
  {
    if s == map[] {
      assert Leads(h, ordered, s, [], map[]);
    } else {
      var before :| Leads(h, ordered, map[], before, s);
      var w :| CanMove(h, s, w);
      var step := if s[w].next >= |s[w].plan| then Finish(w) else Take(w);
      var t := Apply(h, ordered, s, step);
      OneStepOn(h, ordered, map[], before, s, step);
      assert (w, s[w].next) in Todo(s) && (w, s[w].next) !in Todo(t);
      AllCanEnd(h, ordered, t);
      var rest :| Leads(h, ordered, t, rest, map[]);
      assert ([step] + rest)[1..] == rest;
      assert Leads(h, ordered, s, [step] + rest, map[]);
    }
  }

  /** Writers that all wait for one another stay as they are, whatever others do. */
  lemma {:induction false} StuckStay(h: Triplet -> Key, ordered: bool, stuck: State, s: State, steps: seq<Step>,
      t: State)
    requires forall w | w in stuck :: !CanMove(h, stuck, w) && w in s && s[w] == stuck[w]
    requires Leads(h, ordered, s, steps, t)
    ensures forall w | w in stuck :: w in t && t[w] == stuck[w]
    decreases |steps|
  {
    if steps != [] {
      forall w | w in stuck
        ensures !CanMove(h, s, w)
      {
        assert !CanTake(h, stuck, w);
        var v :| v in stuck && v != w && Holds(h, stuck[v], h(stuck[w].plan[stuck[w].next]));
        assert v in s && s[v] == stuck[v];
      }
      StuckStay(h, ordered, stuck, Apply(h, ordered, s, steps[0]), steps[1..], t);
    }
  }

  lemma {:induction false} PlansBound(h: Triplet -> Key, ordered: bool, s: State, steps: seq<Step>, t: State)
    requires Leads(h, ordered, s, steps, t) && forall w | w in s :: s[w].next <= |s[w].plan|
    ensures forall w | w in t :: t[w].next <= |t[w].plan|
    decreases |steps|
  {
    if steps != [] {
      PlansBound(h, ordered, Apply(h, ordered, s, steps[0]), steps[1..], t);
    }
  }

  /** Writers never deadlock if and only if in every reachable state all of them can still take their locks and end. */
  lemma DeadlockFreeIffAllCanEnd(h: Triplet -> Key, ordered: bool)
    ensures DeadlockFree(h, ordered) <==> forall s | Reached(h, ordered, s) :: CanEnd(h, ordered, s)
  {
    if DeadlockFree(h, ordered) {
      forall s | Reached(h, ordered, s)
        ensures CanEnd(h, ordered, s)
      {
        var steps :| Leads(h, ordered, map[], steps, s);
        PlansBound(h, ordered, map[], steps, s);
        AllCanEnd(h, ordered, s);
      }
    }
    forall steps, t: State | Leads(h, ordered, map[], steps, t) && t != map[] && !(exists w :: CanMove(h, t, w))
      ensures Reached(h, ordered, t) && !CanEnd(h, ordered, t)
    {
      StuckNeverEnd(h, ordered, t);
    }
  }

  lemma StuckNeverEnd(h: Triplet -> Key, ordered: bool, stuck: State)
    requires stuck != map[] && forall w | w in stuck :: !CanMove(h, stuck, w)
    ensures !CanEnd(h, ordered, stuck)
  {
    assert stuck.Keys != {};
    var w :| w in stuck.Keys;
    forall steps
      ensures !Leads(h, ordered, stuck, steps, map[])
    {
      if Leads(h, ordered, stuck, steps, map[]) {
        StuckStay(h, ordered, stuck, stuck, steps, map[]);
        assert false;
      }
    }
  }

  // ------------------------------------------------- keys that are not convex: deadlock

  lemma LeadsFour(h: Triplet -> Key, ordered: bool, first: seq<Triplet>, second: seq<Triplet>)
    requires (ordered ==> Increasing(first) && Increasing(second)) && first != [] && second != []
             && h(first[0]) != h(second[0])
    ensures Leads(h, ordered, map[], [Start(0, first), Start(1, second), Take(0), Take(1)],
                  map[0 := Progress(first, 1), 1 := Progress(second, 1)])
  {
    var s1: State := map[0 := Progress(first, 0)];
    var s2: State := map[0 := Progress(first, 0), 1 := Progress(second, 0)];
    var s3: State := map[0 := Progress(first, 1), 1 := Progress(second, 0)];
    var s4: State := map[0 := Progress(first, 1), 1 := Progress(second, 1)];
    assert Apply(h, ordered, map[], Start(0, first)) == s1;
    assert Apply(h, ordered, s1, Start(1, second)) == s2;
    assert Enabled(h, ordered, s2, Take(0)) && Apply(h, ordered, s2, Take(0)) == s3;
    assert Enabled(h, ordered, s3, Take(1)) && Apply(h, ordered, s3, Take(1)) == s4;
    assert Leads(h, ordered, s4, [], s4);
    assert [Take(1)][1..] == [];
    assert Leads(h, ordered, s3, [Take(1)], s4);
    assert [Take(0), Take(1)][1..] == [Take(1)];
    assert Leads(h, ordered, s2, [Take(0), Take(1)], s4);
    assert [Start(1, second), Take(0), Take(1)][1..] == [Take(0), Take(1)];
    assert Leads(h, ordered, s1, [Start(1, second), Take(0), Take(1)], s4);
    assert [Start(0, first), Start(1, second), Take(0), Take(1)][1..] == [Start(1, second), Take(0), Take(1)];
  }

  /** Each of two writers holds the lock that the other one asks for next. */
  lemma CrossedPlansDeadlock(h: Triplet -> Key, ordered: bool, first: seq<Triplet>, second: seq<Triplet>)
    requires (ordered ==> Increasing(first) && Increasing(second)) && |first| == |second| == 2
    requires h(first[0]) == h(second[1]) && h(second[0]) == h(first[1]) && h(first[0]) != h(second[0])
    ensures !DeadlockFree(h, ordered)
  {
    LeadsFour(h, ordered, first, second);
    var t: State := map[0 := Progress(first, 1), 1 := Progress(second, 1)];
    assert Holds(h, t[0], h(first[0])) && Holds(h, t[1], h(second[0]));
    assert forall w | w in t :: !CanMove(h, t, w);
    assert t != map[];
  }

  /**
   Writers that take both phases in sorted order never deadlock if and only if the
   triplets that share a lock lie together in the order. Locks of their own satisfy
   that; a hash with a collision across an unrelated triplet does not.
   */
  lemma SortedLocksDeadlockFreeIffConvex(h: Triplet -> Key)
    ensures DeadlockFree(h, true) <==> Convex(h)
  {
    if Convex(h) {
      forall steps, t: State | Leads(h, true, map[], steps, t) && t != map[]
        ensures exists w :: CanMove(h, t, w)
      {
        RunsAreExclusive(h, map[], steps, t);
        SomeoneCanMove(h, t);
      }
    } else {
      var a, b, c :| Before(a, b) && Before(b, c) && h(a) == h(c) && h(b) != h(a);
      CrossedPlansDeadlock(h, true, [a, b], [b, c]);
    }
  }

  /** One lock per triplet: no deadlock. */
  lemma OwnLocksNeverDeadlock(h: Triplet -> Key)
    requires forall a, b | h(a) == h(b) :: a == b
    ensures DeadlockFree(h, true)
  {
    SortedLocksDeadlockFreeIffConvex(h);
  }

  /** Without the sorting, two triplets with different locks suffice for a deadlock, whatever the locks are. */
  lemma UnsortedLocksDeadlock(h: Triplet -> Key)
    ensures DeadlockFree(h, false) <==> forall a, b :: h(a) == h(b)
  {
    if a, b :| h(a) != h(b) {
      CrossedPlansDeadlock(h, false, [a, b], [b, a]);
    } else {
      SingleLock(h);
    }
  }

  /** With a single lock for everything the writer that holds it can go on. */
  lemma SingleLock(h: Triplet -> Key)
    requires forall a, b :: h(a) == h(b)
    ensures DeadlockFree(h, false)
  {
    forall steps, t: State | Leads(h, false, map[], steps, t) && t != map[]
      ensures exists w :: CanMove(h, t, w)
    {
      RunsHaveOneHolder(h, map[], steps, t);
      if w :| w in t && 0 < t[w].next {
        assert CanMove(h, t, w);
      } else {
        assert t.Keys != {};
        var w :| w in t.Keys;
        assert CanMove(h, t, w);
      }
    }
  }

  ghost predicate OneHolder(s: State)
  {
    && (forall w | w in s :: s[w].next <= |s[w].plan|)
    && (forall v, w | v in s && w in s && v != w && 0 < s[v].next :: s[w].next == 0)
  }

  lemma HoldsFirst(h: Triplet -> Key, p: Progress)
    ensures 0 < p.next <= |p.plan| ==> Holds(h, p, h(p.plan[0]))
  {
  }

  lemma {:induction false} RunsHaveOneHolder(h: Triplet -> Key, s: State, steps: seq<Step>, t: State)
    requires Leads(h, false, s, steps, t) && OneHolder(s) && forall a, b :: h(a) == h(b)
    ensures OneHolder(t)
    decreases |steps|
  {
    if steps != [] {
      var next := Apply(h, false, s, steps[0]);
      if steps[0].Take? {
        var w := steps[0].w;
        forall v | v in s && v != w
          ensures s[v].next == 0
        {
          HoldsFirst(h, s[v]);
        }
      }
      RunsHaveOneHolder(h, next, steps[1..], t);
    }
  }
}
