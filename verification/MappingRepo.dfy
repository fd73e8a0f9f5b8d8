/**
 The lifecycle of MQTT metric mappings under concurrent operations
 (backend/repositories/mqtt_mapping_repo.py). Every read and every write is a statement of
 its own; only an approval keeps its source's lock, and its uncommitted write, until it
 commits.
 */
module MappingRepo {
  import opened Base

  datatype Status = Draft | Approved | Revoked
  datatype Source = Source(device: Id, metric: Id)
  datatype Mapping = Mapping(source: Source, target: Id, status: Status, version: nat)

  type Graph = map<Id, Mapping>
  type SessionId = nat

  /** An operation between two of its statements. */
  datatype Work =
    | Approving(id: Id)
    | Granting(id: Id)
    | Updating(id: Id)
    | Revoking(id: Id, next: nat)

  datatype State = State(graph: Graph, work: map<SessionId, Work>)

  datatype Step =
    | Create(id: Id, source: Source, target: Id)
    | ReadForApproval(t: SessionId, id: Id)
    | Grant(t: SessionId)
    | Commit(t: SessionId)
    | ReadForUpdate(t: SessionId, id: Id)
    | WriteUpdate(t: SessionId, target: Id)
    | WriteThresholds(id: Id)
    | ReadForRevocation(t: SessionId, id: Id)
    | WriteRevocation(t: SessionId)
    | GiveUp(t: SessionId)

  // ----------------------------------------------------------------------- single statements

  predicate HasConflict(graph: Graph, id: Id)
    requires id in graph
  {
    exists other :: other in graph && other != id && graph[other].source == graph[id].source
        && graph[other].status == Approved
  }

  /** An approval that has not committed keeps its mapping write-locked. */
  predicate Locked(s: State, id: Id)
  {
    exists t :: t in s.work && s.work[t].Granting? && s.work[t].id == id
  }

  /** ... and keeps the lock of its source. */
  predicate SourceLocked(s: State, source: Source)
  {
    exists t :: t in s.work && s.work[t].Granting? && s.work[t].id in s.graph && s.graph[s.work[t].id].source == source
  }

  function Granted(mapping: Mapping): Mapping
  {
    mapping.(status := Approved, version := mapping.version + 1)
  }

  function Updated(mapping: Mapping, target: Id): Mapping
  {
    mapping.(target := target, version := mapping.version + 1)
  }

  function Touched(mapping: Mapping): Mapping
  {
    mapping.(version := mapping.version + 1)
  }

  /** Revocation writes the version that it computed when it read the mapping. */
  function Withdrawn(mapping: Mapping, next: nat): Mapping
  {
    mapping.(status := Revoked, version := next)
  }

  function Without(work: map<SessionId, Work>, t: SessionId): map<SessionId, Work>
  {
    map u | u in work && u != t :: work[u]
  }

  predicate Enabled(s: State, step: Step)
  {
    match step
    case Create(id, _, _) => id !in s.graph
    case ReadForApproval(t, id) => t !in s.work && id in s.graph && s.graph[id].status == Draft
    case Grant(t) =>
      && t in s.work && s.work[t].Approving? && s.work[t].id in s.graph
          && !SourceLocked(s, s.graph[s.work[t].id].source)
      && s.graph[s.work[t].id].status == Draft && !HasConflict(s.graph, s.work[t].id)
    case Commit(t) => t in s.work && s.work[t].Granting? && s.work[t].id in s.graph
    case ReadForUpdate(t, id) => t !in s.work && id in s.graph && s.graph[id].status == Draft
    case WriteUpdate(t, _) => t in s.work && s.work[t].Updating? && s.work[t].id in s.graph && !Locked(s, s.work[t].id)
    case WriteThresholds(id) => id in s.graph && !Locked(s, id)
    case ReadForRevocation(t, id) => t !in s.work && id in s.graph && s.graph[id].status != Revoked
    case WriteRevocation(t) => t in s.work && s.work[t].Revoking? && s.work[t].id in s.graph && !Locked(s, s.work[t].id)
    case GiveUp(t) => t in s.work
  }

  function Apply(s: State, step: Step): State
    requires Enabled(s, step)
  {
    match step
    case Create(id, source, target) => State(s.graph[id := Mapping(source, target, Draft, 1)], s.work)
    case ReadForApproval(t, id) => State(s.graph, s.work[t := Approving(id)])
    case Grant(t) => State(s.graph, s.work[t := Granting(s.work[t].id)])
    case Commit(t) => State(s.graph[s.work[t].id := Granted(s.graph[s.work[t].id])], Without(s.work, t))
    case ReadForUpdate(t, id) => State(s.graph, s.work[t := Updating(id)])
    case WriteUpdate(t, target) =>
        State(s.graph[s.work[t].id := Updated(s.graph[s.work[t].id], target)], Without(s.work, t))
    case WriteThresholds(id) => State(s.graph[id := Touched(s.graph[id])], s.work)
    case ReadForRevocation(t, id) => State(s.graph, s.work[t := Revoking(id, s.graph[id].version + 1)])
    case WriteRevocation(t) =>
        State(s.graph[s.work[t].id := Withdrawn(s.graph[s.work[t].id], s.work[t].next)], Without(s.work, t))
    case GiveUp(t) => State(s.graph, Without(s.work, t))
  }

  predicate Leads(s: State, steps: seq<Step>, t: State)
    decreases |steps|
  {
    if steps == [] then s == t else Enabled(s, steps[0]) && Leads(Apply(s, steps[0]), steps[1..], t)
  }

  // ---------------------------------------------------------------------------- single approval

  /** At most one mapping of a source is approved. */
  predicate OneApproved(graph: Graph)
  {
    forall a, b | a in graph && b in graph && a != b && graph[a].status == Approved && graph[b].status == Approved ::
        graph[a].source != graph[b].source
  }

  /** An approval about to commit is alone on its source, and nothing of that source is approved. */
  predicate GrantsAlone(s: State)
  {
    && (forall t | t in s.work && s.work[t].Granting? ::
          s.work[t].id in s.graph && s.graph[s.work[t].id].status == Draft && !HasConflict(s.graph, s.work[t].id))
    && (forall t, u | t in s.work && u in s.work && t != u && s.work[t].Granting? && s.work[u].Granting?
          && s.work[t].id in s.graph && s.work[u].id in s.graph ::
              s.graph[s.work[t].id].source != s.graph[s.work[u].id].source)
  }

  predicate Consistent(s: State)
  {
    OneApproved(s.graph) && GrantsAlone(s)
  }

  lemma CommitKeepsConsistent(s: State, t: SessionId)
    requires Enabled(s, Commit(t)) && Consistent(s)
    ensures Consistent(Apply(s, Commit(t)))
  {
    var id := s.work[t].id;
    var after := Apply(s, Commit(t));
    forall u | u in after.work && after.work[u].Granting?
      ensures !HasConflict(after.graph, after.work[u].id)
    {
      assert s.graph[s.work[u].id].source != s.graph[id].source;
      assert !HasConflict(s.graph, s.work[u].id);
    }
    forall other | other in s.graph && other != id && s.graph[other].source == s.graph[id].source
      ensures s.graph[other].status != Approved
    {
      assert !HasConflict(s.graph, id);
    }
  }

  /** A statement on an unlocked mapping that approves nothing disturbs no approval. */
  lemma WriteKeepsConsistent(s: State, id: Id, mapping: Mapping, work: map<SessionId, Work>)
    requires Consistent(s) && id in s.graph && !Locked(s, id) && mapping.source == s.graph[id].source
    requires mapping.status == Approved ==> s.graph[id].status == Approved
    requires forall t | t in work && work[t].Granting? :: t in s.work && s.work[t] == work[t]
    ensures Consistent(State(s.graph[id := mapping], work))
  {
    var graph := s.graph[id := mapping];
    forall t | t in work && work[t].Granting?
      ensures work[t].id != id && !HasConflict(graph, work[t].id)
    {
      assert !HasConflict(s.graph, work[t].id);
    }
  }

  lemma GrantKeepsConsistent(s: State, t: SessionId)
    requires Enabled(s, Grant(t)) && Consistent(s)
    ensures Consistent(Apply(s, Grant(t)))
  {
  }

  lemma CreateKeepsConsistent(s: State, id: Id, source: Source, target: Id)
    requires Enabled(s, Create(id, source, target)) && Consistent(s)
    ensures Consistent(Apply(s, Create(id, source, target)))
  {
    var after := Apply(s, Create(id, source, target));
    forall t | t in s.work && s.work[t].Granting?
      ensures !HasConflict(after.graph, s.work[t].id)
    {
      assert !HasConflict(s.graph, s.work[t].id);
    }
  }

  lemma StepKeepsConsistent(s: State, step: Step)
    requires Enabled(s, step) && Consistent(s)
    ensures Consistent(Apply(s, step))
  {
    match step
    case Create(id, source, target) => CreateKeepsConsistent(s, id, source, target);
    case ReadForApproval(t, id) =>
    case Grant(t) => GrantKeepsConsistent(s, t);
    case Commit(t) => CommitKeepsConsistent(s, t);
    case ReadForUpdate(t, id) =>
    case WriteUpdate(t, target) =>
        WriteKeepsConsistent(s, s.work[t].id, Updated(s.graph[s.work[t].id], target), Without(s.work, t));
    case WriteThresholds(id) => WriteKeepsConsistent(s, id, Touched(s.graph[id]), s.work);
    case ReadForRevocation(t, id) =>
    case WriteRevocation(t) =>
        WriteKeepsConsistent(s, s.work[t].id, Withdrawn(s.graph[s.work[t].id], s.work[t].next), Without(s.work, t));
    case GiveUp(t) =>
  }

  lemma {:induction false} RunsKeepOneApproved(s: State, steps: seq<Step>, t: State)
    requires Leads(s, steps, t) && Consistent(s)
    ensures OneApproved(t.graph)
    decreases |steps|
  {
    if steps != [] {
      StepKeepsConsistent(s, steps[0]);
      RunsKeepOneApproved(Apply(s, steps[0]), steps[1..], t);
    }
  }

  /** In every interleaving of the statements of all operations at most one mapping of a source is approved. */
  lemma SingleApproval(steps: seq<Step>, t: State)
    requires Leads(State(map[], map[]), steps, t)
    ensures forall a, b | a in t.graph && b in t.graph && t.graph[a].source == t.graph[b].source
              && t.graph[a].status == Approved && t.graph[b].status == Approved :: a == b
  {
    RunsKeepOneApproved(State(map[], map[]), steps, t);
  }

  // -------------------------------------------------------------------- the life of one mapping

  /** Which statuses a mapping can have later. */
  predicate CanBecome(before: Status, after: Status)
  {
    before == after || before == Draft || after == Revoked
  }

  lemma StepMovesForward(s: State, step: Step, id: Id)
    requires Enabled(s, step) && Consistent(s) && id in s.graph
    ensures var after := Apply(s, step).graph;
            id in after && after[id].source == s.graph[id].source && CanBecome(s.graph[id].status, after[id].status)
  {
  }

  /**
   A mapping never changes its source; an approved mapping can only be revoked, and a revoked
   one stays revoked, although the statements that write do not look at the status again.
   */
  lemma {:induction false} MappingsMoveForward(s: State, steps: seq<Step>, t: State, id: Id)
    requires Leads(s, steps, t) && Consistent(s) && id in s.graph
    ensures id in t.graph && t.graph[id].source == s.graph[id].source
            && CanBecome(s.graph[id].status, t.graph[id].status)
    decreases |steps|
  {
    if steps != [] {
      StepKeepsConsistent(s, steps[0]);
      StepMovesForward(s, steps[0], id);
      MappingsMoveForward(Apply(s, steps[0]), steps[1..], t, id);
    }
  }

  /** A session other than `r` takes the step. */
  predicate ByOther(step: Step, r: SessionId)
  {
    step.Create? || step.WriteThresholds? || step.t != r
  }

  lemma {:induction false} WorkWaits(s: State, steps: seq<Step>, t: State, r: SessionId)
    requires Leads(s, steps, t) && r in s.work && forall step | step in steps :: ByOther(step, r)
    ensures r in t.work && t.work[r] == s.work[r]
    decreases |steps|
  {
    if steps != [] {
      assert ByOther(steps[0], r);
      WorkWaits(Apply(s, steps[0]), steps[1..], t, r);
    }
  }

  /** As long as a mapping is not revoked, every change raises its version. */
  lemma {:induction false} UnrevokedVersionsRise(s: State, steps: seq<Step>, t: State, id: Id)
    requires Leads(s, steps, t) && Consistent(s) && id in s.graph
    ensures id in t.graph
            && (t.graph[id].status != Revoked
            ==> t.graph[id] == s.graph[id] || s.graph[id].version < t.graph[id].version)
    decreases |steps|
  {
    if steps != [] {
      var next := Apply(s, steps[0]);
      StepKeepsConsistent(s, steps[0]);
      StepMovesForward(s, steps[0], id);
      MappingsMoveForward(next, steps[1..], t, id);
      UnrevokedVersionsRise(next, steps[1..], t, id);
    }
  }

  /**
   Whatever other sessions do between the two statements of a revocation: unless one of them
   revokes the mapping first, the revocation raises the version exactly when the mapping
   still is what it was when it was read.
   */
  lemma RevocationRaisesVersionIff(s: State, r: SessionId, id: Id, steps: seq<Step>, t: State)
    requires Consistent(s) && Enabled(s, ReadForRevocation(r, id))
    requires Leads(Apply(s, ReadForRevocation(r, id)), steps, t) && forall step | step in steps :: ByOther(step, r)
    requires id in t.graph && t.graph[id].status != Revoked && !Locked(t, id)
    ensures Enabled(t, WriteRevocation(r))
    ensures Apply(t, WriteRevocation(r)).graph[id].version > t.graph[id].version <==> t.graph[id] == s.graph[id]
  {
    var read := Apply(s, ReadForRevocation(r, id));
    StepKeepsConsistent(s, ReadForRevocation(r, id));
    WorkWaits(read, steps, t, r);
    UnrevokedVersionsRise(read, steps, t, id);
  }

  lemma LeadsThen(s: State, step: Step, rest: seq<Step>, t: State)
    requires Enabled(s, step) && Leads(Apply(s, step), rest, t)
    ensures Leads(s, [step] + rest, t)
  {
    assert ([step] + rest)[1..] == rest;
  }

  /** Versions can go down: two threshold changes between the statements of a revocation are enough. */
  lemma VersionCanDrop(s: State, r: SessionId, id: Id) returns (steps: seq<Step>, t: State)
    requires r !in s.work && id in s.graph && s.graph[id].status != Revoked && !Locked(s, id)
    ensures Leads(s, steps, t) && id in t.graph
    ensures exists i :: 0 <= i <= |steps| && HigherAfter(s, steps, i, id, t.graph[id].version)
  {
    var read, bump, write := ReadForRevocation(r, id), WriteThresholds(id), WriteRevocation(r);
    var s1 := Apply(s, read);
    assert !Locked(s1, id);
    var s2 := Apply(s1, bump);
    assert !Locked(s2, id);
    var s3 := Apply(s2, bump);
    assert !Locked(s3, id);
    t := Apply(s3, write);
    steps := [read] + ([bump] + ([bump] + ([write] + [])));
    LeadsThen(s3, write, [], t);
    LeadsThen(s2, bump, [write] + [], t);
    LeadsThen(s1, bump, [bump] + ([write] + []), t);
    LeadsThen(s, read, [bump] + ([bump] + ([write] + [])), t);
    assert steps[..3] == [read] + ([bump] + ([bump] + []));
    LeadsThen(s2, bump, [], s3);
    LeadsThen(s1, bump, [bump] + [], s3);
    LeadsThen(s, read, [bump] + ([bump] + []), s3);
    assert HigherAfter(s, steps, 3, id, t.graph[id].version);
  }

  /** After the first `i` steps the mapping had a higher version. */
  ghost predicate HigherAfter(s: State, steps: seq<Step>, i: int, id: Id, version: nat)
  {
    0 <= i <= |steps| && exists u :: Leads(s, steps[..i], u) && id in u.graph && u.graph[id].version > version
  }

  // ------------------------------------------------------------------- uninterrupted operations

  datatype Outcome = Done(mapping: Mapping) | NotFound | Conflict | Failed

  ghost predicate Reaches(s: State, t: State)
  {
    exists steps :: Leads(s, steps, t)
  }

  ghost function Idle(graph: Graph): State
  {
    State(graph, map[])
  }

  lemma ReachesSelf(s: State)
    ensures Reaches(s, s)
  {
    assert Leads(s, [], s);
  }

  lemma ReachesFirst(s: State, step: Step, t: State)
    requires Enabled(s, step) && Reaches(Apply(s, step), t)
    ensures Reaches(s, t)
  {
    var rest :| Leads(Apply(s, step), rest, t);
    LeadsThen(s, step, rest, t);
  }

  // --------------------------------------------------------------------------- stale updates

  /** Some session read the mapping when it was a draft and has yet to write its update. */
  ghost predicate UpdatePending(s: State, id: Id)
  {
    exists u :: u in s.work && s.work[u] == Updating(id)
  }

  lemma {:induction false} SettledTargetStays(s: State, steps: seq<Step>, t: State, id: Id)
    requires Leads(s, steps, t) && Consistent(s) && id in s.graph && s.graph[id].status != Draft
             && !UpdatePending(s, id)
    ensures id in t.graph && t.graph[id].target == s.graph[id].target
    decreases |steps|
  {
    if steps != [] {
      var next := Apply(s, steps[0]);
      StepKeepsConsistent(s, steps[0]);
      StepMovesForward(s, steps[0], id);
      forall u | u in next.work
        ensures next.work[u] != Updating(id)
      {
        assert u in s.work ==> s.work[u] != Updating(id);
      }
      SettledTargetStays(next, steps[1..], t, id);
    }
  }

  /**
   The target of a mapping that is approved or revoked can change, in some continuation, if
   and only if a session still holds an update that it began when the mapping was a draft:
   the write does not look at the status again.
   */
  lemma SettledTargetChangesIff(s: State, id: Id)
    requires Consistent(s) && id in s.graph && s.graph[id].status != Draft
    ensures (exists t :: Reaches(s, t) && id in t.graph && t.graph[id].target != s.graph[id].target)
            <==> UpdatePending(s, id)
  {
    if UpdatePending(s, id) {
      var u :| u in s.work && s.work[u] == Updating(id);
      var write := WriteUpdate(u, s.graph[id].target + 1);
      assert !Locked(s, id);
      ReachesSelf(Apply(s, write));
      ReachesFirst(s, write, Apply(s, write));
    } else {
      forall t | Reaches(s, t)
        ensures id in t.graph && t.graph[id].target == s.graph[id].target
      {
        var steps :| Leads(s, steps, t);
        SettledTargetStays(s, steps, t, id);
      }
    }
  }

  /** A mapping is created, an update of it begins, and it is approved. */
  lemma ApprovedWhileUpdating(id: Id, source: Source, target: Id)
    ensures Reaches(Idle(map[]), State(map[id := Mapping(source, target, Approved, 2)], map[0 := Updating(id)]))
  {
    var draft := map[id := Mapping(source, target, Draft, 1)];
    var read := State(draft, map[0 := Updating(id), 1 := Approving(id)]);
    var granting := State(draft, map[0 := Updating(id), 1 := Granting(id)]);
    var t := State(map[id := Mapping(source, target, Approved, 2)], map[0 := Updating(id)]);
    ReachesSelf(t);
    assert Apply(granting, Commit(1)) == t;
    ReachesFirst(granting, Commit(1), t);
    assert !SourceLocked(read, source);
    assert Apply(read, Grant(1)) == granting;
    ReachesFirst(read, Grant(1), t);
    assert Apply(State(draft, map[0 := Updating(id)]), ReadForApproval(1, id)) == read;
    ReachesFirst(State(draft, map[0 := Updating(id)]), ReadForApproval(1, id), t);
    assert Apply(Idle(draft), ReadForUpdate(0, id)) == State(draft, map[0 := Updating(id)]);
    ReachesFirst(Idle(draft), ReadForUpdate(0, id), t);
    assert Apply(Idle(map[]), Create(id, source, target)) == Idle(draft);
    ReachesFirst(Idle(map[]), Create(id, source, target), t);
  }

  /** From an empty graph, a stale update rewrites a mapping after its approval. */
  lemma StaleUpdateChangesApproved(id: Id, source: Source, target: Id, other: Id)
    requires other != target
    ensures exists s, t ::
              && Reaches(Idle(map[]), s) && Reaches(s, t) && s.graph == map[id := Mapping(source, target, Approved, 2)]
              && t.graph == map[id := Mapping(source, other, Approved, 3)]
  {
    var s := State(map[id := Mapping(source, target, Approved, 2)], map[0 := Updating(id)]);
    ApprovedWhileUpdating(id, source, target);
    var t := Apply(s, WriteUpdate(0, other));
    ReachesSelf(t);
    ReachesFirst(s, WriteUpdate(0, other), t);
    assert t.graph == map[id := Mapping(source, other, Approved, 3)];
  }

  // ------------------------------------------------------------------------------- operations

  lemma ApprovalIsARun(graph: Graph, id: Id)
    requires id in graph && graph[id].status == Draft && !HasConflict(graph, id)
    ensures Reaches(Idle(graph), Idle(graph[id := Granted(graph[id])]))
  {
    var read, granting := State(graph, map[0 := Approving(id)]), State(graph, map[0 := Granting(id)]);
    ReachesSelf(Idle(graph[id := Granted(graph[id])]));
    assert Apply(granting, Commit(0)) == Idle(graph[id := Granted(graph[id])]);
    ReachesFirst(granting, Commit(0), Idle(graph[id := Granted(graph[id])]));
    assert !SourceLocked(read, graph[id].source);
    assert Apply(read, Grant(0)) == granting;
    ReachesFirst(read, Grant(0), Idle(graph[id := Granted(graph[id])]));
    ReachesFirst(Idle(graph), ReadForApproval(0, id), Idle(graph[id := Granted(graph[id])]));
  }

  lemma UpdateIsARun(graph: Graph, id: Id, target: Id)
    requires id in graph && graph[id].status == Draft
    ensures Reaches(Idle(graph), Idle(graph[id := Updated(graph[id], target)]))
  {
    var read := State(graph, map[0 := Updating(id)]);
    ReachesSelf(Idle(graph[id := Updated(graph[id], target)]));
    assert Apply(read, WriteUpdate(0, target)) == Idle(graph[id := Updated(graph[id], target)]);
    ReachesFirst(read, WriteUpdate(0, target), Idle(graph[id := Updated(graph[id], target)]));
    ReachesFirst(Idle(graph), ReadForUpdate(0, id), Idle(graph[id := Updated(graph[id], target)]));
  }

  lemma RevocationIsARun(graph: Graph, id: Id)
    requires id in graph && graph[id].status != Revoked
    ensures Reaches(Idle(graph), Idle(graph[id := Withdrawn(graph[id], graph[id].version + 1)]))
  {
    var after := Idle(graph[id := Withdrawn(graph[id], graph[id].version + 1)]);
    var read := State(graph, map[0 := Revoking(id, graph[id].version + 1)]);
    ReachesSelf(after);
    assert Apply(read, WriteRevocation(0)) == after;
    ReachesFirst(read, WriteRevocation(0), after);
    ReachesFirst(Idle(graph), ReadForRevocation(0, id), after);
  }

  /** The repository used by one caller at a time: each operation is a run of statements, or changes nothing. */
  class Repo {
    var graph: Graph

    method CreateDraft(id: Id, source: Source, target: Id, endpointsExist: bool) returns (outcome: Outcome)
      modifies this
      ensures Reaches(Idle(old(graph)), Idle(graph))
      ensures outcome == if id in old(graph) then Conflict else
              if !endpointsExist then NotFound else Done(Mapping(source, target, Draft, 1))
      ensures graph == if outcome.Done? then old(graph)[id := outcome.mapping] else old(graph)
    {
      ReachesSelf(Idle(graph));
      if id in graph {
        return Conflict;
      }
      if !endpointsExist {
        return NotFound;
      }
      ReachesSelf(Idle(graph[id := Mapping(source, target, Draft, 1)]));
      ReachesFirst(Idle(graph), Create(id, source, target), Idle(graph[id := Mapping(source, target, Draft, 1)]));
      graph := graph[id := Mapping(source, target, Draft, 1)];
      return Done(graph[id]);
    }

    method Approve(id: Id, endpointsExist: bool) returns (outcome: Outcome)
      modifies this
      ensures Reaches(Idle(old(graph)), Idle(graph))
      ensures outcome.NotFound? <==> id !in old(graph)
      ensures outcome.Conflict? <==>
                && id in old(graph)
                && (old(graph)[id].status == Revoked
                    || (old(graph)[id].status == Draft && endpointsExist
                        && exists other :: other in old(graph) && other != id && old(graph)[other].status == Approved
                                           && old(graph)[other].source == old(graph)[id].source))
      ensures outcome.Failed? <==> id in old(graph) && old(graph)[id].status == Draft && !endpointsExist
      ensures outcome.Done? ==> id in graph && graph[id] == outcome.mapping && outcome.mapping.status == Approved
      ensures graph == if outcome.Done? && old(graph)[id].status == Draft
                       then var m := old(graph)[id]; old(graph)[id := Mapping(m.source, m.target, Approved, m.version
                           + 1)]
                       else old(graph)
    {
      ReachesSelf(Idle(graph));
      if id !in graph {
        return NotFound;
      }
      if graph[id].status == Approved {
        return Done(graph[id]);
      }
      if graph[id].status == Revoked {
        return Conflict;
      }
      if !endpointsExist {
        return Failed;
      }
      if HasConflict(graph, id) {
        return Conflict;
      }
      ApprovalIsARun(graph, id);
      graph := graph[id := Granted(graph[id])];
      return Done(graph[id]);
    }

    method UpdateDraft(id: Id, target: Id, endpointsExist: bool) returns (outcome: Outcome)
      modifies this
      ensures Reaches(Idle(old(graph)), Idle(graph))
      ensures outcome.Conflict? <==> id in old(graph) && old(graph)[id].status != Draft
      ensures outcome.Done? <==> id in old(graph) && old(graph)[id].status == Draft && endpointsExist
      ensures !outcome.Failed? && (outcome.Done? ==> id in graph && graph[id] == outcome.mapping)
      ensures graph == if outcome.Done?
                       then var m := old(graph)[id]; old(graph)[id := Mapping(m.source, target, Draft, m.version + 1)]
                       else old(graph)
    {
      ReachesSelf(Idle(graph));
      if id !in graph {
        return NotFound;
      }
      if graph[id].status != Draft {
        return Conflict;
      }
      if !endpointsExist {
        return NotFound;
      }
      UpdateIsARun(graph, id, target);
      graph := graph[id := Updated(graph[id], target)];
      return Done(graph[id]);
    }

    /** Thresholds may be changed in every status. */
    method UpdateThresholds(id: Id) returns (outcome: Outcome)
      modifies this
      ensures Reaches(Idle(old(graph)), Idle(graph))
      ensures outcome.Done? <==> id in old(graph)
      ensures outcome.NotFound? <==> id !in old(graph)
      ensures outcome.Done? ==> id in graph && graph[id] == outcome.mapping
      ensures graph == if outcome.Done?
                       then var m := old(graph)[id];
                            old(graph)[id := Mapping(m.source, m.target, m.status, m.version + 1)]
                       else old(graph)
    {
      ReachesSelf(Idle(graph));
      if id !in graph {
        return NotFound;
      }
      ReachesSelf(Idle(graph[id := Touched(graph[id])]));
      ReachesFirst(Idle(graph), WriteThresholds(id), Idle(graph[id := Touched(graph[id])]));
      graph := graph[id := Touched(graph[id])];
      return Done(graph[id]);
    }

    method Revoke(id: Id) returns (outcome: Outcome)
      modifies this
      ensures Reaches(Idle(old(graph)), Idle(graph))
      ensures outcome.Done? <==> id in old(graph)
      ensures outcome.NotFound? <==> id !in old(graph)
      ensures outcome.Done? ==> id in graph && graph[id] == outcome.mapping && outcome.mapping.status == Revoked
      ensures graph == if id in old(graph) && old(graph)[id].status != Revoked
                       then var m := old(graph)[id]; old(graph)[id := Mapping(m.source, m.target, Revoked, m.version
                           + 1)]
                       else old(graph)
    {
      ReachesSelf(Idle(graph));
      if id !in graph {
        return NotFound;
      }
      if graph[id].status == Revoked {
        return Done(graph[id]);
      }
      RevocationIsARun(graph, id);
      graph := graph[id := Withdrawn(graph[id], graph[id].version + 1)];
      return Done(graph[id]);
    }
  }
}
