/**
 The lifecycle of CI proposals (backend/repositories/cmdb_proposal_repo.py): guarded
 updates that name the version they expect, and a sweep that revokes old drafts.
 */
module ProposalRepo {
  import opened Base

  datatype Status = Draft | Approved | Revoked

  datatype Proposal = Proposal(status: Status, version: nat, result: Option<Id>, created: int)

  type Table = map<Id, Proposal>

  datatype Step =
    | Create(id: Id, created: int)
    | Approve(id: Id, expected: nat, ci: Id)
    | Revoke(id: Id, expected: nat)
    | Sweep(cutoff: int)

  /** A guarded update matches its row; a creation has a new identifier. */
  predicate Succeeds(table: Table, step: Step)
  {
    match step
    case Create(id, _) => id !in table
    case Approve(id, expected, _) => id in table && table[id].version == expected && table[id].status == Draft
    case Revoke(id, expected) => id in table && table[id].version == expected && table[id].status in {Draft, Approved}
    case Sweep(_) => true
  }

  predicate Expired(p: Proposal, cutoff: int)
  {
    p.status == Draft && p.created < cutoff
  }

  function Swept(table: Table, cutoff: int): Table
  {
    map id | id in table ::
        if Expired(table[id], cutoff) then table[id].(status := Revoked, version := table[id].version + 1)
        else table[id]
  }

  /** A step that does not succeed raises a conflict and leaves the table alone. */
  function Apply(table: Table, step: Step): Table
  {
    if !Succeeds(table, step) then table
    else match step
      case Create(id, created) => table[id := Proposal(Draft, 1, None, created)]
      case Approve(id, expected, ci) =>
          table[id := table[id].(status := Approved, version := expected + 1, result := Some(ci))]
      case Revoke(id, expected) => table[id := table[id].(status := Revoked, version := expected + 1)]
      case Sweep(cutoff) => Swept(table, cutoff)
  }

  function Run(table: Table, steps: seq<Step>, n: nat): Table
    requires n <= |steps|
  {
    if n == 0 then table else Apply(Run(table, steps, n - 1), steps[n - 1])
  }

  // ------------------------------------------------------------------------------ the program

  class Repo {
    var table: Table

    constructor ()
      ensures table == map[]
    {
      table := map[];
    }

    /** The identifiers of proposals are unique: a second creation is refused. */
    method CreateDraft(id: Id, now: int) returns (created: Option<Proposal>)
      modifies this
      ensures table == Apply(old(table), Create(id, now))
      ensures created.Some? <==> id !in old(table)
      ensures created.Some? ==> id in table && created.value == table[id]
    {
      if id in table {
        return None;
      }
      table := table[id := Proposal(Draft, 1, None, now)];
      return Some(table[id]);
    }

    method ApproveProposal(id: Id, expected: nat, ci: Id) returns (approved: Option<Proposal>)
      modifies this
      ensures table == Apply(old(table), Approve(id, expected, ci))
      ensures approved.Some? <==> Succeeds(old(table), Approve(id, expected, ci))
      ensures approved.Some? ==> id in table && approved.value == table[id]
    {
      if id !in table || table[id].version != expected || table[id].status != Draft {
        return None;
      }
      table := table[id := table[id].(status := Approved, version := expected + 1, result := Some(ci))];
      return Some(table[id]);
    }

    method RevokeProposal(id: Id, expected: nat) returns (revoked: Option<Proposal>)
      modifies this
      ensures table == Apply(old(table), Revoke(id, expected))
      ensures revoked.Some? <==> Succeeds(old(table), Revoke(id, expected))
      ensures revoked.Some? ==> id in table && revoked.value == table[id]
    {
      if id !in table || table[id].version != expected || table[id].status == Revoked {
        return None;
      }
      table := table[id := table[id].(status := Revoked, version := expected + 1)];
      return Some(table[id]);
    }

    /** Revokes the drafts that are too old and tells how many there were; a second sweep finds none. */
    method TtlSweep(cutoff: int) returns (count: nat)
      modifies this
      ensures table == Apply(old(table), Sweep(cutoff))
      ensures table.Keys == old(table).Keys
      ensures forall id | id in table ::
                var before, after := old(table)[id], table[id];
                if before.status == Draft && before.created < cutoff
                then after == Proposal(Revoked, before.version + 1, before.result, before.created)
                else after == before
      ensures count == |set id | id in old(table) && old(table)[id].status == Draft && old(table)[id].created < cutoff|
      ensures Apply(table, Sweep(cutoff)) == table
    {
      var expired := set id | id in table && Expired(table[id], cutoff);
      count := |expired|;
      assert expired == set id | id in table && table[id].status == Draft && table[id].created < cutoff;
      table := Swept(table, cutoff);
    }
  }

  // -------------------------------------------------------------------------- what runs keep

  /** The status and the result follow from the version, and the version from the status. */
  predicate Sound(p: Proposal)
  {
    && 1 <= p.version <= 3
    && (p.status == Draft <==> p.version == 1)
    && (p.status == Approved ==> p.version == 2)
    && (p.result.Some? <==> p.status == Approved || (p.status == Revoked && p.version == 3))
  }

  lemma {:induction false} RunsAreSound(steps: seq<Step>, n: nat)
    requires n <= |steps|
    ensures forall id | id in Run(map[], steps, n) :: Sound(Run(map[], steps, n)[id])
  {
    if n > 0 {
      RunsAreSound(steps, n - 1);
    }
  }

  /** The step approves the proposal when it is performed as number `i` of the run. */
  predicate ApprovesAt(steps: seq<Step>, i: nat, id: Id)
    requires i < |steps|
  {
    steps[i].Approve? && steps[i].id == id && Succeeds(Run(map[], steps, i), steps[i])
  }

  /**
   A proposal has a result CI exactly when some approval of it succeeded, and then it is the
   one that this approval named.
   */
  lemma {:induction false} ResultIffApproved(steps: seq<Step>, n: nat, id: Id)
    requires n <= |steps| && id in Run(map[], steps, n)
    ensures Run(map[], steps, n)[id].result.Some? <==> exists i :: 0 <= i < n && ApprovesAt(steps, i, id)
    ensures forall i | 0 <= i < n && ApprovesAt(steps, i, id) :: Run(map[], steps, n)[id].result == Some(steps[i].ci)
  {
    if n > 0 {
      var before, last := Run(map[], steps, n - 1), steps[n - 1];
      RunsAreSound(steps, n - 1);
      if id in before {
        ResultIffApproved(steps, n - 1, id);
        if ApprovesAt(steps, n - 1, id) {
          assert before[id].result.None?;
        }
      } else {
        NeverApprovedBefore(steps, n - 1, id);
      }
    }
  }

  lemma {:induction false} RowsStay(steps: seq<Step>, i: nat, n: nat, id: Id)
    requires i <= n <= |steps| && id in Run(map[], steps, i)
    ensures id in Run(map[], steps, n) && Run(map[], steps, i)[id].version <= Run(map[], steps, n)[id].version
  {
    if i < n {
      RowsStay(steps, i, n - 1, id);
    }
  }

  lemma NeverApprovedBefore(steps: seq<Step>, n: nat, id: Id)
    requires n <= |steps| && id !in Run(map[], steps, n)
    ensures forall i | 0 <= i < n :: !ApprovesAt(steps, i, id)
  {
    forall i | 0 <= i < n
      ensures !ApprovesAt(steps, i, id)
    {
      if id in Run(map[], steps, i) {
        RowsStay(steps, i, n, id);
      }
    }
  }

  /** A guarded update of the proposal that expects the version. */
  predicate Writes(step: Step, id: Id, expected: nat)
  {
    (step.Approve? || step.Revoke?) && step.id == id && step.expected == expected
  }

  /** Of all the approvals and revocations that expect one version of a proposal, at most one succeeds in a run. */
  lemma OneWriterPerVersion(steps: seq<Step>, i: nat, j: nat, id: Id, expected: nat)
    requires i < j < |steps| && Writes(steps[i], id, expected) && Writes(steps[j], id, expected)
    requires Succeeds(Run(map[], steps, i), steps[i])
    ensures !Succeeds(Run(map[], steps, j), steps[j])
  {
    assert Run(map[], steps, i + 1)[id].version == expected + 1;
    RowsStay(steps, i + 1, j, id);
  }

  /** Statuses only move forward, and a revoked proposal never changes again. */
  lemma {:induction false} RevokedIsFinal(steps: seq<Step>, i: nat, n: nat, id: Id)
    requires i <= n <= |steps| && id in Run(map[], steps, i) && Run(map[], steps, i)[id].status == Revoked
    ensures id in Run(map[], steps, n) && Run(map[], steps, n)[id] == Run(map[], steps, i)[id]
  {
    if i < n {
      RevokedIsFinal(steps, i, n - 1, id);
    }
  }
}
