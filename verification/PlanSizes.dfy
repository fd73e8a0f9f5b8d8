/** How many samples a storage plan holds, and how many remain when they form a set. */
module PlanSizes {
  import opened Base

  predicate Distinct<T(==)>(rows: seq<T>)
  {
    forall i, j | 0 <= i < j < |rows| :: rows[i] != rows[j]
  }

  function Elems<T>(rows: seq<T>): set<T>
  {
    set r | r in rows
  }

  lemma {:induction false} DistinctCount<T>(rows: seq<T>)
    requires Distinct(rows)
    ensures |Elems(rows)| == |rows|
  {
    if rows == [] {
      assert Elems(rows) == {};
    } else {
      var last := |rows| - 1;
      DistinctCount(rows[..last]);
      assert Elems(rows) == Elems(rows[..last]) + {rows[last]};
      assert rows[last] !in Elems(rows[..last]);
    }
  }

  /** The first `i` rows, and the others. */
  function Upto(rows: seq<Id>, i: nat): set<Id>
    requires i <= |rows|
  {
    set j | 0 <= j < i :: rows[j]
  }

  function From(rows: seq<Id>, i: nat): set<Id>
    requires i <= |rows|
  {
    set j | i <= j < |rows| :: rows[j]
  }

  lemma Ends(rows: seq<Id>)
    ensures Upto(rows, 0) == From(rows, |rows|) == Elems<Id>([]) == {}
    ensures Upto(rows, |rows|) == From(rows, 0) == Elems(rows)
  {
  }

  /** The rows still to come lose the one just handled. */
  lemma HandleOne(rows: seq<Id>, i: nat)
    requires Distinct(rows) && i < |rows|
    ensures rows[i] in From(rows, i) && From(rows, i) - {rows[i]} == From(rows, i + 1)
    ensures rows[i] !in Upto(rows, i) && Upto(rows, i) + {rows[i]} == Upto(rows, i + 1)
  {
  }

  /** The rows that are in the set, in their order. */
  function Only(rows: seq<Id>, ids: set<Id>): seq<Id>
  {
    if rows == [] then []
    else
      var last := |rows| - 1;
      Only(rows[..last], ids) + (if rows[last] in ids then [rows[last]] else [])
  }

  lemma {:induction false} OnlyExact(rows: seq<Id>, ids: set<Id>)
    ensures forall r :: r in Only(rows, ids) <==> r in rows && r in ids
    ensures Distinct(rows) ==> Distinct(Only(rows, ids))
  {
    if rows != [] {
      var last := |rows| - 1;
      OnlyExact(rows[..last], ids);
      assert rows == rows[..last] + [rows[last]];
    }
  }

  /** The number of things that the plan holds for the first `n` rows. */
  function Total<T>(plan: map<Id, seq<T>>, rows: seq<Id>, n: nat): nat
    requires n <= |rows| && forall r | r in rows :: r in plan
  {
    if n == 0 then 0 else Total(plan, rows, n - 1) + |plan[rows[n - 1]]|
  }

  function Stored<T>(plan: map<Id, seq<T>>, ids: set<Id>): set<T>
  {
    set r, x | r in ids && r in plan && x in plan[r] :: x
  }

  /** No two places of the plan hold the same thing. */
  predicate AllDiffer<T(==)>(plan: map<Id, seq<T>>)
  {
    forall r, q, i, j | r in plan && q in plan && 0 <= i < |plan[r]| && 0 <= j < |plan[q]| && (r != q || i != j) ::
      plan[r][i] != plan[q][j]
  }

  lemma StoredOneMore<T>(plan: map<Id, seq<T>>, r: Id, ids: set<Id>)
    requires AllDiffer(plan) && r in plan && r !in ids
    ensures Stored(plan, ids + {r}) == Stored(plan, ids) + Elems(plan[r])
    ensures Stored(plan, ids) !! Elems(plan[r])
    ensures Distinct(plan[r])
  {
    forall x | x in Stored(plan, ids)
      ensures x !in plan[r]
    {
      var q :| q in ids && q in plan && x in plan[q];
      var i :| 0 <= i < |plan[q]| && plan[q][i] == x;
      assert forall j | 0 <= j < |plan[r]| :: plan[q][i] != plan[r][j];
    }
  }

  lemma StoredCount<T>(plan: map<Id, seq<T>>, r: Id, ids: set<Id>)
    requires AllDiffer(plan) && r in plan && r !in ids
    ensures |Stored(plan, ids + {r})| == |Stored(plan, ids)| + |plan[r]|
  {
    StoredOneMore(plan, r, ids);
    DistinctCount(plan[r]);
  }

  /** A plan whose things are pairwise different loses none of them to the set. */
  lemma {:induction false} NothingCollapses<T>(plan: map<Id, seq<T>>, rows: seq<Id>, n: nat)
    requires AllDiffer(plan) && Distinct(rows) && n <= |rows| && forall r | r in rows :: r in plan
    ensures |Stored(plan, Upto(rows, n))| == Total(plan, rows, n)
  {
    if n == 0 {
      assert Stored(plan, Upto(rows, 0)) == {};
    } else {
      HandleOne(rows, n - 1);
      NothingCollapses(plan, rows, n - 1);
      StoredCount(plan, rows[n - 1], Upto(rows, n - 1));
    }
  }

  /** The plan that a given way to build the things of a row yields. */
  function PlanOf<T>(build: Id -> seq<T>, ids: set<Id>): map<Id, seq<T>>
  {
    map r | r in ids :: build(r)
  }

  method BuildPlan<T>(rows: seq<Id>, build: Id -> seq<T>) returns (plan: map<Id, seq<T>>, count: nat)
    ensures plan == PlanOf(build, Elems(rows)) && count == Total(plan, rows, |rows|)
  {
    ghost var whole := PlanOf(build, Elems(rows));
    plan, count := map[], 0;
    Ends(rows);
    var i := 0;
    while i < |rows|
      invariant 0 <= i <= |rows|
      invariant plan == PlanOf(build, Upto(rows, i))
      invariant count == Total(whole, rows, i)
    {
      assert Upto(rows, i + 1) == Upto(rows, i) + {rows[i]};
      var things := build(rows[i]);
      plan, count := plan[rows[i] := things], count + |things|;
      i := i + 1;
    }
  }
}
