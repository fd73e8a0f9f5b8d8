/**
 Which event a row finds, what a refresh makes of it, and why PROPAGATED events stay unique:
 such a row names its origin, and the lookup takes only an event of that origin
 (backend/polling/event_writer.py, backend/engines/snmp_worker.py).
 */
module EventLookup {
  import opened Base
  import opened Envelopes
  import opened EventRows
  import opened EventStore
  import opened EventBatches

  // ------------------------------------------------------------------------- lookup

  predicate IsLive(event: Event)
  {
    event.status == Open || event.status == Ack
  }

  /** Live, or recovered for an engine that goes back to recovered events. */
  predicate IsStanding(engine: Engine, event: Event)
  {
    IsLive(event) || (event.status == Recovered && (engine == LegacyReopening || engine == LegacyRefreshing))
  }

  /** The event is about what the row is about and, if propagated, has every origin that the row names. */
  predicate IsSought(row: StateKey, event: Event)
  {
    && event.about.ci == row.ci && event.about.metric == row.metric
    && event.about.eventType == row.eventType && event.about.correlation == row.correlation
    && (row.correlation == Propagated && row.propagatedFrom.Some? ==>
          event.about.propagatedFrom == row.propagatedFrom)
    && (row.correlation == Propagated && row.rootCauseEvent.Some? ==>
          event.about.rootCauseEvent == row.rootCauseEvent)
    && (row.correlation == Propagated && row.rootCauseCi.Some? ==> event.about.rootCauseCi == row.rootCauseCi)
  }

  ghost predicate SomeStands(engine: Engine, events: map<Id, Event>, row: StateKey)
  {
    exists e :: e in events && IsStanding(engine, events[e]) && IsSought(row, events[e])
  }

  /** The lookup finds an event if and only if there is one, and what it finds is one. */
  lemma LookupExact(engine: Engine, events: map<Id, Event>, rows: seq<StateKey>, found: seq<Option<Id>>)
    ensures FoundIn(engine, events, rows, found) <==>
            && |found| == |rows|
            && forall i | 0 <= i < |rows| ::
              && (found[i].Some? <==> SomeStands(engine, events, rows[i]))
              && (found[i].Some? ==>
                    && found[i].value in events && IsStanding(engine, events[found[i].value])
                    && IsSought(rows[i], events[found[i].value]))
  {
    forall row, e | e in events
      ensures Matches(engine, row, events[e]) <==> IsStanding(engine, events[e]) && IsSought(row, events[e])
    {
    }
  }

  /** Every batch can be looked up in every store. */
  lemma {:induction false} LookupExists(engine: Engine, events: map<Id, Event>, rows: seq<StateKey>)
    ensures exists found :: FoundIn(engine, events, rows, found)
  {
    if rows == [] {
      assert FoundIn(engine, events, rows, []);
    } else {
      var last := |rows| - 1;
      LookupExists(engine, events, rows[..last]);
      var found :| FoundIn(engine, events, rows[..last], found);
      if NoneMatches(engine, events, rows[last]) {
        assert FoundIn(engine, events, rows, found + [None]);
      } else {
        var e :| e in events && Matches(engine, rows[last], events[e]);
        assert FoundIn(engine, events, rows, found + [Some(e)]);
      }
    }
  }

  // ------------------------------------------------------------------------ refresh

  /** A known origin stays; an unknown one is filled in from the first row that offers one. */
  ghost predicate Filled(before: Option<Id>, after: Option<Id>, offers: seq<Option<Id>>)
  {
    && (before.Some? ==> after == before)
    && (before.None? ==> (after.None? <==> forall i | 0 <= i < |offers| :: offers[i].None?))
    && (before.None? && after.Some? ==> exists i :: IsFirstOffer(offers, i) && offers[i] == after)
  }

  ghost predicate IsFirstOffer(offers: seq<Option<Id>>, i: int)
  {
    0 <= i < |offers| && offers[i].Some? && forall j | 0 <= j < i :: offers[j].None?
  }

  lemma FillOne(before: Option<Id>, middle: Option<Id>, after: Option<Id>, offers: seq<Option<Id>>,
      more: seq<Option<Id>>)
    requires Filled(before, middle, offers) && |more| == |offers| + 1 && more[..|offers|] == offers
    requires after == if middle.Some? then middle else more[|offers|]
    ensures Filled(before, after, more)
  {
    forall i | 0 <= i < |offers|
      ensures more[i] == offers[i]
    {
      assert more[i] == more[..|offers|][i];
    }
    if before.None? && middle.Some? {
      var i :| IsFirstOffer(offers, i) && offers[i] == middle;
      assert IsFirstOffer(more, i);
    } else if before.None? && after.Some? {
      assert IsFirstOffer(more, |offers|);
    }
  }

  /** What the first `n` rows offer to event `e`, field by field. */
  function FromOffers(rows: seq<StateKey>, found: seq<Option<Id>>, e: Id, n: nat): seq<Option<Id>>
    requires n <= |rows| == |found|
  {
    seq(n, i requires 0 <= i < n => if found[i] == Some(e) then rows[i].propagatedFrom else None)
  }

  function EventOffers(rows: seq<StateKey>, found: seq<Option<Id>>, e: Id, n: nat): seq<Option<Id>>
    requires n <= |rows| == |found|
  {
    seq(n, i requires 0 <= i < n => if found[i] == Some(e) then rows[i].rootCauseEvent else None)
  }

  function CiOffers(rows: seq<StateKey>, found: seq<Option<Id>>, e: Id, n: nat): seq<Option<Id>>
    requires n <= |rows| == |found|
  {
    seq(n, i requires 0 <= i < n => if found[i] == Some(e) then rows[i].rootCauseCi else None)
  }

  /** One legacy statement names the row's own CI as the root cause. */
  function OwnCiOffers(rows: seq<StateKey>, found: seq<Option<Id>>, e: Id, n: nat): seq<Option<Id>>
    requires n <= |rows| == |found|
  {
    seq(n, i requires 0 <= i < n => if found[i] == Some(e) then Some(rows[i].ci) else None)
  }

  /** What the rows that found an existing event make of it. */
  ghost predicate RefreshResult(engine: Engine, rows: seq<StateKey>, found: seq<Option<Id>>, e: Id, n: nat,
      before: Event, after: Event)
    requires n <= |rows| == |found|
  {
    && after.about.ci == before.about.ci && after.about.metric == before.about.metric
    && after.about.eventType == before.about.eventType && after.about.correlation == before.about.correlation
    && (engine == Pipeline ==>
          && Filled(before.about.propagatedFrom, after.about.propagatedFrom, FromOffers(rows, found, e, n))
          && Filled(before.about.rootCauseEvent, after.about.rootCauseEvent, EventOffers(rows, found, e, n))
          && Filled(before.about.rootCauseCi, after.about.rootCauseCi, CiOffers(rows, found, e, n))
          && after.status == before.status)
    && (engine == LegacyReopening ==>
          && after.about == before.about
          && after.status == (if exists i :: 0 <= i < n && found[i] == Some(e) then Open else before.status))
    && (engine == LegacyRefreshing ==>
          && after.about.propagatedFrom == before.about.propagatedFrom
          && after.about.rootCauseEvent == before.about.rootCauseEvent
          && Filled(before.about.rootCauseCi, after.about.rootCauseCi, OwnCiOffers(rows, found, e, n))
          && after.status == before.status)
  }

  lemma {:induction false} RefreshExact(engine: Engine, events: map<Id, Event>, rows: seq<StateKey>,
      found: seq<Option<Id>>, ids: seq<Id>, n: nat, e: Id)
    requires n <= |rows| == |found| == |ids| && NewIds(events, rows, ids) && e in events
    ensures var after := Written(engine, events, rows, found, ids, n);
            e in after && RefreshResult(engine, rows, found, e, n, events[e], after[e])
  {
    if n != 0 {
      RefreshExact(engine, events, rows, found, ids, n - 1, e);
      var middle := Written(engine, events, rows, found, ids, n - 1)[e];
      var after := Written(engine, events, rows, found, ids, n)[e];
      RefreshOne(engine, rows, found, e, n, events[e], middle, after);
    }
  }

  lemma RefreshOne(engine: Engine, rows: seq<StateKey>, found: seq<Option<Id>>, e: Id, n: nat, before: Event,
      middle: Event, after: Event)
    requires 0 < n <= |rows| == |found| && RefreshResult(engine, rows, found, e, n - 1, before, middle)
    requires after == if found[n - 1] == Some(e) then Refreshed(engine, rows[n - 1], middle) else middle
    ensures RefreshResult(engine, rows, found, e, n, before, after)
  {
    match engine
    case Pipeline =>
      FillOne(before.about.propagatedFrom, middle.about.propagatedFrom, after.about.propagatedFrom,
              FromOffers(rows, found, e, n - 1), FromOffers(rows, found, e, n));
      FillOne(before.about.rootCauseEvent, middle.about.rootCauseEvent, after.about.rootCauseEvent,
              EventOffers(rows, found, e, n - 1), EventOffers(rows, found, e, n));
      FillOne(before.about.rootCauseCi, middle.about.rootCauseCi, after.about.rootCauseCi,
              CiOffers(rows, found, e, n - 1), CiOffers(rows, found, e, n));
    case LegacyReopening =>
    case LegacyRefreshing =>
      FillOne(before.about.rootCauseCi, middle.about.rootCauseCi, after.about.rootCauseCi,
              OwnCiOffers(rows, found, e, n - 1), OwnCiOffers(rows, found, e, n));
  }

  // ------------------------------------------------------------ the same batch again

  /** What the lookup found at the time is still there after the write, and still sought. */
  lemma StillSought(events: map<Id, Event>, rows: seq<StateKey>, found: seq<Option<Id>>, ids: seq<Id>, i: nat)
    requires FoundIn(Pipeline, events, rows, found) && NewIds(events, rows, ids) && i < |rows|
    ensures SomeStands(Pipeline, Written(Pipeline, events, rows, found, ids, |rows|), rows[i])
  {
    var after := Written(Pipeline, events, rows, found, ids, |rows|);
    if found[i].None? {
      CreatedStays(Pipeline, events, rows, found, ids, |rows|, i);
      assert IsStanding(Pipeline, after[ids[i]]) && IsSought(rows[i], after[ids[i]]);
    } else {
      var e := found[i].value;
      OriginsStay(Pipeline, events, rows, found, ids, |rows|, e);
      WrittenExact(Pipeline, events, rows, found, ids, |rows|, e);
      assert IsStanding(Pipeline, after[e]) && IsSought(rows[i], after[e]);
    }
  }

  /**
   The pipeline writes a batch of any rows a second time: every row finds an event, none is
   created, and no status changes.
   */
  lemma SecondWriteCreatesNothing(events: map<Id, Event>, rows: seq<StateKey>, found: seq<Option<Id>>, ids: seq<Id>,
      again: seq<Option<Id>>, more: seq<Id>)
    requires FoundIn(Pipeline, events, rows, found) && NewIds(events, rows, ids)
    requires var after := Written(Pipeline, events, rows, found, ids, |rows|);
             FoundIn(Pipeline, after, rows, again) && NewIds(after, rows, more)
    ensures forall i | 0 <= i < |rows| :: again[i].Some?
    ensures var after := Written(Pipeline, events, rows, found, ids, |rows|);
            var second := Written(Pipeline, after, rows, again, more, |rows|);
            second.Keys == after.Keys && forall e | e in after :: second[e].status == after[e].status
  {
    var after := Written(Pipeline, events, rows, found, ids, |rows|);
    var second := Written(Pipeline, after, rows, again, more, |rows|);
    LookupExact(Pipeline, after, rows, again);
    forall i | 0 <= i < |rows|
      ensures again[i].Some?
    {
      StillSought(events, rows, found, ids, i);
    }
    WrittenKeeps(Pipeline, after, rows, again, more, |rows|);
    forall e | e in second
      ensures e in after && second[e].status == after[e].status
    {
      WrittenExact(Pipeline, after, rows, again, more, |rows|, e);
    }
  }

  // -------------------------------------------------------- one event for each state key

  predicate IsCopy(event: Event, row: StateKey)
  {
    IsLive(event) && event.about == row
  }

  /** No two live PROPAGATED events have the same state key. */
  ghost predicate OneEach(events: map<Id, Event>)
  {
    forall d, e | d in events && e in events && d != e && events[d].about.correlation == Propagated
        && IsLive(events[d]) ::
      !IsCopy(events[e], events[d].about)
  }

  ghost predicate NoCopy(events: map<Id, Event>, row: StateKey)
  {
    forall e | e in events :: !IsCopy(events[e], row)
  }

  /** No two PROPAGATED rows of the batch are equal. */
  ghost predicate RowsDiffer(rows: seq<StateKey>)
  {
    forall i, j | 0 <= i < j < |rows| && rows[i].correlation == Propagated :: rows[i] != rows[j]
  }

  /** Of what a de-duplicated batch leaves for the statement, no two rows are equal. */
  lemma PreparedRowsDiffer(rows: seq<EventRow>)
    ensures forall row | row in Opening(LatestRows(rows)) :: Targets(row)
    ensures RowsDiffer(BreachKeys(rows))
  {
    BreachesTarget(rows);
    forall i: nat, j: nat | i < j < |BreachKeys(rows)|
      ensures BreachKeys(rows)[i] != BreachKeys(rows)[j]
    {
      BreachKeysDiffer(rows, i, j);
    }
  }

  /** The events that PROPAGATED rows found are of the origins that these name. */
  ghost predicate Agreeing(events: map<Id, Event>, rows: seq<StateKey>, found: seq<Option<Id>>)
  {
    && Fitting(events, rows, found)
    && (forall i | 0 <= i < |rows| && rows[i].correlation == Propagated && found[i].Some? ::
          IsSought(rows[i], events[found[i].value]))
  }

  /** And for those that found none there is none. */
  ghost predicate Informed(events: map<Id, Event>, rows: seq<StateKey>, found: seq<Option<Id>>)
  {
    && Agreeing(events, rows, found)
    && (forall i | 0 <= i < |rows| && rows[i].correlation == Propagated && found[i].None? ::
          NoCopy(events, rows[i]))
  }

  lemma LookupInforms(events: map<Id, Event>, rows: seq<StateKey>, found: seq<Option<Id>>)
    requires FoundIn(Pipeline, events, rows, found)
    ensures Informed(events, rows, found)
  {
    LookupExact(Pipeline, events, rows, found);
    forall i | 0 <= i < |rows| && found[i].None?
      ensures NoCopy(events, rows[i])
    {
      forall e | e in events
        ensures IsCopy(events[e], rows[i]) ==> IsStanding(Pipeline, events[e]) && IsSought(rows[i], events[e])
      {
      }
    }
  }

  /** A refresh by the pipeline changes nothing that a PROPAGATED event is about: the row names what the event has. */
  lemma {:induction false} PropagatedStays(events: map<Id, Event>, rows: seq<StateKey>, found: seq<Option<Id>>,
      ids: seq<Id>, n: nat, e: Id)
    requires n <= |rows| == |found| == |ids| && NewIds(events, rows, ids) && Agreeing(events, rows, found)
    requires e in events && events[e].about.correlation == Propagated
    ensures var after := Written(Pipeline, events, rows, found, ids, n); e in after && after[e] == events[e]
  {
    if n != 0 {
      PropagatedStays(events, rows, found, ids, n - 1, e);
      if found[n - 1] == Some(e) {
        assert rows[n - 1].correlation == Propagated && IsSought(rows[n - 1], events[e]);
      }
    }
  }

  /** A new live PROPAGATED event comes from a row that is its state key and found none. */
  lemma NewCopy(events: map<Id, Event>, rows: seq<StateKey>, found: seq<Option<Id>>, ids: seq<Id>, e: Id)
      returns (i: nat)
    requires NewIds(events, rows, ids) && Informed(events, rows, found)
    requires e in Written(Pipeline, events, rows, found, ids, |rows|) && e !in events
    ensures i < |rows| && found[i].None? && ids[i] == e
    ensures Written(Pipeline, events, rows, found, ids, |rows|)[e] == Event(rows[i], Open)
  {
    WrittenExact(Pipeline, events, rows, found, ids, |rows|, e);
    i :| CreatedBy(found, ids, |rows|, e, i)
        && Written(Pipeline, events, rows, found, ids, |rows|)[e] == Event(rows[i], Open);
  }

  /** Two equal PROPAGATED rows that both create an event. */
  ghost predicate CreatesCopies(rows: seq<StateKey>, found: seq<Option<Id>>)
    requires |rows| == |found|
  {
    exists i, j :: 0 <= i < j < |rows| && rows[i].correlation == Propagated && rows[i] == rows[j]
                   && found[i].None? && found[j].None?
  }

  lemma WriteKeepsOneEach(events: map<Id, Event>, rows: seq<StateKey>, found: seq<Option<Id>>, ids: seq<Id>)
    requires OneEach(events) && Informed(events, rows, found) && NewIds(events, rows, ids)
             && !CreatesCopies(rows, found)
    ensures OneEach(Written(Pipeline, events, rows, found, ids, |rows|))
  {
    var after := Written(Pipeline, events, rows, found, ids, |rows|);
    forall d, e | d in after && e in after && after[d].about.correlation == Propagated && IsLive(after[d])
        && IsCopy(after[e], after[d].about)
      ensures d == e
    {
      if d in events && e in events {
        OldCopies(events, rows, found, ids, d, e);
      } else if d in events {
        OldAndNewCopy(events, rows, found, ids, d, e);
      } else if e in events {
        OldAndNewCopy(events, rows, found, ids, e, d);
      } else {
        var i := NewCopy(events, rows, found, ids, d);
        var j := NewCopy(events, rows, found, ids, e);
        assert i < j || i == j || j < i;
      }
    }
  }

  lemma OldCopies(events: map<Id, Event>, rows: seq<StateKey>, found: seq<Option<Id>>, ids: seq<Id>, d: Id, e: Id)
    requires OneEach(events) && Informed(events, rows, found) && NewIds(events, rows, ids)
    requires d in events && e in events
    requires var after := Written(Pipeline, events, rows, found, ids, |rows|);
             d in after && e in after && after[d].about.correlation == Propagated && IsLive(after[d])
             && IsCopy(after[e], after[d].about)
    ensures d == e
  {
    WrittenExact(Pipeline, events, rows, found, ids, |rows|, d);
    WrittenExact(Pipeline, events, rows, found, ids, |rows|, e);
    PropagatedStays(events, rows, found, ids, |rows|, d);
    PropagatedStays(events, rows, found, ids, |rows|, e);
  }

  /** An old live event and a new one are never about the same. */
  lemma OldAndNewCopy(events: map<Id, Event>, rows: seq<StateKey>, found: seq<Option<Id>>, ids: seq<Id>, d: Id, e: Id)
    requires Informed(events, rows, found) && NewIds(events, rows, ids) && d in events && e !in events
    ensures var after := Written(Pipeline, events, rows, found, ids, |rows|);
            d in after && e in after && after[e].about.correlation == Propagated ==> !IsCopy(after[d], after[e].about)
  {
    var after := Written(Pipeline, events, rows, found, ids, |rows|);
    if d in after && e in after && after[e].about.correlation == Propagated {
      var i := NewCopy(events, rows, found, ids, e);
      WrittenExact(Pipeline, events, rows, found, ids, |rows|, d);
      assert NoCopy(events, rows[i]);
      if events[d].about.correlation == Propagated {
        PropagatedStays(events, rows, found, ids, |rows|, d);
      }
    }
  }

  /** One statement keeps the PROPAGATED events unique if and only if no two equal rows create one. */
  lemma PropagatedUniqueIff(events: map<Id, Event>, rows: seq<StateKey>, found: seq<Option<Id>>, ids: seq<Id>)
    requires OneEach(events) && FoundIn(Pipeline, events, rows, found) && NewIds(events, rows, ids)
    ensures OneEach(Written(Pipeline, events, rows, found, ids, |rows|)) <==> !CreatesCopies(rows, found)
  {
    LookupInforms(events, rows, found);
    if CreatesCopies(rows, found) {
      var i, j :| 0 <= i < j < |rows| && rows[i].correlation == Propagated && rows[i] == rows[j]
                  && found[i].None? && found[j].None?;
      CreatedStays(Pipeline, events, rows, found, ids, |rows|, i);
      CreatedStays(Pipeline, events, rows, found, ids, |rows|, j);
      var after := Written(Pipeline, events, rows, found, ids, |rows|);
      assert IsLive(after[ids[i]]) && IsCopy(after[ids[j]], after[ids[i]].about);
    } else {
      WriteKeepsOneEach(events, rows, found, ids);
    }
  }

  /**
   A PROPAGATED row that found nothing has exactly one live event of its state key from then
   on, also after the same batch is written a second time.
   */
  lemma OneEventForTheKey(events: map<Id, Event>, rows: seq<StateKey>, found: seq<Option<Id>>, ids: seq<Id>,
      again: seq<Option<Id>>, more: seq<Id>, i: nat)
    requires OneEach(events) && RowsDiffer(rows)
    requires FoundIn(Pipeline, events, rows, found) && NewIds(events, rows, ids)
    requires var after := Written(Pipeline, events, rows, found, ids, |rows|);
             FoundIn(Pipeline, after, rows, again) && NewIds(after, rows, more)
    requires i < |rows| && rows[i].correlation == Propagated && found[i].None?
    ensures var after := Written(Pipeline, events, rows, found, ids, |rows|);
            var second := Written(Pipeline, after, rows, again, more, |rows|);
            forall e :: e in second && IsCopy(second[e], rows[i]) <==> e == ids[i]
  {
    var after := Written(Pipeline, events, rows, found, ids, |rows|);
    PropagatedUniqueIff(events, rows, found, ids);
    CreatedStays(Pipeline, events, rows, found, ids, |rows|, i);
    SecondWriteCreatesNothing(events, rows, found, ids, again, more);
    LookupInforms(after, rows, again);
    WriteKeepsOneEach(after, rows, again, more);
    PropagatedStays(after, rows, again, more, |rows|, ids[i]);
  }

  // --------------------------------------------------------------------- over whole runs

  /** What a writer knows of the PROPAGATED events at its places while it holds their locks. */
  ghost predicate Knows(u: Setup, events: map<Id, Event>, at: Batch)
  {
    && (at.Locking? || at.Matched? ==> RowsDiffer(at.rows))
    && (at.Matched? ==>
          && Informed(events, at.rows, at.found)
          && forall i | 0 <= i < |at.rows| :: u.lockKey(PlaceOf(at.rows[i])) in at.held)
  }

  ghost predicate AllKnow(u: Setup, s: State)
  {
    forall w | w in s.writers :: Knows(u, s.events, s.writers[w])
  }

  ghost predicate Sound(u: Setup, s: State)
  {
    OneEach(s.events) && LocksExclusive(s) && AllKnow(u, s)
  }

  /** No other live event has the key of the acknowledged one, and no writer is about to create one. */
  ghost predicate AloneWithKey(s: State, e: Id)
    requires e in s.events
  {
    s.events[e].about.correlation == Propagated ==>
      && (forall d | d in s.events && d != e :: !IsCopy(s.events[d], s.events[e].about))
      && (forall w | w in s.writers && s.writers[w].Matched? :: !IsCreating(s.writers[w], s.events[e].about))
  }

  ghost predicate IsCreating(at: Batch, row: StateKey)
    requires at.Matched?
  {
    |at.rows| == |at.found| && exists i :: 0 <= i < |at.rows| && at.rows[i] == row && at.found[i].None?
  }

  /** Batches come de-duplicated, and acknowledgements do not bring a second event of a key to life. */
  ghost predicate Orderly(s: State, step: Step)
  {
    match step
    case Begin(_, rows) => RowsDiffer(rows)
    case Acknowledge(e) => e in s.events ==> AloneWithKey(s, e)
    case _ => true
  }

  ghost predicate AllOrderly(u: Setup, s: State, steps: seq<Step>)
    decreases |steps|
  {
    steps == [] || (Orderly(s, steps[0])
        && (Enabled(u, s, steps[0]) ==> AllOrderly(u, Apply(u, s, steps[0]), steps[1..])))
  }

  lemma OwnWriteKeepsOneEach(u: Setup, s: State, w: WriterId, ids: seq<Id>)
    requires u.engine == Pipeline && Enabled(u, s, Write(w, ids)) && Sound(u, s)
    ensures OneEach(Apply(u, s, Write(w, ids)).events)
  {
    var at := s.writers[w];
    assert Knows(u, s.events, at);
    WriteKeepsOneEach(s.events, at.rows, at.found, ids);
  }

  /** What another writer knows stays true: it holds the lock of every place that it asked about. */
  lemma WriteKeepsKnowledge(u: Setup, s: State, w: WriterId, ids: seq<Id>, v: WriterId)
    requires u.engine == Pipeline && Enabled(u, s, Write(w, ids)) && Sound(u, s) && v in s.writers && v != w
    ensures Knows(u, Apply(u, s, Write(w, ids)).events, s.writers[v])
  {
    var at, other := s.writers[w], s.writers[v];
    var after := Apply(u, s, Write(w, ids)).events;
    assert Knows(u, s.events, at) && Knows(u, s.events, other);
    if other.Matched? {
      WriteKeepsFitting(u.engine, s.events, at, ids, other.rows, other.found);
      forall i | 0 <= i < |other.rows| && other.rows[i].correlation == Propagated && other.found[i].Some?
        ensures IsSought(other.rows[i], after[other.found[i].value])
      {
        PropagatedStays(s.events, at.rows, at.found, ids, |at.rows|, other.found[i].value);
      }
      forall i | 0 <= i < |other.rows| && other.rows[i].correlation == Propagated && other.found[i].None?
        ensures NoCopy(after, other.rows[i])
      {
        NoCopyElsewhere(u, s, w, ids, other.rows[i]);
      }
    }
  }

  /** A write creates nothing about a place whose lock the writer does not hold. */
  lemma NoCopyElsewhere(u: Setup, s: State, w: WriterId, ids: seq<Id>, row: StateKey)
    requires u.engine == Pipeline && Enabled(u, s, Write(w, ids)) && Knows(u, s.events, s.writers[w])
    requires row.correlation == Propagated && NoCopy(s.events, row)
             && u.lockKey(PlaceOf(row)) !in s.writers[w].held
    ensures NoCopy(Apply(u, s, Write(w, ids)).events, row)
  {
    var at := s.writers[w];
    var after := Apply(u, s, Write(w, ids)).events;
    forall e | e in after
      ensures !IsCopy(after[e], row)
    {
      if e in s.events {
        WrittenExact(Pipeline, s.events, at.rows, at.found, ids, |at.rows|, e);
        if s.events[e].about.correlation == Propagated {
          PropagatedStays(s.events, at.rows, at.found, ids, |at.rows|, e);
        }
      } else {
        var i := NewCopy(s.events, at.rows, at.found, ids, e);
        assert u.lockKey(PlaceOf(at.rows[i])) in at.held;
      }
    }
  }

  lemma MatchKnows(u: Setup, s: State, w: WriterId, found: seq<Option<Id>>)
    requires u.engine == Pipeline && u.locking && Enabled(u, s, Match(w, found)) && Sound(u, s)
    ensures Knows(u, s.events, Apply(u, s, Match(w, found)).writers[w])
  {
    var rows := s.writers[w].rows;
    assert Knows(u, s.events, s.writers[w]);
    LookupInforms(s.events, rows, found);
    forall i | 0 <= i < |rows|
      ensures u.lockKey(PlaceOf(rows[i])) in s.writers[w].held
    {
      assert rows[i] in rows;
    }
  }

  /**
   A change of one event's status leaves what is known true, unless it brings a key to life
   that some row is to create.
   */
  lemma StatusKeepsKnowledge(u: Setup, events: map<Id, Event>, e: Id, status: EventStatus, at: Batch)
    requires e in events && Knows(u, events, at)
    requires status == Ack && at.Matched? && events[e].about.correlation == Propagated ==>
               !IsCreating(at, events[e].about)
    requires status in {Recovered, Closed, Ack}
    ensures Knows(u, WithStatus(events, e, status), at)
  {
    if at.Matched? {
      forall i | 0 <= i < |at.rows| && at.rows[i].correlation == Propagated && at.found[i].None?
        ensures NoCopy(WithStatus(events, e, status), at.rows[i])
      {
        assert NoCopy(events, at.rows[i]);
      }
    }
  }

  lemma StepKeepsSound(u: Setup, s: State, step: Step)
    requires u.engine == Pipeline && u.locking && Enabled(u, s, step) && Orderly(s, step) && Sound(u, s)
    ensures Sound(u, Apply(u, s, step))
  {
    match step
    case Begin(w, rows) =>
    case Lock(w, key) =>
    case Match(w, found) => MatchKnows(u, s, w, found);
    case Write(w, ids) =>
      OwnWriteKeepsOneEach(u, s, w, ids);
      forall v | v in s.writers && v != w
        ensures Knows(u, Apply(u, s, step).events, s.writers[v])
      {
        WriteKeepsKnowledge(u, s, w, ids, v);
      }
    case Release(w) =>
    case Recover(e) => StatusKeepsSound(u, s, step, e, Recovered);
    case Close(e) => StatusKeepsSound(u, s, step, e, Closed);
    case Acknowledge(e) => StatusKeepsSound(u, s, step, e, Ack);
  }

  lemma StatusKeepsSound(u: Setup, s: State, step: Step, e: Id, status: EventStatus)
    requires step in {Recover(e), Close(e), Acknowledge(e)} && Enabled(u, s, step) && Orderly(s, step) && Sound(u, s)
    requires Apply(u, s, step) == State(WithStatus(s.events, e, status), s.writers)
    requires status == Recovered || status == Closed || (status == Ack && step == Acknowledge(e))
    ensures Sound(u, Apply(u, s, step))
  {
    forall v | v in s.writers
      ensures Knows(u, WithStatus(s.events, e, status), s.writers[v])
    {
      StatusKeepsKnowledge(u, s.events, e, status, s.writers[v]);
    }
  }

  lemma {:induction false} RunsKeepSound(u: Setup, s: State, steps: seq<Step>, t: State)
    requires u.engine == Pipeline && u.locking && Leads(u, s, steps, t) && AllOrderly(u, s, steps) && Sound(u, s)
    ensures Sound(u, t)
    decreases |steps|
  {
    if steps != [] {
      StepKeepsSound(u, s, steps[0]);
      RunsKeepSound(u, Apply(u, s, steps[0]), steps[1..], t);
    }
  }

  /**
   In every run of any number of locking pipeline writers with de-duplicated batches, whatever
   is recovered or closed in between, and with acknowledgements that bring no second event of
   a key to life, two live PROPAGATED events differ in their state key.
   */
  lemma PropagatedEventsStayUnique(u: Setup, steps: seq<Step>, t: State, d: Id, e: Id)
    requires u.engine == Pipeline && u.locking && Leads(u, EMPTY, steps, t) && AllOrderly(u, EMPTY, steps)
    requires d in t.events && e in t.events && t.events[d].about == t.events[e].about
    requires t.events[d].about.correlation == Propagated
    requires t.events[d].status in {Open, Ack} && t.events[e].status in {Open, Ack}
    ensures d == e
  {
    RunsKeepSound(u, EMPTY, steps, t);
  }

  lemma OvertakenWriteMakesCopy(u: Setup, s: State, e: Id, w: WriterId) returns (ids: seq<Id>)
    requires u.engine == Pipeline && Sound(u, s) && e in s.events && s.events[e].about.correlation == Propagated
    requires w in s.writers && s.writers[w].Matched? && IsCreating(s.writers[w], s.events[e].about)
    ensures Enabled(u, Apply(u, s, Acknowledge(e)), Write(w, ids))
    ensures !OneEach(Apply(u, Apply(u, s, Acknowledge(e)), Write(w, ids)).events)
  {
    var at := s.writers[w];
    var events := WithStatus(s.events, e, Ack);
    assert Knows(u, s.events, at);
    ids := EnoughIds(events.Keys, |at.rows|);
    var i :| 0 <= i < |at.rows| && at.rows[i] == s.events[e].about && at.found[i].None?;
    CreatedStays(Pipeline, events, at.rows, at.found, ids, |at.rows|, i);
    PropagatedStays(events, at.rows, at.found, ids, |at.rows|, e);
    var after := Written(Pipeline, events, at.rows, at.found, ids, |at.rows|);
    assert IsLive(after[e]) && IsCopy(after[ids[i]], after[e].about);
  }

  /**
   The condition on acknowledgements is exact: whatever happens next in good order, the
   PROPAGATED events stay unique if and only if it was met.
   */
  lemma AcknowledgementOrderlyIff(u: Setup, s: State, e: Id)
    requires u.engine == Pipeline && u.locking && Sound(u, s) && e in s.events
    ensures AloneWithKey(s, e) <==>
            forall steps, t | Leads(u, Apply(u, s, Acknowledge(e)), steps, t)
                && AllOrderly(u, Apply(u, s, Acknowledge(e)), steps) ::
              OneEach(t.events)
  {
    var after := Apply(u, s, Acknowledge(e));
    if AloneWithKey(s, e) {
      StepKeepsSound(u, s, Acknowledge(e));
      forall steps, t | Leads(u, after, steps, t) && AllOrderly(u, after, steps)
        ensures OneEach(t.events)
      {
        RunsKeepSound(u, after, steps, t);
      }
    } else {
      CrowdedBreaks(u, s, e);
    }
  }

  lemma CrowdedBreaks(u: Setup, s: State, e: Id)
    requires u.engine == Pipeline && u.locking && Sound(u, s) && e in s.events && !AloneWithKey(s, e)
    ensures exists steps, t ::
              Leads(u, Apply(u, s, Acknowledge(e)), steps, t) && AllOrderly(u, Apply(u, s, Acknowledge(e)), steps)
                  && !OneEach(t.events)
  {
    var after := Apply(u, s, Acknowledge(e));
    if d :| d in s.events && d != e && IsCopy(s.events[d], s.events[e].about) {
      assert IsLive(after.events[e]) && IsCopy(after.events[d], after.events[e].about) && !OneEach(after.events);
      assert Leads(u, after, [], after) && AllOrderly(u, after, []);
    } else {
      var w :| w in s.writers && s.writers[w].Matched? && IsCreating(s.writers[w], s.events[e].about);
      var ids := OvertakenWriteMakesCopy(u, s, e, w);
      var t := Apply(u, after, Write(w, ids));
      assert Leads(u, t, [], t) && AllOrderly(u, t, []);
      Before(u, after, Write(w, ids), [], t);
      var steps := [Write(w, ids)] + [];
      assert steps[1..] == [];
      assert AllOrderly(u, after, steps);
    }
  }

  /** Acknowledging an event that is live is always in order. */
  lemma LiveIsAlone(u: Setup, s: State, e: Id)
    requires Sound(u, s) && e in s.events && s.events[e].status in {Open, Ack}
    ensures Orderly(s, Acknowledge(e))
  {
    forall w | w in s.writers && s.writers[w].Matched? && s.events[e].about.correlation == Propagated
      ensures !IsCreating(s.writers[w], s.events[e].about)
    {
      assert Knows(u, s.events, s.writers[w]);
    }
  }
}
