/**
 The "existing or create" statements that open events, run by any number of
 concurrent writers (backend/polling/event_writer.py, backend/engines/snmp_worker.py).
 A statement first looks for an existing event for each of its rows and then
 creates or refreshes; other writers, recoveries and operators may act in between
 (backend/services/event_service.py).
 */
module EventStore {
  import opened Base
  import opened Envelopes
  import opened EventRows

  datatype EventStatus = Open | Ack | Recovered | Closed

  /** What an event is about: the state key of the row that opened it. */
  datatype Event = Event(about: StateKey, status: EventStatus)

  /** The three ways in which the engines treat an existing event. */
  datatype Engine = Pipeline | LegacyReopening | LegacyRefreshing

  /** The advisory lock and the uniqueness of events are per place. */
  datatype Place = Place(ci: Id, metric: Metric, eventType: EventType)

  function PlaceOf(about: StateKey): Place
  {
    Place(about.ci, about.metric, about.eventType)
  }

  /** The legacy engine also takes a recovered event for an existing one. */
  predicate Considered(engine: Engine, status: EventStatus)
  {
    status in {Open, Ack} || (engine != Pipeline && status == Recovered)
  }

  predicate Fits(wanted: Option<Id>, actual: Option<Id>)
  {
    wanted.None? || wanted == actual
  }

  /** The event that a row looks for. */
  predicate Matches(engine: Engine, row: StateKey, event: Event)
  {
    && Considered(engine, event.status) && PlaceOf(event.about) == PlaceOf(row)
        && event.about.correlation == row.correlation
    && (row.correlation == Propagated ==>
          && Fits(row.propagatedFrom, event.about.propagatedFrom)
          && Fits(row.rootCauseEvent, event.about.rootCauseEvent)
          && Fits(row.rootCauseCi, event.about.rootCauseCi))
  }

  /**
   What a write does to an existing event. The pipeline fills in what the event did not
   know; of the legacy statements one reopens the event and the other names a root cause.
   */
  function Refreshed(engine: Engine, row: StateKey, event: Event): Event
  {
    match engine
    case Pipeline =>
      Event(event.about.(propagatedFrom := Coalesce(event.about.propagatedFrom, row.propagatedFrom),
                         rootCauseEvent := Coalesce(event.about.rootCauseEvent, row.rootCauseEvent),
                         rootCauseCi := Coalesce(event.about.rootCauseCi, row.rootCauseCi)),
            event.status)
    case LegacyReopening => Event(event.about, Open)
    case LegacyRefreshing =>
        Event(event.about.(rootCauseCi := Coalesce(event.about.rootCauseCi, Some(row.ci))), event.status)
  }

  type WriterId = nat
  type Key = int

  datatype Batch =
    | Locking(rows: seq<StateKey>, held: set<Key>)
    | Matched(rows: seq<StateKey>, held: set<Key>, found: seq<Option<Id>>)
    | Done(held: set<Key>)

  datatype State = State(events: map<Id, Event>, writers: map<WriterId, Batch>)

  datatype Step =
    | Begin(w: WriterId, rows: seq<StateKey>)
    | Lock(w: WriterId, key: Key)
    | Match(w: WriterId, found: seq<Option<Id>>)
    | Write(w: WriterId, ids: seq<Id>)
    | Release(w: WriterId)
    | Recover(e: Id)
    | Close(e: Id)
    | Acknowledge(e: Id)

  // ------------------------------------------------------------------- one statement

  /** For each row some existing event, or none because there is none. */
  ghost predicate FoundIn(engine: Engine, events: map<Id, Event>, rows: seq<StateKey>, found: seq<Option<Id>>)
  {
    && |found| == |rows|
    && forall i | 0 <= i < |rows| ::
         if found[i].Some? then found[i].value in events && Matches(engine, rows[i], events[found[i].value])
         else NoneMatches(engine, events, rows[i])
  }

  ghost predicate NoneMatches(engine: Engine, events: map<Id, Event>, row: StateKey)
  {
    forall e | e in events :: !Matches(engine, row, events[e])
  }

  /** New identifiers for the rows that create an event. */
  ghost predicate NewIds(events: map<Id, Event>, rows: seq<StateKey>, ids: seq<Id>)
  {
    && |ids| == |rows|
    && (forall i | 0 <= i < |ids| :: ids[i] !in events)
    && (forall i, j | 0 <= i < j < |ids| :: ids[i] != ids[j])
  }

  /** The store after the first `n` rows. */
  function Written(engine: Engine, events: map<Id, Event>, rows: seq<StateKey>, found: seq<Option<Id>>, ids: seq<Id>,
      n: nat): map<Id, Event>
    requires n <= |rows| == |found| == |ids|
  {
    if n == 0 then events
    else
      var before := Written(engine, events, rows, found, ids, n - 1);
      var row := rows[n - 1];
      if found[n - 1].None? then before[ids[n - 1] := Event(row, Open)]
      else if found[n - 1].value in before then
        before[found[n - 1].value := Refreshed(engine, row, before[found[n - 1].value])]
      else before
  }

  predicate CreatedBy(found: seq<Option<Id>>, ids: seq<Id>, n: nat, e: Id, i: int)
    requires n <= |found| == |ids|
  {
    0 <= i < n && found[i].None? && ids[i] == e
  }

  predicate RefreshedBy(found: seq<Option<Id>>, n: nat, e: Id, i: int)
    requires n <= |found|
  {
    0 <= i < n && found[i] == Some(e)
  }

  predicate SamePlace(a: Event, b: Event)
  {
    PlaceOf(a.about) == PlaceOf(b.about) && a.about.correlation == b.about.correlation
  }

  /** What a written store holds: created events, and old events that kept their place. */
  lemma {:induction false} WrittenExact(engine: Engine, events: map<Id, Event>, rows: seq<StateKey>,
      found: seq<Option<Id>>, ids: seq<Id>, n: nat, e: Id)
    requires n <= |rows| == |found| == |ids| && NewIds(events, rows, ids)
    requires forall i | 0 <= i < |found| && found[i].Some? :: found[i].value !in ids
    requires e in Written(engine, events, rows, found, ids, n)
    ensures var after := Written(engine, events, rows, found, ids, n);
            if e in events
            then SamePlace(after[e], events[e]) && (after[e].status == events[e].status
              || (engine == LegacyReopening && after[e].status == Open && exists i :: RefreshedBy(found, n, e, i)))
            else exists i :: CreatedBy(found, ids, n, e, i) && after[e] == Event(rows[i], Open)
  {
    if n != 0 {
      var before := Written(engine, events, rows, found, ids, n - 1);
      if found[n - 1].None? && ids[n - 1] == e {
        assert CreatedBy(found, ids, n, e, n - 1);
      } else {
        WrittenExact(engine, events, rows, found, ids, n - 1, e);
        if e !in events {
          var i :| CreatedBy(found, ids, n - 1, e, i) && before[e] == Event(rows[i], Open);
          assert CreatedBy(found, ids, n, e, i);
        } else if found[n - 1] == Some(e) {
          assert RefreshedBy(found, n, e, n - 1);
        } else if before[e].status != events[e].status {
          var i :| RefreshedBy(found, n - 1, e, i);
          assert RefreshedBy(found, n, e, i);
        }
      }
    }
  }

  /** Everything that the first event names as its origin, the second names as well. */
  predicate KeepsOrigin(before: StateKey, after: StateKey)
  {
    && (before.propagatedFrom.Some? ==> after.propagatedFrom == before.propagatedFrom)
    && (before.rootCauseEvent.Some? ==> after.rootCauseEvent == before.rootCauseEvent)
    && (before.rootCauseCi.Some? ==> after.rootCauseCi == before.rootCauseCi)
  }

  /** A write fills in what an event does not know of its origin and overwrites nothing. */
  lemma {:induction false} OriginsStay(engine: Engine, events: map<Id, Event>, rows: seq<StateKey>,
      found: seq<Option<Id>>, ids: seq<Id>, n: nat, e: Id)
    requires n <= |rows| == |found| == |ids| && NewIds(events, rows, ids) && e in events
    ensures e in Written(engine, events, rows, found, ids, n)
    ensures KeepsOrigin(events[e].about, Written(engine, events, rows, found, ids, n)[e].about)
  {
    if n != 0 {
      OriginsStay(engine, events, rows, found, ids, n - 1, e);
    }
  }

  /** No event is ever removed. */
  lemma {:induction false} WrittenKeeps(engine: Engine, events: map<Id, Event>, rows: seq<StateKey>,
      found: seq<Option<Id>>, ids: seq<Id>, n: nat)
    requires n <= |rows| == |found| == |ids|
    ensures events.Keys <= Written(engine, events, rows, found, ids, n).Keys
  {
    if n != 0 {
      WrittenKeeps(engine, events, rows, found, ids, n - 1);
    }
  }

  lemma {:induction false} CreatedStays(engine: Engine, events: map<Id, Event>, rows: seq<StateKey>,
      found: seq<Option<Id>>, ids: seq<Id>, n: nat, i: nat)
    requires i < n <= |rows| == |found| == |ids| && NewIds(events, rows, ids) && found[i].None?
    requires forall k | 0 <= k < |found| && found[k].Some? :: found[k].value !in ids
    ensures ids[i] in Written(engine, events, rows, found, ids, n)
    ensures Written(engine, events, rows, found, ids, n)[ids[i]] == Event(rows[i], Open)
  {
    if i < n - 1 {
      CreatedStays(engine, events, rows, found, ids, n - 1, i);
    }
  }

  /** An event that the reopening statement touches ends up open. */
  lemma {:induction false} ReopenedStays(events: map<Id, Event>, rows: seq<StateKey>, found: seq<Option<Id>>,
      ids: seq<Id>, n: nat, i: nat)
    requires i < n <= |rows| == |found| == |ids| && NewIds(events, rows, ids)
    requires found[i].Some? && found[i].value in events
    ensures found[i].value in Written(LegacyReopening, events, rows, found, ids, n)
    ensures Written(LegacyReopening, events, rows, found, ids, n)[found[i].value].status == Open
  {
    WrittenKeeps(LegacyReopening, events, rows, found, ids, n - 1);
    if i < n - 1 {
      ReopenedStays(events, rows, found, ids, n - 1, i);
    }
  }

  // ---------------------------------------------------- what one write does to uniqueness

  predicate IsRoot(row: StateKey)
  {
    row.correlation == Root
  }

  predicate IsLiveRoot(engine: Engine, event: Event, place: Place)
  {
    Considered(engine, event.status) && IsRoot(event.about) && PlaceOf(event.about) == place
  }

  /** At most one ROOT event that the engine takes for existing per place. */
  ghost predicate Unique(engine: Engine, events: map<Id, Event>)
  {
    forall d, e | d in events && e in events && d != e && IsLiveRoot(engine, events[d], PlaceOf(events[d].about)) ::
      !IsLiveRoot(engine, events[e], PlaceOf(events[d].about))
  }

  /** The only live ROOT event of a place, if there is one, is the one that was found. */
  ghost predicate OnlyFound(engine: Engine, events: map<Id, Event>, place: Place, found: Option<Id>)
  {
    forall e | e in events && IsLiveRoot(engine, events[e], place) :: found == Some(e)
  }

  /** What was found is in the store and about the place of its row. */
  ghost predicate Fitting(events: map<Id, Event>, rows: seq<StateKey>, found: seq<Option<Id>>)
  {
    && |found| == |rows|
    && forall i | 0 <= i < |rows| && found[i].Some? ::
         found[i].value in events && SamePlace(Event(rows[i], Open), events[found[i].value])
  }

  /** Row `i` is a ROOT row whose write brings an event of its place to life. */
  predicate Revives(engine: Engine, rows: seq<StateKey>, found: seq<Option<Id>>, i: int)
    requires |rows| == |found|
  {
    0 <= i < |rows| && IsRoot(rows[i]) && (found[i].None? || engine == LegacyReopening)
  }

  /**
   A write by `engine` leaves alone what `live` takes for existing: a row brings an event
   to life only if no other event lives at its place, and two rows of one place only if
   they mean the same event.
   */
  ghost predicate Tidy(live: Engine, engine: Engine, events: map<Id, Event>, rows: seq<StateKey>,
      found: seq<Option<Id>>)
    requires |rows| == |found|
  {
    && (forall i | Revives(engine, rows, found, i) :: OnlyFound(live, events, PlaceOf(rows[i]), found[i]))
    && (forall i, j | Revives(engine, rows, found, i) && Revives(engine, rows, found, j) && i != j
        && PlaceOf(rows[i]) == PlaceOf(rows[j]) ::
          found[i].Some? && found[i] == found[j])
  }

  /** The event that row `i` creates or refreshes. */
  function MadeBy(found: seq<Option<Id>>, ids: seq<Id>, i: int): Id
    requires 0 <= i < |found| == |ids|
  {
    if found[i].None? then ids[i] else found[i].value
  }

  /** An event that a write makes live was brought to life by a ROOT row about its place. */
  lemma NewlyLive(live: Engine, engine: Engine, events: map<Id, Event>, rows: seq<StateKey>, found: seq<Option<Id>>,
      ids: seq<Id>, e: Id, place: Place)
    requires Fitting(events, rows, found) && NewIds(events, rows, ids)
    requires var after := Written(engine, events, rows, found, ids, |rows|);
             e in after && IsLiveRoot(live, after[e], place) && !(e in events && IsLiveRoot(live, events[e], place))
    ensures exists i :: Revives(engine, rows, found, i) && PlaceOf(rows[i]) == place && MadeBy(found, ids, i) == e
  {
    WrittenExact(engine, events, rows, found, ids, |rows|, e);
    if e in events {
      var i :| RefreshedBy(found, |rows|, e, i);
      assert Revives(engine, rows, found, i) && MadeBy(found, ids, i) == e;
    } else {
      var i :| CreatedBy(found, ids, |rows|, e, i)
          && Written(engine, events, rows, found, ids, |rows|)[e] == Event(rows[i], Open);
      assert Revives(engine, rows, found, i) && MadeBy(found, ids, i) == e;
    }
  }

  lemma RevivedLives(live: Engine, engine: Engine, events: map<Id, Event>, rows: seq<StateKey>,
      found: seq<Option<Id>>, ids: seq<Id>, i: int)
    requires Fitting(events, rows, found) && NewIds(events, rows, ids) && Revives(engine, rows, found, i)
    ensures var after := Written(engine, events, rows, found, ids, |rows|);
            MadeBy(found, ids, i) in after && IsLiveRoot(live, after[MadeBy(found, ids, i)], PlaceOf(rows[i]))
  {
    if found[i].None? {
      CreatedStays(engine, events, rows, found, ids, |rows|, i);
    } else {
      ReopenedStays(events, rows, found, ids, |rows|, i);
      WrittenExact(engine, events, rows, found, ids, |rows|, found[i].value);
    }
  }

  lemma LiveStaysLive(live: Engine, engine: Engine, events: map<Id, Event>, rows: seq<StateKey>,
      found: seq<Option<Id>>, ids: seq<Id>, e: Id, place: Place)
    requires Fitting(events, rows, found) && NewIds(events, rows, ids)
    requires e in events && IsLiveRoot(live, events[e], place)
    ensures var after := Written(engine, events, rows, found, ids, |rows|);
            e in after && IsLiveRoot(live, after[e], place)
  {
    WrittenKeeps(engine, events, rows, found, ids, |rows|);
    WrittenExact(engine, events, rows, found, ids, |rows|, e);
  }

  lemma TidyKeepsApart(live: Engine, engine: Engine, events: map<Id, Event>, rows: seq<StateKey>,
      found: seq<Option<Id>>, ids: seq<Id>, d: Id, e: Id, place: Place)
    requires Fitting(events, rows, found) && NewIds(events, rows, ids) && Tidy(live, engine, events, rows, found)
    requires var after := Written(engine, events, rows, found, ids, |rows|);
             d in after && e in after && IsLiveRoot(live, after[d], place) && IsLiveRoot(live, after[e], place)
    requires !(d in events && IsLiveRoot(live, events[d], place))
    ensures d == e
  {
    NewlyLive(live, engine, events, rows, found, ids, d, place);
    var i :| Revives(engine, rows, found, i) && PlaceOf(rows[i]) == place && MadeBy(found, ids, i) == d;
    assert OnlyFound(live, events, place, found[i]);
    if !(e in events && IsLiveRoot(live, events[e], place)) {
      NewlyLive(live, engine, events, rows, found, ids, e, place);
      var j :| Revives(engine, rows, found, j) && PlaceOf(rows[j]) == place && MadeBy(found, ids, j) == e;
    }
  }

  lemma TidyKeepsUnique(live: Engine, engine: Engine, events: map<Id, Event>, rows: seq<StateKey>,
      found: seq<Option<Id>>, ids: seq<Id>)
    requires Fitting(events, rows, found) && NewIds(events, rows, ids) && Unique(live, events)
             && Tidy(live, engine, events, rows, found)
    ensures Unique(live, Written(engine, events, rows, found, ids, |rows|))
  {
    var after := Written(engine, events, rows, found, ids, |rows|);
    forall d, e | d in after && e in after && IsLiveRoot(live, after[d], PlaceOf(after[d].about))
                  && IsLiveRoot(live, after[e], PlaceOf(after[d].about))
      ensures d == e
    {
      var place := PlaceOf(after[d].about);
      if !(d in events && IsLiveRoot(live, events[d], place)) {
        TidyKeepsApart(live, engine, events, rows, found, ids, d, e, place);
      } else if !(e in events && IsLiveRoot(live, events[e], place)) {
        TidyKeepsApart(live, engine, events, rows, found, ids, e, d, place);
      }
    }
  }

  lemma UntidyBreaksUnique(live: Engine, engine: Engine, events: map<Id, Event>, rows: seq<StateKey>,
      found: seq<Option<Id>>, ids: seq<Id>)
    requires Fitting(events, rows, found) && NewIds(events, rows, ids)
             && Unique(live, Written(engine, events, rows, found, ids, |rows|))
    ensures Tidy(live, engine, events, rows, found)
  {
    var after := Written(engine, events, rows, found, ids, |rows|);
    forall i | Revives(engine, rows, found, i)
      ensures OnlyFound(live, events, PlaceOf(rows[i]), found[i])
    {
      RevivedLives(live, engine, events, rows, found, ids, i);
      forall e | e in events && IsLiveRoot(live, events[e], PlaceOf(rows[i]))
        ensures found[i] == Some(e)
      {
        LiveStaysLive(live, engine, events, rows, found, ids, e, PlaceOf(rows[i]));
        assert e == MadeBy(found, ids, i);
      }
    }
    forall i, j | Revives(engine, rows, found, i) && Revives(engine, rows, found, j) && i != j
        && PlaceOf(rows[i]) == PlaceOf(rows[j])
      ensures found[i].Some? && found[i] == found[j]
    {
      RevivedLives(live, engine, events, rows, found, ids, i);
      RevivedLives(live, engine, events, rows, found, ids, j);
      assert MadeBy(found, ids, i) == MadeBy(found, ids, j);
    }
  }

  /**
   One write by any engine keeps unique what any engine takes for existing, if and only if
   it is tidy. Nothing is assumed about when the rows were looked up.
   */
  lemma WriteKeepsUniqueIff(live: Engine, engine: Engine, events: map<Id, Event>, rows: seq<StateKey>,
      found: seq<Option<Id>>, ids: seq<Id>)
    requires Fitting(events, rows, found) && NewIds(events, rows, ids) && Unique(live, events)
    ensures Unique(live, Written(engine, events, rows, found, ids, |rows|)) <==> Tidy(live, engine, events, rows, found)
  {
    if Tidy(live, engine, events, rows, found) {
      TidyKeepsUnique(live, engine, events, rows, found, ids);
    } else if Unique(live, Written(engine, events, rows, found, ids, |rows|)) {
      UntidyBreaksUnique(live, engine, events, rows, found, ids);
    }
  }

  /** Two ROOT rows about one place bring different events to life. */
  ghost predicate SplitsPlace(engine: Engine, rows: seq<StateKey>, found: seq<Option<Id>>)
    requires |rows| == |found|
  {
    exists i, j :: Revives(engine, rows, found, i) && Revives(engine, rows, found, j) && i != j
        && PlaceOf(rows[i]) == PlaceOf(rows[j])
                   && (found[i].None? || found[i] != found[j])
  }

  /** No two ROOT rows of a batch are about the same place. */
  ghost predicate RootsApart(rows: seq<StateKey>)
  {
    forall i, j | 0 <= i < j < |rows| && IsRoot(rows[i]) && IsRoot(rows[j]) :: PlaceOf(rows[i]) != PlaceOf(rows[j])
  }

  /** A batch whose ROOT rows are about different places splits none, whatever it finds. */
  lemma ApartNeverSplits(engine: Engine, rows: seq<StateKey>, found: seq<Option<Id>>)
    requires |rows| == |found| && RootsApart(rows)
    ensures !SplitsPlace(engine, rows, found)
  {
    forall i, j | Revives(engine, rows, found, i) && Revives(engine, rows, found, j) && i != j
      ensures PlaceOf(rows[i]) != PlaceOf(rows[j])
    {
      assert i < j || j < i;
    }
  }

  /** Two rows of one batch that create ROOT events about one place. */
  ghost predicate CreatesTwice(rows: seq<StateKey>, found: seq<Option<Id>>)
    requires |rows| == |found|
  {
    exists i, j :: 0 <= i < j < |rows| && found[i].None? && found[j].None? && IsRoot(rows[i]) && IsRoot(rows[j])
                   && PlaceOf(rows[i]) == PlaceOf(rows[j])
  }

  /** For the pipeline, to split a place is to create two events there. */
  lemma SplitsIffCreatesTwice(rows: seq<StateKey>, found: seq<Option<Id>>)
    requires |rows| == |found|
    ensures SplitsPlace(Pipeline, rows, found) <==> CreatesTwice(rows, found)
  {
    if SplitsPlace(Pipeline, rows, found) {
      var i, j :| Revives(Pipeline, rows, found, i) && Revives(Pipeline, rows, found, j) && i != j
          && PlaceOf(rows[i]) == PlaceOf(rows[j]);
      assert i < j || j < i;
    }
    if CreatesTwice(rows, found) {
      var i, j :| 0 <= i < j < |rows| && found[i].None? && found[j].None? && IsRoot(rows[i]) && IsRoot(rows[j])
                  && PlaceOf(rows[i]) == PlaceOf(rows[j]);
      assert Revives(Pipeline, rows, found, i) && Revives(Pipeline, rows, found, j);
    }
  }

  /**
   One statement of the pipeline, looked up and written in one go, keeps the ROOT events
   unique if and only if no two of its rows create a ROOT event about the same place:
   the lookup sees the store as it was before the first row.
   */
  lemma BatchKeepsUniqueIff(events: map<Id, Event>, rows: seq<StateKey>, found: seq<Option<Id>>, ids: seq<Id>)
    requires Unique(Pipeline, events) && FoundIn(Pipeline, events, rows, found) && NewIds(events, rows, ids)
    ensures Unique(Pipeline, Written(Pipeline, events, rows, found, ids, |rows|)) <==> !CreatesTwice(rows, found)
  {
    WriteKeepsUniqueIff(Pipeline, Pipeline, events, rows, found, ids);
    forall i | Revives(Pipeline, rows, found, i)
      ensures OnlyFound(Pipeline, events, PlaceOf(rows[i]), found[i])
    {
      assert NoneMatches(Pipeline, events, rows[i]);
    }
    SplitsIffCreatesTwice(rows, found);
  }

  // ------------------------------------------------------------ the transition system

  /** How the steps of one deployment behave: its statements, its lock keys, and whether writers take locks at all. */
  datatype Setup = Setup(engine: Engine, lockKey: Place -> Key, locking: bool)

  /** Recoveries look at the status; operators close and acknowledge whatever they name. */
  ghost predicate Enabled(u: Setup, s: State, step: Step)
  {
    match step
    case Begin(w, rows) => w !in s.writers
    case Lock(w, key) => w in s.writers && s.writers[w].Locking? && forall v | v in s.writers && v != w ::
        key !in s.writers[v].held
    case Match(w, found) =>
      && w in s.writers && s.writers[w].Locking? && FoundIn(u.engine, s.events, s.writers[w].rows, found)
      && (u.locking ==> forall row | row in s.writers[w].rows :: u.lockKey(PlaceOf(row)) in s.writers[w].held)
    case Write(w, ids) =>
      w in s.writers && s.writers[w].Matched? && |s.writers[w].found| == |s.writers[w].rows|
          && NewIds(s.events, s.writers[w].rows, ids)
    case Release(w) => w in s.writers
    case Recover(e) => e in s.events && s.events[e].status in {Open, Ack}
    case Close(e) => e in s.events
    case Acknowledge(e) => e in s.events
  }

  function WithStatus(events: map<Id, Event>, e: Id, status: EventStatus): map<Id, Event>
    requires e in events
  {
    events[e := Event(events[e].about, status)]
  }

  ghost function Apply(u: Setup, s: State, step: Step): State
    requires Enabled(u, s, step)
  {
    match step
    case Begin(w, rows) => State(s.events, s.writers[w := Locking(rows, {})])
    case Lock(w, key) => State(s.events, s.writers[w := Locking(s.writers[w].rows, s.writers[w].held + {key})])
    case Match(w, found) => State(s.events, s.writers[w := Matched(s.writers[w].rows, s.writers[w].held, found)])
    case Write(w, ids) =>
      var at := s.writers[w];
      State(Written(u.engine, s.events, at.rows, at.found, ids, |at.rows|), s.writers[w := Done(at.held)])
    case Release(w) => State(s.events, map v | v in s.writers && v != w :: s.writers[v])
    case Recover(e) => State(WithStatus(s.events, e, Recovered), s.writers)
    case Close(e) => State(WithStatus(s.events, e, Closed), s.writers)
    case Acknowledge(e) => State(WithStatus(s.events, e, Ack), s.writers)
  }

  ghost predicate Leads(u: Setup, s: State, steps: seq<Step>, t: State)
    decreases |steps|
  {
    if steps == [] then s == t
    else Enabled(u, s, steps[0]) && Leads(u, Apply(u, s, steps[0]), steps[1..], t)
  }

  const EMPTY := State(map[], map[])

  // -------------------------------------------------------- at most one event per place

  ghost predicate LocksExclusive(s: State)
  {
    forall v, w | v in s.writers && w in s.writers && v != w :: s.writers[v].held !! s.writers[w].held
  }

  /**
   A writer that has looked up holds the locks of its rows, and what it is about to bring to
   life is all there is, unless its batch splits a place by itself.
   */
  ghost predicate Guarded(u: Setup, events: map<Id, Event>, at: Batch)
  {
    at.Matched? ==>
      && Fitting(events, at.rows, at.found)
      && (forall i | 0 <= i < |at.rows| :: u.lockKey(PlaceOf(at.rows[i])) in at.held)
      && (SplitsPlace(u.engine, at.rows, at.found) || AlwaysFound(u.engine, events, at.rows, at.found))
  }

  /** The rows that bring events to life have found all that lives at their places. */
  ghost predicate AlwaysFound(engine: Engine, events: map<Id, Event>, rows: seq<StateKey>, found: seq<Option<Id>>)
    requires |rows| == |found|
  {
    forall i | Revives(engine, rows, found, i) :: OnlyFound(engine, events, PlaceOf(rows[i]), found[i])
  }

  ghost predicate AllGuarded(u: Setup, s: State)
  {
    forall w | w in s.writers :: Guarded(u, s.events, s.writers[w])
  }

  ghost predicate Consistent(u: Setup, s: State)
  {
    Unique(u.engine, s.events) && LocksExclusive(s) && AllGuarded(u, s)
  }

  lemma GuardedIsTidy(u: Setup, events: map<Id, Event>, at: Batch)
    requires at.Matched? && Guarded(u, events, at) && !SplitsPlace(u.engine, at.rows, at.found)
    ensures Tidy(u.engine, u.engine, events, at.rows, at.found)
  {
  }

  /** A write makes nothing live where the writer does not hold the lock. */
  lemma WriteElsewhere(u: Setup, s: State, w: WriterId, ids: seq<Id>, e: Id, place: Place)
    requires Enabled(u, s, Write(w, ids)) && Guarded(u, s.events, s.writers[w])
             && u.lockKey(place) !in s.writers[w].held
    requires var after := Apply(u, s, Write(w, ids)).events; e in after && IsLiveRoot(u.engine, after[e], place)
    ensures e in s.events && IsLiveRoot(u.engine, s.events[e], place)
  {
    var at := s.writers[w];
    forall i
      ensures !(Revives(u.engine, at.rows, at.found, i) && PlaceOf(at.rows[i]) == place)
    {
    }
    if !(e in s.events && IsLiveRoot(u.engine, s.events[e], place)) {
      NewlyLive(u.engine, u.engine, s.events, at.rows, at.found, ids, e, place);
    }
  }

  /** What was found stays in the store, and about its place. */
  lemma WriteKeepsFitting(engine: Engine, events: map<Id, Event>, at: Batch, ids: seq<Id>, rows: seq<StateKey>,
      found: seq<Option<Id>>)
    requires at.Matched? && Fitting(events, at.rows, at.found) && NewIds(events, at.rows, ids)
             && Fitting(events, rows, found)
    ensures Fitting(Written(engine, events, at.rows, at.found, ids, |at.rows|), rows, found)
  {
    var after := Written(engine, events, at.rows, at.found, ids, |at.rows|);
    forall i | 0 <= i < |rows| && found[i].Some?
      ensures found[i].value in after && SamePlace(events[found[i].value], after[found[i].value])
    {
      WrittenKeeps(engine, events, at.rows, at.found, ids, |at.rows|);
      WrittenExact(engine, events, at.rows, at.found, ids, |at.rows|, found[i].value);
    }
  }

  /** Another writer's lookup stays true: it holds the lock of every place that it asked about. */
  lemma WriteKeepsOthersGuarded(u: Setup, s: State, w: WriterId, ids: seq<Id>, v: WriterId)
    requires Enabled(u, s, Write(w, ids)) && AllGuarded(u, s) && LocksExclusive(s) && v in s.writers && v != w
    ensures Guarded(u, Apply(u, s, Write(w, ids)).events, s.writers[v])
  {
    var at, other := s.writers[w], s.writers[v];
    var after := Apply(u, s, Write(w, ids)).events;
    if other.Matched? {
      WriteKeepsFitting(u.engine, s.events, at, ids, other.rows, other.found);
    }
    if other.Matched? && !SplitsPlace(u.engine, other.rows, other.found) {
      forall i | Revives(u.engine, other.rows, other.found, i)
        ensures OnlyFound(u.engine, after, PlaceOf(other.rows[i]), other.found[i])
      {
        var place := PlaceOf(other.rows[i]);
        assert OnlyFound(u.engine, s.events, place, other.found[i]);
        forall e | e in after && IsLiveRoot(u.engine, after[e], place)
          ensures other.found[i] == Some(e)
        {
          assert u.lockKey(place) in other.held;
          WriteElsewhere(u, s, w, ids, e, place);
        }
      }
    }
  }

  lemma MatchIsGuarded(u: Setup, s: State, w: WriterId, found: seq<Option<Id>>)
    requires u.locking && Enabled(u, s, Match(w, found)) && AllGuarded(u, s) && Unique(u.engine, s.events)
    ensures Guarded(u, s.events, Apply(u, s, Match(w, found)).writers[w])
  {
    var rows := s.writers[w].rows;
    forall i | 0 <= i < |rows|
      ensures u.lockKey(PlaceOf(rows[i])) in s.writers[w].held
      ensures IsRoot(rows[i]) ==> OnlyFound(u.engine, s.events, PlaceOf(rows[i]), found[i])
    {
      assert rows[i] in rows;
    }
  }

  /** Closing or recovering an event makes nothing live. */
  lemma SettlingKeepsGuarded(u: Setup, s: State, step: Step, at: Batch)
    requires (step.Recover? || step.Close?) && Enabled(u, s, step) && Guarded(u, s.events, at)
    ensures Guarded(u, Apply(u, s, step).events, at)
  {
    if at.Matched? && !SplitsPlace(u.engine, at.rows, at.found) {
      forall i | Revives(u.engine, at.rows, at.found, i)
        ensures OnlyFound(u.engine, Apply(u, s, step).events, PlaceOf(at.rows[i]), at.found[i])
      {
        assert OnlyFound(u.engine, s.events, PlaceOf(at.rows[i]), at.found[i]);
      }
    }
  }

  // --------------------------------------------------------- writes and acknowledgements

  /**
   An acknowledgement brings an event to life whatever its status. It is harmless for a
   ROOT event if no other event lives at its place and no writer is about to bring one
   to life there with a write that is itself harmless.
   */
  ghost predicate Harmless(u: Setup, s: State, e: Id)
    requires e in s.events
  {
    IsRoot(s.events[e].about) ==>
      && OnlyFound(u.engine, s.events, PlaceOf(s.events[e].about), Some(e))
      && (forall w | w in s.writers && s.writers[w].Matched? ::
          NotBehind(u.engine, s.writers[w], PlaceOf(s.events[e].about), e))
  }

  /** The writer brings nothing but the event to life at the place. */
  ghost predicate NotBehind(engine: Engine, at: Batch, place: Place, e: Id)
    requires at.Matched?
  {
    |at.rows| == |at.found| && !SplitsPlace(engine, at.rows, at.found) ==>
      forall i | Revives(engine, at.rows, at.found, i) && PlaceOf(at.rows[i]) == place :: at.found[i] == Some(e)
  }

  /** The batch that a writer is about to write splits no place. */
  ghost predicate HarmlessBatch(engine: Engine, at: Batch)
  {
    at.Matched? && |at.rows| == |at.found| ==> !SplitsPlace(engine, at.rows, at.found)
  }

  ghost predicate HarmlessStep(u: Setup, s: State, step: Step)
  {
    match step
    case Write(w, _) => w in s.writers ==> HarmlessBatch(u.engine, s.writers[w])
    case Acknowledge(e) => e in s.events ==> Harmless(u, s, e)
    case _ => true
  }

  ghost predicate AllHarmless(u: Setup, s: State, steps: seq<Step>)
    decreases |steps|
  {
    steps == [] || (HarmlessStep(u, s, steps[0])
        && (Enabled(u, s, steps[0]) ==> AllHarmless(u, Apply(u, s, steps[0]), steps[1..])))
  }

  /** In the store alone: the acknowledged ROOT event has to be the only live one of its place. */
  lemma AcknowledgedUniqueIff(engine: Engine, events: map<Id, Event>, e: Id)
    requires Unique(engine, events) && e in events
    ensures Unique(engine, WithStatus(events, e, Ack))
            <==> (IsRoot(events[e].about) ==> OnlyFound(engine, events, PlaceOf(events[e].about), Some(e)))
  {
    var after := WithStatus(events, e, Ack);
    var place := PlaceOf(events[e].about);
    if Unique(engine, after) && IsRoot(events[e].about) {
      forall d | d in events && IsLiveRoot(engine, events[d], place)
        ensures d == e
      {
        assert IsLiveRoot(engine, after[d], place) && IsLiveRoot(engine, after[e], PlaceOf(after[e].about));
      }
    }
  }

  lemma HarmlessKeepsGuarded(u: Setup, s: State, e: Id, w: WriterId)
    requires e in s.events && Harmless(u, s, e) && w in s.writers && Guarded(u, s.events, s.writers[w])
    ensures Guarded(u, WithStatus(s.events, e, Ack), s.writers[w])
  {
    var at := s.writers[w];
    if at.Matched? && !SplitsPlace(u.engine, at.rows, at.found) {
      var place := PlaceOf(s.events[e].about);
      assert IsRoot(s.events[e].about) ==> NotBehind(u.engine, at, place, e);
      forall i | Revives(u.engine, at.rows, at.found, i)
        ensures OnlyFound(u.engine, WithStatus(s.events, e, Ack), PlaceOf(at.rows[i]), at.found[i])
      {
        assert OnlyFound(u.engine, s.events, PlaceOf(at.rows[i]), at.found[i]);
      }
    }
  }

  /** Acknowledging an event that still counts as existing is always harmless. */
  lemma LiveIsHarmless(u: Setup, s: State, e: Id)
    requires Consistent(u, s) && e in s.events && Considered(u.engine, s.events[e].status)
    ensures Harmless(u, s, e)
  {
    if IsRoot(s.events[e].about) {
      var place := PlaceOf(s.events[e].about);
      forall w | w in s.writers && s.writers[w].Matched?
        ensures NotBehind(u.engine, s.writers[w], place, e)
      {
        assert Guarded(u, s.events, s.writers[w]);
      }
    }
  }

  /** A write keeps the events unique if and only if its batch splits no place. */
  lemma WriteHarmlessIff(u: Setup, s: State, w: WriterId, ids: seq<Id>)
    requires Consistent(u, s) && Enabled(u, s, Write(w, ids))
    ensures Unique(u.engine, Apply(u, s, Write(w, ids)).events) <==> HarmlessStep(u, s, Write(w, ids))
  {
    var at := s.writers[w];
    assert Guarded(u, s.events, at);
    WriteKeepsUniqueIff(u.engine, u.engine, s.events, at.rows, at.found, ids);
  }

  lemma StepKeepsConsistent(u: Setup, s: State, step: Step)
    requires u.locking && Enabled(u, s, step) && HarmlessStep(u, s, step) && Consistent(u, s)
    ensures Consistent(u, Apply(u, s, step))
  {
    match step
    case Begin(w, rows) =>
    case Lock(w, key) =>
    case Match(w, found) => MatchIsGuarded(u, s, w, found);
    case Write(w, ids) =>
      var at := s.writers[w];
      GuardedIsTidy(u, s.events, at);
      TidyKeepsUnique(u.engine, u.engine, s.events, at.rows, at.found, ids);
      forall v | v in s.writers && v != w
        ensures Guarded(u, Apply(u, s, step).events, s.writers[v])
      {
        WriteKeepsOthersGuarded(u, s, w, ids, v);
      }
    case Release(w) =>
    case Recover(e) => SettlingKeepsConsistent(u, s, step);
    case Close(e) => SettlingKeepsConsistent(u, s, step);
    case Acknowledge(e) =>
      AcknowledgedUniqueIff(u.engine, s.events, e);
      forall v | v in s.writers
        ensures Guarded(u, Apply(u, s, step).events, s.writers[v])
      {
        HarmlessKeepsGuarded(u, s, e, v);
      }
  }

  lemma SettlingKeepsConsistent(u: Setup, s: State, step: Step)
    requires (step.Recover? || step.Close?) && Enabled(u, s, step) && Consistent(u, s)
    ensures Consistent(u, Apply(u, s, step))
  {
    forall v | v in s.writers
      ensures Guarded(u, Apply(u, s, step).events, s.writers[v])
    {
      SettlingKeepsGuarded(u, s, step, s.writers[v]);
    }
  }

  lemma {:induction false} RunsKeepConsistent(u: Setup, s: State, steps: seq<Step>, t: State)
    requires u.locking && Leads(u, s, steps, t) && AllHarmless(u, s, steps) && Consistent(u, s)
    ensures Consistent(u, t)
    decreases |steps|
  {
    if steps != [] {
      StepKeepsConsistent(u, s, steps[0]);
      RunsKeepConsistent(u, Apply(u, s, steps[0]), steps[1..], t);
    }
  }

  /**
   In every run of any number of locking writers of one engine, with lookups, writes,
   recoveries, closures and acknowledgements in any order and whatever triplets share a
   lock, as long as the writes and the acknowledgements are harmless, at most one ROOT event
   that the engine takes for existing is about a place.
   */
  lemma LockedWritersKeepEventsUnique(u: Setup, steps: seq<Step>, t: State, d: Id, e: Id)
    requires u.locking && Leads(u, EMPTY, steps, t) && AllHarmless(u, EMPTY, steps)
    requires d in t.events && e in t.events && PlaceOf(t.events[d].about) == PlaceOf(t.events[e].about)
    requires IsRoot(t.events[d].about) && IsRoot(t.events[e].about)
    requires Considered(u.engine, t.events[d].status) && Considered(u.engine, t.events[e].status)
    ensures d == e
  {
    RunsKeepConsistent(u, EMPTY, steps, t);
  }

  // ----------------------------------------------- harmful acknowledgements break uniqueness

  /** There always are new identifiers. */
  lemma {:induction false} EnoughIds(taken: set<Id>, n: nat) returns (ids: seq<Id>)
    ensures |ids| == n
    ensures forall i | 0 <= i < n :: ids[i] !in taken
    ensures forall i, j | 0 <= i < j < n :: ids[i] != ids[j]
  {
    if n == 0 {
      ids := [];
    } else {
      var rest := EnoughIds(taken, n - 1);
      var used := taken + set i | 0 <= i < |rest| :: rest[i];
      var id := Above(used);
      assert forall i | 0 <= i < n - 1 :: rest[i] in used;
      ids := rest + [id];
    }
  }

  lemma {:induction false} Above(taken: set<Id>) returns (id: Id)
    ensures forall e | e in taken :: e < id
  {
    id := 0;
    if taken != {} {
      var e :| e in taken;
      id := Above(taken - {e});
      assert forall d | d in taken && d != e :: d in taken - {e};
      if id <= e {
        id := e + 1;
      }
    }
  }

  /** A writer that an acknowledgement overtakes can write at once, and then two events live. */
  lemma OvertakenWriteBreaksUnique(u: Setup, s: State, e: Id, w: WriterId) returns (ids: seq<Id>)
    requires e in s.events && IsRoot(s.events[e].about) && AllGuarded(u, s)
    requires w in s.writers && s.writers[w].Matched?
             && !NotBehind(u.engine, s.writers[w], PlaceOf(s.events[e].about), e)
    ensures HarmlessBatch(u.engine, s.writers[w])
    ensures Enabled(u, Apply(u, s, Acknowledge(e)), Write(w, ids))
    ensures !Unique(u.engine, Apply(u, Apply(u, s, Acknowledge(e)), Write(w, ids)).events)
  {
    var at := s.writers[w];
    var place := PlaceOf(s.events[e].about);
    var events := WithStatus(s.events, e, Ack);
    assert Guarded(u, s.events, at);
    ids := EnoughIds(events.Keys, |at.rows|);
    var i :| Revives(u.engine, at.rows, at.found, i) && PlaceOf(at.rows[i]) == place && at.found[i] != Some(e);
    assert IsLiveRoot(u.engine, events[e], place) && !OnlyFound(u.engine, events, place, at.found[i]);
    if Unique(u.engine, Written(u.engine, events, at.rows, at.found, ids, |at.rows|)) {
      UntidyBreaksUnique(u.engine, u.engine, events, at.rows, at.found, ids);
    }
  }

  /**
   The guard is exact: whatever recoveries, harmless writes and further harmless
   acknowledgements do next, the events stay unique if and only if this one was harmless.
   */
  lemma AcknowledgementHarmlessIff(u: Setup, s: State, e: Id)
    requires u.locking && Consistent(u, s) && e in s.events
    ensures Harmless(u, s, e) <==>
            forall steps, t | Leads(u, Apply(u, s, Acknowledge(e)), steps, t)
                && AllHarmless(u, Apply(u, s, Acknowledge(e)), steps) ::
              Unique(u.engine, t.events)
  {
    var after := Apply(u, s, Acknowledge(e));
    if Harmless(u, s, e) {
      StepKeepsConsistent(u, s, Acknowledge(e));
      forall steps, t | Leads(u, after, steps, t) && AllHarmless(u, after, steps)
        ensures Unique(u.engine, t.events)
      {
        RunsKeepConsistent(u, after, steps, t);
      }
    } else {
      HarmfulBreaks(u, s, e);
    }
  }

  lemma HarmfulBreaks(u: Setup, s: State, e: Id)
    requires Consistent(u, s) && e in s.events && !Harmless(u, s, e)
    ensures exists steps, t ::
              Leads(u, Apply(u, s, Acknowledge(e)), steps, t) && AllHarmless(u, Apply(u, s, Acknowledge(e)), steps)
                  && !Unique(u.engine, t.events)
  {
    var after := Apply(u, s, Acknowledge(e));
    AcknowledgedUniqueIff(u.engine, s.events, e);
    if !Unique(u.engine, after.events) {
      assert Leads(u, after, [], after) && AllHarmless(u, after, []);
    } else {
      var w :| w in s.writers && s.writers[w].Matched?
          && !NotBehind(u.engine, s.writers[w], PlaceOf(s.events[e].about), e);
      var ids := OvertakenWriteBreaksUnique(u, s, e, w);
      var t := Apply(u, after, Write(w, ids));
      assert Leads(u, t, [], t) && AllHarmless(u, t, []);
      Before(u, after, Write(w, ids), [], t);
      var steps := [Write(w, ids)] + [];
      assert steps[1..] == [];
      assert AllHarmless(u, after, steps);
    }
  }

  // ------------------------------------------------- what the assumptions are needed for

  ghost predicate Reaches(u: Setup, s: State, t: State)
  {
    exists steps :: Leads(u, s, steps, t)
  }

  lemma Before(u: Setup, s: State, step: Step, rest: seq<Step>, t: State)
    requires Enabled(u, s, step) && Leads(u, Apply(u, s, step), rest, t)
    ensures Leads(u, s, [step] + rest, t)
  {
    assert ([step] + rest)[1..] == rest;
  }

  lemma Then(u: Setup, s: State, step: Step, t: State)
    requires Enabled(u, s, step) && Reaches(u, Apply(u, s, step), t)
    ensures Reaches(u, s, t)
  {
    var rest :| Leads(u, Apply(u, s, step), rest, t);
    Before(u, s, step, rest, t);
  }

  lemma Here(u: Setup, s: State)
    ensures Reaches(u, s, s)
  {
    assert Leads(u, s, [], s);
  }

  /** The locks of the first `n` rows. */
  function KeysUpto(u: Setup, rows: seq<StateKey>, n: nat): set<Key>
    requires n <= |rows|
  {
    set i | 0 <= i < n :: u.lockKey(PlaceOf(rows[i]))
  }

  lemma {:induction false} HolderLocks(u: Setup, events: map<Id, Event>, rows: seq<StateKey>, n: nat, t: State)
    requires n <= |rows| && Reaches(u, State(events, map[0 := Locking(rows, KeysUpto(u, rows, |rows|))]), t)
    ensures Reaches(u, State(events, map[0 := Locking(rows, KeysUpto(u, rows, n))]), t)
    decreases |rows| - n
  {
    if n < |rows| {
      HolderLocks(u, events, rows, n + 1, t);
      var s := State(events, map[0 := Locking(rows, KeysUpto(u, rows, n))]);
      var key := u.lockKey(PlaceOf(rows[n]));
      assert KeysUpto(u, rows, n) + {key} == KeysUpto(u, rows, n + 1);
      assert Apply(u, s, Lock(0, key)) == State(events, map[0 := Locking(rows, KeysUpto(u, rows, n + 1))]);
      Then(u, s, Lock(0, key), t);
    }
  }

  lemma HolderWrites(u: Setup, events: map<Id, Event>, rows: seq<StateKey>, found: seq<Option<Id>>, ids: seq<Id>,
      held: set<Key>, t: State)
    requires FoundIn(u.engine, events, rows, found) && NewIds(events, rows, ids)
    requires Reaches(u, State(Written(u.engine, events, rows, found, ids, |rows|), map[]), t)
    requires forall row | row in rows :: u.lockKey(PlaceOf(row)) in held
    ensures Reaches(u, State(events, map[0 := Locking(rows, held)]), t)
  {
    var after := Written(u.engine, events, rows, found, ids, |rows|);
    var matched := State(events, map[0 := Matched(rows, held, found)]);
    var written := State(after, map[0 := Done(held)]);
    assert Apply(u, written, Release(0)) == State(after, map[]);
    Then(u, written, Release(0), t);
    assert Apply(u, matched, Write(0, ids)) == written;
    Then(u, matched, Write(0, ids), t);
    var locked := State(events, map[0 := Locking(rows, held)]);
    assert Apply(u, locked, Match(0, found)) == matched;
    Then(u, locked, Match(0, found), t);
  }

  /** One writer alone takes the locks of its batch, looks up, writes and ends. */
  lemma OneWriterWrites(u: Setup, events: map<Id, Event>, rows: seq<StateKey>, found: seq<Option<Id>>, ids: seq<Id>,
      t: State)
    requires FoundIn(u.engine, events, rows, found) && NewIds(events, rows, ids)
    requires Reaches(u, State(Written(u.engine, events, rows, found, ids, |rows|), map[]), t)
    ensures Reaches(u, State(events, map[]), t)
  {
    HolderWrites(u, events, rows, found, ids, KeysUpto(u, rows, |rows|), t);
    HolderLocks(u, events, rows, 0, t);
    assert KeysUpto(u, rows, 0) == {};
    assert Apply(u, State(events, map[]), Begin(0, rows)) == State(events, map[0 := Locking(rows, {})]);
    Then(u, State(events, map[]), Begin(0, rows), t);
  }

  lemma OneRowCreates(engine: Engine, events: map<Id, Event>, row: StateKey, id: Id)
    ensures Written(engine, events, [row], [None], [id], 1) == events[id := Event(row, Open)]
  {
    assert Written(engine, events, [row], [None], [id], 0) == events;
  }

  lemma OneRowRefreshes(engine: Engine, events: map<Id, Event>, row: StateKey, d: Id, ids: seq<Id>)
    requires d in events && |ids| == 1
    ensures Written(engine, events, [row], [Some(d)], ids, 1) == events[d := Refreshed(engine, row, events[d])]
  {
    assert Written(engine, events, [row], [Some(d)], ids, 0) == events;
  }

  /** An event that has ended and a second one of the same place. */
  function EndedAndOpen(row: StateKey, ended: EventStatus): State
  {
    State(map[0 := Event(row, ended), 1 := Event(row, Open)], map[])
  }

  /** An event opens, is recovered or closed, and the next breach opens another one. */
  lemma ReachEndedAndOpen(u: Setup, row: StateKey, ended: EventStatus)
    requires ended == Closed || (ended == Recovered && u.engine == Pipeline)
    ensures Reaches(u, EMPTY, EndedAndOpen(row, ended))
  {
    var t := EndedAndOpen(row, ended);
    var first, second: map<Id, Event> := map[0 := Event(row, Open)], map[0 := Event(row, ended)];
    Here(u, t);
    OneRowCreates(u.engine, second, row, 1);
    assert second[1 := Event(row, Open)] == t.events;
    OneWriterWrites(u, second, [row], [None], [1], t);
    var step := if ended == Closed then Close(0) else Recover(0);
    assert Apply(u, State(first, map[]), step) == State(second, map[]);
    Then(u, State(first, map[]), step, t);
    OneRowCreates(u.engine, map[], row, 0);
    assert map[][0 := Event(row, Open)] == first;
    OneWriterWrites(u, map[], [row], [None], [0], t);
  }

  /** With every lock taken, an operator who acknowledges a closed event makes two of one. */
  lemma AcknowledgedDuplicate(u: Setup, row: StateKey)
    requires IsRoot(row)
    ensures exists t :: Reaches(u, EMPTY, t) && !Unique(u.engine, t.events)
  {
    var s := EndedAndOpen(row, Closed);
    ReachEndedAndOpen(u, row, Closed);
    var t := Apply(u, s, Acknowledge(0));
    Here(u, t);
    Then(u, s, Acknowledge(0), t);
    ReachesOn(u, EMPTY, s, t);
    assert IsLiveRoot(u.engine, t.events[0], PlaceOf(row)) && IsLiveRoot(u.engine, t.events[1], PlaceOf(row));
  }

  lemma {:induction false} RunOn(u: Setup, s: State, steps: seq<Step>, middle: State, t: State)
    requires Leads(u, s, steps, middle) && Reaches(u, middle, t)
    ensures Reaches(u, s, t)
    decreases |steps|
  {
    if steps != [] {
      RunOn(u, Apply(u, s, steps[0]), steps[1..], middle, t);
      Then(u, s, steps[0], t);
    }
  }

  lemma ReachesOn(u: Setup, s: State, middle: State, t: State)
    requires Reaches(u, s, middle) && Reaches(u, middle, t)
    ensures Reaches(u, s, t)
  {
    var steps :| Leads(u, s, steps, middle);
    RunOn(u, s, steps, middle, t);
  }

  /** Two writers begin, both look up and find nothing, and both write. */
  lemma BothReachWritten(u: Setup, row: StateKey, t: State)
    requires !u.locking && t
             == State(map[0 := Event(row, Open), 1 := Event(row, Open)], map[0 := Done({}), 1 := Done({})])
    ensures Reaches(u, State(map[], map[0 := Matched([row], {}, [None]), 1 := Matched([row], {}, [None])]), t)
  {
    var s := State(map[], map[0 := Matched([row], {}, [None]), 1 := Matched([row], {}, [None])]);
    var one := State(map[0 := Event(row, Open)], map[0 := Done({}), 1 := Matched([row], {}, [None])]);
    Here(u, t);
    OneRowCreates(u.engine, one.events, row, 1);
    assert Apply(u, one, Write(1, [1])) == t;
    Then(u, one, Write(1, [1]), t);
    OneRowCreates(u.engine, map[], row, 0);
    assert Apply(u, s, Write(0, [0])) == one;
    Then(u, s, Write(0, [0]), t);
  }

  lemma BothReachMatched(u: Setup, row: StateKey, t: State)
    requires !u.locking && Reaches(u,
             State(map[], map[0 := Matched([row], {}, [None]), 1 := Matched([row], {}, [None])]), t)
    ensures Reaches(u, EMPTY, t)
  {
    var first := State(map[], map[0 := Locking([row], {})]);
    var begun := State(map[], map[0 := Locking([row], {}), 1 := Locking([row], {})]);
    var one := State(map[], map[0 := Matched([row], {}, [None]), 1 := Locking([row], {})]);
    assert Apply(u, one, Match(1, [None]))
           == State(map[], map[0 := Matched([row], {}, [None]), 1 := Matched([row], {}, [None])]);
    Then(u, one, Match(1, [None]), t);
    assert Apply(u, begun, Match(0, [None])) == one;
    Then(u, begun, Match(0, [None]), t);
    assert Apply(u, first, Begin(1, [row])) == begun;
    Then(u, first, Begin(1, [row]), t);
    assert Apply(u, EMPTY, Begin(0, [row])) == first;
    Then(u, EMPTY, Begin(0, [row]), t);
  }

  /** Without the locks, two writers that look up before either writes both create the event. */
  lemma UnlockedWritersDuplicate(u: Setup, row: StateKey)
    requires !u.locking && IsRoot(row)
    ensures exists t :: Reaches(u, EMPTY, t) && !Unique(Pipeline, t.events)
  {
    var t := State(map[0 := Event(row, Open), 1 := Event(row, Open)], map[0 := Done({}), 1 := Done({})]);
    BothReachWritten(u, row, t);
    BothReachMatched(u, row, t);
    assert IsLiveRoot(Pipeline, t.events[0], PlaceOf(row)) && IsLiveRoot(Pipeline, t.events[1], PlaceOf(row));
  }

  // ------------------------------------------------------------------- two engines

  /** The other engine's statement over the same store. */
  function Using(u: Setup, engine: Engine): Setup
  {
    u.(engine := engine)
  }

  /**
   The two engines do not share a notion of an existing event. With every lock taken, a
   run of the pipeline followed by a run of the legacy engine leaves two open events.
   */
  lemma MixedEnginesDuplicate(u: Setup, row: StateKey)
    requires u.engine == Pipeline && IsRoot(row)
    ensures exists s, t ::
            Reaches(u, EMPTY, s) && Reaches(Using(u, LegacyReopening), s, t) && !Unique(Pipeline, t.events)
  {
    var s := EndedAndOpen(row, Recovered);
    ReachEndedAndOpen(u, row, Recovered);
    var v := Using(u, LegacyReopening);
    OneRowRefreshes(LegacyReopening, s.events, row, 0, [2]);
    var t := State(s.events[0 := Event(row, Open)], map[]);
    Here(v, t);
    OneWriterWrites(v, s.events, [row], [Some(0)], [2], t);
    assert IsLiveRoot(Pipeline, t.events[0], PlaceOf(row)) && IsLiveRoot(Pipeline, t.events[1], PlaceOf(row));
  }

  /** Some ROOT row reopens a recovered event beside another one that the pipeline takes for existing. */
  ghost predicate ReopensBeside(engine: Engine, events: map<Id, Event>, rows: seq<StateKey>, found: seq<Option<Id>>)
    requires |rows| == |found|
  {
    exists i :: Revives(engine, rows, found, i) && found[i].Some? && found[i].value in events
        && events[found[i].value].status == Recovered
                && !OnlyFound(Pipeline, events, PlaceOf(rows[i]), found[i])
  }

  /**
   A batch of any engine, looked up and written in one go, keeps the pipeline's events
   unique if and only if it does not reopen a recovered event where another one is open,
   and no two of its rows bring different events of one place to life.
   */
  lemma MixedBatchKeepsUniqueIff(engine: Engine, events: map<Id, Event>, rows: seq<StateKey>, found: seq<Option<Id>>,
      ids: seq<Id>)
    requires Unique(Pipeline, events) && FoundIn(engine, events, rows, found) && NewIds(events, rows, ids)
    ensures Unique(Pipeline, Written(engine, events, rows, found, ids, |rows|)) <==>
            !ReopensBeside(engine, events, rows, found) && !SplitsPlace(engine, rows, found)
  {
    WriteKeepsUniqueIff(Pipeline, engine, events, rows, found, ids);
    forall i | Revives(engine, rows, found, i) && (found[i].None? || events[found[i].value].status != Recovered)
      ensures OnlyFound(Pipeline, events, PlaceOf(rows[i]), found[i])
    {
      LiveIsFound(engine, events, rows[i], found[i]);
    }
  }

  /** A lookup that does not come back with a recovered event has found the one that is live. */
  lemma LiveIsFound(engine: Engine, events: map<Id, Event>, row: StateKey, found: Option<Id>)
    requires Unique(Pipeline, events) && IsRoot(row)
    requires if found.Some? then found.value in events && Matches(engine, row, events[found.value])
             && events[found.value].status != Recovered
             else NoneMatches(engine, events, row)
    ensures OnlyFound(Pipeline, events, PlaceOf(row), found)
  {
    forall e | e in events && IsLiveRoot(Pipeline, events[e], PlaceOf(row))
      ensures found == Some(e)
    {
      assert Matches(engine, row, events[e]);
      if found.Some? {
        assert IsLiveRoot(Pipeline, events[found.value], PlaceOf(events[found.value].about));
      }
    }
  }

  /**
   The legacy statement for one row keeps the pipeline's events unique if and only if it
   does not pick a recovered event where another one is open.
   */
  lemma ReopeningKeepsUniqueIff(events: map<Id, Event>, row: StateKey, d: Id, ids: seq<Id>)
    requires Unique(Pipeline, events) && d in events && Matches(LegacyReopening, row, events[d]) && IsRoot(row)
    requires NewIds(events, [row], ids)
    ensures Unique(Pipeline, Written(LegacyReopening, events, [row], [Some(d)], ids, 1)) <==>
            (events[d].status == Recovered ==> OnlyFound(Pipeline, events, PlaceOf(row), Some(d)))
  {
    var rows, found := [row], [Some(d)];
    assert Fitting(events, rows, found);
    WriteKeepsUniqueIff(Pipeline, LegacyReopening, events, rows, found, ids);
    assert Tidy(Pipeline, LegacyReopening, events, rows, found)
           <==> OnlyFound(Pipeline, events, PlaceOf(row), Some(d)) by {
      assert Revives(LegacyReopening, rows, found, 0);
    }
  }

  // ------------------------------------------ threshold events of the legacy engine

  predicate RootAt(events: map<Id, Event>, place: Place, e: Id)
  {
    e in events && IsRoot(events[e].about) && PlaceOf(events[e].about) == place
  }

  predicate ActiveAt(events: map<Id, Event>, place: Place, e: Id)
  {
    RootAt(events, place, e) && events[e].status in {Open, Ack}
  }

  ghost predicate AllFitting(s: State)
  {
    forall w | w in s.writers && s.writers[w].Matched? :: Fitting(s.events, s.writers[w].rows, s.writers[w].found)
  }

  /** Every ROOT row about the place has found an event. */
  ghost predicate Served(s: State, place: Place)
  {
    forall w, i | w in s.writers && s.writers[w].Matched? && 0 <= i < |s.writers[w].rows| == |s.writers[w].found|
                  && IsRoot(s.writers[w].rows[i]) && PlaceOf(s.writers[w].rows[i]) == place ::
      s.writers[w].found[i].Some?
  }

  /** A recovered event, none that is active, and no writer about to create one. */
  ghost predicate Quiet(s: State, place: Place, r: Id)
  {
    && AllFitting(s) && Served(s, place)
    && RootAt(s.events, place, r) && s.events[r].status == Recovered
    && forall e :: !ActiveAt(s.events, place, e)
  }

  /** Where writers take locks, a recovered ROOT event is quiet at once. */
  lemma RecoveredIsQuiet(u: Setup, s: State, place: Place, r: Id)
    requires u.engine == LegacyRefreshing && Consistent(u, s) && RootAt(s.events, place, r)
             && s.events[r].status == Recovered
    requires forall w | w in s.writers :: HarmlessBatch(u.engine, s.writers[w])
    ensures Quiet(s, place, r)
  {
    assert IsLiveRoot(u.engine, s.events[r], place);
    forall w, i | w in s.writers && s.writers[w].Matched? && 0 <= i < |s.writers[w].rows| == |s.writers[w].found|
                  && IsRoot(s.writers[w].rows[i]) && PlaceOf(s.writers[w].rows[i]) == place
      ensures s.writers[w].found[i].Some?
    {
      assert Guarded(u, s.events, s.writers[w]);
      if s.writers[w].found[i].None? {
        assert Revives(u.engine, s.writers[w].rows, s.writers[w].found, i);
        assert OnlyFound(u.engine, s.events, place, s.writers[w].found[i]);
      }
    }
  }

  lemma StepKeepsFitting(u: Setup, s: State, step: Step)
    requires Enabled(u, s, step) && AllFitting(s)
    ensures AllFitting(Apply(u, s, step))
  {
    if step.Write? {
      var at := s.writers[step.w];
      forall v | v in s.writers && v != step.w && s.writers[v].Matched?
        ensures Fitting(Apply(u, s, step).events, s.writers[v].rows, s.writers[v].found)
      {
        WriteKeepsFitting(u.engine, s.events, at, step.ids, s.writers[v].rows, s.writers[v].found);
      }
    }
  }

  lemma QuietWrite(u: Setup, s: State, w: WriterId, ids: seq<Id>, place: Place, r: Id, e: Id)
    requires u.engine == LegacyRefreshing && Enabled(u, s, Write(w, ids)) && Quiet(s, place, r)
    ensures var after := Apply(u, s, Write(w, ids)).events;
            (RootAt(after, place, e) <==> RootAt(s.events, place, e))
                && (RootAt(after, place, e) ==> after[e].status == s.events[e].status)
  {
    var at := s.writers[w];
    WrittenKeeps(u.engine, s.events, at.rows, at.found, ids, |at.rows|);
    if e in Apply(u, s, Write(w, ids)).events {
      WrittenExact(u.engine, s.events, at.rows, at.found, ids, |at.rows|, e);
    }
  }

  predicate AcknowledgesAt(events: map<Id, Event>, place: Place, step: Step)
  {
    step.Acknowledge? && RootAt(events, place, step.e)
  }

  ghost predicate SomeAcknowledges(events: map<Id, Event>, place: Place, steps: seq<Step>)
  {
    exists step :: step in steps && AcknowledgesAt(events, place, step)
  }

  lemma SomeAcknowledgesLater(before: map<Id, Event>, after: map<Id, Event>, place: Place, steps: seq<Step>)
    requires steps != [] && !AcknowledgesAt(before, place, steps[0])
    requires forall e :: RootAt(after, place, e) <==> RootAt(before, place, e)
    ensures SomeAcknowledges(before, place, steps) <==> SomeAcknowledges(after, place, steps[1..])
  {
    assert steps == [steps[0]] + steps[1..];
    if SomeAcknowledges(before, place, steps) {
      var step :| step in steps && AcknowledgesAt(before, place, step);
      assert AcknowledgesAt(after, place, step);
    }
    if SomeAcknowledges(after, place, steps[1..]) {
      var step :| step in steps[1..] && AcknowledgesAt(after, place, step);
      assert AcknowledgesAt(before, place, step);
    }
  }

  /** Nothing but an acknowledgement disturbs a quiet place. */
  lemma StepKeepsQuiet(u: Setup, s: State, step: Step, place: Place, r: Id)
    requires u.engine == LegacyRefreshing && Enabled(u, s, step) && Quiet(s, place, r)
    requires step != Close(r) && !AcknowledgesAt(s.events, place, step)
    ensures Quiet(Apply(u, s, step), place, r)
    ensures forall e :: RootAt(Apply(u, s, step).events, place, e) <==> RootAt(s.events, place, e)
  {
    StepKeepsFitting(u, s, step);
    if step.Write? {
      forall e
        ensures var after := Apply(u, s, step).events;
                (RootAt(after, place, e) <==> RootAt(s.events, place, e)) && !ActiveAt(after, place, e)
      {
        QuietWrite(u, s, step.w, step.ids, place, r, e);
        assert !ActiveAt(s.events, place, e);
      }
      QuietWrite(u, s, step.w, step.ids, place, r, r);
    } else if step.Match? {
      MatchIsServed(u, s, step.w, step.found, place, r);
    } else {
      forall e
        ensures !ActiveAt(Apply(u, s, step).events, place, e)
      {
        assert !ActiveAt(s.events, place, e);
      }
    }
  }

  lemma MatchIsServed(u: Setup, s: State, w: WriterId, found: seq<Option<Id>>, place: Place, r: Id)
    requires u.engine == LegacyRefreshing && Enabled(u, s, Match(w, found)) && Quiet(s, place, r)
    ensures Served(Apply(u, s, Match(w, found)), place)
  {
    var rows := s.writers[w].rows;
    forall i | 0 <= i < |rows| && IsRoot(rows[i]) && PlaceOf(rows[i]) == place
      ensures found[i].Some?
    {
      assert Matches(u.engine, rows[i], s.events[r]);
    }
  }

  /** At some state of the run a ROOT event of the place is active. */
  ghost predicate EverActive(u: Setup, s: State, steps: seq<Step>, place: Place)
    decreases |steps|
  {
    (exists e :: ActiveAt(s.events, place, e))
    || (steps != [] && Enabled(u, s, steps[0]) && EverActive(u, Apply(u, s, steps[0]), steps[1..], place))
  }

  /**
   Once a latency, jitter or packet-loss event has recovered, the legacy engine never opens
   one for its place again, however often the threshold is breached and whether or not
   writers take locks: every lookup finds the recovered event, and the refresh does not
   reopen it. An event of the place becomes active if and only if an operator acknowledges
   one that is there.
   */
  lemma {:induction false} LegacyThresholdReopensIff(u: Setup, s: State, steps: seq<Step>, t: State, place: Place,
      r: Id)
    requires u.engine == LegacyRefreshing && Leads(u, s, steps, t) && Quiet(s, place, r) && Close(r) !in steps
    ensures EverActive(u, s, steps, place) <==> SomeAcknowledges(s.events, place, steps)
    decreases |steps|
  {
    if steps != [] {
      var step, next := steps[0], Apply(u, s, steps[0]);
      assert steps == [step] + steps[1..];
      if AcknowledgesAt(s.events, place, step) {
        assert step in steps;
        assert ActiveAt(next.events, place, step.e);
        assert EverActive(u, next, steps[1..], place);
      } else {
        assert step in steps;
        StepKeepsQuiet(u, s, step, place, r);
        LegacyThresholdReopensIff(u, next, steps[1..], t, place, r);
        SomeAcknowledgesLater(s.events, next.events, place, steps);
      }
    }
  }

  /** The same for what locking writers have left behind since the store was empty. */
  lemma LegacyThresholdNeverReopens(u: Setup, before: seq<Step>, s: State, steps: seq<Step>, t: State, place: Place,
      r: Id)
    requires u.engine == LegacyRefreshing && u.locking && Leads(u, EMPTY, before, s) && AllHarmless(u, EMPTY, before)
    requires RootAt(s.events, place, r) && s.events[r].status == Recovered
    requires forall w | w in s.writers :: HarmlessBatch(u.engine, s.writers[w])
    requires Leads(u, s, steps, t) && Close(r) !in steps
    ensures EverActive(u, s, steps, place) <==> SomeAcknowledges(s.events, place, steps)
  {
    RunsKeepConsistent(u, EMPTY, before, s);
    RecoveredIsQuiet(u, s, place, r);
    LegacyThresholdReopensIff(u, s, steps, t, place, r);
  }
}
