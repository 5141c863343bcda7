/** internal/trip: the lifecycle table, and the durable projection the trip worker writes. */
module Trips {
  import opened Models

  // ---- Lifecycle --------------------------------------------------------------------------------

  predicate CanTransition(from: TripState, to: TripState) {
    match from
    case REQUESTED => to == ASSIGNED || to == CANCELLED
    case ASSIGNED => to == IN_PROGRESS || to == CANCELLED
    case IN_PROGRESS => to == COMPLETED || to == CANCELLED
    case _ => false
  }

  predicate Terminal(s: TripState) { s == COMPLETED || s == CANCELLED }

  /** s is a path in the lifecycle graph. */
  predicate IsPath(s: seq<TripState>) {
    forall i :: 0 < i < |s| ==> CanTransition(s[i - 1], s[i])
  }

  ghost predicate Reaches(from: TripState, to: TripState) {
    exists s: seq<TripState> :: |s| >= 2 && IsPath(s) && s[0] == from && s[|s| - 1] == to
  }

  function Rank(s: TripState): nat {
    match s
    case REQUESTED => 0
    case ASSIGNED => 1
    case IN_PROGRESS => 2
    case _ => 3
  }

  lemma {:induction false} PathRanksRise(s: seq<TripState>)
    requires |s| >= 2 && IsPath(s)
    ensures Rank(s[0]) < Rank(s[|s| - 1])
  {
    if |s| > 2 {
      var t := s[..|s| - 1];
      PathRanksRise(t);
    }
    assert CanTransition(s[|s| - 2], s[|s| - 1]);
  }

  /** The lifecycle graph has no cycles, and its reachability order is the order of ranks. */
  lemma ReachesIffRankRises(from: TripState, to: TripState)
    ensures Reaches(from, to) <==> Rank(from) < Rank(to)
  {
    if s: seq<TripState> :| |s| >= 2 && IsPath(s) && s[0] == from && s[|s| - 1] == to {
      PathRanksRise(s);
    }
    if Rank(from) < Rank(to) {
      var s := if CanTransition(from, to) then [from, to]
               else if from == REQUESTED && to == COMPLETED then [from, ASSIGNED, IN_PROGRESS, to]
               else if from == REQUESTED then [from, ASSIGNED, to]
               else [from, IN_PROGRESS, to];
      assert IsPath(s) && s[0] == from && s[|s| - 1] == to;
    }
  }

  /** The six moves there are. */
  lemma LifecycleMoves(from: TripState, to: TripState)
    ensures CanTransition(from, to) <==>
            (from, to) in {(REQUESTED, ASSIGNED), (ASSIGNED, IN_PROGRESS), (IN_PROGRESS, COMPLETED),
                           (REQUESTED, CANCELLED), (ASSIGNED, CANCELLED), (IN_PROGRESS, CANCELLED)}
  {
  }

  function EventOf(t: Trip): TripEvent {
    TripEvent(t.id, t.rider, t.driver, t.region, t.state, t.surge)
  }

  // ---- The durable projection -------------------------------------------------------------------

  /** A row of the `trips` table without its id and clock columns; an entry of `trip_events`. */
  datatype Row = Row(rider: string, driver: string, region: string, state: TripState, surge: real)

  datatype AuditEntry = AuditEntry(trip: string, state: TripState, driver: string)

  datatype Db = Db(trips: map<string, Row>, events: seq<AuditEntry>)

  function RowOf(e: TripEvent): Row {
    Row(e.rider, e.driver, e.region, e.state, e.surge)
  }

  function EntryOf(e: TripEvent): AuditEntry {
    AuditEntry(e.trip, e.state, e.driver)
  }

  /** INSERT ... ON CONFLICT DO UPDATE: rider and region keep their first values. */
  function Upsert(trips: map<string, Row>, e: TripEvent): map<string, Row> {
    if e.trip in trips then
      trips[e.trip := trips[e.trip].(state := e.state, surge := e.surge,
                                     driver := if e.driver != "" then e.driver else trips[e.trip].driver)]
    else
      trips[e.trip := RowOf(e)]
  }

  function Applied(db: Db, e: TripEvent): Db {
    Db(Upsert(db.trips, e), db.events + [EntryOf(e)])
  }

  const EmptyDb := Db(map[], [])

  function ApplyAll(events: seq<TripEvent>): Db {
    if events == [] then EmptyDb else Applied(ApplyAll(events[..|events| - 1]), events[|events| - 1])
  }

  /** Where a transaction fails, if it does. */
  datatype Fault = NoFault | BeginFails | UpsertFails | AuditFails | CommitFails

  class Store {
    var trips: map<string, Row>
    var events: seq<AuditEntry>

    function Contents(): Db
      reads this
    {
      Db(trips, events)
    }

    constructor ()
      ensures Contents() == EmptyDb
    {
      trips, events := map[], [];
    }

    /** Both writes happen or neither does. */
    method Apply(e: TripEvent, fault: Fault) returns (r: Result<(), Fault>)
      modifies this
      ensures Contents() == if fault == NoFault then Applied(old(Contents()), e) else old(Contents())
      ensures r == if fault == NoFault then Success(()) else Failure(fault)
    {
      if fault == BeginFails {
        return Failure(fault);
      }
      var tripsInTx, eventsInTx := trips, events;
      if fault == UpsertFails {
        return Failure(fault);
      }
      if e.trip in tripsInTx {
        var row := tripsInTx[e.trip];
        var driver := if e.driver != "" then e.driver else row.driver;
        tripsInTx := tripsInTx[e.trip := row.(state := e.state, driver := driver, surge := e.surge)];
      } else {
        tripsInTx := tripsInTx[e.trip := Row(e.rider, e.driver, e.region, e.state, e.surge)];
      }
      if fault == AuditFails {
        return Failure(fault);
      }
      eventsInTx := eventsInTx + [AuditEntry(e.trip, e.state, e.driver)];
      if fault == CommitFails {
        return Failure(fault);
      }
      trips, events := tripsInTx, eventsInTx;
      return Success(());
    }

    method Get(id: string) returns (r: Option<Row>)
      ensures r == if id in trips then Some(trips[id]) else None
    {
      r := if id in trips then Some(trips[id]) else None;
    }
  }

  // ---- The projection is a fold of the audit log ------------------------------------------------

  /** e is the last entry for the trip; or its last entry that names a driver. */
  predicate IsLastFor(events: seq<AuditEntry>, id: string, i: nat) {
    i < |events| && events[i].trip == id && forall j :: i < j < |events| ==> events[j].trip != id
  }

  predicate IsLastDriverFor(events: seq<AuditEntry>, id: string, i: nat) {
    && i < |events| && events[i].trip == id && events[i].driver != ""
    && forall j :: i < j < |events| ==> events[j].trip != id || events[j].driver == ""
  }

  /** What the audit log alone says about a trip's row. */
  ghost predicate RowFromAudit(db: Db, id: string) {
    && (id in db.trips <==> exists i :: 0 <= i < |db.events| && db.events[i].trip == id)
    && (forall i: nat :: IsLastFor(db.events, id, i) ==> id in db.trips && db.trips[id].state == db.events[i].state)
    && (forall i: nat :: IsLastDriverFor(db.events, id, i) ==> id in db.trips && db.trips[id].driver == db.events[i].driver)
    && (id in db.trips && (forall i :: 0 <= i < |db.events| && db.events[i].trip == id ==> db.events[i].driver == "")
        ==> db.trips[id].driver == "")
  }

  lemma AppliedKeepsRowFromAudit(db: Db, e: TripEvent, id: string)
    requires RowFromAudit(db, id)
    ensures RowFromAudit(Applied(db, e), id)
  {
    var n, db' := |db.events|, Applied(db, e);
    assert db'.events[n] == EntryOf(e);
    assert forall i :: 0 <= i < n ==> db'.events[i] == db.events[i];
    forall i: nat | IsLastFor(db'.events, id, i)
      ensures id in db'.trips && db'.trips[id].state == db'.events[i].state
    {
      if i < n {
        assert db'.events[n].trip != id;
        assert IsLastFor(db.events, id, i);
      }
    }
    forall i: nat | IsLastDriverFor(db'.events, id, i)
      ensures id in db'.trips && db'.trips[id].driver == db'.events[i].driver
    {
      if i < n {
        assert db'.events[n].trip != id || db'.events[n].driver == "";
        assert IsLastDriverFor(db.events, id, i);
      }
    }
  }

  /** After any transactions, each row is the fold of the trip's audit entries: it exists exactly when
      there are some, its state is the last one's, its driver the last that is not empty. */
  lemma {:induction false} AuditDeterminesRow(events: seq<TripEvent>, id: string)
    ensures RowFromAudit(ApplyAll(events), id)
  {
    if events != [] {
      AuditDeterminesRow(events[..|events| - 1], id);
      AppliedKeepsRowFromAudit(ApplyAll(events[..|events| - 1]), events[|events| - 1], id);
    }
  }

  // ---- What each column holds ---------------------------------------------------------------------

  /** Events i and j are the trip's first and its last. */
  predicate AreEnds(events: seq<TripEvent>, id: string, i: nat, j: nat) {
    && i <= j < |events| && events[i].trip == id == events[j].trip
    && (forall k :: 0 <= k < i ==> events[k].trip != id)
    && forall k :: j < k < |events| ==> events[k].trip != id
  }

  /** k is the trip's last event to name a driver. */
  predicate IsLastNaming(events: seq<TripEvent>, id: string, k: nat) {
    && k < |events| && events[k].trip == id && events[k].driver != ""
    && forall m :: k < m < |events| ==> events[m].trip != id || events[m].driver == ""
  }

  predicate NobodyNamed(events: seq<TripEvent>, id: string) {
    forall k :: 0 <= k < |events| && events[k].trip == id ==> events[k].driver == ""
  }

  /** After any transactions a row holds: rider and region of the trip's first event, state and price of its
      last, and the last driver named. */
  lemma {:induction false} ColumnsOfRow(events: seq<TripEvent>, id: string, i: nat, j: nat)
    requires AreEnds(events, id, i, j)
    ensures var trips := ApplyAll(events).trips;
            && id in trips
            && trips[id].rider == events[i].rider && trips[id].region == events[i].region
            && trips[id].state == events[j].state && trips[id].surge == events[j].surge
            && (forall k: nat :: IsLastNaming(events, id, k) ==> trips[id].driver == events[k].driver)
            && (NobodyNamed(events, id) ==> trips[id].driver == "")
  {
    var n := |events| - 1;
    var g, e := events[..n], events[n];
    if e.trip != id {
      ColumnsOfRow(g, id, i, j);
      assert forall k: nat :: IsLastNaming(events, id, k) ==> IsLastNaming(g, id, k);
    } else if i < n {
      var m := LastBefore(events, id, i);
      ColumnsOfRow(g, id, i, m);
      assert forall k: nat :: IsLastNaming(events, id, k) && k < n ==> IsLastNaming(g, id, k);
    } else {
      NoEventNoRow(g, id);
    }
  }

  lemma LastBefore(events: seq<TripEvent>, id: string, i: nat) returns (m: nat)
    requires events != [] && i < |events| - 1 && events[i].trip == id
    requires forall k :: 0 <= k < i ==> events[k].trip != id
    ensures AreEnds(events[..|events| - 1], id, i, m)
  {
    m := |events| - 2;
    while events[m].trip != id
      decreases m
      invariant i <= m < |events| - 1
      invariant forall k :: m < k < |events| - 1 ==> events[k].trip != id
    {
      m := m - 1;
    }
  }

  lemma {:induction false} NoEventNoRow(events: seq<TripEvent>, id: string)
    requires forall k :: 0 <= k < |events| ==> events[k].trip != id
    ensures id !in ApplyAll(events).trips
  {
    if events != [] {
      NoEventNoRow(events[..|events| - 1], id);
    }
  }

  /** The audit log keeps every event applied, each time it is applied, in order. */
  lemma {:induction false} AuditIsTheEvents(events: seq<TripEvent>)
    ensures var log := ApplyAll(events).events;
            && |log| == |events|
            && forall k :: 0 <= k < |events| ==> log[k].trip == events[k].trip && log[k].state == events[k].state && log[k].driver == events[k].driver
  {
    if events != [] {
      AuditIsTheEvents(events[..|events| - 1]);
    }
  }
}
