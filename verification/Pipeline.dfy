/** The whole trip pipeline: many trips' handlers appending to a partitioned stream (cmd/api, internal/kafkax),
    and the trip worker applying it, partition by partition, to the database (cmd/tripworker, internal/trip).

    `route` is the writer's hash of a message key to a partition; nothing about it is assumed. */
module Pipeline {
  import opened Models
  import opened Trips
  import opened Lifecycle
  import opened Serial

  /** Histories: `applied` is the events applied, in order; `skipped` the partitions and places of those that failed
      to persist when last read. */
  datatype System = System(lives: map<string, Life>, topic: map<nat, seq<TripEvent>>, offsets: map<nat, nat>,
                           db: Db, applied: seq<TripEvent>, skipped: set<(nat, nat)>)

  datatype Action =
    | Ride(birth: Birth, h: nat)
    | On(id: string, step: Step)
    | Deliver(p: nat, fault: Fault)
    | Rewind(p: nat, to: nat)

  const Initial := System(map[], map[], map[], EmptyDb, [], {})

  function Log(s: System, p: nat): seq<TripEvent> {
    if p in s.topic then s.topic[p] else []
  }

  function Offset(s: System, p: nat): nat {
    if p in s.offsets then s.offsets[p] else 0
  }

  /** An id is new, a rider is named, and so is a matched driver. */
  function RideAction(s: System, b: Birth, h: nat): System {
    if b.id in s.lives || b.rider == "" || b.driver == Some("") then s
    else s.(lives := s.lives[b.id := Start(b, h)])
  }

  /** One step of a handler; an event it sends goes to the partition of the trip's region. */
  function HandlerAction(s: System, id: string, step: Step, route: string -> nat): System
    requires id in s.lives
  {
    var l := s.lives[id];
    var l' := Next(l, step);
    var s' := s.(lives := s.lives[id := l']);
    if |l'.sent| <= |l.sent| then s'
    else
      var e := l'.sent[|l'.sent| - 1];
      s'.(topic := s.topic[route(e.region) := Log(s, route(e.region)) + [e]])
  }

  /** The worker reads the next event of p; if it cannot be applied it is passed over all the same. */
  function DeliverAction(s: System, p: nat, fault: Fault): System
    requires Offset(s, p) < |Log(s, p)|
  {
    var o := Offset(s, p);
    var e, s' := Log(s, p)[o], s.(offsets := s.offsets[p := o + 1]);
    if fault == NoFault then s'.(db := Applied(s.db, e), applied := s.applied + [e], skipped := s.skipped - {(p, o)})
    else s'.(skipped := s.skipped + {(p, o)})
  }

  function Act(s: System, a: Action, route: string -> nat): System {
    match a
    case Ride(b, h) => RideAction(s, b, h)
    case On(id, step) => if id in s.lives then HandlerAction(s, id, step, route) else s
    case Deliver(p, fault) => if Offset(s, p) < |Log(s, p)| then DeliverAction(s, p, fault) else s
    case Rewind(p, to) => if to <= Offset(s, p) then s.(offsets := s.offsets[p := to]) else s
  }

  function After(actions: seq<Action>, route: string -> nat): System {
    if actions == [] then Initial else Act(After(actions[..|actions| - 1], route), actions[|actions| - 1], route)
  }

  lemma AfterMore(actions: seq<Action>, a: Action, route: string -> nat)
    ensures After(actions + [a], route) == Act(After(actions, route), a, route)
  {
    assert (actions + [a])[..|actions|] == actions;
  }

  // ---- The last event of a trip -----------------------------------------------------------------

  /** e is of trip id; with `driven`, it also names a driver. */
  predicate Matches(e: TripEvent, id: string, driven: bool) {
    e.trip == id && (driven ==> e.driver != "")
  }

  function Last(s: seq<TripEvent>, id: string, driven: bool): Option<TripEvent> {
    if s == [] then None
    else if Matches(s[|s| - 1], id, driven) then Some(s[|s| - 1])
    else Last(s[..|s| - 1], id, driven)
  }

  predicate NoneFrom(s: seq<TripEvent>, from: nat, id: string, driven: bool) {
    forall i :: from <= i < |s| ==> !Matches(s[i], id, driven)
  }

  lemma LastOfAppend(s: seq<TripEvent>, e: TripEvent, id: string, driven: bool)
    ensures Last(s + [e], id, driven) == if Matches(e, id, driven) then Some(e) else Last(s, id, driven)
  {
    assert (s + [e])[..|s|] == s;
  }

  lemma {:induction false} LastAt(s: seq<TripEvent>, i: nat, id: string, driven: bool)
    requires i < |s| && Matches(s[i], id, driven) && NoneFrom(s, i + 1, id, driven)
    ensures Last(s, id, driven) == Some(s[i])
  {
    if i < |s| - 1 {
      assert !Matches(s[|s| - 1], id, driven);
      LastAt(s[..|s| - 1], i, id, driven);
    }
  }

  lemma {:induction false} LastIsMatch(s: seq<TripEvent>, id: string, driven: bool)
    ensures Last(s, id, driven).Some? ==> Last(s, id, driven).value in s && Matches(Last(s, id, driven).value, id, driven)
    ensures Last(s, id, driven).None? ==> NoneFrom(s, 0, id, driven)
  {
    if s != [] {
      LastIsMatch(s[..|s| - 1], id, driven);
      assert forall i :: 0 <= i < |s| - 1 ==> s[i] == s[..|s| - 1][i];
    }
  }

  function RowFor(db: Db, id: string): Option<Row> {
    if id in db.trips then Some(db.trips[id]) else None
  }

  /** The row an in-order reader of s would keep for the trip. */
  function RowOfLast(s: seq<TripEvent>, id: string): Option<Row> {
    var e, d := Last(s, id, false), Last(s, id, true);
    if e.None? then None else Some(RowOf(e.value).(driver := if d.Some? then d.value.driver else ""))
  }

  /** All the trip's events in s name one rider and one region. */
  predicate Steady(s: seq<TripEvent>, id: string, rider: string, region: string) {
    forall e :: e in s && e.trip == id ==> e.rider == rider && e.region == region
  }

  /** Folding s into the table leaves a row that depends only on the trip's last event and last driver. */
  lemma {:induction false} FoldKeepsLast(s: seq<TripEvent>, id: string, rider: string, region: string)
    requires Steady(s, id, rider, region)
    ensures RowFor(ApplyAll(s), id) == RowOfLast(s, id)
  {
    if s != [] {
      var t, e := s[..|s| - 1], s[|s| - 1];
      FoldKeepsLast(t, id, rider, region);
      LastIsMatch(t, id, false);
      LastIsMatch(t, id, true);
      if Last(t, id, true).Some? && Last(t, id, false).None? {
        assert Matches(Last(t, id, true).value, id, false);
      }
    }
  }

  // ---- What every run keeps -----------------------------------------------------------------------

  /** The events of one trip in s, in order. */
  function Of(s: seq<TripEvent>, id: string): seq<TripEvent> {
    if s == [] then []
    else
      var t, e := Of(s[..|s| - 1], id), s[|s| - 1];
      if e.trip == id then t + [e] else t
  }

  lemma OfAppend(s: seq<TripEvent>, e: TripEvent, id: string)
    ensures Of(s + [e], id) == if e.trip == id then Of(s, id) + [e] else Of(s, id)
  {
    assert (s + [e])[..|s|] == s;
  }

  lemma {:induction false} OfMembers(s: seq<TripEvent>, e: TripEvent)
    ensures e in s <==> e in Of(s, e.trip)
  {
    if s != [] {
      OfMembers(s[..|s| - 1], e);
      assert s == s[..|s| - 1] + [s[|s| - 1]];
    }
  }

  lemma {:induction false} LastOfOf(s: seq<TripEvent>, id: string)
    ensures var t := Of(s, id); Last(s, id, false) == if t == [] then None else Some(t[|t| - 1])
  {
    if s != [] {
      LastOfOf(s[..|s| - 1], id);
    }
  }

  /** The partition of the trip's region. */
  function Home(s: System, id: string, route: string -> nat): nat
    requires id in s.lives
  {
    route(s.lives[id].birth.region)
  }

  ghost predicate LivesInv(s: System) {
    forall id :: id in s.lives ==> 
      Inv(s.lives[id]) && s.lives[id].birth.id == id && s.lives[id].birth.rider != "" && s.lives[id].birth.driver != Some("")
  }

  /** Each trip's stream is, in order, in the partition of its region, and nowhere else. */
  predicate StreamAt(s: System, route: string -> nat, p: nat, id: string) {
    Of(Log(s, p), id) == if id in s.lives && p == Home(s, id, route) then s.lives[id].sent else []
  }

  ghost predicate StreamsInv(s: System, route: string -> nat) {
    forall p, id :: StreamAt(s, route, p, id)
  }

  predicate AppliedInv(s: System, route: string -> nat) {
    forall e :: e in s.applied ==> e.trip in s.lives && e in Log(s, Home(s, e.trip, route))
  }

  predicate OffsetAt(s: System, p: nat) { Offset(s, p) <= |Log(s, p)| }

  ghost predicate OffsetsInv(s: System) {
    forall p :: OffsetAt(s, p)
  }

  /** The last of the trip's events in p failed to persist when it was last read. */
  ghost predicate PassedOver(s: System, p: nat, id: string) {
    exists k: nat :: (p, k) in s.skipped && IsLastAt(Log(s, p), k, id)
  }

  predicate IsLastAt(log: seq<TripEvent>, k: nat, id: string) {
    k < |log| && Matches(log[k], id, false) && NoneFrom(log, k + 1, id, false)
  }

  /** If nothing of the trip is left to read, and its last event not passed over, that is the last one applied. */
  ghost predicate CaughtUp(s: System, route: string -> nat, id: string) {
    id in s.lives ==>
      var p := Home(s, id, route);
      !PassedOver(s, p, id) && NoneFrom(Log(s, p), Offset(s, p), id, false) ==>
        Last(s.applied, id, false) == Last(Log(s, p), id, false)
  }

  ghost predicate CaughtUpInv(s: System, route: string -> nat) {
    forall id :: CaughtUp(s, route, id)
  }

  ghost predicate SystemInv(s: System, route: string -> nat) {
    && LivesInv(s) && StreamsInv(s, route) && AppliedInv(s, route) && OffsetsInv(s) && CaughtUpInv(s, route)
    && s.db == ApplyAll(s.applied)
  }

  lemma NotLogged(s: System, route: string -> nat, id: string, p: nat)
    requires StreamsInv(s, route) && id !in s.lives
    ensures forall e :: e in Log(s, p) ==> e.trip != id
  {
    assert StreamAt(s, route, p, id);
    forall e | e in Log(s, p)
      ensures e.trip != id
    {
      OfMembers(Log(s, p), e);
    }
  }

  /** s' differs from s in its lives only, and there in no identity and no stream; new trips have sent nothing. */
  predicate SameStreams(s: System, s': System) {
    && s' == s.(lives := s'.lives)
    && (forall id :: id in s.lives ==> id in s'.lives && s'.lives[id].birth == s.lives[id].birth && s'.lives[id].sent == s.lives[id].sent)
    && (forall id :: id in s'.lives && id !in s.lives ==> s'.lives[id].sent == [])
  }

  lemma SameStreamsKeep(s: System, s': System, route: string -> nat)
    requires SystemInv(s, route) && SameStreams(s, s')
    ensures StreamsInv(s', route) && AppliedInv(s', route) && OffsetsInv(s')
  {
    forall p, id
      ensures StreamAt(s', route, p, id)
    {
      assert StreamAt(s, route, p, id) && Log(s', p) == Log(s, p);
    }
    forall p
      ensures OffsetAt(s', p)
    {
      assert OffsetAt(s, p);
    }
    forall e | e in s'.applied
      ensures e.trip in s'.lives && e in Log(s', Home(s', e.trip, route))
    {
    }
  }

  lemma SameStreamsKeepCaughtUp(s: System, s': System, route: string -> nat)
    requires SystemInv(s, route) && SameStreams(s, s')
    ensures CaughtUpInv(s', route)
  {
    forall id | id in s'.lives
      ensures CaughtUp(s', route, id)
    {
      if id in s.lives {
        assert CaughtUp(s, route, id);
      } else {
        var p := Home(s', id, route);
        NotLogged(s, route, id, p);
        LastIsMatch(s.applied, id, false);
        LastIsMatch(Log(s, p), id, false);
      }
    }
  }

  lemma RideKeeps(s: System, b: Birth, h: nat, route: string -> nat)
    requires SystemInv(s, route)
    ensures SystemInv(RideAction(s, b, h), route)
  {
    var s' := RideAction(s, b, h);
    if s' != s {
      StartInv(b, h);
      SameStreamsKeep(s, s', route);
      SameStreamsKeepCaughtUp(s, s', route);
    }
  }

  lemma SentGrows(l: Life, step: Step)
    ensures var l' := Next(l, step);
            l'.sent == l.sent || (l'.sent != [] && l'.sent == l.sent + [l'.sent[|l'.sent| - 1]])
  {
  }

  lemma SentIsOfBirth(l: Life, i: nat)
    requires Inv(l) && i < |l.sent|
    ensures EventOfBirth(l.birth, l.sent[i])
  {
    assert EventInv(l.birth, l.written, l.sent, i);
  }

  lemma QuietStepKeeps(s: System, id: string, step: Step, route: string -> nat)
    requires SystemInv(s, route) && id in s.lives && Next(s.lives[id], step).sent == s.lives[id].sent
    ensures SystemInv(HandlerAction(s, id, step, route), route)
  {
    var s' := HandlerAction(s, id, step, route);
    NextInv(s.lives[id], step);
    assert s' == s.(lives := s.lives[id := Next(s.lives[id], step)]);
    SameStreamsKeep(s, s', route);
    SameStreamsKeepCaughtUp(s, s', route);
  }

  /** s' is s after the trip sent the event e. */
  predicate Sends(s: System, s': System, id: string, e: TripEvent, route: string -> nat)
    requires id in s.lives && id in s'.lives
  {
    && s' == s.(lives := s.lives[id := s'.lives[id]], topic := s.topic[Home(s, id, route) := Log(s, Home(s, id, route)) + [e]])
    && s'.lives[id].birth == s.lives[id].birth && s'.lives[id].sent == s.lives[id].sent + [e] && e.trip == id
  }

  lemma SendKeepsStreams(s: System, s': System, id: string, e: TripEvent, route: string -> nat)
    requires SystemInv(s, route) && id in s.lives && id in s'.lives && Sends(s, s', id, e, route)
    ensures StreamsInv(s', route)
  {
    forall p, i
      ensures StreamAt(s', route, p, i)
    {
      assert StreamAt(s, route, p, i);
      OfAppend(Log(s, Home(s, id, route)), e, i);
    }
  }

  lemma SendKeepsOffsets(s: System, s': System, id: string, e: TripEvent, route: string -> nat)
    requires SystemInv(s, route) && id in s.lives && id in s'.lives && Sends(s, s', id, e, route)
    ensures AppliedInv(s', route) && OffsetsInv(s')
  {
    forall p
      ensures OffsetAt(s', p)
    {
      assert OffsetAt(s, p);
    }
    forall f | f in s'.applied
      ensures f.trip in s'.lives && f in Log(s', Home(s', f.trip, route))
    {
      assert f in Log(s, Home(s, f.trip, route));
    }
  }

  lemma AppendWaits(log: seq<TripEvent>, o: nat, e: TripEvent, id: string)
    requires o <= |log| && NoneFrom(log + [e], o, id, false)
    ensures NoneFrom(log, o, id, false) && Last(log + [e], id, false) == Last(log, id, false)
  {
    LastOfAppend(log, e, id, false);
    assert (log + [e])[|log|] == e;
    assert forall j :: 0 <= j < |log| ==> (log + [e])[j] == log[j];
  }

  lemma SentCaughtUp(s: System, s': System, id: string, e: TripEvent, route: string -> nat, i: string)
    requires CaughtUp(s, route, i) && OffsetsInv(s) && id in s.lives && id in s'.lives && Sends(s, s', id, e, route) && i in s.lives
    ensures CaughtUp(s', route, i)
  {
    var q := Home(s, id, route);
    assert OffsetAt(s, q);
    if Home(s, i, route) == q && NoneFrom(Log(s', q), Offset(s, q), i, false) {
      assert !Matches(Log(s', q)[|Log(s, q)|], i, false);
      StillPassedOver(s, s', q, e, i);
      AppendWaits(Log(s, q), Offset(s, q), e, i);
    }
  }

  lemma StillPassedOver(s: System, s': System, p: nat, e: TripEvent, id: string)
    requires Log(s', p) == Log(s, p) + [e] && s'.skipped == s.skipped && !Matches(e, id, false)
    ensures PassedOver(s, p, id) ==> PassedOver(s', p, id)
  {
    if k: nat :| (p, k) in s.skipped && IsLastAt(Log(s, p), k, id) {
      assert IsLastAt(Log(s', p), k, id);
    }
  }

  lemma SendKeepsCaughtUp(s: System, s': System, id: string, e: TripEvent, route: string -> nat)
    requires SystemInv(s, route) && id in s.lives && id in s'.lives && Sends(s, s', id, e, route)
    ensures CaughtUpInv(s', route)
  {
    forall i | i in s'.lives
      ensures CaughtUp(s', route, i)
    {
      assert CaughtUp(s, route, i);
      SentCaughtUp(s, s', id, e, route, i);
    }
  }

  lemma SendingStepKeeps(s: System, id: string, step: Step, route: string -> nat)
    requires SystemInv(s, route) && id in s.lives && Next(s.lives[id], step).sent != s.lives[id].sent
    ensures SystemInv(HandlerAction(s, id, step, route), route)
  {
    var l := s.lives[id];
    var l', s' := Next(l, step), HandlerAction(s, id, step, route);
    NextInv(l, step);
    SentGrows(l, step);
    var e := l'.sent[|l'.sent| - 1];
    SentIsOfBirth(l', |l'.sent| - 1);
    assert Sends(s, s', id, e, route);
    SendKeepsStreams(s, s', id, e, route);
    SendKeepsOffsets(s, s', id, e, route);
    SendKeepsCaughtUp(s, s', id, e, route);
  }

  // ---- The worker's steps -------------------------------------------------------------------------

  lemma ReadOne(log: seq<TripEvent>, o: nat, applied: seq<TripEvent>, id: string)
    requires o < |log| && (NoneFrom(log, o, id, false) ==> Last(applied, id, false) == Last(log, id, false))
    ensures NoneFrom(log, o + 1, id, false) ==> Last(applied + [log[o]], id, false) == Last(log, id, false)
  {
    LastOfAppend(applied, log[o], id, false);
    if Matches(log[o], id, false) && NoneFrom(log, o + 1, id, false) {
      LastAt(log, o, id, false);
    }
  }

  /** Only the latest reading of the trip's last event decides whether it counts as passed over. */
  lemma OtherPlace(s: System, s': System, p: nat, o: nat, id: string)
    requires s'.topic == s.topic && !IsLastAt(Log(s, p), o, id)
    requires s'.skipped - {(p, o)} == s.skipped - {(p, o)}
    ensures PassedOver(s', p, id) <==> PassedOver(s, p, id)
  {
    forall k: nat | IsLastAt(Log(s, p), k, id)
      ensures (p, k) in s'.skipped <==> (p, k) in s.skipped
    {
      assert (p, k) in s'.skipped - {(p, o)} <==> (p, k) in s.skipped - {(p, o)};
    }
  }

  lemma OtherPartition(s: System, s': System, p: nat, o: nat, q: nat, id: string)
    requires s'.topic == s.topic && p != q && s'.skipped - {(p, o)} == s.skipped - {(p, o)}
    ensures PassedOver(s', q, id) <==> PassedOver(s, q, id)
  {
    forall k: nat
      ensures (q, k) in s'.skipped <==> (q, k) in s.skipped
    {
      assert (q, k) in s'.skipped - {(p, o)} <==> (q, k) in s.skipped - {(p, o)};
    }
  }

  lemma AppliedCatchesUp(s: System, p: nat, route: string -> nat, id: string)
    requires CaughtUp(s, route, id) && Offset(s, p) < |Log(s, p)| && id in s.lives && Home(s, id, route) == p
    ensures CaughtUp(DeliverAction(s, p, NoFault), route, id)
  {
    var o, s' := Offset(s, p), DeliverAction(s, p, NoFault);
    if !PassedOver(s', p, id) {
      if NoneFrom(Log(s, p), o, id, false) {
        OtherPlace(s, s', p, o, id);
      }
      ReadOne(Log(s, p), o, s.applied, id);
    }
  }

  lemma SkippedCatchesUp(s: System, p: nat, fault: Fault, route: string -> nat, id: string)
    requires CaughtUp(s, route, id) && Offset(s, p) < |Log(s, p)| && fault != NoFault && id in s.lives && Home(s, id, route) == p
    ensures CaughtUp(DeliverAction(s, p, fault), route, id)
  {
    var log, o, s' := Log(s, p), Offset(s, p), DeliverAction(s, p, fault);
    if !PassedOver(s', p, id) && NoneFrom(log, o + 1, id, false) {
      assert (p, o) in s'.skipped && !IsLastAt(log, o, id);
      OtherPlace(s, s', p, o, id);
      assert NoneFrom(log, o, id, false);
    }
  }

  lemma ElsewhereCaughtUp(s: System, p: nat, fault: Fault, route: string -> nat, id: string)
    requires StreamsInv(s, route) && CaughtUp(s, route, id) && Offset(s, p) < |Log(s, p)| && id in s.lives && Home(s, id, route) != p
    ensures CaughtUp(DeliverAction(s, p, fault), route, id)
  {
    var o, s' := Offset(s, p), DeliverAction(s, p, fault);
    OtherPartition(s, s', p, o, Home(s, id, route), id);
    HomeOfLogged(s, p, Log(s, p)[o], route);
    LastOfAppend(s.applied, Log(s, p)[o], id, false);
  }

  /** A logged event lies in its trip's home partition. */
  lemma HomeOfLogged(s: System, p: nat, e: TripEvent, route: string -> nat)
    requires StreamsInv(s, route) && e in Log(s, p)
    ensures e.trip in s.lives && p == Home(s, e.trip, route)
  {
    assert StreamAt(s, route, p, e.trip);
    OfMembers(Log(s, p), e);
  }

  lemma DeliverKeepsCaughtUp(s: System, p: nat, fault: Fault, route: string -> nat)
    requires SystemInv(s, route) && Offset(s, p) < |Log(s, p)|
    ensures CaughtUpInv(DeliverAction(s, p, fault), route)
  {
    forall id | id in s.lives
      ensures CaughtUp(DeliverAction(s, p, fault), route, id)
    {
      assert CaughtUp(s, route, id);
      if Home(s, id, route) != p {
        ElsewhereCaughtUp(s, p, fault, route, id);
      } else if fault == NoFault {
        AppliedCatchesUp(s, p, route, id);
      } else {
        SkippedCatchesUp(s, p, fault, route, id);
      }
    }
  }

  /** s' reads on, or again, from some place in p. */
  predicate Seeks(s: System, s': System, p: nat) {
    s'.lives == s.lives && s'.topic == s.topic && OffsetAt(s', p) && s'.offsets == s.offsets[p := Offset(s', p)]
  }

  lemma SeekKeeps(s: System, s': System, p: nat, route: string -> nat)
    requires StreamsInv(s, route) && OffsetsInv(s) && Seeks(s, s', p)
    ensures StreamsInv(s', route) && OffsetsInv(s')
  {
    forall q, id
      ensures StreamAt(s', route, q, id)
    {
      assert StreamAt(s, route, q, id);
    }
    forall q
      ensures OffsetAt(s', q)
    {
      assert OffsetAt(s, q);
    }
  }

  lemma DeliverKeeps(s: System, p: nat, fault: Fault, route: string -> nat)
    requires SystemInv(s, route) && Offset(s, p) < |Log(s, p)|
    ensures SystemInv(DeliverAction(s, p, fault), route)
  {
    var s', e := DeliverAction(s, p, fault), Log(s, p)[Offset(s, p)];
    HomeOfLogged(s, p, e, route);
    SeekKeeps(s, s', p, route);
    DeliverKeepsCaughtUp(s, p, fault, route);
    assert fault == NoFault ==> s'.applied[..|s.applied|] == s.applied;
  }

  lemma RewindKeeps(s: System, p: nat, to: nat, route: string -> nat)
    requires SystemInv(s, route) && to <= Offset(s, p)
    ensures SystemInv(s.(offsets := s.offsets[p := to]), route)
  {
    var s' := s.(offsets := s.offsets[p := to]);
    assert OffsetAt(s, p);
    SeekKeeps(s, s', p, route);
    forall id | id in s'.lives
      ensures CaughtUp(s', route, id)
    {
      assert CaughtUp(s, route, id);
    }
  }

  lemma InitialInv(route: string -> nat)
    ensures SystemInv(Initial, route)
  {
    forall p, id
      ensures StreamAt(Initial, route, p, id)
    {
    }
  }

  lemma {:induction false} ReachableInv(actions: seq<Action>, route: string -> nat)
    ensures SystemInv(After(actions, route), route)
  {
    if actions == [] {
      InitialInv(route);
    } else {
      var s := After(actions[..|actions| - 1], route);
      ReachableInv(actions[..|actions| - 1], route);
      match actions[|actions| - 1]
      case Ride(b, h) => RideKeeps(s, b, h, route);
      case On(id, step) =>
        if id in s.lives {
          if Next(s.lives[id], step).sent == s.lives[id].sent {
            QuietStepKeeps(s, id, step, route);
          } else {
            SendingStepKeeps(s, id, step, route);
          }
        }
      case Deliver(p, fault) => if Offset(s, p) < |Log(s, p)| { DeliverKeeps(s, p, fault, route); }
      case Rewind(p, to) => if to <= Offset(s, p) { RewindKeeps(s, p, to, route); }
    }
  }

  // ---- Results ------------------------------------------------------------------------------------

  lemma HomeOfRegion(s: System, route: string -> nat, p: nat, e: TripEvent)
    requires SystemInv(s, route) && e in Log(s, p)
    ensures p == route(e.region) && e.trip in s.lives
  {
    HomeOfLogged(s, p, e, route);
    LoggedIsOfBirth(s, route, e.trip, e);
  }

  /** Sharding by region: an event lies in the partition its region hashes to. */
  ghost predicate EventsShard(s: System, route: string -> nat) {
    forall p, e :: e in Log(s, p) ==> p == route(e.region) && e.trip in s.lives
  }

  /** A trip's events, in the order sent, are its home partition's events for the trip. */
  ghost predicate StreamsShard(s: System, route: string -> nat) {
    forall id :: id in s.lives ==> Of(Log(s, Home(s, id, route)), id) == s.lives[id].sent
  }

  lemma InvShardsEvents(s: System, route: string -> nat)
    requires SystemInv(s, route)
    ensures EventsShard(s, route)
  {
    forall p, e | e in Log(s, p)
      ensures p == route(e.region) && e.trip in s.lives
    {
      HomeOfRegion(s, route, p, e);
    }
  }

  lemma InvShardsStreams(s: System, route: string -> nat)
    requires SystemInv(s, route)
    ensures StreamsShard(s, route)
  {
    forall id | id in s.lives
      ensures Of(Log(s, Home(s, id, route)), id) == s.lives[id].sent
    {
      assert StreamAt(s, route, Home(s, id, route), id);
    }
  }

  lemma StreamsStayHome(actions: seq<Action>, route: string -> nat)
    ensures EventsShard(After(actions, route), route) && StreamsShard(After(actions, route), route)
  {
    ReachableInv(actions, route);
    InvShardsEvents(After(actions, route), route);
    InvShardsStreams(After(actions, route), route);
  }

  lemma LoggedIsOfBirth(s: System, route: string -> nat, id: string, e: TripEvent)
    requires SystemInv(s, route) && id in s.lives && e in Log(s, Home(s, id, route)) && e.trip == id
    ensures EventOfBirth(s.lives[id].birth, e) && e in s.lives[id].sent
  {
    assert StreamAt(s, route, Home(s, id, route), id);
    OfMembers(Log(s, Home(s, id, route)), e);
    var i :| 0 <= i < |s.lives[id].sent| && s.lives[id].sent[i] == e;
    SentIsOfBirth(s.lives[id], i);
  }

  predicate LoggedIn(s: System, p: nat, id: string) {
    exists e :: e in Log(s, p) && e.trip == id
  }

  lemma NeverLoggedNoRow(s: System, route: string -> nat, id: string)
    requires SystemInv(s, route) && forall p :: !LoggedIn(s, p, id)
    ensures RowFor(s.db, id) == None
  {
    forall e | e in s.applied
      ensures e.trip != id
    {
      assert id in s.lives ==> !LoggedIn(s, Home(s, id, route), id);
    }
    FoldKeepsLast(s.applied, id, "", "");
    LastIsMatch(s.applied, id, false);
  }

  /** Every partition has been read to its end. */
  ghost predicate Drained(s: System) {
    forall p :: AtEnd(s, p)
  }

  predicate AtEnd(s: System, p: nat) { Offset(s, p) == |Log(s, p)| }

  /** The trip's events in es are among those in the trip's partition. */
  predicate FromLog(s: System, route: string -> nat, id: string, es: seq<TripEvent>)
    requires id in s.lives
  {
    forall e :: e in es && e.trip == id ==> e in Log(s, Home(s, id, route))
  }

  /** A reader of some of a trip's events, of which the last is the last logged, keeps that event as the row. */
  lemma LastEventIsRow(s: System, route: string -> nat, id: string, es: seq<TripEvent>, e: TripEvent)
    requires SystemInv(s, route) && id in s.lives && FromLog(s, route, id, es)
    requires Last(es, id, false) == Some(e) == Last(Log(s, Home(s, id, route)), id, false)
    ensures RowFor(ApplyAll(es), id) == Some(RowOf(e))
  {
    var b := s.lives[id].birth;
    SomeAreSteady(s, route, id, es);
    FoldKeepsLast(es, id, b.rider, b.region);
    LastIsMatch(es, id, false);
    LoggedIsOfBirth(s, route, id, e);
    if e.state == REQUESTED {
      OnlyRequested(s, route, id, es, e);
    } else {
      LastNamesDriver(es, id);
    }
  }

  lemma {:induction false} LastNamesDriver(s: seq<TripEvent>, id: string)
    requires Last(s, id, false).Some? && Last(s, id, false).value.driver != ""
    ensures Last(s, id, true) == Last(s, id, false)
  {
    if !Matches(s[|s| - 1], id, false) {
      LastNamesDriver(s[..|s| - 1], id);
    }
  }

  lemma SomeAreSteady(s: System, route: string -> nat, id: string, es: seq<TripEvent>)
    requires SystemInv(s, route) && id in s.lives && FromLog(s, route, id, es)
    ensures Steady(es, id, s.lives[id].birth.rider, s.lives[id].birth.region)
  {
    forall e | e in es && e.trip == id
      ensures EventOfBirth(s.lives[id].birth, e)
    {
      LoggedIsOfBirth(s, route, id, e);
    }
  }

  /** While REQUESTED is a trip's last event no driver has been named. */
  lemma OnlyRequested(s: System, route: string -> nat, id: string, es: seq<TripEvent>, e: TripEvent)
    requires SystemInv(s, route) && id in s.lives && FromLog(s, route, id, es) && e.state == REQUESTED
    requires Last(Log(s, Home(s, id, route)), id, false) == Some(e)
    ensures Last(es, id, true) == None
  {
    var l, p := s.lives[id], Home(s, id, route);
    assert StreamAt(s, route, p, id);
    LastOfOf(Log(s, p), id);
    assert EventInv(l.birth, l.written, l.sent, |l.sent| - 1);
    assert l.sent == [e] by {
      assert forall t :: t in l.written ==> EventOf(t).state != REQUESTED;
    }
    LastIsMatch(es, id, true);
    var d := Last(es, id, true);
    if d.Some? {
      LoggedIsOfBirth(s, route, id, d.value);
    }
  }

  /** If events of a trip failed to persist, but the last one logged is the last one applied, nothing shows. */
  lemma LastEventHeals(s: System, route: string -> nat, id: string)
    requires SystemInv(s, route) && id in s.lives
    requires var e := Last(Log(s, Home(s, id, route)), id, false); e.Some? && Last(s.applied, id, false) == e
    ensures var e := Last(s.applied, id, false).value; RowFor(s.db, id) == Some(Row(e.rider, e.driver, e.region, e.state, e.surge))
  {
    LastEventIsRow(s, route, id, s.applied, Last(s.applied, id, false).value);
  }

  /** However deliveries of the partitions interleave, fail to persist and are rewound: once a trip's partition
      has been read to its end, and the trip's last event did not fail when last read, its row is the in-order
      fold of the partition's log. */
  lemma DrainedRowIsFold(actions: seq<Action>, route: string -> nat, id: string)
    requires id in After(actions, route).lives
    requires var s := After(actions, route); !PassedOver(s, Home(s, id, route), id) && AtEnd(s, Home(s, id, route))
    ensures var s := After(actions, route); RowFor(s.db, id) == RowFor(ApplyAll(Log(s, Home(s, id, route))), id)
  {
    ReachableInv(actions, route);
    InvFoldsDrained(After(actions, route), route, id);
  }

  lemma InvFoldsDrained(s: System, route: string -> nat, id: string)
    requires SystemInv(s, route) && id in s.lives
    requires !PassedOver(s, Home(s, id, route), id) && AtEnd(s, Home(s, id, route))
    ensures RowFor(s.db, id) == RowFor(ApplyAll(Log(s, Home(s, id, route))), id)
  {
    var b, log := s.lives[id].birth, Log(s, Home(s, id, route));
    assert CaughtUp(s, route, id);
    var e := Last(log, id, false);
    if e.Some? {
      LastEventIsRow(s, route, id, s.applied, e.value);
      LastEventIsRow(s, route, id, log, e.value);
    } else {
      SomeAreSteady(s, route, id, s.applied);
      SomeAreSteady(s, route, id, log);
      FoldKeepsLast(s.applied, id, b.rider, b.region);
      FoldKeepsLast(log, id, b.rider, b.region);
    }
  }

  lemma LoggedRowIsFold(actions: seq<Action>, route: string -> nat, p: nat, id: string)
    requires var s := After(actions, route); LoggedIn(s, p, id) && !PassedOver(s, p, id) && AtEnd(s, p)
    ensures RowFor(After(actions, route).db, id) == RowFor(ApplyAll(Log(After(actions, route), p)), id)
  {
    ReachableInv(actions, route);
    var s := After(actions, route);
    var e :| e in Log(s, p) && e.trip == id;
    HomeOfLogged(s, p, e, route);
    DrainedRowIsFold(actions, route, id);
  }

  ghost predicate AllPersisted(s: System) {
    forall p, id :: !PassedOver(s, p, id)
  }

  /** Two workers that have read the same topic to the end, in whatever orders, hold the same table, if neither
      failed to persist a trip's last event when it last read it. */
  lemma DrainedTablesAgree(actions: seq<Action>, actions': seq<Action>, route: string -> nat)
    requires var s, s' := After(actions, route), After(actions', route);
             s.topic == s'.topic && AllPersisted(s) && AllPersisted(s') && Drained(s) && Drained(s')
    ensures After(actions, route).db.trips == After(actions', route).db.trips
  {
    var s, s' := After(actions, route), After(actions', route);
    forall id
      ensures RowFor(s.db, id) == RowFor(s'.db, id)
    {
      if p :| LoggedIn(s, p, id) {
        assert Log(s, p) == Log(s', p) && AtEnd(s, p) && AtEnd(s', p) && !PassedOver(s, p, id) && !PassedOver(s', p, id);
        LoggedRowIsFold(actions, route, p, id);
        LoggedRowIsFold(actions', route, p, id);
      } else {
        ReachableInv(actions, route);
        ReachableInv(actions', route);
        assert forall p :: Log(s, p) == Log(s', p) && !LoggedIn(s, p, id);
        NeverLoggedNoRow(s, route, id);
        NeverLoggedNoRow(s', route, id);
      }
    }
    TablesEqual(s.db, s'.db);
  }

  /** No transaction fails. */
  ghost predicate NoFaults(actions: seq<Action>) {
    forall i :: 0 <= i < |actions| && actions[i].Deliver? ==> actions[i].fault == NoFault
  }

  lemma {:induction false} NothingSkipped(actions: seq<Action>, route: string -> nat)
    requires NoFaults(actions)
    ensures After(actions, route).skipped == {}
  {
    if actions != [] {
      NothingSkipped(actions[..|actions| - 1], route);
    }
  }

  /** So interleaving and rewinding alone never show: where no transaction fails, the drained table depends on
      the topic only. */
  lemma TopicDeterminesTable(actions: seq<Action>, actions': seq<Action>, route: string -> nat)
    requires NoFaults(actions) && NoFaults(actions')
    requires var s, s' := After(actions, route), After(actions', route); s.topic == s'.topic && Drained(s) && Drained(s')
    ensures After(actions, route).db.trips == After(actions', route).db.trips
  {
    NothingSkipped(actions, route);
    NothingSkipped(actions', route);
    DrainedTablesAgree(actions, actions', route);
  }

  lemma TablesEqual(d: Db, d': Db)
    requires forall id :: RowFor(d, id) == RowFor(d', id)
    ensures d.trips == d'.trips
  {
    forall id
      ensures id in d.trips <==> id in d'.trips
      ensures id in d.trips ==> d.trips[id] == d'.trips[id]
    {
      assert RowFor(d, id) == RowFor(d', id);
    }
  }

  // ---- Serial trips: cache, stream and table agree --------------------------------------------------

  /** No handler of the trip ever starts while another is in flight. */
  predicate SerialFor(actions: seq<Action>, route: string -> nat, id: string) {
    actions != [] ==>
      var s, a := After(actions[..|actions| - 1], route), actions[|actions| - 1];
      SerialFor(actions[..|actions| - 1], route, id) && (a.On? && a.id == id && id in s.lives ==> Alone(s.lives[id], a.step))
  }

  lemma {:induction false} SerialLife(actions: seq<Action>, route: string -> nat, id: string)
    requires SerialFor(actions, route, id)
    ensures id in After(actions, route).lives ==> SerialInv(After(actions, route).lives[id])
  {
    if actions != [] {
      var s, a := After(actions[..|actions| - 1], route), actions[|actions| - 1];
      SerialLife(actions[..|actions| - 1], route, id);
      match a
      case Ride(b, h) => StartSerial(b, h);
      case On(i, step) => if i == id && id in s.lives { NextSerial(s.lives[id], step); }
      case Deliver(_, _) =>
      case Rewind(_, _) =>
    }
  }

  /** In every reachable state, once a trip's partition is read with the trip's last event persisted: the durable
      row is the cached trip, in every business field, exactly when that trip's event was the last sent. */
  lemma RowIsCachedIff(actions: seq<Action>, route: string -> nat, id: string)
    requires var s := After(actions, route);
             && id in s.lives && s.lives[id].cached.Some?
             && !PassedOver(s, Home(s, id, route), id) && AtEnd(s, Home(s, id, route))
    ensures var s, l := After(actions, route), After(actions, route).lives[id];
            var t := l.cached.value;
            RowFor(s.db, id) == Some(Row(t.rider, t.driver, t.region, t.state, t.surge)) <==>
            l.sent != [] && l.sent[|l.sent| - 1] == EventOf(l.cached.value)
  {
    ReachableInv(actions, route);
    InvRowIsCachedIff(After(actions, route), route, id);
  }

  lemma InvRowIsCachedIff(s: System, route: string -> nat, id: string)
    requires SystemInv(s, route) && id in s.lives && s.lives[id].cached.Some?
    requires !PassedOver(s, Home(s, id, route), id) && AtEnd(s, Home(s, id, route))
    ensures var l := s.lives[id];
            RowFor(s.db, id) == Some(RowOf(EventOf(l.cached.value))) <==>
            l.sent != [] && l.sent[|l.sent| - 1] == EventOf(l.cached.value)
  {
    var l, p := s.lives[id], Home(s, id, route);
    assert StreamAt(s, route, p, id) && CaughtUp(s, route, id);
    LastOfOf(Log(s, p), id);
    if l.sent == [] {
      SomeAreSteady(s, route, id, s.applied);
      FoldKeepsLast(s.applied, id, l.birth.rider, l.birth.region);
    } else {
      LastEventHeals(s, route, id);
      LastIsMatch(Log(s, p), id, false);
      assert l.cached.value in l.written;
    }
  }

  /** Which is so if its handlers do not overlap, none is in flight, and no event was lost. */
  lemma CacheAndTableAgree(actions: seq<Action>, route: string -> nat, id: string)
    requires SerialFor(actions, route, id)
    requires var s := After(actions, route);
             && id in s.lives && s.lives[id].cached.Some? && Idle(s.lives[id]) && !s.lives[id].lost
             && !PassedOver(s, Home(s, id, route), id) && AtEnd(s, Home(s, id, route))
    ensures var s := After(actions, route);
            var t := s.lives[id].cached.value;
            RowFor(s.db, id) == Some(Row(t.rider, t.driver, t.region, t.state, t.surge))
  {
    SerialLife(actions, route, id);
    InStepIsShapely(After(actions, route).lives[id]);
    RowIsCachedIff(actions, route, id);
  }

  // ---- When a row is current ------------------------------------------------------------------------

  /** Whatever handlers overlapped, and whatever was passed over or replayed: a trip's row is what its last
      logged event says exactly when that event is the last of the trip's to have been applied. */
  lemma RowIsCurrentIff(actions: seq<Action>, route: string -> nat, id: string)
    requires var s := After(actions, route); id in s.lives && Last(Log(s, Home(s, id, route)), id, false).Some?
    ensures var s := After(actions, route);
            var e := Last(Log(s, Home(s, id, route)), id, false).value;
            RowFor(s.db, id) == Some(Row(e.rider, e.driver, e.region, e.state, e.surge)) <==> Last(s.applied, id, false) == Some(e)
  {
    ReachableInv(actions, route);
    InvRowIsCurrentIff(After(actions, route), route, id);
  }

  lemma InvRowIsCurrentIff(s: System, route: string -> nat, id: string)
    requires SystemInv(s, route) && id in s.lives && Last(Log(s, Home(s, id, route)), id, false).Some?
    ensures var e := Last(Log(s, Home(s, id, route)), id, false);
            RowFor(s.db, id) == Some(RowOf(e.value)) <==> Last(s.applied, id, false) == e
  {
    var p, b := Home(s, id, route), s.lives[id].birth;
    var e, d := Last(Log(s, p), id, false), Last(s.applied, id, false);
    if d == e {
      LastEventHeals(s, route, id);
    } else {
      SomeAreSteady(s, route, id, s.applied);
      FoldKeepsLast(s.applied, id, b.rider, b.region);
      LastIsMatch(s.applied, id, false);
      LastIsMatch(Log(s, p), id, false);
      if d.Some? {
        LoggedIsOfBirth(s, route, id, d.value);
        LoggedIsOfBirth(s, route, id, e.value);
      }
    }
  }

  // ---- Without a restart nothing is retried -----------------------------------------------------------

  /** e was read at place k, successfully, and is not to be read again. */
  predicate AppliedAt(s: System, route: string -> nat, e: TripEvent, k: nat) {
    var p := route(e.region);
    k < Offset(s, p) && k < |Log(s, p)| && Log(s, p)[k] == e && (p, k) !in s.skipped
  }

  ghost predicate OnceRead(s: System, route: string -> nat) {
    forall e :: e in s.applied ==> exists k: nat :: AppliedAt(s, route, e, k)
  }

  predicate Extends(s: System, s': System, p: nat) { Log(s, p) <= Log(s', p) }

  lemma GrowthKeepsOnceRead(s: System, s': System, route: string -> nat)
    requires OnceRead(s, route) && forall p :: Extends(s, s', p)
    requires s'.applied == s.applied && s'.skipped == s.skipped && s'.offsets == s.offsets
    ensures OnceRead(s', route)
  {
    forall e | e in s'.applied
      ensures exists k: nat :: AppliedAt(s', route, e, k)
    {
      var k: nat :| AppliedAt(s, route, e, k);
      assert Extends(s, s', route(e.region));
      assert AppliedAt(s', route, e, k);
    }
  }

  lemma DeliverKeepsOnceRead(s: System, p: nat, fault: Fault, route: string -> nat)
    requires SystemInv(s, route) && OnceRead(s, route) && Offset(s, p) < |Log(s, p)|
    ensures OnceRead(DeliverAction(s, p, fault), route)
  {
    var o, s' := Offset(s, p), DeliverAction(s, p, fault);
    forall e | e in s'.applied
      ensures exists k: nat :: AppliedAt(s', route, e, k)
    {
      if e in s.applied {
        var k: nat :| AppliedAt(s, route, e, k);
        assert AppliedAt(s', route, e, k);
      } else {
        HomeOfRegion(s, route, p, e);
        assert AppliedAt(s', route, e, o);
      }
    }
  }

  ghost predicate NoRewind(actions: seq<Action>) {
    forall i :: 0 <= i < |actions| ==> !actions[i].Rewind?
  }

  lemma HandlerExtends(s: System, id: string, step: Step, route: string -> nat)
    requires id in s.lives
    ensures forall p :: Extends(s, HandlerAction(s, id, step, route), p)
  {
  }

  lemma {:induction false} ReadOnce(actions: seq<Action>, route: string -> nat)
    requires NoRewind(actions)
    ensures OnceRead(After(actions, route), route)
  {
    if actions != [] {
      var rest, a := actions[..|actions| - 1], actions[|actions| - 1];
      var s := After(rest, route);
      ReadOnce(rest, route);
      match a
      case Ride(b, h) => GrowthKeepsOnceRead(s, RideAction(s, b, h), route);
      case On(id, step) =>
        if id in s.lives {
          HandlerExtends(s, id, step, route);
          GrowthKeepsOnceRead(s, HandlerAction(s, id, step, route), route);
        }
      case Deliver(p, fault) =>
        if Offset(s, p) < |Log(s, p)| {
          ReachableInv(rest, route);
          DeliverKeepsOnceRead(s, p, fault, route);
        }
    }
  }

  /** Two of a trip's events in a log are two of its stream, in the same order. */
  lemma {:induction false} TwoOf(log: seq<TripEvent>, id: string, i: nat, j: nat)
    requires i < j < |log| && log[i].trip == id == log[j].trip
    ensures exists a, b :: 0 <= a < b < |Of(log, id)| && Of(log, id)[a] == log[i] && Of(log, id)[b] == log[j]
  {
    var t := log[..|log| - 1];
    if j < |t| {
      TwoOf(t, id, i, j);
      assert t[i] == log[i] && t[j] == log[j];
      var a, b :| 0 <= a < b < |Of(t, id)| && Of(t, id)[a] == log[i] && Of(t, id)[b] == log[j];
      assert Of(log, id)[a] == log[i] && Of(log, id)[b] == log[j];
    } else {
      OfMembers(t, log[i]);
      assert t[i] == log[i];
      var a :| 0 <= a < |Of(t, id)| && Of(t, id)[a] == log[i];
      assert Of(log, id)[a] == log[i] && Of(log, id)[|Of(t, id)|] == log[j];
    }
  }

  lemma NoRepeats(log: seq<TripEvent>, id: string, i: nat, j: nat)
    requires i < |log| && j < |log| && log[i] == log[j] && log[i].trip == id && RanksRise(Of(log, id))
    ensures i == j
  {
    if i < j {
      TwoOf(log, id, i, j);
    } else if j < i {
      TwoOf(log, id, j, i);
    }
  }

  /** The trip's last event in the log is not the same as an earlier one. */
  ghost predicate LastIsNew(log: seq<TripEvent>, id: string) {
    forall k: nat, m: nat :: k < |log| && IsLastAt(log, m, id) && log[k] == log[m] ==> k == m
  }

  lemma PassedOverIsUnapplied(s: System, route: string -> nat, id: string)
    requires SystemInv(s, route) && OnceRead(s, route) && id in s.lives && LastIsNew(Log(s, Home(s, id, route)), id)
    requires PassedOver(s, Home(s, id, route), id)
    ensures Last(s.applied, id, false) != Last(Log(s, Home(s, id, route)), id, false)
  {
    var p := Home(s, id, route);
    var m: nat :| (p, m) in s.skipped && IsLastAt(Log(s, p), m, id);
    var e := Log(s, p)[m];
    LastAt(Log(s, p), m, id, false);
    LastIsMatch(s.applied, id, false);
    LoggedIsOfBirth(s, route, id, e);
  }

  /** While the worker is not set back: a row it has caught up with is what the last logged event says exactly
      when that event did not fail to persist, provided it does not repeat an earlier one. Nothing retries it. */
  lemma RowIsCurrentIffPersisted(actions: seq<Action>, route: string -> nat, id: string)
    requires NoRewind(actions)
    requires var s := After(actions, route);
             && id in s.lives && AtEnd(s, Home(s, id, route)) && LastIsNew(Log(s, Home(s, id, route)), id)
             && Last(Log(s, Home(s, id, route)), id, false).Some?
    ensures var s := After(actions, route);
            var e := Last(Log(s, Home(s, id, route)), id, false).value;
            RowFor(s.db, id) == Some(Row(e.rider, e.driver, e.region, e.state, e.surge)) <==> !PassedOver(s, Home(s, id, route), id)
  {
    var s := After(actions, route);
    ReachableInv(actions, route);
    ReadOnce(actions, route);
    RowIsCurrentIff(actions, route, id);
    assert CaughtUp(s, route, id);
    if PassedOver(s, Home(s, id, route), id) {
      PassedOverIsUnapplied(s, route, id);
    }
  }

  /** Where handlers do not overlap no event is ever repeated. */
  lemma SerialIsNew(actions: seq<Action>, route: string -> nat, id: string)
    requires SerialFor(actions, route, id) && id in After(actions, route).lives
    ensures var s := After(actions, route); LastIsNew(Log(s, Home(s, id, route)), id)
  {
    ReachableInv(actions, route);
    SerialLife(actions, route, id);
    var s := After(actions, route);
    var log := Log(s, Home(s, id, route));
    assert StreamAt(s, route, Home(s, id, route), id);
    forall k: nat, m: nat | k < |log| && IsLastAt(log, m, id) && log[k] == log[m]
      ensures k == m
    {
      NoRepeats(log, id, k, m);
    }
  }

  // ---- A restart reads again ------------------------------------------------------------------------

  /** The run, and then the next n events of p are read, and none fails to persist. */
  function Reads(actions: seq<Action>, p: nat, n: nat): seq<Action> {
    if n == 0 then actions else Reads(actions, p, n - 1) + [Deliver(p, NoFault)]
  }

  /** t has read n events of p more than s, and persisted them. */
  predicate ReadMore(s: System, t: System, p: nat, n: nat) {
    var o := Offset(s, p);
    && o + n <= |Log(s, p)| && t.lives == s.lives && t.topic == s.topic && Offset(t, p) == o + n
    && t.applied == s.applied + Log(s, p)[o..o + n]
    && t.skipped <= s.skipped && forall k :: o <= k < o + n ==> (p, k) !in t.skipped
  }

  lemma SliceMore(log: seq<TripEvent>, o: nat, n: nat)
    requires o + n < |log|
    ensures log[o..o + n + 1] == log[o..o + n] + [log[o + n]]
  {
  }

  lemma ReadOneMore(s: System, t: System, p: nat, n: nat, route: string -> nat)
    requires ReadMore(s, t, p, n) && Offset(s, p) + n < |Log(s, p)|
    ensures ReadMore(s, Act(t, Deliver(p, NoFault), route), p, n + 1)
  {
    SliceMore(Log(s, p), Offset(s, p), n);
  }

  lemma {:induction false} ReadsRead(actions: seq<Action>, s: System, route: string -> nat, p: nat, n: nat)
    requires After(actions, route) == s && Offset(s, p) + n <= |Log(s, p)|
    ensures ReadMore(s, After(Reads(actions, p, n), route), p, n)
  {
    if n > 0 {
      ReadsRead(actions, s, route, p, n - 1);
      ReadOneMore(s, After(Reads(actions, p, n - 1), route), p, n - 1, route);
      AfterMore(Reads(actions, p, n - 1), Deliver(p, NoFault), route);
    }
  }

  /** The run, and then the worker is set back to the place `to` of p and reads on, n events. */
  function Restart(actions: seq<Action>, p: nat, to: nat, n: nat): seq<Action> {
    Reads(actions + [Rewind(p, to)], p, n)
  }

  function SetBack(s: System, p: nat, to: nat): System { s.(offsets := s.offsets[p := to]) }

  lemma RestartReads(actions: seq<Action>, route: string -> nat, p: nat, to: nat)
    requires var s := After(actions, route); to <= Offset(s, p) && to <= |Log(s, p)|
    ensures var s := After(actions, route);
            ReadMore(SetBack(s, p, to), After(Restart(actions, p, to, |Log(s, p)| - to), route), p, |Log(s, p)| - to)
  {
    var s := After(actions, route);
    AfterMore(actions, Rewind(p, to), route);
    ReadsRead(actions + [Rewind(p, to)], SetBack(s, p, to), route, p, |Log(s, p)| - to);
  }

  /** t has read p from `to` to the end, and persisted all that, after s. */
  predicate Reread(s: System, t: System, p: nat, to: nat)
    requires to <= |Log(s, p)|
  {
    t.lives == s.lives && t.topic == s.topic && AtEnd(t, p) && t.applied == s.applied + Log(s, p)[to..] && t.skipped <= s.skipped
  }

  lemma ReadToEnd(s: System, t: System, p: nat, to: nat)
    requires to <= |Log(s, p)| && ReadMore(SetBack(s, p, to), t, p, |Log(s, p)| - to)
    ensures Reread(s, t, p, to)
  {
    assert Log(s, p)[to..|Log(s, p)|] == Log(s, p)[to..];
  }

  lemma {:induction false} OthersKeepRow(a: seq<TripEvent>, b: seq<TripEvent>, id: string)
    requires forall e :: e in b ==> e.trip != id
    ensures RowFor(ApplyAll(a + b), id) == RowFor(ApplyAll(a), id)
  {
    if b == [] {
      assert a + b == a;
    } else {
      var n := |b| - 1;
      OthersKeepRow(a, b[..n], id);
      assert (a + b)[..|a + b| - 1] == a + b[..n] && b[n] in b;
    }
  }

  lemma RestartKeepsRow(s: System, t: System, route: string -> nat, p: nat, to: nat, id: string)
    requires SystemInv(s, route) && SystemInv(t, route) && AtEnd(s, p) && to <= |Log(s, p)| && !PassedOver(s, p, id)
    requires Reread(s, t, p, to)
    ensures RowFor(t.db, id) == RowFor(s.db, id)
  {
    if LoggedIn(s, p, id) {
      var e :| e in Log(s, p) && e.trip == id;
      HomeOfLogged(s, p, e, route);
      InvFoldsDrained(s, route, id);
      InvFoldsDrained(t, route, id);
    } else {
      OthersKeepRow(s.applied, Log(s, p)[to..], id);
    }
  }

  /** What came before stays in the audit log, and es follow. */
  predicate Audits(before: seq<AuditEntry>, after: seq<AuditEntry>, es: seq<TripEvent>) {
    && |after| == |before| + |es| && after[..|before|] == before
    && forall k :: 0 <= k < |es| ==>
         var a := after[|before| + k]; a.trip == es[k].trip && a.state == es[k].state && a.driver == es[k].driver
  }

  lemma {:induction false} ApplyingAudits(a: seq<TripEvent>, b: seq<TripEvent>)
    ensures Audits(ApplyAll(a).events, ApplyAll(a + b).events, b)
  {
    if b == [] {
      assert a + b == a;
    } else {
      var n := |b| - 1;
      ApplyingAudits(a, b[..n]);
      assert (a + b)[..|a + b| - 1] == a + b[..n];
    }
  }

  lemma RestartKeepsTable(s: System, t: System, route: string -> nat, p: nat, to: nat)
    requires SystemInv(s, route) && SystemInv(t, route) && to <= |Log(s, p)| && Reread(s, t, p, to)
    requires AtEnd(s, p) && forall id :: !PassedOver(s, p, id)
    ensures t.db.trips == s.db.trips
  {
    forall id
      ensures RowFor(t.db, id) == RowFor(s.db, id)
    {
      RestartKeepsRow(s, t, route, p, to, id);
    }
    TablesEqual(t.db, s.db);
  }

  lemma RestartAudits(s: System, t: System, route: string -> nat, p: nat, to: nat)
    requires SystemInv(s, route) && SystemInv(t, route) && to <= |Log(s, p)| && Reread(s, t, p, to)
    ensures Audits(s.db.events, t.db.events, Log(s, p)[to..])
  {
    ApplyingAudits(s.applied, Log(s, p)[to..]);
  }

  /** A worker set back reads every event from there on again, and persists each of them a second time; the audit
      log shows that, and the table does not if p had been read to its end with no trip's last event failing. */
  lemma RestartRereads(actions: seq<Action>, route: string -> nat, p: nat, to: nat)
    requires to <= Offset(After(actions, route), p) <= |Log(After(actions, route), p)|
    ensures var s := After(actions, route);
            var t := After(Restart(actions, p, to, |Log(s, p)| - to), route);
            && AtEnd(t, p) && t.applied == s.applied + Log(s, p)[to..]
            && Audits(s.db.events, t.db.events, Log(s, p)[to..])
            && (AtEnd(s, p) && (forall id :: !PassedOver(s, p, id)) ==> t.db.trips == s.db.trips)
  {
    var s := After(actions, route);
    var t := After(Restart(actions, p, to, |Log(s, p)| - to), route);
    RestartReads(actions, route, p, to);
    ReadToEnd(s, t, p, to);
    ReachableInv(actions, route);
    ReachableInv(Restart(actions, p, to, |Log(s, p)| - to), route);
    RestartAudits(s, t, route, p, to);
    if AtEnd(s, p) && forall id :: !PassedOver(s, p, id) {
      RestartKeepsTable(s, t, route, p, to);
    }
  }
}
