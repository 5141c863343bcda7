/** cmd/api: the ride request and the trip transitions as the handlers run them, one at a time. Each call is
    proved to be a run of `Pipeline` steps, so what holds of every run of those holds of the server. */
module Api {
  import opened Models
  import opened Trips
  import opened Lifecycle
  import opened Serial
  import opened Pipeline
  import opened GeoIndex
  import opened GeoSearch
  import opened GeoStore
  import opened Match
  import opened Surge

  datatype RideReply =
    | BadRequest
    | MatchError
    | CacheError
    | Unmatched(trip: Trip)
    | Assignment(trip: Trip, best: Candidate, shortlist: seq<Candidate>)

  datatype TransitionReply = LookupError | NotFound | Conflict | PutFailed | Moved(trip: Trip)

  // ---- The runs the handlers make -------------------------------------------------------------------

  /** A trip about to be put in the cache: the put, and the event unless the put fails. */
  function PutSteps(id: string, putOk: bool, emitOk: bool): seq<Action> {
    if putOk then [On(id, Put(0, true)), On(id, Emit(0, emitOk))] else [On(id, Put(0, false))]
  }

  function OpenSteps(b: Birth, ok: bool): seq<Action> { [Ride(b, 0), On(b.id, Emit(0, ok))] }

  /** The steps of a ride request: emit REQUESTED; if a driver was matched, put the assigned trip and emit it. */
  function RideSteps(b: Birth, requestedOk: bool, putOk: bool, assignedOk: bool): seq<Action> {
    OpenSteps(b, requestedOk) + if b.driver.None? then [] else PutSteps(b.id, putOk, assignedOk)
  }

  /** The steps of a transition whose check passes. */
  function TransitionSteps(id: string, to: TripState, now: int, putOk: bool, emitOk: bool): seq<Action> {
    [On(id, Get(0, to, now))] + PutSteps(id, putOk, emitOk)
  }

  function Publish(topic: map<nat, seq<TripEvent>>, p: nat, e: TripEvent): map<nat, seq<TripEvent>> {
    topic[p := (if p in topic then topic[p] else []) + [e]]
  }

  function CachedIn(s: System, id: string): Option<Trip> {
    if id in s.lives then s.lives[id].cached else None
  }

  function HandlersIn(s: System, id: string): map<nat, Handler> {
    if id in s.lives then s.lives[id].handlers else map[]
  }

  function Lookup(cache: map<string, Trip>, id: string): Option<Trip> {
    if id in cache then Some(cache[id]) else None
  }

  predicate Agrees(cache: map<string, Trip>, s: System, id: string) {
    Lookup(cache, id) == CachedIn(s, id)
  }

  predicate Resting(s: System, id: string) { HandlersIn(s, id) == map[] }

  /** The cache and the topic are those of s, where only the trip `id` has handlers in flight: `hs`. */
  ghost predicate World(cache: map<string, Trip>, topic: map<nat, seq<TripEvent>>, s: System, id: string, hs: map<nat, Handler>) {
    && topic == s.topic && HandlersIn(s, id) == hs
    && (forall i :: Agrees(cache, s, i))
    && (forall i :: i != id ==> Resting(s, i))
  }

  /** s' differs from s only in the life of `id` and the topic. */
  predicate OnlyLife(s: System, s': System, id: string) {
    id in s'.lives && s' == s.(lives := s.lives[id := s'.lives[id]], topic := s'.topic)
  }

  lemma WorldMoves(cache: map<string, Trip>, s: System, s': System, id: string, hs: map<nat, Handler>, cache': map<string, Trip>)
    requires World(cache, s.topic, s, id, hs) && OnlyLife(s, s', id)
    requires Lookup(cache', id) == s'.lives[id].cached && forall i :: i != id ==> Lookup(cache', i) == Lookup(cache, i)
    ensures World(cache', s'.topic, s', id, s'.lives[id].handlers)
  {
    forall i
      ensures Agrees(cache', s', i)
      ensures i != id ==> Resting(s', i)
    {
      assert Agrees(cache, s, i) && (i != id ==> Resting(s, i));
    }
  }

  // Each step of a handler, alone in its life.

  lemma RideLife(s: System, b: Birth, route: string -> nat)
    requires b.id !in s.lives && b.rider != "" && b.driver != Some("")
    ensures var s' := Act(s, Ride(b, 0), route);
            OnlyLife(s, s', b.id) && s'.topic == s.topic && s'.lives[b.id] == Start(b, 0)
  {
  }

  lemma RequestLife(s: System, b: Birth, ok: bool, route: string -> nat)
    requires b.id in s.lives && s.lives[b.id] == Start(b, 0)
    ensures var s' := Act(s, On(b.id, Emit(0, ok)), route);
            && OnlyLife(s, s', b.id) && s'.lives[b.id].cached == None
            && s'.lives[b.id].sent == (if ok then [EventOf(Requested(b))] else [])
            && s'.lives[b.id].handlers == (if b.driver.None? then map[] else map[0 := Putting(Assigned(b))])
            && s'.topic == if ok then Publish(s.topic, route(b.region), EventOf(Requested(b))) else s.topic
  {
    var l' := Next(Start(b, 0), Emit(0, ok));
    assert l'.handlers == (if b.driver.None? then map[] else map[0 := Putting(Assigned(b))]);
    assert ok ==> l'.sent == [EventOf(Requested(b))];
  }

  lemma GetLife(s: System, id: string, to: TripState, now: int, route: string -> nat)
    requires id in s.lives && Idle(s.lives[id]) && s.lives[id].cached.Some? && CanTransition(s.lives[id].cached.value.state, to)
    ensures var s', t := Act(s, On(id, Get(0, to, now)), route), s.lives[id].cached.value;
            && OnlyLife(s, s', id) && s'.topic == s.topic && s'.lives[id].cached == s.lives[id].cached
            && s'.lives[id].handlers == map[0 := Putting(t.(state := to, updated := now))]
  {
  }

  lemma PutLife(s: System, id: string, t: Trip, ok: bool, route: string -> nat)
    requires id in s.lives && s.lives[id].handlers == map[0 := Putting(t)]
    ensures var s' := Act(s, On(id, Put(0, ok)), route);
            && OnlyLife(s, s', id) && s'.topic == s.topic
            && s'.lives[id].cached == (if ok then Some(t) else s.lives[id].cached)
            && s'.lives[id].handlers == if ok then map[0 := Emitting(t)] else map[]
  {
  }

  lemma EmitLife(s: System, id: string, t: Trip, ok: bool, route: string -> nat)
    requires id in s.lives && s.lives[id].handlers == map[0 := Emitting(t)]
    ensures var s' := Act(s, On(id, Emit(0, ok)), route);
            && OnlyLife(s, s', id) && s'.lives[id].cached == s.lives[id].cached && s'.lives[id].handlers == map[]
            && s'.topic == if ok then Publish(s.topic, route(t.region), EventOf(t)) else s.topic
  {
    var l := s.lives[id];
    assert ok ==> Next(l, Emit(0, ok)).sent == l.sent + [EventOf(t)];
  }

  /** a does not start a handler on a trip that has one in flight. */
  predicate StartsAlone(s: System, a: Action) {
    a.On? && a.step.Get? ==> Resting(s, a.id)
  }

  lemma SerialMore(actions: seq<Action>, a: Action, route: string -> nat, id: string)
    requires SerialFor(actions, route, id) && StartsAlone(After(actions, route), a)
    ensures SerialFor(actions + [a], route, id)
  {
    assert (actions + [a])[..|actions|] == actions;
  }

  lemma CachedIsNamed(actions: seq<Action>, route: string -> nat, id: string)
    requires CachedIn(After(actions, route), id).Some?
    ensures CachedIn(After(actions, route), id).value.id == id
  {
    ReachableInv(actions, route);
    var l := After(actions, route).lives[id];
    assert Inv(l) && l.cached.value in l.written;
  }

  function DriverOf(m: Matching): Option<string> { if m.Matched? then Some(m.best.driver) else None }

  /** What a ride request fixes, given the quote and the match. */
  function RideBirth(req: RideRequest, id: string, quote: real, m: Matching, now: int): Birth {
    Birth(id, req.rider, RegionOf(req.at), quote, DriverOf(m), now)
  }

  /** The reply to a ride request, whose trip carries its id, rider, region and quote; an assigned one goes to the
      best of the match, at the time of assignment. */
  predicate IsReply(r: RideReply, req: RideRequest, id: string, quote: real, m: Matching, now: int, putOk: bool) {
    match m
    case NoDriver => r == Unmatched(Trip(id, req.rider, "", RegionOf(req.at), REQUESTED, quote, 0, 0))
    case Matched(best, shortlist) =>
      if putOk then r == Assignment(Trip(id, req.rider, best.driver, RegionOf(req.at), ASSIGNED, quote, now, now), best, shortlist)
      else r == CacheError
  }

  /** The topic after a ride request: its REQUESTED event, and its ASSIGNED one if it was, in its region's partition. */
  predicate IsRideTopic(before: map<nat, seq<TripEvent>>, after: map<nat, seq<TripEvent>>, p: nat, r: RideReply,
                        req: RideRequest, id: string, quote: real, requestedOk: bool, assignedOk: bool)
  {
    var region := RegionOf(req.at);
    var asked := if requestedOk then Publish(before, p, TripEvent(id, req.rider, "", region, REQUESTED, quote)) else before;
    after == if r.Assignment? && assignedOk then Publish(asked, p, TripEvent(id, req.rider, r.best.driver, region, ASSIGNED, quote))
             else asked
  }

  /** The match is fair on the index x: the first of a shortlist of ten at most, fresh, in the region, where it was
      indexed, within 5 km; and no fresh driver of the region within 5 km, fewer than thirty of whose fellow
      members in range are no farther, is nearer - or goes without a match. */
  ghost predicate IsFair(m: Matching, x: Index, at: Point, dist: (Point, Point) -> real) {
    var cell := Cell(x, RegionOf(at));
    && (m.Matched? ==>
          && 0 < |m.shortlist| <= 10 && m.best == m.shortlist[0]
          && m.best.driver in cell && Live(x, m.best.driver) && m.best.at == cell[m.best.driver] && RegionOf(m.best.at) == RegionOf(at)
          && m.best.distance == dist(at, m.best.at) && m.best.distance <= 5.0)
    && forall d :: d in cell && Live(x, d) && dist(at, cell[d]) <= 5.0 && |AllNoFarther(Query(at, 5.0, 10, dist), cell, d)| < 30 ==>
                     m.Matched? && m.best.distance <= dist(at, cell[d])
  }

  lemma MatchIsFair(h: seq<Op>, req: RideRequest, dist: (Point, Point) -> real, y: Index, m: Matching)
    requires Legal(h) && MatchedFrom(MatchQuery(req, dist), Replay(h), y, m)
    ensures IsFair(m, Replay(h), req.at, dist)
  {
    var q, x := MatchQuery(req, dist), Replay(h);
    var cell := Cell(x, RegionOf(req.at));
    if m.Matched? {
      MatchIsLocal(h, q, y, m);
      assert m.best in m.shortlist && IsCandidate(q, cell, m.best);
    }
    forall d | d in cell && Live(x, d) && dist(req.at, cell[d]) <= 5.0 && |AllNoFarther(Query(req.at, 5.0, 10, dist), cell, d)| < 30
      ensures m.Matched? && m.best.distance <= dist(req.at, cell[d])
    {
      BestIsNearest(q, x, y, m, d);
    }
  }

  /** What a match says, on the index x it was made on: the driver is one the region's set accounts for. */
  lemma MatchIsLocal(h: seq<Op>, q: Query, y: Index, m: Matching)
    requires Legal(h) && MatchedFrom(q, Replay(h), y, m) && m.Matched?
    ensures RegionOf(m.best.at) == RegionOf(q.at) && m.best.driver in Cell(Replay(h), RegionOf(q.at))
    ensures |Cell(Replay(h), RegionOf(q.at))| >= 1
  {
    CandidatesAreLocal(h, q, y, m.shortlist);
    assert m.best in m.shortlist;
  }

  ghost predicate RightReplies(geo: GeoStore.Store, req: RideRequest, dist: (Point, Point) -> real,
                               redis: map<string, Result<seq<Candidate>, string>>)
    reads geo
  {
    var q := MatchQuery(req, dist);
    && RegionOf(req.at) in redis && RightReply(q, Cell(geo.State(), RegionOf(req.at)), redis[RegionOf(req.at)])
    && CoarseOf(req.at) in redis && RightReply(q, Cell(geo.State(), CoarseOf(req.at)), redis[CoarseOf(req.at)])
  }

  /** The price on offer, given the requests so far and the index; a count that cannot be read is zero. */
  function Quote(requests: seq<Request>, x: Index, region: string, demandOk: bool, supplyOk: bool): real {
    Factor(if demandOk then |BurstOf(requests, region, x.now)| else 0, if supplyOk then |Cell(x, region)| else 0)
  }

  // ---- The server ---------------------------------------------------------------------------------

  class Server {
    const geo: GeoStore.Store
    const surge: Engine
    const route: string -> nat
    var cache: map<string, Trip>
    var topic: map<nat, seq<TripEvent>>
    ghost var actions: seq<Action>

    ghost function System(): System
      reads this
    {
      After(actions, route)
    }

    /** The shared state is that of the run so far, no trip's handlers having overlapped; in flight are `hs`,
        on the trip `id`. */
    ghost predicate Holding(id: string, hs: map<nat, Handler>)
      reads this
    {
      World(cache, topic, System(), id, hs) && forall i :: SerialFor(actions, route, i)
    }

    ghost predicate Quiet()
      reads this
    {
      Holding("", map[])
    }

    ghost predicate Valid()
      reads this, geo, surge
    {
      surge.geo == geo && geo.Valid() && surge.Valid() && Quiet()
    }

    constructor (geo: GeoStore.Store, surge: Engine, route: string -> nat)
      requires surge.geo == geo && geo.Valid() && surge.Valid()
      ensures Valid() && actions == [] && cache == map[] && topic == map[]
      ensures this.geo == geo && this.surge == surge && this.route == route
    {
      this.geo, this.surge, this.route := geo, surge, route;
      cache, topic, actions := map[], map[], [];
      new;
      assert forall i :: Agrees(cache, System(), i) && Resting(System(), i) && SerialFor(actions, route, i);
    }

    ghost method Record(a: Action)
      requires (forall i :: SerialFor(actions, route, i)) && StartsAlone(System(), a)
      modifies this`actions
      ensures actions == old(actions) + [a] && System() == Act(old(System()), a, route)
      ensures forall i :: SerialFor(actions, route, i)
    {
      AfterMore(actions, a, route);
      forall i
        ensures SerialFor(actions + [a], route, i)
      {
        SerialMore(actions, a, route, i);
      }
      actions := actions + [a];
    }

    /** The idle server, seen from any one trip. */
    lemma Unheld(id: string)
      requires Quiet()
      ensures Holding(id, map[])
    {
      assert id != "" ==> Resting(System(), id);
      assert Resting(System(), "");
    }

    lemma Released(id: string)
      requires Holding(id, map[])
      ensures Quiet()
    {
      assert Resting(System(), id);
      assert id != "" ==> Resting(System(), "");
    }

    /** Writes the cache, under the trip's own id. */
    method Put(t: Trip, ok: bool)
      requires Holding(t.id, map[0 := Putting(t)])
      modifies this`cache, this`actions
      ensures cache == if ok then old(cache)[t.id := t] else old(cache)
      ensures actions == old(actions) + [On(t.id, Step.Put(0, ok))]
      ensures Holding(t.id, if ok then map[0 := Emitting(t)] else map[])
    {
      ghost var s := System();
      assert Agrees(cache, s, t.id) && 0 in HandlersIn(s, t.id);
      PutLife(s, t.id, t, ok, route);
      Record(On(t.id, Step.Put(0, ok)));
      WorldMoves(cache, s, System(), t.id, map[0 := Putting(t)], if ok then cache[t.id := t] else cache);
      if ok {
        cache := cache[t.id := t];
      }
    }

    /** Appends to the topic, keyed by region; a failed write is only logged. */
    method Append(t: Trip, ok: bool)
      modifies this`topic
      ensures topic == if ok then Publish(old(topic), route(t.region), EventOf(t)) else old(topic)
    {
      var ev := TripEvent(t.id, t.rider, t.driver, t.region, t.state, t.surge);
      if ok {
        var p := route(t.region);
        topic := topic[p := (if p in topic then topic[p] else []) + [ev]];
      }
    }

    method Emit(t: Trip, ok: bool)
      requires Holding(t.id, map[0 := Emitting(t)])
      modifies this`topic, this`actions
      ensures topic == if ok then Publish(old(topic), route(t.region), EventOf(t)) else old(topic)
      ensures actions == old(actions) + [On(t.id, Step.Emit(0, ok))]
      ensures Quiet()
    {
      ghost var s := System();
      assert Agrees(cache, s, t.id) && 0 in HandlersIn(s, t.id);
      EmitLife(s, t.id, t, ok, route);
      Record(On(t.id, Step.Emit(0, ok)));
      WorldMoves(cache, s, System(), t.id, map[0 := Emitting(t)], cache);
      Append(t, ok);
      Released(t.id);
    }

    /** The steps both handlers end with. */
    method PutThenEmit(t: Trip, putOk: bool, emitOk: bool)
      requires Holding(t.id, map[0 := Putting(t)])
      modifies this`cache, this`topic, this`actions
      ensures cache == if putOk then old(cache)[t.id := t] else old(cache)
      ensures topic == if putOk && emitOk then Publish(old(topic), route(t.region), EventOf(t)) else old(topic)
      ensures actions == old(actions) + PutSteps(t.id, putOk, emitOk)
      ensures Quiet()
    {
      Put(t, putOk);
      if putOk {
        Emit(t, emitOk);
      } else {
        Released(t.id);
      }
    }

    ghost method Fetch(id: string, to: TripState, now: int)
      requires Quiet() && id in cache && CanTransition(cache[id].state, to)
      modifies this`actions
      ensures actions == old(actions) + [On(id, Step.Get(0, to, now))]
      ensures cache[id].id == id && Holding(id, map[0 := Putting(cache[id].(state := to, updated := now))])
    {
      var s := System();
      Unheld(id);
      assert Agrees(cache, s, id);
      CachedIsNamed(actions, route, id);
      GetLife(s, id, to, now, route);
      Record(On(id, Step.Get(0, to, now)));
      WorldMoves(cache, s, System(), id, map[], cache);
    }

    /** Emits REQUESTED for a new trip. */
    method Open(ghost b: Birth, t: Trip, ok: bool)
      requires Quiet() && b.id !in System().lives && b.rider != "" && b.driver != Some("") && t == Requested(b)
      modifies this`topic, this`actions
      ensures topic == if ok then Publish(old(topic), route(b.region), EventOf(t)) else old(topic)
      ensures actions == old(actions) + OpenSteps(b, ok)
      ensures Holding(b.id, if b.driver.None? then map[] else map[0 := Putting(Assigned(b))])
    {
      ghost var s := System();
      Unheld(b.id);
      assert Agrees(cache, s, b.id);
      RideLife(s, b, route);
      Record(Ride(b, 0));
      ghost var s1 := System();
      WorldMoves(cache, s, s1, b.id, map[], cache);
      RequestLife(s1, b, ok, route);
      Record(On(b.id, Step.Emit(0, ok)));
      WorldMoves(cache, s1, System(), b.id, map[0 := Requesting], cache);
      Append(t, ok);
    }

    /** The part of a ride request that follows the match; `b` is what the request has fixed. */
    method Dispatch(ghost b: Birth, requested: Trip, m: Matching, now: int, requestedOk: bool, putOk: bool, assignedOk: bool)
      returns (r: RideReply)
      requires Quiet() && b.id !in System().lives && b.rider != "" && requested == Requested(b)
      requires b.driver == DriverOf(m) && b.driver != Some("") && b.assignedAt == now
      modifies this`cache, this`topic, this`actions
      ensures Quiet()
      ensures r == if m.NoDriver? then Unmatched(Requested(b))
                   else if putOk then Assignment(Assigned(b), m.best, m.shortlist) else CacheError
      ensures var asked := if requestedOk then Publish(old(topic), route(b.region), EventOf(Requested(b))) else old(topic);
              topic == if r.Assignment? && assignedOk then Publish(asked, route(b.region), EventOf(r.trip)) else asked
      ensures actions == old(actions) + RideSteps(b, requestedOk, putOk, assignedOk)
      ensures cache == if r.Assignment? then old(cache)[b.id := r.trip] else old(cache)
    {
      var t := requested;
      Open(b, t, requestedOk);
      if m.NoDriver? {
        Released(b.id);
        return Unmatched(t);
      }
      t := t.(driver := m.best.driver, state := ASSIGNED, created := now, updated := now);
      PutThenEmit(t, putOk, assignedOk);
      return if putOk then Assignment(t, m.best, m.shortlist) else CacheError;
    }

    /** Counts this request, then prices it: where there is no driver, at the maximum. */
    method Price(at: Point, recordOk: bool, demandOk: bool, supplyOk: bool) returns (mult: real)
      requires Valid()
      modifies surge
      ensures Valid() && surge.requests == old(surge.requests) + if recordOk then [Request(RegionOf(at), geo.now)] else []
      ensures mult == Quote(surge.requests, geo.State(), RegionOf(at), demandOk, supplyOk)
      ensures recordOk && demandOk && Cell(geo.State(), RegionOf(at)) == map[] ==> mult == MAX_SURGE
    {
      surge.RecordDemand(at, recordOk);
      SupplyByHistory(geo.history, RegionOf(at));
      mult := surge.Multiplier(at, demandOk, supplyOk);
      OwnRequestCounts(old(surge.requests), RegionOf(at), geo.now);
    }

    /** `Match.Best`, seen from the server. */
    method Find(req: RideRequest, dist: (Point, Point) -> real, redis: map<string, Result<seq<Candidate>, string>>)
      returns (r: Result<Matching, string>)
      requires Valid() && RightReplies(geo, req, dist, redis) && "" !in Cell(geo.State(), RegionOf(req.at))
      modifies geo`cells, geo`history
      ensures Valid()
      ensures r.Success? <==> redis[RegionOf(req.at)].Success? && redis[CoarseOf(req.at)].Success?
      ensures Prunes(MatchQuery(req, dist), old(geo.State()), geo.State(), RegionOf(req.at))
      ensures r.Success? ==> MatchedFrom(MatchQuery(req, dist), old(geo.State()), geo.State(), r.value)
      ensures r.Success? ==> IsFair(r.value, old(geo.State()), req.at, dist) && DriverOf(r.value) != Some("")
    {
      ghost var h := geo.history;
      r := Match.Best(geo, req, dist, redis);
      if r.Success? {
        MatchIsFair(h, req, dist, geo.State(), r.value);
      }
    }

    /** A ride request at a given price. `m` is the match made. */
    method Serve(req: RideRequest, id: string, mult: real, now: int, dist: (Point, Point) -> real,
                 redis: map<string, Result<seq<Candidate>, string>>, requestedOk: bool, putOk: bool, assignedOk: bool)
      returns (r: RideReply, ghost m: Matching)
      requires Valid() && id !in System().lives && req.rider != ""
      requires RightReplies(geo, req, dist, redis) && "" !in Cell(geo.State(), RegionOf(req.at))
      modifies this`cache, this`topic, this`actions, geo`cells, geo`history
      ensures Valid()
      ensures r.MatchError? <==> redis[RegionOf(req.at)].Failure? || redis[CoarseOf(req.at)].Failure?
      ensures r.MatchError? ==> actions == old(actions)
      ensures r.MatchError? ==> Prunes(MatchQuery(req, dist), old(geo.State()), geo.State(), RegionOf(req.at))
      ensures !r.MatchError? ==> MatchedFrom(MatchQuery(req, dist), old(geo.State()), geo.State(), m)
      ensures !r.MatchError? ==> IsFair(m, old(geo.State()), req.at, dist)
      ensures !r.MatchError? ==> IsReply(r, req, id, mult, m, now, putOk)
      ensures !r.MatchError? ==> IsRideTopic(old(topic), topic, route(RegionOf(req.at)), r, req, id, mult, requestedOk, assignedOk)
      ensures !r.MatchError? ==> actions == old(actions) + RideSteps(RideBirth(req, id, mult, m, now), requestedOk, putOk, assignedOk)
      ensures cache == if r.Assignment? then old(cache)[id := r.trip] else old(cache)
    {
      var best := Find(req, dist, redis);
      if best.Failure? {
        return MatchError, NoDriver;
      }
      m := best.value;
      var t := Trip(id, req.rider, "", RegionOf(req.at), REQUESTED, mult, 0, 0);
      r := Dispatch(RideBirth(req, id, mult, m, now), t, best.value, now, requestedOk, putOk, assignedOk);
    }

    /** A ride request: counted, priced, matched, and if it can be matched assigned. The id is new and drivers
        have names. Where the region has no driver the price is the maximum and nobody is matched. A request whose
        search fails has been counted, and may have evicted stale drivers, but makes no trip. */
    method HandleRide(req: RideRequest, id: string, now: int, dist: (Point, Point) -> real,
                      redis: map<string, Result<seq<Candidate>, string>>, recordOk: bool, demandOk: bool, supplyOk: bool,
                      requestedOk: bool, putOk: bool, assignedOk: bool)
      returns (r: RideReply, ghost m: Matching, ghost quote: real)
      requires Valid() && id !in System().lives
      requires RightReplies(geo, req, dist, redis) && "" !in Cell(geo.State(), RegionOf(req.at))
      modifies this`cache, this`topic, this`actions, surge, geo`cells, geo`history
      ensures Valid()
      ensures r.BadRequest? <==> req.rider == ""
      ensures r.BadRequest? ==> surge.requests == old(surge.requests) && geo.State() == old(geo.State())
      ensures !r.BadRequest? ==> surge.requests == old(surge.requests) + if recordOk then [Request(RegionOf(req.at), geo.now)] else []
      ensures !r.BadRequest? ==> quote == Quote(surge.requests, old(geo.State()), RegionOf(req.at), demandOk, supplyOk)
      ensures !r.BadRequest? && Cell(old(geo.State()), RegionOf(req.at)) == map[] ==>
                !r.Assignment? && (recordOk && demandOk ==> quote == MAX_SURGE)
      ensures !r.BadRequest? ==> (r.MatchError? <==> redis[RegionOf(req.at)].Failure? || redis[CoarseOf(req.at)].Failure?)
      ensures r.BadRequest? || r.MatchError? ==> actions == old(actions)
      ensures r.MatchError? ==> Prunes(MatchQuery(req, dist), old(geo.State()), geo.State(), RegionOf(req.at))
      ensures !r.BadRequest? && !r.MatchError? ==>
                && MatchedFrom(MatchQuery(req, dist), old(geo.State()), geo.State(), m)
                && IsFair(m, old(geo.State()), req.at, dist)
                && IsReply(r, req, id, quote, m, now, putOk)
                && IsRideTopic(old(topic), topic, route(RegionOf(req.at)), r, req, id, quote, requestedOk, assignedOk)
                && actions == old(actions) + RideSteps(RideBirth(req, id, quote, m, now), requestedOk, putOk, assignedOk)
      ensures cache == if r.Assignment? then old(cache)[id := r.trip] else old(cache)
    {
      if req.rider == "" {
        return BadRequest, NoDriver, MIN_SURGE;
      }
      var mult := Price(req.at, recordOk, demandOk, supplyOk);
      quote := mult;
      r, m := Serve(req, id, mult, now, dist, redis, requestedOk, putOk, assignedOk);
    }

    /** The part of a transition that follows the check; t is the trip moved. */
    method Move(id: string, to: TripState, now: int, putOk: bool, emitOk: bool) returns (t: Trip)
      requires Quiet() && id in cache && CanTransition(cache[id].state, to)
      modifies this`cache, this`topic, this`actions
      ensures Quiet() && t == old(cache)[id].(state := to, updated := now)
      ensures cache == if putOk then old(cache)[id := t] else old(cache)
      ensures topic == if putOk && emitOk then Publish(old(topic), route(t.region), EventOf(t)) else old(topic)
      ensures actions == old(actions) + TransitionSteps(id, to, now, putOk, emitOk)
    {
      t := cache[id];
      Fetch(id, to, now);
      t := t.(state := to, updated := now);
      PutThenEmit(t, putOk, emitOk);
    }

    /** Moves a cached trip to a state its own allows. */
    method Transition(id: string, to: TripState, now: int, getOk: bool, putOk: bool, emitOk: bool) returns (r: TransitionReply)
      requires Quiet()
      modifies this`cache, this`topic, this`actions
      ensures Quiet()
      ensures r == if !getOk then LookupError
                   else if id !in old(cache) then NotFound
                   else if !CanTransition(old(cache)[id].state, to) then Conflict
                   else if !putOk then PutFailed
                   else Moved(old(cache)[id].(state := to, updated := now))
      ensures cache == if r.Moved? then old(cache)[id := r.trip] else old(cache)
      ensures topic == if r.Moved? && emitOk then
                         var t := r.trip;
                         Publish(old(topic), route(t.region), TripEvent(t.id, t.rider, t.driver, t.region, t.state, t.surge))
                       else old(topic)
      ensures actions == old(actions) + if r.PutFailed? || r.Moved? then TransitionSteps(id, to, now, putOk, emitOk) else []
    {
      if !getOk {
        return LookupError;
      }
      if id !in cache {
        return NotFound;
      }
      if !CanTransition(cache[id].state, to) {
        return Conflict;
      }
      var t := Move(id, to, now, putOk, emitOk);
      return if putOk then Moved(t) else PutFailed;
    }

    /** The cache drops a trip. */
    method Expire(id: string)
      requires Quiet()
      modifies this`cache, this`actions
      ensures Quiet() && cache == old(cache) - {id} && actions == old(actions) + [On(id, Step.Expire)]
    {
      ghost var s := System();
      Unheld(id);
      assert Agrees(cache, s, id);
      Record(On(id, Step.Expire));
      ghost var rest := cache - {id};
      if id in s.lives {
        assert forall i :: i != id ==> Lookup(rest, i) == Lookup(cache, i);
        WorldMoves(cache, s, System(), id, map[], rest);
      } else {
        assert rest == cache;
      }
      cache := cache - {id};
    }

    /** Time passes. */
    method Wait(ms: nat)
      requires Valid()
      modifies geo`now, geo`history
      ensures Valid() && geo.now == old(geo.now) + ms && geo.history == old(geo.history) + [Tick(ms)]
    {
      WaitKeepsTraces(surge.demand, surge.requests, geo.now, ms);
      geo.Wait(ms);
    }

    /** Meanwhile the location worker indexes a ping. */
    method LocationPing(u: LocationUpdate, ok: bool)
      requires Valid()
      modifies geo`cells, geo`drivers, geo`history
      ensures Valid()
      ensures geo.history == old(geo.history) + if ok then [Ping(u, RegionOf(u.at))] else []
    {
      var _ := geo.Upsert(u, ok);
    }

    /** Meanwhile the worker reads on, or starts over: the server does not notice. */
    ghost method WorkerActs(a: Action)
      requires Quiet() && (a.Deliver? || a.Rewind?)
      modifies this`actions
      ensures Quiet() && actions == old(actions) + [a]
    {
      var s := System();
      Record(a);
      assert System().lives == s.lives && System().topic == s.topic;
      assert forall i :: (Agrees(cache, s, i) ==> Agrees(cache, System(), i)) && (Resting(s, i) ==> Resting(System(), i));
    }
  }

  /** Whatever requests, transitions, expiries and readings came before: once the worker has read a cached trip's
      events, and persisted the last of them, the database has the trip as the cache has it exactly when that
      event is the cached trip's; which it is if no event of the trip was lost. */
  lemma TableHasCachedTripIff(server: Server, id: string)
    requires server.Quiet() && id in server.cache
    requires var s := server.System();
             id in s.lives && AtEnd(s, Home(s, id, server.route)) && !PassedOver(s, Home(s, id, server.route), id)
    ensures var l, e := server.System().lives[id], EventOf(server.cache[id]);
            var row := Some(Row(server.cache[id].rider, server.cache[id].driver, server.cache[id].region,
                                server.cache[id].state, server.cache[id].surge));
            && (RowFor(server.System().db, id) == row <==> l.sent != [] && l.sent[|l.sent| - 1] == e)
            && (!l.lost ==> RowFor(server.System().db, id) == row)
  {
    server.Unheld(id);
    assert Agrees(server.cache, server.System(), id) && SerialFor(server.actions, server.route, id);
    RowIsCachedIff(server.actions, server.route, id);
    SerialLife(server.actions, server.route, id);
    InStepIsShapely(server.System().lives[id]);
  }

  /** And each trip's events in the topic, which lie where its region hashes to, have the shape of an orderly
      trip's stream. */
  lemma TopicIsOrderly(server: Server, id: string)
    requires server.Quiet() && id in server.System().lives
    ensures var l, p := server.System().lives[id], Home(server.System(), id, server.route);
            Shapely(l) && Of(if p in server.topic then server.topic[p] else [], id) == l.sent
  {
    SerialLife(server.actions, server.route, id);
    InStepIsShapely(server.System().lives[id]);
    ReachableInv(server.actions, server.route);
    assert StreamAt(server.System(), server.route, Home(server.System(), id, server.route), id);
  }

  // ---- A failed persist, step by step -----------------------------------------------------------------

  /** A ride is requested, and its first event persisted; then it is assigned. */
  function Begun(b: Birth): seq<Action> { [Ride(b, 0)] + [On(b.id, Emit(0, true))] }

  function Persisted(b: Birth, p: nat): seq<Action> { Begun(b) + [Deliver(p, NoFault)] }

  function Stored(b: Birth, p: nat): seq<Action> { Persisted(b, p) + [On(b.id, Put(0, true))] }

  function Assigning(b: Birth, p: nat): seq<Action> { Stored(b, p) + [On(b.id, Emit(0, true))] }

  predicate IsMatched(b: Birth) { b.rider != "" && b.driver.Some? && b.driver != Some("") }

  lemma BegunSystem(b: Birth, route: string -> nat)
    requires IsMatched(b)
    ensures var s := After(Begun(b), route);
            && OnlyLife(Initial, s, b.id) && s.topic == map[route(b.region) := [EventOf(Requested(b))]]
            && s.lives[b.id].handlers == map[0 := Putting(Assigned(b))] && s.lives[b.id].sent == [EventOf(Requested(b))]
  {
    AfterMore([], Ride(b, 0), route);
    AfterMore([Ride(b, 0)], On(b.id, Emit(0, true)), route);
    RideLife(Initial, b, route);
    RequestLife(After([Ride(b, 0)], route), b, true, route);
    assert [] + [EventOf(Requested(b))] == [EventOf(Requested(b))];
  }

  lemma PersistedSystem(b: Birth, route: string -> nat)
    requires IsMatched(b)
    ensures var p, d := route(b.region), EventOf(Requested(b));
            After(Persisted(b, p), route) == After(Begun(b), route).(offsets := map[p := 1], db := Applied(EmptyDb, d), applied := [d])
  {
    BegunSystem(b, route);
    AfterMore(Begun(b), Deliver(route(b.region), NoFault), route);
  }

  lemma StoredSystem(b: Birth, route: string -> nat)
    requires IsMatched(b)
    ensures var p, d := route(b.region), EventOf(Requested(b));
            var s := After(Stored(b, p), route);
            && b.id in s.lives && s.lives[b.id].cached == Some(Assigned(b)) && s.topic == map[p := [d]]
            && s.lives[b.id].handlers == map[0 := Emitting(Assigned(b))]
            && s.offsets == map[p := 1] && s.db == Applied(EmptyDb, d)
  {
    var p := route(b.region);
    BegunSystem(b, route);
    PersistedSystem(b, route);
    AfterMore(Persisted(b, p), On(b.id, Put(0, true)), route);
    PutLife(After(Persisted(b, p), route), b.id, Assigned(b), true, route);
  }

  lemma AssigningSystem(b: Birth, route: string -> nat)
    requires IsMatched(b)
    ensures var p, d, e := route(b.region), EventOf(Requested(b)), EventOf(Assigned(b));
            var s := After(Assigning(b, p), route);
            && b.id in s.lives && s.lives[b.id].cached == Some(Assigned(b)) && s.topic == map[p := [d, e]]
            && s.offsets == map[p := 1] && s.db == Applied(EmptyDb, d)
  {
    var p := route(b.region);
    StoredSystem(b, route);
    AfterMore(Stored(b, p), On(b.id, Emit(0, true)), route);
    EmitLife(After(Stored(b, p), route), b.id, Assigned(b), true, route);
    assert [EventOf(Requested(b))] + [EventOf(Assigned(b))] == [EventOf(Requested(b)), EventOf(Assigned(b))];
  }

  /** The topic is read to the end, the trip is assigned in the cache and in the log, and its row still says
      REQUESTED, without a driver. Reading on changes nothing. */
  lemma FailedPersistIsNotRetried(b: Birth, route: string -> nat)
    requires IsMatched(b)
    ensures var p := route(b.region);
            var s := After(Assigning(b, p) + [Deliver(p, CommitFails)], route);
            && AtEnd(s, p) && b.id in s.lives && s.lives[b.id].cached == Some(Assigned(b))
            && Last(Log(s, p), b.id, false) == Some(EventOf(Assigned(b)))
            && RowFor(s.db, b.id) == Some(RowOf(EventOf(Requested(b)))) && Requested(b).driver == "" != Assigned(b).driver
            && forall fault :: Act(s, Deliver(p, fault), route) == s
  {
    var p := route(b.region);
    AssigningSystem(b, route);
    AfterMore(Assigning(b, p), Deliver(p, CommitFails), route);
    LastAt([EventOf(Requested(b)), EventOf(Assigned(b))], 1, b.id, false);
  }

  lemma AuditedTwice(s: System, p: nat, e: TripEvent, route: string -> nat)
    requires Log(s, p) == [e] && s.offsets == map[p := 0] && s.db == Applied(EmptyDb, e)
    ensures var s' := Act(s, Deliver(p, NoFault), route);
            && s'.lives == s.lives && AtEnd(s', p)
            && s'.db.events == [EntryOf(e), EntryOf(e)] && s'.db.trips == map[e.trip := RowOf(e)]
  {
    var d := Applied(EmptyDb, e);
    assert d.trips == map[e.trip := RowOf(e)] && Applied(d, e).trips == map[e.trip := RowOf(e)];
    assert Applied(d, e).events == [EntryOf(e)] + [EntryOf(e)];
  }

  /** A worker that restarts where it last committed, before what it has read: one event is sent, and two audit
      entries tell of it. */
  lemma RestartAuditsTwice(b: Birth, route: string -> nat)
    requires IsMatched(b)
    ensures var p := route(b.region);
            var s := After(Persisted(b, p) + [Rewind(p, 0)] + [Deliver(p, NoFault)], route);
            && b.id in s.lives && s.lives[b.id].sent == [EventOf(Requested(b))] && AtEnd(s, p)
            && s.db.events == [AuditEntry(b.id, REQUESTED, ""), AuditEntry(b.id, REQUESTED, "")]
            && s.db.trips == map[b.id := Row(b.rider, "", b.region, REQUESTED, b.surge)]
  {
    var p := route(b.region);
    BegunSystem(b, route);
    PersistedSystem(b, route);
    AfterMore(Persisted(b, p), Rewind(p, 0), route);
    AfterMore(Persisted(b, p) + [Rewind(p, 0)], Deliver(p, NoFault), route);
    assert map[p := 1][p := 0] == map[p := 0];
    AuditedTwice(After(Persisted(b, p) + [Rewind(p, 0)], route), p, EventOf(Requested(b)), route);
  }
}
