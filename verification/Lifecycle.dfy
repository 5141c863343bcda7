/** The life of one trip under any number of overlapping API handlers (cmd/api: handleRide, transition, emit).

    A handler is split where it touches shared state: read the cache, write the cache, append to the
    event stream. A step that is not enabled changes nothing, so a run is any sequence of steps. */
module Lifecycle {
  import opened Models
  import opened Trips

  /** What the ride request fixed: the trip's identity, its price, and the driver matched, if any. The
      clock reading at assignment is drawn in advance. */
  datatype Birth = Birth(id: string, rider: string, region: string, surge: real, driver: Option<string>, assignedAt: int)

  /** Where a handler stands: about to emit REQUESTED, to put a trip in the cache, to emit that trip. */
  datatype Handler = Requesting | Putting(next: Trip) | Emitting(stored: Trip)

  /** The cached trip, the handlers in flight, and histories: what was put in the cache, what was
      appended to the stream, and whether an event that was due was lost. */
  datatype Life = Life(birth: Birth, cached: Option<Trip>, handlers: map<nat, Handler>,
                       written: seq<Trip>, sent: seq<TripEvent>, lost: bool)

  datatype Step =
    | Get(h: nat, to: TripState, now: int)
    | Put(h: nat, ok: bool)
    | Emit(h: nat, ok: bool)
    | Expire
    | Crash(h: nat)

  function Requested(b: Birth): Trip {
    Trip(b.id, b.rider, "", b.region, REQUESTED, b.surge, 0, 0)
  }

  function Assigned(b: Birth): Trip
    requires b.driver.Some?
  {
    Requested(b).(driver := b.driver.value, state := ASSIGNED, created := b.assignedAt, updated := b.assignedAt)
  }

  function Start(b: Birth, h: nat): Life {
    Life(b, None, map[h := Requesting], [], [], false)
  }

  function Without(l: Life, h: nat): Life { l.(handlers := l.handlers - {h}) }

  function Send(l: Life, t: Trip, ok: bool): Life {
    if ok then l.(sent := l.sent + [EventOf(t)]) else l.(lost := true)
  }

  function GetStep(l: Life, h: nat, to: TripState, now: int): Life {
    if h in l.handlers || l.cached.None? || !CanTransition(l.cached.value.state, to) then l
    else l.(handlers := l.handlers[h := Putting(l.cached.value.(state := to, updated := now))])
  }

  function PutStep(l: Life, h: nat, ok: bool): Life
    requires h in l.handlers && l.handlers[h].Putting?
  {
    var t := l.handlers[h].next;
    if ok then l.(cached := Some(t), written := l.written + [t], handlers := l.handlers[h := Emitting(t)]) else Without(l, h)
  }

  function EmitStep(l: Life, h: nat, ok: bool): Life
    requires h in l.handlers && !l.handlers[h].Putting?
  {
    match l.handlers[h]
    case Emitting(t) => Without(Send(l, t, ok), h)
    case Requesting =>
      var l' := Send(l, Requested(l.birth), ok);
      if l.birth.driver.None? then Without(l', h) else l'.(handlers := l.handlers[h := Putting(Assigned(l.birth))])
  }

  function CrashStep(l: Life, h: nat): Life
    requires h in l.handlers
  {
    Without(l, h).(lost := l.lost || !l.handlers[h].Putting?)
  }

  function Next(l: Life, s: Step): Life {
    match s
    case Get(h, to, now) => GetStep(l, h, to, now)
    case Put(h, ok) => if h in l.handlers && l.handlers[h].Putting? then PutStep(l, h, ok) else l
    case Emit(h, ok) => if h in l.handlers && !l.handlers[h].Putting? then EmitStep(l, h, ok) else l
    case Expire => l.(cached := None)
    case Crash(h) => if h in l.handlers then CrashStep(l, h) else l
  }

  /** To everyone else, a handler that crashes is one whose next write failed: its put, or its event. */
  lemma CrashIsFailure(l: Life, h: nat)
    requires h in l.handlers
    ensures Next(l, Crash(h)) == match l.handlers[h]
                                 case Putting(_) => Next(l, Put(h, false))
                                 case Emitting(_) => Next(l, Emit(h, false))
                                 case Requesting => Next(l, Emit(h, false)).(handlers := l.handlers - {h})
  {
  }

  function Run(l: Life, steps: seq<Step>): Life {
    if steps == [] then l else Next(Run(l, steps[..|steps| - 1]), steps[|steps| - 1])
  }

  // ---- Every interleaving -----------------------------------------------------------------------

  /** t is the trip of birth b: nothing fixed by the request or by assignment has changed. */
  predicate SameTrip(b: Birth, t: Trip) {
    && t.id == b.id && t.rider == b.rider && t.region == b.region && t.surge == b.surge
    && t.state != REQUESTED && b.driver == Some(t.driver) && t.created == b.assignedAt
  }

  ghost predicate HasPredecessor(written: seq<Trip>, n: nat, to: TripState) {
    exists j :: 0 <= j < n <= |written| && CanTransition(written[j].state, to)
  }

  /** Every cache write after the first is legal from some earlier one. */
  ghost predicate WritesDescend(written: seq<Trip>) {
    && (written != [] ==> written[0].state == ASSIGNED)
    && forall i :: 0 < i < |written| ==> HasPredecessor(written, i, written[i].state)
  }

  /** h is the ride handler, before its cache write. */
  predicate BeforeAssignment(h: Handler) {
    h.Requesting? || (h.Putting? && h.next.state == ASSIGNED)
  }

  ghost predicate HandlerInv(b: Birth, written: seq<Trip>, sent: seq<TripEvent>, h: Handler) {
    match h
    case Requesting => written == [] && sent == []
    case Putting(t) => SameTrip(b, t) && if t.state == ASSIGNED then written == [] else HasPredecessor(written, |written|, t.state)
    case Emitting(t) => t in written
  }

  /** An event is the REQUESTED one, in first place, or carries a trip that was put in the cache. */
  predicate EventInv(b: Birth, written: seq<Trip>, sent: seq<TripEvent>, i: nat)
    requires i < |sent|
  {
    (i == 0 && sent[0] == EventOf(Requested(b))) || exists t :: t in written && sent[i] == EventOf(t)
  }

  predicate Opened(l: Life) {
    (exists h :: h in l.handlers && l.handlers[h].Requesting?) || (l.sent != [] && l.sent[0] == EventOf(Requested(l.birth)))
  }

  ghost predicate CacheInv(l: Life) {
    && (l.cached.Some? ==> l.written != [] && l.cached.value == l.written[|l.written| - 1])
    && (forall t :: t in l.written ==> SameTrip(l.birth, t))
    && WritesDescend(l.written)
  }

  ghost predicate HandlersInv(l: Life) {
    && (forall h :: h in l.handlers ==> HandlerInv(l.birth, l.written, l.sent, l.handlers[h]))
    && (forall h, k :: h in l.handlers && k in l.handlers && BeforeAssignment(l.handlers[h]) && BeforeAssignment(l.handlers[k]) ==> h == k)
  }

  ghost predicate StreamInv(l: Life) {
    && (forall i :: 0 <= i < |l.sent| ==> EventInv(l.birth, l.written, l.sent, i))
    && (!l.lost ==> Opened(l))
  }

  /** What every interleaving keeps. */
  ghost predicate Inv(l: Life) {
    CacheInv(l) && HandlersInv(l) && StreamInv(l)
  }

  lemma StartInv(b: Birth, h: nat)
    ensures Inv(Start(b, h))
  {
    assert Start(b, h).handlers[h].Requesting?;
  }

  lemma GetInv(l: Life, h: nat, to: TripState, now: int)
    requires Inv(l)
    ensures Inv(GetStep(l, h, to, now))
  {
    var l' := GetStep(l, h, to, now);
    if l' != l {
      var n := |l.written|;
      assert CanTransition(l.written[n - 1].state, to) && l.written[n - 1] in l.written;
      assert HasPredecessor(l.written, n, to);
    }
  }

  lemma WithoutInv(l: Life, h: nat, lost: bool)
    requires Inv(l) && h in l.handlers && (l.lost ==> lost) && (l.handlers[h].Requesting? ==> lost)
    ensures Inv(Without(l, h).(lost := lost))
  {
  }

  lemma PredecessorStays(written: seq<Trip>, n: nat, m: nat, to: TripState, t: Trip)
    requires HasPredecessor(written, n, to) && n <= m <= |written| + 1
    ensures HasPredecessor(written + [t], m, to)
  {
    var j :| 0 <= j < n && CanTransition(written[j].state, to);
    assert (written + [t])[j] == written[j];
  }

  lemma WriteKeepsCacheInv(l: Life, t: Trip)
    requires CacheInv(l) && SameTrip(l.birth, t)
    requires if t.state == ASSIGNED then l.written == [] else HasPredecessor(l.written, |l.written|, t.state)
    ensures CacheInv(l.(cached := Some(t), written := l.written + [t]))
  {
    var w := l.written + [t];
    forall i | 0 < i < |w|
      ensures HasPredecessor(w, i, w[i].state)
    {
      PredecessorStays(l.written, i, i, w[i].state, t);
    }
  }

  lemma WriteKeepsHandlersInv(l: Life, h: nat)
    requires Inv(l) && h in l.handlers && l.handlers[h].Putting?
    ensures HandlersInv(PutStep(l, h, true))
  {
    var t, l' := l.handlers[h].next, PutStep(l, h, true);
    forall k | k in l'.handlers
      ensures HandlerInv(l'.birth, l'.written, l'.sent, l'.handlers[k])
    {
      if k != h {
        assert HandlerInv(l.birth, l.written, l.sent, l.handlers[k]);
        if l.handlers[k].Putting? && l.handlers[k].next.state != ASSIGNED {
          PredecessorStays(l.written, |l.written|, |l'.written|, l.handlers[k].next.state, t);
        }
      }
    }
  }

  lemma WriteKeepsStreamInv(l: Life, h: nat)
    requires Inv(l) && h in l.handlers && l.handlers[h].Putting?
    ensures StreamInv(PutStep(l, h, true))
  {
    var t, l' := l.handlers[h].next, PutStep(l, h, true);
    forall i | 0 <= i < |l.sent|
      ensures EventInv(l'.birth, l'.written, l'.sent, i)
    {
      assert EventInv(l.birth, l.written, l.sent, i);
      if u :| u in l.written && l.sent[i] == EventOf(u) {
        assert u in l'.written;
      }
    }
    assert HandlerInv(l.birth, l.written, l.sent, l.handlers[h]);
  }

  lemma PutInv(l: Life, h: nat, ok: bool)
    requires Inv(l) && h in l.handlers && l.handlers[h].Putting?
    ensures Inv(PutStep(l, h, ok))
  {
    if !ok {
      WithoutInv(l, h, l.lost);
    } else {
      WriteKeepsCacheInv(l, l.handlers[h].next);
      WriteKeepsHandlersInv(l, h);
      WriteKeepsStreamInv(l, h);
    }
  }

  lemma SendKeepsEventInv(b: Birth, written: seq<Trip>, sent: seq<TripEvent>, e: TripEvent)
    requires forall i :: 0 <= i < |sent| ==> EventInv(b, written, sent, i)
    requires (sent == [] && e == EventOf(Requested(b))) || exists t :: t in written && e == EventOf(t)
    ensures forall i :: 0 <= i < |sent + [e]| ==> EventInv(b, written, sent + [e], i)
  {
    forall i | 0 <= i < |sent + [e]|
      ensures EventInv(b, written, sent + [e], i)
    {
      if i < |sent| {
        assert EventInv(b, written, sent, i) && (sent + [e])[i] == sent[i];
      }
    }
  }

  /** A trip in the cache or on its way out of it shows that the ride handler has moved on. */
  lemma WrittenMeansAssigned(l: Life)
    requires HandlersInv(l) && l.written != []
    ensures forall h :: h in l.handlers ==> !BeforeAssignment(l.handlers[h])
  {
    forall h | h in l.handlers
      ensures !BeforeAssignment(l.handlers[h])
    {
      assert HandlerInv(l.birth, l.written, l.sent, l.handlers[h]);
    }
  }

  lemma SameCacheInv(l: Life, l': Life)
    requires CacheInv(l) && l'.birth == l.birth && l'.cached == l.cached && l'.written == l.written
    ensures CacheInv(l')
  {
  }

  lemma SendKeepsStreamInv(l: Life, h: nat, ok: bool)
    requires Inv(l) && h in l.handlers && l.handlers[h].Emitting?
    ensures StreamInv(EmitStep(l, h, ok))
  {
    WrittenMeansAssigned(l);
    assert HandlerInv(l.birth, l.written, l.sent, l.handlers[h]);
    if ok {
      SendKeepsEventInv(l.birth, l.written, l.sent, EventOf(l.handlers[h].stored));
    }
  }

  lemma SendKeepsHandlersInv(l: Life, h: nat, ok: bool)
    requires Inv(l) && h in l.handlers && l.handlers[h].Emitting?
    ensures HandlersInv(EmitStep(l, h, ok))
  {
    var l' := EmitStep(l, h, ok);
    WrittenMeansAssigned(l);
    assert HandlerInv(l.birth, l.written, l.sent, l.handlers[h]);
    forall k | k in l'.handlers
      ensures HandlerInv(l'.birth, l'.written, l'.sent, l'.handlers[k])
    {
      assert HandlerInv(l.birth, l.written, l.sent, l.handlers[k]);
    }
  }

  lemma EmitStoredInv(l: Life, h: nat, ok: bool)
    requires Inv(l) && h in l.handlers && l.handlers[h].Emitting?
    ensures Inv(EmitStep(l, h, ok))
  {
    SameCacheInv(l, EmitStep(l, h, ok));
    SendKeepsStreamInv(l, h, ok);
    SendKeepsHandlersInv(l, h, ok);
  }

  lemma RequestingIsAlone(l: Life, h: nat)
    requires HandlersInv(l) && h in l.handlers && l.handlers[h].Requesting?
    ensures l.handlers == map[h := Requesting]
  {
    forall k | k in l.handlers
      ensures k == h
    {
      assert HandlerInv(l.birth, l.written, l.sent, l.handlers[h]);
      assert HandlerInv(l.birth, l.written, l.sent, l.handlers[k]);
    }
  }

  lemma EmitRequestedInv(l: Life, h: nat, ok: bool)
    requires Inv(l) && h in l.handlers && l.handlers[h].Requesting?
    ensures Inv(EmitStep(l, h, ok))
  {
    RequestingIsAlone(l, h);
    assert HandlerInv(l.birth, l.written, l.sent, l.handlers[h]);
    var l' := EmitStep(l, h, ok);
    if ok {
      assert l'.sent == [EventOf(Requested(l.birth))];
    }
  }

  lemma NextInv(l: Life, s: Step)
    requires Inv(l)
    ensures Inv(Next(l, s)) && Next(l, s).birth == l.birth
  {
    match s
    case Get(h, to, now) => GetInv(l, h, to, now);
    case Put(h, ok) => if h in l.handlers && l.handlers[h].Putting? { PutInv(l, h, ok); }
    case Emit(h, ok) =>
      if h in l.handlers && l.handlers[h].Emitting? {
        EmitStoredInv(l, h, ok);
      } else if h in l.handlers && l.handlers[h].Requesting? {
        EmitRequestedInv(l, h, ok);
      }
    case Expire =>
    case Crash(h) => if h in l.handlers { WithoutInv(l, h, l.lost || !l.handlers[h].Putting?); }
  }

  lemma {:induction false} RunInv(l: Life, steps: seq<Step>)
    requires Inv(l)
    ensures Inv(Run(l, steps)) && Run(l, steps).birth == l.birth
  {
    if steps != [] {
      var l' := Run(l, steps[..|steps| - 1]);
      RunInv(l, steps[..|steps| - 1]);
      NextInv(l', steps[|steps| - 1]);
    }
  }

  /** e is an event of birth b's trip: it carries the identity, the price, and after REQUESTED the driver. */
  predicate EventOfBirth(b: Birth, e: TripEvent) {
    && e.trip == b.id && e.rider == b.rider && e.region == b.region && e.surge == b.surge
    && if e.state == REQUESTED then e.driver == "" else b.driver == Some(e.driver)
  }

  /** Whatever handlers interleave: identity, price and creation time never change; REQUESTED comes first or
      not at all, and comes first if nothing was lost; every cache write after ASSIGNED is a legal
      successor of an earlier one. */
  lemma EveryInterleaving(b: Birth, h: nat, steps: seq<Step>)
    ensures var l := Run(Start(b, h), steps);
            && (l.cached.Some? ==> SameTrip(b, l.cached.value))
            && (forall e :: e in l.sent ==> EventOfBirth(b, e))
            && (forall i :: 0 < i < |l.sent| ==> l.sent[i].state != REQUESTED)
            && (!l.lost && l.sent != [] ==> l.sent[0].state == REQUESTED)
            && WritesDescend(l.written)
  {
    StartInv(b, h);
    RunInv(Start(b, h), steps);
    var l := Run(Start(b, h), steps);
    forall i | 0 <= i < |l.sent|
      ensures EventOfBirth(b, l.sent[i]) && (i > 0 ==> l.sent[i].state != REQUESTED)
    {
      assert EventInv(l.birth, l.written, l.sent, i);
    }
    if !l.lost && l.sent != [] {
      SentMeansOpened(l);
    }
    assert l.cached.Some? ==> l.cached.value in l.written;
  }

  lemma SentMeansOpened(l: Life)
    requires Inv(l) && !l.lost && l.sent != []
    ensures l.sent[0] == EventOf(Requested(l.birth))
  {
    assert Opened(l);
  }

  /** No trip is completed without having been started. */
  lemma CompletedAfterStarted(b: Birth, h: nat, steps: seq<Step>, i: nat)
    requires i < |Run(Start(b, h), steps).written| && Run(Start(b, h), steps).written[i].state == COMPLETED
    ensures exists j :: 0 <= j < i && Run(Start(b, h), steps).written[j].state == IN_PROGRESS
  {
    EveryInterleaving(b, h, steps);
    assert HasPredecessor(Run(Start(b, h), steps).written, i, COMPLETED);
  }

  // ---- What is written is sent --------------------------------------------------------------------

  predicate IsEmitting(l: Life, h: nat, t: Trip) {
    h in l.handlers && l.handlers[h] == Emitting(t)
  }

  ghost predicate Accounted(l: Life) {
    !l.lost ==> forall t :: t in l.written ==> EventOf(t) in l.sent || exists h :: IsEmitting(l, h, t)
  }

  lemma NextAccounted(l: Life, s: Step)
    requires Accounted(l)
    ensures Accounted(Next(l, s))
  {
    var l' := Next(l, s);
    if !l'.lost {
      forall t | t in l'.written
        ensures EventOf(t) in l'.sent || exists h :: IsEmitting(l', h, t)
      {
        NextAccountsFor(l, s, t);
      }
    }
  }

  lemma NextAccountsFor(l: Life, s: Step, t: Trip)
    requires Accounted(l) && !Next(l, s).lost && t in Next(l, s).written
    ensures EventOf(t) in Next(l, s).sent || exists h :: IsEmitting(Next(l, s), h, t)
  {
    var l' := Next(l, s);
    if t in l.written {
      if EventOf(t) !in l.sent {
        var h :| IsEmitting(l, h, t);
        if s != Emit(h, true) {
          assert IsEmitting(l', h, t);
        }
      }
    } else {
      assert IsEmitting(l', s.h, t);
    }
  }

  /** Whatever handlers interleave: unless an event was lost, every trip put in the cache has been sent, or is in
      the hands of a handler about to send it. */
  lemma {:induction false} EveryWriteIsSent(b: Birth, h: nat, steps: seq<Step>)
    ensures Accounted(Run(Start(b, h), steps))
  {
    if steps != [] {
      EveryWriteIsSent(b, h, steps[..|steps| - 1]);
      NextAccounted(Run(Start(b, h), steps[..|steps| - 1]), steps[|steps| - 1]);
    }
  }

  // ---- When a trip is over ----------------------------------------------------------------------

  /** Some handler in flight is yet to write the cache. */
  predicate WritePending(l: Life) {
    exists h :: h in l.handlers && (l.handlers[h].Putting? || (l.handlers[h].Requesting? && l.birth.driver.Some?))
  }

  predicate Over(l: Life) {
    l.cached.None? || Terminal(l.cached.value.state)
  }

  lemma {:induction false} OverStays(l: Life, steps: seq<Step>)
    requires Over(l) && !WritePending(l)
    ensures var l' := Run(l, steps);
            && Over(l') && !WritePending(l') && l'.written == l.written && l'.birth == l.birth
            && (l'.cached == l.cached || l'.cached.None?)
            && l'.handlers.Keys <= l.handlers.Keys && (l.handlers == map[] ==> l'.sent == l.sent)
  {
    if steps != [] {
      OverStays(l, steps[..|steps| - 1]);
      OverStep(Run(l, steps[..|steps| - 1]), steps[|steps| - 1]);
    }
  }

  lemma OverStep(l: Life, s: Step)
    requires Over(l) && !WritePending(l)
    ensures var l' := Next(l, s);
            && Over(l') && !WritePending(l') && l'.written == l.written && l'.birth == l.birth
            && (l'.cached == l.cached || l'.cached.None?)
            && l'.handlers.Keys <= l.handlers.Keys && (l.handlers == map[] ==> l'.sent == l.sent)
  {
    var l' := Next(l, s);
    forall h | h in l'.handlers
      ensures h in l.handlers && l'.handlers[h] == l.handlers[h]
    {
    }
  }

  /** A terminal trip, or one the cache has dropped, is written again in some continuation exactly when a
      handler in flight is yet to write; and once no handler is in flight at all, nothing changes any more. */
  lemma OverForGoodIff(l: Life)
    requires Over(l)
    ensures WritePending(l) <==> exists steps :: Run(l, steps).written != l.written
    ensures l.handlers == map[] ==> forall steps :: Run(l, steps).sent == l.sent && Run(l, steps).written == l.written
                                                    && (Run(l, steps).cached == l.cached || Run(l, steps).cached.None?)
  {
    if WritePending(l) {
      var h :| h in l.handlers && (l.handlers[h].Putting? || (l.handlers[h].Requesting? && l.birth.driver.Some?));
      var steps := if l.handlers[h].Putting? then [Put(h, true)] else [Emit(h, true), Put(h, true)];
      assert steps[..|steps| - 1] == if l.handlers[h].Putting? then [] else [Emit(h, true)];
      assert Run(l, [Emit(h, true)]) == Next(l, Emit(h, true)) by {
        assert [Emit(h, true)][..0] == [];
      }
      assert |Run(l, steps).written| == |l.written| + 1;
    } else {
      forall steps
        ensures Run(l, steps).written == l.written
      {
        OverStays(l, steps);
      }
    }
    if l.handlers == map[] {
      forall steps
        ensures Run(l, steps).sent == l.sent && Run(l, steps).written == l.written
        ensures Run(l, steps).cached == l.cached || Run(l, steps).cached.None?
      {
        OverStays(l, steps);
      }
    }
  }
}
