/** Runs in which the handlers of one trip do not overlap, and why overlap is exactly what breaks them. */
module Serial {
  import opened Models
  import opened Trips
  import opened Lifecycle

  /** A handler starts only when no other is in flight on the trip. */
  predicate Alone(l: Life, s: Step) {
    s.Get? ==> l.handlers == map[]
  }

  predicate SerialRun(l: Life, steps: seq<Step>) {
    steps != [] ==> SerialRun(l, steps[..|steps| - 1]) && Alone(Run(l, steps[..|steps| - 1]), steps[|steps| - 1])
  }

  predicate StreamIsPath(sent: seq<TripEvent>) {
    forall i :: 0 < i < |sent| ==> CanTransition(sent[i - 1].state, sent[i].state)
  }

  predicate WritesArePath(written: seq<Trip>) {
    forall i :: 0 < i < |written| ==> CanTransition(written[i - 1].state, written[i].state)
  }

  predicate RanksRise(sent: seq<TripEvent>) {
    forall i, j :: 0 <= i < j < |sent| ==> Rank(sent[i].state) < Rank(sent[j].state)
  }

  predicate RanksBelow(sent: seq<TripEvent>, r: nat) {
    forall i :: 0 <= i < |sent| ==> Rank(sent[i].state) < r
  }

  function Top(l: Life): nat {
    if l.written == [] then 0 else Rank(l.written[|l.written| - 1].state)
  }

  predicate Idle(l: Life) { l.handlers == map[] }

  /** The events due so far: REQUESTED, then one for each cache write whose handler has emitted. */
  predicate SentInStep(l: Life, writes: nat)
    requires writes <= |l.written|
  {
    && |l.sent| == 1 + writes
    && l.sent[0] == EventOf(Requested(l.birth))
    && forall i :: 0 < i < |l.sent| ==> l.sent[i] == EventOf(l.written[i - 1])
  }

  predicate HandlerInStep(l: Life, h: Handler) {
    match h
    case Requesting => l.written == [] && l.sent == []
    case Putting(t) =>
      && (if l.written == [] then t.state == ASSIGNED else CanTransition(l.written[|l.written| - 1].state, t.state))
      && (!l.lost ==> SentInStep(l, |l.written|))
    case Emitting(t) =>
      && l.written != [] && t == l.written[|l.written| - 1]
      && RanksBelow(l.sent, Top(l))
      && (!l.lost ==> SentInStep(l, |l.written| - 1))
  }

  predicate InStep(l: Life) {
    && WritesArePath(l.written)
    && RanksRise(l.sent) && RanksBelow(l.sent, Top(l) + 1)
    && (forall h, k :: h in l.handlers && k in l.handlers ==> h == k)
    && (forall h :: h in l.handlers ==> HandlerInStep(l, l.handlers[h]))
    && (Idle(l) && !l.lost ==> SentInStep(l, |l.written|))
  }

  /** What serial runs keep besides. */
  ghost predicate SerialInv(l: Life) {
    Inv(l) && InStep(l)
  }

  lemma StartSerial(b: Birth, h: nat)
    ensures SerialInv(Start(b, h))
  {
    StartInv(b, h);
    assert h in Start(b, h).handlers;
  }

  lemma TheHandler(l: Life, h: nat)
    requires InStep(l) && h in l.handlers
    ensures l.handlers == map[h := l.handlers[h]] && l.handlers - {h} == map[]
    ensures HandlerInStep(l, l.handlers[h])
  {
    assert forall k :: k in l.handlers ==> k == h;
  }

  lemma GetSerial(l: Life, h: nat, to: TripState, now: int)
    requires SerialInv(l) && Idle(l)
    ensures SerialInv(GetStep(l, h, to, now))
  {
    GetInv(l, h, to, now);
  }

  lemma PutInStep(l: Life, h: nat)
    requires InStep(l) && h in l.handlers && l.handlers[h].Putting?
    ensures InStep(PutStep(l, h, true))
  {
    TheHandler(l, h);
    var t, l' := l.handlers[h].next, PutStep(l, h, true);
    assert l'.handlers == map[h := Emitting(t)];
    assert l'.written[|l'.written| - 1] == t && Top(l') == Rank(t.state) > Top(l);
    assert forall i :: 0 <= i < |l.written| ==> l'.written[i] == l.written[i];
    if !l.lost {
      assert SentInStep(l', |l.written|);
    }
  }

  lemma PutSerial(l: Life, h: nat, ok: bool)
    requires SerialInv(l) && h in l.handlers && l.handlers[h].Putting?
    ensures SerialInv(PutStep(l, h, ok))
  {
    PutInv(l, h, ok);
    if ok {
      PutInStep(l, h);
    } else {
      TheHandler(l, h);
    }
  }

  lemma SendRanks(sent: seq<TripEvent>, e: TripEvent)
    requires RanksRise(sent) && RanksBelow(sent, Rank(e.state))
    ensures RanksRise(sent + [e]) && RanksBelow(sent + [e], Rank(e.state) + 1)
  {
  }

  lemma EmitStoredInStep(l: Life, h: nat, ok: bool)
    requires InStep(l) && h in l.handlers && l.handlers[h].Emitting?
    ensures InStep(EmitStep(l, h, ok))
  {
    TheHandler(l, h);
    var e := EventOf(l.handlers[h].stored);
    SendRanks(l.sent, e);
    var l' := EmitStep(l, h, ok);
    if !l'.lost {
      assert l'.sent == l.sent + [e] && SentInStep(l', |l.written|);
    }
  }

  lemma EmitStoredSerial(l: Life, h: nat, ok: bool)
    requires SerialInv(l) && h in l.handlers && l.handlers[h].Emitting?
    ensures SerialInv(EmitStep(l, h, ok))
  {
    EmitStoredInv(l, h, ok);
    EmitStoredInStep(l, h, ok);
  }

  lemma EmitRequestedSerial(l: Life, h: nat, ok: bool)
    requires SerialInv(l) && h in l.handlers && l.handlers[h].Requesting?
    ensures SerialInv(EmitStep(l, h, ok))
  {
    EmitRequestedInv(l, h, ok);
    TheHandler(l, h);
  }

  lemma CrashSerial(l: Life, h: nat)
    requires SerialInv(l) && h in l.handlers
    ensures SerialInv(CrashStep(l, h))
  {
    WithoutInv(l, h, l.lost || !l.handlers[h].Putting?);
    TheHandler(l, h);
  }

  lemma EmitSerial(l: Life, h: nat, ok: bool)
    requires SerialInv(l) && h in l.handlers && !l.handlers[h].Putting?
    ensures SerialInv(EmitStep(l, h, ok))
  {
    if l.handlers[h].Emitting? {
      EmitStoredSerial(l, h, ok);
    } else {
      EmitRequestedSerial(l, h, ok);
    }
  }

  lemma NextSerial(l: Life, s: Step)
    requires SerialInv(l) && Alone(l, s)
    ensures SerialInv(Next(l, s))
  {
    match s
    case Get(h, to, now) => GetSerial(l, h, to, now);
    case Put(h, ok) => if h in l.handlers && l.handlers[h].Putting? { PutSerial(l, h, ok); }
    case Emit(h, ok) => if h in l.handlers && !l.handlers[h].Putting? { EmitSerial(l, h, ok); }
    case Expire => NextInv(l, s);
    case Crash(h) => if h in l.handlers { CrashSerial(l, h); }
  }

  lemma {:induction false} RunSerial(l: Life, steps: seq<Step>)
    requires SerialInv(l) && SerialRun(l, steps)
    ensures SerialInv(Run(l, steps))
  {
    if steps != [] {
      var l' := Run(l, steps[..|steps| - 1]);
      RunSerial(l, steps[..|steps| - 1]);
      NextSerial(l', steps[|steps| - 1]);
    }
  }

  // ---- What a serial trip's stream looks like ------------------------------------------------------

  lemma {:induction false} RankAtLeastIndex(sent: seq<TripEvent>, i: nat)
    requires RanksRise(sent) && i < |sent|
    ensures Rank(sent[i].state) >= i
  {
    if i > 0 {
      RankAtLeastIndex(sent, i - 1);
    }
  }

  lemma InStepStreamIsPath(l: Life, writes: nat)
    requires WritesArePath(l.written) && (l.written != [] ==> l.written[0].state == ASSIGNED)
    requires writes <= |l.written| && SentInStep(l, writes)
    ensures StreamIsPath(l.sent) && l.sent[0].state == REQUESTED
  {
    forall i | 0 < i < |l.sent|
      ensures CanTransition(l.sent[i - 1].state, l.sent[i].state)
    {
      if i > 1 {
        assert l.sent[i - 1] == EventOf(l.written[i - 2]) && CanTransition(l.written[i - 2].state, l.written[i - 1].state);
      }
    }
  }

  lemma UnlostStreamIsPath(l: Life)
    requires SerialInv(l) && !l.lost
    ensures StreamIsPath(l.sent) && (l.sent != [] ==> l.sent[0].state == REQUESTED)
  {
    if h :| h in l.handlers {
      TheHandler(l, h);
      match l.handlers[h]
      case Requesting =>
      case Putting(_) => InStepStreamIsPath(l, |l.written|);
      case Emitting(_) => InStepStreamIsPath(l, |l.written| - 1);
    } else {
      assert Idle(l);
      InStepStreamIsPath(l, |l.written|);
    }
  }

  /** The events climb the lifecycle, so there are at most four and none follows a terminal one; if none was
      lost they are a path from REQUESTED; and with no handler in flight the cached trip is the one its last
      event carries. */
  predicate Shapely(l: Life) {
    && (forall i :: 0 <= i < |l.sent| && Terminal(l.sent[i].state) ==> i == |l.sent| - 1)
    && RanksRise(l.sent) && |l.sent| <= 4
    && (!l.lost ==> StreamIsPath(l.sent) && (l.sent != [] ==> l.sent[0].state == REQUESTED))
    && (l.cached.Some? && Idle(l) && !l.lost ==> l.sent != [] && l.sent[|l.sent| - 1] == EventOf(l.cached.value))
  }

  lemma InStepIsShapely(l: Life)
    requires SerialInv(l)
    ensures Shapely(l)
  {
    if l.sent != [] {
      RankAtLeastIndex(l.sent, |l.sent| - 1);
    }
    if !l.lost {
      UnlostStreamIsPath(l);
    }
  }

  /** When a trip's handlers do not overlap its stream has that shape, each event's state reachable from the
      earlier ones', and the cache never holds REQUESTED. */
  lemma SerialStream(b: Birth, h: nat, steps: seq<Step>)
    requires SerialRun(Start(b, h), steps)
    ensures var l := Run(Start(b, h), steps);
            && Shapely(l) && (l.cached.Some? ==> l.cached.value.state != REQUESTED)
            && forall i, j :: 0 <= i < j < |l.sent| ==> Reaches(l.sent[i].state, l.sent[j].state)
  {
    StartSerial(b, h);
    RunSerial(Start(b, h), steps);
    var l := Run(Start(b, h), steps);
    InStepIsShapely(l);
    forall i, j | 0 <= i < j < |l.sent|
      ensures Reaches(l.sent[i].state, l.sent[j].state)
    {
      ReachesIffRankRises(l.sent[i].state, l.sent[j].state);
    }
    assert l.cached.Some? ==> l.cached.value in l.written;
  }

  // ---- Overlap is exactly what breaks the path -----------------------------------------------------

  /** The handlers in flight go on and nothing fails: every step puts or emits successfully. */
  predicate Smooth(steps: seq<Step>) {
    forall s :: s in steps ==> (s.Put? || s.Emit?) && s.ok
  }

  lemma {:induction false} SmoothRun(l: Life, steps: seq<Step>)
    requires Smooth(steps)
    ensures SerialRun(l, steps) && Run(l, steps).lost == l.lost
  {
    if steps != [] {
      assert steps[|steps| - 1] in steps;
      SmoothRun(l, steps[..|steps| - 1]);
    }
  }

  lemma RunMore(l: Life, steps: seq<Step>, s: Step)
    ensures Run(l, steps + [s]) == Next(Run(l, steps), s)
  {
    assert (steps + [s])[..|steps|] == steps;
  }

  /** Handler x puts and emits, then handler y does. */
  lemma OneAfterTheOther(l: Life, x: nat, y: nat) returns (steps: seq<Step>)
    requires x != y && x in l.handlers && y in l.handlers && l.handlers[x].Putting? && l.handlers[y].Putting?
    ensures Smooth(steps) && Run(l, steps).sent == l.sent + [EventOf(l.handlers[x].next), EventOf(l.handlers[y].next)]
  {
    RunMore(l, [], Put(x, true));
    RunMore(l, [Put(x, true)], Emit(x, true));
    RunMore(l, [Put(x, true)] + [Emit(x, true)], Put(y, true));
    RunMore(l, [Put(x, true)] + [Emit(x, true)] + [Put(y, true)], Emit(y, true));
    steps := [Put(x, true)] + [Emit(x, true)] + [Put(y, true)] + [Emit(y, true)];
  }

  /** Handler y, which has put already, emits; then x puts and emits. */
  lemma EmitBeforePut(l: Life, x: nat, y: nat) returns (steps: seq<Step>)
    requires x != y && x in l.handlers && y in l.handlers && l.handlers[x].Putting? && l.handlers[y].Emitting?
    ensures Smooth(steps) && Run(l, steps).sent == l.sent + [EventOf(l.handlers[y].stored), EventOf(l.handlers[x].next)]
  {
    RunMore(l, [], Emit(y, true));
    RunMore(l, [Emit(y, true)], Put(x, true));
    RunMore(l, [Emit(y, true)] + [Put(x, true)], Emit(x, true));
    steps := [Emit(y, true)] + [Put(x, true)] + [Emit(x, true)];
  }

  /** Handler x puts and emits before y, which has put already, emits. */
  lemma OvertakenEmit(l: Life, x: nat, y: nat) returns (steps: seq<Step>)
    requires x != y && x in l.handlers && y in l.handlers && l.handlers[x].Putting? && l.handlers[y].Emitting?
    ensures Smooth(steps) && Run(l, steps).sent == l.sent + [EventOf(l.handlers[x].next), EventOf(l.handlers[y].stored)]
  {
    RunMore(l, [], Put(x, true));
    RunMore(l, [Put(x, true)], Emit(x, true));
    RunMore(l, [Put(x, true)] + [Emit(x, true)], Emit(y, true));
    steps := [Put(x, true)] + [Emit(x, true)] + [Emit(y, true)];
  }

  lemma IllegalTail(sent: seq<TripEvent>, d: TripEvent, e: TripEvent)
    requires !CanTransition(d.state, e.state)
    ensures !StreamIsPath(sent + [d, e])
  {
    var t, n := sent + [d, e], |sent| + 1;
    assert t[n - 1] == d && t[n] == e;
  }

  lemma PathEnd(sent: seq<TripEvent>, e: TripEvent)
    ensures StreamIsPath(sent + [e]) <==> StreamIsPath(sent) && (sent != [] ==> CanTransition(sent[|sent| - 1].state, e.state))
  {
    var t, n := sent + [e], |sent|;
    assert n > 0 ==> t[n - 1] == sent[n - 1] && t[n] == e;
    if StreamIsPath(t) {
      forall i | 0 < i < n
        ensures CanTransition(sent[i - 1].state, sent[i].state)
      {
        assert t[i - 1] == sent[i - 1] && t[i] == sent[i];
      }
    }
  }

  /** A continuation in which no event is lost and no further handler starts beside another. Handlers may
      otherwise go on in any order, fail to put, crash before they put, or start anew; the cache may expire. */
  ghost predicate Lossless(l: Life, steps: seq<Step>) {
    SerialRun(l, steps) && !Run(l, steps).lost
  }

  /** Some lossless continuation leaves the lifecycle. */
  ghost predicate CanStray(l: Life) {
    exists steps :: Lossless(l, steps) && !StreamIsPath(Run(l, steps).sent)
  }

  lemma SmoothStrays(l: Life, steps: seq<Step>)
    requires !l.lost && Smooth(steps) && !StreamIsPath(Run(l, steps).sent)
    ensures CanStray(l)
  {
    SmoothRun(l, steps);
    assert Lossless(l, steps);
  }

  // Two handlers that are both yet to send, in either order.

  lemma TwoPutsStray(l: Life, x: nat, y: nat)
    requires !l.lost && x != y && x in l.handlers && y in l.handlers && l.handlers[x].Putting? && l.handlers[y].Putting?
    ensures CanStray(l)
  {
    var t, u := l.handlers[x].next, l.handlers[y].next;
    var steps;
    if CanTransition(t.state, u.state) {
      steps := OneAfterTheOther(l, y, x);
      IllegalTail(l.sent, EventOf(u), EventOf(t));
    } else {
      steps := OneAfterTheOther(l, x, y);
      IllegalTail(l.sent, EventOf(t), EventOf(u));
    }
    SmoothStrays(l, steps);
  }

  lemma PutAndEmitStray(l: Life, x: nat, y: nat)
    requires !l.lost && x != y && x in l.handlers && y in l.handlers && l.handlers[x].Putting? && l.handlers[y].Emitting?
    ensures CanStray(l)
  {
    var t, u := l.handlers[x].next, l.handlers[y].stored;
    var steps;
    if CanTransition(t.state, u.state) {
      steps := EmitBeforePut(l, x, y);
      IllegalTail(l.sent, EventOf(u), EventOf(t));
    } else {
      steps := OvertakenEmit(l, x, y);
      IllegalTail(l.sent, EventOf(t), EventOf(u));
    }
    SmoothStrays(l, steps);
  }

  /** A transition that has passed its check strays if the stream's end does not lead to its target. */
  lemma PutStrays(l: Life, x: nat)
    requires !l.lost && x in l.handlers && l.handlers[x].Putting?
    requires l.sent != [] && !CanTransition(l.sent[|l.sent| - 1].state, l.handlers[x].next.state)
    ensures CanStray(l)
  {
    RunMore(l, [], Put(x, true));
    RunMore(l, [Put(x, true)], Emit(x, true));
    PathEnd(l.sent, EventOf(l.handlers[x].next));
    SmoothStrays(l, [Put(x, true)] + [Emit(x, true)]);
  }

  /** The stream's end is the cached trip's state. */
  predicate EndsAsCached(l: Life) {
    l.sent != [] && l.cached.Some? && l.sent[|l.sent| - 1].state == l.cached.value.state
  }

  /** Nobody is in flight, the stream is a path, and it has come as far as the cache. */
  predicate Settled(l: Life) {
    Idle(l) && StreamIsPath(l.sent) && EndsAsCached(l)
  }

  // ---- A settled trip keeps to the path -----------------------------------------------------------

  /** At most one handler is in flight; the stream is a path, and what is about to be sent will continue it. */
  predicate OnPath(l: Life) {
    && StreamIsPath(l.sent) && l.sent != []
    && (forall h, k :: h in l.handlers && k in l.handlers ==> h == k)
    && (Idle(l) && l.cached.Some? ==> EndsAsCached(l))
    && forall h :: h in l.handlers ==> NextOnPath(l, l.handlers[h])
  }

  predicate NextOnPath(l: Life, h: Handler)
    requires l.sent != []
  {
    match h
    case Requesting => false
    case Putting(t) => CanTransition(l.sent[|l.sent| - 1].state, t.state) && (l.cached.Some? ==> EndsAsCached(l))
    case Emitting(t) => CanTransition(l.sent[|l.sent| - 1].state, t.state) && (l.cached.Some? ==> l.cached.value.state == t.state)
  }

  lemma OnlyHandler(l: Life, h: nat)
    requires OnPath(l) && h in l.handlers
    ensures l.handlers == map[h := l.handlers[h]] && l.handlers - {h} == map[] && NextOnPath(l, l.handlers[h])
  {
    assert forall k :: k in l.handlers ==> k == h;
  }

  lemma PutOnPath(l: Life, h: nat, ok: bool)
    requires OnPath(l) && h in l.handlers && l.handlers[h].Putting?
    ensures OnPath(PutStep(l, h, ok))
  {
    OnlyHandler(l, h);
  }

  lemma EmitOnPath(l: Life, h: nat)
    requires OnPath(l) && h in l.handlers && l.handlers[h].Emitting?
    ensures OnPath(EmitStep(l, h, true))
  {
    OnlyHandler(l, h);
    PathEnd(l.sent, EventOf(l.handlers[h].stored));
  }

  lemma NextOnPathOrLost(l: Life, s: Step)
    requires (l.lost || OnPath(l)) && Alone(l, s)
    ensures Next(l, s).lost || OnPath(Next(l, s))
  {
    if !l.lost {
      match s
      case Get(h, to, now) =>
      case Put(h, ok) => if h in l.handlers && l.handlers[h].Putting? { PutOnPath(l, h, ok); }
      case Emit(h, ok) =>
        if h in l.handlers && !l.handlers[h].Putting? {
          OnlyHandler(l, h);
          if ok {
            EmitOnPath(l, h);
          }
        }
      case Expire =>
      case Crash(h) => if h in l.handlers { OnlyHandler(l, h); }
    }
  }

  lemma {:induction false} RunOnPath(l: Life, steps: seq<Step>)
    requires (l.lost || OnPath(l)) && SerialRun(l, steps)
    ensures Run(l, steps).lost || OnPath(Run(l, steps))
  {
    if steps != [] {
      RunOnPath(l, steps[..|steps| - 1]);
      NextOnPathOrLost(Run(l, steps[..|steps| - 1]), steps[|steps| - 1]);
    }
  }

  // ---- And only a settled trip does -----------------------------------------------------------------

  lemma LaterWriteAdvances(l: Life, i: nat)
    requires Inv(l) && 0 < i < |l.written|
    ensures l.written[i].state != ASSIGNED
  {
    assert HasPredecessor(l.written, i, l.written[i].state);
  }

  /** ASSIGNED is only ever the first write. */
  lemma AssignedIsFirst(l: Life)
    requires Inv(l) && l.cached.Some? && l.cached.value.state == ASSIGNED
    ensures l.written == [l.cached.value]
  {
    if |l.written| > 1 {
      LaterWriteAdvances(l, |l.written| - 1);
    }
  }

  lemma LaterEventWasWritten(l: Life, i: nat)
    requires Inv(l) && 0 < i < |l.sent|
    ensures exists t :: t in l.written && l.sent[i] == EventOf(t)
  {
    assert EventInv(l.birth, l.written, l.sent, i);
  }

  lemma OnlyAssignedWasSent(l: Life, i: nat)
    requires Inv(l) && l.cached.Some? && l.cached.value.state == ASSIGNED && 0 < i < |l.sent|
    ensures l.sent[i].state == ASSIGNED
  {
    AssignedIsFirst(l);
    LaterEventWasWritten(l, i);
  }

  lemma CachedWasSent(l: Life)
    requires Inv(l) && Accounted(l) && !l.lost && Idle(l) && l.cached.Some?
    ensures EventOf(l.cached.value) in l.sent && l.sent != []
  {
    assert l.cached.value in l.written;
  }

  lemma PathStatesRise(sent: seq<TripEvent>, i: nat, j: nat)
    requires StreamIsPath(sent) && i < j < |sent|
    ensures Rank(sent[i].state) < Rank(sent[j].state)
    decreases j - i
  {
    assert CanTransition(sent[j - 1].state, sent[j].state);
    if i < j - 1 {
      PathStatesRise(sent, i, j - 1);
    }
  }

  lemma PathEndsAbove(sent: seq<TripEvent>, e: TripEvent)
    requires StreamIsPath(sent) && e in sent
    ensures sent[|sent| - 1] == e || (|sent| > 1 && Rank(sent[|sent| - 1].state) > Rank(e.state))
  {
    var i :| 0 <= i < |sent| && sent[i] == e;
    if i < |sent| - 1 {
      PathStatesRise(sent, i, |sent| - 1);
    }
  }

  lemma EndedIsTerminal(l: Life, to: TripState)
    requires Inv(l) && Accounted(l) && !l.lost && Idle(l) && StreamIsPath(l.sent)
    requires l.cached.Some? && CanTransition(l.cached.value.state, to)
    ensures l.sent != [] && (EndsAsCached(l) || Terminal(l.sent[|l.sent| - 1].state))
  {
    CachedWasSent(l);
    PathEndsAbove(l.sent, EventOf(l.cached.value));
    if l.cached.value.state == ASSIGNED && |l.sent| > 1 {
      OnlyAssignedWasSent(l, |l.sent| - 1);
    }
  }

  lemma UnsettledStrays(l: Life, k: nat, to: TripState, now: int)
    requires Inv(l) && Accounted(l) && !l.lost && !Settled(l)
    requires l.cached.Some? && k !in l.handlers && CanTransition(l.cached.value.state, to)
    ensures CanStray(Next(l, Get(k, to, now)))
  {
    var l' := Next(l, Get(k, to, now));
    if !StreamIsPath(l.sent) {
      assert Run(l', []).sent == l.sent;
      SmoothStrays(l', []);
    } else if Idle(l) {
      EndedIsTerminal(l, to);
      PutStrays(l', k);
    } else {
      var h :| h in l.handlers;
      WrittenMeansAssigned(l);
      if l.handlers[h].Putting? {
        TwoPutsStray(l', k, h);
      } else {
        PutAndEmitStray(l', k, h);
      }
    }
  }

  /** In every run in which no event was lost, however its handlers overlapped: let a transition pass its check.
      Then the stream stays a lifecycle path in every lossless continuation exactly when it was one, no other
      handler was in flight, and it had come as far as the cache. */
  lemma PathSurvivesIff(b: Birth, h: nat, past: seq<Step>, k: nat, to: TripState, now: int)
    requires var l := Run(Start(b, h), past);
             !l.lost && l.cached.Some? && k !in l.handlers && CanTransition(l.cached.value.state, to)
    ensures var l := Run(Start(b, h), past);
            var l' := Next(l, Get(k, to, now));
            Settled(l) <==> forall steps :: Lossless(l', steps) ==> StreamIsPath(Run(l', steps).sent)
  {
    var l := Run(Start(b, h), past);
    var l' := Next(l, Get(k, to, now));
    StartInv(b, h);
    RunInv(Start(b, h), past);
    EveryWriteIsSent(b, h, past);
    if Settled(l) {
      forall steps | Lossless(l', steps)
        ensures StreamIsPath(Run(l', steps).sent)
      {
        RunOnPath(l', steps);
      }
    } else {
      UnsettledStrays(l, k, to, now);
    }
  }

  /** Where no handlers overlapped before, that no other is in flight is enough. */
  lemma PathSurvivesIffAlone(b: Birth, h: nat, past: seq<Step>, k: nat, to: TripState, now: int)
    requires SerialRun(Start(b, h), past)
    requires var l := Run(Start(b, h), past);
             !l.lost && l.cached.Some? && k !in l.handlers && CanTransition(l.cached.value.state, to)
    ensures var l := Run(Start(b, h), past);
            var l' := Next(l, Get(k, to, now));
            Idle(l) <==> forall steps :: Lossless(l', steps) ==> StreamIsPath(Run(l', steps).sent)
  {
    SerialStream(b, h, past);
    PathSurvivesIff(b, h, past, k, to, now);
  }

  /** A ride, assigned. */
  const JustAssigned := [Emit(0, true)] + [Put(0, true)] + [Emit(0, true)]

  lemma AssignedLife(b: Birth)
    requires b.driver.Some?
    ensures var t := Assigned(b);
            Run(Start(b, 0), JustAssigned) == Life(b, Some(t), map[], [t], [EventOf(Requested(b)), EventOf(t)], false)
  {
    var l := Start(b, 0);
    RunMore(l, [], Emit(0, true));
    RunMore(l, [Emit(0, true)], Put(0, true));
    RunMore(l, [Emit(0, true)] + [Put(0, true)], Emit(0, true));
  }

  /** Then a start and a cancellation, which both pass the check before either writes. */
  const TwoAtOnce := JustAssigned + [Get(1, IN_PROGRESS, 1)] + [Get(2, CANCELLED, 2)]

  lemma BothPass(b: Birth)
    requires b.driver.Some?
    ensures var t, l, l' := Assigned(b), Run(Start(b, 0), JustAssigned), Run(Start(b, 0), TwoAtOnce);
            l' == l.(handlers := map[1 := Putting(t.(state := IN_PROGRESS, updated := 1)), 2 := Putting(t.(state := CANCELLED, updated := 2))])
  {
    AssignedLife(b);
    RunMore(Start(b, 0), JustAssigned, Get(1, IN_PROGRESS, 1));
    RunMore(Start(b, 0), JustAssigned + [Get(1, IN_PROGRESS, 1)], Get(2, CANCELLED, 2));
  }

  /** Nothing fails, and still a cancelled trip is set in progress, in the cache and in the stream. */
  lemma CancelledThenStarted(b: Birth)
    requires b.driver.Some?
    ensures var l := Run(Start(b, 0), TwoAtOnce + [Put(2, true)] + [Emit(2, true)]);
            l.cached.Some? && l.cached.value.state == CANCELLED
    ensures var l := Run(Start(b, 0), TwoAtOnce + [Put(2, true)] + [Emit(2, true)] + [Put(1, true)] + [Emit(1, true)]);
            && !l.lost && |l.sent| == 4 && l.sent[2].state == CANCELLED && l.sent[3].state == IN_PROGRESS
            && !StreamIsPath(l.sent) && l.cached.Some? && l.cached.value.state == IN_PROGRESS
  {
    AssignedLife(b);
    BothPass(b);
    var l := Start(b, 0);
    RunMore(l, TwoAtOnce, Put(2, true));
    RunMore(l, TwoAtOnce + [Put(2, true)], Emit(2, true));
    RunMore(l, TwoAtOnce + [Put(2, true)] + [Emit(2, true)], Put(1, true));
    RunMore(l, TwoAtOnce + [Put(2, true)] + [Emit(2, true)] + [Put(1, true)], Emit(1, true));
  }
}
