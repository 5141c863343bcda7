/** cmd/tripworker: the consume loop - read, apply, notify - and what it means for the pipeline. */
module Worker {
  import opened Models
  import opened Trips
  import opened Lifecycle
  import opened Pipeline

  // ---- Notifications ------------------------------------------------------------------------------

  /** The texts for the rider and the driver; an empty one is not sent. */
  function Messages(s: TripState): (string, string) {
    match s
    case REQUESTED => ("Looking for a nearby driver\U{2026}", "")
    case ASSIGNED => ("Driver assigned and on the way", "New trip assigned to you")
    case IN_PROGRESS => ("Your trip has started", "Trip started")
    case COMPLETED => ("Trip complete \U{2014} thanks for riding!", "Trip completed")
    case CANCELLED => ("Your trip was cancelled", "Trip cancelled")
  }

  function Notice(user: string, e: TripEvent, message: string): seq<Notification> {
    if message != "" && user != "" then [Notification(user, e.state, e.trip, message)] else []
  }

  function Notices(e: TripEvent): seq<Notification> {
    Notice(e.rider, e, Messages(e.state).0) + Notice(e.driver, e, Messages(e.state).1)
  }

  /** e's notices go to the trip's rider, and from assignment on to its driver too, and to no one else. */
  predicate NotifiesTrip(b: Birth, e: TripEvent) {
    && |Notices(e)| == (if e.state == REQUESTED then 1 else 2)
    && Notices(e)[0].user == b.rider
    && (e.state != REQUESTED ==> Some(Notices(e)[1].user) == b.driver)
    && forall n :: n in Notices(e) ==> n.trip == b.id && n.kind == e.state && n.message != ""
  }

  lemma BirthNotifies(b: Birth, e: TripEvent)
    requires EventOfBirth(b, e) && b.rider != "" && b.driver != Some("")
    ensures NotifiesTrip(b, e)
  {
  }

  lemma EveryEventNotifies(actions: seq<Action>, route: string -> nat, p: nat, e: TripEvent)
    requires e in Log(After(actions, route), p)
    ensures e.trip in After(actions, route).lives && NotifiesTrip(After(actions, route).lives[e.trip].birth, e)
  {
    ReachableInv(actions, route);
    var s := After(actions, route);
    HomeOfLogged(s, p, e, route);
    LoggedIsOfBirth(s, route, e.trip, e);
    BirthNotifies(s.lives[e.trip].birth, e);
  }

  predicate EndsWith(s: string, t: string) { |t| <= |s| && s[|s| - |t|..] == t }

  // A notice's text tells the state of its event.

  lemma TextTellsCancelled(e: TripEvent, n: Notification)
    requires n in Notices(e)
    ensures EndsWith(n.message, "cancelled") <==> e.state == CANCELLED
  {
  }

  lemma TextTellsCompleted(e: TripEvent, n: Notification)
    requires n in Notices(e)
    ensures EndsWith(n.message, "riding!") || EndsWith(n.message, "completed") <==> e.state == COMPLETED
  {
  }

  lemma TextTellsAssigned(e: TripEvent, n: Notification)
    requires n in Notices(e)
    ensures EndsWith(n.message, "on the way") || EndsWith(n.message, "assigned to you") <==> e.state == ASSIGNED
  {
  }

  lemma TextTellsStarted(e: TripEvent, n: Notification)
    requires n in Notices(e)
    ensures EndsWith(n.message, "started") <==> e.state == IN_PROGRESS
  {
  }

  // ---- The loop -----------------------------------------------------------------------------------

  /** The events that get applied: those that can be decoded and whose transaction does not fail. */
  function Kept(messages: seq<Option<TripEvent>>, faults: seq<Fault>): seq<TripEvent>
    requires |faults| == |messages|
  {
    if messages == [] then []
    else
      var n := |messages| - 1;
      var k := Kept(messages[..n], faults[..n]);
      if messages[n].Some? && faults[n] == NoFault then k + [messages[n].value] else k
  }

  function ApplyOnto(db: Db, events: seq<TripEvent>): Db {
    if events == [] then db else Applied(ApplyOnto(db, events[..|events| - 1]), events[|events| - 1])
  }

  function NoticesOf(events: seq<TripEvent>): seq<Notification> {
    if events == [] then [] else NoticesOf(events[..|events| - 1]) + Notices(events[|events| - 1])
  }

  lemma NoticesOfOne(e: TripEvent)
    ensures NoticesOf([e]) == Notices(e)
  {
    assert [e][..0] == [];
  }

  lemma NoticesOfLast(s: seq<TripEvent>)
    requires s != []
    ensures NoticesOf(s) == NoticesOf(s[..|s| - 1]) + NoticesOf([s[|s| - 1]])
  {
    NoticesOfOne(s[|s| - 1]);
  }

  lemma Regroup(x: seq<Notification>, y: seq<Notification>, z: seq<Notification>)
    ensures x + y + z == x + (y + z)
  {
  }

  /** Each event applied is notified of once, after those before it. */
  lemma {:induction false} NoticesInOrder(a: seq<TripEvent>, b: seq<TripEvent>)
    ensures NoticesOf(a + b) == NoticesOf(a) + NoticesOf(b)
  {
    if b == [] {
      assert a + b == a;
    } else {
      var c, e := b[..|b| - 1], b[|b| - 1];
      NoticesInOrder(a, c);
      assert (a + b)[..|a + b| - 1] == a + c;
      NoticesOfLast(a + b);
      NoticesOfLast(b);
      Regroup(NoticesOf(a), NoticesOf(c), NoticesOf([e]));
    }
  }

  /** A stretch of the consume loop, over messages as decoded; `faults` says how each one's transaction goes. A
      message that cannot be decoded or persisted is passed over, and nobody is notified of it. */
  method Consume(store: Store, messages: seq<Option<TripEvent>>, faults: seq<Fault>) returns (published: seq<Notification>)
    requires |faults| == |messages|
    modifies store
    ensures store.Contents() == ApplyOnto(old(store.Contents()), Kept(messages, faults))
    ensures published == NoticesOf(Kept(messages, faults))
  {
    published := [];
    ghost var db := store.Contents();
    for i := 0 to |messages|
      invariant store.Contents() == ApplyOnto(db, Kept(messages[..i], faults[..i]))
      invariant published == NoticesOf(Kept(messages[..i], faults[..i]))
    {
      OneMessage(db, messages, faults, i);
      if messages[i].None? {
        continue;
      }
      var ev := messages[i].value;
      var r := store.Apply(ev, faults[i]);
      if r.Failure? {
        continue;
      }
      var (riderMsg, driverMsg) := Messages(ev.state);
      var sent := [];
      if riderMsg != "" && ev.rider != "" {
        sent := [Notification(ev.rider, ev.state, ev.trip, riderMsg)];
      }
      if driverMsg != "" && ev.driver != "" {
        sent := sent + [Notification(ev.driver, ev.state, ev.trip, driverMsg)];
      }
      assert sent == Notices(ev);
      published := published + sent;
    }
    assert messages[..|messages|] == messages && faults[..|messages|] == faults;
  }

  lemma OneMessage(db: Db, messages: seq<Option<TripEvent>>, faults: seq<Fault>, i: nat)
    requires |faults| == |messages| && i < |messages|
    ensures var k, k' := Kept(messages[..i], faults[..i]), Kept(messages[..i + 1], faults[..i + 1]);
            if messages[i].Some? && faults[i] == NoFault then
              var e := messages[i].value;
              k' == k + [e] && ApplyOnto(db, k') == Applied(ApplyOnto(db, k), e) && NoticesOf(k') == NoticesOf(k) + Notices(e)
            else k' == k
  {
    assert messages[..i + 1][..i] == messages[..i] && faults[..i + 1][..i] == faults[..i];
    var k := Kept(messages[..i], faults[..i]);
    if messages[i].Some? {
      assert (k + [messages[i].value])[..|k|] == k;
    }
  }

  // ---- The loop is a run of deliveries --------------------------------------------------------------

  function Deliveries(s: System, p: nat, faults: seq<Fault>, route: string -> nat): System {
    if faults == [] then s
    else Act(Deliveries(s, p, faults[..|faults| - 1], route), Deliver(p, faults[|faults| - 1]), route)
  }

  /** s has the lives and the topic of t, and has read n messages of p more. */
  predicate HasRead(t: System, s: System, p: nat, n: nat) {
    s.lives == t.lives && s.topic == t.topic && Offset(s, p) == Offset(t, p) + n
  }

  lemma OneDelivery(t: System, s: System, p: nat, n: nat, f: Fault, route: string -> nat)
    requires HasRead(t, s, p, n) && Offset(t, p) + n < |Log(t, p)|
    ensures var s' := Act(s, Deliver(p, f), route);
            HasRead(t, s', p, n + 1) && s'.db == if f == NoFault then Applied(s.db, Log(t, p)[Offset(t, p) + n]) else s.db
  {
  }

  /** The messages are the next ones in p, decoded. */
  predicate AreNext(s: System, p: nat, messages: seq<Option<TripEvent>>) {
    && Offset(s, p) + |messages| <= |Log(s, p)|
    && forall i :: 0 <= i < |messages| ==> messages[i] == Some(Log(s, p)[Offset(s, p) + i])
  }

  lemma FirstOfNext(s: System, p: nat, messages: seq<Option<TripEvent>>, n: nat)
    requires AreNext(s, p, messages) && n <= |messages|
    ensures AreNext(s, p, messages[..n])
  {
  }

  /** Consuming the next messages of a partition leaves the store as that many deliveries leave the database. */
  lemma {:induction false} ConsumingDelivers(s: System, p: nat, messages: seq<Option<TripEvent>>, faults: seq<Fault>, route: string -> nat)
    requires |messages| == |faults| && AreNext(s, p, messages)
    ensures HasRead(s, Deliveries(s, p, faults, route), p, |faults|)
    ensures Deliveries(s, p, faults, route).db == ApplyOnto(s.db, Kept(messages, faults))
  {
    if faults != [] {
      var n := |faults| - 1;
      FirstOfNext(s, p, messages, n);
      ConsumingDelivers(s, p, messages[..n], faults[..n], route);
      OneDelivery(s, Deliveries(s, p, faults[..n], route), p, n, faults[n], route);
      OneMessage(s.db, messages, faults, n);
      assert messages[..n + 1] == messages && faults[..n + 1] == faults;
    }
  }
}
