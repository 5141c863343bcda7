/** internal/geo: the store, as an object over the contents of Redis, and internal/match on top of it. */
module GeoStore {
  import opened Models
  import opened GeoIndex
  import opened GeoSearch
  import Region
  import RegionCells

  // ---- Evicting what a search found stale ---------------------------------------------------------

  function EvictAll(x: Index, r: string, s: seq<Candidate>): Index {
    if s == [] then x
    else
      var y, c := EvictAll(x, r, s[..|s| - 1]), s[|s| - 1];
      if Live(x, c.driver) then y else Evicted(y, c.driver, r)
  }

  lemma {:induction false} EvictAllLeaves(x: Index, r: string, s: seq<Candidate>)
    ensures var y := EvictAll(x, r, s);
            && y.drivers == x.drivers && y.now == x.now
            && Cell(y, r) == Cell(x, r) - StaleOf(x, s)
            && forall k :: k != r ==> Cell(y, k) == Cell(x, k)
  {
    if s == [] {
      assert StaleOf(x, s) == {};
    } else {
      var t, c := s[..|s| - 1], s[|s| - 1];
      EvictAllLeaves(x, r, t);
      assert forall b :: b in s <==> b in t || b == c;
      assert StaleOf(x, s) == if Live(x, c.driver) then StaleOf(x, t) else StaleOf(x, t) + {c.driver};
    }
  }

  /** The members a search may evict: in range, and without a live hash. */
  function StaleIn(q: Query, x: Index, cell: map<string, Point>): set<string> {
    set d | d in cell && InRange(q, cell, d) && !Live(x, d)
  }

  function Gone(x: Index, y: Index, r: string): set<string> {
    Cell(x, r).Keys - Cell(y, r).Keys
  }

  /** y is x without some stale members in range of the cell r, and otherwise unchanged. */
  ghost predicate Prunes(q: Query, x: Index, y: Index, r: string) {
    && y.drivers == x.drivers && y.now == x.now
    && (forall k :: k != r ==> Cell(y, k) == Cell(x, k))
    && Cell(y, r) == Cell(x, r) - Gone(x, y, r)
    && Gone(x, y, r) <= StaleIn(q, x, Cell(x, r))
  }

  lemma EvictAllPrunes(q: Query, x: Index, r: string, s: seq<Candidate>)
    requires AllCandidates(q, Cell(x, r), s)
    ensures Prunes(q, x, EvictAll(x, r, s), r) && Gone(x, EvictAll(x, r, s), r) == StaleOf(x, s)
  {
    EvictAllLeaves(x, r, s);
    var y := EvictAll(x, r, s);
    assert forall d :: d in StaleOf(x, s) ==> d in Cell(x, r);
    assert Gone(x, y, r) == StaleOf(x, s);
  }

  /** A search that answers: sound, as far-reaching as its fetch, and a true top-k unless it evicted more than
      twice `limit` stale members. */
  ghost predicate Answers(q: Query, x: Index, y: Index, r: string, out: seq<Candidate>) {
    && Prunes(q, x, y, r) && Sound(q, x, Cell(x, r), out) && Fetches(q, x, Cell(x, r), out)
    && (Exact(q, x, Cell(x, r), out) || |Gone(x, y, r)| >= 2 * q.limit + 1)
  }

  lemma PrunedAnswers(q: Query, x: Index, r: string, found: seq<Candidate>, ranked: seq<Candidate>)
    requires IsSearch(q, Cell(x, r), 3 * q.limit, found) && Ranks(x, found, ranked)
    ensures Answers(q, x, EvictAll(x, r, found), r, Truncated(ranked, q.limit))
  {
    EvictAllPrunes(q, x, r, found);
    AnswerIsSound(q, x, Cell(x, r), found, ranked);
    ExactOrProgress(q, x, Cell(x, r), found, ranked);
    RankedFetches(q, x, Cell(x, r), found, ranked);
  }

  // ---- Sorting ------------------------------------------------------------------------------------

  lemma InsertedSorted(t: seq<Candidate>, j: nat, c: Candidate)
    requires Sorted(t) && j <= |t|
    requires (forall k :: 0 <= k < j ==> t[k].distance <= c.distance) && forall k :: j <= k < |t| ==> c.distance <= t[k].distance
    ensures Sorted(t[..j] + [c] + t[j..]) && multiset(t[..j] + [c] + t[j..]) == multiset(t) + multiset{c}
  {
    assert t == t[..j] + t[j..];
  }

  method Insert(t: seq<Candidate>, c: Candidate) returns (u: seq<Candidate>)
    requires Sorted(t)
    ensures Sorted(u) && multiset(u) == multiset(t) + multiset{c}
  {
    var j := |t|;
    while j > 0 && t[j - 1].distance > c.distance
      invariant 0 <= j <= |t|
      invariant forall k :: j <= k < |t| ==> c.distance <= t[k].distance
    {
      j := j - 1;
    }
    InsertedSorted(t, j, c);
    u := t[..j] + [c] + t[j..];
  }

  /** sort.Slice by distance: some sorted rearrangement, ties in any order. */
  method SortByDistance(s: seq<Candidate>) returns (t: seq<Candidate>)
    ensures Sorted(t) && multiset(t) == multiset(s)
  {
    t := [];
    for i := 0 to |s|
      invariant Sorted(t) && multiset(t) == multiset(s[..i])
    {
      assert s[..i + 1] == s[..i] + [s[i]];
      t := Insert(t, s[i]);
    }
    assert s[..|s|] == s;
  }

  // ---- The store ----------------------------------------------------------------------------------

  class Store {
    var cells: map<string, map<string, Point>>
    var drivers: map<string, Meta>
    var now: int
    ghost var history: seq<Op>

    function State(): Index
      reads this
    {
      Index(cells, drivers, now)
    }

    ghost predicate Valid()
      reads this
    {
      State() == Replay(history) && Legal(history)
    }

    constructor ()
      ensures Valid() && history == []
    {
      cells, drivers, now := map[], map[], 0;
      history := [];
    }

    ghost method Record(op: Op)
      requires State() == Done(Replay(history), op) && Legal(history) && LegalAt(Replay(history), op)
      modifies this`history
      ensures Valid() && history == old(history) + [op]
    {
      assert (history + [op])[..|history|] == history;
      history := history + [op];
    }

    method Wait(ms: nat)
      requires Valid()
      modifies this`now, this`history
      ensures Valid() && now == old(now) + ms && history == old(history) + [Tick(ms)]
    {
      now := now + ms;
      Record(Tick(ms));
    }

    /** The two Redis commands run as one transaction. */
    method Remove(d: string, r: string)
      modifies this`cells, this`drivers
      ensures State() == Evicted(old(State()), d, r).(drivers := old(drivers) - {d})
    {
      cells := cells[r := Cell(State(), r) - {d}];
      drivers := drivers - {d};
    }

    /** `Upsert` in the region computed. */
    method UpsertIn(u: LocationUpdate, reg: string)
      modifies this`cells, this`drivers
      ensures State() == Pinged(old(State()), u, reg)
    {
      if !u.available {
        Remove(u.driver, reg);
      } else {
        cells := cells[reg := Cell(State(), reg)[u.driver := u.at]];
        drivers := drivers[u.driver := Meta(reg, u.at, now + FRESH_TTL)];
      }
    }

    /** A ping processed; if the transaction fails, nothing has happened. */
    method Upsert(u: LocationUpdate, ok: bool) returns (r: Result<(), string>)
      requires Valid()
      modifies this`cells, this`drivers, this`history
      ensures Valid() && r.Success? == ok
      ensures ok ==> history == old(history) + [Ping(u, RegionOf(u.at))]
      ensures !ok ==> history == old(history) && State() == old(State())
    {
      if !ok {
        return Failure("exec");
      }
      var reg := RegionOf(u.at);
      UpsertIn(u, reg);
      Record(Ping(u, reg));
      return Success(());
    }

    /** How many drivers' last word in the region was an available ping, however long ago. */
    method Supply(at: Point) returns (n: nat)
      requires Valid()
      ensures n == |Indexed(history, RegionOf(at))|
    {
      SupplyByHistory(history, RegionOf(at));
      n := |Cell(State(), RegionOf(at))|;
    }

    /** Whether the driver's last ping was an available one, less than 15 s ago. */
    method Fresh(d: string) returns (ok: bool)
      requires Valid()
      ensures ok <==> exists i :: RecentPing(history, d, i)
    {
      FreshIffRecent(history, d);
      ok := d in drivers && now < drivers[d].expires;
    }

    /** Keeps one candidate found, or evicts its driver from the cell. */
    method PruneOne(reg: string, c: Candidate) returns (keep: bool)
      requires Valid() && c.driver in Cell(State(), reg)
      modifies this`cells, this`history
      ensures Valid() && keep == Live(old(State()), c.driver)
      ensures State() == if keep then old(State()) else Evicted(old(State()), c.driver, reg)
    {
      keep := Fresh(c.driver);
      FreshIffRecent(history, c.driver);
      if !keep {
        cells := cells[reg := Cell(State(), reg) - {c.driver}];
        Record(Evict(c.driver, reg));
      }
    }

    /** Keeps the fresh candidates of `locs`, in order, and evicts the others from the cell. */
    method Prune(q: Query, reg: string, locs: seq<Candidate>) returns (kept: seq<Candidate>)
      requires Valid() && AllCandidates(q, Cell(State(), reg), locs) && Distinct(locs)
      modifies this`cells, this`history
      ensures Valid() && kept == FreshOf(old(State()), locs) && State() == EvictAll(old(State()), reg, locs)
    {
      kept := [];
      ghost var x := State();
      for i := 0 to |locs|
        invariant Valid() && kept == FreshOf(x, locs[..i]) && State() == EvictAll(x, reg, locs[..i])
      {
        ghost var done := locs[..i + 1];
        assert done[..|done| - 1] == locs[..i] && done[|done| - 1] == locs[i];
        EvictAllLeaves(x, reg, locs[..i]);
        assert locs[i] in locs && locs[i].driver !in StaleOf(x, locs[..i]);
        var keep := PruneOne(reg, locs[i]);
        if keep {
          kept := kept + [locs[i]];
        }
      }
      assert locs[..|locs|] == locs;
    }

    /** The body of `Nearest`, for the regions to search: the second one's set is empty. */
    method Search(q: Query, regs: seq<string>, redis: map<string, Result<seq<Candidate>, string>>)
      returns (r: Result<seq<Candidate>, string>)
      requires Valid() && |regs| == 2 && Cell(State(), regs[1]) == map[]
      requires forall k :: k in regs ==> k in redis && RightReply(q, Cell(State(), k), redis[k])
      modifies this`cells, this`history
      ensures Valid()
      ensures r.Success? <==> redis[regs[0]].Success? && redis[regs[1]].Success?
      ensures r.Success? ==> Answers(q, old(State()), State(), regs[0], r.value)
      ensures r.Failure? ==> Prunes(q, old(State()), State(), regs[0])
      ensures redis[regs[0]].Failure? ==> State() == old(State()) && r == redis[regs[0]]
    {
      ghost var x := State();
      var all := [];
      for n := 0 to |regs|
        invariant Valid()
        invariant n == 0 ==> all == [] && State() == x
        invariant n >= 1 ==> redis[regs[0]].Success? && all == FreshOf(x, redis[regs[0]].value)
                             && State() == EvictAll(x, regs[0], redis[regs[0]].value)
        invariant n == 2 ==> redis[regs[1]].Success?
      {
        var reply := redis[regs[n]];
        assert RightReply(q, Cell(x, regs[n]), reply);
        if reply.Failure? {
          EvictAllPrunes(q, x, regs[0], if n == 0 then [] else redis[regs[0]].value);
          return reply;
        }
        if n == 1 {
          EmptySearch(q, 3 * q.limit, reply.value);
        }
        var kept := Prune(q, regs[n], reply.value);
        all := all + kept;
      }
      ghost var found := redis[regs[0]].value;
      all := SortByDistance(all);
      PrunedAnswers(q, x, regs[0], found, all);
      if |all| > q.limit {
        all := all[..q.limit];
      }
      return Success(all);
    }

    /** Searches the rider's cell and the coarser key around it. `redis` gives each search's reply, which is a
        right one or an error; a failed search ends the call, after the evictions made by then. */
    method Nearest(q: Query, redis: map<string, Result<seq<Candidate>, string>>) returns (r: Result<seq<Candidate>, string>)
      requires Valid()
      requires RegionOf(q.at) in redis && RightReply(q, Cell(State(), RegionOf(q.at)), redis[RegionOf(q.at)])
      requires CoarseOf(q.at) in redis && RightReply(q, Cell(State(), CoarseOf(q.at)), redis[CoarseOf(q.at)])
      modifies this`cells, this`history
      ensures Valid()
      ensures r.Success? <==> redis[RegionOf(q.at)].Success? && redis[CoarseOf(q.at)].Success?
      ensures r.Success? ==> Answers(q, old(State()), State(), RegionOf(q.at), r.value)
      ensures r.Failure? ==> Prunes(q, old(State()), State(), RegionOf(q.at))
      ensures redis[RegionOf(q.at)].Failure? ==> State() == old(State()) && r == redis[RegionOf(q.at)]
    {
      LegalKeeps(history);
      CoarseIsEmpty(q.at, State());
      var regs := Region.Neighbors(q.at.lat, q.at.lng);
      r := Search(q, regs, redis);
    }
  }

  /** A search either fails or replies with what GEOSEARCH finds, three times `limit` at most. */
  ghost predicate RightReply(q: Query, cell: map<string, Point>, reply: Result<seq<Candidate>, string>) {
    reply.Success? ==> IsSearch(q, cell, 3 * q.limit, reply.value)
  }

  lemma FoundIsMember(q: Query, cell: map<string, Point>, count: nat, s: seq<Candidate>)
    requires IsSearch(q, cell, count, s) && s != []
    ensures s[0].driver in cell
  {
    assert s[0] in s;
  }

  lemma EmptySearch(q: Query, count: nat, s: seq<Candidate>)
    requires IsSearch(q, map[], count, s)
    ensures s == []
  {
    if s != [] {
      FoundIsMember(q, map[], count, s);
    }
  }

  /** Two points share a region exactly when they share a slot of 360/1024 degrees of longitude and one of 180/1024
      degrees of latitude, off the map the nearest. */
  lemma SameRegionIff(p: Point, q: Point)
    ensures RegionOf(p) == RegionOf(q) <==>
            RegionCells.LngColumn(p.lng) == RegionCells.LngColumn(q.lng) && RegionCells.LatRow(p.lat) == RegionCells.LatRow(q.lat)
  {
    RegionCells.RegionIsColumnAndRow(p, q);
  }

  function CoarseOf(p: Point): string { Region.GeohashOf(p.lat, p.lng, Region.PRECISION - 1) }

  /** Only full-length keys are written, so the coarser set a search also consults is always empty. */
  lemma CoarseIsEmpty(at: Point, x: Index)
    requires CellsInv(x)
    ensures Cell(x, CoarseOf(at)) == map[] && CoarseOf(at) != RegionOf(at) && CoarseOf(at) == RegionOf(at)[..3]
  {
    RegionCells.CoarserIsPrefix(at.lat, at.lng, 3, 4);
    assert |CoarseOf(at)| == Region.PRECISION - 1;
    assert CoarseOf(at) in x.cells ==> InCell(CoarseOf(at), x.cells[CoarseOf(at)]);
  }

  // ---- Answers and the history of pings -----------------------------------------------------------

  /** d's last ping in any cell, number i, was an available one less than 15 s ago. */
  predicate RecentPing(h: seq<Op>, d: string, i: int) {
    IsLastPing(h, d, i) && h[i].u.available && Replay(h).now - At(h, i) < 15_000
  }

  /** A candidate's driver last reported, from anywhere, as available and within 15 s; the position is the
      last one reported in the searched cell. */
  lemma CandidateByHistory(h: seq<Op>, q: Query, r: string, c: Candidate)
    requires IsCandidate(q, Cell(Replay(h), r), c) && Live(Replay(h), c.driver)
    ensures exists i :: RecentPing(h, c.driver, i)
    ensures exists i :: IsLastTouch(h, c.driver, r, i) && Places(h[i], c.at)
  {
    FreshByHistory(h, c.driver);
    var i :| IsLastPing(h, c.driver, i) && h[i].u.available && Replay(h).now - At(h, i) < 15_000;
    assert RecentPing(h, c.driver, i);
    MembershipByHistory(h, c.driver, r, c.at);
  }

  /** A driver whose last ping was recent, available and in the cell is a fresh member there, at that position. */
  lemma RecentDriverIsMember(h: seq<Op>, d: string, i: int)
    requires LiveInv(Replay(h)) && RecentPing(h, d, i)
    ensures Live(Replay(h), d) && Holds(Replay(h), h[i].region, d, h[i].u.at)
  {
    var m := Meta(h[i].region, h[i].u.at, At(h, i) + 15_000);
    assert KeyOfPing(h, i, m);
    KeyByHistory(h, d, m);
    assert HasKey(Replay(h), d, m);
  }

  /** What an answer says about the pings processed: every candidate was heard from within 15 s, as available;
      and a driver heard from so in the rider's cell and radius is missing only because `limit` others are no
      farther, or because the search ran out of room on more than twice `limit` stale members. */
  lemma AnswersByHistory(h: seq<Op>, q: Query, y: Index, out: seq<Candidate>)
    requires Legal(h) && Answers(q, Replay(h), y, RegionOf(q.at), out)
    ensures forall c :: c in out ==> exists i :: RecentPing(h, c.driver, i)
    ensures forall d, i :: RecentPing(h, d, i) && h[i].region == RegionOf(q.at) && q.dist(q.at, h[i].u.at) <= q.radius ==>
                             || Named(out, d)
                             || (|out| == q.limit && AllWithin(out, q.dist(q.at, h[i].u.at)))
                             || |Gone(Replay(h), y, RegionOf(q.at))| >= 2 * q.limit + 1
  {
    LegalKeeps(h);
    var r := RegionOf(q.at);
    forall c | c in out
      ensures exists i :: RecentPing(h, c.driver, i)
    {
      CandidateByHistory(h, q, r, c);
    }
    forall d, i | RecentPing(h, d, i) && h[i].region == r && q.dist(q.at, h[i].u.at) <= q.radius
      ensures Named(out, d) || (|out| == q.limit && AllWithin(out, q.dist(q.at, h[i].u.at)))
              || |Gone(Replay(h), y, r)| >= 2 * q.limit + 1
    {
      RecentDriverIsMember(h, d, i);
      assert InRange(q, Cell(Replay(h), r), d);
    }
  }

  /** The operation put its driver in the set at a position in range of the search. */
  predicate PlacesInRange(q: Query, op: Op) {
    op.Ping? && op.u.available && q.dist(q.at, op.u.at) <= q.radius
  }

  lemma FreshIffRecent(h: seq<Op>, d: string)
    ensures Live(Replay(h), d) <==> exists i :: RecentPing(h, d, i)
  {
    FreshByHistory(h, d);
    if i :| IsLastPing(h, d, i) && h[i].u.available && Replay(h).now - At(h, i) < 15_000 {
      assert RecentPing(h, d, i);
    }
    if i :| RecentPing(h, d, i) {
      assert IsLastPing(h, d, i);
    }
  }

  lemma InRangeByHistory(h: seq<Op>, q: Query, r: string, d: string)
    ensures InRange(q, Cell(Replay(h), r), d) <==> exists i :: IsLastTouch(h, d, r, i) && PlacesInRange(q, h[i])
  {
    if InRange(q, Cell(Replay(h), r), d) {
      MembershipByHistory(h, d, r, Cell(Replay(h), r)[d]);
      assert Holds(Replay(h), r, d, Cell(Replay(h), r)[d]);
      var i :| IsLastTouch(h, d, r, i) && Places(h[i], Cell(Replay(h), r)[d]);
      assert PlacesInRange(q, h[i]);
    }
    if i :| IsLastTouch(h, d, r, i) && PlacesInRange(q, h[i]) {
      MembershipByHistory(h, d, r, h[i].u.at);
      assert Places(h[i], h[i].u.at);
      assert Holds(Replay(h), r, d, h[i].u.at);
    }
  }

  /** Heard from within 15 s, from anywhere, as available; and last in the rider's cell as available in range. */
  ghost predicate Eligible(h: seq<Op>, q: Query, d: string) {
    (exists i :: RecentPing(h, d, i)) && exists i :: IsLastTouch(h, d, RegionOf(q.at), i) && PlacesInRange(q, h[i])
  }

  lemma EligibleIff(h: seq<Op>, q: Query, d: string)
    ensures Eligible(h, q, d) <==> InRange(q, Cell(Replay(h), RegionOf(q.at)), d) && Live(Replay(h), d)
  {
    FreshIffRecent(h, d);
    InRangeByHistory(h, q, RegionOf(q.at), d);
  }

  /** Exactly who an answer names, with k its limit. Never anyone who is not eligible. An eligible driver than whom
      fewer than k eligible others, and fewer than 3k members of any kind, are no farther; and nobody than whom
      k of the former, or 3k of the latter, are nearer. Only a tie for the last place is left open. */
  lemma NamedIff(h: seq<Op>, q: Query, y: Index, out: seq<Candidate>, d: string)
    requires Legal(h) && Answers(q, Replay(h), y, RegionOf(q.at), out)
    ensures Named(out, d) ==> Eligible(h, q, d)
    ensures var x, cell := Replay(h), Cell(Replay(h), RegionOf(q.at));
            && (|NoFarther(q, x, cell, d)| < q.limit && |AllNoFarther(q, cell, d)| < 3 * q.limit ==> (Named(out, d) <==> Eligible(h, q, d)))
            && (|Nearer(q, x, cell, d)| >= q.limit || |AllNearer(q, cell, d)| >= 3 * q.limit ==> !Named(out, d))
  {
    var x, cell := Replay(h), Cell(Replay(h), RegionOf(q.at));
    EligibleIff(h, q, d);
    if c :| c in out && c.driver == d {
      assert IsCandidate(q, cell, c);
      NamedMeansRoom(q, x, cell, out, d);
    } else if Eligible(h, q, d) && |NoFarther(q, x, cell, d)| < q.limit && |AllNoFarther(q, cell, d)| < 3 * q.limit {
      ServedMeansNamed(q, x, cell, out, d);
    }
  }

  // ---- How long a candidate stays one -----------------------------------------------------------------

  predicate NoPings(g: seq<Op>, d: string) {
    forall j :: 0 <= j < |g| ==> !IsPingBy(g[j], d)
  }

  lemma LastPingStays(h: seq<Op>, g: seq<Op>, d: string, i: int)
    requires IsLastPing(h, d, i) && NoPings(g, d)
    ensures IsLastPing(h + g, d, i) && (h + g)[i] == h[i] && At(h + g, i) == At(h, i)
  {
    assert (h + g)[..i] == h[..i];
  }

  /** While d does not ping, d is fresh exactly for 15 s from the last ping. */
  lemma FreshWhile(h: seq<Op>, g: seq<Op>, d: string, i: int)
    requires RecentPing(h, d, i) && NoPings(g, d)
    ensures Live(Replay(h + g), d) <==> Replay(h + g).now - At(h, i) < 15_000
  {
    LastPingStays(h, g, d, i);
    FreshByHistory(h + g, d);
  }

  lemma OpBefore(h: seq<Op>, g: seq<Op>)
    requires Legal(h + g) && g != []
    ensures var g', op := g[..|g| - 1], g[|g| - 1];
            Legal(h + g') && LegalAt(Replay(h + g'), op) && Replay(h + g) == Done(Replay(h + g'), op)
  {
    assert (h + g)[..|h + g| - 1] == h + g[..|g| - 1];
  }

  lemma StepKeepsMember(x: Index, op: Op, q: Query, r: string, d: string)
    requires LegalAt(x, op) && !IsPingBy(op, d) && Live(Done(x, op), d)
    ensures Live(x, d) && (InRange(q, Cell(x, r), d) ==> InRange(q, Cell(Done(x, op), r), d))
  {
    UntouchedStays(x, op, d, r);
  }

  lemma {:induction false} MemberWhileFresh(h: seq<Op>, g: seq<Op>, q: Query, r: string, d: string)
    requires Legal(h + g) && InRange(q, Cell(Replay(h), r), d) && NoPings(g, d) && Live(Replay(h + g), d)
    ensures InRange(q, Cell(Replay(h + g), r), d)
  {
    if g == [] {
      assert h + g == h;
    } else {
      OpBefore(h, g);
      var g', op := g[..|g| - 1], g[|g| - 1];
      assert !IsPingBy(op, d);
      StepKeepsMember(Replay(h + g'), op, q, r, d);
      MemberWhileFresh(h, g', q, r, d);
    }
  }

  /** A driver in range who sends no further ping stays eligible exactly for 15 s from the last one, whatever
      else pings, is searched for, or is assigned. */
  lemma EligibleWhile(h: seq<Op>, g: seq<Op>, q: Query, d: string, i: int)
    requires Legal(h + g) && RecentPing(h, d, i) && InRange(q, Cell(Replay(h), RegionOf(q.at)), d) && NoPings(g, d)
    ensures Eligible(h + g, q, d) <==> Replay(h + g).now - At(h, i) < 15_000
  {
    FreshWhile(h, g, d, i);
    EligibleIff(h + g, q, d);
    if Live(Replay(h + g), d) {
      MemberWhileFresh(h, g, q, RegionOf(q.at), d);
    }
  }

  /** All of d's pings are in the cell r. */
  predicate KeepsTo(h: seq<Op>, d: string, r: string) {
    forall j :: 0 <= j < |h| && IsPingBy(h[j], d) ==> h[j].region == r
  }

  /** A search does not look across the boundary of the rider's cell: whoever keeps to another cell is never
      found. So a driver just heard from in range, who keeps to one cell, is found exactly when that is the
      rider's, unless k others fill the answer, or 3k members the search, who are no farther. */
  lemma FoundIffSameCell(h: seq<Op>, q: Query, y: Index, out: seq<Candidate>, d: string, i: int)
    requires Legal(h) && Answers(q, Replay(h), y, RegionOf(q.at), out)
    requires RecentPing(h, d, i) && q.dist(q.at, h[i].u.at) <= q.radius && KeepsTo(h, d, h[i].region)
    ensures h[i].region != RegionOf(q.at) ==> !Named(out, d)
    ensures var x, cell := Replay(h), Cell(Replay(h), RegionOf(q.at));
            |NoFarther(q, x, cell, d)| < q.limit && |AllNoFarther(q, cell, d)| < 3 * q.limit ==>
              (Named(out, d) <==> h[i].region == RegionOf(q.at))
  {
    NamedIff(h, q, y, out, d);
    if Named(out, d) {
      var k :| IsLastTouch(h, d, RegionOf(q.at), k) && PlacesInRange(q, h[k]);
      assert IsPingBy(h[k], d);
    }
    if h[i].region == RegionOf(q.at) {
      LegalKeeps(h);
      RecentDriverIsMember(h, d, i);
      EligibleIff(h, q, d);
    }
  }

  /** A candidate whose last ping was recent stands where that ping was exactly when it was in the rider's cell:
      `Upsert` does not take a driver out of the cell left behind. */
  lemma StandsWhereHeardIff(h: seq<Op>, q: Query, c: Candidate, i: int)
    requires Legal(h) && IsCandidate(q, Cell(Replay(h), RegionOf(q.at)), c) && RecentPing(h, c.driver, i)
    ensures c.at == h[i].u.at <==> h[i].region == RegionOf(q.at)
  {
    LegalKeeps(h);
    LegalPing(h, i);
    RecentDriverIsMember(h, c.driver, i);
    var r := RegionOf(q.at);
    assert r in Replay(h).cells && InCell(r, Replay(h).cells[r]);
  }

  /** Candidates are drivers the region of the search accounts for. */
  lemma CandidatesAreLocal(h: seq<Op>, q: Query, y: Index, out: seq<Candidate>)
    requires Legal(h) && Answers(q, Replay(h), y, RegionOf(q.at), out)
    ensures forall c :: c in out ==> RegionOf(c.at) == RegionOf(q.at)
    ensures out != [] ==> |Cell(Replay(h), RegionOf(q.at))| >= 1
  {
    LegalKeeps(h);
    var r := RegionOf(q.at);
    forall c | c in out
      ensures RegionOf(c.at) == r && c.driver in Cell(Replay(h), r)
    {
      assert r in Replay(h).cells && InCell(r, Replay(h).cells[r]);
    }
    if out != [] {
      assert out[0].driver in Cell(Replay(h), r);
    }
  }

  // ---- Repeated searches --------------------------------------------------------------------------

  ghost predicate AnswersAt(q: Query, r: string, xs: seq<Index>, outs: seq<seq<Candidate>>, i: nat)
    requires i < |outs| < |xs|
  {
    Answers(q, xs[i], xs[i + 1], r, outs[i])
  }

  /** xs are the index before the first search, and after each; nothing else happens in between. */
  ghost predicate Searches(q: Query, r: string, xs: seq<Index>, outs: seq<seq<Candidate>>) {
    |xs| == |outs| + 1 && forall i: nat :: i < |outs| ==> AnswersAt(q, r, xs, outs, i)
  }

  lemma PrunedMember(q: Query, x: Index, y: Index, r: string, d: string)
    requires Prunes(q, x, y, r)
    ensures d in Cell(y, r) <==> d in Cell(x, r) && d !in Gone(x, y, r)
    ensures d in Cell(y, r) ==> Cell(y, r)[d] == Cell(x, r)[d]
    ensures Live(x, d) == Live(y, d)
  {
  }

  lemma PruningShrinks(q: Query, x: Index, y: Index, r: string)
    requires Prunes(q, x, y, r)
    ensures |StaleIn(q, y, Cell(y, r))| + |Gone(x, y, r)| == |StaleIn(q, x, Cell(x, r))|
  {
    var s, t, g := StaleIn(q, x, Cell(x, r)), StaleIn(q, y, Cell(y, r)), Gone(x, y, r);
    forall d
      ensures d in t <==> d in s && d !in g
    {
      PrunedMember(q, x, y, r, d);
    }
    DisjointSizes(s, t, g);
  }

  lemma DisjointSizes(s: set<string>, t: set<string>, g: set<string>)
    requires g <= s && forall d :: d in t <==> d in s && d !in g
    ensures |t| + |g| == |s|
  {
    assert t == s - g;
  }

  function Stale(q: Query, r: string, x: Index): nat { |StaleIn(q, x, Cell(x, r))| }

  ghost function Miss(q: Query, r: string, x: Index, out: seq<Candidate>): nat {
    if Exact(q, x, Cell(x, r), out) then 0 else 1
  }

  function Total(ns: seq<nat>): nat {
    if ns == [] then 0 else Total(ns[..|ns| - 1]) + ns[|ns| - 1]
  }

  /** How many of the answers are not a true top-k. */
  ghost function Inexact(q: Query, r: string, xs: seq<Index>, outs: seq<seq<Candidate>>): nat
    requires |outs| < |xs|
  {
    Total(seq(|outs|, i requires 0 <= i < |outs| => Miss(q, r, xs[i], outs[i])))
  }

  /** What n answers that are not a true top-k take at least: n * (2 * limit + 1) evictions. */
  function Due(n: nat, limit: nat): nat {
    if n == 0 then 0 else Due(n - 1, limit) + 2 * limit + 1
  }

  lemma {:induction false} DueIsProduct(n: nat, limit: nat)
    ensures Due(n, limit) == n * (2 * limit + 1)
  {
    if n > 0 {
      DueIsProduct(n - 1, limit);
    }
  }

  lemma SearchUsesStale(q: Query, r: string, x: Index, y: Index, out: seq<Candidate>)
    requires Answers(q, x, y, r, out)
    ensures Stale(q, r, y) + Due(Miss(q, r, x, out), q.limit) <= Stale(q, r, x)
  {
    PruningShrinks(q, x, y, r);
  }

  lemma SearchAtUsesStale(q: Query, r: string, xs: seq<Index>, outs: seq<seq<Candidate>>, i: nat)
    requires Searches(q, r, xs, outs) && i < |outs|
    ensures Stale(q, r, xs[i + 1]) + Due(Miss(q, r, xs[i], outs[i]), q.limit) <= Stale(q, r, xs[i])
  {
    assert AnswersAt(q, r, xs, outs, i);
    SearchUsesStale(q, r, xs[i], xs[i + 1], outs[i]);
  }

  lemma DueAdds(n: nat, m: nat, limit: nat)
    requires m <= 1
    ensures Due(n + m, limit) == Due(n, limit) + Due(m, limit)
  {
  }

  lemma {:induction false} EachMissIsDue(stale: seq<nat>, miss: seq<nat>, limit: nat)
    requires |stale| == |miss| + 1
    requires forall i: nat :: i < |miss| ==> miss[i] <= 1 && stale[i + 1] + Due(miss[i], limit) <= stale[i]
    ensures Due(Total(miss), limit) + stale[|miss|] <= stale[0]
  {
    if miss != [] {
      var n := |miss| - 1;
      EachMissIsDue(stale[..n + 1], miss[..n], limit);
      DueAdds(Total(miss[..n]), miss[n], limit);
    }
  }

  /** Searching again and again, all but finitely many answers are a true top-k: each that is not uses up more
      than twice `limit` of the stale members there were. */
  lemma InexactAnswersRunOut(q: Query, r: string, xs: seq<Index>, outs: seq<seq<Candidate>>)
    requires Searches(q, r, xs, outs)
    ensures Inexact(q, r, xs, outs) * (2 * q.limit + 1) <= |StaleIn(q, xs[0], Cell(xs[0], r))|
  {
    var miss := seq(|outs|, i requires 0 <= i < |outs| => Miss(q, r, xs[i], outs[i]));
    var stale := seq(|xs|, i requires 0 <= i < |xs| => Stale(q, r, xs[i]));
    forall i: nat | i < |miss|
      ensures miss[i] <= 1 && stale[i + 1] + Due(miss[i], q.limit) <= stale[i]
    {
      SearchAtUsesStale(q, r, xs, outs, i);
    }
    EachMissIsDue(stale, miss, q.limit);
    DueIsProduct(Total(miss), q.limit);
  }
}

/** Two runs of the index that show where it falls short of what is meant: a rider and a driver near each other
    on either side of a cell boundary, and a driver who crosses it. */
module GeoFailures {
  import opened Models
  import opened GeoIndex
  import opened GeoSearch
  import opened GeoStore
  import Region
  import RegionCells

  const WEST := Point(51.4779, -0.0001)
  const EAST := Point(51.4779, 0.0001)

  function PingAt(d: string, p: Point): Op { Ping(LocationUpdate(d, p, true), RegionOf(p)) }

  lemma TwoRegions(west: Point, east: Point)
    requires west.lng < 0.0 <= east.lng
    ensures RegionOf(west) != RegionOf(east)
  {
    RegionCells.MeridianIsBoundary(west, east, Region.PRECISION);
  }

  lemma OnePing(d: string, p: Point)
    ensures var h := [PingAt(d, p)];
            Legal(h) && RecentPing(h, d, 0) && KeepsTo(h, d, RegionOf(p)) && Replay(h) == Pinged(Empty, h[0].u, RegionOf(p))
  {
    var h := [PingAt(d, p)];
    assert h[..0] == [];
  }

  lemma MissedAcross(d: string, west: Point, east: Point, q: Query, y: Index, out: seq<Candidate>)
    requires west.lng < 0.0 <= east.lng && q.at == east && q.dist(east, west) <= q.radius
    requires Answers(q, Replay([PingAt(d, west)]), y, RegionOf(q.at), out)
    ensures !Named(out, d)
  {
    OnePing(d, west);
    TwoRegions(west, east);
    FoundIffSameCell([PingAt(d, west)], q, y, out, d, 0);
  }

  /** The only driver, available and heard from this instant, some fourteen metres from the rider, is missed. */
  lemma NearDriverMissed(dist: (Point, Point) -> real, y: Index, out: seq<Candidate>)
    requires dist(EAST, WEST) <= 0.014
    requires Answers(Query(EAST, 5.0, 10, dist), Replay([PingAt("d", WEST)]), y, RegionOf(EAST), out)
    ensures Legal([PingAt("d", WEST)]) && RecentPing([PingAt("d", WEST)], "d", 0) && !Named(out, "d")
  {
    OnePing("d", WEST);
    MissedAcross("d", WEST, EAST, Query(EAST, 5.0, 10, dist), y, out);
  }

  lemma TwoPings(d: string, p: Point, p': Point)
    requires RegionOf(p) != RegionOf(p')
    ensures var h := [PingAt(d, p), PingAt(d, p')];
            Legal(h) && RecentPing(h, d, 1) && Cell(Replay(h), RegionOf(p)) == map[d := p] && Live(Replay(h), d)
  {
    var h := [PingAt(d, p), PingAt(d, p')];
    OnePing(d, p);
    assert h[..1] == [PingAt(d, p)];
  }

  lemma OnlyMemberIsNamed(q: Query, x: Index, y: Index, d: string, p: Point, out: seq<Candidate>)
    requires Answers(q, x, y, RegionOf(q.at), out) && Cell(x, RegionOf(q.at)) == map[d := p] && Live(x, d)
    requires q.dist(q.at, p) <= q.radius && q.limit > 0
    ensures Candidate(d, p, q.dist(q.at, p)) in out
  {
    var cell := Cell(x, RegionOf(q.at));
    assert AllNoFarther(q, cell, d) == {} == NoFarther(q, x, cell, d);
    assert Served(q, cell, out, d);
    ServedMeansNamed(q, x, cell, out, d);
    var c :| c in out && c.driver == d;
    assert IsCandidate(q, cell, c);
  }

  /** A driver heard from this instant to the east is still offered, as standing in the west, where nobody is. */
  lemma OfferedWhereNotStanding(dist: (Point, Point) -> real, y: Index, out: seq<Candidate>)
    requires dist(WEST, WEST) <= 5.0
    requires Answers(Query(WEST, 5.0, 10, dist), Replay([PingAt("d", WEST), PingAt("d", EAST)]), y, RegionOf(WEST), out)
    ensures var h := [PingAt("d", WEST), PingAt("d", EAST)];
            Legal(h) && RecentPing(h, "d", 1) && h[1].u.at == EAST != WEST
    ensures Candidate("d", WEST, dist(WEST, WEST)) in out
  {
    var h := [PingAt("d", WEST), PingAt("d", EAST)];
    TwoRegions(WEST, EAST);
    TwoPings("d", WEST, EAST);
    OnlyMemberIsNamed(Query(WEST, 5.0, 10, dist), Replay(h), y, "d", WEST, out);
  }
}

/** internal/match: the nearest of the ranked shortlist. */
module Match {
  import opened Models
  import opened GeoIndex
  import opened GeoSearch
  import opened GeoStore
  import GeoFailures

  const SEARCH_RADIUS_KM: real := 5.0
  const CANDIDATE_LIMIT: nat := 10

  function MatchQuery(req: RideRequest, dist: (Point, Point) -> real): Query {
    Query(req.at, SEARCH_RADIUS_KM, CANDIDATE_LIMIT, dist)
  }

  /** No shortlist when nobody is available; otherwise its head, which is the best. */
  datatype Matching = NoDriver | Matched(best: Candidate, shortlist: seq<Candidate>)

  method Best(store: Store, req: RideRequest, dist: (Point, Point) -> real,
              redis: map<string, Result<seq<Candidate>, string>>) returns (r: Result<Matching, string>)
    requires store.Valid()
    requires RegionOf(req.at) in redis && RightReply(MatchQuery(req, dist), Cell(store.State(), RegionOf(req.at)), redis[RegionOf(req.at)])
    requires CoarseOf(req.at) in redis && RightReply(MatchQuery(req, dist), Cell(store.State(), CoarseOf(req.at)), redis[CoarseOf(req.at)])
    modifies store`cells, store`history
    ensures store.Valid() && Prunes(MatchQuery(req, dist), old(store.State()), store.State(), RegionOf(req.at))
    ensures r.Success? <==> redis[RegionOf(req.at)].Success? && redis[CoarseOf(req.at)].Success?
    ensures r.Success? ==> MatchedFrom(MatchQuery(req, dist), old(store.State()), store.State(), r.value)
  {
    var list := store.Nearest(MatchQuery(req, dist), redis);
    if list.Failure? {
      return Failure(list.error);
    }
    if |list.value| == 0 {
      return Success(NoDriver);
    }
    return Success(Matched(list.value[0], list.value));
  }

  ghost predicate MatchedFrom(q: Query, x: Index, y: Index, m: Matching) {
    && Answers(q, x, y, RegionOf(q.at), if m.Matched? then m.shortlist else [])
    && (m.Matched? ==> m.shortlist != [] && m.best == m.shortlist[0])
  }

  /** A match leaves the driver in the index: without another ping, the driver stays eligible for the next rider
      exactly for 15 s from the last one, through this search's evictions and whatever comes after. */
  lemma MatchedStaysWhile(h: seq<Op>, g: seq<Op>, q: Query, y: Index, m: Matching, i: int)
    requires Legal(h + g) && MatchedFrom(q, Replay(h), y, m) && m.Matched?
    requires RecentPing(h, m.best.driver, i) && NoPings(g, m.best.driver)
    ensures Eligible(h + g, q, m.best.driver) <==> Replay(h + g).now - At(h, i) < 15_000
  {
    assert m.best in m.shortlist && IsCandidate(q, Cell(Replay(h), RegionOf(q.at)), m.best);
    EligibleWhile(h, g, q, m.best.driver, i);
  }

  lemma OnlyMemberIsMatched(q: Query, x: Index, y: Index, m: Matching, d: string, p: Point)
    requires MatchedFrom(q, x, y, m) && Cell(x, RegionOf(q.at)) == map[d := p] && Live(x, d)
    requires q.dist(q.at, p) <= q.radius && q.limit > 0
    ensures m.Matched? && m.best.driver == d && Cell(y, RegionOf(q.at)) == map[d := p] && Live(y, d)
  {
    GeoFailures.OnlyMemberIsNamed(q, x, y, d, p, if m.Matched? then m.shortlist else []);
    assert m.best in m.shortlist && IsCandidate(q, Cell(x, RegionOf(q.at)), m.best);
    assert StaleIn(q, x, Cell(x, RegionOf(q.at))) == {};
    assert Gone(x, y, RegionOf(q.at)) == {};
  }

  /** Two riders, one after the other, at the place of the only driver: both are matched to that driver. */
  lemma SecondRiderSameDriver(dist: (Point, Point) -> real, y: Index, z: Index, m: Matching, m': Matching)
    requires dist(GeoFailures.EAST, GeoFailures.EAST) <= SEARCH_RADIUS_KM
    requires var x, q := Replay([GeoFailures.PingAt("d", GeoFailures.EAST)]), MatchQuery(RideRequest("any", GeoFailures.EAST), dist);
             MatchedFrom(q, x, y, m) && MatchedFrom(q, y, z, m')
    ensures m.Matched? && m'.Matched? && m.best.driver == m'.best.driver == "d"
  {
    var p := GeoFailures.EAST;
    var q := MatchQuery(RideRequest("any", p), dist);
    GeoFailures.OnePing("d", p);
    OnlyMemberIsMatched(q, Replay([GeoFailures.PingAt("d", p)]), y, m, "d", p);
    OnlyMemberIsMatched(q, y, z, m', "d", p);
  }

  /** A fresh driver in range, than whom fewer than thirty members of any kind are no farther, means that there is a
      match and that it is no farther either. */
  lemma BestIsNearest(q: Query, x: Index, y: Index, m: Matching, d: string)
    requires MatchedFrom(q, x, y, m) && q.limit == CANDIDATE_LIMIT
    requires InRange(q, Cell(x, RegionOf(q.at)), d) && Live(x, d) && |AllNoFarther(q, Cell(x, RegionOf(q.at)), d)| < 30
    ensures m.Matched? && Live(x, m.best.driver) && m.best.distance <= q.dist(q.at, Cell(x, RegionOf(q.at))[d])
  {
    var cell, out := Cell(x, RegionOf(q.at)), if m.Matched? then m.shortlist else [];
    assert Served(q, cell, out, d);
    if c :| c in out && c.driver == d {
      assert IsCandidate(q, cell, c);
      var i :| 0 <= i < |out| && out[i] == c;
    } else {
      assert !Named(out, d) && out[0] in out;
    }
  }
}
