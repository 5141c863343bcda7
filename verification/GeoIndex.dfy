/** internal/geo, as values: what the index holds, replayed from the history of operations on it. */
module GeoIndex {
  import opened Models
  import Region

  const FRESH_TTL: int := 15_000 // milliseconds

  /** A driver's hash, with the time its TTL runs out. An expired hash does not exist for Redis. */
  datatype Meta = Meta(region: string, at: Point, expires: int)

  /** The geo set of each cell, and the driver hashes, at a time. */
  datatype Index = Index(cells: map<string, map<string, Point>>, drivers: map<string, Meta>, now: int)

  /** A location update, which the code places in `region`; an eviction by a search; the passing of time. */
  datatype Op = Ping(u: LocationUpdate, region: string) | Evict(driver: string, region: string) | Tick(ms: nat)

  const Empty := Index(map[], map[], 0)

  function Cell(x: Index, r: string): map<string, Point> {
    if r in x.cells then x.cells[r] else map[]
  }

  predicate Live(x: Index, d: string) {
    d in x.drivers && x.now < x.drivers[d].expires
  }

  function Evicted(x: Index, d: string, r: string): Index {
    x.(cells := x.cells[r := Cell(x, r) - {d}])
  }

  function Pinged(x: Index, u: LocationUpdate, r: string): Index {
    if u.available then
      x.(cells := x.cells[r := Cell(x, r)[u.driver := u.at]], drivers := x.drivers[u.driver := Meta(r, u.at, x.now + FRESH_TTL)])
    else
      Evicted(x, u.driver, r).(drivers := x.drivers - {u.driver})
  }

  function Done(x: Index, op: Op): Index {
    match op
    case Ping(u, r) => Pinged(x, u, r)
    case Evict(d, r) => Evicted(x, d, r)
    case Tick(ms) => x.(now := x.now + ms)
  }

  function Replay(h: seq<Op>): Index {
    if h == [] then Empty else Done(Replay(h[..|h| - 1]), h[|h| - 1])
  }

  function RegionOf(p: Point): string { Region.Key(p.lat, p.lng) }

  /** The code pings with the region of the position, and evicts only members without a live hash. */
  predicate LegalAt(x: Index, op: Op) {
    match op
    case Ping(u, r) => r == RegionOf(u.at)
    case Evict(d, r) => d in Cell(x, r) && !Live(x, d)
    case Tick(_) => true
  }

  predicate Legal(h: seq<Op>) {
    h != [] ==> Legal(h[..|h| - 1]) && LegalAt(Replay(h[..|h| - 1]), h[|h| - 1])
  }

  // ---- Membership is the last word of the history ----------------------------------------------------

  predicate Touches(op: Op, d: string, r: string) {
    (op.Ping? && op.u.driver == d && op.region == r) || op == Evict(d, r)
  }

  predicate IsLastTouch(h: seq<Op>, d: string, r: string, i: int) {
    0 <= i < |h| && Touches(h[i], d, r) && forall j :: i < j < |h| ==> !Touches(h[j], d, r)
  }

  predicate Places(op: Op, p: Point) {
    op.Ping? && op.u.available && op.u.at == p
  }

  predicate Holds(x: Index, r: string, d: string, p: Point) {
    d in Cell(x, r) && Cell(x, r)[d] == p
  }

  lemma UntouchedStays(x: Index, op: Op, d: string, r: string)
    requires !Touches(op, d, r)
    ensures d in Cell(Done(x, op), r) <==> d in Cell(x, r)
    ensures d in Cell(x, r) ==> Cell(Done(x, op), r)[d] == Cell(x, r)[d]
  {
  }

  /** d is in r's set at p exactly when the last of d's pings in r and evictions from r is an available ping at p. */
  lemma {:induction false} MembershipByHistory(h: seq<Op>, d: string, r: string, p: Point)
    ensures Holds(Replay(h), r, d, p) <==> exists i :: IsLastTouch(h, d, r, i) && Places(h[i], p)
  {
    if h != [] {
      var n := |h| - 1;
      var g, op := h[..n], h[n];
      if Touches(op, d, r) {
        assert IsLastTouch(h, d, r, n);
      } else {
        UntouchedStays(Replay(g), op, d, r);
        MembershipByHistory(g, d, r, p);
        if i :| IsLastTouch(g, d, r, i) && Places(g[i], p) {
          assert IsLastTouch(h, d, r, i) && Places(h[i], p);
        }
        if i :| IsLastTouch(h, d, r, i) && Places(h[i], p) {
          assert IsLastTouch(g, d, r, i) && Places(g[i], p);
        }
      }
    }
  }

  function Pingers(h: seq<Op>): set<string> { set i | 0 <= i < |h| && h[i].Ping? :: h[i].u.driver }

  ghost predicate LastPlaced(h: seq<Op>, d: string, r: string) {
    exists i :: IsLastTouch(h, d, r, i) && h[i].Ping? && h[i].u.available
  }

  /** The drivers whose last word in the cell was an available ping. */
  ghost function Indexed(h: seq<Op>, r: string): set<string> {
    set d | d in Pingers(h) && LastPlaced(h, d, r)
  }

  lemma MemberIffLastPlaced(h: seq<Op>, d: string, r: string)
    ensures d in Cell(Replay(h), r) <==> d in Indexed(h, r)
  {
    if d in Cell(Replay(h), r) {
      MembershipByHistory(h, d, r, Cell(Replay(h), r)[d]);
      assert Holds(Replay(h), r, d, Cell(Replay(h), r)[d]);
      var i :| IsLastTouch(h, d, r, i) && Places(h[i], Cell(Replay(h), r)[d]);
      assert LastPlaced(h, d, r);
    }
    if d in Indexed(h, r) {
      var i :| IsLastTouch(h, d, r, i) && h[i].Ping? && h[i].u.available;
      MembershipByHistory(h, d, r, h[i].u.at);
      assert Places(h[i], h[i].u.at);
      assert Holds(Replay(h), r, d, h[i].u.at);
    }
  }

  lemma SupplyByHistory(h: seq<Op>, r: string)
    ensures Cell(Replay(h), r).Keys == Indexed(h, r) && |Cell(Replay(h), r)| == |Indexed(h, r)|
  {
    forall d
      ensures d in Cell(Replay(h), r).Keys <==> d in Indexed(h, r)
    {
      MemberIffLastPlaced(h, d, r);
    }
    assert |Cell(Replay(h), r)| == |Cell(Replay(h), r).Keys|;
  }

  // ---- Freshness is the age of the last ping -------------------------------------------------------

  predicate IsPingBy(op: Op, d: string) { op.Ping? && op.u.driver == d }

  predicate IsLastPing(h: seq<Op>, d: string, i: int) {
    0 <= i < |h| && IsPingBy(h[i], d) && forall j :: i < j < |h| ==> !IsPingBy(h[j], d)
  }

  /** The time of operation i. */
  function At(h: seq<Op>, i: int): int
    requires 0 <= i <= |h|
  {
    Replay(h[..i]).now
  }

  predicate KeyOfPing(h: seq<Op>, i: int, m: Meta)
    requires 0 <= i < |h|
  {
    h[i].Ping? && h[i].u.available && m == Meta(h[i].region, h[i].u.at, At(h, i) + 15_000)
  }

  predicate HasKey(x: Index, d: string, m: Meta) { d in x.drivers && x.drivers[d] == m }

  /** A driver's hash, live or expired, is the trace of the driver's last ping in any cell. */
  lemma {:induction false} KeyByHistory(h: seq<Op>, d: string, m: Meta)
    ensures HasKey(Replay(h), d, m) <==> exists i :: IsLastPing(h, d, i) && KeyOfPing(h, i, m)
  {
    if h != [] {
      var n := |h| - 1;
      var g, op := h[..n], h[n];
      if IsPingBy(op, d) {
        assert IsLastPing(h, d, n);
        assert At(h, n) == Replay(g).now;
      } else {
        KeyByHistory(g, d, m);
        assert HasKey(Replay(h), d, m) <==> HasKey(Replay(g), d, m);
        if i :| IsLastPing(g, d, i) && KeyOfPing(g, i, m) {
          assert g[..i] == h[..i];
          assert IsLastPing(h, d, i) && KeyOfPing(h, i, m);
        }
        if i :| IsLastPing(h, d, i) && KeyOfPing(h, i, m) {
          assert g[..i] == h[..i];
          assert IsLastPing(g, d, i) && KeyOfPing(g, i, m);
        }
      }
    }
  }

  /** A driver is fresh exactly when the last ping was an available one less than 15 s ago. */
  lemma FreshByHistory(h: seq<Op>, d: string)
    ensures Live(Replay(h), d) <==>
            exists i :: IsLastPing(h, d, i) && h[i].u.available && Replay(h).now - At(h, i) < 15_000
  {
    if Live(Replay(h), d) {
      var m := Replay(h).drivers[d];
      KeyByHistory(h, d, m);
      assert HasKey(Replay(h), d, m);
      var i :| IsLastPing(h, d, i) && KeyOfPing(h, i, m);
    }
    if i :| IsLastPing(h, d, i) && h[i].u.available && Replay(h).now - At(h, i) < 15_000 {
      var m := Meta(h[i].region, h[i].u.at, At(h, i) + 15_000);
      KeyByHistory(h, d, m);
      assert KeyOfPing(h, i, m);
    }
  }

  // ---- What every legal history keeps ---------------------------------------------------------------

  predicate InCell(r: string, cell: map<string, Point>) {
    |r| == Region.PRECISION && forall d :: d in cell ==> RegionOf(cell[d]) == r
  }

  /** Only full-length keys are written, and members lie in the cell of their set. */
  predicate CellsInv(x: Index) {
    forall r :: r in x.cells ==> InCell(r, x.cells[r])
  }

  /** A live hash vouches for the member it names. */
  ghost predicate LiveInv(x: Index) {
    forall d :: Live(x, d) ==> Holds(x, x.drivers[d].region, d, x.drivers[d].at)
  }

  ghost predicate IndexInv(x: Index) { CellsInv(x) && LiveInv(x) }

  lemma PingKeepsCells(x: Index, u: LocationUpdate, r: string)
    requires CellsInv(x) && r == RegionOf(u.at) && |r| == Region.PRECISION
    ensures CellsInv(Pinged(x, u, r))
  {
  }

  lemma EvictKeepsCells(x: Index, d: string, r: string)
    requires CellsInv(x) && d in Cell(x, r)
    ensures CellsInv(Evicted(x, d, r))
  {
  }

  lemma DoneKeepsLive(x: Index, op: Op)
    requires LiveInv(x) && (op.Evict? ==> !Live(x, op.driver))
    ensures LiveInv(Done(x, op))
  {
    var x' := Done(x, op);
    forall d | Live(x', d)
      ensures Holds(x', x'.drivers[d].region, d, x'.drivers[d].at)
    {
      if !IsPingBy(op, d) {
        assert Live(x, d) && !Touches(op, d, x.drivers[d].region);
        UntouchedStays(x, op, d, x.drivers[d].region);
      }
    }
  }

  lemma DoneKeeps(x: Index, op: Op)
    requires IndexInv(x) && LegalAt(x, op)
    ensures IndexInv(Done(x, op))
  {
    DoneKeepsLive(x, op);
    match op
    case Ping(u, r) => PingKeepsCells(x, u, r);
    case Evict(d, r) => EvictKeepsCells(x, d, r);
    case Tick(_) =>
  }

  lemma {:induction false} LegalPing(h: seq<Op>, i: nat)
    requires Legal(h) && i < |h| && h[i].Ping?
    ensures h[i].region == RegionOf(h[i].u.at)
  {
    if i < |h| - 1 {
      LegalPing(h[..|h| - 1], i);
    }
  }

  lemma {:induction false} LegalKeeps(h: seq<Op>)
    requires Legal(h)
    ensures IndexInv(Replay(h))
  {
    if h != [] {
      LegalKeeps(h[..|h| - 1]);
      DoneKeeps(Replay(h[..|h| - 1]), h[|h| - 1]);
    }
  }
}
