/** internal/surge: the price multiplier, and the expiring counter that stands for recent demand. */
module Surge {
  import opened Models
  import opened GeoIndex
  import opened GeoStore

  const DEMAND_WINDOW: int := 60_000 // milliseconds
  const MAX_SURGE: real := 3.0
  const MIN_SURGE: real := 1.0

  // ---- The multiplier -----------------------------------------------------------------------------

  function Factor(demand: int, supply: int): real {
    if supply <= 0 then
      if demand <= 0 then MIN_SURGE else MAX_SURGE
    else
      var ratio := demand as real / supply as real;
      if ratio <= 1.0 then MIN_SURGE
      else
        var m := MIN_SURGE + (ratio - 1.0);
        if m > MAX_SURGE then MAX_SURGE else m
  }

  /** The price is the ratio moved into [1, 3]: 1 at parity or below, 3 at three times the supply or above if
      there is any demand at all, and the ratio itself in between. */
  lemma FactorIsClampedRatio(demand: nat, supply: nat)
    ensures Factor(demand, supply) == 1.0 <==> demand <= supply
    ensures Factor(demand, supply) == 3.0 <==> demand >= 3 * supply && demand > 0
    ensures supply <= demand <= 3 * supply && supply > 0 ==> Factor(demand, supply) * supply as real == demand as real
    ensures 1.0 <= Factor(demand, supply) <= 3.0
  {
    if supply > 0 {
      var ratio := demand as real / supply as real;
      assert ratio * supply as real == demand as real;
      RatioCompare(ratio, demand, supply, 1);
      RatioCompare(ratio, demand, supply, 3);
    }
  }

  lemma RatioCompare(ratio: real, demand: int, supply: int, k: int)
    requires supply > 0 && ratio * supply as real == demand as real
    ensures ratio <= k as real <==> demand <= k * supply
    ensures ratio >= k as real <==> demand >= k * supply
  {
    assert (ratio - k as real) * supply as real == (demand - k * supply) as real;
  }

  lemma RatioOrder(a: int, b: int, c: int, d: int)
    requires b > 0 && d > 0 && a * d <= c * b
    ensures a as real / b as real <= c as real / d as real
  {
    var x, y := a as real / b as real, c as real / d as real;
    assert x * b as real == a as real && y * d as real == c as real;
    assert x * b as real * d as real == (a * d) as real;
    assert y * d as real * b as real == (c * b) as real;
    assert (y - x) * (b as real * d as real) >= 0.0;
  }

  /** More demand never lowers the price, and more supply never raises it. */
  lemma FactorOrder(demand: nat, supply: nat, demand': nat, supply': nat)
    requires demand <= demand' && supply >= supply'
    ensures Factor(demand, supply) <= Factor(demand', supply')
  {
    if supply' > 0 {
      assert demand * supply' <= demand' * supply;
      RatioOrder(demand, supply, demand', supply');
    }
  }

  /** Only the ratio counts. */
  lemma FactorScales(demand: nat, supply: nat, k: nat)
    requires k > 0
    ensures Factor(k * demand, k * supply) == Factor(demand, supply)
  {
    if supply > 0 {
      assert k * demand * supply == demand * (k * supply);
      RatioOrder(k * demand, k * supply, demand, supply);
      RatioOrder(demand, supply, k * demand, k * supply);
    }
  }

  // ---- Bursts -------------------------------------------------------------------------------------

  /** A Redis counter and the time it expires. */
  datatype Counter = Counter(count: nat, expires: int)

  datatype Request = Request(region: string, at: int)

  /** The requests were made in order, and none after now. */
  predicate Ordered(h: seq<Request>, now: int) {
    && (forall i, j :: 0 <= i < j < |h| ==> h[i].at <= h[j].at)
    && (forall i :: 0 <= i < |h| ==> h[i].at <= now)
  }

  /** Within a minute of request j, another one in r was made, or it is now. */
  predicate FollowedUp(h: seq<Request>, r: string, now: int, j: nat)
    requires j < |h|
  {
    now - h[j].at < 60_000 || exists k :: j < k < |h| && h[k].region == r && h[k].at - h[j].at < 60_000
  }

  /** From request i on, every one in r was followed up: no minute without one has passed since. */
  predicate InBurst(h: seq<Request>, r: string, now: int, i: nat)
    requires i < |h|
  {
    h[i].region == r && forall j: nat :: i <= j < |h| && h[j].region == r ==> FollowedUp(h, r, now, j)
  }

  /** The last burst of requests in r, as indices; nobody once a minute has passed. */
  function BurstOf(h: seq<Request>, r: string, now: int): set<nat> {
    set i: nat | i < |h| && InBurst(h, r, now, i)
  }

  /** The requests in r of the last minute: what a sliding window holds. */
  function Recent(h: seq<Request>, r: string, now: int): set<nat> {
    set i: nat | i < |h| && h[i].region == r && now - h[i].at < 60_000
  }

  lemma RecentInBurst(h: seq<Request>, r: string, now: int)
    requires Ordered(h, now)
    ensures Recent(h, r, now) <= BurstOf(h, r, now)
  {
    forall i | i in Recent(h, r, now)
      ensures InBurst(h, r, now, i)
    {
      forall j: nat | i <= j < |h| && h[j].region == r
        ensures FollowedUp(h, r, now, j)
      {
        assert h[i].at <= h[j].at;
      }
    }
  }

  /** The counter never reads less than a sliding window would, so the price is never below the one a sliding
      window would give. */
  lemma CounterCoversWindow(h: seq<Request>, r: string, now: int, supply: nat)
    requires Ordered(h, now)
    ensures |Recent(h, r, now)| <= |BurstOf(h, r, now)|
    ensures Factor(|Recent(h, r, now)|, supply) <= Factor(|BurstOf(h, r, now)|, supply)
  {
    RecentInBurst(h, r, now);
    SubsetSize(Recent(h, r, now), BurstOf(h, r, now));
    FactorOrder(|Recent(h, r, now)|, supply, |BurstOf(h, r, now)|, supply);
  }

  lemma SubsetSize(s: set<nat>, t: set<nat>)
    requires s <= t
    ensures |s| <= |t| && (|s| == |t| <==> s == t)
  {
    assert t == s + (t - s);
  }

  /** The counter reads what a sliding window would exactly when the whole burst lies within the minute. */
  lemma CounterIsWindowIff(h: seq<Request>, r: string, now: int)
    requires Ordered(h, now)
    ensures |BurstOf(h, r, now)| == |Recent(h, r, now)| <==> forall i :: i in BurstOf(h, r, now) ==> now - h[i].at < 60_000
  {
    RecentInBurst(h, r, now);
    SubsetSize(Recent(h, r, now), BurstOf(h, r, now));
    if forall i :: i in BurstOf(h, r, now) ==> now - h[i].at < 60_000 {
      assert BurstOf(h, r, now) <= Recent(h, r, now);
    }
  }

  /** Three requests fifty seconds apart are still counted as three when the window holds two. */
  lemma CounterOutlivesWindow(r: string)
    ensures var h := [Request(r, 0), Request(r, 50_000), Request(r, 100_000)];
            Ordered(h, 100_000) && |BurstOf(h, r, 100_000)| == 3 && |Recent(h, r, 100_000)| == 2
  {
    var h := [Request(r, 0), Request(r, 50_000), Request(r, 100_000)];
    assert h[1].at - h[0].at < 60_000;
    assert BurstOf(h, r, 100_000) == {0, 1, 2};
    assert Recent(h, r, 100_000) == {1, 2};
  }

  /** With no request in the last minute the price is flat, whatever the supply. */
  lemma QuietIsFlat(h: seq<Request>, r: string, now: int, supply: nat)
    requires Recent(h, r, now) == {}
    ensures BurstOf(h, r, now) == {} && Factor(|BurstOf(h, r, now)|, supply) == 1.0
  {
    if i :| i in BurstOf(h, r, now) {
      LastIsRecent(h, r, now, i);
    }
    FactorIsClampedRatio(0, supply);
  }

  lemma LastIsRecent(h: seq<Request>, r: string, now: int, i: nat)
    requires i < |h| && InBurst(h, r, now, i)
    ensures Recent(h, r, now) != {}
    decreases |h| - i
  {
    assert FollowedUp(h, r, now, i);
    if now - h[i].at < 60_000 {
      assert i in Recent(h, r, now);
    } else {
      var k: nat :| i < k < |h| && h[k].region == r && h[k].at - h[i].at < 60_000;
      LastIsRecent(h, r, now, k);
    }
  }

  // ---- The counter --------------------------------------------------------------------------------

  function Stored(demand: map<string, Counter>, r: string): Option<Counter> {
    if r in demand then Some(demand[r]) else None
  }

  function Read(c: Option<Counter>, now: int): nat {
    if c.Some? && now < c.value.expires then c.value.count else 0
  }

  predicate IsLastOf(h: seq<Request>, r: string, l: nat) {
    l < |h| && h[l].region == r && forall i :: l < i < |h| ==> h[i].region != r
  }

  /** The counter the last request of the region, number l, left behind. */
  predicate LeftBy(c: Counter, h: seq<Request>, r: string, l: nat) {
    IsLastOf(h, r, l) && c == Counter(|BurstOf(h, r, h[l].at)|, h[l].at + 60_000)
  }

  /** A region's counter is the trace of its requests, none of which lies in the future. */
  ghost predicate Traces(demand: map<string, Counter>, h: seq<Request>, now: int, r: string) {
    && Ordered(h, now)
    && if r in demand then exists l: nat :: LeftBy(demand[r], h, r, l) else forall i :: 0 <= i < |h| ==> h[i].region != r
  }

  /** Until the minute after the last request has passed, the burst is the one it left. */
  lemma BurstSinceLast(h: seq<Request>, r: string, now: int, l: nat)
    requires Ordered(h, now) && IsLastOf(h, r, l)
    ensures BurstOf(h, r, now) == if now - h[l].at < 60_000 then BurstOf(h, r, h[l].at) else {}
  {
    if now - h[l].at < 60_000 {
      forall j: nat | j < |h| && h[j].region == r
        ensures FollowedUp(h, r, now, j) <==> FollowedUp(h, r, h[l].at, j)
      {
        assert j < l ==> h[j].at <= h[l].at;
      }
      forall i: nat | i < |h|
        ensures InBurst(h, r, now, i) <==> InBurst(h, r, h[l].at, i)
      {
      }
    } else {
      assert !FollowedUp(h, r, now, l);
    }
  }

  /** What a region's counter reads is the length of the last burst of requests there. */
  lemma CounterIsBurst(demand: map<string, Counter>, h: seq<Request>, now: int, r: string)
    requires Traces(demand, h, now, r)
    ensures Read(Stored(demand, r), now) == |BurstOf(h, r, now)|
  {
    if r in demand {
      var l: nat :| LeftBy(demand[r], h, r, l);
      BurstSinceLast(h, r, now, l);
    } else {
      assert BurstOf(h, r, now) == {};
    }
  }

  /** One more request joins the burst, or starts one. */
  lemma BurstGrows(h: seq<Request>, r: string, now: int)
    ensures BurstOf(h + [Request(r, now)], r, now) == BurstOf(h, r, now) + {|h|}
    ensures |BurstOf(h + [Request(r, now)], r, now)| == |BurstOf(h, r, now)| + 1
  {
    var h' := h + [Request(r, now)];
    forall j: nat | j < |h|
      ensures FollowedUp(h', r, now, j) <==> FollowedUp(h, r, now, j)
    {
      if k :| j < k < |h| && h[k].region == r && h[k].at - h[j].at < 60_000 {
        assert h'[k] == h[k];
      }
    }
    assert FollowedUp(h', r, now, |h|);
    forall i: nat | i < |h|
      ensures InBurst(h', r, now, i) <==> InBurst(h, r, now, i)
    {
    }
  }

  lemma OtherBurst(h: seq<Request>, q: Request, r: string, now: int)
    requires q.region != r
    ensures BurstOf(h + [q], r, now) == BurstOf(h, r, now)
  {
    var h' := h + [q];
    forall j: nat | j < |h|
      ensures FollowedUp(h', r, now, j) <==> FollowedUp(h, r, now, j)
    {
      if k :| j < k < |h| && h[k].region == r && h[k].at - h[j].at < 60_000 {
        assert h'[k] == h[k];
      }
    }
    forall i: nat | i < |h|
      ensures InBurst(h', r, now, i) <==> InBurst(h, r, now, i)
    {
    }
  }

  /** INCR, then EXPIRE; an expired counter starts again from nothing. */
  function Bumped(demand: map<string, Counter>, reg: string, now: int): map<string, Counter> {
    demand[reg := Counter(Read(Stored(demand, reg), now) + 1, now + DEMAND_WINDOW)]
  }

  lemma BumpTraces(demand: map<string, Counter>, h: seq<Request>, now: int, reg: string)
    requires Traces(demand, h, now, reg)
    ensures Traces(Bumped(demand, reg, now), h + [Request(reg, now)], now, reg)
  {
    CounterIsBurst(demand, h, now, reg);
    BurstGrows(h, reg, now);
    assert LeftBy(Bumped(demand, reg, now)[reg], h + [Request(reg, now)], reg, |h|);
  }

  lemma BumpTracesOther(demand: map<string, Counter>, h: seq<Request>, now: int, reg: string, r: string)
    requires Traces(demand, h, now, r) && r != reg
    ensures Traces(Bumped(demand, reg, now), h + [Request(reg, now)], now, r)
  {
    if r in demand {
      var l: nat :| LeftBy(demand[r], h, r, l);
      OtherBurst(h, Request(reg, now), r, h[l].at);
      assert LeftBy(demand[r], h + [Request(reg, now)], r, l);
    }
  }

  lemma BumpKeepsTraces(demand: map<string, Counter>, requests: seq<Request>, now: int, reg: string)
    requires forall r :: Traces(demand, requests, now, r)
    ensures forall r :: Traces(Bumped(demand, reg, now), requests + [Request(reg, now)], now, r)
  {
    var demand', requests' := Bumped(demand, reg, now), requests + [Request(reg, now)];
    forall r
      ensures Traces(demand', requests', now, r)
    {
      assert Traces(demand, requests, now, r);
      if r == reg {
        BumpTraces(demand, requests, now, reg);
      } else {
        BumpTracesOther(demand, requests, now, reg, r);
      }
    }
  }

  /** The passing of time leaves every counter the trace of its region's requests. */
  lemma WaitKeepsTraces(demand: map<string, Counter>, requests: seq<Request>, now: int, ms: nat)
    requires forall r :: Traces(demand, requests, now, r)
    ensures var later := now + ms; forall r :: Traces(demand, requests, later, r)
  {
    var later := now + ms;
    forall r
      ensures Traces(demand, requests, later, r)
    {
      assert Traces(demand, requests, now, r);
    }
  }

  /** A request is counted before it is priced, so its own quote sees a demand of at least one. */
  lemma OwnRequestCounts(h: seq<Request>, r: string, now: int)
    ensures |BurstOf(h + [Request(r, now)], r, now)| >= 1
    ensures Factor(|BurstOf(h + [Request(r, now)], r, now)|, 0) == 3.0
  {
    BurstGrows(h, r, now);
    FactorIsClampedRatio(|BurstOf(h, r, now)| + 1, 0);
  }

  class Engine {
    const geo: Store
    var demand: map<string, Counter>
    ghost var requests: seq<Request>

    ghost predicate Valid()
      reads this, geo`now
    {
      forall r :: Traces(demand, requests, geo.now, r)
    }

    constructor (geo: Store)
      ensures Valid() && this.geo == geo && requests == [] && demand == map[]
    {
      this.geo := geo;
      demand, requests := map[], [];
    }

    method RecordDemandIn(reg: string)
      requires Valid()
      modifies this
      ensures Valid() && requests == old(requests) + [Request(reg, geo.now)]
    {
      var count := if reg in demand && geo.now < demand[reg].expires then demand[reg].count else 0;
      BumpKeepsTraces(demand, requests, geo.now, reg);
      demand := demand[reg := Counter(count + 1, geo.now + DEMAND_WINDOW)];
      requests := requests + [Request(reg, geo.now)];
      assert demand == Bumped(old(demand), reg, geo.now);
    }

    /** The two commands are sent together; an error is ignored, and then nothing has happened. */
    method RecordDemand(at: Point, ok: bool)
      requires Valid()
      modifies this
      ensures Valid() && requests == old(requests) + if ok then [Request(RegionOf(at), geo.now)] else []
    {
      if ok {
        RecordDemandIn(RegionOf(at));
      }
    }

    /** The price for the length of the region's last burst and the drivers indexed; a read that fails counts as
        zero. Where nobody has asked for a minute the price is flat. */
    method Multiplier(at: Point, demandOk: bool, supplyOk: bool) returns (m: real)
      requires Valid() && geo.Valid()
      ensures m == Factor(if demandOk then |BurstOf(requests, RegionOf(at), geo.now)| else 0,
                          if supplyOk then |Indexed(geo.history, RegionOf(at))| else 0)
      ensures (forall i :: 0 <= i < |requests| && requests[i].region == RegionOf(at) ==> geo.now - requests[i].at >= 60_000) ==> m == 1.0
    {
      var reg := RegionOf(at);
      assert Traces(demand, requests, geo.now, reg);
      CounterIsBurst(demand, requests, geo.now, reg);
      var count := 0;
      if demandOk {
        count := if reg in demand && geo.now < demand[reg].expires then demand[reg].count else 0;
      }
      var supply := 0;
      if supplyOk {
        supply := geo.Supply(at);
      }
      m := Factor(count, supply);
      PriceOfQuiet(requests, reg, geo.now, count, supply);
    }
  }

  /** In every state of the engine a region's counter reads the length of its last burst: at least the number of
      requests of the last minute, and exactly that when the whole burst lies within it. */
  lemma EngineCountsBurst(e: Engine, r: string)
    requires e.Valid()
    ensures var n, h, now := Read(Stored(e.demand, r), e.geo.now), e.requests, e.geo.now;
            && n == |BurstOf(h, r, now)| && n >= |Recent(h, r, now)|
            && (n == |Recent(h, r, now)| <==> forall i :: i in BurstOf(h, r, now) ==> now - h[i].at < 60_000)
  {
    assert Traces(e.demand, e.requests, e.geo.now, r);
    CounterIsBurst(e.demand, e.requests, e.geo.now, r);
    CounterCoversWindow(e.requests, r, e.geo.now, 0);
    CounterIsWindowIff(e.requests, r, e.geo.now);
  }

  lemma PriceOfQuiet(h: seq<Request>, r: string, now: int, count: nat, supply: nat)
    requires count <= |BurstOf(h, r, now)|
    ensures (forall i :: 0 <= i < |h| && h[i].region == r ==> now - h[i].at >= 60_000) ==> Factor(count, supply) == 1.0
  {
    if forall i :: 0 <= i < |h| && h[i].region == r ==> now - h[i].at >= 60_000 {
      assert Recent(h, r, now) == {};
      QuietIsFlat(h, r, now, supply);
    }
  }
}
