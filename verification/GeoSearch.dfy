/** internal/geo, `Nearest`: over-fetch, prune, sort and truncate, as facts about lists of candidates. */
module GeoSearch {
  import opened Models
  import opened GeoIndex

  /** A search. `dist` is the distance Redis computes; nothing about it is assumed. */
  datatype Query = Query(at: Point, radius: real, limit: nat, dist: (Point, Point) -> real)

  predicate InRange(q: Query, cell: map<string, Point>, d: string) {
    d in cell && q.dist(q.at, cell[d]) <= q.radius
  }

  predicate IsCandidate(q: Query, cell: map<string, Point>, c: Candidate) {
    InRange(q, cell, c.driver) && c.at == cell[c.driver] && c.distance == q.dist(q.at, c.at)
  }

  predicate AllCandidates(q: Query, cell: map<string, Point>, s: seq<Candidate>) {
    forall c :: c in s ==> IsCandidate(q, cell, c)
  }

  predicate Sorted(s: seq<Candidate>) {
    forall i, j :: 0 <= i < j < |s| ==> s[i].distance <= s[j].distance
  }

  predicate Distinct(s: seq<Candidate>) {
    forall i, j :: 0 <= i < j < |s| ==> s[i].driver != s[j].driver
  }

  predicate Named(s: seq<Candidate>, d: string) {
    exists c :: c in s && c.driver == d
  }

  predicate AllWithin(s: seq<Candidate>, distance: real) {
    forall c :: c in s ==> c.distance <= distance
  }

  /** s is `GEOSEARCH ... ASC COUNT count` on the cell; 0 asks for no limit. Ties come in any order. */
  ghost predicate IsSearch(q: Query, cell: map<string, Point>, count: nat, s: seq<Candidate>) {
    && AllCandidates(q, cell, s) && Sorted(s) && Distinct(s)
    && (count > 0 ==> |s| <= count)
    && forall d :: InRange(q, cell, d) && !Named(s, d) ==> count > 0 && |s| == count && AllWithin(s, q.dist(q.at, cell[d]))
  }

  // ---- Pruning ------------------------------------------------------------------------------------

  function FreshOf(x: Index, s: seq<Candidate>): seq<Candidate> {
    if s == [] then []
    else
      var t, c := FreshOf(x, s[..|s| - 1]), s[|s| - 1];
      if Live(x, c.driver) then t + [c] else t
  }

  function StaleOf(x: Index, s: seq<Candidate>): set<string> {
    set c | c in s && !Live(x, c.driver) :: c.driver
  }

  lemma {:induction false} FreshMembers(x: Index, s: seq<Candidate>, c: Candidate)
    ensures c in FreshOf(x, s) <==> c in s && Live(x, c.driver)
  {
    if s != [] {
      FreshMembers(x, s[..|s| - 1], c);
      assert s == s[..|s| - 1] + [s[|s| - 1]];
    }
  }

  lemma {:induction false} FreshDistinct(x: Index, s: seq<Candidate>)
    requires Distinct(s)
    ensures Distinct(FreshOf(x, s))
  {
    if s != [] {
      var t, c := s[..|s| - 1], s[|s| - 1];
      FreshDistinct(x, t);
      forall i | 0 <= i < |FreshOf(x, t)|
        ensures FreshOf(x, t)[i].driver != c.driver
      {
        FreshMembers(x, t, FreshOf(x, t)[i]);
      }
    }
  }

  /** Every candidate found is kept or its driver is evicted, never both, and nobody else is. */
  lemma FreshOrStale(x: Index, s: seq<Candidate>, c: Candidate)
    requires Distinct(s)
    ensures c in s ==> (c in FreshOf(x, s) <==> c.driver !in StaleOf(x, s))
    ensures c in FreshOf(x, s) ==> c in s
    ensures c.driver in StaleOf(x, s) ==> Named(s, c.driver) && !Named(FreshOf(x, s), c.driver)
    ensures |s| == |FreshOf(x, s)| + |StaleOf(x, s)|
  {
    FreshMembers(x, s, c);
    FreshAndStale(x, s);
    if b :| b in FreshOf(x, s) && b.driver == c.driver {
      FreshMembers(x, s, b);
    }
  }

  lemma {:induction false} FreshAndStale(x: Index, s: seq<Candidate>)
    requires Distinct(s)
    ensures |s| == |FreshOf(x, s)| + |StaleOf(x, s)|
  {
    if s != [] {
      var t, c := s[..|s| - 1], s[|s| - 1];
      FreshAndStale(x, t);
      assert forall b :: b in s <==> b in t || b == c;
      if Live(x, c.driver) {
        assert StaleOf(x, s) == StaleOf(x, t);
      } else {
        assert c.driver !in StaleOf(x, t);
        assert StaleOf(x, s) == StaleOf(x, t) + {c.driver};
      }
    }
  }

  // ---- The answer ---------------------------------------------------------------------------------

  /** What every answer is: live candidates of the cell, each driver once, nearest first, at most `limit`. */
  predicate Sound(q: Query, x: Index, cell: map<string, Point>, out: seq<Candidate>) {
    && AllCandidates(q, cell, out) && (forall c :: c in out ==> Live(x, c.driver))
    && Sorted(out) && Distinct(out) && |out| <= q.limit
  }

  /** The answer is a true top-k: a fresh driver in range is missing only if `limit` others are no farther. */
  ghost predicate Exact(q: Query, x: Index, cell: map<string, Point>, out: seq<Candidate>) {
    forall d :: InRange(q, cell, d) && Live(x, d) && !Named(out, d) ==>
                  |out| == q.limit && AllWithin(out, q.dist(q.at, cell[d]))
  }

  function Truncated(s: seq<Candidate>, limit: nat): seq<Candidate> {
    if |s| > limit then s[..limit] else s
  }

  /** ranked is a sorted rearrangement of the fresh candidates found. */
  predicate Ranks(x: Index, found: seq<Candidate>, ranked: seq<Candidate>) {
    Sorted(ranked) && multiset(ranked) == multiset(FreshOf(x, found))
  }

  lemma SameMembers(s: seq<Candidate>, t: seq<Candidate>, c: Candidate)
    requires multiset(s) == multiset(t)
    ensures c in s <==> c in t
  {
    assert c in s <==> c in multiset(s);
    assert c in t <==> c in multiset(t);
  }

  lemma DistinctIsPerm(s: seq<Candidate>, t: seq<Candidate>)
    requires multiset(s) == multiset(t) && Distinct(s)
    ensures Distinct(t) && |s| == |t|
  {
    assert |multiset(s)| == |s| && |multiset(t)| == |t|;
    forall i, j | 0 <= i < j < |t|
      ensures t[i].driver != t[j].driver
    {
      SameMembers(s, t, t[i]);
      SameMembers(s, t, t[j]);
      if t[i] == t[j] {
        TwiceInSeq(t, i, j);
        OnceInDistinct(s, t[i]);
      } else {
        var a :| 0 <= a < |s| && s[a] == t[i];
        var b :| 0 <= b < |s| && s[b] == t[j];
      }
    }
  }

  lemma TwiceInSeq(t: seq<Candidate>, i: nat, j: nat)
    requires i < j < |t| && t[i] == t[j]
    ensures multiset(t)[t[i]] >= 2
  {
    assert t == t[..j] + [t[j]] + t[j + 1..];
    assert t[i] in multiset(t[..j]) by {
      assert t[..j][i] == t[i];
    }
  }

  lemma {:induction false} OnceInDistinct(s: seq<Candidate>, c: Candidate)
    requires Distinct(s)
    ensures multiset(s)[c] <= 1
  {
    if s != [] {
      OnceInDistinct(s[..|s| - 1], c);
      assert s == s[..|s| - 1] + [s[|s| - 1]];
      if s[|s| - 1] == c {
        assert c !in s[..|s| - 1];
      }
    }
  }

  lemma AnswerIsSound(q: Query, x: Index, cell: map<string, Point>, found: seq<Candidate>, ranked: seq<Candidate>)
    requires AllCandidates(q, cell, found) && Distinct(found) && Ranks(x, found, ranked)
    ensures Sound(q, x, cell, Truncated(ranked, q.limit)) && |ranked| == |FreshOf(x, found)|
  {
    FreshDistinct(x, found);
    DistinctIsPerm(FreshOf(x, found), ranked);
    forall c | c in ranked
      ensures IsCandidate(q, cell, c) && Live(x, c.driver)
    {
      SameMembers(ranked, FreshOf(x, found), c);
      FreshMembers(x, found, c);
    }
  }

  /** A fresh driver the search found is in the answer, or `limit` others are ahead. */
  lemma FoundIsRanked(q: Query, x: Index, found: seq<Candidate>, ranked: seq<Candidate>, c: Candidate)
    requires Ranks(x, found, ranked) && c in found && Live(x, c.driver)
    ensures Named(Truncated(ranked, q.limit), c.driver) ||
            (|Truncated(ranked, q.limit)| == q.limit && AllWithin(Truncated(ranked, q.limit), c.distance))
  {
    FreshMembers(x, found, c);
    SameMembers(ranked, FreshOf(x, found), c);
    var i :| 0 <= i < |ranked| && ranked[i] == c;
    if |ranked| > q.limit && i >= q.limit {
      forall b | b in Truncated(ranked, q.limit)
        ensures b.distance <= c.distance
      {
        var j :| 0 <= j < q.limit && ranked[j] == b;
      }
    } else {
      assert c in Truncated(ranked, q.limit);
    }
  }

  /** An answer falls short of a true top-k only if the search ran out of room on stale members: more than
      two thirds of what it fetched. */
  lemma ExactOrProgress(q: Query, x: Index, cell: map<string, Point>, found: seq<Candidate>, ranked: seq<Candidate>)
    requires IsSearch(q, cell, 3 * q.limit, found) && Ranks(x, found, ranked)
    ensures Exact(q, x, cell, Truncated(ranked, q.limit)) || |StaleOf(x, found)| >= 2 * q.limit + 1
  {
    var out := Truncated(ranked, q.limit);
    AnswerIsSound(q, x, cell, found, ranked);
    FreshAndStale(x, found);
    if |StaleOf(x, found)| <= 2 * q.limit {
      forall d | InRange(q, cell, d) && Live(x, d) && !Named(out, d)
        ensures |out| == q.limit && AllWithin(out, q.dist(q.at, cell[d]))
      {
        if c :| c in found && c.driver == d {
          FoundIsRanked(q, x, found, ranked, c);
        } else {
          assert !Named(found, d);
          forall c | c in out
            ensures c in found
          {
            SameMembers(ranked, FreshOf(x, found), c);
            FreshMembers(x, found, c);
          }
        }
      }
    }
  }

  // ---- Who a true top-k names -----------------------------------------------------------------------

  function Drivers(s: seq<Candidate>): set<string> { set c | c in s :: c.driver }

  lemma {:induction false} DriversCount(s: seq<Candidate>)
    requires Distinct(s)
    ensures |Drivers(s)| == |s|
  {
    if s != [] {
      var t, c := s[..|s| - 1], s[|s| - 1];
      DriversCount(t);
      assert forall b :: b in s <==> b in t || b == c;
      assert c.driver !in Drivers(t);
      assert Drivers(s) == Drivers(t) + {c.driver};
    }
  }

  lemma SubsetSize(s: set<string>, t: set<string>)
    requires s <= t
    ensures |s| <= |t|
  {
    assert t == s + (t - s);
  }

  /** The other fresh drivers in range who are no farther than d. */
  function NoFarther(q: Query, x: Index, cell: map<string, Point>, d: string): set<string> {
    set e | e in cell && e != d && d in cell && InRange(q, cell, e) && Live(x, e) && q.dist(q.at, cell[e]) <= q.dist(q.at, cell[d])
  }

  function Nearer(q: Query, x: Index, cell: map<string, Point>, d: string): set<string> {
    set e | e in cell && d in cell && InRange(q, cell, e) && Live(x, e) && q.dist(q.at, cell[e]) < q.dist(q.at, cell[d])
  }

  /** The other members in range, fresh or stale, who are no farther than d; and those who are nearer. */
  function AllNoFarther(q: Query, cell: map<string, Point>, d: string): set<string> {
    set e | e in cell && e != d && d in cell && InRange(q, cell, e) && q.dist(q.at, cell[e]) <= q.dist(q.at, cell[d])
  }

  function AllNearer(q: Query, cell: map<string, Point>, d: string): set<string> {
    set e | e in cell && d in cell && InRange(q, cell, e) && q.dist(q.at, cell[e]) < q.dist(q.at, cell[d])
  }

  /** d is in the answer, or `limit` others who are no farther fill it. */
  ghost predicate Served(q: Query, cell: map<string, Point>, out: seq<Candidate>, d: string)
    requires d in cell
  {
    Named(out, d) || (|out| == q.limit && AllWithin(out, q.dist(q.at, cell[d])))
  }

  /** The search reached every fresh driver in range than whom fewer than 3 * limit members are no farther, and
      nobody than whom so many are nearer. */
  ghost predicate Fetches(q: Query, x: Index, cell: map<string, Point>, out: seq<Candidate>) {
    && (forall d :: InRange(q, cell, d) && Live(x, d) && |AllNoFarther(q, cell, d)| < 3 * q.limit ==> Served(q, cell, out, d))
    && (forall d :: Named(out, d) ==> |AllNearer(q, cell, d)| < 3 * q.limit)
  }

  lemma SearchReaches(q: Query, cell: map<string, Point>, found: seq<Candidate>, d: string)
    requires IsSearch(q, cell, 3 * q.limit, found) && InRange(q, cell, d) && |AllNoFarther(q, cell, d)| < 3 * q.limit
    ensures Named(found, d)
  {
    if !Named(found, d) {
      forall e | e in Drivers(found)
        ensures e in AllNoFarther(q, cell, d)
      {
        var c :| c in found && c.driver == e;
        assert IsCandidate(q, cell, c);
      }
      SubsetSize(Drivers(found), AllNoFarther(q, cell, d));
      DriversCount(found);
    }
  }

  lemma SearchStops(q: Query, cell: map<string, Point>, found: seq<Candidate>, d: string)
    requires IsSearch(q, cell, 3 * q.limit, found) && q.limit > 0 && Named(found, d)
    ensures |AllNearer(q, cell, d)| < 3 * q.limit
  {
    var c :| c in found && c.driver == d;
    assert IsCandidate(q, cell, c);
    forall e | e in AllNearer(q, cell, d)
      ensures e in Drivers(found) - {d}
    {
      assert Named(found, e);
    }
    SubsetSize(AllNearer(q, cell, d), Drivers(found) - {d});
    DriversCount(found);
    assert d in Drivers(found);
  }

  lemma RankedFetches(q: Query, x: Index, cell: map<string, Point>, found: seq<Candidate>, ranked: seq<Candidate>)
    requires IsSearch(q, cell, 3 * q.limit, found) && Ranks(x, found, ranked)
    ensures Fetches(q, x, cell, Truncated(ranked, q.limit))
  {
    var out := Truncated(ranked, q.limit);
    AnswerIsSound(q, x, cell, found, ranked);
    forall d | InRange(q, cell, d) && Live(x, d) && |AllNoFarther(q, cell, d)| < 3 * q.limit
      ensures Served(q, cell, out, d)
    {
      SearchReaches(q, cell, found, d);
      var c :| c in found && c.driver == d;
      assert IsCandidate(q, cell, c);
      FoundIsRanked(q, x, found, ranked, c);
    }
    forall d | Named(out, d)
      ensures |AllNearer(q, cell, d)| < 3 * q.limit
    {
      var c :| c in out && c.driver == d;
      SameMembers(ranked, FreshOf(x, found), c);
      FreshMembers(x, found, c);
      SearchStops(q, cell, found, d);
    }
  }

  lemma ServedMeansNamed(q: Query, x: Index, cell: map<string, Point>, out: seq<Candidate>, d: string)
    requires Sound(q, x, cell, out) && InRange(q, cell, d) && Served(q, cell, out, d) && |NoFarther(q, x, cell, d)| < q.limit
    ensures Named(out, d)
  {
    if !Named(out, d) {
      forall e | e in Drivers(out)
        ensures e in NoFarther(q, x, cell, d)
      {
        var c :| c in out && c.driver == e;
        assert IsCandidate(q, cell, c);
      }
      SubsetSize(Drivers(out), NoFarther(q, x, cell, d));
      DriversCount(out);
    }
  }

  lemma NearerIsReached(q: Query, cell: map<string, Point>, e: string, d: string)
    requires InRange(q, cell, d) && e in AllNearer(q, cell, d)
    ensures |AllNoFarther(q, cell, e)| <= |AllNearer(q, cell, d)|
  {
    SubsetSize(AllNoFarther(q, cell, e), AllNearer(q, cell, d));
  }

  lemma NamedMeansRoom(q: Query, x: Index, cell: map<string, Point>, out: seq<Candidate>, d: string)
    requires Sound(q, x, cell, out) && Fetches(q, x, cell, out) && Named(out, d)
    ensures |Nearer(q, x, cell, d)| < q.limit
  {
    var c :| c in out && c.driver == d;
    assert IsCandidate(q, cell, c);
    forall e | e in Nearer(q, x, cell, d)
      ensures e in Drivers(out) - {d}
    {
      NearerIsReached(q, cell, e, d);
      assert Served(q, cell, out, e);
    }
    SubsetSize(Nearer(q, x, cell, d), Drivers(out) - {d});
    DriversCount(out);
    assert d in Drivers(out);
  }
}
