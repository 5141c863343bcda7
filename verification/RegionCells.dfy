/** What a geohash means: its cell. A reference decoder, proved to be the inverse of `Geohash`, and the
    order and prefix structure of the keys. */
module RegionCells {
  import opened Models
  import opened Region

  // ---- Base-32 text and integers ----------------------------------------------------------------

  lemma Pow2By5(k: nat)
    ensures Pow2(k + 5) == 32 * Pow2(k)
  {
    assert Pow2(k + 5) == 2 * Pow2(k + 4) == 4 * Pow2(k + 3) == 8 * Pow2(k + 2) == 16 * Pow2(k + 1);
  }

  ghost predicate IsDigit(c: char) {
    exists i :: 0 <= i < 32 && Digit(i) == c
  }

  ghost function DigitOf(c: char): (i: nat)
    requires IsDigit(c)
    ensures i < 32 && Digit(i) == c
  {
    var i :| 0 <= i < 32 && Digit(i) == c;
    i
  }

  ghost predicate IsHash(s: string) {
    forall i :: 0 <= i < |s| ==> IsDigit(s[i])
  }

  ghost function Value(s: string): nat
    requires IsHash(s)
  {
    if s == "" then 0 else 32 * Value(s[..|s| - 1]) + DigitOf(s[|s| - 1])
  }

  lemma AlphabetSteps(i: nat)
    requires i < 31
    ensures Digit(i) < Digit(i + 1)
  {
    assert BASE32[i] < BASE32[i + 1];
    NthIsIndex(BASE32, i);
    NthIsIndex(BASE32, i + 1);
  }

  /** The alphabet ascends, so comparing characters compares digits. */
  lemma {:induction false} AlphabetAscends(i: nat, j: nat)
    requires i < j < 32
    ensures Digit(i) < Digit(j)
  {
    AlphabetSteps(j - 1);
    if i + 1 < j {
      AlphabetAscends(i, j - 1);
    }
  }

  lemma DigitOfDigit(d: nat)
    requires d < 32
    ensures IsDigit(Digit(d)) && DigitOf(Digit(d)) == d
  {
    var i := DigitOf(Digit(d));
    if i < d {
      AlphabetAscends(i, d);
    } else if d < i {
      AlphabetAscends(d, i);
    }
  }

  lemma {:induction false} ValueOfText(v: nat, p: nat)
    requires v < Pow2(5 * p)
    ensures IsHash(Text(v, p)) && Value(Text(v, p)) == v
  {
    if p > 0 {
      Pow2By5(5 * p - 5);
      ValueOfText(v / 32, p - 1);
      DigitOfDigit(v % 32);
      assert Text(v, p)[..p - 1] == Text(v / 32, p - 1);
    }
  }

  lemma {:induction false} ValueFits(s: string)
    requires IsHash(s)
    ensures Value(s) < Pow2(5 * |s|)
  {
    if s != "" {
      ValueFits(s[..|s| - 1]);
      Pow2By5(5 * |s| - 5);
    }
  }

  lemma ValueOfAppend(t: string, c: char)
    requires IsHash(t + [c])
    ensures IsHash(t) && IsDigit(c) && Value(t + [c]) == 32 * Value(t) + DigitOf(c)
  {
    assert (t + [c])[..|t|] == t;
    assert forall i :: 0 <= i < |t| ==> t[i] == (t + [c])[i];
    assert (t + [c])[|t|] == c;
  }

  lemma {:induction false} TextOfValue(s: string)
    requires IsHash(s)
    ensures Text(Value(s), |s|) == s
  {
    if s != "" {
      var t, c := s[..|s| - 1], s[|s| - 1];
      assert s == t + [c];
      ValueOfAppend(t, c);
      TextOfValue(t);
      AppendDigit(Value(t), DigitOf(c), |t|);
    }
  }

  // ---- Interleaved bits -------------------------------------------------------------------------

  /** Undoing `Interleave`: the bits of v in turn, last bit first. */
  function Deinterleave(v: nat, m: nat, n: nat): (ab: (nat, nat))
    requires m == n || m == n + 1
    decreases m + n
  {
    if m == 0 then (0, 0)
    else
      var ba := Deinterleave(v / 2, n, m - 1);
      (2 * ba.1 + v % 2, ba.0)
  }

  lemma {:induction false} InterleaveParts(v: nat, m: nat, n: nat)
    requires (m == n || m == n + 1) && v < Pow2(m + n)
    ensures var ab := Deinterleave(v, m, n);
            ab.0 < Pow2(m) && ab.1 < Pow2(n) && Interleave(ab.0, m, ab.1, n) == v
    decreases m + n
  {
    if m > 0 {
      assert Pow2(m + n) == 2 * Pow2(n + (m - 1));
      InterleaveParts(v / 2, n, m - 1);
      var a := Deinterleave(v / 2, n, m - 1).1;
      assert (2 * a + v % 2) / 2 == a && (2 * a + v % 2) % 2 == v % 2;
    }
  }

  lemma {:induction false} PartsOfInterleave(a: nat, m: nat, b: nat, n: nat)
    requires (m == n || m == n + 1) && a < Pow2(m) && b < Pow2(n)
    ensures Interleave(a, m, b, n) < Pow2(m + n)
    ensures Deinterleave(Interleave(a, m, b, n), m, n) == (a, b)
    decreases m + n
  {
    if m > 0 {
      PartsOfInterleave(b, n, a / 2, m - 1);
    }
  }

  /** The longitude and latitude slot numbers whose interleaving is the k-bit code v. */
  function Parts(v: nat, k: nat): (xy: (nat, nat)) {
    var m, n := LngBits(k), LatBits(k);
    if m > n then Deinterleave(v, m, n) else var yx := Deinterleave(v, n, m); (yx.1, yx.0)
  }

  // ---- Cells ------------------------------------------------------------------------------------

  datatype Cell = Cell(latLo: real, latHi: real, lngLo: real, lngHi: real) {
    function Centre(): Point { Point((latLo + latHi) / 2.0, (lngLo + lngHi) / 2.0) }
  }

  function LngEdge(i: int, n: nat): real { -180.0 + 360.0 * Fraction(i, n) }

  function LatEdge(i: int, n: nat): real { -90.0 + 180.0 * Fraction(i, n) }

  /** The cell of the longitude slot x and the latitude slot y that k bits tell apart. */
  function CellAt(x: nat, y: nat, k: nat): Cell {
    Cell(LatEdge(y, LatBits(k)), LatEdge(y + 1, LatBits(k)), LngEdge(x, LngBits(k)), LngEdge(x + 1, LngBits(k)))
  }

  /** The decoder: the cell a hash names. */
  ghost function CellOf(s: string): Cell
    requires IsHash(s)
  {
    var (x, y) := Parts(Value(s), 5 * |s|);
    CellAt(x, y, 5 * |s|)
  }

  function Clamp(z: real, lo: real, hi: real): real {
    if z < lo then lo else if z > hi then hi else z
  }

  /** [lo, hi), closed at the top of the whole axis [min, max], holds z moved to the axis. */
  predicate OnAxis(z: real, lo: real, hi: real, min: real, max: real) {
    var c := Clamp(z, min, max);
    lo <= c && (c < hi || hi == max)
  }

  predicate InCell(c: Cell, lat: real, lng: real) {
    OnAxis(lat, c.latLo, c.latHi, -90.0, 90.0) && OnAxis(lng, c.lngLo, c.lngHi, -180.0, 180.0)
  }

  lemma {:induction false} FractionOrder(i: int, j: int, n: nat)
    ensures Fraction(i, n) < Fraction(j, n) <==> i < j
  {
    if n > 0 {
      FractionOrder(i, j, n - 1);
    }
  }

  lemma {:induction false} FractionEnds(n: nat)
    ensures Fraction(0, n) == 0.0 && Fraction(Pow2(n), n) == 1.0
  {
    if n > 0 {
      FractionEnds(n - 1);
      FractionHalves(Pow2(n - 1), n - 1);
    }
  }

  lemma SlotAtLeast(u: real, n: nat, i: nat)
    requires i < Pow2(n)
    ensures Slot(u, n) >= i <==> i == 0 || u >= Fraction(i, n)
  {
    FractionCompare(u, i, n);
  }

  lemma SlotIffBetween(u: real, n: nat, i: nat)
    requires i < Pow2(n)
    ensures 0.0 <= Fraction(i, n) < Fraction(i + 1, n) <= 1.0
    ensures Slot(u, n) == i <==> (Fraction(i, n) == 0.0 || u >= Fraction(i, n)) &&
                                 (Fraction(i + 1, n) == 1.0 || u < Fraction(i + 1, n))
  {
    SlotAtLeast(u, n, i);
    if i + 1 < Pow2(n) {
      SlotAtLeast(u, n, i + 1);
    }
    FractionEnds(n);
    FractionOrder(0, i, n);
    FractionOrder(i, i + 1, n);
    FractionOrder(i + 1, Pow2(n), n);
  }

  lemma CodeIffParts(lat: real, lng: real, k: nat, v: nat)
    requires v < Pow2(k)
    ensures Parts(v, k).0 < Pow2(LngBits(k)) && Parts(v, k).1 < Pow2(LatBits(k))
    ensures Code(lat, lng, k) == v <==> (Slot(LngUnit(lng), LngBits(k)), Slot(LatUnit(lat), LatBits(k))) == Parts(v, k)
  {
    var m, n := LngBits(k), LatBits(k);
    var x, y := Slot(LngUnit(lng), m), Slot(LatUnit(lat), n);
    if m > n {
      InterleaveParts(v, m, n);
      PartsOfInterleave(x, m, y, n);
    } else {
      InterleaveParts(v, n, m);
      PartsOfInterleave(y, n, x, m);
    }
  }

  lemma TextIffValue(v: nat, s: string)
    requires IsHash(s) && v < Pow2(5 * |s|)
    ensures Text(v, |s|) == s <==> v == Value(s)
  {
    ValueOfText(v, |s|);
    TextOfValue(s);
  }

  lemma {:induction false} CodeFits(lat: real, lng: real, k: nat)
    ensures Code(lat, lng, k) < Pow2(k)
  {
    if k > 0 {
      CodeFits(lat, lng, k - 1);
      CodeGrows(lat, lng, k - 1);
    }
  }

  lemma LngIffOnAxis(lng: real, n: nat, i: nat)
    requires i < Pow2(n)
    ensures OnAxis(lng, LngEdge(i, n), LngEdge(i + 1, n), -180.0, 180.0) <==> Slot(LngUnit(lng), n) == i
  {
    SlotIffBetween(LngUnit(lng), n, i);
  }

  lemma LatIffOnAxis(lat: real, n: nat, i: nat)
    requires i < Pow2(n)
    ensures OnAxis(lat, LatEdge(i, n), LatEdge(i + 1, n), -90.0, 90.0) <==> Slot(LatUnit(lat), n) == i
  {
    SlotIffBetween(LatUnit(lat), n, i);
  }

  lemma InCellIffSlots(x: nat, y: nat, k: nat, lat: real, lng: real)
    requires x < Pow2(LngBits(k)) && y < Pow2(LatBits(k))
    ensures InCell(CellAt(x, y, k), lat, lng) <==> Slot(LngUnit(lng), LngBits(k)) == x && Slot(LatUnit(lat), LatBits(k)) == y
  {
    LngIffOnAxis(lng, LngBits(k), x);
    LatIffOnAxis(lat, LatBits(k), y);
  }

  /** A point hashes to s exactly when it lies in the cell s names. */
  lemma HashNamesCell(s: string, lat: real, lng: real)
    requires IsHash(s)
    ensures GeohashOf(lat, lng, |s|) == s <==> InCell(CellOf(s), lat, lng)
  {
    var k, v := 5 * |s|, Value(s);
    ValueFits(s);
    CodeFits(lat, lng, k);
    TextIffValue(Code(lat, lng, k), s);
    CodeIffParts(lat, lng, k, v);
    InCellIffSlots(Parts(v, k).0, Parts(v, k).1, k, lat, lng);
  }

  lemma HashIsHash(lat: real, lng: real, p: nat)
    ensures IsHash(GeohashOf(lat, lng, p))
  {
    CodeFits(lat, lng, 5 * p);
    ValueOfText(Code(lat, lng, 5 * p), p);
  }

  lemma {:induction false} FractionGap(i: int, n: nat)
    ensures Fraction(i + 1, n) - Fraction(i, n) == Fraction(1, n)
  {
    if n > 0 {
      FractionGap(i, n - 1);
    }
  }

  /** Decoding a hash gives a cell of the stated size that holds the point it was made from. */
  lemma DecodeAfterEncode(lat: real, lng: real, p: nat)
    ensures IsHash(GeohashOf(lat, lng, p))
    ensures var c := CellOf(GeohashOf(lat, lng, p));
            && InCell(c, lat, lng)
            && c.lngHi - c.lngLo == 360.0 * Fraction(1, LngBits(5 * p))
            && c.latHi - c.latLo == 180.0 * Fraction(1, LatBits(5 * p))
  {
    HashIsHash(lat, lng, p);
    var s := GeohashOf(lat, lng, p);
    HashNamesCell(s, lat, lng);
    FractionGap(Parts(Value(s), 5 * p).0, LngBits(5 * p));
    FractionGap(Parts(Value(s), 5 * p).1, LatBits(5 * p));
  }

  lemma CentreInCell(s: string)
    requires IsHash(s)
    ensures InCell(CellOf(s), CellOf(s).Centre().lat, CellOf(s).Centre().lng)
  {
    var k, v := 5 * |s|, Value(s);
    ValueFits(s);
    CodeIffParts(0.0, 0.0, k, v);
    SlotIffBetween(0.0, LngBits(k), Parts(v, k).0);
    SlotIffBetween(0.0, LatBits(k), Parts(v, k).1);
  }

  /** Encoding the centre of a hash's cell gives the hash back, so strings and cells correspond one to one. */
  lemma EncodeAfterDecode(s: string)
    requires IsHash(s)
    ensures GeohashOf(CellOf(s).Centre().lat, CellOf(s).Centre().lng, |s|) == s
  {
    CentreInCell(s);
    HashNamesCell(s, CellOf(s).Centre().lat, CellOf(s).Centre().lng);
  }

  /** A point off the map hashes as the nearest point on it. */
  lemma HashOfClamped(lat: real, lng: real, p: nat)
    ensures GeohashOf(lat, lng, p) == GeohashOf(Clamp(lat, -90.0, 90.0), Clamp(lng, -180.0, 180.0), p)
  {
    HashIsHash(lat, lng, p);
    var s := GeohashOf(lat, lng, p);
    HashNamesCell(s, lat, lng);
    HashNamesCell(s, Clamp(lat, -90.0, 90.0), Clamp(lng, -180.0, 180.0));
  }

  // ---- Prefixes ---------------------------------------------------------------------------------

  lemma FiveHalvings(c: nat, c1: nat, c2: nat, c3: nat, c4: nat, c5: nat)
    requires c1 / 2 == c && c2 / 2 == c1 && c3 / 2 == c2 && c4 / 2 == c3 && c5 / 2 == c4
    ensures c5 / 32 == c
  {
  }

  lemma CodeShifts(lat: real, lng: real, k: nat)
    ensures Code(lat, lng, k + 5) / 32 == Code(lat, lng, k)
  {
    CodeGrows(lat, lng, k);
    CodeGrows(lat, lng, k + 1);
    CodeGrows(lat, lng, k + 2);
    CodeGrows(lat, lng, k + 3);
    CodeGrows(lat, lng, k + 4);
    FiveHalvings(Code(lat, lng, k), Code(lat, lng, k + 1), Code(lat, lng, k + 2),
                 Code(lat, lng, k + 3), Code(lat, lng, k + 4), Code(lat, lng, k + 5));
  }

  /** A coarser hash is a prefix of every finer one. */
  lemma {:induction false} CoarserIsPrefix(lat: real, lng: real, p: nat, q: nat)
    requires p <= q
    ensures GeohashOf(lat, lng, q)[..p] == GeohashOf(lat, lng, p)
    decreases q
  {
    if p < q {
      CoarserIsPrefix(lat, lng, p, q - 1);
      CodeShifts(lat, lng, 5 * q - 5);
      assert GeohashOf(lat, lng, q)[..q - 1] == GeohashOf(lat, lng, q - 1);
    }
  }

  // ---- Order ------------------------------------------------------------------------------------

  /** s comes before t in the order Go and Redis compare strings of one length in. */
  predicate Before(s: string, t: string)
    requires |s| == |t|
  {
    s != "" && (s[0] < t[0] || (s[0] == t[0] && Before(s[1..], t[1..])))
  }

  lemma {:induction false} BeforeByLast(s: string, t: string, a: char, b: char)
    requires |s| == |t|
    ensures Before(s + [a], t + [b]) <==> Before(s, t) || (s == t && a < b)
  {
    if s != "" {
      BeforeByLast(s[1..], t[1..], a, b);
      assert (s + [a])[1..] == s[1..] + [a] && (t + [b])[1..] == t[1..] + [b];
      assert s[0] == t[0] && s[1..] == t[1..] ==> s == [s[0]] + s[1..] == t;
    }
  }

  /** Hashes of one length sort as their codes do. */
  lemma {:induction false} TextOrder(v: nat, w: nat, p: nat)
    requires v < Pow2(5 * p) && w < Pow2(5 * p)
    ensures Before(Text(v, p), Text(w, p)) <==> v < w
  {
    if p > 0 {
      Pow2By5(5 * p - 5);
      var v', w' := v / 32, w / 32;
      TextOrder(v', w', p - 1);
      TextIsOneToOne(v', w', p - 1);
      DigitOrder(v % 32, w % 32);
      BeforeByLast(Text(v', p - 1), Text(w', p - 1), Digit(v % 32), Digit(w % 32));
    }
  }

  lemma TextIsOneToOne(v: nat, w: nat, p: nat)
    requires v < Pow2(5 * p) && w < Pow2(5 * p)
    ensures Text(v, p) == Text(w, p) <==> v == w
  {
    ValueOfText(v, p);
    ValueOfText(w, p);
  }

  lemma DigitOrder(i: nat, j: nat)
    requires i < 32 && j < 32
    ensures Digit(i) < Digit(j) <==> i < j
  {
    if i < j {
      AlphabetAscends(i, j);
    } else if j < i {
      AlphabetAscends(j, i);
    }
  }

  lemma {:induction false} InterleaveMonotone(a: nat, m: nat, b: nat, n: nat, a': nat, b': nat)
    requires (m == n || m == n + 1) && a <= a' < Pow2(m) && b <= b' < Pow2(n)
    ensures Interleave(a, m, b, n) <= Interleave(a', m, b', n)
    ensures a < a' || b < b' ==> Interleave(a, m, b, n) < Interleave(a', m, b', n)
    decreases m + n
  {
    if m > 0 {
      InterleaveMonotone(b, n, a / 2, m - 1, b', a' / 2);
    }
  }

  lemma {:induction false} ScaleMonotone(u: real, w: real, n: nat)
    requires u <= w
    ensures Scale(u, n) <= Scale(w, n)
  {
    if n > 0 {
      ScaleMonotone(u, w, n - 1);
    }
  }

  lemma SlotMonotone(u: real, w: real, n: nat)
    requires u <= w
    ensures Slot(u, n) <= Slot(w, n)
  {
    ScaleMonotone(u, w, n);
  }

  lemma CodeMonotone(lat: real, lng: real, lat': real, lng': real, k: nat)
    requires lat <= lat' && lng <= lng'
    ensures Code(lat, lng, k) <= Code(lat', lng', k)
  {
    var m, n := LngBits(k), LatBits(k);
    SlotMonotone(LngUnit(lng), LngUnit(lng'), m);
    SlotMonotone(LatUnit(lat), LatUnit(lat'), n);
    if m > n {
      InterleaveMonotone(Slot(LngUnit(lng), m), m, Slot(LatUnit(lat), n), n, Slot(LngUnit(lng'), m), Slot(LatUnit(lat'), n));
    } else {
      InterleaveMonotone(Slot(LatUnit(lat), n), n, Slot(LngUnit(lng), m), m, Slot(LatUnit(lat'), n), Slot(LngUnit(lng'), m));
    }
  }

  /** Going north and east never moves the hash back. */
  lemma HashMonotone(lat: real, lng: real, lat': real, lng': real, p: nat)
    requires lat <= lat' && lng <= lng'
    ensures !Before(GeohashOf(lat', lng', p), GeohashOf(lat, lng, p))
  {
    CodeMonotone(lat, lng, lat', lng', 5 * p);
    CodeFits(lat, lng, 5 * p);
    CodeFits(lat', lng', 5 * p);
    TextOrder(Code(lat', lng', 5 * p), Code(lat, lng, 5 * p), p);
  }

  // ---- A boundary ---------------------------------------------------------------------------------

  lemma MeridianSlots(west: real, east: real, n: nat)
    requires west < 0.0 <= east && n >= 1
    ensures Slot(LngUnit(west), n) < Slot(LngUnit(east), n)
  {
    FractionEnds(n - 1);
    assert Fraction(Pow2(n - 1), n) == 0.5 && Pow2(n - 1) < Pow2(n);
    SlotAtLeast(LngUnit(west), n, Pow2(n - 1));
    SlotAtLeast(LngUnit(east), n, Pow2(n - 1));
  }

  /** However near each other, points on either side of the Greenwich meridian have different hashes. */
  lemma MeridianIsBoundary(west: Point, east: Point, p: nat)
    requires west.lng < 0.0 <= east.lng && p >= 1
    ensures GeohashOf(west.lat, west.lng, p) != GeohashOf(east.lat, east.lng, p)
  {
    var k := 5 * p;
    var v, w := Code(west.lat, west.lng, k), Code(east.lat, east.lng, k);
    MeridianSlots(west.lng, east.lng, LngBits(k));
    CodeFits(west.lat, west.lng, k);
    CodeFits(east.lat, east.lng, k);
    CodeIffParts(west.lat, west.lng, k, v);
    CodeIffParts(east.lat, east.lng, k, v);
    TextIsOneToOne(v, w, p);
  }

  // ---- What a region is -----------------------------------------------------------------------------

  /** The column, of 1024 around the earth, that a longitude falls in; off the map, the nearest. */
  function LngColumn(lng: real): int {
    if lng < -180.0 then 0 else if lng >= 180.0 then 1023 else ((lng + 180.0) * 1024.0 / 360.0).Floor
  }

  /** The row, of 1024 from pole to pole, that a latitude falls in. */
  function LatRow(lat: real): int {
    if lat < -90.0 then 0 else if lat >= 90.0 then 1023 else ((lat + 90.0) * 1024.0 / 180.0).Floor
  }

  lemma Pow2Of10()
    ensures Pow2(10) == 1024
  {
    assert Pow2(5) == 2 * Pow2(4) == 4 * Pow2(3) == 8 * Pow2(2) == 16 * Pow2(1) == 32;
    Pow2By5(5);
  }

  lemma SlotIsFloor(u: real)
    ensures Slot(u, 10) == if u < 0.0 then 0 else if u >= 1.0 then 1023 else (u * 1024.0).Floor
  {
    Pow2Of10();
    ScaleIsProduct(u, 10);
  }

  lemma SlotsAreColumnAndRow(lat: real, lng: real)
    ensures Slot(LngUnit(lng), 10) == LngColumn(lng) && Slot(LatUnit(lat), 10) == LatRow(lat)
  {
    SlotIsFloor(LngUnit(lng));
    SlotIsFloor(LatUnit(lat));
    assert LngUnit(lng) * 1024.0 == (lng + 180.0) * 1024.0 / 360.0;
    assert LatUnit(lat) * 1024.0 == (lat + 90.0) * 1024.0 / 180.0;
  }

  lemma HashesIffSlots(p: Point, q: Point, n: nat)
    ensures GeohashOf(p.lat, p.lng, n) == GeohashOf(q.lat, q.lng, n) <==>
            Slot(LngUnit(p.lng), LngBits(5 * n)) == Slot(LngUnit(q.lng), LngBits(5 * n)) &&
            Slot(LatUnit(p.lat), LatBits(5 * n)) == Slot(LatUnit(q.lat), LatBits(5 * n))
  {
    var k := 5 * n;
    var v := Code(p.lat, p.lng, k);
    CodeFits(p.lat, p.lng, k);
    CodeFits(q.lat, q.lng, k);
    CodeIffParts(p.lat, p.lng, k, v);
    CodeIffParts(q.lat, q.lng, k, v);
    TextIsOneToOne(v, Code(q.lat, q.lng, k), n);
  }

  /** Two points share a region exactly when, moved onto the map, they share a slot of 360/1024 degrees of
      longitude and one of 180/1024 degrees of latitude. */
  lemma RegionIsColumnAndRow(p: Point, q: Point)
    ensures Key(p.lat, p.lng) == Key(q.lat, q.lng) <==> LngColumn(p.lng) == LngColumn(q.lng) && LatRow(p.lat) == LatRow(q.lat)
  {
    SlotsAreColumnAndRow(p.lat, p.lng);
    SlotsAreColumnAndRow(q.lat, q.lng);
    HashesIffSlots(p, q, PRECISION);
  }

  lemma DigitIs(i: nat, c: char)
    requires i < 32 && BASE32[i] == c
    ensures Digit(i) == c
  {
    NthIsIndex(BASE32, i);
  }

  lemma DigitBetween(lo: nat, i: nat, hi: nat)
    requires lo <= i <= hi < 32
    ensures BASE32[lo] <= Digit(i) <= BASE32[hi]
  {
    DigitIs(lo, BASE32[lo]);
    DigitIs(hi, BASE32[hi]);
    DigitOrder(lo, i);
    DigitOrder(i, hi);
  }

  /** A character of the alphabet: a digit, or a lower-case letter other than a, i, l and o. */
  predicate IsCharacter(c: char) {
    '0' <= c <= '9' || 'b' <= c <= 'h' || 'j' <= c <= 'k' || 'm' <= c <= 'n' || 'p' <= c <= 'z'
  }

  lemma LowCharacters(i: nat)
    requires i <= 16
    ensures IsCharacter(Digit(i))
  {
    if i <= 9 {
      DigitBetween(0, i, 9);
    } else {
      DigitBetween(10, i, 16);
    }
  }

  lemma AlphabetCharacters(i: nat)
    requires i < 32
    ensures IsCharacter(Digit(i))
  {
    if i <= 16 {
      LowCharacters(i);
    } else if i <= 18 {
      DigitBetween(17, i, 18);
    } else if i <= 20 {
      DigitBetween(19, i, 20);
    } else {
      DigitBetween(21, i, 31);
    }
  }

  /** Which are 32, and ascend, so that the alphabet is settled. */
  lemma HashCharacters(lat: real, lng: real, p: nat, i: nat)
    requires i < p
    ensures IsCharacter(GeohashOf(lat, lng, p)[i])
  {
    HashIsHash(lat, lng, p);
    AlphabetCharacters(DigitOf(GeohashOf(lat, lng, p)[i]));
  }

  lemma InterleavePairs(a: nat, b: nat, s: nat, t: nat, m: nat)
    requires s <= 1 && t <= 1
    ensures Interleave(2 * a + s, m + 1, 2 * b + t, m + 1) == 4 * Interleave(a, m, b, m) + 2 * t + s
  {
    assert (2 * a + s) / 2 == a && (2 * a + s) % 2 == s && (2 * b + t) / 2 == b && (2 * b + t) % 2 == t;
  }

  lemma {:induction false} InterleaveZeros(m: nat, n: nat)
    requires m == n || m == n + 1
    ensures Interleave(0, m, 0, n) == 0
    decreases m + n
  {
    if m > 0 {
      InterleaveZeros(n, m - 1);
    }
  }

  /** Row 839 and column 541. */
  lemma KnownCode(m: nat)
    ensures Interleave(839, m + 10, 541, m + 10) == 856759
  {
    InterleaveZeros(m, m);
    InterleavePairs(0, 0, 1, 1, m);
    InterleavePairs(1, 1, 1, 0, m + 1);
    InterleavePairs(3, 2, 0, 0, m + 2);
    InterleavePairs(6, 4, 1, 0, m + 3);
    InterleavePairs(13, 8, 0, 0, m + 4);
    InterleavePairs(26, 16, 0, 1, m + 5);
    InterleavePairs(52, 33, 0, 1, m + 6);
    InterleavePairs(104, 67, 1, 1, m + 7);
    InterleavePairs(209, 135, 1, 0, m + 8);
    InterleavePairs(419, 270, 1, 1, m + 9);
  }

  lemma TextStep(v: nat, w: nat, d: nat, p: nat, s: string)
    requires d < 32 && w == v * 32 + d && Text(v, p) == s
    ensures Text(w, p + 1) == s + [Digit(d)]
  {
    AppendDigit(v, d, p);
  }

  lemma TextOfFour(v: nat, p: nat, c: nat, d: nat, e: nat, f: nat)
    requires c < 32 && d < 32 && e < 32 && f < 32 && v == ((c * 32 + d) * 32 + e) * 32 + f && p == 4
    ensures Text(v, p) == [Digit(c)] + [Digit(d)] + [Digit(e)] + [Digit(f)]
  {
    var v2 := c * 32 + d;
    var v3 := v2 * 32 + e;
    TextStep(0, c, c, p - 4, "");
    TextStep(c, v2, d, p - 3, [Digit(c)]);
    TextStep(v2, v3, e, p - 2, [Digit(c)] + [Digit(d)]);
    TextStep(v3, v, f, p - 1, [Digit(c)] + [Digit(d)] + [Digit(e)]);
  }

  lemma TextSpells(v: nat, p: nat, c: nat, d: nat, e: nat, f: nat, s: string)
    requires c < 32 && d < 32 && e < 32 && f < 32 && v == ((c * 32 + d) * 32 + e) * 32 + f && p == 4
    requires s == [BASE32[c], BASE32[d], BASE32[e], BASE32[f]]
    ensures Text(v, p) == s
  {
    TextOfFour(v, p, c, d, e, f);
    DigitIs(c, s[0]);
    DigitIs(d, s[1]);
    DigitIs(e, s[2]);
    DigitIs(f, s[3]);
  }

  /** For instance, the north of Jutland. */
  lemma KnownRegion(lat: real, lng: real)
    requires 57.48046875 <= lat < 57.65625 && 10.1953125 <= lng < 10.546875
    ensures Key(lat, lng) == "u4pr"
  {
    SlotsAreColumnAndRow(lat, lng);
    assert LngColumn(lng) == 541 && LatRow(lat) == 839;
    KnownCode(0);
    TextSpells(Code(lat, lng, 5 * PRECISION), PRECISION, 26, 4, 21, 23, "u4pr");
  }
}
