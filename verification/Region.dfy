/** internal/region: the shard key of a coordinate is the text of its geohash cell.

    `Geohash` is the source's loop. `GeohashOf` is the closed form it is proved to compute: quantise
    both coordinates, interleave the bits (longitude first), write the integer in base 32. */
module Region {
  const BASE32: string := "0123456789bcdefghjkmnpqrstuvwxyz"
  const PRECISION: nat := 4

  function Pow2(n: nat): (r: nat)
    ensures r >= 1
  {
    if n == 0 then 1 else 2 * Pow2(n - 1)
  }

  /** The whole part of t, moved into 0 .. m - 1. */
  function FloorWithin(t: real, m: nat): (i: nat)
    requires m > 0
    ensures i < m
  {
    if t < 0.0 then 0 else if t.Floor >= m then m - 1 else t.Floor
  }

  /** u * 2^n (see `ScaleIsProduct`). */
  function Scale(u: real, n: nat): real {
    if n == 0 then u else 2.0 * Scale(u, n - 1)
  }

  /** Which of 2^n equal slots of [0, 1) holds u; points outside go to the nearest slot. */
  function Slot(u: real, n: nat): (i: nat)
    ensures i < Pow2(n)
  {
    FloorWithin(Scale(u, n), Pow2(n))
  }

  function LngUnit(lng: real): real { (lng + 180.0) / 360.0 }

  function LatUnit(lat: real): real { (lat + 90.0) / 180.0 }

  /** Of the first k subdivisions, how many split the longitude, and how many the latitude. */
  function LngBits(k: nat): nat { (k + 1) / 2 }

  function LatBits(k: nat): nat { k / 2 }

  /** The integer whose m + n bits alternate between m bits of a and n of b, the last bit being a's. */
  function Interleave(a: nat, m: nat, b: nat, n: nat): nat
    requires m == n || m == n + 1
    decreases m + n
  {
    if m == 0 then 0 else 2 * Interleave(b, n, a / 2, m - 1) + a % 2
  }

  /** s[i], by recursion so that proofs do not open up the alphabet's literal. */
  function Nth(s: string, i: nat): char
    requires i < |s|
  {
    if i == 0 then s[0] else Nth(s[1..], i - 1)
  }

  lemma {:induction false} NthIsIndex(s: string, i: nat)
    requires i < |s|
    ensures Nth(s, i) == s[i]
  {
    if i > 0 {
      NthIsIndex(s[1..], i - 1);
    }
  }

  function Digit(d: nat): char
    requires d < 32
  {
    Nth(BASE32, d)
  }

  /** The last p base-32 digits of v. */
  function Text(v: nat, p: nat): (s: string)
    ensures |s| == p
  {
    if p == 0 then "" else Text(v / 32, p - 1) + [Digit(v % 32)]
  }

  /** The bits of the two slot numbers in turn, longitude first: k bits in all. */
  function Code(lat: real, lng: real, k: nat): nat {
    var m, n := LngBits(k), LatBits(k);
    var x, y := Slot(LngUnit(lng), m), Slot(LatUnit(lat), n);
    if m > n then Interleave(x, m, y, n) else Interleave(y, n, x, m)
  }

  function GeohashOf(lat: real, lng: real, p: nat): (s: string)
    ensures |s| == p
  {
    Text(Code(lat, lng, 5 * p), p)
  }

  function Key(lat: real, lng: real): (s: string)
    ensures |s| == PRECISION
  {
    GeohashOf(lat, lng, PRECISION)
  }

  // ---- One subdivision --------------------------------------------------------------------------

  lemma {:induction false} ScaleIsProduct(u: real, n: nat)
    ensures Scale(u, n) == u * Pow2(n) as real
  {
    if n > 0 {
      ScaleIsProduct(u, n - 1);
    }
  }

  /** i / 2^n, the lower edge of slot i. */
  function Fraction(i: int, n: nat): real {
    if n == 0 then i as real else Fraction(i, n - 1) / 2.0
  }

  lemma {:induction false} FractionHalves(i: int, n: nat)
    ensures Fraction(2 * i, n + 1) == Fraction(i, n)
  {
    if n > 0 {
      FractionHalves(i, n - 1);
    }
  }

  lemma {:induction false} FractionMiddle(i: int, n: nat)
    ensures (Fraction(i, n) + Fraction(i + 2, n)) / 2.0 == Fraction(i + 1, n)
  {
    if n > 0 {
      FractionMiddle(i, n - 1);
    }
  }

  /** u is at or above i / 2^n exactly when u * 2^n is at or above i. */
  lemma {:induction false} FractionCompare(u: real, i: int, n: nat)
    ensures u >= Fraction(i, n) <==> Scale(u, n) >= i as real
    decreases n
  {
    if n > 0 {
      FractionCompare(2.0 * u, i, n - 1);
      ScaleFirst(u, n - 1);
    }
  }

  lemma {:induction false} ScaleFirst(u: real, n: nat)
    ensures Scale(2.0 * u, n) == Scale(u, n + 1)
    decreases n
  {
    if n > 0 {
      ScaleFirst(u, n - 1);
    }
  }

  lemma FloorDoubles(t: real, m: nat)
    requires m > 0
    ensures FloorWithin(2.0 * t, 2 * m) == 2 * FloorWithin(t, m) + (if 2.0 * t >= (2 * FloorWithin(t, m) + 1) as real then 1 else 0)
  {
    assert (2.0 * t).Floor == 2 * t.Floor || (2.0 * t).Floor == 2 * t.Floor + 1;
  }

  /** Halving every slot appends to the slot number the bit that says which half u is in. */
  lemma SlotSplits(u: real, n: nat)
    ensures Slot(u, n + 1) == 2 * Slot(u, n) + (if u >= Fraction(2 * Slot(u, n) + 1, n + 1) then 1 else 0)
  {
    FloorDoubles(Scale(u, n), Pow2(n));
    FractionCompare(u, 2 * Slot(u, n) + 1, n + 1);
  }

  lemma SlotHalves(u: real, n: nat)
    ensures Slot(u, n + 1) / 2 == Slot(u, n)
  {
    SlotSplits(u, n);
  }

  lemma InterleaveGrows(a: nat, m: nat, b: nat, n: nat, b': nat)
    requires (m == n || m == n + 1) && b' / 2 == b
    ensures Interleave(b', n + 1, a, m) == 2 * Interleave(a, m, b, n) + b' % 2
  {
  }

  /** The next bit of the code is the next bit of the axis whose turn it is. */
  lemma CodeGrows(lat: real, lng: real, k: nat)
    ensures Code(lat, lng, k + 1) == 2 * Code(lat, lng, k) + (
              if k % 2 == 0 then Slot(LngUnit(lng), LngBits(k) + 1) % 2 else Slot(LatUnit(lat), LatBits(k) + 1) % 2)
    ensures Code(lat, lng, k + 1) / 2 == Code(lat, lng, k)
  {
    var m, n := LngBits(k), LatBits(k);
    var x, y := Slot(LngUnit(lng), m), Slot(LatUnit(lat), n);
    if k % 2 == 0 {
      SlotHalves(LngUnit(lng), m);
      InterleaveGrows(y, n, x, m, Slot(LngUnit(lng), m + 1));
    } else {
      SlotHalves(LatUnit(lat), n);
      InterleaveGrows(x, m, y, n, Slot(LatUnit(lat), n + 1));
    }
  }

  // ---- The loop ---------------------------------------------------------------------------------

  datatype Range = Range(lo: real, hi: real) {
    function Mid(): real { (lo + hi) / 2.0 }
    function Half(z: real): Range { if z >= Mid() then Range(Mid(), hi) else Range(lo, Mid()) }
  }

  /** n bisections of `whole` towards z. */
  function Bisect(z: real, whole: Range, n: nat): Range {
    if n == 0 then whole else Bisect(z, whole, n - 1).Half(z)
  }

  const WHOLE_LNG := Range(-180.0, 180.0)
  const WHOLE_LAT := Range(-90.0, 90.0)

  /** Bisecting [0, 1) towards u closes in on the slot of u. */
  lemma {:induction false} BisectIsSlot(u: real, n: nat)
    ensures Bisect(u, Range(0.0, 1.0), n) == Range(Fraction(Slot(u, n), n), Fraction(Slot(u, n) + 1, n))
  {
    if n > 0 {
      BisectIsSlot(u, n - 1);
      var i := Slot(u, n - 1);
      FractionHalves(i, n - 1);
      FractionHalves(i + 1, n - 1);
      FractionMiddle(2 * i, n);
      SlotSplits(u, n - 1);
    }
  }

  /** Bisecting in degrees is bisecting in units. */
  lemma {:induction false} BisectLng(lng: real, n: nat)
    ensures var r := Bisect(LngUnit(lng), Range(0.0, 1.0), n);
            Bisect(lng, WHOLE_LNG, n) == Range(-180.0 + 360.0 * r.lo, -180.0 + 360.0 * r.hi)
  {
    if n > 0 {
      BisectLng(lng, n - 1);
    }
  }

  lemma {:induction false} BisectLat(lat: real, n: nat)
    ensures var r := Bisect(LatUnit(lat), Range(0.0, 1.0), n);
            Bisect(lat, WHOLE_LAT, n) == Range(-90.0 + 180.0 * r.lo, -90.0 + 180.0 * r.hi)
  {
    if n > 0 {
      BisectLat(lat, n - 1);
    }
  }

  lemma BisectMid(u: real, n: nat)
    ensures Bisect(u, Range(0.0, 1.0), n).Mid() == Fraction(2 * Slot(u, n) + 1, n + 1)
  {
    var i := Slot(u, n);
    BisectIsSlot(u, n);
    FractionHalves(i, n);
    FractionHalves(i + 1, n);
    FractionMiddle(2 * i, n + 1);
  }

  lemma UnitBit(u: real, n: nat)
    ensures u >= Bisect(u, Range(0.0, 1.0), n).Mid() <==> Slot(u, n + 1) % 2 == 1
  {
    BisectMid(u, n);
    SlotSplits(u, n);
  }

  lemma LngBit(lng: real, n: nat)
    ensures lng >= Bisect(lng, WHOLE_LNG, n).Mid() <==> Slot(LngUnit(lng), n + 1) % 2 == 1
  {
    BisectLng(lng, n);
    UnitBit(LngUnit(lng), n);
  }

  lemma LatBit(lat: real, n: nat)
    ensures lat >= Bisect(lat, WHOLE_LAT, n).Mid() <==> Slot(LatUnit(lat), n + 1) % 2 == 1
  {
    BisectLat(lat, n);
    UnitBit(LatUnit(lat), n);
  }

  /** The ranges after k bisections in all; the longitude is halved next when `even`. */
  predicate Bisected(lat: real, lng: real, k: nat, even: bool, latRange: Range, lngRange: Range) {
    && (even <==> k % 2 == 0)
    && lngRange == Bisect(lng, WHOLE_LNG, LngBits(k))
    && latRange == Bisect(lat, WHOLE_LAT, LatBits(k))
  }

  lemma NextBit(lat: real, lng: real, k: nat)
    ensures Code(lat, lng, k + 1) == 2 * Code(lat, lng, k) + (
              if (if k % 2 == 0 then lng >= Bisect(lng, WHOLE_LNG, LngBits(k)).Mid()
                  else lat >= Bisect(lat, WHOLE_LAT, LatBits(k)).Mid()) then 1 else 0)
  {
    CodeGrows(lat, lng, k);
    if k % 2 == 0 {
      LngBit(lng, LngBits(k));
    } else {
      LatBit(lat, LatBits(k));
    }
  }

  method Subdivide(lat: real, lng: real, even: bool, latRange: Range, lngRange: Range, ghost k: nat)
    returns (isUpper: bool, latRange': Range, lngRange': Range)
    requires Bisected(lat, lng, k, even, latRange, lngRange)
    ensures Bisected(lat, lng, k + 1, !even, latRange', lngRange')
    ensures Code(lat, lng, k + 1) == 2 * Code(lat, lng, k) + (if isUpper then 1 else 0)
  {
    NextBit(lat, lng, k);
    latRange', lngRange' := latRange, lngRange;
    if even {
      var mid := (lngRange.lo + lngRange.hi) / 2.0;
      isUpper := lng >= mid;
      lngRange' := if isUpper then lngRange.(lo := mid) else lngRange.(hi := mid);
    } else {
      var mid := (latRange.lo + latRange.hi) / 2.0;
      isUpper := lat >= mid;
      latRange' := if isUpper then latRange.(lo := mid) else latRange.(hi := mid);
    }
  }

  // ---- Packing five bits to a character -----------------------------------------------------------

  /** ch | 1 << i */
  function SetBit(ch: nat, i: nat): nat {
    if i > 0 then 2 * SetBit(ch / 2, i - 1) + ch % 2
    else if ch % 2 == 0 then ch + 1
    else ch
  }

  /** r << i */
  function Shl(r: nat, i: nat): nat {
    if i == 0 then r else 2 * Shl(r, i - 1)
  }

  lemma ShlDouble(r: nat, i: nat)
    ensures Shl(2 * r, i) == Shl(r, i + 1)
  {
  }

  /** OR-ing the bit below those already packed adds it, since it is still clear. */
  lemma {:induction false} FreeBitIsClear(r: nat, i: nat)
    ensures SetBit(Shl(r, i + 1), i) == Shl(2 * r + 1, i)
  {
    if i > 0 {
      FreeBitIsClear(r, i - 1);
    }
  }

  lemma AppendDigit(v: nat, d: nat, p: nat)
    requires d < 32
    ensures Text(v * 32 + d, p + 1) == Text(v, p) + [Digit(d)]
  {
  }

  /** v >> i, and the i bits that shifts out. */
  function Shr(v: nat, i: nat): nat {
    if i == 0 then v else Shr(v / 2, i - 1)
  }

  function Low(v: nat, i: nat): nat {
    if i == 0 then 0 else 2 * Low(v / 2, i - 1) + v % 2
  }

  lemma FiveBits(v: nat)
    ensures Shr(v, 5) == v / 32 && Low(v, 5) == v % 32
  {
    LowJoinsShr(v, 5);
    Shl5(Shr(v, 5));
  }

  lemma {:induction false} LowJoinsShr(v: nat, i: nat)
    ensures Shl(Shr(v, i), i) + Low(v, i) == v && Low(v, i) < Pow2(i)
  {
    if i > 0 {
      LowJoinsShr(v / 2, i - 1);
    }
  }

  lemma Shl5(v: nat)
    ensures Shl(v, 5) == 32 * v && Pow2(5) == 32
  {
    assert Shl(v, 5) == 2 * Shl(v, 4) == 4 * Shl(v, 3) == 8 * Shl(v, 2) == 16 * Shl(v, 1);
    assert Pow2(5) == 2 * Pow2(4) == 4 * Pow2(3) == 8 * Pow2(2) == 16 * Pow2(1);
  }

  /** Of the code v, s spells all but the last `bit` bits, and ch holds those, left-aligned in five. */
  predicate Packed(v: nat, s: string, bit: nat, ch: nat) {
    bit <= 4 && s == Text(Shr(v, bit), |s|) && ch == Shl(Low(v, bit), 5 - bit)
  }

  lemma AppendBit(v: nat, bit: nat, b: nat)
    requires b <= 1
    ensures Shr(2 * v + b, bit + 1) == Shr(v, bit) && Low(2 * v + b, bit + 1) == 2 * Low(v, bit) + b
  {
    assert (2 * v + b) / 2 == v && (2 * v + b) % 2 == b;
  }

  lemma OrLowBit(low: nat, bit: nat, b: nat)
    requires bit <= 4 && b <= 1
    ensures var ch := Shl(low, 5 - bit);
            Shl(2 * low + b, 4 - bit) == if b == 1 then SetBit(ch, 4 - bit) else ch
  {
    FreeBitIsClear(low, 4 - bit);
    ShlDouble(low, 4 - bit);
  }

  lemma PackBit(v: nat, bit: nat, b: nat)
    requires bit <= 4 && b <= 1
    ensures Shr(2 * v + b, bit + 1) == Shr(v, bit)
    ensures var ch := Shl(Low(v, bit), 5 - bit);
            Shl(Low(2 * v + b, bit + 1), 4 - bit) == if b == 1 then SetBit(ch, 4 - bit) else ch
  {
    AppendBit(v, bit, b);
    OrLowBit(Low(v, bit), bit, b);
  }

  lemma WriteCharacter(v: nat, s: string, ch: nat)
    requires s == Text(Shr(v, 5), |s|) && ch == Shl(Low(v, 5), 0)
    ensures ch < 32 && s + [BASE32[ch]] == Text(v, |s| + 1)
  {
    FiveBits(v);
    NthIsIndex(BASE32, ch);
  }

  method Pack(s: string, bit: nat, ch: nat, isUpper: bool, ghost v: nat) returns (s': string, bit': nat, ch': nat)
    requires Packed(v, s, bit, ch)
    ensures Packed(2 * v + (if isUpper then 1 else 0), s', bit', ch')
    ensures bit' == (if bit < 4 then bit + 1 else 0) && |s'| == |s| + (if bit < 4 then 0 else 1)
  {
    PackBit(v, bit, if isUpper then 1 else 0);
    s', ch' := s, if isUpper then SetBit(ch, 4 - bit) else ch;
    if bit < 4 {
      bit' := bit + 1;
    } else {
      WriteCharacter(2 * v + (if isUpper then 1 else 0), s, ch');
      s' := s + [BASE32[ch']];
      bit', ch' := 0, 0;
    }
  }

  method Geohash(lat: real, lng: real, precision: int) returns (s: string)
    ensures s == GeohashOf(lat, lng, if precision < 0 then 0 else precision)
  {
    var latRange := Range(-90.0, 90.0);
    var lngRange := Range(-180.0, 180.0);
    s := "";
    var even := true;
    var bit: nat := 0;
    var ch: nat := 0;
    ghost var k: nat := 0;
    while |s| < precision
      invariant k == 5 * |s| + bit && (|s| == 0 || |s| <= precision) && (|s| >= precision ==> bit == 0)
      invariant Bisected(lat, lng, k, even, latRange, lngRange)
      invariant Packed(Code(lat, lng, k), s, bit, ch)
      decreases 5 * (precision - |s|) - bit
    {
      var isUpper;
      isUpper, latRange, lngRange := Subdivide(lat, lng, even, latRange, lngRange, k);
      s, bit, ch := Pack(s, bit, ch, isUpper, Code(lat, lng, k));
      even := !even;
      k := k + 1;
    }
  }

  /** The region's own key, then the coarser key around it, each once. */
  method Neighbors(lat: real, lng: real) returns (out: seq<string>)
    ensures out == [Key(lat, lng), GeohashOf(lat, lng, PRECISION - 1)]
  {
    var coarse := Geohash(lat, lng, PRECISION - 1);
    var key := Geohash(lat, lng, PRECISION);
    var seen: set<string> := {};
    out := [];
    var keys := [key, coarse];
    for i := 0 to |keys|
      invariant out == keys[..i] && seen == set k | k in keys[..i]
    {
      if keys[i] !in seen {
        seen := seen + {keys[i]};
        out := out + [keys[i]];
      }
    }
  }
}
