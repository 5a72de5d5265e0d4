// Geohash prefixes by interval bisection, over exact reals.
module Geohash {
  import opened Base32

  // ----- Cells -----

  datatype Box = Box(latLo: real, latHi: real, lngLo: real, lngHi: real)

  const WORLD := Box(-90.0, 90.0, -180.0, 180.0)

  // Longitude first, then alternating.
  predicate SplitsLat(k: nat) {
    k > 0 && !SplitsLat(k - 1)
  }

  function Half(box: Box, lat: bool, high: bool): Box {
    if lat then
      var mid := (box.latLo + box.latHi) / 2.0;
      if high then box.(latLo := mid) else box.(latHi := mid)
    else
      var mid := (box.lngLo + box.lngHi) / 2.0;
      if high then box.(lngLo := mid) else box.(lngHi := mid)
  }

  predicate IsHigh(box: Box, splitsLat: bool, lng: real, lat: real) {
    if splitsLat then lat >= (box.latLo + box.latHi) / 2.0 else lng >= (box.lngLo + box.lngHi) / 2.0
  }

  // The cell a sequence of bits selects.
  function BoxOf(bits: seq<bool>): Box {
    if bits == [] then WORLD
    else
      var n := |bits| - 1;
      Half(BoxOf(bits[..n]), SplitsLat(n), bits[n])
  }

  // Half-open cells; those at the edge of the world also take the points beyond it.
  predicate Contains(box: Box, lng: real, lat: real) {
    && (box.latLo == WORLD.latLo || box.latLo <= lat) && (box.latHi == WORLD.latHi || lat < box.latHi)
    && (box.lngLo == WORLD.lngLo || box.lngLo <= lng) && (box.lngHi == WORLD.lngHi || lng < box.lngHi)
  }

  // ----- The bits of a point -----

  // The cell after k bisections, and the choice made by the next one.
  function BoxAt(lng: real, lat: real, k: nat): Box
    decreases k, 0
  {
    if k == 0 then WORLD else Half(BoxAt(lng, lat, k - 1), SplitsLat(k - 1), HighAt(lng, lat, k - 1))
  }

  predicate HighAt(lng: real, lat: real, k: nat)
    decreases k, 1
  {
    IsHigh(BoxAt(lng, lat, k), SplitsLat(k), lng, lat)
  }

  function Choices(lng: real, lat: real): nat -> bool {
    (k: nat) => HighAt(lng, lat, k)
  }

  function BitsOf(lng: real, lat: real, n: nat): seq<bool> {
    BitsFrom(Choices(lng, lat), 0, n)
  }

  function Geohash(lng: real, lat: real, n: nat): string {
    Encode(Choices(lng, lat), n)
  }

  function CellOf(s: string): Box
    requires IsBase32(s)
  {
    BoxOf(BitsOfString(s))
  }

  // ----- The code -----

  lemma {:induction false} NextBox(lng: real, lat: real, k: nat)
    ensures Choices(lng, lat)(k) == IsHigh(BoxAt(lng, lat, k), SplitsLat(k), lng, lat)
    ensures BoxAt(lng, lat, k + 1) == Half(BoxAt(lng, lat, k), SplitsLat(k), Choices(lng, lat)(k))
    ensures SplitsLat(k + 1) == !SplitsLat(k)
  {
  }

  // One bisection: the range that is split keeps the half with the point.
  method Bisect(ranges: Box, isLat: bool, lng: real, lat: real, ghost k: nat) returns (half: Box, high: bool)
    requires isLat == SplitsLat(k) && ranges == BoxAt(lng, lat, k)
    ensures high == Choices(lng, lat)(k) && half == BoxAt(lng, lat, k + 1) && SplitsLat(k + 1) == !isLat
  {
    NextBox(lng, lat, k);
    if isLat {
      var mid := (ranges.latLo + ranges.latHi) / 2.0;
      high := lat >= mid;
      half := if high then ranges.(latLo := mid) else ranges.(latHi := mid);
    } else {
      var mid := (ranges.lngLo + ranges.lngHi) / 2.0;
      high := lng >= mid;
      half := if high then ranges.(lngLo := mid) else ranges.(lngHi := mid);
    }
  }

  method GeohashPrefix(lng: real, lat: real, precision: int) returns (geohash: string)
    ensures geohash == Geohash(lng, lat, if precision < 0 then 0 else precision)
  {
    var ranges := WORLD;
    var isLat := false;
    var bit, ch := 0, 0;
    geohash := "";
    ghost var k, choices := 0, Choices(lng, lat);
    BuildingStarts(choices);
    while |geohash| < precision
      invariant |geohash| <= if precision < 0 then 0 else precision
      invariant 0 <= bit < 5 && 0 <= ch < 32 && Building(choices, k, geohash, bit, ch)
      invariant isLat == SplitsLat(k) && ranges == BoxAt(lng, lat, k)
      decreases precision - |geohash|, 5 - bit
    {
      BuildingGoesOn(choices, k, geohash, bit, ch);
      var high;
      ranges, high := Bisect(ranges, isLat, lng, lat, k);
      if high {
        ch := Or(ch, Weight(bit));
      }
      isLat := !isLat;
      bit, k := bit + 1, k + 1;
      if bit == 5 {
        geohash := geohash + [BASE32[ch]];
        bit, ch := 0, 0;
      }
    }
  }

  // ----- What a geohash says about a point -----

  lemma {:induction false} BoxInWorld(bits: seq<bool>)
    ensures var box := BoxOf(bits);
      WORLD.latLo <= box.latLo < box.latHi <= WORLD.latHi && WORLD.lngLo <= box.lngLo < box.lngHi <= WORLD.lngHi
  {
    if bits != [] {
      BoxInWorld(bits[..|bits| - 1]);
    }
  }

  lemma {:induction false} BoxAtIsBoxOf(lng: real, lat: real, k: nat)
    ensures BoxAt(lng, lat, k) == BoxOf(BitsOf(lng, lat, k))
  {
    if k > 0 {
      BoxAtIsBoxOf(lng, lat, k - 1);
      assert BitsOf(lng, lat, k)[..k - 1] == BitsOf(lng, lat, k - 1);
    }
  }

  // A point lies in the cell of a sequence of bits exactly when those are its bits.
  lemma {:induction false} CellDecidesBits(bits: seq<bool>, lng: real, lat: real)
    ensures Contains(BoxOf(bits), lng, lat) <==> BitsOf(lng, lat, |bits|) == bits
  {
    if bits != [] {
      var n := |bits| - 1;
      var rest := bits[..n];
      CellDecidesBits(rest, lng, lat);
      BoxInWorld(rest);
      BoxAtIsBoxOf(lng, lat, n);
      assert bits == rest + [bits[n]];
      assert BitsOf(lng, lat, n + 1) == BitsOf(lng, lat, n) + [HighAt(lng, lat, n)];
      HalfDecides(BoxOf(rest), SplitsLat(n), bits[n], lng, lat);
    }
  }

  lemma {:induction false} HalfDecides(box: Box, splitsLat: bool, high: bool, lng: real, lat: real)
    requires WORLD.latLo <= box.latLo < box.latHi <= WORLD.latHi && WORLD.lngLo <= box.lngLo < box.lngHi <= WORLD.lngHi
    ensures Contains(Half(box, splitsLat, high), lng, lat) <==>
      Contains(box, lng, lat) && IsHigh(box, splitsLat, lng, lat) == high
  {
  }

  // The cell read back from a geohash contains the point.
  lemma {:induction false} CellContainsPoint(lng: real, lat: real, n: nat)
    ensures IsBase32(Geohash(lng, lat, n)) && Contains(CellOf(Geohash(lng, lat, n)), lng, lat)
  {
    EncodeRoundTrip(Choices(lng, lat), n);
    CellDecidesBits(BitsOf(lng, lat, 5 * n), lng, lat);
  }

  // Every string over the alphabet is the geohash of exactly the points in its cell; one of them is
  // the cell's lower corner.
  lemma {:induction false} StringRoundTrip(s: string, lng: real, lat: real)
    requires IsBase32(s)
    ensures Geohash(lng, lat, |s|) == s <==> Contains(CellOf(s), lng, lat)
    ensures Geohash(CellOf(s).lngLo, CellOf(s).latLo, |s|) == s
  {
    var bits := BitsOfString(s);
    EncodesExactly(Choices(lng, lat), s);
    CellDecidesBits(bits, lng, lat);
    BoxInWorld(bits);
    EncodesExactly(Choices(CellOf(s).lngLo, CellOf(s).latLo), s);
    CellDecidesBits(bits, CellOf(s).lngLo, CellOf(s).latLo);
  }

  // Two points have the same geohash exactly when they lie in the same cell.
  lemma {:induction false} SameGeohashIffSameCell(lng: real, lat: real, lng': real, lat': real, n: nat)
    ensures IsBase32(Geohash(lng, lat, n))
    ensures Geohash(lng', lat', n) == Geohash(lng, lat, n) <==> Contains(CellOf(Geohash(lng, lat, n)), lng', lat')
  {
    EncodeRoundTrip(Choices(lng, lat), n);
    StringRoundTrip(Geohash(lng, lat, n), lng', lat');
  }

  // The cell of the empty string is the whole globe.
  lemma {:induction false} GlobeIsWhole()
    ensures CellOf("") == Box(-90.0, 90.0, -180.0, 180.0)
  {
  }

  // A point east and a little south of the origin: 10010, longitude first, is k.
  lemma {:induction false} KnownGeohash()
    ensures Geohash(1.0, -1.0, 1) == "k"
  {
    KnownBits();
    SpellsK(Choices(1.0, -1.0));
  }

  lemma {:induction false} KnownBits()
    ensures var bit := Choices(1.0, -1.0); bit(0) && !bit(1) && !bit(2) && bit(3) && !bit(4)
  {
    var bit := Choices(1.0, -1.0);
    assert BoxAt(1.0, -1.0, 0) == Box(-90.0, 90.0, -180.0, 180.0);
    NextBox(1.0, -1.0, 0);
    assert BoxAt(1.0, -1.0, 1) == Box(-90.0, 90.0, 0.0, 180.0);
    NextBox(1.0, -1.0, 1);
    assert BoxAt(1.0, -1.0, 2) == Box(-90.0, 0.0, 0.0, 180.0);
    NextBox(1.0, -1.0, 2);
    assert BoxAt(1.0, -1.0, 3) == Box(-90.0, 0.0, 0.0, 90.0);
    NextBox(1.0, -1.0, 3);
    assert BoxAt(1.0, -1.0, 4) == Box(-45.0, 0.0, 0.0, 90.0);
    NextBox(1.0, -1.0, 4);
  }

  // ----- The size of a cell -----

  function Pow2(k: nat): (p: real)
    ensures p > 0.0
  {
    if k == 0 then 1.0 else 2.0 * Pow2(k - 1)
  }

  function Halved(width: real, k: nat): real {
    if k == 0 then width else Halved(width, k - 1) / 2.0
  }

  lemma {:induction false} SplitsLatWhenOdd(k: nat)
    ensures SplitsLat(k) <==> k % 2 == 1
  {
    if k > 0 {
      SplitsLatWhenOdd(k - 1);
    }
  }

  lemma {:induction false} BoxSize(bits: seq<bool>)
    ensures var box := BoxOf(bits);
      && box.lngHi - box.lngLo == Halved(360.0, (|bits| + 1) / 2)
      && box.latHi - box.latLo == Halved(180.0, |bits| / 2)
  {
    if bits != [] {
      SplitsLatWhenOdd(|bits| - 1);
      BoxSize(bits[..|bits| - 1]);
    }
  }

  lemma {:induction false} HalvedIsQuotient(width: real, k: nat)
    ensures Halved(width, k) == width / Pow2(k)
  {
    if k > 0 {
      HalvedIsQuotient(width, k - 1);
      QuotientHalves(width, Pow2(k - 1));
    }
  }

  lemma {:induction false} QuotientHalves(width: real, p: real)
    requires p > 0.0
    ensures (width / p) / 2.0 == width / (2.0 * p)
  {
  }

  // The cell of a geohash of n characters is 360 / 2^ceil(5n/2) wide and 180 / 2^floor(5n/2) high.
  lemma {:induction false} CellSize(lng: real, lat: real, n: nat)
    ensures IsBase32(Geohash(lng, lat, n))
    ensures var box := CellOf(Geohash(lng, lat, n));
      && box.lngHi - box.lngLo == 360.0 / Pow2((5 * n + 1) / 2)
      && box.latHi - box.latLo == 180.0 / Pow2(5 * n / 2)
  {
    EncodeRoundTrip(Choices(lng, lat), n);
    BoxSize(BitsOf(lng, lat, 5 * n));
    HalvedIsQuotient(360.0, (5 * n + 1) / 2);
    HalvedIsQuotient(180.0, 5 * n / 2);
  }
}
