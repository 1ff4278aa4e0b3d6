/**
 What the geohash codec is for: every text names one cell of a grid, decoding lands in that
 cell, encoding finds it again, finer texts extend coarser ones, and the error halves per bit.
 */
module GeohashLaws {
  import opened Text
  import opened Geohash

  /** Points of a range, the far edges of the map belonging to the last range on that side. */
  predicate Spans(r: Range, x: real, edge: real) {
    (r.lo <= x || r.lo == -edge) && (x < r.hi || r.hi == edge)
  }

  predicate Covers(c: Cell, longitude: real, latitude: real) {
    Spans(c.lng, longitude, 180.0) && Spans(c.lat, latitude, 90.0)
  }

  function Pow2(n: nat): (r: real)
    ensures r >= 1.0
  {
    if n == 0 then 1.0 else 2.0 * Pow2(n - 1)
  }

  function Distance(x: real, y: real): real {
    if x < y then y - x else x - y
  }

  // ----- The alphabet -----

  /** Digits and lower-case letters, without a, i, l and o. */
  predicate IsBase32(c: char) {
    '0' <= c <= '9' || ('a' <= c <= 'z' && c !in {'a', 'i', 'l', 'o'})
  }

  /** The place of a base-32 symbol when they are listed in ascending order. */
  function Place(c: char): (k: nat)
    requires IsBase32(c)
    ensures k < 32
  {
    if c <= '9' then (c - '0') as nat
    else
      var skipped := (if c > 'i' then 1 else 0) + (if c > 'l' then 1 else 0) + (if c > 'o' then 1 else 0);
      (c - 'a') as nat + 9 - skipped
  }

  lemma SymbolsAreBase32(v: nat)
    requires v < 32
    ensures IsBase32(Symbol(v)) && Place(Symbol(v)) == v
  {
  }

  lemma PlaceIsSymbol(c: char)
    requires IsBase32(c)
    ensures Symbol(Place(c)) == c
  {
  }

  /** A character is looked up exactly when it is a base-32 symbol, and at its place in ascending order ... */
  lemma AlphabetIsBase32(c: char)
    ensures IndexOf(c) == if IsBase32(c) then Place(c) else -1
  {
    hide Symbol, IndexOf;
    if IsBase32(c) {
      PlaceIsSymbol(c);
      IndexOfSymbol(Place(c));
    } else if IndexOf(c) >= 0 {
      SymbolOfIndex(c);
      SymbolsAreBase32(IndexOf(c));
    }
  }

  /** ... so a text decodes exactly when it is spelt in base 32, in either case. */
  lemma DecodesIffBase32(g: string)
    ensures Decode(g).Some? <==> forall i :: 0 <= i < |g| ==> IsBase32(LowerChar(g[i]))
  {
    hide IndexOf;
    forall i | 0 <= i < |g| ensures IndexOf(ToLower(g)[i]) >= 0 <==> IsBase32(LowerChar(g[i])) {
      AlphabetIsBase32(LowerChar(g[i]));
    }
  }

  // ----- Cells -----

  /** Every cell lies on the map, and the axis to split next alternates. */
  lemma {:induction false} CellBounds(bits: seq<bool>)
    ensures var c := Locate(bits);
      && -180.0 <= c.lng.lo < c.lng.hi <= 180.0 && -90.0 <= c.lat.lo < c.lat.hi <= 90.0
      && c.splitLng == (|bits| % 2 == 0)
  {
    if bits != [] { CellBounds(bits[..|bits| - 1]); }
  }

  /** Doubling the width of r n times gives `size`. */
  predicate Measures(r: Range, n: nat, size: real) {
    (r.hi - r.lo) * Pow2(n) == size
  }

  lemma HalfMeasures(r: Range, upper: bool, n: nat, size: real)
    requires Measures(r, n, size)
    ensures Measures(r.Half(upper), n + 1, size)
  {
    var half := r.Half(upper);
    assert 2.0 * (half.hi - half.lo) == r.hi - r.lo;
    assert (half.hi - half.lo) * (2.0 * Pow2(n)) == (2.0 * (half.hi - half.lo)) * Pow2(n);
  }

  predicate CellMeasures(c: Cell, n: nat) {
    Measures(c.lng, (n + 1) / 2, 360.0) && Measures(c.lat, n / 2, 180.0)
  }

  lemma RefineMeasures(c: Cell, upper: bool, n: nat)
    requires CellMeasures(c, n) && c.splitLng == (n % 2 == 0)
    ensures CellMeasures(c.Refine(upper), n + 1)
  {
    if c.splitLng {
      HalfMeasures(c.lng, upper, (n + 1) / 2, 360.0);
    } else {
      HalfMeasures(c.lat, upper, n / 2, 180.0);
    }
  }

  /** The size of a cell is fixed by the number of bits alone. */
  lemma {:induction false} CellWidth(bits: seq<bool>)
    ensures CellMeasures(Locate(bits), |bits|)
  {
    if bits != [] {
      CellWidth(bits[..|bits| - 1]);
      CellBounds(bits[..|bits| - 1]);
      RefineMeasures(Locate(bits[..|bits| - 1]), bits[|bits| - 1], |bits| - 1);
    }
  }

  lemma RefineSplitsCover(c: Cell, upper: bool, longitude: real, latitude: real)
    requires -180.0 <= c.lng.lo < c.lng.hi <= 180.0 && -90.0 <= c.lat.lo < c.lat.hi <= 90.0
    ensures Covers(c.Refine(upper), longitude, latitude)
       <==> Covers(c, longitude, latitude) && c.Side(longitude, latitude) == upper
  {
  }

  /** A point takes exactly the choices of the cell that covers it. */
  lemma {:induction false} WalkIffCovers(bits: seq<bool>, longitude: real, latitude: real)
    ensures Walk(longitude, latitude, |bits|) == bits <==> Covers(Locate(bits), longitude, latitude)
  {
    if bits != [] {
      var prefix, last := bits[..|bits| - 1], bits[|bits| - 1];
      WalkIffCovers(prefix, longitude, latitude);
      CellBounds(prefix);
      RefineSplitsCover(Locate(prefix), last, longitude, latitude);
      assert Walk(longitude, latitude, |bits|)[..|bits| - 1] == Walk(longitude, latitude, |bits| - 1);
      assert prefix + [last] == bits;
    }
  }

  lemma {:induction false} WalkPrefix(longitude: real, latitude: real, m: nat, n: nat)
    requires m <= n
    ensures Walk(longitude, latitude, n)[..m] == Walk(longitude, latitude, m)
  {
    if m < n {
      WalkPrefix(longitude, latitude, m, n - 1);
      assert Walk(longitude, latitude, n)[..n - 1][..m] == Walk(longitude, latitude, n)[..m];
    }
  }

  lemma {:induction false} CharsOfPrefix(bits: seq<bool>, k: nat)
    requires |bits| % 5 == 0 && 5 * k <= |bits|
    ensures CharsOf(bits)[..k] == CharsOf(bits[..5 * k])
  {
    if 5 * k == |bits| {
      assert bits[..5 * k] == bits;
    } else {
      var init := bits[..|bits| - 5];
      CharsOfPrefix(init, k);
      assert init[..5 * k] == bits[..5 * k];
    }
  }

  // ----- Main results -----

  /** A text of the alphabet is the encoding of a point exactly when its cell covers the point. */
  lemma EncodesIffCovers(g: string, longitude: real, latitude: real)
    requires InAlphabet(g)
    ensures Encode(longitude, latitude, |g|) == g <==> Covers(Locate(BitsOf(g)), longitude, latitude)
  {
    hide Covers, BitsOf, CharsOf, Locate, Walk;
    var walk := Walk(longitude, latitude, 5 * |g|);
    WalkIffCovers(BitsOf(g), longitude, latitude);
    CharsOfBitsOf(g);
    BitsOfCharsOf(walk);
  }

  /** Encoding the centre of a text gives the text back, whatever its length. */
  lemma RoundTrip(g: string)
    ensures Decode(g).Some? <==> InAlphabet(ToLower(g))
    ensures Decode(g).Some? ==> Encode(Decode(g).value.0, Decode(g).value.1, |g|) == ToLower(g)
  {
    if Decode(g).Some? {
      CellBounds(BitsOf(ToLower(g)));
      EncodesIffCovers(ToLower(g), Decode(g).value.0, Decode(g).value.1);
    }
  }

  lemma {:induction false} SymbolsAreLower(v: nat)
    requires v < 32
    ensures LowerChar(Symbol(v)) == Symbol(v)
  {
    if v > 10 {
      AlphabetIncreases(10, v);
    } else if v < 10 {
      AlphabetIncreases(v, 10);
    }
  }

  lemma {:induction false} EncodedIsLower(bits: seq<bool>)
    requires |bits| % 5 == 0
    ensures ToLower(CharsOf(bits)) == CharsOf(bits)
  {
    if bits != [] {
      EncodedIsLower(bits[..|bits| - 5]);
      UnpackPack(bits[|bits| - 5..]);
      SymbolsAreLower(Pack(bits[|bits| - 5..]));
    }
  }

  /** Decoding an encoded point always succeeds and yields the centre of the cell it walked to. */
  lemma DecodeEncode(longitude: real, latitude: real, precision: nat)
    ensures Decode(Encode(longitude, latitude, precision))
         == Some(Locate(Walk(longitude, latitude, 5 * precision)).Center())
    ensures |Encode(longitude, latitude, precision)| == precision
  {
    hide Locate, Walk, CharsOf, BitsOf, InAlphabet, ToLower, LowerChar;
    var walk := Walk(longitude, latitude, 5 * precision);
    assert Encode(longitude, latitude, precision) == CharsOf(walk);
    EncodedIsLower(walk);
    BitsOfCharsOf(walk);
  }

  lemma CentreDistance(r: Range, x: real, edge: real, n: nat)
    requires -edge <= r.lo < r.hi <= edge && Spans(r, x, edge)
    requires Measures(r, n, 2.0 * edge)
    ensures Distance(r.Mid(), x) <= edge / Pow2(n) <==> -edge <= x <= edge
  {
    var size := Pow2(n);
    var half := (r.hi - r.lo) / 2.0;
    assert half * size == edge;
    assert half == edge / size;
  }

  lemma CellError(longitude: real, latitude: real, n: nat)
    ensures var centre := Locate(Walk(longitude, latitude, n)).Center();
      && (Distance(centre.0, longitude) <= 180.0 / Pow2((n + 1) / 2) <==> -180.0 <= longitude <= 180.0)
      && (Distance(centre.1, latitude) <= 90.0 / Pow2(n / 2) <==> -90.0 <= latitude <= 90.0)
  {
    var bits := Walk(longitude, latitude, n);
    WalkIffCovers(bits, longitude, latitude);
    CellBounds(bits);
    CellWidth(bits);
    CentreDistance(Locate(bits).lng, longitude, 180.0, (n + 1) / 2);
    CentreDistance(Locate(bits).lat, latitude, 90.0, n / 2);
  }

  /** The error bound: half a cell on each axis, met exactly by the coordinates that are on the map. */
  lemma ErrorBound(longitude: real, latitude: real, precision: nat)
    ensures var decoded := Decode(Encode(longitude, latitude, precision));
      && decoded.Some?
      && (Distance(decoded.value.0, longitude) <= 180.0 / Pow2((5 * precision + 1) / 2)
          <==> -180.0 <= longitude <= 180.0)
      && (Distance(decoded.value.1, latitude) <= 90.0 / Pow2(5 * precision / 2) <==> -90.0 <= latitude <= 90.0)
  {
    hide Encode, Decode, Locate, Pow2, Walk;
    DecodeEncode(longitude, latitude, precision);
    CellError(longitude, latitude, 5 * precision);
  }

  /** A coarser encoding of a point is a prefix of every finer one. */
  lemma CoarserIsPrefix(longitude: real, latitude: real, p: int, q: int)
    requires p <= q
    ensures Encode(longitude, latitude, p) <= Encode(longitude, latitude, q)
  {
    hide CharsOf, Walk;
    if p > 0 {
      WalkPrefix(longitude, latitude, 5 * p, 5 * q);
      CharsOfPrefix(Walk(longitude, latitude, 5 * q), p);
    }
  }

  /** Snapping a point to the centre of its fine cell never moves it to another coarse cell. */
  lemma SnappingKeepsCoarserText(longitude: real, latitude: real, p: int, q: nat)
    requires p <= q
    ensures var fine := Decode(Encode(longitude, latitude, q));
      fine.Some? && Encode(fine.value.0, fine.value.1, p) == Encode(longitude, latitude, p)
  {
    var text := Encode(longitude, latitude, q);
    DecodeEncode(longitude, latitude, q);
    EncodedIsLower(Walk(longitude, latitude, 5 * q));
    RoundTrip(text);
    var centre := Decode(text).value;
    assert Encode(centre.0, centre.1, q) == text;
    CoarserIsPrefix(longitude, latitude, p, q);
    CoarserIsPrefix(centre.0, centre.1, p, q);
    assert |Encode(centre.0, centre.1, p)| == |Encode(longitude, latitude, p)|;
  }
}
