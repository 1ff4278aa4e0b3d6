/**
 The geohash codec of the map preview: two loops that bisect longitude and latitude in
 turn and pack five bits into each character.
 */
module Geohash {
  import opened Sequences
  import opened Text

  const ALPHABET: string := "0123456789bcdefghjkmnpqrstuvwxyz"
  const MASKS: seq<nat> := [16, 8, 4, 2, 1]

  datatype Range = Range(lo: real, hi: real) {
    function Mid(): real { (lo + hi) / 2.0 }
    function Half(upper: bool): Range { if upper then Range(Mid(), hi) else Range(lo, Mid()) }
  }

  /** The part of the map the bits read so far leave open, and the axis to split next. */
  datatype Cell = Cell(lng: Range, lat: Range, splitLng: bool) {
    function Refine(upper: bool): Cell {
      if splitLng then Cell(lng.Half(upper), lat, false) else Cell(lng, lat.Half(upper), true)
    }
    function Side(longitude: real, latitude: real): bool {
      if splitLng then longitude >= lng.Mid() else latitude >= lat.Mid()
    }
    function Center(): (real, real) { (lng.Mid(), lat.Mid()) }
  }

  const WORLD := Cell(Range(-180.0, 180.0), Range(-90.0, 90.0), true)

  /** The cell a sequence of bits selects, coarsest bit first. */
  function Locate(bits: seq<bool>): Cell {
    if bits == [] then WORLD else Locate(bits[..|bits| - 1]).Refine(bits[|bits| - 1])
  }

  lemma LocateStep(bits: seq<bool>, bit: bool)
    ensures Locate(bits + [bit]) == Locate(bits).Refine(bit)
  {
    assert (bits + [bit])[..|bits|] == bits;
  }

  /** The first n bisection choices of a point. */
  function Walk(longitude: real, latitude: real, n: nat): (bits: seq<bool>)
    ensures |bits| == n
  {
    if n == 0 then [] else
      var prefix := Walk(longitude, latitude, n - 1);
      prefix + [Locate(prefix).Side(longitude, latitude)]
  }

  // ----- Characters and bits -----

  function Digit(bit: bool): nat {
    if bit then 1 else 0
  }

  /** The number whose binary digits are the given bits. */
  function Pack(bits: seq<bool>): nat {
    if bits == [] then 0 else 2 * Pack(bits[..|bits| - 1]) + Digit(bits[|bits| - 1])
  }

  /** `value & mask` for the five one-bit masks. */
  predicate HasBit(value: nat, mask: nat) {
    if mask == 16 then value / 16 % 2 == 1
    else if mask == 8 then value / 8 % 2 == 1
    else if mask == 4 then value / 4 % 2 == 1
    else if mask == 2 then value / 2 % 2 == 1
    else value % 2 == 1
  }

  /** The bits of a character value in the order the decoder reads them. */
  function Unpack(value: nat): (bits: seq<bool>)
    ensures |bits| == 5
  {
    [HasBit(value, 16), HasBit(value, 8), HasBit(value, 4), HasBit(value, 2), HasBit(value, 1)]
  }

  lemma PackStep(bits: seq<bool>, k: nat)
    requires k < |bits|
    ensures Pack(bits[..k + 1]) == 2 * Pack(bits[..k]) + Digit(bits[k])
  {
    assert bits[..k + 1][..k] == bits[..k];
  }

  lemma Digits(v: nat, b0: nat, b1: nat, b2: nat, b3: nat, b4: nat)
    requires b0 < 2 && b1 < 2 && b2 < 2 && b3 < 2 && b4 < 2
    requires v == 16 * b0 + 8 * b1 + 4 * b2 + 2 * b3 + b4
    ensures v < 32
    ensures v / 16 % 2 == b0 && v / 8 % 2 == b1 && v / 4 % 2 == b2 && v / 2 % 2 == b3 && v % 2 == b4
  {
  }

  lemma PackDigits(bits: seq<bool>)
    requires |bits| == 5
    ensures Pack(bits)
         == 16 * Digit(bits[0]) + 8 * Digit(bits[1]) + 4 * Digit(bits[2]) + 2 * Digit(bits[3]) + Digit(bits[4])
  {
    PackStep(bits, 0);
    PackStep(bits, 1);
    PackStep(bits, 2);
    PackStep(bits, 3);
    PackStep(bits, 4);
    assert bits[..5] == bits;
  }

  /** Five bits survive being packed into a character value and read mask by mask. */
  lemma UnpackPack(bits: seq<bool>)
    requires |bits| == 5
    ensures Pack(bits) < 32 && Unpack(Pack(bits)) == bits
  {
    PackDigits(bits);
    var v := Pack(bits);
    Digits(v, Digit(bits[0]), Digit(bits[1]), Digit(bits[2]), Digit(bits[3]), Digit(bits[4]));
  }

  /** `geohashBase32.indexOf(character)`, searching from position `from`. */
  function IndexFrom(c: char, from: nat): (r: int)
    requires from <= 32
    ensures r == -1 || from <= r < 32
    decreases 32 - from
  {
    if from == 32 then -1
    else if ALPHABET[from] == c then from
    else IndexFrom(c, from + 1)
  }

  function IndexOf(c: char): (r: int)
    ensures r == -1 || 0 <= r < 32
  {
    IndexFrom(c, 0)
  }

  function Symbol(v: nat): char
    requires v < 32
  {
    ALPHABET[v]
  }

  predicate InAlphabet(g: string) {
    forall i :: 0 <= i < |g| ==> IndexOf(g[i]) >= 0
  }

  lemma {:induction false} IndexFromFinds(c: char, from: nat, k: nat)
    requires from <= k < 32 && ALPHABET[k] == c
    ensures from <= IndexFrom(c, from) <= k
    decreases 32 - from
  {
    if ALPHABET[from] != c { IndexFromFinds(c, from + 1, k); }
  }

  lemma {:induction false} IndexFromIsPosition(c: char, from: nat)
    requires from <= 32
    ensures IndexFrom(c, from) >= 0 ==> ALPHABET[IndexFrom(c, from)] == c
    decreases 32 - from
  {
    if from < 32 && ALPHABET[from] != c { IndexFromIsPosition(c, from + 1); }
  }

  function BitsOf(g: string): (bits: seq<bool>)
    requires InAlphabet(g)
    ensures |bits| == 5 * |g|
  {
    if g == "" then [] else BitsOf(g[..|g| - 1]) + Unpack(IndexOf(g[|g| - 1]))
  }

  function CharsOf(bits: seq<bool>): (g: string)
    requires |bits| % 5 == 0
    ensures |g| == |bits| / 5
  {
    if bits == [] then ""
    else
      UnpackPack(bits[|bits| - 5..]);
      CharsOf(bits[..|bits| - 5]) + [Symbol(Pack(bits[|bits| - 5..]))]
  }

  lemma AlphabetIncreases(i: nat, j: nat)
    requires i < j < 32
    ensures ALPHABET[i] < ALPHABET[j]
  {
    if i + 1 < j { AlphabetIncreases(i, j - 1); }
  }

  /** Looking a symbol up gives its position, and every character found is that symbol. */
  lemma IndexOfSymbol(v: nat)
    requires v < 32
    ensures IndexOf(Symbol(v)) == v
  {
    IndexFromFinds(Symbol(v), 0, v);
    IndexFromIsPosition(Symbol(v), 0);
    var r := IndexOf(Symbol(v));
    if r < v { AlphabetIncreases(r, v); }
  }

  lemma SymbolOfIndex(c: char)
    requires IndexOf(c) >= 0
    ensures Symbol(IndexOf(c)) == c
  {
    IndexFromIsPosition(c, 0);
  }

  lemma BinaryExpansion(v: nat)
    requires v < 32
    ensures v == 16 * (v / 16 % 2) + 8 * (v / 8 % 2) + 4 * (v / 4 % 2) + 2 * (v / 2 % 2) + v % 2
  {
  }

  lemma PackUnpack(v: nat)
    requires v < 32
    ensures Pack(Unpack(v)) == v
  {
    var bits := Unpack(v);
    PackDigits(bits);
    BinaryExpansion(v);
    assert Digit(bits[0]) == v / 16 % 2;
    assert Digit(bits[1]) == v / 8 % 2;
    assert Digit(bits[2]) == v / 4 % 2;
    assert Digit(bits[3]) == v / 2 % 2;
    assert Digit(bits[4]) == v % 2;
  }

  lemma CharsOfSnoc(bits: seq<bool>, last: seq<bool>)
    requires |bits| % 5 == 0 && |last| == 5
    ensures Pack(last) < 32 && CharsOf(bits + last) == CharsOf(bits) + [Symbol(Pack(last))]
  {
    UnpackPack(last);
    assert (bits + last)[..|bits|] == bits;
    assert (bits + last)[|bits|..] == last;
  }

  lemma {:induction false} CharsOfBitsOf(g: string)
    requires InAlphabet(g)
    ensures CharsOf(BitsOf(g)) == g
  {
    hide Symbol, IndexOf, Pack, Unpack;
    if g != "" {
      var init, value := g[..|g| - 1], IndexOf(g[|g| - 1]);
      CharsOfBitsOf(init);
      CharsOfSnoc(BitsOf(init), Unpack(value));
      PackUnpack(value);
      SymbolOfIndex(g[|g| - 1]);
      InitAndLast(g);
    }
  }

  lemma BitsOfSnoc(g: string, c: char)
    requires InAlphabet(g) && IndexOf(c) >= 0
    ensures InAlphabet(g + [c]) && BitsOf(g + [c]) == BitsOf(g) + Unpack(IndexOf(c))
  {
    assert (g + [c])[..|g|] == g;
  }

  lemma {:induction false} BitsOfCharsOf(bits: seq<bool>)
    requires |bits| % 5 == 0
    ensures InAlphabet(CharsOf(bits)) && BitsOf(CharsOf(bits)) == bits
  {
    hide Symbol, IndexOf, Pack, Unpack;
    if bits != [] {
      var init, last := bits[..|bits| - 5], bits[|bits| - 5..];
      BitsOfCharsOf(init);
      UnpackPack(last);
      IndexOfSymbol(Pack(last));
      BitsOfSnoc(CharsOf(init), Symbol(Pack(last)));
      assert init + last == bits;
    }
  }

  // ----- The codec as functions -----

  function Decode(geohash: string): Option<(real, real)> {
    var lowered := ToLower(geohash);
    if InAlphabet(lowered) then Some(Locate(BitsOf(lowered)).Center()) else None
  }

  function Encode(longitude: real, latitude: real, precision: int): string {
    if precision <= 0 then "" else CharsOf(Walk(longitude, latitude, 5 * precision))
  }

  // ----- The codec as the client runs it -----

  /** The two range arrays and the parity bit hold the cell that `bits` selects. */
  ghost predicate Holds(longitude: array<real>, latitude: array<real>, evenBit: bool, bits: seq<bool>)
    reads longitude, latitude
  {
    && longitude.Length == 2 && latitude.Length == 2
    && Cell(Range(longitude[0], longitude[1]), Range(latitude[0], latitude[1]), evenBit) == Locate(bits)
  }

  lemma UnpackTake(before: seq<bool>, value: nat, m: nat)
    requires m < 5
    ensures Locate(before + Unpack(value)[..m + 1])
         == Locate(before + Unpack(value)[..m]).Refine(HasBit(value, MASKS[m]))
  {
    assert before + Unpack(value)[..m + 1] == before + Unpack(value)[..m] + [Unpack(value)[m]];
    LocateStep(before + Unpack(value)[..m], Unpack(value)[m]);
  }

  /** The five bisections one character stands for: the decoder's inner loop. */
  method ReadCharacter(longitude: array<real>, latitude: array<real>, evenBit: bool, value: nat,
                       ghost before: seq<bool>)
    returns (even: bool)
    requires longitude != latitude && Holds(longitude, latitude, evenBit, before)
    modifies longitude, latitude
    ensures Holds(longitude, latitude, even, before + Unpack(value))
  {
    even := evenBit;
    assert before + Unpack(value)[..0] == before;
    for m := 0 to 5
      invariant Holds(longitude, latitude, even, before + Unpack(value)[..m])
    {
      UnpackTake(before, value, m);
      if even {
        var midpoint := (longitude[0] + longitude[1]) / 2.0;
        longitude[if HasBit(value, MASKS[m]) then 0 else 1] := midpoint;
      } else {
        var midpoint := (latitude[0] + latitude[1]) / 2.0;
        latitude[if HasBit(value, MASKS[m]) then 0 else 1] := midpoint;
      }
      even := !even;
    }
    assert before + Unpack(value)[..5] == before + Unpack(value);
  }

  lemma NotInAlphabet(g: string, i: nat)
    requires i < |g| && IndexOf(g[i]) < 0
    ensures !InAlphabet(g)
  {
  }

  method DecodeGeohashCenter(geohash: string) returns (center: Option<(real, real)>)
    ensures center == Decode(geohash)
  {
    hide IndexOf, Unpack, ToLower;
    var evenBit := true;
    var latitude := new real[2][-90.0, 90.0];
    var longitude := new real[2][-180.0, 180.0];
    var lowered := ToLower(geohash);
    ghost var done := "";
    for i := 0 to |lowered|
      invariant done == lowered[..i] && InAlphabet(done)
      invariant Holds(longitude, latitude, evenBit, BitsOf(done))
    {
      var value := IndexOf(lowered[i]);
      if value < 0 {
        NotInAlphabet(lowered, i);
        return None;
      }
      evenBit := ReadCharacter(longitude, latitude, evenBit, value, BitsOf(done));
      BitsOfSnoc(done, lowered[i]);
      done := done + [lowered[i]];
    }
    assert done == lowered;
    return Some(((longitude[0] + longitude[1]) / 2.0, (latitude[0] + latitude[1]) / 2.0));
  }

  /** The loop state of the encoder after some choices: `done` spells the finished characters,
      `pending` is packed into the unfinished one. */
  ghost predicate Encoding(longitude: real, latitude: real, done: seq<bool>, pending: seq<bool>, geohash: string,
                           characterValue: nat)
  {
    && |done| % 5 == 0 && |pending| < 5
    && done + pending == Walk(longitude, latitude, |done + pending|)
    && geohash == CharsOf(done)
    && characterValue == Pack(pending)
  }

  lemma PackSnoc(bits: seq<bool>, side: bool)
    ensures Pack(bits + [side]) == 2 * Pack(bits) + Digit(side)
  {
    assert (bits + [side])[..|bits|] == bits;
  }

  lemma WalkSnoc(longitude: real, latitude: real, bits: seq<bool>)
    requires bits == Walk(longitude, latitude, |bits|)
    ensures bits + [Locate(bits).Side(longitude, latitude)] == Walk(longitude, latitude, |bits| + 1)
  {
  }

  /** One more choice extends the unfinished character ... */
  lemma ShiftBit(longitude: real, latitude: real, done: seq<bool>, pending: seq<bool>, geohash: string,
                 characterValue: nat)
    requires Encoding(longitude, latitude, done, pending, geohash, characterValue) && |pending| < 4
    ensures var side := Locate(done + pending).Side(longitude, latitude);
      Encoding(longitude, latitude, done, pending + [side], geohash, 2 * characterValue + Digit(side))
  {
    hide CharsOf;
    var side := Locate(done + pending).Side(longitude, latitude);
    WalkSnoc(longitude, latitude, done + pending);
    AppendSnoc(done, pending, side);
    PackSnoc(pending, side);
  }

  /** ... or completes it. */
  lemma FinishCharacter(longitude: real, latitude: real, done: seq<bool>, pending: seq<bool>, geohash: string,
                        characterValue: nat)
    requires Encoding(longitude, latitude, done, pending, geohash, characterValue) && |pending| == 4
    ensures var side := Locate(done + pending).Side(longitude, latitude);
      var shifted := 2 * characterValue + Digit(side);
      && shifted < 32
      && Encoding(longitude, latitude, done + (pending + [side]), [], geohash + [Symbol(shifted)], 0)
  {
    hide CharsOf, Symbol, Walk;
    var side := Locate(done + pending).Side(longitude, latitude);
    WalkSnoc(longitude, latitude, done + pending);
    AppendSnoc(done, pending, side);
    AppendNothing(done + (pending + [side]));
    PackSnoc(pending, side);
    CharsOfSnoc(done, pending + [side]);
  }

  /** The bisection of one axis, which the encoder's loop body writes out once per axis. */
  method Bisect(range: array<real>, coordinate: real) returns (upper: bool)
    requires range.Length == 2
    modifies range
    ensures upper == (coordinate >= old(Range(range[0], range[1])).Mid())
    ensures Range(range[0], range[1]) == old(Range(range[0], range[1])).Half(upper)
  {
    var midpoint := (range[0] + range[1]) / 2.0;
    upper := coordinate >= midpoint;
    if upper {
      range[0] := midpoint;
    } else {
      range[1] := midpoint;
    }
  }

  lemma EncodingStarts(longitude: real, latitude: real)
    ensures Encoding(longitude, latitude, [], [], "", 0)
  {
  }

  lemma EncodingEnds(longitude: real, latitude: real, done: seq<bool>, geohash: string, precision: int)
    requires Encoding(longitude, latitude, done, [], geohash, 0)
    requires |geohash| >= precision && (|geohash| <= precision || geohash == "")
    ensures geohash == Encode(longitude, latitude, precision)
  {
    AppendNothing(done);
  }

  method EncodeGeohash(longitude: real, latitude: real, precision: int) returns (geohash: string)
    ensures geohash == Encode(longitude, latitude, precision)
  {
    hide Symbol, CharsOf, Pack, Walk;
    EncodingStarts(longitude, latitude);
    geohash := "";
    var bit: nat, characterValue: nat, evenBit := 0, 0, true;
    var latRange := new real[2][-90.0, 90.0];
    var lngRange := new real[2][-180.0, 180.0];
    ghost var done: seq<bool>, pending: seq<bool> := [], [];
    while |geohash| < precision
      invariant Encoding(longitude, latitude, done, pending, geohash, characterValue)
      invariant Holds(lngRange, latRange, evenBit, done + pending)
      invariant bit == |pending|
      invariant |geohash| <= precision || geohash == ""
      invariant |geohash| >= precision ==> bit == 0
      decreases precision - |geohash|, 5 - bit
    {
      ghost var side, value := Locate(done + pending).Side(longitude, latitude), characterValue;
      LocateStep(done + pending, side);
      AppendSnoc(done, pending, side);
      var upper: bool;
      if evenBit {
        upper := Bisect(lngRange, longitude);
      } else {
        upper := Bisect(latRange, latitude);
      }
      characterValue := 2 * characterValue + (if upper then 1 else 0);
      evenBit := !evenBit;
      assert characterValue == 2 * value + Digit(side);
      if bit < 4 {
        ShiftBit(longitude, latitude, done, pending, geohash, value);
      } else {
        FinishCharacter(longitude, latitude, done, pending, geohash, value);
      }
      bit := bit + 1;
      pending := pending + [side];
      if bit == 5 {
        geohash := geohash + [Symbol(characterValue)];
        bit := 0;
        characterValue := 0;
        done, pending := done + pending, [];
        AppendNothing(done);
        assert geohash == CharsOf(done);
      }
    }
    assert pending == [];
    EncodingEnds(longitude, latitude, done, geohash, precision);
  }
}
