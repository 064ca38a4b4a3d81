/** T and H modes: how the encoder hides them in words whose differential colours overflow, and
    that the decoder gets back exactly what was hidden. */
module ThWords {
  import opened Words
  import opened Pixels
  import opened ThSearch
  import opened IndexBits
  import opened Decoder

  /** The padding rule both modes share: with the two stored bits a, b of one colour and c, d of
      the difference, pad with ones for abcd = 0111, 1010, 1011, 1101, 1110, 1111. */
  function PadWithOnes(a: bv32, b: bv32, c: bv32, d: bv32): bv32 {
    (a & c) | ((1 - a) & b & c & d) | (a & b & (1 - c) & d)
  }

  // ---------- T mode ----------

  /** compressed1 of a T block: four nibbles of red, green, blue each and three distance bits. */
  function TBits(r0: bv32, g0: bv32, b0: bv32, r1: bv32, g1: bv32, b1: bv32, dist: bv32): bv32 {
    ((r0 & 0xF) << 23) | ((g0 & 0xF) << 19) | (b0 << 15) | (r1 << 11) | (g1 << 7) | (b1 << 3) | (dist & 0x7)
  }

  function PackT(q0: Rgb444, q1: Rgb444, dist: nat): bv32
    requires dist < 256
  {
    TBits(B32(q0.r), B32(q0.g), B32(q0.b), B32(q1.r), B32(q1.g), B32(q1.b), B32(dist))
  }

  /** stuff59bits: spreads the fields out, makes red overflow, sets the differential bit. */
  function Stuff59(w: bv32): bv32 {
    var r0a := (w >> 25) & 0x3;
    var middle := ((w << 1) & !(0x3 << 27)) | ((r0a & 0x3) << 27);
    var x := (middle & !0x1) | (w & 0x1);
    var bit := PadWithOnes((x >> 28) & 0x1, (x >> 27) & 0x1, (x >> 25) & 0x1, (x >> 24) & 0x1);
    var bits := 0xF * bit;
    var padded := (x & !(0x7 << 29)) | ((bits & 0x7) << 29);
    var red := (padded & !(0x1 << 26)) | ((1 - bit) << 26);
    (red & !0x2) | 0x2
  }

  /** Whatever the searched bits are, red overflows. */
  lemma Stuff59IsT(w: bv32)
    ensures ModeOf(Stuff59(w)) == ModeT
  {
  }

  lemma TFields(r0: bv32, g0: bv32, b0: bv32, r1: bv32, g1: bv32, b1: bv32, dist: bv32)
    requires r0 < 16 && g0 < 16 && b0 < 16 && r1 < 16 && g1 < 16 && b1 < 16
    ensures var lo := Stuff59(TBits(r0, g0, b0, r1, g1, b1, dist));
            && TRed0(lo) == Twice4(r0)
            && (lo >> 20) & 0xF == g0
            && (lo >> 16) & 0xF == b0
            && (lo >> 12) & 0xF == r1
            && (lo >> 8) & 0xF == g1
            && (lo >> 4) & 0xF == b1
            && TCodeword(lo) == dist & 0x7
  {
  }

  // ---------- H mode ----------

  /** compressed1 of an H block: six nibbles and the upper two distance bits. */
  function HBits(r0: bv32, g0: bv32, b0: bv32, r1: bv32, g1: bv32, b1: bv32, dist: bv32): bv32 {
    ((r0 & 0xF) << 22) | ((g0 & 0xF) << 18) | ((b0 & 0xF) << 14)
    | ((r1 & 0xF) << 10) | ((g1 & 0xF) << 6) | ((b1 & 0xF) << 2) | ((dist >> 1) & 0x3)
  }

  function PackH(q0: Rgb444, q1: Rgb444, dist: nat): bv32
    requires dist < 256
  {
    HBits(B32(q0.r), B32(q0.g), B32(q0.b), B32(q1.r), B32(q1.g), B32(q1.b), B32(dist))
  }

  /** stuff58bits: keeps red in range, makes green overflow, sets the differential bit. */
  function Stuff58(w: bv32): bv32 {
    var part0 := (w >> 19) & 0x7F;
    var part1 := (w >> 17) & 0x3;
    var part2 := (w >> 1) & 0xFFFF;
    var part3 := w & 0x1;
    var parts := (part0 << 24) | (part1 << 19) | (part2 << 2) | part3;
    var top := (parts >> 30) & 0x1;
    var x := (parts & !(0x1 << 31)) | ((1 - top) << 31);
    var bit := PadWithOnes((x >> 20) & 0x1, (x >> 19) & 0x1, (x >> 17) & 0x1, (x >> 16) & 0x1);
    var bits := 0xF * bit;
    var padded := (x & !(0x7 << 21)) | ((bits & 0x7) << 21);
    var green := (padded & !(0x1 << 18)) | ((1 - bit) << 18);
    (green & !0x2) | 0x2
  }

  /** Whatever the searched bits are, red stays in range and green overflows. */
  lemma Stuff58IsH(w: bv32)
    ensures ModeOf(Stuff58(w)) == ModeH
  {
  }

  /** The two colours as the twelve-bit numbers whose order carries the lowest distance bit. */
  function PackedBits(r: bv32, g: bv32, b: bv32): bv32 {
    (r << 8) | (g << 4) | b
  }

  /** The distance bits that are stored, in their place. */
  function UpperTwo(dist: bv32): bv32 {
    ((dist >> 1) & 0x3) << 1
  }

  lemma HFields(r0: bv32, g0: bv32, b0: bv32, r1: bv32, g1: bv32, b1: bv32, dist: bv32)
    requires r0 < 16 && g0 < 16 && b0 < 16 && r1 < 16 && g1 < 16 && b1 < 16
    ensures var lo := Stuff58(HBits(r0, g0, b0, r1, g1, b1, dist));
            && HRed0(lo) == r0 && HGreen0(lo) == g0 && HBlue0(lo) == b0
            && (lo >> 11) & 0xF == r1
            && (lo >> 7) & 0xF == g1
            && (lo >> 3) & 0xF == b1
  {
  }

  lemma HOrderFields(r0: bv32, g0: bv32, b0: bv32, r1: bv32, g1: bv32, b1: bv32, dist: bv32)
    requires r0 < 16 && g0 < 16 && b0 < 16 && r1 < 16 && g1 < 16 && b1 < 16
    ensures var lo := Stuff58(HBits(r0, g0, b0, r1, g1, b1, dist));
            && HPacked1(lo) == PackedBits(r1, g1, b1)
            && HHighBits(lo) == UpperTwo(dist)
  {
  }

  lemma HPackedFields(r0: bv32, g0: bv32, b0: bv32, r1: bv32, g1: bv32, b1: bv32, dist: bv32)
    requires r0 < 16 && g0 < 16 && b0 < 16 && r1 < 16 && g1 < 16 && b1 < 16
    ensures HPacked0(Stuff58(HBits(r0, g0, b0, r1, g1, b1, dist))) == PackedBits(r0, g0, b0)
  {
    hide Stuff58, HBits, HRed0, HGreen0, HBlue0;
    HFields(r0, g0, b0, r1, g1, b1, dist);
  }

  // ---------- from words back to colours ----------

  lemma Twice4Value(x: bv32)
    requires x < 16
    ensures Twice4(x) < 256 && Twice4(x) as int == 17 * (x as int)
  {
  }

  lemma NibbleByte(q: nib)
    ensures B32(q) < 16
    ensures Twice4(B32(q)) < 256 && ToByte(Twice4(B32(q))) == 16 * q + q
  {
    WordLess(q, 16);
    WordToInt(q);
    Twice4Value(B32(q));
  }

  lemma NibblesDecompress(q: Rgb444)
    ensures B32(q.r) < 16 && B32(q.g) < 16 && B32(q.b) < 16
    ensures Twice4(B32(q.r)) < 256 && Twice4(B32(q.g)) < 256 && Twice4(B32(q.b)) < 256
    ensures RgbOf(Twice4(B32(q.r)), Twice4(B32(q.g)), Twice4(B32(q.b))) == Decompress(q)
  {
    hide B32, Twice4, ToByte;
    NibbleByte(q.r);
    NibbleByte(q.g);
    NibbleByte(q.b);
  }

  lemma ShiftIsBrightenOrDarken(c: Rgb, t: int)
    requires 0 <= t
    ensures Shifted(c, t) == Brighter(c, t) && Shifted(c, -t) == Darker(c, t)
  {
  }

  lemma LowThreeBits(dist: nat)
    requires dist < 8
    ensures B32(dist) & 0x7 == B32(dist) && B32(dist) < 8 && CodewordOf(B32(dist)) == dist
  {
    WordLess(dist, 8);
    WordToInt(dist);
  }

  lemma TPaletteIsPaints(q0: Rgb444, q1: Rgb444, dist: nat)
    requires dist < 8
    ensures CodewordOf(TCodeword(Stuff59(PackT(q0, q1, dist)))) == dist
    ensures TPalette(Stuff59(PackT(q0, q1, dist))) == Paints(true, q0, q1, dist)
  {
    hide Stuff59, TBits, B32, Twice4, RgbOf, Decompress, TRed0, TCodeword, Shifted, Brighter, Darker, TableTH,
         CodewordOf;
    NibblesDecompress(q0);
    NibblesDecompress(q1);
    LowThreeBits(dist);
    TFields(B32(q0.r), B32(q0.g), B32(q0.b), B32(q1.r), B32(q1.g), B32(q1.b), B32(dist));
    ShiftIsBrightenOrDarken(Decompress(q1), TableTH(dist));
  }

  lemma IndexRoundTrip(w: bv32, p: nat)
    requires p < 16
    ensures IndexOf(Converted(w, 16), p) == ChosenOf(w, p)
  {
    hide Converted, StoredIndex, ChosenIndex;
    ConversionKeepsIndices(w, p);
  }

  /** The index of buffer pixel p in a search's index word, as a number. */
  function ChosenOf(w: bv32, p: nat): (k: nat)
    requires p < 16
    ensures k < 4
  {
    ChosenIndex(w, p) as int
  }

  /** T mode undoes itself: for any quantised colours, distance and indices the word is read as a
      T word and every pixel gets the paint colour chosen for it. */
  lemma TModeRoundTrip(q0: Rgb444, q1: Rgb444, dist: nat, w: bv32, i: nat, j: nat)
    requires dist < 8 && i < 4 && j < 4
    ensures var lo := Stuff59(PackT(q0, q1, dist));
            && ModeOf(lo) == ModeT
            && DecodedPixel(lo, Converted(w, 16), i, j)
               == Opaque(Paints(true, q0, q1, dist)[ChosenOf(w, 4 * i + j)])
  {
    hide Stuff59, PackT, Paints, TPalette, IndexOf, ChosenOf, Converted, ModeOf;
    Stuff59IsT(PackT(q0, q1, dist));
    TPaletteIsPaints(q0, q1, dist);
    IndexRoundTrip(w, 4 * i + j);
  }

  // ---------- H mode: the parity carried by the order of the colours ----------

  /** bestRGB444ColPacked. */
  function Packed(q: Rgb444): nat {
    q.r * 256 + q.g * 16 + q.b
  }

  /** The encoder swaps the colours when their order does not show the parity of the distance. */
  predicate MustSwap(q0: Rgb444, q1: Rgb444, dist: nat) {
    (Packed(q0) >= Packed(q1)) != (dist % 2 == 1)
  }

  /** Exchanges the indices of the two base colours: 0 with 2 and 1 with 3. */
  function FlipIndices(w: bv32): bv32 {
    (0x5555_5555 & w) | (0xAAAA_AAAA & !w)
  }

  function HWord(q0: Rgb444, q1: Rgb444, dist: nat): bv32
    requires dist < 256
  {
    Stuff58(if MustSwap(q0, q1, dist) then PackH(q1, q0, dist) else PackH(q0, q1, dist))
  }

  function HIndices(q0: Rgb444, q1: Rgb444, dist: nat, w: bv32): bv32 {
    Converted(if MustSwap(q0, q1, dist) then FlipIndices(w) else w, 16)
  }

  /** The order of two colours, red first, as the hidden parity bit sees it. */
  predicate LexNotBelow(r0: bv32, g0: bv32, b0: bv32, r1: bv32, g1: bv32, b1: bv32) {
    Above(r0, r1) || (r0 == r1 && (Above(g0, g1) || (g0 == g1 && !Above(b1, b0))))
  }

  predicate Above(x: bv32, y: bv32) { x > y }

  lemma OrderByHighNibbles(x: bv32, u: bv32, y: bv32, v: bv32)
    requires x < 256 && y < 256 && u < 16 && v < 16
    ensures NotBelow((x << 4) | u, (y << 4) | v) == (Above(x, y) || (x == y && !Above(v, u)))
  {
  }

  lemma PairOrder(x: bv32, u: bv32, y: bv32, v: bv32)
    requires x < 16 && y < 16 && u < 16 && v < 16
    ensures Above((x << 4) | u, (y << 4) | v) == (Above(x, y) || (x == y && Above(u, v)))
    ensures ((x << 4) | u == (y << 4) | v) == (x == y && u == v)
    ensures (x << 4) | u < 256 && (y << 4) | v < 256
  {
  }

  lemma PackedInTwoSteps(r: bv32, g: bv32, b: bv32)
    ensures PackedBits(r, g, b) == (((r << 4) | g) << 4) | b
  {
  }

  lemma PackedOrderBits(r0: bv32, g0: bv32, b0: bv32, r1: bv32, g1: bv32, b1: bv32)
    requires r0 < 16 && g0 < 16 && b0 < 16 && r1 < 16 && g1 < 16 && b1 < 16
    ensures NotBelow(PackedBits(r0, g0, b0), PackedBits(r1, g1, b1)) == LexNotBelow(r0, g0, b0, r1, g1, b1)
  {
    hide NotBelow, Above, PackedBits;
    PackedInTwoSteps(r0, g0, b0);
    PackedInTwoSteps(r1, g1, b1);
    PairOrder(r0, g0, r1, g1);
    OrderByHighNibbles((r0 << 4) | g0, b0, (r1 << 4) | g1, b1);
  }

  lemma NibbleOrder(x: nib, y: nib)
    ensures Above(B32(x), B32(y)) == (x > y)
    ensures (B32(x) == B32(y)) == (x == y)
  {
    if x > y {
      WordLess(y, x);
    } else if x < y {
      WordLess(x, y);
    }
  }

  lemma LexIsPackedOrder(q0: Rgb444, q1: Rgb444)
    ensures LexNotBelow(B32(q0.r), B32(q0.g), B32(q0.b), B32(q1.r), B32(q1.g), B32(q1.b))
            == (Packed(q0) >= Packed(q1))
  {
    hide B32, Above;
    NibbleOrder(q0.r, q1.r);
    NibbleOrder(q0.g, q1.g);
    NibbleOrder(q0.b, q1.b);
    NibbleOrder(q1.b, q0.b);
  }

  /** The order of the packed numbers is the order of the stored words. */
  lemma PackedOrder(q0: Rgb444, q1: Rgb444)
    ensures NotBelow(PackedBits(B32(q0.r), B32(q0.g), B32(q0.b)), PackedBits(B32(q1.r), B32(q1.g), B32(q1.b)))
            == (Packed(q0) >= Packed(q1))
  {
    hide PackedBits, B32, NotBelow, LexNotBelow, Packed, Twice4, RgbOf;
    NibblesDecompress(q0);
    NibblesDecompress(q1);
    PackedOrderBits(B32(q0.r), B32(q0.g), B32(q0.b), B32(q1.r), B32(q1.g), B32(q1.b));
    LexIsPackedOrder(q0, q1);
  }

  lemma PackedInjective(q0: Rgb444, q1: Rgb444)
    ensures Packed(q0) == Packed(q1) <==> q0 == q1
  {
    if Packed(q0) == Packed(q1) {
      assert q0.r == q1.r;
      assert q0.g == q1.g;
    }
  }

  lemma DistanceParts(dist: nat)
    requires dist < 8
    ensures var h := UpperTwo(B32(dist));
            && h | 0 < 8 && h | 1 < 8
            && CodewordOf(h | 0) == 2 * (dist / 2) && CodewordOf(h | 1) == 2 * (dist / 2) + 1
  {
    if dist == 0 {
    } else if dist == 1 {
    } else if dist == 2 {
    } else if dist == 3 {
    } else if dist == 4 {
    } else if dist == 5 {
    } else if dist == 6 {
    } else {
    }
  }

  /** The distance the decoder reads from a stored pair of colours: the upper bits as stored, the
      lowest from the order of the colours. */
  lemma HDistance(q0: Rgb444, q1: Rgb444, dist: nat)
    requires dist < 8
    ensures CodewordOf(HCodeword(Stuff58(PackH(q0, q1, dist))))
            == 2 * (dist / 2) + (if Packed(q0) >= Packed(q1) then 1 else 0)
  {
    hide Stuff58, HBits, B32, PackedBits, HPacked0, HPacked1, HHighBits, NotBelow, UpperTwo, Twice4, RgbOf, Packed,
         CodewordOf;
    NibblesDecompress(q0);
    NibblesDecompress(q1);
    HPackedFields(B32(q0.r), B32(q0.g), B32(q0.b), B32(q1.r), B32(q1.g), B32(q1.b), B32(dist));
    HOrderFields(B32(q0.r), B32(q0.g), B32(q0.b), B32(q1.r), B32(q1.g), B32(q1.b), B32(dist));
    PackedOrder(q0, q1);
    DistanceParts(dist);
  }

  lemma HPaletteOf(q0: Rgb444, q1: Rgb444, dist: nat, stored: nat)
    requires dist < 8 && stored < 8
    requires CodewordOf(HCodeword(Stuff58(PackH(q0, q1, dist)))) == stored
    ensures HPalette(Stuff58(PackH(q0, q1, dist))) == Paints(false, q0, q1, stored)
  {
    hide Stuff58, HBits, B32, Twice4, RgbOf, Decompress, HRed0, HGreen0, HBlue0, HCodeword, Shifted, Brighter,
         Darker, TableTH, CodewordOf;
    NibblesDecompress(q0);
    NibblesDecompress(q1);
    HFields(B32(q0.r), B32(q0.g), B32(q0.b), B32(q1.r), B32(q1.g), B32(q1.b), B32(dist));
    ShiftIsBrightenOrDarken(Decompress(q0), TableTH(stored));
    ShiftIsBrightenOrDarken(Decompress(q1), TableTH(stored));
  }

  /** The distance read back is the one searched exactly when the colours differ or the distance
      is odd; the parity by order trick has no way to show an even distance of equal colours. */
  lemma HDistanceExact(q0: Rgb444, q1: Rgb444, dist: nat)
    requires dist < 8
    ensures var d := CodewordOf(HCodeword(HWord(q0, q1, dist)));
            && d == (if q0 == q1 then 2 * (dist / 2) + 1 else dist)
            && (d == dist <==> q0 != q1 || dist % 2 == 1)
  {
    hide HCodeword, CodewordOf, Stuff58, PackH, Packed;
    PackedInjective(q0, q1);
    if MustSwap(q0, q1, dist) {
      HDistance(q1, q0, dist);
    } else {
      HDistance(q0, q1, dist);
    }
  }

  lemma FlipPairAt(w: bv32, s: bv5)
    requires s & 1 == 0
    ensures (((FlipIndices(w) >> (s + 1)) & 1) << 1) | ((FlipIndices(w) >> s) & 1)
            == ((((w >> (s + 1)) & 1) << 1) | ((w >> s) & 1)) ^ 2
    ensures (((w >> (s + 1)) & 1) << 1) | ((w >> s) & 1) < 4
  {
  }

  lemma {:induction false} EvenShift(m: nat)
    requires m < 16
    ensures ((2 * m) as bv5) & 1 == 0 && ((2 * m + 1) as bv5) == ((2 * m) as bv5) + 1
  {
    NextShift(2 * m);
    if m > 0 {
      EvenShift(m - 1);
      NextShift(2 * m - 1);
      TwoOn((2 * m - 2) as bv5);
    }
  }

  lemma TwoOn(b: bv5)
    requires b & 1 == 0
    ensures (b + 1 + 1) & 1 == 0
  {
  }

  lemma FlipChosen(w: bv32, p: nat)
    requires p < 16
    ensures ChosenIndex(w, p) < 4 && ChosenIndex(FlipIndices(w), p) == ChosenIndex(w, p) ^ 2
  {
    hide FlipIndices;
    EvenShift(15 - Scan(p));
    FlipPairAt(w, Slot(p) as bv5);
  }

  lemma XorTwo(k: bv32)
    requires k < 4
    ensures k ^ 2 < 4 && (k ^ 2) as int == (k as int + 2) % 4
  {
    if k == 0 {
    } else if k == 1 {
    } else if k == 2 {
    } else {
    }
  }

  lemma FlipChosenOf(w: bv32, p: nat)
    requires p < 16
    ensures ChosenOf(FlipIndices(w), p) == (ChosenOf(w, p) + 2) % 4
  {
    hide FlipIndices, ChosenIndex;
    FlipChosen(w, p);
    XorTwo(ChosenIndex(w, p));
  }

  lemma SameIndexBits(a: bv32, b: bv32, c: bv32, d: bv32)
    requires a <= 1 && b <= 1 && c <= 1 && d <= 1 && (a << 1) | b == (c << 1) | d
    ensures a == c && b == d
  {
  }

  lemma SameIndexWord(x: bv32, y: bv32)
    requires x < 4 && y < 4 && x as int == y as int
    ensures x == y
  {
  }

  lemma ChosenIndexBelowFour(w: bv32, p: nat)
    requires p < 16
    ensures ChosenIndex(w, p) < 4
  {
    hide Bit;
    BitIsBit(w, Slot(p));
    BitIsBit(w, Slot(p) + 1);
  }

  /** Words that give every pixel the same index are the same. */
  lemma IndicesDecide(w1: bv32, w2: bv32)
    requires forall p :: 0 <= p < 16 ==> ChosenOf(w1, p) == ChosenOf(w2, p)
    ensures w1 == w2
  {
    hide Bit, ChosenIndex, Slot;
    forall k: nat | k < 32 ensures Bit(w1, k) == Bit(w2, k) {
      var p := Scan(15 - k / 2);
      PixelOfSlot(k);
      ChosenIndexBelowFour(w1, p);
      ChosenIndexBelowFour(w2, p);
      assert ChosenOf(w1, p) == ChosenOf(w2, p);
      SameIndexWord(ChosenIndex(w1, p), ChosenIndex(w2, p));
      IndexBitsSame(w1, w2, p);
    }
    SameBits(w1, w2);
  }

  lemma PixelOfSlot(k: nat)
    requires k < 32
    ensures var p := Scan(15 - k / 2); k == Slot(p) || k == Slot(p) + 1
  {
    ScanIsAnInvolution(15 - k / 2);
  }

  lemma IndexBitsSame(w1: bv32, w2: bv32, p: nat)
    requires p < 16 && ChosenIndex(w1, p) == ChosenIndex(w2, p)
    ensures Bit(w1, Slot(p)) == Bit(w2, Slot(p)) && Bit(w1, Slot(p) + 1) == Bit(w2, Slot(p) + 1)
  {
    hide Bit, Slot;
    BitIsBit(w1, Slot(p));
    BitIsBit(w2, Slot(p));
    BitIsBit(w1, Slot(p) + 1);
    BitIsBit(w2, Slot(p) + 1);
    SameIndexBits(Bit(w1, Slot(p) + 1), Bit(w1, Slot(p)), Bit(w2, Slot(p) + 1), Bit(w2, Slot(p)));
  }

  lemma SwappedPaints(q0: Rgb444, q1: Rgb444, dist: nat, k: nat)
    requires dist < 8 && k < 4
    ensures Paints(false, q1, q0, dist)[(k + 2) % 4] == Paints(false, q0, q1, dist)[k]
  {
  }

  /** H mode undoes itself: for any quantised colours that differ, or any odd distance, the word
      is read as an H word, the full distance comes back from the order of the colours, and every
      pixel gets the paint colour chosen for it, although the encoder may have swapped the colours
      and all the indices. */
  lemma HModeRoundTrip(q0: Rgb444, q1: Rgb444, dist: nat, w: bv32, i: nat, j: nat)
    requires dist < 8 && i < 4 && j < 4
    requires q0 != q1 || dist % 2 == 1
    ensures var lo := HWord(q0, q1, dist);
            && ModeOf(lo) == ModeH
            && CodewordOf(HCodeword(lo)) == dist
            && DecodedPixel(lo, HIndices(q0, q1, dist, w), i, j)
               == Opaque(Paints(false, q0, q1, dist)[ChosenOf(w, 4 * i + j)])
  {
    hide Stuff58, PackH, Paints, HPalette, IndexOf, ChosenOf, Converted, ModeOf, FlipIndices, HCodeword, CodewordOf,
         MustSwap;
    HDistanceExact(q0, q1, dist);
    if MustSwap(q0, q1, dist) {
      Stuff58IsH(PackH(q1, q0, dist));
      HPaletteOf(q1, q0, dist, dist);
      IndexRoundTrip(FlipIndices(w), 4 * i + j);
      FlipChosenOf(w, 4 * i + j);
      SwappedPaints(q0, q1, dist, ChosenOf(w, 4 * i + j));
    } else {
      Stuff58IsH(PackH(q0, q1, dist));
      HPaletteOf(q0, q1, dist, dist);
      IndexRoundTrip(w, 4 * i + j);
    }
  }
}
