/** ETC1 words: the encoder's packing of base colours, tables and selectors (scalar EncodeAverages
    of ProcessRGB.cpp, EncodeSelectors of ProcessCommon.hpp), and that the decoder reads them back.
    A word is built with its colour bytes in reverse order and fixed up at the end. */
module EtcWords {
  import opened Words
  import opened Pixels
  import opened Tables
  import opened IndexBits
  import opened EtcAverages
  import opened EtcFit
  import opened Decoder

  /** Three byte-sized words. */
  datatype Rgb32 = Rgb32(r: bv32, g: bv32, b: bv32)

  /** The colour bytes of layouts 0 and 1: four bits of either colour in each byte. */
  function IndividualBits(idx: bv32, a: Rgb32, b: Rgb32): bv32 {
    (idx << 24)
    | (a.r >> 4) | ((b.r >> 4) << 4)
    | ((a.g >> 4) << 8) | ((b.g >> 4) << 12)
    | ((a.b >> 4) << 16) | ((b.b >> 4) << 20)
  }

  /** Three bits of the difference of two five-bit values that stand in the upper bits of a byte. */
  function DiffBits(x: bv32, y: bv32): bv32 {
    (((x & 0xF8) - (y & 0xF8)) >> 3) & 0x7
  }

  /** The colour bytes of layouts 2 and 3: five bits of the second colour and a difference. */
  function DifferentialBits(idx: bv32, a: Rgb32, b: Rgb32): bv32 {
    BaseAndDelta(idx, Rgb32(TopFive(b.r), TopFive(b.g), TopFive(b.b)),
                 Rgb32(DiffBits(a.r, b.r), DiffBits(a.g, b.g), DiffBits(a.b, b.b)))
  }

  function TopFive(x: bv32): bv32 { x & 0xF8 }

  function ShiftThree(x: bv32): bv32 { x << 3 }

  function ShiftRgb(q: Rgb32): Rgb32 { Rgb32(ShiftThree(q.r), ShiftThree(q.g), ShiftThree(q.b)) }

  /** A three-bit number with its sign. */
  function Signed3(d: bv32): bv32 { Asr29(d << 29) }

  function BaseAndDelta(idx: bv32, base: Rgb32, delta: Rgb32): bv32 {
    (idx << 24)
    | base.r | delta.r
    | (base.g << 8) | (delta.g << 8)
    | (base.b << 16) | (delta.b << 16)
  }

  /** The table numbers of EncodeSelectors. */
  function WithTables(lo: bv32, t0: bv32, t1: bv32): bv32 {
    (lo | (t0 << 26)) | (t1 << 29)
  }

  function TwiceRgb(q: Rgb32): Rgb32 { Rgb32(Twice4(q.r), Twice4(q.g), Twice4(q.b)) }

  function ExpandRgb(q: Rgb32): Rgb32 { Rgb32(Expand5(q.r), Expand5(q.g), Expand5(q.b)) }

  predicate Below(q: Rgb32, m: bv32) { q.r < m && q.g < m && q.b < m }

  /** x is within reach of a three-bit difference from y. */
  predicate InReach(x: bv32, y: bv32) { x - y + 4 <= 7 }

  lemma IndividualRead(idx: bv32, x: Rgb32, y: Rgb32, t0: bv32, t1: bv32)
    requires idx < 2 && Below(x, 16) && Below(y, 16) && t0 < 8 && t1 < 8
    ensures var lo := Bswap32(WithTables(IndividualBits(idx, TwiceRgb(x), TwiceRgb(y)), t0, t1));
            && lo & 0x2 == 0 && lo & 0x1 == idx
            && TableWord(lo, 0) == t1 && TableWord(lo, 1) == t0
            && ((lo & 0xF000_0000) >> 24) | ((lo & 0xF000_0000) >> 28) == Twice4(y.r)
            && ((lo & 0x00F0_0000) >> 16) | ((lo & 0x00F0_0000) >> 20) == Twice4(y.g)
            && ((lo & 0x0000_F000) >> 8) | ((lo & 0x0000_F000) >> 12) == Twice4(y.b)
            && ((lo & 0x0F00_0000) >> 20) | ((lo & 0x0F00_0000) >> 24) == Twice4(x.r)
            && ((lo & 0x000F_0000) >> 12) | ((lo & 0x000F_0000) >> 16) == Twice4(x.g)
            && ((lo & 0x0000_0F00) >> 4) | ((lo & 0x0000_0F00) >> 8) == Twice4(x.b)
  {
  }

  function DifferentialWord(idx: bv32, y: Rgb32, d: Rgb32, t0: bv32, t1: bv32): bv32 {
    Bswap32(WithTables(BaseAndDelta(idx, ShiftRgb(y), d), t0, t1))
  }

  lemma DifferentialFlags(idx: bv32, y: Rgb32, d: Rgb32, t0: bv32, t1: bv32)
    requires 2 <= idx < 4 && Below(y, 32) && Below(d, 8) && t0 < 8 && t1 < 8
    ensures var lo := DifferentialWord(idx, y, d, t0, t1);
            lo & 0x2 != 0 && lo & 0x1 == idx & 0x1 && TableWord(lo, 0) == t1 && TableWord(lo, 1) == t0
  {
  }

  lemma DifferentialBases(idx: bv32, y: Rgb32, d: Rgb32, t0: bv32, t1: bv32)
    requires 2 <= idx < 4 && Below(y, 32) && Below(d, 8) && t0 < 8 && t1 < 8
    ensures var lo := DifferentialWord(idx, y, d, t0, t1);
            Red0(lo) == y.r && Green0(lo) == y.g && Blue0(lo) == y.b
  {
  }

  lemma DifferentialDeltas(idx: bv32, y: Rgb32, d: Rgb32, t0: bv32, t1: bv32)
    requires 2 <= idx < 4 && Below(y, 32) && Below(d, 8) && t0 < 8 && t1 < 8
    ensures var lo := DifferentialWord(idx, y, d, t0, t1);
            RedDelta(lo) == Signed3(d.r) && GreenDelta(lo) == Signed3(d.g) && BlueDelta(lo) == Signed3(d.b)
  {
  }

  /** One channel: the difference brings the decoder from the second colour to the first. */
  lemma DeltaReaches(x: bv32, y: bv32)
    requires x < 32 && y < 32 && InReach(x, y)
    ensures DiffBits(Expand5(x), Expand5(y)) < 8
    ensures Plus(y, Signed3(DiffBits(Expand5(x), Expand5(y)))) == x
  {
  }

  lemma UpperFive(y: bv32)
    requires y < 32
    ensures TopFive(Expand5(y)) == ShiftThree(y)
  {
  }

  /** A differential word is read as ETC1 colours: no channel leaves its range. */
  lemma DifferentialRead(idx: bv32, x: Rgb32, y: Rgb32, t0: bv32, t1: bv32)
    requires 2 <= idx < 4 && Below(x, 32) && Below(y, 32) && t0 < 8 && t1 < 8
    requires InReach(x.r, y.r) && InReach(x.g, y.g) && InReach(x.b, y.b)
    ensures var lo := Bswap32(WithTables(DifferentialBits(idx, ExpandRgb(x), ExpandRgb(y)), t0, t1));
            && lo & 0x2 != 0 && lo & 0x1 == idx & 0x1
            && TableWord(lo, 0) == t1 && TableWord(lo, 1) == t0
            && Red0(lo) == y.r && Green0(lo) == y.g && Blue0(lo) == y.b
            && Red1(lo) == x.r && Green1(lo) == x.g && Blue1(lo) == x.b
  {
    hide DiffBits, Expand5, Bswap32, WithTables, BaseAndDelta, TableWord, Red0, Green0, Blue0, RedDelta, GreenDelta,
         BlueDelta, InReach, Plus, Signed3, TopFive, ShiftThree;
    DeltaReaches(x.r, y.r);
    DeltaReaches(x.g, y.g);
    DeltaReaches(x.b, y.b);
    UpperFive(y.r);
    UpperFive(y.g);
    UpperFive(y.b);
    var d := Rgb32(DiffBits(Expand5(x.r), Expand5(y.r)),
                   DiffBits(Expand5(x.g), Expand5(y.g)),
                   DiffBits(Expand5(x.b), Expand5(y.b)));
    DifferentialFlags(idx, y, d, t0, t1);
    DifferentialBases(idx, y, d, t0, t1);
    DifferentialDeltas(idx, y, d, t0, t1);
  }

  // ---------- from numbers to words and back ----------

  function ToWords(c: Rgb): Rgb32 {
    Rgb32(B32(c.r), B32(c.g), B32(c.b))
  }

  /** EncodeAverages: the low half of the word for the two base colours of a layout. */
  function AverageBits(a: seq<Rgb>, layout: nat): bv32
    requires |a| == 8 && layout < 4
  {
    var (x, y) := (ToWords(a[2 * layout]), ToWords(a[2 * layout + 1]));
    if layout < 2 then IndividualBits(B32(layout), x, y) else DifferentialBits(B32(layout), x, y)
  }

  /** The low half with its table numbers; t0 is the table of the pixels measured against the even
      colour, the second half of the block. */
  function EtcLo(a: seq<Rgb>, layout: nat, t0: nat, t1: nat): bv32
    requires |a| == 8 && layout < 4 && t0 < 8 && t1 < 8
  {
    WithTables(AverageBits(a, layout), B32(t0), B32(t1))
  }

  lemma SameByte(b: bv8, c: bv8)
    requires b as int == c as int
    ensures b == c
  {
    ByteLess(b, c);
    ByteLess(c, b);
  }

  lemma TwiceOfByte(q: bv8)
    requires q < 16
    ensures ((q << 4) | q) as int == 17 * (q as int)
    ensures ((q << 4) | q) as bv32 == Twice4(q as bv32)
  {
  }

  lemma NibbleWord(q: nat)
    requires q <= 15
    ensures B32(17 * q) == Twice4(B32(q)) && B32(q) < 16
    ensures Twice4(B32(q)) < 256 && ToByte(Twice4(B32(q))) == 17 * q
  {
    var b := q as bv8;
    Byte(q);
    Byte(17 * q);
    LessBytes(q, 16);
    TwiceOfByte(b);
    SameByte((17 * q) as bv8, (b << 4) | b);
    WordToInt(17 * q);
  }

  lemma ExpandOfByte(c: bv8)
    requires c < 32
    ensures ((c << 3) | (c >> 2)) as int == 8 * (c as int) + (c as int) / 4
    ensures ((c << 3) | (c >> 2)) as bv32 == Expand5(c as bv32)
  {
  }

  lemma FiveBitWord(c: nat)
    requires c <= 31
    ensures B32(ExpandFive(c)) == Expand5(B32(c)) && B32(c) < 32
    ensures Expand5(B32(c)) < 256 && ToByte(Expand5(B32(c))) == ExpandFive(c)
  {
    var b := c as bv8;
    Byte(c);
    Byte(ExpandFive(c));
    LessBytes(c, 32);
    ExpandOfByte(b);
    SameByte(ExpandFive(c) as bv8, (b << 3) | (b >> 2));
    WordToInt(ExpandFive(c));
  }

  lemma ReachOfBytes(x: bv8, y: bv8)
    requires x < 32 && y < 32 && -4 <= (x as int) - (y as int) <= 3
    ensures InReach(x as bv32, y as bv32)
  {
    var d := x + 4 - y;
    assert x + 4 >= y && (x + 4) as int == x as int + 4;
    assert d as int == (x as int) + 4 - (y as int);
    ByteLess(d, 8);
  }

  lemma ReachOfWords(co: nat, c1: nat)
    requires co <= 31 && c1 <= 31 && -4 <= co - c1 <= 3
    ensures InReach(B32(co), B32(c1))
  {
    Byte(co);
    Byte(c1);
    LessBytes(co, 32);
    LessBytes(c1, 32);
    ReachOfBytes(co as bv8, c1 as bv8);
  }

  function Codes(q: nat, r: nat, b: nat): Rgb32
    requires q < 256 && r < 256 && b < 256
  {
    Rgb32(B32(q), B32(r), B32(b))
  }

  function FourCodes(avgs: seq<Rgb>, k: nat): Rgb32
    requires |avgs| == 4 && k < 4
  {
    Codes(FourCode(avgs, k, 0), FourCode(avgs, k, 1), FourCode(avgs, k, 2))
  }

  function FiveCodes(avgs: seq<Rgb>, k: nat): Rgb32
    requires |avgs| == 4 && k < 4
  {
    Codes(FiveCode(avgs, k, 0), FiveCode(avgs, k, 1), FiveCode(avgs, k, 2))
  }

  lemma FiveCodesInReach(avgs: seq<Rgb>, k: nat)
    requires |avgs| == 4 && (k == 0 || k == 2)
    ensures var (x, y) := (FiveCodes(avgs, k), FiveCodes(avgs, k + 1));
            InReach(x.r, y.r) && InReach(x.g, y.g) && InReach(x.b, y.b)
  {
    hide B32, InReach, FiveBits;
    ReachOfWords(FiveCode(avgs, k, 0), FiveCode(avgs, k + 1, 0));
    ReachOfWords(FiveCode(avgs, k, 1), FiveCode(avgs, k + 1, 1));
    ReachOfWords(FiveCode(avgs, k, 2), FiveCode(avgs, k + 1, 2));
  }

  /** What the decoder makes of the low half of an ETC1 word: the base colours of the layout, the
      first half having the odd one; the tables; and which way the block is halved. */
  ghost predicate ReadsAs(lo: bv32, a: seq<Rgb>, layout: nat, t0: nat, t1: nat)
    requires |a| == 8 && layout < 4
  {
    && ModeOf(lo) == (if layout < 2 then Individual else Differential)
    && EtcBase(lo, 0) == a[2 * layout + 1] && EtcBase(lo, 1) == a[2 * layout]
    && TableOf(lo, 0) == t1 && TableOf(lo, 1) == t0
    && FlipOf(lo) == layout % 2
  }

  lemma TableRange(t: nat)
    requires t < 8
    ensures B32(t) < 8 && CodewordOf(B32(t)) == t
  {
    WordLess(t, 8);
    WordToInt(t);
  }

  lemma LayoutBits(layout: nat)
    requires layout < 4
    ensures layout < 2 ==> B32(layout) < 2
    ensures layout >= 2 ==> 2 <= B32(layout) < 4
    ensures layout % 2 == 1 ==> B32(layout) & 0x1 != 0
    ensures layout % 2 == 0 ==> B32(layout) & 0x1 == 0
    ensures layout < 2 ==> (B32(layout) != 0 <==> layout % 2 == 1)
  {
    if layout == 0 {
    } else if layout == 1 {
    } else if layout == 2 {
    } else {
    }
  }

  lemma IndividualReadsBack(avgs: seq<Rgb>, a: seq<Rgb>, layout: nat, t0: nat, t1: nat)
    requires |avgs| == 4 && |a| == 8 && layout < 2 && t0 < 8 && t1 < 8
    requires forall k :: 0 <= k < 8 ==> a[k] == Quantized(avgs, k)
    ensures ReadsAs(Bswap32(EtcLo(a, layout, t0, t1)), a, layout, t0, t1)
  {
    hide B32, Bswap32, WithTables, IndividualBits, TableWord, ToByte, Twice4, FourCode, CodewordOf;
    var (x, y) := (FourCodes(avgs, 2 * layout), FourCodes(avgs, 2 * layout + 1));
    forall k, c | 0 <= k < 4 && 0 <= c < 3
      ensures var q := FourCode(avgs, k, c);
              B32(17 * q) == Twice4(B32(q)) && B32(q) < 16 && Twice4(B32(q)) < 256 && ToByte(Twice4(B32(q))) == 17 * q
    {
      NibbleWord(FourCode(avgs, k, c));
    }
    TableRange(t0);
    TableRange(t1);
    LayoutBits(layout);
    IndividualRead(B32(layout), x, y, B32(t0), B32(t1));
  }

  lemma DifferentialReadsBack(avgs: seq<Rgb>, a: seq<Rgb>, layout: nat, t0: nat, t1: nat)
    requires |avgs| == 4 && |a| == 8 && 2 <= layout < 4 && t0 < 8 && t1 < 8
    requires forall k :: 0 <= k < 8 ==> a[k] == Quantized(avgs, k)
    ensures ReadsAs(Bswap32(EtcLo(a, layout, t0, t1)), a, layout, t0, t1)
  {
    hide B32, Bswap32, WithTables, DifferentialBits, TableWord, ToByte, Expand5, ExpandFive, FiveCode, CodewordOf,
         Red0, Green0, Blue0, Red1, Green1, Blue1, InReach;
    var (x, y) := (FiveCodes(avgs, 2 * layout - 4), FiveCodes(avgs, 2 * layout - 3));
    forall k, c | 0 <= k < 4 && 0 <= c < 3
      ensures var q := FiveCode(avgs, k, c);
              B32(ExpandFive(q)) == Expand5(B32(q)) && B32(q) < 32 && Expand5(B32(q)) < 256
              && ToByte(Expand5(B32(q))) == ExpandFive(q)
    {
      FiveBitWord(FiveCode(avgs, k, c));
    }
    FiveCodesInReach(avgs, 2 * layout - 4);
    TableRange(t0);
    TableRange(t1);
    LayoutBits(layout);
    DifferentialRead(B32(layout), x, y, B32(t0), B32(t1));
  }

  // ---------- selectors ----------

  function LowBit(t: nat): bv32
    requires t < 4
  {
    B32(t) & 0x1
  }

  function HighBit(t: nat): bv32
    requires t < 4
  {
    (B32(t) & 0x2) >> 1
  }

  /** The selector planes after n pixels: bit i of the low plane, bit 16 + i of the high half holds
      the upper selector bit. */
  function Planes(sels: seq<nat>, n: nat): bv32
    requires n <= 16 == |sels| && forall i :: 0 <= i < 16 ==> sels[i] < 4
  {
    if n == 0 then 0
    else Place(Planes(sels, n - 1), LowBit(sels[n - 1]), HighBit(sels[n - 1]), n - 1)
  }

  lemma SelectorBits(t: nat)
    requires t < 4
    ensures LowBit(t) <= 1 && HighBit(t) <= 1
    ensures (HighBit(t) << 1) | LowBit(t) < 4 && ((HighBit(t) << 1) | LowBit(t)) as int == t
  {
    if t == 0 {
    } else if t == 1 {
    } else if t == 2 {
    } else {
    }
  }

  lemma {:induction false} PlaneBits(sels: seq<nat>, n: nat, p: nat)
    requires n <= 16 == |sels| && p < 16 && forall i :: 0 <= i < 16 ==> sels[i] < 4
    ensures Bit(Planes(sels, n), p) == (if p < n then LowBit(sels[p]) else 0)
    ensures Bit(Planes(sels, n), p + 16) == (if p < n then HighBit(sels[p]) else 0)
    decreases n
  {
    hide Bit, Place, LowBit, HighBit;
    if n == 0 {
      ZeroBit(p);
      ZeroBit(p + 16);
    } else {
      PlaneBits(sels, n - 1, p);
      SelectorBits(sels[n - 1]);
      var (low, high) := (LowBit(sels[n - 1]), HighBit(sels[n - 1]));
      if p == n - 1 {
        PlaceSets(Planes(sels, n - 1), low, high, p);
      } else {
        PlaceKeeps(Planes(sels, n - 1), low, high, n - 1, p);
        PlaceKeeps(Planes(sels, n - 1), low, high, n - 1, p + 16);
      }
    }
  }

  /** The decoder reads every selector back. */
  lemma SelectorsReadBack(sels: seq<nat>, p: nat)
    requires |sels| == 16 && p < 16 && forall i :: 0 <= i < 16 ==> sels[i] < 4
    ensures IndexOf(Planes(sels, 16), p) == sels[p]
  {
    hide Bit, Planes, LowBit, HighBit;
    PlaneBits(sels, 16, p);
    SelectorBits(sels[p]);
  }

  // ---------- the word ----------

  /** The word the encoder stores for a layout and a fit. */
  function EtcWord(a: seq<Rgb>, layout: nat, f: Fit): bv64
    requires |a| == 8 && layout < 4 && IsFit(f)
  {
    FixByteOrder(Join(EtcLo(a, layout, f.tables[0], f.tables[1]), Planes(f.selectors, 16)))
  }

  lemma EtcWordHalves(a: seq<Rgb>, layout: nat, f: Fit)
    requires |a| == 8 && layout < 4 && IsFit(f)
    ensures Lo(ConvertByteOrder(EtcWord(a, layout, f))) == Bswap32(EtcLo(a, layout, f.tables[0], f.tables[1]))
    ensures Hi(ConvertByteOrder(EtcWord(a, layout, f))) == Planes(f.selectors, 16)
  {
    hide Lo, Hi, Join, Bswap32, FixByteOrder, ConvertByteOrder, EtcLo, Planes;
    var (lo, hi) := (EtcLo(a, layout, f.tables[0], f.tables[1]), Planes(f.selectors, 16));
    ConvertAfterFix(Join(lo, hi));
    Halves(lo, hi);
    Halves(Bswap32(lo), hi);
  }

  lemma EtcLoReadsAs(src: Block, layout: nat, t0: nat, t1: nat)
    requires layout < 4 && t0 < 8 && t1 < 8
    ensures ReadsAs(Bswap32(EtcLo(Candidates(src), layout, t0, t1)), Candidates(src), layout, t0, t1)
  {
    hide ReadsAs, EtcLo, Bswap32, Quantized, HalfAverage;
    if layout < 2 {
      IndividualReadsBack(AveragesOf(src), Candidates(src), layout, t0, t1);
    } else {
      DifferentialReadsBack(AveragesOf(src), Candidates(src), layout, t0, t1);
    }
  }

  /** The colour pixel i of the block decodes to: its base colour moved by its modifier, clamped. */
  function FittedColor(a: seq<Rgb>, layout: nat, f: Fit, i: nat): Rgb
    requires |a| == 8 && layout < 4 && IsFit(f) && i < 16
  {
    IdBound(layout, i);
    var id := AverageIds(layout)[i];
    Shifted(a[id], Modifiers(f.tables[id % 2])[f.selectors[i]])
  }

  lemma EtcPixelReads(lo: bv32, hi: bv32, a: seq<Rgb>, layout: nat, f: Fit, i: nat, j: nat)
    requires |a| == 8 && layout < 4 && IsFit(f) && i < 4 && j < 4
    requires ReadsAs(lo, a, layout, f.tables[0], f.tables[1]) && IndexOf(hi, 4 * i + j) == f.selectors[4 * i + j]
    ensures DecodedPixel(lo, hi, i, j) == Opaque(FittedColor(a, layout, f, 4 * i + j))
  {
    hide EtcBase, TableOf, IndexOf, ModeOf, FlipOf, Shifted, Modifiers, AverageIds;
    AverageOfHalf(layout, i, j);
  }

  /** ETC1 words are always read as ETC1: whatever the block, the layout, the tables and the
      selectors, no channel overflows, and every pixel decodes to its base colour plus its
      modifier, clamped, in both directions of the halves. */
  lemma EtcRoundTrip(src: Block, layout: nat, f: Fit, i: nat, j: nat)
    requires layout < 4 && IsFit(f) && i < 4 && j < 4
    ensures var d := EtcWord(Candidates(src), layout, f);
            && ModeOf(Lo(ConvertByteOrder(d))) == (if layout < 2 then Individual else Differential)
            && PixelOf(d, i, j) == Opaque(FittedColor(Candidates(src), layout, f, 4 * i + j))
  {
    hide ModeOf, Lo, Hi, ConvertByteOrder, EtcWord, EtcLo, Planes, EtcBase, TableOf, FlipOf, Bswap32, IndexOf,
         Candidates, FittedColor, DecodedPixel;
    EtcWordHalves(Candidates(src), layout, f);
    EtcLoReadsAs(src, layout, f.tables[0], f.tables[1]);
    SelectorsReadBack(f.selectors, 4 * i + j);
    EtcPixelReads(Bswap32(EtcLo(Candidates(src), layout, f.tables[0], f.tables[1])), Planes(f.selectors, 16),
                  Candidates(src), layout, f, i, j);
  }
}
