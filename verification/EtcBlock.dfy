/** The scalar encoder of one RGB block, ETC1 and ETC2: solid blocks, the early choice of a mode,
    planar, ETC1 and T/H candidates, and which of them is emitted (ProcessRGB and ProcessRGB_ETC2 of
    ProcessRGB.cpp). */
module EtcBlock {
  import opened Words
  import opened Pixels
  import opened Tables
  import opened ThSearch
  import opened IndexBits
  import opened Decoder
  import opened ThWords
  import opened ThBlock
  import opened EtcAverages
  import opened EtcFit
  import opened EtcWords
  import opened Planar
  import opened EtcBound

  // ---------- solid blocks ----------

  ghost predicate IsSolid(src: Block) {
    forall i :: 0 <= i < 16 ==> src[i] == src[0]
  }

  /** The colour half of a solid word: a differential word without differences. */
  function SolidBits(r: bv32, g: bv32, b: bv32): bv32 {
    0x0200_0000 | (TopFive(b) << 16) | (TopFive(g) << 8) | TopFive(r)
  }

  function SolidWord(p: Pixel): bv64 {
    Join(SolidBits(B32(p.r), B32(p.g), B32(p.b)), 0)
  }

  method CheckSolid(src: Block) returns (d: bv64)
    ensures d == if IsSolid(src) then SolidWord(src[0]) else 0
    ensures IsSolid(src) ==> d != 0
  {
    hide SolidWord;
    SolidIsNotZero(src[0]);
    for i := 1 to 16
      invariant forall k :: 0 <= k < i ==> src[k] == src[0]
    {
      if src[0] != src[i] {
        return 0;
      }
    }
    return SolidWord(src[0]);
  }

  lemma SolidIsNotZero(p: Pixel)
    ensures SolidWord(p) != 0
  {
    SolidBitsNotZero(B32(p.r), B32(p.g), B32(p.b));
  }

  lemma SolidBitsNotZero(r: bv32, g: bv32, b: bv32)
    requires r < 256 && g < 256 && b < 256
    ensures Join(SolidBits(r, g, b), 0) != 0
  {
  }

  /** The decoded colour of a solid block: five bits a channel, and the smallest modifier. */
  function SolidColor(p: Pixel): Rgb {
    Shifted(Rgb(ExpandFive(p.r / 8), ExpandFive(p.g / 8), ExpandFive(p.b / 8)), 2)
  }

  function UpperFiveBits(x: bv32): bv32 { x >> 3 }

  lemma SolidFields(r: bv32, g: bv32, b: bv32)
    requires r < 256 && g < 256 && b < 256
    ensures var lo := Bswap32(SolidBits(r, g, b));
            && lo & 0x2 != 0 && lo & 0x1 == 0
            && TableWord(lo, 0) == 0 && TableWord(lo, 1) == 0
            && Red0(lo) == UpperFiveBits(r) && Green0(lo) == UpperFiveBits(g) && Blue0(lo) == UpperFiveBits(b)
  {
  }

  lemma SolidDeltas(r: bv32, g: bv32, b: bv32)
    requires r < 256 && g < 256 && b < 256
    ensures var lo := Bswap32(SolidBits(r, g, b));
            RedDelta(lo) == 0 && GreenDelta(lo) == 0 && BlueDelta(lo) == 0
  {
  }

  lemma NoDelta(x: bv32)
    requires x < 256
    ensures Plus(UpperFiveBits(x), 0) == UpperFiveBits(x) && !OutOfRange(UpperFiveBits(x))
  {
  }

  function Eighth(b: bv8): bv8 { b >> 3 }

  lemma UpperFiveValue(b: bv8)
    ensures Eighth(b) as int == b as int / 8
    ensures Eighth(b) as bv32 == UpperFiveBits(b as bv32)
  {
  }

  lemma ByteWidth(b: bv8)
    ensures b as bv32 < 256
  {
  }

  lemma UpperFiveSame(x: byte, q: nat)
    requires q < 32 && (x as bv8) as int == x && x / 8 == q
    ensures Eighth(x as bv8) == q as bv8
  {
    hide UpperFiveBits, Eighth;
    Byte(q);
    UpperFiveValue(x as bv8);
    SameByte(q as bv8, Eighth(x as bv8));
  }

  lemma UpperFiveWord(x: byte)
    ensures B32(x) < 256 && UpperFiveBits(B32(x)) == B32(x / 8)
  {
    hide UpperFiveBits, Eighth;
    Byte(x);
    ByteWidth(x as bv8);
    UpperFiveSame(x, x / 8);
    UpperFiveValue(x as bv8);
  }

  /** A channel of a solid block as the decoder expands it. */
  lemma SolidChannel(x: byte)
    ensures B32(x) < 256
    ensures var u := UpperFiveBits(B32(x));
            Plus(u, 0) == u && !OutOfRange(u) && Expand5(u) < 256 && ToByte(Expand5(u)) == ExpandFive(x / 8)
  {
    hide B32, Plus, OutOfRange, Expand5, ToByte, UpperFiveBits, ExpandFive;
    UpperFiveWord(x);
    NoDelta(B32(x));
    FiveBitWord(x / 8);
  }

  lemma ZeroIndex(p: nat)
    requires p < 16
    ensures IndexOf(Bswap32(0), p) == 0
  {
    hide Bit;
    ZeroBit(p);
    ZeroBit(p + 16);
    assert Bswap32(0) == 0;
  }

  lemma ZeroTable()
    ensures CodewordOf(0) == 0 && Modifiers(0)[0] == 2
  {
  }

  lemma SolidLoReads(p: Pixel)
    ensures var lo := Bswap32(SolidBits(B32(p.r), B32(p.g), B32(p.b)));
            && ModeOf(lo) == Differential && FlipOf(lo) == 0 && TableOf(lo, 0) == 0 && TableOf(lo, 1) == 0
            && (forall h :: 0 <= h < 2 ==>
                  EtcBase(lo, h) == Rgb(ExpandFive(p.r / 8), ExpandFive(p.g / 8), ExpandFive(p.b / 8)))
  {
    hide B32, Plus, OutOfRange, Expand5, ToByte, UpperFiveBits, ExpandFive, Bswap32, SolidBits, Red0, Green0, Blue0,
         RedDelta, GreenDelta, BlueDelta, TableWord, CodewordOf;
    SolidChannel(p.r);
    SolidChannel(p.g);
    SolidChannel(p.b);
    SolidFields(B32(p.r), B32(p.g), B32(p.b));
    SolidDeltas(B32(p.r), B32(p.g), B32(p.b));
    ZeroTable();
  }

  /** A solid word is read as ETC1 and shows one colour everywhere. */
  lemma SolidRoundTrip(p: Pixel, i: nat, j: nat)
    requires i < 4 && j < 4
    ensures PixelOf(SolidWord(p), i, j) == Opaque(SolidColor(p))
  {
    hide Lo, Hi, Join, Bswap32, SolidBits, ModeOf, FlipOf, TableOf, EtcBase, Shifted, IndexOf, B32, ExpandFive,
         Modifiers;
    Halves(SolidBits(B32(p.r), B32(p.g), B32(p.b)), 0);
    Halves(Bswap32(SolidBits(B32(p.r), B32(p.g), B32(p.b))), Bswap32(0));
    SolidLoReads(p);
    ZeroIndex(4 * i + j);
    ZeroTable();
  }

  /** No channel of a solid block comes back further away than 9. */
  lemma SolidIsClose(p: Pixel)
    ensures var c := SolidColor(p);
            && -9 <= p.r - c.r <= 9 && -9 <= p.g - c.g <= 9 && -9 <= p.b - c.b <= 9
  {
    hide SolidColor;
    SolidChannelIsClose(p.r);
    SolidChannelIsClose(p.g);
    SolidChannelIsClose(p.b);
    SolidColorIs(p);
  }

  lemma SolidColorIs(p: Pixel)
    ensures SolidColor(p)
            == Rgb(ClampU8(ExpandFive(p.r / 8) + 2), ClampU8(ExpandFive(p.g / 8) + 2), ClampU8(ExpandFive(p.b / 8) + 2))
  {
  }

  lemma SolidChannelIsClose(x: byte)
    ensures -9 <= x - ClampU8(ExpandFive(x / 8) + 2) <= 9
  {
  }

  // ---------- the early choice of a mode ----------

  /** SelectModeETC2, with its thresholds 0.03, 0.09 and 0.38 of 255 as whole numbers. */
  function SelectMode(luma: LumaRange): BlockMode {
    var range := luma.max - luma.min;
    if range <= 7 then PlanarBlock
    else if range <= 22 then
      if CornerPair(luma.minIdx, luma.maxIdx) then PlanarBlock else UndecidedBlock
    else if range >= MODE_TH_RANGE then HighContrastBlock
    else UndecidedBlock
  }

  /** The extremes stand in opposite corners of the block. */
  predicate CornerPair(minIdx: nat, maxIdx: nat) {
    || (minIdx == 0 && maxIdx == 15) || (minIdx == 15 && maxIdx == 0)
    || (minIdx == 3 && maxIdx == 12) || (minIdx == 12 && maxIdx == 3)
  }

  ghost predicate IsLumaRange(src: Block, luma: LumaRange) {
    && IsFirstLeast(Lumas(src), luma.minIdx) && luma.min == Lumas(src)[luma.minIdx]
    && IsFirstGreatest(Lumas(src), luma.maxIdx) && luma.max == Lumas(src)[luma.maxIdx]
  }

  ghost predicate HasMode(src: Block, mode: BlockMode) {
    exists luma: LumaRange :: IsLumaRange(src, luma) && mode == SelectMode(luma)
  }

  /** A block has one mode. */
  lemma ModeIsUnique(src: Block, m1: BlockMode, m2: BlockMode)
    requires HasMode(src, m1) && HasMode(src, m2)
    ensures m1 == m2
  {
    hide Lumas, SelectMode;
    var l1: LumaRange :| IsLumaRange(src, l1) && m1 == SelectMode(l1);
    var l2: LumaRange :| IsLumaRange(src, l2) && m2 == SelectMode(l2);
    assert l1.minIdx == l2.minIdx && l1.maxIdx == l2.maxIdx;
  }

  lemma OutsideHighContrast(src: Block, luma: LumaRange)
    requires IsLumaRange(src, luma) && SelectMode(luma) != HighContrastBlock
    ensures WithinRange(src, 96)
  {
    hide LumaOf;
    forall p, q | 0 <= p < 16 && 0 <= q < 16 ensures LumaOf(src[q]) - LumaOf(src[p]) <= 96 {
      assert Lumas(src)[p] == LumaOf(src[p]) && Lumas(src)[q] == LumaOf(src[q]);
    }
  }

  /** The lumas of the block put it into planar mode: all of them within 7 of each other, or within 22 with
      the first darkest and the first brightest pixel in opposite corners. */
  ghost predicate IsSmooth(src: Block) {
    WithinRange(src, 7) || (WithinRange(src, 22) && ExtremesInCorners(src))
  }

  ghost predicate ExtremesInCorners(src: Block) {
    exists p, q ::
      && IsFirstLeast(Lumas(src), p) && IsFirstGreatest(Lumas(src), q)
      && ({p, q} == {0, 15} || {p, q} == {3, 12})
  }

  /** Two lumas of the block are far apart. */
  ghost predicate IsContrasty(src: Block) {
    exists p, q :: 0 <= p < 16 && 0 <= q < 16 && LumaOf(src[q]) - LumaOf(src[p]) >= 97
  }

  lemma RangeIs(src: Block, luma: LumaRange, range: nat)
    requires IsLumaRange(src, luma)
    ensures WithinRange(src, range) <==> luma.max - luma.min <= range
    ensures luma.max - luma.min >= 97 <==> IsContrasty(src)
  {
    hide LumaOf;
    assert Lumas(src)[luma.minIdx] == LumaOf(src[luma.minIdx]) && Lumas(src)[luma.maxIdx] == LumaOf(src[luma.maxIdx]);
    forall p | 0 <= p < 16 ensures luma.min <= LumaOf(src[p]) <= luma.max {
      assert Lumas(src)[p] == LumaOf(src[p]);
    }
  }

  lemma CornersAre(src: Block, luma: LumaRange)
    requires IsLumaRange(src, luma)
    ensures CornerPair(luma.minIdx, luma.maxIdx) <==> ExtremesInCorners(src)
  {
    hide Lumas;
    if ExtremesInCorners(src) {
      var p, q :|
        IsFirstLeast(Lumas(src), p) && IsFirstGreatest(Lumas(src), q) && ({p, q} == {0, 15} || {p, q} == {3, 12});
      assert p == luma.minIdx && q == luma.maxIdx;
      assert p in {p, q} && q in {p, q} && 0 in {0, 15} && 15 in {0, 15} && 3 in {3, 12} && 12 in {3, 12};
    }
    if CornerPair(luma.minIdx, luma.maxIdx) {
      var (p, q) := (luma.minIdx, luma.maxIdx);
      assert {p, q} == {0, 15} || {p, q} == {3, 12};
    }
  }

  /** What the early choice of a mode comes to, on the lumas of the pixels. */
  lemma ModeByLumas(src: Block, mode: BlockMode)
    requires HasMode(src, mode)
    ensures mode == PlanarBlock <==> IsSmooth(src)
    ensures mode == HighContrastBlock <==> IsContrasty(src)
  {
    hide IsLumaRange, WithinRange, IsContrasty, ExtremesInCorners, CornerPair;
    var luma: LumaRange :| IsLumaRange(src, luma) && mode == SelectMode(luma);
    RangeIs(src, luma, 7);
    RangeIs(src, luma, 22);
    CornersAre(src, luma);
  }

  // ---------- the ETC1 candidate ----------

  /** The layout is the first of least deviations, the fit the best one for its colours. */
  ghost predicate IsEtcChoice(src: Block, layout: nat, f: Fit) {
    && layout < 4 && IsFit(f)
    && (forall l :: 0 <= l < 4 ==> PixelDeviations(src, layout, 16) <= PixelDeviations(src, l, 16))
    && (forall l :: 0 <= l < layout ==> PixelDeviations(src, layout, 16) < PixelDeviations(src, l, 16))
    && (forall g: Fit :: IsFit(g) ==>
          Cost(src, Candidates(src), layout, f, 16) <= Cost(src, Candidates(src), layout, g, 16))
  }

  lemma ChoiceIsFit(src: Block, layout: nat, f: Fit)
    requires IsEtcChoice(src, layout, f)
    ensures layout < 4 && IsFit(f)
  {
    hide PixelDeviations, Cost, Candidates;
  }

  function EtcCost(src: Block, layout: nat, f: Fit): nat
    requires layout < 4 && IsFit(f)
  {
    Cost(src, Candidates(src), layout, f, 16)
  }

  /** The decoder takes the word for ETC1 and shows the block as the fit paints it. */
  ghost predicate ShowsFit(src: Block, layout: nat, f: Fit, d: bv64)
    requires layout < 4 && IsFit(f)
  {
    && ModeOf(Lo(ConvertByteOrder(d))) == (if layout < 2 then Individual else Differential)
    && forall i, j :: 0 <= i < 4 && 0 <= j < 4 ==>
         PixelOf(d, i, j) == Opaque(FittedColor(Candidates(src), layout, f, 4 * i + j))
  }

  lemma EtcWordShowsFit(src: Block, layout: nat, f: Fit)
    requires layout < 4 && IsFit(f)
    ensures ShowsFit(src, layout, f, EtcWord(Candidates(src), layout, f))
  {
    hide PixelOf, EtcWord, FittedColor, Candidates, ModeOf, Lo, ConvertByteOrder;
    EtcRoundTrip(src, layout, f, 0, 0);
    forall i, j | 0 <= i < 4 && 0 <= j < 4
      ensures PixelOf(EtcWord(Candidates(src), layout, f), i, j)
                == Opaque(FittedColor(Candidates(src), layout, f, 4 * i + j))
    {
      EtcRoundTrip(src, layout, f, i, j);
    }
  }

  /** What FindBestFit leaves behind. */
  ghost predicate Fitted(src: Block, a: seq<Rgb>, layout: nat, terr: array2<nat>, tsel: array2<nat>)
    requires |a| == 8 && layout < 4
    reads terr, tsel
  {
    && terr.Length0 == 2 && terr.Length1 == 8 && tsel.Length0 == 16 && tsel.Length1 == 8
    && (forall h, t :: 0 <= h < 2 && 0 <= t < 8 ==> terr[h, t] == TableError(src, a, layout, h, t, 16))
    && (forall i, t :: 0 <= i < 16 && 0 <= t < 8 ==> tsel[i, t] == BestSelector(PixAt(src, a, layout, i), t, 4))
  }

  /** tidx: the first table of least error for a half. */
  method LeastTable(terr: array2<nat>, h: nat) returns (t: nat)
    requires h < 2 && terr.Length0 == 2 && terr.Length1 == 8
    ensures t < 8 && forall u :: 0 <= u < 8 ==> terr[h, t] <= terr[h, u]
    ensures forall u :: 0 <= u < t ==> terr[h, t] < terr[h, u]
  {
    var row := [terr[h, 0], terr[h, 1], terr[h, 2], terr[h, 3], terr[h, 4], terr[h, 5], terr[h, 6], terr[h, 7]];
    t := GetLeastError(row);
    assert forall u :: 0 <= u < 8 ==> row[u] == terr[h, u];
  }

  /** The selector loop: the selectors of the chosen tables, in two planes. */
  method PackSelectors(src: Block, a: seq<Rgb>, layout: nat, terr: array2<nat>, tsel: array2<nat>, t0: nat, t1: nat)
    returns (planes: bv32)
    requires |a| == 8 && layout < 4 && t0 < 8 && t1 < 8 && Fitted(src, a, layout, terr, tsel)
    ensures planes == Planes(BestFor(src, a, layout, t0, t1).selectors, 16)
  {
    hide Place, LowBit, HighBit, PixAt, BestSelector, TableError, AverageIds;
    ghost var sels := BestFor(src, a, layout, t0, t1).selectors;
    planes := 0;
    for i := 0 to 16
      invariant planes == Planes(sels, i)
    {
      var t := tsel[i, if AverageIds(layout)[i] % 2 == 0 then t0 else t1];
      planes := Place(planes, LowBit(t), HighBit(t), i);
    }
  }

  /** The tables of least error make a fit that is best of all. */
  method ChooseTables(src: Block, layout: nat, terr: array2<nat>, ghost tsel: array2<nat>)
    returns (t0: nat, t1: nat, ghost f: Fit)
    requires layout < 4 && Fitted(src, Candidates(src), layout, terr, tsel)
    requires forall l :: 0 <= l < 4 ==> PixelDeviations(src, layout, 16) <= PixelDeviations(src, l, 16)
    requires forall l :: 0 <= l < layout ==> PixelDeviations(src, layout, 16) < PixelDeviations(src, l, 16)
    ensures t0 < 8 && t1 < 8 && f == BestFor(src, Candidates(src), layout, t0, t1) && f.tables == [t0, t1]
    ensures IsFit(f) && IsEtcChoice(src, layout, f)
    ensures terr[0, t0] + terr[1, t1] == EtcCost(src, layout, f)
    ensures WithinRange(src, 96) ==> EtcCost(src, layout, f) < MAX_ERROR
  {
    hide Candidates, TableError, BestFor, BestSelector, PixAt, WithinRange, Cost, PixelDeviations;
    t0 := LeastTable(terr, 0);
    t1 := LeastTable(terr, 1);
    ghost var a := Candidates(src);
    f := BestFor(src, a, layout, t0, t1);
    BestTables(src, a, layout, t0, t1);
    forall g: Fit | IsFit(g) ensures Cost(src, a, layout, f, 16) <= Cost(src, a, layout, g, 16) {
      ChosenFitIsOptimal(src, a, layout, t0, t1, g);
    }
    ChosenFitIsOptimal(src, a, layout, t0, t1, f);
    if WithinRange(src, 96) {
      EtcErrorBelowMax(src, layout, t0, t1);
    }
  }

  /** EncodeSelectors of the ETC2 path: value when the fit is no better than error, the ETC1 word
      otherwise. */
  method EncodeSelectors(src: Block, layout: nat, terr: array2<nat>, tsel: array2<nat>, value: bv64, error: nat)
    returns (d: bv64)
    requires layout < 4 && Fitted(src, Candidates(src), layout, terr, tsel)
    requires forall l :: 0 <= l < 4 ==> PixelDeviations(src, layout, 16) <= PixelDeviations(src, l, 16)
    requires forall l :: 0 <= l < layout ==> PixelDeviations(src, layout, 16) < PixelDeviations(src, l, 16)
    ensures exists f ::
              && IsFit(f) && IsEtcChoice(src, layout, f)
              && d == (if EtcCost(src, layout, f) >= error then value else EtcWord(Candidates(src), layout, f))
              && (WithinRange(src, 96) ==> EtcCost(src, layout, f) < MAX_ERROR)
  {
    hide Candidates, BestFor, Planes, EtcLo, WithinRange, EtcCost, PixelDeviations, IsEtcChoice, TableError,
         BestSelector, PixAt;
    var t0, t1, f := ChooseTables(src, layout, terr, tsel);
    if terr[0, t0] + terr[1, t1] >= error {
      return value;
    }
    var planes := PackSelectors(src, Candidates(src), layout, terr, tsel, t0, t1);
    d := FixByteOrder(Join(EtcLo(Candidates(src), layout, t0, t1), planes));
  }

  /** EncodeSelectors of the ETC1 path, with the byte order put right. */
  method EncodeFit(src: Block, layout: nat, terr: array2<nat>, tsel: array2<nat>) returns (d: bv64)
    requires layout < 4 && Fitted(src, Candidates(src), layout, terr, tsel)
    requires forall l :: 0 <= l < 4 ==> PixelDeviations(src, layout, 16) <= PixelDeviations(src, l, 16)
    requires forall l :: 0 <= l < layout ==> PixelDeviations(src, layout, 16) < PixelDeviations(src, l, 16)
    ensures exists f :: IsFit(f) && IsEtcChoice(src, layout, f) && d == EtcWord(Candidates(src), layout, f)
  {
    hide Candidates, BestFor, Planes, EtcLo, WithinRange, EtcCost, PixelDeviations, IsEtcChoice, TableError,
         BestSelector, PixAt;
    var t0, t1, f := ChooseTables(src, layout, terr, tsel);
    var planes := PackSelectors(src, Candidates(src), layout, terr, tsel, t0, t1);
    d := FixByteOrder(Join(EtcLo(Candidates(src), layout, t0, t1), planes));
  }

  lemma BestTables(src: Block, a: seq<Rgb>, layout: nat, t0: nat, t1: nat)
    requires |a| == 8 && layout < 4 && t0 < 8 && t1 < 8
    ensures BestFor(src, a, layout, t0, t1).tables == [t0, t1]
  {
    hide BestSelector;
  }

  // ---------- whole blocks ----------

  /** ProcessRGB: one ETC1 block. A solid block becomes a solid word; any other becomes the word of
      the best fit, and the decoder shows it as fitted. */
  method ProcessRgb(src: Block) returns (d: bv64)
    ensures IsSolid(src) ==> d == SolidWord(src[0])
    ensures !IsSolid(src) ==>
              exists layout, f :: IsEtcChoice(src, layout, f) && d == EtcWord(Candidates(src), layout, f)
                   && ShowsFit(src, layout, f, d)
  {
    hide IsSolid, SolidWord, Candidates, TableError, BestSelector, PixAt, PixelDeviations, EtcWord, ShowsFit,
         IsEtcChoice;
    d := CheckSolid(src);
    if d != 0 {
      return;
    }
    var a, layout := ChooseLayout(src);
    var terr, tsel := FindBestFit(src, a[..], layout);
    d := EncodeFit(src, layout, terr, tsel);
    ghost var f :| IsFit(f) && IsEtcChoice(src, layout, f) && d == EtcWord(Candidates(src), layout, f);
    EtcWordShowsFit(src, layout, f);
  }

  /** The block a word shows. */
  function ShownBy(d: bv64): Block {
    seq(16, p requires 0 <= p < 16 => PixelOf(d, p / 4, p % 4))
  }

  /** The decoder shows the block as T or H mode paints it: a word of a successful search, every
      pixel in the paint colour that suits it best; err is what 32 bits keep of the error of the
      block shown. */
  ghost predicate ShowsTh(src: Block, d: bv64, err: nat) {
    && err == Wrap32(ShownError(src, ShownBy(d), 16))
    && exists tMode: bool, q0: Rgb444, q1: Rgb444, start: nat, dist: nat ::
         && Searched(src, tMode, q0, q1, start, dist)
         && err == BlockErr(tMode, src, q0, q1, dist)
         && ModeOf(Lo(ConvertByteOrder(d))) == (if tMode then ModeT else ModeH)
         && ShowsPaints(src, d, tMode, q0, q1, dist)
  }

  ghost predicate ShowsPaints(src: Block, d: bv64, tMode: bool, q0: Rgb444, q1: Rgb444, dist: nat)
    requires dist < 8
  {
    forall i, j :: 0 <= i < 4 && 0 <= j < 4 ==>
      PixelOf(d, i, j) == Opaque(BestPaint(src[4 * i + j], tMode, q0, q1, dist))
  }

  lemma ThWordShowsTh(src: Block, tMode: bool, lo: bv32, hi: bv32, err: nat)
    requires IsThWord(src, tMode, lo, hi, err)
    ensures ShowsTh(src, Join(Bswap32(lo), Bswap32(hi)), err)
  {
    hide PlannedBy, FirstLocalMin, BlockErr, ModeOf, Lo, Hi, Join, Bswap32, ConvertByteOrder, DecodedPixel, BestPaint;
    hide ShownError, Errs, Wrap32;
    ConvertUndoesSwappedHalves(lo, hi);
    Halves(lo, hi);
    assert ShownBy(Join(Bswap32(lo), Bswap32(hi))) == DecodedBlock(lo, hi);
    var q0: Rgb444, q1: Rgb444, start: nat, dist: nat :|
      Searched(src, tMode, q0, q1, start, dist) && PaintsBest(src, tMode, q0, q1, dist, lo, hi, err);
    ErrorOfWord(src, tMode, q0, q1, dist, lo, hi, err);
    assert ShowsPaints(src, Join(Bswap32(lo), Bswap32(hi)), tMode, q0, q1, dist);
  }

  /** What a T or H word shows is fixed by the search of its block. */
  lemma ShownIsSearched(src: Block, d: bv64, err: nat, tMode: bool, q0: Rgb444, q1: Rgb444, start: nat, dist: nat)
    requires ShowsTh(src, d, err) && Searched(src, tMode, q0, q1, start, dist)
    ensures ModeOf(Lo(ConvertByteOrder(d))) == (if tMode then ModeT else ModeH)
    ensures ShownError(src, ShownBy(d), 16) == BlockSum(tMode, src, q0, q1, dist)
  {
    hide PlannedBy, FirstLocalMin, Errs, BlockErr, PixelOf, ModeOf, Lo, ConvertByteOrder, BestPaint, ShownError, Wrap32;
    var t2: bool, p0: Rgb444, p1: Rgb444, s2: nat, d2: nat :|
      && Searched(src, t2, p0, p1, s2, d2)
      && err == BlockErr(t2, src, p0, p1, d2)
      && ModeOf(Lo(ConvertByteOrder(d))) == (if t2 then ModeT else ModeH)
      && ShowsPaints(src, d, t2, p0, p1, d2);
    SearchIsUnique(src, tMode, q0, q1, start, dist, t2, p0, p1, s2, d2);
    ShownPaintsError(src, d, tMode, q0, q1, dist);
  }

  lemma ShownPaintsError(src: Block, d: bv64, tMode: bool, q0: Rgb444, q1: Rgb444, dist: nat)
    requires dist < 8 && ShowsPaints(src, d, tMode, q0, q1, dist)
    ensures ShownError(src, ShownBy(d), 16) == BlockSum(tMode, src, q0, q1, dist)
  {
    hide PixelOf, ShownError, ErrorSum, Paints, BestIndex;
    var shown := ShownBy(d);
    forall p | 0 <= p < 16 ensures shown[p] == Opaque(BestPaint(src[p], tMode, q0, q1, dist)) {
      assert 4 * (p / 4) + p % 4 == p;
    }
    ShownErrorIsSum(src, shown, Paints(tMode, q0, q1, dist), 16);
  }

  /** The word carries the uninitialised indices. */
  ghost predicate ShowsGarbage(src: Block, d: bv64, garbage: bv32) {
    exists tMode: bool, lo: bv32, hi: bv32 ::
      IsGarbage(src, tMode, lo, hi, garbage) && d == Join(Bswap32(lo), Bswap32(hi))
  }

  /** The T/H candidate of a high-contrast block. */
  method ThCandidate(src: Block, luma: LumaRange, val: array<int>, garbage: bv32) returns (value: bv64, error: nat)
    requires IsLumaRange(src, luma) && val[..] == Lumas(src) && SelectMode(luma) == HighContrastBlock
    modifies val
    ensures error <= MAX_ERROR
    ensures error < MAX_ERROR ==> ShowsTh(src, value, error) && SearchFinds(src, error)
    ensures error < MAX_ERROR ==>
              var shown := ShownError(src, ShownBy(value), 16); error == shown <==> shown < FULL
    ensures error == MAX_ERROR ==> SearchFails(src) && ShowsGarbage(src, value, garbage)
  {
    hide Lumas, IsThWord, IsGarbage, SearchFails, SearchFinds, Bswap32, Join;
    hide ShownError, ShownBy, DecodedBlock, Wrap32, Searched, BlockErr, ShowsPaints;
    assert val[luma.maxIdx] - val[luma.minIdx] >= MODE_TH_RANGE by {
      assert val[luma.maxIdx] == val[..][luma.maxIdx] && val[luma.minIdx] == val[..][luma.minIdx];
    }
    var lo, hi, tMode;
    error, lo, hi, tMode := CompressBlockTH(src, val, garbage);
    value := Join(Bswap32(lo), Bswap32(hi));
    if error < MAX_ERROR {
      ThWordShowsTh(src, tMode, lo, hi, error);
      WrapLowers(ShownError(src, ShownBy(value), 16));
    }
  }

  /** What is emitted for a block that is neither solid nor left to planar mode. */
  ghost predicate FittedOutcome(src: Block, mode: BlockMode, layout: nat, f: Fit, thError: nat, garbage: bv32,
                                d: bv64) {
    && IsEtcChoice(src, layout, f)
    && match mode
       case HighContrastBlock =>
         && ((thError < MAX_ERROR && SearchFinds(src, thError)) || (thError == MAX_ERROR && SearchFails(src)))
         && (if EtcCost(src, layout, f) < thError then ShowsFit(src, layout, f, d)
             else if thError < MAX_ERROR then ShowsTh(src, d, thError)
             else ShowsGarbage(src, d, garbage))
       case _ => ShowsFit(src, layout, f, d)
  }

  /** What the fit competes with: the T/H candidate of a high-contrast block, or a placeholder that
      can only be worse. */
  ghost predicate Competes(src: Block, mode: BlockMode, value: bv64, error: nat, garbage: bv32) {
    if mode == HighContrastBlock then
      if error < MAX_ERROR then ShowsTh(src, value, error) && SearchFinds(src, error)
      else error == MAX_ERROR && SearchFails(src) && ShowsGarbage(src, value, garbage)
    else error == MAX_ERROR && WithinRange(src, 96)
  }

  method OtherCandidate(src: Block, mode: BlockMode, luma: LumaRange, val: array<int>, garbage: bv32)
    returns (value: bv64, error: nat)
    requires mode == SelectMode(luma) && IsLumaRange(src, luma) && val[..] == Lumas(src)
    modifies val
    ensures Competes(src, mode, value, error, garbage)
  {
    hide SearchFails, SearchFinds, ShowsTh, ShowsGarbage, WithinRange, SelectMode, IsLumaRange, Lumas, ShownError,
         ShownBy;
    if mode == HighContrastBlock {
      value, error := ThCandidate(src, luma, val, garbage);
    } else {
      value, error := 0, MAX_ERROR;
      OutsideHighContrast(src, luma);
    }
  }

  /** The better of the fit and its competitor. */
  lemma FitOrOther(src: Block, mode: BlockMode, layout: nat, f: Fit, value: bv64, error: nat, garbage: bv32, d: bv64)
    requires Competes(src, mode, value, error, garbage) && layout < 4 && IsFit(f) && IsEtcChoice(src, layout, f)
    requires d == if EtcCost(src, layout, f) >= error then value else EtcWord(Candidates(src), layout, f)
    requires WithinRange(src, 96) ==> EtcCost(src, layout, f) < MAX_ERROR
    ensures FittedOutcome(src, mode, layout, f, error, garbage, d)
  {
    hide SearchFails, SearchFinds, ShowsTh, ShowsGarbage, WithinRange, ShowsFit, IsEtcChoice, EtcCost, EtcWord,
         Candidates;
    EtcWordShowsFit(src, layout, f);
  }

  /** Whether the block is left to planar mode. */
  ghost predicate PlanarWins(src: Block, planar: bv64, mode: BlockMode, useHeuristics: bool) {
    !useHeuristics || mode == PlanarBlock || StoredError(src, planar, 16) == 0
  }

  /** What is emitted for a block: a solid block becomes a solid word. Without the heuristics every
      other block becomes a planar word, and so does one in planar mode or one that a plane shows
      exactly. Of the rest, blocks outside the high-contrast mode always become the best ETC1 fit,
      never the placeholder; in the high-contrast mode the fit competes with the T/H candidate, and
      the decoder shows whichever is emitted as it was chosen. Only if the fit has an error of
      MAX_ERROR or more and the search found no distance below that, the word that is emitted holds
      what the uninitialised index word held. */
  ghost predicate Etc2Outcome(src: Block, planar: bv64, useHeuristics: bool, garbage: bv32, mode: BlockMode, d: bv64) {
    && (useHeuristics && !IsSolid(src) ==> HasMode(src, mode))
    && (IsSolid(src) ==> d == SolidWord(src[0]))
    && (!IsSolid(src) && PlanarWins(src, planar, mode, useHeuristics) ==> d == planar)
    && (!IsSolid(src) && !PlanarWins(src, planar, mode, useHeuristics) ==>
          exists layout, f, thError :: FittedOutcome(src, mode, layout, f, thError, garbage, d))
  }

  lemma GarbageMode(src: Block, d: bv64, garbage: bv32)
    requires ShowsGarbage(src, d, garbage)
    ensures var m := ModeOf(Lo(ConvertByteOrder(d))); m == ModeT || m == ModeH
  {
    hide PlannedBy, IsPlan, Stuff59, Stuff58, PackT, PackH, ModeOf, Lo, Hi, Join, Bswap32, ConvertByteOrder,
         ConvertedHi;
    var tMode: bool, lo: bv32, hi: bv32 :|
      IsGarbage(src, tMode, lo, hi, garbage) && d == Join(Bswap32(lo), Bswap32(hi));
    ConvertUndoesSwappedHalves(lo, hi);
    Halves(lo, hi);
    var q0: Rgb444, q1: Rgb444, start: nat :|
      && IsPlan(src, tMode, q0, q1, start)
      && lo == StuffedLo(tMode, q0, q1, NO_DIST) && hi == ConvertedHi(tMode, q0, q1, NO_DIST, garbage);
    if tMode {
      Stuff59IsT(PackT(q0, q1, NO_DIST));
    } else {
      var (c0, c1) := if MustSwap(q0, q1, NO_DIST) then (q1, q0) else (q0, q1);
      Stuff58IsH(PackH(c0, c1, NO_DIST));
    }
  }

  /** A block that is not left to planar mode is stored in another one, and in T or H mode only if it was
      searched for that. */
  lemma FittedMode(src: Block, mode: BlockMode, layout: nat, f: Fit, thError: nat, garbage: bv32, d: bv64)
    requires FittedOutcome(src, mode, layout, f, thError, garbage, d)
    ensures var m := ModeOf(Lo(ConvertByteOrder(d)));
            m != ModePlanar && (m == ModeT || m == ModeH ==> mode == HighContrastBlock)
  {
    hide ModeOf, Lo, ConvertByteOrder, IsEtcChoice, EtcCost, SearchFinds, SearchFails, ShowsGarbage, ShowsTh, ShowsFit;
    ChoiceIsFit(src, layout, f);
    if ShowsFit(src, layout, f, d) {
      FitMode(src, layout, f, d);
    } else if thError < MAX_ERROR {
      ThMode(src, d, thError);
    } else {
      GarbageMode(src, d, garbage);
    }
  }

  lemma FitMode(src: Block, layout: nat, f: Fit, d: bv64)
    requires layout < 4 && IsFit(f) && ShowsFit(src, layout, f, d)
    ensures ModeOf(Lo(ConvertByteOrder(d))) in {Individual, Differential}
  {
    hide ModeOf, Lo, ConvertByteOrder, PixelOf, FittedColor;
  }

  lemma ThMode(src: Block, d: bv64, err: nat)
    requires ShowsTh(src, d, err)
    ensures ModeOf(Lo(ConvertByteOrder(d))) in {ModeT, ModeH}
  {
    hide ModeOf, Lo, ConvertByteOrder, ShownError, ShownBy, Searched, BlockErr, ShowsPaints, Wrap32;
  }

  /** With the heuristics on, which blocks that are not solid are stored in planar mode: exactly the smooth
      ones and those that the planar word shows without error. And only a block with contrast is stored
      in T or H mode. */
  lemma WhenPlanarIsStored(src: Block, co: Rgb676, ch: Rgb676, cv: Rgb676, garbage: bv32, mode: BlockMode, d: bv64)
    requires Etc2Outcome(src, PlanarWord(co, ch, cv), true, garbage, mode, d) && !IsSolid(src)
    ensures ModeOf(Lo(ConvertByteOrder(d))) == ModePlanar <==>
              IsSmooth(src) || StoredError(src, PlanarWord(co, ch, cv), 16) == 0
    ensures ModeOf(Lo(ConvertByteOrder(d))) == ModePlanar ==> d == PlanarWord(co, ch, cv)
    ensures var m := ModeOf(Lo(ConvertByteOrder(d))); m == ModeT || m == ModeH ==> IsContrasty(src)
  {
    hide IsSolid, HasMode, PlanarWord, StoredError, IsSmooth, IsContrasty, ModeOf, Lo, ConvertByteOrder, FittedOutcome;
    ModeByLumas(src, mode);
    PlanarRoundTrip(co, ch, cv, 0, 0);
    if !PlanarWins(src, PlanarWord(co, ch, cv), mode, true) {
      var layout, f, thError :| FittedOutcome(src, mode, layout, f, thError, garbage, d);
      FittedMode(src, mode, layout, f, thError, garbage, d);
    }
  }

  /** ProcessRGB_ETC2, scalar: the plane colours co, ch, cv come from a floating-point fit, garbage is
      what an uninitialised index word holds. */
  method ProcessRgbEtc2(src: Block, co: Rgb676, ch: Rgb676, cv: Rgb676, useHeuristics: bool, garbage: bv32)
    returns (d: bv64, mode: BlockMode)
    ensures Etc2Outcome(src, PlanarWord(co, ch, cv), useHeuristics, garbage, mode, d)
    ensures useHeuristics && !IsSolid(src) ==>
              && (mode == PlanarBlock <==> IsSmooth(src)) && (mode == HighContrastBlock <==> IsContrasty(src))
    ensures useHeuristics && !IsSolid(src) ==>
              (d == PlanarWord(co, ch, cv) <==> IsSmooth(src) || StoredError(src, PlanarWord(co, ch, cv), 16) == 0)
  {
    ghost var planar := PlanarWord(co, ch, cv);
    d, mode := ChooseWord(src, co, ch, cv, useHeuristics, garbage);
    if useHeuristics && !IsSolid(src) {
      hide IsSolid, Etc2Outcome;
      PlanarRoundTrip(co, ch, cv, 0, 0);
      WhenPlanarIsStored(src, co, ch, cv, garbage, mode, d);
      ModeByLumas(src, mode) by { assert Etc2Outcome(src, planar, true, garbage, mode, d); }
    }
  }

  /** The body of ProcessRGB_ETC2. */
  method ChooseWord(src: Block, co: Rgb676, ch: Rgb676, cv: Rgb676, useHeuristics: bool, garbage: bv32)
    returns (d: bv64, mode: BlockMode)
    ensures Etc2Outcome(src, PlanarWord(co, ch, cv), useHeuristics, garbage, mode, d)
  {
    hide IsSolid, SolidWord, PlanarWord, StoredError, Candidates, TableError, BestSelector, PixAt, PixelDeviations,
         EtcWord;
    hide IsEtcChoice, Competes, FittedOutcome, WithinRange, SelectMode, IsLumaRange, Lumas, EtcCost;
    mode := UndecidedBlock;
    d := CheckSolid(src);
    if d != 0 {
      return;
    }
    var luma := LumaRange(0, 255, 0, 0);
    var val := new int[16];
    if useHeuristics {
      luma, val := CalculateLuma(src);
      mode := SelectMode(luma);
      LumaRangeIs(src, luma);
    }
    var value, error := EncodePlanar(src, co, ch, cv, mode, useHeuristics);
    if error == 0 {
      return value, mode;
    }
    var a, layout := ChooseLayout(src);
    var terr, tsel := FindBestFit(src, a[..], layout);
    value, error := OtherCandidate(src, mode, luma, val, garbage);
    d := EncodeSelectors(src, layout, terr, tsel, value, error);
    ghost var f :|
      && IsFit(f) && IsEtcChoice(src, layout, f)
      && d == (if EtcCost(src, layout, f) >= error then value else EtcWord(Candidates(src), layout, f))
      && (WithinRange(src, 96) ==> EtcCost(src, layout, f) < MAX_ERROR);
    FitOrOther(src, mode, layout, f, value, error, garbage, d);
  }

  lemma LumaRangeIs(src: Block, luma: LumaRange)
    requires IsFirstLeast(Lumas(src), luma.minIdx) && luma.min == Lumas(src)[luma.minIdx]
    requires IsFirstGreatest(Lumas(src), luma.maxIdx) && luma.max == Lumas(src)[luma.maxIdx]
    ensures IsLumaRange(src, luma)
  {
  }
}
