/** The two scales on which the encoder compares its candidates: the weights of an ETC1 error add up to
    256, those of a T/H error to 128, and both are squared. On grey blocks the ETC1 error is four times
    what the block shown amounts to on the other scale, so a T/H word can win that shows a worse block. */
module EtcScale {
  import opened Words
  import opened Pixels
  import opened Tables
  import opened ThSearch
  import opened Decoder
  import opened ThBlock
  import opened EtcAverages
  import opened EtcFit
  import opened EtcWords
  import opened EtcBlock
  import opened Planar
  import opened Palette

  predicate IsGrey(src: Block) {
    forall p :: 0 <= p < 16 ==> src[p].r == src[p].g == src[p].b
  }

  // ---------- grey blocks have grey base colours ----------

  lemma {:induction false} GreySums(src: Block, quads: set<nat>, n: nat)
    requires IsGrey(src) && n <= 16
    ensures SumIn(src, 0, quads, n) == SumIn(src, 1, quads, n) == SumIn(src, 2, quads, n)
  {
    hide QuadrantOf;
    if n > 0 {
      GreySums(src, quads, n - 1);
    }
  }

  lemma GreyAverages(src: Block, k: nat)
    requires IsGrey(src) && k < 4
    ensures var c := AveragesOf(src)[k]; c.r == c.g == c.b
  {
    GreySums(src, HalfQuadrants(k), 16);
    hide SumIn, HalfQuadrants;
  }

  lemma GreyCandidates(src: Block, k: nat)
    requires IsGrey(src) && k < 8
    ensures var c := Candidates(src)[k]; c.r == c.g == c.b
  {
    hide AveragesOf, Mul8Bit, FiveBits, Reach, ExpandFive, IsGrey;
    GreyAverages(src, 0);
    GreyAverages(src, 1);
    GreyAverages(src, 2);
    GreyAverages(src, 3);
    GreyCodes(AveragesOf(src), k);
  }

  lemma GreyCodes(avgs: seq<Rgb>, k: nat)
    requires |avgs| == 4 && k < 8 && forall j :: 0 <= j < 4 ==> avgs[j].r == avgs[j].g == avgs[j].b
    ensures var c := Quantized(avgs, k); c.r == c.g == c.b
  {
    hide Mul8Bit, FiveBits, Reach, ExpandFive;
  }

  // ---------- the two scales ----------

  /** The level the fit gives pixel p before it is clamped to a byte. */
  function Level(src: Block, layout: nat, f: Fit, p: nat): int
    requires layout < 4 && IsFit(f) && p < 16
  {
    IdBound(layout, p);
    var id := AverageIds(layout)[p];
    Candidates(src)[id].r + Modifiers(f.tables[id % 2])[f.selectors[p]]
  }

  predicate IsUnclamped(src: Block, layout: nat, f: Fit)
    requires layout < 4 && IsFit(f)
  {
    forall p :: 0 <= p < 16 ==> 0 <= Level(src, layout, f, p) <= 255
  }

  lemma SquaresScale(v: byte, level: int)
    ensures 4 * Sq(128 * Abs(v - ClampU8(level))) <= Sq(256 * (level - v))
    ensures 0 <= level <= 255 ==> 4 * Sq(128 * Abs(v - ClampU8(level))) == Sq(256 * (level - v))
  {
    hide Sq;
    var x := Abs(v - ClampU8(level));
    TwiceSquared(128 * x);
    SquareOfAbs(256 * (level - v));
    assert 2 * (128 * x) <= Abs(256 * (level - v));
    SquaresGrow(2 * (128 * x), Abs(256 * (level - v)));
  }

  lemma TwiceSquared(x: int)
    ensures Sq(2 * x) == 4 * Sq(x)
  {
  }

  lemma SquareOfAbs(x: int)
    ensures Sq(Abs(x)) == Sq(x)
  {
  }

  lemma SquaresGrow(x: nat, y: nat)
    requires x <= y
    ensures Sq(x) <= Sq(y)
  {
    SquareMonotone(x, y);
  }

  lemma GreyPixErr(p: Pixel, c: Rgb)
    requires p.r == p.g == p.b && c.r == c.g == c.b
    ensures PixErr(p, c) == Sq(128 * Abs(p.r - c.r))
  {
    hide Sq;
    assert 38 * Abs(p.r - c.r) + 76 * Abs(p.g - c.g) + 14 * Abs(p.b - c.b) == 128 * Abs(p.r - c.r);
  }

  lemma GreyPix(a: Rgb, p: Pixel)
    requires a.r == a.g == a.b && p.r == p.g == p.b
    ensures Pix(a, p) == 256 * (a.r - p.r)
  {
  }

  lemma GreyPixel(src: Block, layout: nat, f: Fit, p: nat)
    requires IsGrey(src) && layout < 4 && IsFit(f) && p < 16
    ensures var err := PixErr(src[p], FittedColor(Candidates(src), layout, f, p));
            var cost := PixelCost(src, Candidates(src), layout, f, p);
            4 * err <= cost && (0 <= Level(src, layout, f, p) <= 255 ==> 4 * err == cost)
  {
    hide Candidates, AverageIds, Modifiers, Modifiers256, PixErr, Sq, Pix;
    IdBound(layout, p);
    var id := AverageIds(layout)[p];
    GreyCandidates(src, id);
    var (a, m) := (Candidates(src)[id], Modifiers(f.tables[id % 2])[f.selectors[p]]);
    ModifierScale(f.tables[id % 2], f.selectors[p]);
    GreyPix(a, src[p]);
    GreyPixErr(src[p], FittedColor(Candidates(src), layout, f, p));
    SquaresScale(src[p].r, a.r + m);
    assert 256 * m + 256 * (a.r - src[p].r) == 256 * (a.r + m - src[p].r);
  }

  /** On the scale of the T/H error, a grey block is shown by an ETC1 word with a quarter of the error the
      encoder reckons with, or less where a level is clamped. */
  lemma GreyCostIsFourfold(src: Block, layout: nat, f: Fit)
    requires IsGrey(src) && layout < 4 && IsFit(f)
    ensures var shown := ShownError(src, ShownBy(EtcWord(Candidates(src), layout, f)), 16);
            && 4 * shown <= EtcCost(src, layout, f)
            && (IsUnclamped(src, layout, f) ==> 4 * shown == EtcCost(src, layout, f))
  {
    hide Candidates, EtcWord, PixelOf, FittedColor, ShownError, Cost, PixErr, PixelCost, Level, IsGrey;
    var shown := ShownBy(EtcWord(Candidates(src), layout, f));
    forall p | 0 <= p < 16
      ensures ColorOf(shown[p]) == FittedColor(Candidates(src), layout, f, p)
      ensures 4 * PixErr(src[p], ColorOf(shown[p])) <= PixelCost(src, Candidates(src), layout, f, p)
      ensures 0 <= Level(src, layout, f, p) <= 255 ==>
                4 * PixErr(src[p], ColorOf(shown[p])) == PixelCost(src, Candidates(src), layout, f, p)
    {
      EtcRoundTrip(src, layout, f, p / 4, p % 4);
      assert 4 * (p / 4) + p % 4 == p;
      GreyPixel(src, layout, f, p);
    }
    ShownScalesWithCost(src, Candidates(src), layout, f, shown);
  }

  /** When the encoder takes the T/H candidate for a grey block although the fit shows it better: exactly
      if the ETC1 error lies between the T/H error and four times that. */
  lemma WorseIsTaken(src: Block, layout: nat, f: Fit, thError: nat)
    requires IsGrey(src) && layout < 4 && IsFit(f) && IsUnclamped(src, layout, f)
    ensures var shown := ShownError(src, ShownBy(EtcWord(Candidates(src), layout, f)), 16);
            EtcCost(src, layout, f) >= thError > shown <==> thError <= EtcCost(src, layout, f) < 4 * thError
  {
    hide Candidates, EtcWord, ShownError, EtcCost, IsGrey, IsUnclamped;
    GreyCostIsFourfold(src, layout, f);
  }

  // ---------- a block for which it does ----------

  function A(): Pixel { Grey(93) }

  function B(): Pixel { Grey(131) }

  function C(): Pixel { Grey(177) }

  function D(): Pixel { Grey(217) }

  /** Every quadrant has one pixel of each level. */
  function Witness(): Block {
    [A(), B(), A(), B(), C(), D(), C(), D(), A(), B(), A(), B(), C(), D(), C(), D()]
  }

  function WitnessDesign(): Design {
    Design([A(), B(), C(), D()],
           [0, 1, 0, 1, 2, 3, 2, 3, 0, 1, 0, 1, 2, 3, 2, 3],
           [0, 2, 8, 10, 1, 3, 9, 11, 4, 6, 12, 14, 5, 7, 13, 15],
           [0, 4, 1, 5, 8, 12, 9, 13, 2, 6, 3, 7, 10, 14, 11, 15])
  }

  lemma LumasOfLevels()
    ensures LumaOf(A()) == 93 && LumaOf(B()) == 131 && LumaOf(C()) == 177 && LumaOf(D()) == 217
  {
    hide LumaOf;
    LumaOfGrey(93);
    LumaOfGrey(131);
    LumaOfGrey(177);
    LumaOfGrey(217);
  }

  lemma DesignHasShape()
    ensures HasShape(WitnessDesign())
  {
  }

  lemma DesignInverts(p: nat)
    requires p < 16 && HasShape(WitnessDesign())
    ensures WitnessDesign().order[WitnessDesign().rank[p]] == p
  {
    hide HasShape;
  }

  lemma DesignRises(k: nat)
    requires k < 15 && HasShape(WitnessDesign())
    ensures Key(WitnessDesign(), k) < Key(WitnessDesign(), k + 1)
  {
    hide HasShape;
  }

  lemma WitnessIsDesign()
    ensures IsDesign(WitnessDesign())
  {
    hide LumaOf, HasShape, Key;
    DesignHasShape();
    LumasOfLevels();
    forall p | 0 <= p < 16 ensures WitnessDesign().order[WitnessDesign().rank[p]] == p {
      DesignInverts(p);
    }
    forall k | 0 <= k < 15 ensures Key(WitnessDesign(), k) < Key(WitnessDesign(), k + 1) {
      DesignRises(k);
    }
  }

  lemma WitnessIsPainted()
    requires IsDesign(WitnessDesign())
    ensures Painted(WitnessDesign()) == Witness() && WitnessDesign().order == Order()
  {
    hide IsDesign;
  }

  function Order(): (order: seq<nat>)
    ensures PixelOrder(order)
  {
    WitnessDesign().order
  }

  function SortedOfWitness(): seq<int> {
    [93, 93, 93, 93, 131, 131, 131, 131, 177, 177, 177, 177, 217, 217, 217, 217]
  }

  lemma SortedIs()
    ensures SortedLumas(Witness(), Order()) == SortedOfWitness()
  {
    hide LumaOf;
    LumasOfLevels();
  }

  lemma SplitIsSeven(i: nat)
    requires i < 15
    ensures SplitCost(SortedOfWitness(), 7) == 78
    ensures i != 7 ==> SplitCost(SortedOfWitness(), i) > 78
  {
  }

  lemma ColorsOfPlan()
    ensures BaseColors(Witness(), Order(), 7, Plan(false, false)) == (Rgb(112, 112, 112), Rgb(197, 197, 197))
    ensures AvgDist(Witness(), Order(), 7, Plan(false, false)) == 19
  {
  }

  lemma CodesOfPlan()
    ensures QuantizeRgb(Rgb(112, 112, 112), false) == Rgb444(7, 7, 7)
    ensures QuantizeRgb(Rgb(197, 197, 197), false) == Rgb444(12, 12, 12)
  {
  }

  function Q0(): Rgb444 { Rgb444(7, 7, 7) }

  function Q1(): Rgb444 { Rgb444(12, 12, 12) }

  lemma WitnessIsPlanned()
    ensures IsPlan(Witness(), false, Q0(), Q1(), 1)
  {
    hide Sorted, Stable, Rearranges, SplitCost, BaseColors, QuantizeRgb, AvgDist, SortedLumas, Order, Witness, IsDesign;
    WitnessIsDesign();
    WitnessIsPainted();
    SortedIs();
    DesignIsSorted(WitnessDesign());
    forall i | 0 <= i < 15
      ensures SplitCost(SortedOfWitness(), 7) <= SplitCost(SortedOfWitness(), i)
      ensures i < 7 ==> SplitCost(SortedOfWitness(), 7) < SplitCost(SortedOfWitness(), i)
    {
      SplitIsSeven(i);
    }
    ColorsOfPlan();
    CodesOfPlan();
    assert PlannedBy(Witness(), Order(), 7, Plan(false, false), false, Q0(), Q1(), 1);
  }

  lemma Columns()
    ensures var w := Witness();
            && w[0] == A() && w[1] == B() && w[2] == A() && w[3] == B()
            && w[4] == C() && w[5] == D() && w[6] == C() && w[7] == D()
            && w[8] == A() && w[9] == B() && w[10] == A() && w[11] == B()
            && w[12] == C() && w[13] == D() && w[14] == C() && w[15] == D()
  {
  }

  // ---------- its T/H error ----------

  lemma PaintsAre(d: nat)
    requires 1 <= d < 5
    ensures var (ps, t) := (Paints(false, Q0(), Q1(), d), TableTH(d));
            && ps[0] == Rgb(119 + t, 119 + t, 119 + t) && ps[1] == Rgb(119 - t, 119 - t, 119 - t)
            && ps[2] == Rgb(204 + t, 204 + t, 204 + t) && ps[3] == Rgb(204 - t, 204 - t, 204 - t)
            && t == [0, 6, 11, 16, 23][d]
  {
    TableRange(d);
    hide TableTH;
  }

  lemma TableRange(d: nat)
    requires 1 <= d < 5
    ensures TableTH(d) == [0, 6, 11, 16, 23][d] <= 23
  {
  }

  lemma GreyGap(v: byte, c: byte)
    ensures Gap(Grey(v), Rgb(c, c, c)) == 128 * Abs(v - c)
  {
  }

  /** The nearest paint colour of each level: below and above the first base colour, below and above the
      second. */
  lemma NearestPaints(d: nat)
    requires 1 <= d < 5
    ensures var ps := Paints(false, Q0(), Q1(), d);
            var (a, b) := ([0, 20, 15, 10, 3][d], [0, 6, 1, 4, 11][d]);
            var (c, e) := ([0, 21, 16, 11, 4][d], [0, 7, 2, 3, 10][d]);
            && LeastErr(A(), ps) == (128 * a) * (128 * a) && LeastErr(B(), ps) == (128 * b) * (128 * b)
            && LeastErr(C(), ps) == (128 * c) * (128 * c) && LeastErr(D(), ps) == (128 * e) * (128 * e)
  {
    hide Paints, LeastErr, Gap;
    PaintsAre(d);
    var (ps, t) := (Paints(false, Q0(), Q1(), d), TableTH(d));
    forall v: byte ensures Gap(Grey(v), ps[0]) == 128 * Abs(v - (119 + t)) {
      GreyGap(v, ps[0].r);
    }
    forall v: byte ensures Gap(Grey(v), ps[1]) == 128 * Abs(v - (119 - t)) {
      GreyGap(v, ps[1].r);
    }
    forall v: byte ensures Gap(Grey(v), ps[2]) == 128 * Abs(v - (204 + t)) {
      GreyGap(v, ps[2].r);
    }
    forall v: byte ensures Gap(Grey(v), ps[3]) == 128 * Abs(v - (204 - t)) {
      GreyGap(v, ps[3].r);
    }
    LeastErrIs(A(), ps, 1, 128 * [0, 20, 15, 10, 3][d]);
    LeastErrIs(B(), ps, 0, 128 * [0, 6, 1, 4, 11][d]);
    LeastErrIs(C(), ps, 3, 128 * [0, 21, 16, 11, 4][d]);
    LeastErrIs(D(), ps, 2, 128 * [0, 7, 2, 3, 10][d]);
  }

  lemma SumsAre(d: nat)
    requires 1 <= d < 5
    ensures BlockSum(false, Witness(), Q0(), Q1(), d) == [0, 60686336, 31850496, 16121856, 16121856][d]
  {
    hide Paints, ErrorSum, LeastErr, Witness;
    Columns();
    FourRowsOfErrors(Witness(), Paints(false, Q0(), Q1(), d));
    NearestPaints(d);
    if d == 1 {
    } else if d == 2 {
    } else if d == 3 {
    } else {
    }
  }

  lemma WitnessIsSearched()
    ensures Searched(Witness(), false, Q0(), Q1(), 1, 3) && SearchFinds(Witness(), 16121856)
  {
    hide IsPlan, BlockSum, Witness, Errs;
    WitnessIsPlanned();
    SumsAre(1);
    SumsAre(2);
    SumsAre(3);
    SumsAre(4);
    var errs := Errs(false, Witness(), Q0(), Q1());
    assert errs[1] == 60686336 && errs[2] == 31850496 && errs[3] == 16121856 && errs[4] == 16121856;
    assert FirstLocalMin(errs, 1, 1, 3);
    assert Searched(Witness(), false, Q0(), Q1(), 1, 3);
  }

  // ---------- its ETC1 error ----------

  lemma WitnessIsGrey()
    ensures IsGrey(Witness())
  {
    hide Witness;
    Columns();
  }

  lemma HalvesAlike(c: nat, k: nat)
    requires c < 3 && k < 4
    ensures HalfSum(Witness(), c, k) == 1236
  {
    hide SumIn, Witness;
    Columns();
    var q := HalfQuadrants(k);
    SumColumn(Witness(), c, q, 0);
    SumColumn(Witness(), c, q, 1);
    SumColumn(Witness(), c, q, 2);
    SumColumn(Witness(), c, q, 3);
    NoSum(Witness(), c, q);
    HalfCounts(k);
  }

  function Base(layout: nat): Rgb {
    if layout < 2 then Rgb(153, 153, 153) else Rgb(156, 156, 156)
  }

  lemma CandidatesAre(k: nat)
    requires k < 8
    ensures Candidates(Witness())[k] == Base(k / 2)
  {
    hide HalfSum, Witness;
    forall c, j | 0 <= c < 3 && 0 <= j < 4 ensures HalfSum(Witness(), c, j) == 1236 {
      HalvesAlike(c, j);
    }
    var avgs := AveragesOf(Witness());
    assert forall j :: 0 <= j < 4 ==> avgs[j] == Rgb(155, 155, 155);
    Codes(avgs, if k < 4 then k else k - 4);
  }

  lemma Codes(avgs: seq<Rgb>, k: nat)
    requires |avgs| == 4 && k < 4 && forall j :: 0 <= j < 4 ==> avgs[j] == Rgb(155, 155, 155)
    ensures FourCode(avgs, k, 0) == FourCode(avgs, k, 1) == FourCode(avgs, k, 2) == 9
    ensures FiveCode(avgs, k, 0) == FiveCode(avgs, k, 1) == FiveCode(avgs, k, 2) == 19
  {
    hide FiveBits, Mul8Bit;
    CodesOfAverage();
  }

  lemma CodesOfAverage()
    ensures Mul8Bit(155, 15) == 9 && FiveBits(155) == 19
  {
  }

  /** The least squared miss of a level that lies off below the base, with table t. */
  function Miss(off: int, t: nat): nat
    requires t < 8
  {
    Min(Min(Sq(Modifiers(t)[0] + off), Sq(Modifiers(t)[1] + off)),
        Min(Sq(Modifiers(t)[2] + off), Sq(Modifiers(t)[3] + off)))
  }

  lemma ScaledSquare(m: int, off: int)
    ensures Sq(256 * m + 256 * off) == 65536 * Sq(m + off)
  {
    var x := m + off;
    assert (256 * x) * (256 * x) == 65536 * (x * x);
    assert 256 * m + 256 * off == 256 * x;
  }

  lemma LeastIsMiss(off: int, t: nat)
    requires t < 8
    ensures Least(256 * off, t) == 65536 * Miss(off, t)
  {
    hide Modifiers, Modifiers256, Sq;
    ModifierScale(t, 0);
    ModifierScale(t, 1);
    ModifierScale(t, 2);
    ModifierScale(t, 3);
    ScaledSquare(Modifiers(t)[0], off);
    ScaledSquare(Modifiers(t)[1], off);
    ScaledSquare(Modifiers(t)[2], off);
    ScaledSquare(Modifiers(t)[3], off);
  }

  /** No table comes closer to the four levels than 68, around either base. */
  lemma MissesAre(t: nat)
    requires t < 8
    ensures Miss(60, t) + Miss(22, t) + Miss(-24, t) + Miss(-64, t) >= 68
    ensures Miss(63, t) + Miss(25, t) + Miss(-21, t) + Miss(-61, t) >= 68
  {
    if t == 0 {
    } else if t == 1 {
    } else if t == 2 {
    } else if t == 3 {
    } else if t == 4 {
    } else if t == 5 {
    } else if t == 6 {
    } else {
    }
  }

  lemma QuadrantIs(layout: nat, q: nat, t: nat)
    requires layout < 4 && q < 4 && t < 8
    ensures QuadrantCost(Witness(), Base(layout), q, t) >= 68 * 65536
  {
    hide Least, Pix, Witness, Miss;
    Columns();
    MissesAre(t);
    var off: int := Base(layout).r;
    GreyPix(Base(layout), A());
    GreyPix(Base(layout), B());
    GreyPix(Base(layout), C());
    GreyPix(Base(layout), D());
    LeastIsMiss(off - 93, t);
    LeastIsMiss(off - 131, t);
    LeastIsMiss(off - 177, t);
    LeastIsMiss(off - 217, t);
  }

  lemma CostAtLeast(layout: nat, f: Fit)
    requires layout < 4 && IsFit(f)
    ensures EtcCost(Witness(), layout, f) >= 17825792
  {
    hide Witness, Candidates, Cost, LeastCost, QuadrantCost, Base;
    CandidatesAre(2 * layout);
    CandidatesAre(2 * layout + 1);
    CostAboveLeast(Witness(), Candidates(Witness()), layout, Base(layout), f, 16);
    CostOfQuadrants(Witness(), Base(layout), layout, f.tables[0], f.tables[1]);
    forall q, t | 0 <= q < 4 && 0 <= t < 8 ensures QuadrantCost(Witness(), Base(layout), q, t) >= 68 * 65536 {
      QuadrantIs(layout, q, t);
    }
  }

  /** The fit that reaches it: the fifth table for both halves. */
  function BestFit(): (f: Fit)
    ensures IsFit(f)
  {
    Fit([4, 4], [3, 2, 3, 2, 0, 1, 0, 1, 3, 2, 3, 2, 0, 1, 0, 1])
  }

  lemma CostOfPixel(layout: nat, p: nat)
    requires layout < 4 && p < 16
    ensures var w := Witness()[p];
            PixelCost(Witness(), Candidates(Witness()), layout, BestFit(), p)
            == 65536 * (if layout < 2 then if w == A() then 0 else if w == B() then 16 else if w == C() then 36 else 16
                        else if w == A() then 9 else if w == B() then 49 else if w == C() then 9 else 1)
  {
    hide Candidates, AverageIds;
    IdBound(layout, p);
    CandidatesAre(AverageIds(layout)[p]);
    assert Modifiers256(4) == [4608, 15360, -4608, -15360];
    SelectorOfLevel(p);
  }

  lemma SelectorOfLevel(p: nat)
    requires p < 16
    ensures var (w, s) := (Witness()[p], BestFit().selectors[p]);
            (w == A() && s == 3) || (w == B() && s == 2) || (w == C() && s == 0) || (w == D() && s == 1)
  {
  }

  lemma CostOfBestFit(layout: nat)
    requires layout < 4
    ensures EtcCost(Witness(), layout, BestFit()) == 17825792
  {
    hide Witness, Candidates, Cost, PixelCost, BestFit;
    Columns();
    FourColumnsOfCosts(Witness(), Candidates(Witness()), layout, BestFit());
    forall p | 0 <= p < 16
      ensures var w := Witness()[p];
              PixelCost(Witness(), Candidates(Witness()), layout, BestFit(), p)
              == 65536 * (if layout < 2 then if w == A() then 0 else if w == B() then 16 else if w == C() then 36
                   else 16
                          else if w == A() then 9 else if w == B() then 49 else if w == C() then 9 else 1)
    {
      CostOfPixel(layout, p);
    }
  }

  // ---------- what is emitted ----------

  lemma NoOneWayRow(cs: seq<Rgb>)
    requires OneWay(cs)
    requires PlanarWeight(cs[0].r, cs[0].g, cs[0].b) == 11904 && PlanarWeight(cs[1].r, cs[1].g, cs[1].b) == 22656
    requires PlanarWeight(cs[2].r, cs[2].g, cs[2].b) == 11904
    ensures PlanarWeight(cs[3].r, cs[3].g, cs[3].b) != 22656
  {
    if cs[0].g <= cs[1].g <= cs[2].g <= cs[3].g {
    } else {
    }
  }

  lemma NoPlaneShowsIt(co: Rgb676, ch: Rgb676, cv: Rgb676)
    ensures !PlanarWins(Witness(), PlanarWord(co, ch, cv), HighContrastBlock, true)
  {
    hide Witness, StoredError, PlanarWord, OneWay, PlanarWeight;
    if StoredError(Witness(), PlanarWord(co, ch, cv), 16) == 0 {
      var cs := ExactRow(Witness(), co, ch, cv, 0);
      Columns();
      WeightOfPixel(Grey(93), 93, 93, 93);
      WeightOfPixel(Grey(177), 177, 177, 177);
      assert 4 * 0 + 0 == 0 && 4 * 1 + 0 == 4 && 4 * 2 + 0 == 8 && 4 * 3 + 0 == 12;
      assert Witness()[0] == Grey(93) && Witness()[4] == Grey(177) && Witness()[8] == Grey(93)
                && Witness()[12] == Grey(177);
      NoOneWayRow(cs);
    }
  }

  lemma WitnessIsHighContrast()
    ensures HasMode(Witness(), HighContrastBlock) && !IsSolid(Witness())
  {
    hide LumaOf;
    LumasOfLevels();
    var luma := LumaRange(217, 93, 5, 0);
    assert Lumas(Witness()) == [93, 131, 93, 131, 177, 217, 177, 217, 93, 131, 93, 131, 177, 217, 177, 217];
    assert IsLumaRange(Witness(), luma) && SelectMode(luma) == HighContrastBlock;
    assert Witness()[1] != Witness()[0];
  }

  /** The encoder emits a T/H word that shows the witness with an error of 16121856, although the best fit
      of whatever layout it chose would show it with at most 4456448. */
  lemma WorseIsEmitted(co: Rgb676, ch: Rgb676, cv: Rgb676, garbage: bv32, mode: BlockMode, d: bv64)
    requires Etc2Outcome(Witness(), PlanarWord(co, ch, cv), true, garbage, mode, d)
    ensures ModeOf(Lo(ConvertByteOrder(d))) == ModeH && ShownError(Witness(), ShownBy(d), 16) == 16121856
    ensures exists layout, f :: IsFit(f) && IsEtcChoice(Witness(), layout, f)
              && ShownError(Witness(), ShownBy(EtcWord(Candidates(Witness()), layout, f)), 16) <= 4456448
  {
    hide Witness, EtcCost, ShowsFit, ShowsGarbage, SearchFails, SearchFinds, PlanarWins, HasMode, IsSolid, PlanarWord;
    hide ShownError, ShownBy, EtcWord, Candidates, PixelDeviations, Cost, BestFit, IsGrey, Searched, ShowsTh, BlockSum;
    hide ModeOf, Lo, ConvertByteOrder;
    WitnessIsHighContrast();
    ModeIsUnique(Witness(), mode, HighContrastBlock);
    NoPlaneShowsIt(co, ch, cv);
    var layout, f, thError :| FittedOutcome(Witness(), mode, layout, f, thError, garbage, d);
    WitnessIsSearched();
    SearchIsDetermined(Witness(), 16121856, thError);
    ChosenCost(layout, f);
    CostAtLeast(layout, f);
    SumsAre(3);
    ShownIsSearched(Witness(), d, thError, false, Q0(), Q1(), 1, 3);
    WitnessIsGrey();
    GreyCostIsFourfold(Witness(), layout, f);
  }

  lemma ChosenCost(layout: nat, f: Fit)
    requires IsEtcChoice(Witness(), layout, f)
    ensures layout < 4 && IsFit(f) && EtcCost(Witness(), layout, f) <= 17825792
  {
    hide Witness, PixelDeviations, Cost, Candidates, BestFit;
    CostOfBestFit(layout);
  }
}
