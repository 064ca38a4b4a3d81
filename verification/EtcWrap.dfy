/** A block for which the sums of the T/H search leave 32 bits: on the sums themselves the search would
    fail, but what is left of them falls to a small number, and the T word of that distance is emitted
    although any exact comparison would refuse it. */
module EtcWrap {
  import opened Words
  import opened Pixels
  import opened Tables
  import opened ThSearch
  import opened Decoder
  import opened ThBlock
  import opened EtcAverages
  import opened EtcFit
  import opened EtcBlock
  import opened Planar
  import opened Palette

  function Leaf(): Pixel { Pixel(0, 156, 0, 255) }

  function Pink(): Pixel { Pixel(255, 0, 255, 255) }

  function Lime(): Pixel { Pixel(0, 255, 0, 255) }

  function Sky(): Pixel { Pixel(75, 255, 255, 255) }

  function Witness(): Block {
    [Leaf(), Leaf(), Leaf(), Lime(), Sky(), Pink(), Lime(), Lime(),
     Pink(), Pink(), Pink(), Leaf(), Sky(), Pink(), Leaf(), Pink()]
  }

  // ---------- the plan ----------

  function WitnessDesign(): Design {
    Design([Leaf(), Pink(), Lime(), Sky()],
           [0, 0, 0, 2, 3, 1, 2, 2, 1, 1, 1, 0, 3, 1, 0, 1],
           [0, 1, 2, 11, 14, 5, 8, 9, 10, 13, 15, 3, 6, 7, 4, 12],
           [0, 1, 2, 11, 14, 5, 12, 13, 6, 7, 8, 3, 15, 9, 4, 10])
  }

  lemma LumasOfColors()
    ensures LumaOf(Leaf()) == 92 && LumaOf(Pink()) == 104 && LumaOf(Lime()) == 150 && LumaOf(Sky()) == 201
  {
    assert LumaSum(Leaf()) == 23400 && LumaSum(Pink()) == 26520 && LumaSum(Lime()) == 38250 && LumaSum(Sky()) == 51090;
  }

  lemma DesignHasShape()
    ensures HasShape(WitnessDesign())
  {
  }

  lemma DesignInverts(p: nat)
    requires p < 16 && HasShape(WitnessDesign())
    ensures WitnessDesign().order[WitnessDesign().rank[p]] == p
  {
    hide HasShape;
  }

  lemma DesignRises(k: nat)
    requires k < 15 && HasShape(WitnessDesign())
    ensures Key(WitnessDesign(), k) < Key(WitnessDesign(), k + 1)
  {
    hide HasShape;
  }

  lemma WitnessIsDesign()
    ensures IsDesign(WitnessDesign())
  {
    hide LumaOf, HasShape, Key;
    DesignHasShape();
    LumasOfColors();
    forall p | 0 <= p < 16 ensures WitnessDesign().order[WitnessDesign().rank[p]] == p {
      DesignInverts(p);
    }
    forall k | 0 <= k < 15 ensures Key(WitnessDesign(), k) < Key(WitnessDesign(), k + 1) {
      DesignRises(k);
    }
  }

  lemma WitnessIsPainted()
    requires IsDesign(WitnessDesign())
    ensures Painted(WitnessDesign()) == Witness() && WitnessDesign().order == Order()
  {
    hide IsDesign;
  }

  function Order(): (order: seq<nat>)
    ensures PixelOrder(order)
  {
    WitnessDesign().order
  }

  function SortedOfWitness(): seq<int> {
    [92, 92, 92, 92, 92, 104, 104, 104, 104, 104, 104, 150, 150, 150, 201, 201]
  }

  lemma SortedIs()
    ensures SortedLumas(Witness(), Order()) == SortedOfWitness()
  {
    hide LumaOf;
    LumasOfColors();
  }

  lemma SplitIsThirteen(i: nat)
    requires i < 15
    ensures SplitCost(SortedOfWitness(), 13) == 62
    ensures i != 13 ==> SplitCost(SortedOfWitness(), i) > 62
  {
  }

  lemma ColorsOfPlan()
    ensures BaseColors(Witness(), Order(), 13, Plan(true, true)) == (Rgb(75, 255, 255), Rgb(0, 205, 0))
    ensures AvgDist(Witness(), Order(), 13, Plan(true, true)) == 16
  {
    assert SumRange(Witness(), Order(), 14, 15) == Sums(75, 255, 255);
    assert SumRange(Witness(), Order(), 14, 16) == Sums(150, 510, 510);
  }

  lemma CodesOfPlan()
    ensures QuantizeRgb(Rgb(75, 255, 255), true) == Rgb444(4, 15, 15)
    ensures QuantizeRgb(Rgb(0, 205, 0), false) == Rgb444(1, 12, 1)
  {
  }

  function Q0(): Rgb444 { Rgb444(4, 15, 15) }

  function Q1(): Rgb444 { Rgb444(1, 12, 1) }

  lemma WitnessIsPlanned()
    ensures IsPlan(Witness(), true, Q0(), Q1(), 0)
  {
    hide Sorted, Stable, Rearranges, SplitCost, BaseColors, QuantizeRgb, AvgDist, SortedLumas, Order, Witness, IsDesign;
    WitnessIsDesign();
    WitnessIsPainted();
    SortedIs();
    DesignIsSorted(WitnessDesign());
    forall i | 0 <= i < 15
      ensures SplitCost(SortedOfWitness(), 13) <= SplitCost(SortedOfWitness(), i)
      ensures i < 13 ==> SplitCost(SortedOfWitness(), 13) < SplitCost(SortedOfWitness(), i)
    {
      SplitIsThirteen(i);
    }
    ColorsOfPlan();
    CodesOfPlan();
    assert PlannedBy(Witness(), Order(), 13, Plan(true, true), true, Q0(), Q1(), 0);
  }

  // ---------- the sums ----------

  lemma Columns()
    ensures var w := Witness();
            && w[0] == Leaf() && w[1] == Leaf() && w[2] == Leaf() && w[3] == Lime()
            && w[4] == Sky() && w[5] == Pink() && w[6] == Lime() && w[7] == Lime()
            && w[8] == Pink() && w[9] == Pink() && w[10] == Pink() && w[11] == Leaf()
            && w[12] == Sky() && w[13] == Pink() && w[14] == Leaf() && w[15] == Pink()
  {
  }

  function Dark(): Rgb { Rgb(17, 204, 17) }

  lemma PaintsAre(d: nat)
    requires d < 8
    ensures var (ps, t) := (Paints(true, Q0(), Q1(), d), TableTH(d));
            ps[0] == Rgb(68, 255, 255) && ps[1] == Brighter(Dark(), t) && ps[2] == Dark() && ps[3] == Darker(Dark(), t)
  {
    hide TableTH, Brighter, Darker;
  }

  lemma TableRange(d: nat)
    requires d < 5
    ensures 3 <= TableTH(d) <= 23 && TableTH(d) == [3, 6, 11, 16, 23][d]
  {
  }

  /** The least weighted differences of leaf pixels, from the darkest colour, and of lime ones, from the
      brightest. */
  function LeafGap(t: nat): nat
    requires 3 <= t <= 23
  {
    if t <= 17 then 4532 - 128 * t else 3648 - 76 * t
  }

  function LimeGap(t: nat): nat
    requires 3 <= t <= 23
  {
    4760 - 24 * t
  }

  lemma LeafGaps(t: nat)
    requires 3 <= t <= 23
    ensures Gap(Leaf(), Darker(Dark(), t)) == LeafGap(t) <= 4532 == Gap(Leaf(), Dark())
    ensures 4532 <= Gap(Leaf(), Brighter(Dark(), t)) && 4532 <= Gap(Leaf(), Rgb(68, 255, 255))
  {
  }

  lemma LimeGaps(t: nat)
    requires 3 <= t <= 23
    ensures Gap(Lime(), Brighter(Dark(), t)) == LimeGap(t) <= 4760 == Gap(Lime(), Dark())
    ensures LimeGap(t) <= Gap(Lime(), Darker(Dark(), t)) && 4760 <= Gap(Lime(), Rgb(68, 255, 255))
  {
  }

  lemma PinkGaps(t: nat)
    requires 3 <= t <= 23
    ensures Gap(Pink(), Rgb(68, 255, 255)) == 26486 <= Gap(Pink(), Darker(Dark(), t))
    ensures 26486 <= Gap(Pink(), Dark()) && 26486 <= Gap(Pink(), Brighter(Dark(), t))
  {
  }

  lemma SkyGaps(t: nat)
    requires 3 <= t <= 23
    ensures Gap(Sky(), Rgb(68, 255, 255)) == 266 <= Gap(Sky(), Darker(Dark(), t))
    ensures 266 <= Gap(Sky(), Dark()) && 266 <= Gap(Sky(), Brighter(Dark(), t))
  {
  }

  lemma LeastGaps(d: nat)
    requires d < 5 && 3 <= TableTH(d) <= 23
    ensures var (ps, t) := (Paints(true, Q0(), Q1(), d), TableTH(d));
            && LeastErr(Leaf(), ps) == LeafGap(t) * LeafGap(t)
            && LeastErr(Lime(), ps) == LimeGap(t) * LimeGap(t)
            && LeastErr(Pink(), ps) == 26486 * 26486
            && LeastErr(Sky(), ps) == 266 * 266
  {
    hide Paints, TableTH, LeastErr, Gap, Darker, Brighter, Dark, LeafGap, LimeGap;
    PaintsAre(d);
    var (ps, t) := (Paints(true, Q0(), Q1(), d), TableTH(d));
    LeafGaps(t);
    LimeGaps(t);
    PinkGaps(t);
    SkyGaps(t);
    LeastErrIs(Leaf(), ps, 3, LeafGap(t));
    LeastErrIs(Lime(), ps, 1, LimeGap(t));
    LeastErrIs(Pink(), ps, 0, 26486);
    LeastErrIs(Sky(), ps, 0, 266);
  }

  lemma SumOfColors(d: nat)
    requires d < 8
    ensures var ps := Paints(true, Q0(), Q1(), d);
            BlockSum(true, Witness(), Q0(), Q1(), d)
            == 5 * LeastErr(Leaf(), ps) + 6 * LeastErr(Pink(), ps) + 3 * LeastErr(Lime(), ps) + 2 * LeastErr(Sky(), ps)
  {
    hide ErrorSum, Paints, Witness, LeastErr;
    Columns();
    FourRowsOfErrors(Witness(), Paints(true, Q0(), Q1(), d));
  }

  /** The sums of the distances that are tested; the first four leave 32 bits. */
  lemma SumsAre(d: nat)
    requires d < 5
    ensures BlockSum(true, Witness(), Q0(), Q1(), d) == [4361152240, 4343951536, 4318629616, 4297490096, 4280362480][d]
  {
    hide Paints, BlockSum, LeastErr, TableTH;
    TableRange(d);
    LeastGaps(d);
    SumOfColors(d);
    Squares(d);
  }

  lemma Squares(d: nat)
    requires d < 5
    ensures var t := [3, 6, 11, 16, 23][d];
            5 * (LeafGap(t) * LeafGap(t)) + 6 * (26486 * 26486) + 3 * (LimeGap(t) * LimeGap(t)) + 2 * (266 * 266)
            == [4361152240, 4343951536, 4318629616, 4297490096, 4280362480][d]
  {
    if d == 0 {
    } else if d == 1 {
    } else if d == 2 {
    } else if d == 3 {
    } else {
    }
  }

  /** Beyond them no paint colour comes near the pink pixels either. */
  lemma PinkMisses(d: nat)
    requires 5 <= d < 8
    ensures LeastErr(Pink(), Paints(true, Q0(), Q1(), d)) >= 23900 * 23900
  {
    hide LeastErr;
    LeastErrAtLeast(Pink(), Paints(true, Q0(), Q1(), d), 23900);
  }

  lemma SumsAreLarge(d: nat)
    requires d < 8
    ensures BlockSum(true, Witness(), Q0(), Q1(), d) >= MAX_ERROR
  {
    hide Paints, BlockSum, LeastErr;
    if d < 5 {
      SumsAre(d);
    } else {
      SumOfColors(d);
      PinkMisses(d);
    }
  }

  // ---------- the search ----------

  /** On the sums themselves no distance is good enough. */
  lemma WitnessWouldFail()
    ensures SearchOnSumsFails(Witness())
  {
    hide IsPlan, BlockSum, Witness;
    WitnessIsPlanned();
    forall d | 0 <= d < 8 ensures BlockSums(true, Witness(), Q0(), Q1())[d] >= MAX_ERROR {
      SumsAreLarge(d);
    }
    assert NothingBelow(BlockSums(true, Witness(), Q0(), Q1()), 0, 8);
  }

  lemma WitnessErrs(d: nat)
    requires d < 5
    ensures BlockErr(true, Witness(), Q0(), Q1(), d) == [66184944, 48984240, 23662320, 2522800, 4280362480][d]
  {
    hide BlockSum, Witness;
    SumsAre(d);
  }

  /** In 32 bits the search ends at distance 3. */
  lemma WitnessIsSearched()
    ensures Searched(Witness(), true, Q0(), Q1(), 0, 3)
    ensures SearchFinds(Witness(), 2522800)
  {
    hide IsPlan, BlockErr, Witness, Errs;
    WitnessIsPlanned();
    WitnessErrs(0);
    WitnessErrs(1);
    WitnessErrs(2);
    WitnessErrs(3);
    WitnessErrs(4);
    var errs := Errs(true, Witness(), Q0(), Q1());
    assert errs[0] == 66184944 && errs[1] == 48984240 && errs[2] == 23662320 && errs[3] == 2522800
              && errs[4] == 4280362480;
    assert FirstLocalMin(errs, 0, 0, 3);
  }

  // ---------- no fit undercuts it ----------

  lemma {:induction false} CostAboveOne(layout: nat, f: Fit, n: nat, p: nat)
    requires layout < 4 && IsFit(f) && p < n <= 16
    ensures Cost(Witness(), Candidates(Witness()), layout, f, n)
            >= FitErr(PixAt(Witness(), Candidates(Witness()), layout, p),
                      f.tables[AverageIds(layout)[p] % 2], f.selectors[p])
  {
    hide Witness, Candidates, Cost, FitErr, PixAt, AverageIds;
    CostStep(Witness(), Candidates(Witness()), layout, f, n);
    if p < n - 1 {
      CostAboveOne(layout, f, n - 1, p);
    }
  }

  /** No table has a modifier for the leaf, the pink and the sky pixels of one half: their weighted
      values are too unequally spaced. */
  lemma NoTable(t: nat, leaf: nat, pink: nat, sky: nat)
    requires t < 8 && leaf < 4 && pink < 4 && sky < 4
    ensures var m := Modifiers256(t);
            Abs(m[sky] - m[pink] - 24645) >= 3178 || Abs(m[pink] - m[leaf] - 3219) >= 3178
  {
    hide Modifiers256;
    ModifierScale(t, leaf);
    ModifierScale(t, pink);
    ModifierScale(t, sky);
    NoTableOf(t, leaf, pink, sky);
  }

  lemma NoTableOf(t: nat, leaf: nat, pink: nat, sky: nat)
    requires t < 8 && leaf < 4 && pink < 4 && sky < 4
    ensures var m := Modifiers(t);
            m[sky] - m[pink] < 84 || m[sky] - m[pink] > 108 || m[pink] - m[leaf] < 1 || m[pink] - m[leaf] > 24
  {
    if t < 3 {
    } else if t == 3 {
    } else if t == 4 {
    } else if t == 5 {
    } else if t == 6 {
    } else {
    }
  }

  lemma NoCloseFit(layout: nat, f: Fit)
    requires layout < 4 && IsFit(f)
    ensures EtcCost(Witness(), layout, f) >= 1589 * 1589
  {
    hide Witness, Candidates, Cost, FitErr, AverageIds, Modifiers256;
    CostAboveOne(layout, f, 16, 0);
    CostAboveOne(layout, f, 16, 4);
    CostAboveOne(layout, f, 16, 5);
    AverageOfHalf(layout, 0, 0);
    AverageOfHalf(layout, 1, 0);
    AverageOfHalf(layout, 1, 1);
    Columns();
    var a := Candidates(Witness())[2 * layout + 1];
    var (t, s) := (f.tables[1], f.selectors);
    NoTable(t, s[0], s[5], s[4]);
    SomeMiss(a, t, s[0], s[5], s[4]);
  }

  lemma SomeMiss(a: Rgb, t: nat, leaf: nat, pink: nat, sky: nat)
    requires t < 8 && leaf < 4 && pink < 4 && sky < 4
    requires var m := Modifiers256(t);
             Abs(m[sky] - m[pink] - 24645) >= 3178 || Abs(m[pink] - m[leaf] - 3219) >= 3178
    ensures FitErr(Pix(a, Leaf()), t, leaf) >= 1589 * 1589 || FitErr(Pix(a, Pink()), t, pink) >= 1589 * 1589
            || FitErr(Pix(a, Sky()), t, sky) >= 1589 * 1589
  {
    hide Modifiers256, Sq;
    var m := Modifiers256(t);
    var (x, y, z) := (m[leaf] + Pix(a, Leaf()), m[pink] + Pix(a, Pink()), m[sky] + Pix(a, Sky()));
    assert z - y == m[sky] - m[pink] - 24645 && y - x == m[pink] - m[leaf] - 3219;
    if Abs(x) >= 1589 {
      SquareAtLeast(x, 1589);
    } else if Abs(y) >= 1589 {
      SquareAtLeast(y, 1589);
    } else {
      SquareAtLeast(z, 1589);
    }
  }

  // ---------- nor any plane ----------

  /** Along the first row the weights rise and fall by more than the channels can make up for, each going
      one way only. */
  lemma NoOneWayRow(cs: seq<Rgb>)
    requires OneWay(cs)
    requires PlanarWeight(cs[0].r, cs[0].g, cs[0].b) == 11856 && PlanarWeight(cs[1].r, cs[1].g, cs[1].b) == 25800
    ensures PlanarWeight(cs[2].r, cs[2].g, cs[2].b) != 13260
  {
    if cs[0].g <= cs[1].g <= cs[2].g <= cs[3].g {
    } else {
    }
  }

  lemma NoPlaneShowsIt(co: Rgb676, ch: Rgb676, cv: Rgb676)
    ensures !PlanarWins(Witness(), PlanarWord(co, ch, cv), HighContrastBlock, true)
  {
    hide Witness, StoredError, PlanarWord, OneWay, PlanarWeight;
    if StoredError(Witness(), PlanarWord(co, ch, cv), 16) == 0 {
      var cs := ExactRow(Witness(), co, ch, cv, 0);
      Columns();
      WeightOfPixel(Witness()[0], 0, 156, 0);
      WeightOfPixel(Witness()[4], 75, 255, 255);
      WeightOfPixel(Witness()[8], 255, 0, 255);
      assert 4 * 0 + 0 == 0 && 4 * 1 + 0 == 4 && 4 * 2 + 0 == 8;
      assert Witness()[0] == Leaf() && Witness()[4] == Sky() && Witness()[8] == Pink();
      NoOneWayRow(cs);
    }
  }

  lemma WitnessIsHighContrast()
    ensures HasMode(Witness(), HighContrastBlock) && !IsSolid(Witness())
  {
    hide LumaOf;
    LumasOfColors();
    var luma := LumaRange(201, 92, 4, 0);
    assert Lumas(Witness()) == [92, 92, 92, 150, 201, 104, 150, 150, 104, 104, 104, 92, 201, 104, 92, 104];
    assert IsLumaRange(Witness(), luma) && SelectMode(luma) == HighContrastBlock;
    assert Witness()[3] != Witness()[0];
  }

  // ---------- what is emitted ----------

  /** The word of the wrapped search: a T word, taken to have an error of 2522800, that shows a block
      with one of 4297490096. */
  lemma WrappedWordIsEmitted(co: Rgb676, ch: Rgb676, cv: Rgb676, garbage: bv32, mode: BlockMode, d: bv64)
    requires Etc2Outcome(Witness(), PlanarWord(co, ch, cv), true, garbage, mode, d)
    ensures ModeOf(Lo(ConvertByteOrder(d))) == ModeT && ShowsTh(Witness(), d, 2522800)
    ensures ShownError(Witness(), ShownBy(d), 16) == 4297490096
  {
    hide Witness, EtcCost, ShowsFit, ShowsTh, ShowsGarbage, SearchFails, SearchFinds, IsEtcChoice, PlanarWins,
         HasMode, IsSolid, PlanarWord;
    hide ShownError, ShownBy, ModeOf, Lo, ConvertByteOrder, BlockSum, Searched;
    WitnessIsHighContrast();
    ModeIsUnique(Witness(), mode, HighContrastBlock);
    NoPlaneShowsIt(co, ch, cv);
    var layout, f, thError :| FittedOutcome(Witness(), mode, layout, f, thError, garbage, d);
    WitnessIsSearched();
    SearchIsDetermined(Witness(), 2522800, thError);
    assert IsEtcChoice(Witness(), layout, f);
    NoCloseFit(layout, f) by { ChoiceIsFit(Witness(), layout, f); }
    SumsAre(3);
    ShownIsSearched(Witness(), d, 2522800, true, Q0(), Q1(), 0, 3);
  }
}
