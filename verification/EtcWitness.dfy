/** A block for which the T/H search fails and the ETC1 fit is no better than MAX_ERROR, and which no
    plane shows: the word emitted for it holds an index word that was never set. Black, red, green and
    white pixels, so laid out that either half of every layout holds three black, three red, one green
    and one white pixel. */
module EtcWitness {
  import opened Pixels
  import opened Tables
  import opened ThSearch
  import opened ThBlock
  import opened EtcAverages
  import opened EtcFit
  import opened EtcBlock
  import opened Planar
  import opened Palette

  function Black(): Pixel { Pixel(0, 0, 0, 255) }

  function Red(): Pixel { Pixel(255, 0, 0, 255) }

  function Green(): Pixel { Pixel(0, 255, 0, 255) }

  function White(): Pixel { Pixel(255, 255, 255, 255) }

  function Witness(): Block {
    [Black(), Black(), Red(), Red(), Black(), Green(), Red(), White(),
     Red(), Red(), Black(), Black(), Red(), White(), Black(), Green()]
  }

  // ---------- the plan ----------

  function WitnessDesign(): Design {
    Design([Black(), Red(), Green(), White()],
           [0, 0, 1, 1, 0, 2, 1, 3, 1, 1, 0, 0, 1, 3, 0, 2],
           [0, 1, 4, 10, 11, 14, 2, 3, 6, 8, 9, 12, 5, 15, 7, 13],
           [0, 1, 6, 7, 2, 12, 8, 14, 9, 10, 3, 4, 11, 15, 5, 13])
  }

  lemma LumasOfColors()
    ensures LumaOf(Black()) == 0 && LumaOf(Red()) == 76 && LumaOf(Green()) == 150 && LumaOf(White()) == 255
  {
    assert LumaSum(Red()) == 19380 && LumaSum(Green()) == 38250 && LumaSum(White()) == 64770;
  }

  lemma DesignHasShape()
    ensures HasShape(WitnessDesign())
  {
  }

  lemma DesignInverts(p: nat)
    requires p < 16 && HasShape(WitnessDesign())
    ensures WitnessDesign().order[WitnessDesign().rank[p]] == p
  {
    hide HasShape;
  }

  lemma DesignRises(k: nat)
    requires k < 15 && HasShape(WitnessDesign())
    ensures Key(WitnessDesign(), k) < Key(WitnessDesign(), k + 1)
  {
    hide HasShape;
  }

  lemma WitnessIsDesign()
    ensures IsDesign(WitnessDesign())
  {
    hide LumaOf, HasShape, Key;
    DesignHasShape();
    LumasOfColors();
    forall p | 0 <= p < 16 ensures WitnessDesign().order[WitnessDesign().rank[p]] == p {
      DesignInverts(p);
    }
    forall k | 0 <= k < 15 ensures Key(WitnessDesign(), k) < Key(WitnessDesign(), k + 1) {
      DesignRises(k);
    }
  }

  lemma WitnessIsPainted()
    requires IsDesign(WitnessDesign())
    ensures Painted(WitnessDesign()) == Witness() && WitnessDesign().order == Order()
  {
    hide IsDesign;
  }

  function SortedOfWitness(): seq<int> {
    [0, 0, 0, 0, 0, 0, 76, 76, 76, 76, 76, 76, 150, 150, 255, 255]
  }

  function Order(): (order: seq<nat>)
    ensures PixelOrder(order)
  {
    WitnessDesign().order
  }

  lemma SortedIs()
    ensures SortedLumas(Witness(), Order()) == SortedOfWitness()
  {
    hide LumaOf;
    LumasOfColors();
  }

  lemma SplitIsThirteen(i: nat)
    requires i < 15
    ensures SplitCost(SortedOfWitness(), 13) == 154
    ensures i != 13 ==> SplitCost(SortedOfWitness(), i) > 154
  {
  }

  lemma ColorsOfPlan()
    ensures BaseColors(Witness(), Order(), 13, Plan(true, true)) == (Rgb(255, 255, 255), Rgb(0, 127, 0))
    ensures AvgDist(Witness(), Order(), 13, Plan(true, true)) == 42
  {
    assert SumRange(Witness(), Order(), 14, 15) == Sums(255, 255, 255);
    assert SumRange(Witness(), Order(), 14, 16) == Sums(510, 510, 510);
  }

  lemma CodesOfPlan()
    ensures QuantizeRgb(Rgb(255, 255, 255), true) == Rgb444(15, 15, 15)
    ensures QuantizeRgb(Rgb(0, 127, 0), false) == Rgb444(1, 7, 1)
  {
  }

  lemma WitnessIsPlanned()
    ensures IsPlan(Witness(), true, Rgb444(15, 15, 15), Rgb444(1, 7, 1), 4)
  {
    hide Sorted, Stable, Rearranges, SplitCost, BaseColors, QuantizeRgb, AvgDist, SortedLumas, Order, Witness, IsDesign;
    WitnessIsDesign();
    WitnessIsPainted();
    SortedIs();
    DesignIsSorted(WitnessDesign());
    forall i | 0 <= i < 15
      ensures SplitCost(SortedOfWitness(), 13) <= SplitCost(SortedOfWitness(), i)
      ensures i < 13 ==> SplitCost(SortedOfWitness(), 13) < SplitCost(SortedOfWitness(), i)
    {
      SplitIsThirteen(i);
    }
    ColorsOfPlan();
    CodesOfPlan();
    assert PlannedBy(Witness(), Order(), 13, Plan(true, true), true, Rgb444(15, 15, 15), Rgb444(1, 7, 1), 4);
  }

  // ---------- no distance is good enough ----------

  function Q0(): Rgb444 { Rgb444(15, 15, 15) }

  function Q1(): Rgb444 { Rgb444(1, 7, 1) }

  /** The paint colours of distance d have red and blue at most 81 or are white. */
  lemma PaintsAre(d: nat)
    requires 4 <= d < 8
    ensures var (ps, t) := (Paints(true, Q0(), Q1(), d), TableTH(d));
            && 23 <= t <= 64
            && ps[0] == Rgb(255, 255, 255) && ps[1] == Rgb(17 + t, 119 + t, 17 + t)
            && ps[2] == Rgb(17, 119, 17) && ps[3] == Rgb(0, 119 - t, 0)
  {
    TableRange(d);
    hide TableTH;
  }

  lemma TableRange(d: nat)
    requires 4 <= d < 8
    ensures 23 <= TableTH(d) <= 64 && TableTH(d) == [23, 32, 41, 64][d - 4]
  {
  }

  /** No paint colour suits a red pixel, and no pixel is missed beyond these bounds. */
  lemma RedMisses(d: nat, k: nat)
    requires 4 <= d < 8 && k < 4
    ensures PixErr(Red(), Paints(true, Q0(), Q1(), d)[k]) >= 13870 * 13870
    ensures PixErr(Red(), Paints(true, Q0(), Q1(), d)[2]) == 18326 * 18326
  {
    hide PixErr, Paints, TableTH;
    PaintsAre(d);
    var ps := Paints(true, Q0(), Q1(), d);
    GapSquared(Red(), ps[k], 13870, 60000);
    GapSquared(Red(), ps[2], 18326, 18326);
  }

  lemma OthersNear(d: nat)
    requires 4 <= d < 8
    ensures var ps := Paints(true, Q0(), Q1(), d);
            PixErr(Black(), ps[2]) <= 11220 * 11220 && PixErr(Green(), ps[2]) <= 11220 * 11220
                 && PixErr(White(), ps[0]) <= 11220 * 11220
  {
    hide PixErr, Paints, TableTH;
    PaintsAre(d);
    var ps := Paints(true, Q0(), Q1(), d);
    GapSquared(Black(), ps[2], 0, 11220);
    GapSquared(Green(), ps[2], 0, 11220);
    GapSquared(White(), ps[0], 0, 11220);
  }

  lemma RedErr(d: nat)
    requires 4 <= d < 8
    ensures 13870 * 13870 <= LeastErr(Red(), Paints(true, Q0(), Q1(), d)) <= 18326 * 18326
  {
    hide PixErr, Paints;
    var ps := Paints(true, Q0(), Q1(), d);
    RedMisses(d, BestIndex(Red(), ps, 4));
    assert PixErr(Red(), ps[BestIndex(Red(), ps, 4)]) <= PixErr(Red(), ps[2]);
  }

  lemma OtherErr(p: Pixel, d: nat)
    requires 4 <= d < 8 && (p == Black() || p == Green() || p == White())
    ensures LeastErr(p, Paints(true, Q0(), Q1(), d)) <= 11220 * 11220
  {
    hide PixErr, Paints;
    var ps := Paints(true, Q0(), Q1(), d);
    OthersNear(d);
    assert PixErr(p, ps[BestIndex(p, ps, 4)]) <= PixErr(p, ps[2])
              && PixErr(p, ps[BestIndex(p, ps, 4)]) <= PixErr(p, ps[0]);
  }

  lemma Columns()
    ensures var w := Witness();
            && w[0] == Black() && w[1] == Black() && w[2] == Red() && w[3] == Red()
            && w[4] == Black() && w[5] == Green() && w[6] == Red() && w[7] == White()
            && w[8] == Red() && w[9] == Red() && w[10] == Black() && w[11] == Black()
            && w[12] == Red() && w[13] == White() && w[14] == Black() && w[15] == Green()
  {
  }

  lemma NoDistance(d: nat)
    requires 4 <= d < 8
    ensures BlockErr(true, Witness(), Q0(), Q1(), d) >= MAX_ERROR
  {
    hide ErrorSum, Paints, Witness, LeastErr, Wrap32;
    Columns();
    FourRowsOfErrors(Witness(), Paints(true, Q0(), Q1(), d));
    RedErr(d);
    OtherErr(Black(), d);
    OtherErr(Green(), d);
    OtherErr(White(), d);
    WrapLowers(BlockSum(true, Witness(), Q0(), Q1(), d));
  }

  lemma WitnessSearchFails()
    ensures SearchFails(Witness())
  {
    hide IsPlan, BlockErr, Witness, Errs;
    WitnessIsPlanned();
    forall d | 4 <= d < 8 ensures Errs(true, Witness(), Q0(), Q1())[d] >= MAX_ERROR {
      NoDistance(d);
    }
    assert NothingBelow(Errs(true, Witness(), Q0(), Q1()), 4, 8);
    assert IsPlan(Witness(), true, Q0(), Q1(), 4);
  }

  // ---------- nor is any ETC1 fit ----------

  lemma HalvesAlike(c: nat, k: nat)
    requires c < 3 && k < 4
    ensures HalfSum(Witness(), c, k) == if c == 0 then 1020 else if c == 1 then 510 else 255
  {
    hide SumIn, Witness;
    Columns();
    var q := HalfQuadrants(k);
    SumColumn(Witness(), c, q, 0);
    SumColumn(Witness(), c, q, 1);
    SumColumn(Witness(), c, q, 2);
    SumColumn(Witness(), c, q, 3);
    NoSum(Witness(), c, q);
    HalfCounts(k);
  }

  lemma CandidatesAre(k: nat)
    requires k < 8
    ensures Candidates(Witness())[k] == if k < 4 then Rgb(136, 68, 34) else Rgb(132, 66, 33)
  {
    hide HalfSum, Witness;
    forall c, j | 0 <= c < 3 && 0 <= j < 4
      ensures HalfSum(Witness(), c, j) == if c == 0 then 1020 else if c == 1 then 510 else 255
    {
      HalvesAlike(c, j);
    }
    var avgs := AveragesOf(Witness());
    assert forall j :: 0 <= j < 4 ==> avgs[j] == Rgb(128, 64, 32);
    Codes(avgs, if k < 4 then k else k - 4);
  }

  lemma Codes(avgs: seq<Rgb>, k: nat)
    requires |avgs| == 4 && k < 4 && forall j :: 0 <= j < 4 ==> avgs[j] == Rgb(128, 64, 32)
    ensures FourCode(avgs, k, 0) == 8 && FourCode(avgs, k, 1) == 4 && FourCode(avgs, k, 2) == 2
    ensures FiveCode(avgs, k, 0) == 16 && FiveCode(avgs, k, 1) == 8 && FiveCode(avgs, k, 2) == 4
  {
    FiveCodes();
    hide FiveBits;
  }

  lemma FiveCodes()
    ensures FiveBits(128) == 16 && FiveBits(64) == 8 && FiveBits(32) == 4
  {
  }

  lemma LeastAt(pix: int, t: nat, low: nat)
    requires t < 8 && forall s :: 0 <= s < 4 ==> low <= Abs(Modifiers256(t)[s] + pix)
    ensures Least(pix, t) >= low * low
  {
    hide Modifiers256, Sq;
    SquareAtLeast(Modifiers256(t)[0] + pix, low);
    SquareAtLeast(Modifiers256(t)[1] + pix, low);
    SquareAtLeast(Modifiers256(t)[2] + pix, low);
    SquareAtLeast(Modifiers256(t)[3] + pix, low);
  }

  lemma SmallTables(t: nat, s: nat)
    requires t < 6 && s < 4
    ensures -20480 <= Modifiers256(t)[s] <= 20480
  {
  }

  lemma LargeTables()
    ensures Modifiers256(6) == [8448, 27136, -8448, -27136] && Modifiers256(7) == [12032, 46848, -12032, -46848]
  {
  }

  /** Three black, one green, three red and one white pixel against the base colour of four bits. */
  lemma HalfIndividual(t: nat)
    requires t < 8
    ensures 3 * Least(21692, t) + Least(-16813, t) + 3 * Least(2057, t) + Least(-43588, t) >= 532684800
  {
    hide Least, Modifiers256;
    LargeTables();
    if t < 6 {
      forall s | 0 <= s < 4 ensures 23108 <= Abs(Modifiers256(t)[s] - 43588) {
        SmallTables(t, s);
      }
      LeastAt(-43588, t, 23108);
    } else if t == 6 {
      LeastAt(21692, 6, 5444);
      LeastAt(-16813, 6, 8365);
      LeastAt(2057, 6, 6391);
      LeastAt(-43588, 6, 16452);
    } else {
      LeastAt(21692, 7, 9660);
      LeastAt(-16813, 7, 4781);
      LeastAt(2057, 7, 9975);
      LeastAt(-43588, 7, 3260);
    }
  }

  /** The same against the base colour of five bits. */
  lemma HalfDifferential(t: nat)
    requires t < 8
    ensures 3 * Least(21054, t) + Least(-17451, t) + 3 * Least(1419, t) + Least(-44226, t) >= 532684800
  {
    hide Least, Modifiers256;
    LargeTables();
    if t < 6 {
      forall s | 0 <= s < 4 ensures 23746 <= Abs(Modifiers256(t)[s] - 44226) {
        SmallTables(t, s);
      }
      LeastAt(-44226, t, 23746);
    } else if t == 6 {
      LeastAt(21054, 6, 6082);
      LeastAt(-17451, 6, 9003);
      LeastAt(1419, 6, 7029);
      LeastAt(-44226, 6, 17090);
    } else {
      LeastAt(21054, 7, 9022);
      LeastAt(-17451, 7, 5419);
      LeastAt(1419, 7, 10613);
      LeastAt(-44226, 7, 2622);
    }
  }

  // ---------- the sum over the block ----------

  function Base(layout: nat): Rgb {
    if layout < 2 then Rgb(136, 68, 34) else Rgb(132, 66, 33)
  }

  lemma PixelsOfBase(layout: nat)
    requires layout < 4
    ensures Pix(Base(layout), Black()) == if layout < 2 then 21692 else 21054
    ensures Pix(Base(layout), Green()) == if layout < 2 then -16813 else -17451
    ensures Pix(Base(layout), Red()) == if layout < 2 then 2057 else 1419
    ensures Pix(Base(layout), White()) == if layout < 2 then -43588 else -44226
  {
  }

  /** A quadrant with three black pixels and a green one, and one with three red ones and a white one. */
  lemma QuadrantPair(layout: nat, t: nat)
    requires layout < 4 && t < 8
    ensures QuadrantCost(Witness(), Base(layout), 0, t) == QuadrantCost(Witness(), Base(layout), 3, t)
    ensures QuadrantCost(Witness(), Base(layout), 1, t) == QuadrantCost(Witness(), Base(layout), 2, t)
    ensures QuadrantCost(Witness(), Base(layout), 0, t) + QuadrantCost(Witness(), Base(layout), 1, t) >= 532684800
  {
    hide Least, Pix, Witness, Base;
    Columns();
    PixelsOfBase(layout);
    HalfIndividual(t);
    HalfDifferential(t);
  }

  /** No fit of any layout is below MAX_ERROR. */
  lemma NoFit(layout: nat, f: Fit)
    requires layout < 4 && IsFit(f)
    ensures EtcCost(Witness(), layout, f) >= MAX_ERROR
  {
    hide Witness, Candidates, Cost, LeastCost, QuadrantCost;
    CandidatesAre(2 * layout);
    CandidatesAre(2 * layout + 1);
    CostAboveLeast(Witness(), Candidates(Witness()), layout, Base(layout), f, 16);
    CostOfQuadrants(Witness(), Base(layout), layout, f.tables[0], f.tables[1]);
    QuadrantPair(layout, f.tables[0]);
    QuadrantPair(layout, f.tables[1]);
  }

  // ---------- nor any plane ----------

  /** Along the second row the weights rise from nothing and fall again: colours that go one way only
      cannot do that. */
  lemma NoOneWayRow(cs: seq<Rgb>)
    requires OneWay(cs) && PlanarWeight(cs[0].r, cs[0].g, cs[0].b) == 0
    ensures PlanarWeight(cs[1].r, cs[1].g, cs[1].b) <= PlanarWeight(cs[2].r, cs[2].g, cs[2].b)
  {
  }

  lemma NoPlaneShowsIt(co: Rgb676, ch: Rgb676, cv: Rgb676)
    ensures !PlanarWins(Witness(), PlanarWord(co, ch, cv), HighContrastBlock, true)
  {
    hide Witness, StoredError, PlanarWord, OneWay, PlanarWeight;
    if StoredError(Witness(), PlanarWord(co, ch, cv), 16) == 0 {
      var cs := ExactRow(Witness(), co, ch, cv, 1);
      Columns();
      WeightOfPixel(Witness()[1], 0, 0, 0);
      WeightOfPixel(Witness()[5], 0, 255, 0);
      WeightOfPixel(Witness()[9], 255, 0, 0);
      assert 4 * 0 + 1 == 1 && 4 * 1 + 1 == 5 && 4 * 2 + 1 == 9;
      assert Witness()[1] == Black() && Witness()[5] == Green() && Witness()[9] == Red();
      NoOneWayRow(cs);
    }
  }

  lemma WitnessIsHighContrast()
    ensures HasMode(Witness(), HighContrastBlock) && !IsSolid(Witness())
  {
    hide LumaOf;
    LumasOfColors();
    var luma := LumaRange(255, 0, 7, 0);
    assert Lumas(Witness()) == [0, 0, 76, 76, 0, 150, 76, 255, 76, 76, 0, 0, 76, 255, 0, 150];
    assert IsLumaRange(Witness(), luma) && SelectMode(luma) == HighContrastBlock;
    assert Witness()[2] != Witness()[0];
  }

  // ---------- what is emitted ----------

  /** Whatever plane colours are tried, the word the encoder emits for the witness holds the
      uninitialised indices. */
  lemma WitnessShowsGarbage(co: Rgb676, ch: Rgb676, cv: Rgb676, garbage: bv32, mode: BlockMode, d: bv64)
    requires Etc2Outcome(Witness(), PlanarWord(co, ch, cv), true, garbage, mode, d)
    ensures ShowsGarbage(Witness(), d, garbage)
  {
    hide Witness, EtcCost, ShowsFit, ShowsTh, ShowsGarbage, SearchFails, SearchFinds, IsEtcChoice, PlanarWins,
         HasMode, IsSolid, PlanarWord;
    WitnessIsHighContrast();
    ModeIsUnique(Witness(), mode, HighContrastBlock);
    NoPlaneShowsIt(co, ch, cv);
    var layout, f, thError :| FittedOutcome(Witness(), mode, layout, f, thError, garbage, d);
    WitnessSearchFails();
    if SearchFinds(Witness(), thError) {
      SearchIsDetermined(Witness(), thError, thError);
    }
    ChoiceIsFit(Witness(), layout, f);
    NoFit(layout, f);
  }
}
