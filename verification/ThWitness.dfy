/** A block whose upper group is the wider one: T mode with the middle of the lower group as the first
    colour and the mean of the upper group, whose shades it paints, as the second. */
module ThWitness {
  import opened Pixels
  import opened ThSearch
  import opened ThBlock
  import opened Palette

  function Levels(): seq<Pixel> { [Grey(0), Grey(4), Grey(160), Grey(200)] }

  /** Four rows, each of one level. */
  function Witness(): Block {
    seq(16, p requires 0 <= p < 16 => LevelOf(p % 4))
  }

  function LevelOf(k: nat): Pixel
    requires k < 4
  {
    Levels()[k]
  }

  /** The pixels row by row. */
  function Turned(): (order: seq<nat>)
    ensures PixelOrder(order)
  {
    [0, 4, 8, 12, 1, 5, 9, 13, 2, 6, 10, 14, 3, 7, 11, 15]
  }

  lemma TurnedAt(k: nat)
    requires k < 16
    ensures Turned()[k] == 4 * (k % 4) + k / 4
  {
  }

  function WitnessDesign(): Design {
    Design(Levels(), seq(16, p => Abs(p) % 4), Turned(), Turned())
  }

  lemma LumasOfLevels()
    ensures forall k :: 0 <= k < 4 ==> LumaOf(Levels()[k]) == [0, 4, 160, 200][k]
  {
    hide LumaOf;
    LumaOfGrey(0);
    LumaOfGrey(4);
    LumaOfGrey(160);
    LumaOfGrey(200);
  }

  lemma TurnedBack(p: nat)
    requires p < 16
    ensures Turned()[Turned()[p]] == p
  {
    hide Turned;
    TurnedAt(p);
    TurnedAt(Turned()[p]);
  }

  lemma KeyAt(k: nat)
    requires k < 16 && HasShape(WitnessDesign())
    ensures Key(WitnessDesign(), k) == 16 * (k / 4) + 4 * (k % 4) + k / 4
  {
    hide Turned, HasShape, Levels;
    TurnedAt(k);
  }

  lemma WitnessIsDesign()
    ensures IsDesign(WitnessDesign()) && Painted(WitnessDesign()) == Witness()
  {
    hide LumaOf, Turned, Key;
    LumasOfLevels();
    assert HasShape(WitnessDesign());
    forall p | 0 <= p < 16 ensures Turned()[Turned()[p]] == p {
      TurnedBack(p);
    }
    forall k | 0 <= k < 15 ensures Key(WitnessDesign(), k) < Key(WitnessDesign(), k + 1) {
      KeyAt(k);
      KeyAt(k + 1);
    }
  }

  lemma SortedIs()
    ensures SortedLumas(Witness(), Turned()) == [0, 0, 0, 0, 4, 4, 4, 4, 160, 160, 160, 160, 200, 200, 200, 200]
  {
    hide LumaOf;
    LumasOfLevels();
  }

  lemma SplitIsSeven(i: nat)
    requires i < 15
    ensures var s := [0, 0, 0, 0, 4, 4, 4, 4, 160, 160, 160, 160, 200, 200, 200, 200];
            SplitCost(s, 7) == 44 && (i != 7 ==> SplitCost(s, i) > 44)
  {
  }

  lemma PixelAt(k: nat)
    requires k < 16
    ensures var v := [0, 4, 160, 200][k / 4]; Witness()[Turned()[k]] == Grey(v)
  {
    hide Turned;
    TurnedAt(k);
  }

  lemma {:induction false} UpperSums(n: nat)
    requires n <= 8
    ensures var v := 160 * n + 40 * Max(n - 4, 0); SumRange(Witness(), Turned(), 8, 8 + n) == Sums(v, v, v)
  {
    hide Turned, Witness;
    if n > 0 {
      UpperSums(n - 1);
      PixelAt(7 + n);
    }
  }

  lemma ColorsOfPlan()
    ensures BaseColors(Witness(), Turned(), 7, Plan(true, false)) == (Rgb(2, 2, 2), Rgb(180, 180, 180))
    ensures AvgDist(Witness(), Turned(), 7, Plan(true, false)) == 20
  {
    hide SumRange, Turned, Witness;
    UpperSums(8);
    PixelAt(0);
    PixelAt(7);
    PixelAt(8);
    PixelAt(15);
  }

  /** T mode, the lower group in the dark colour, the upper one around its mean, starting one step up. */
  lemma WitnessIsPlanned()
    ensures IsPlan(Witness(), true, Rgb444(0, 0, 0), Rgb444(11, 11, 11), 1)
    ensures IsGrouping(Witness(), Turned(), 7)
    ensures LowWidth(Witness(), Turned(), 7) == 4 && HighWidth(Witness(), Turned(), 7) == 40
  {
    hide Sorted, Stable, Rearranges, SplitCost, BaseColors, AvgDist, SortedLumas, Turned, Witness, IsDesign;
    hide LumaOf;
    WitnessIsDesign();
    SortedIs();
    DesignIsSorted(WitnessDesign());
    forall i | 0 <= i < 15
      ensures var s := SortedLumas(Witness(), Turned());
              SplitCost(s, 7) <= SplitCost(s, i) && (i < 7 ==> SplitCost(s, 7) < SplitCost(s, i))
    {
      SplitIsSeven(i);
    }
    ColorsOfPlan();
    WidthsAre(Witness(), Turned(), 7);
    assert PlannedBy(Witness(), Turned(), 7, Plan(true, false), true, Rgb444(0, 0, 0), Rgb444(11, 11, 11), 1);
  }

  /** No other plan is possible. */
  lemma WitnessTakesUpperGroup(tMode: bool, q0: Rgb444, q1: Rgb444, start: nat)
    requires IsPlan(Witness(), tMode, q0, q1, start)
    ensures tMode && q0 == Rgb444(0, 0, 0) && q1 == Rgb444(11, 11, 11) && start == 1
  {
    hide IsPlan, IsGrouping, LowWidth, HighWidth, Witness;
    WitnessIsPlanned();
    SamePlan(Witness(), tMode, q0, q1, start, true, Rgb444(0, 0, 0), Rgb444(11, 11, 11), 1);
  }
}
