/** A bound on the error of the ETC1 fit: outside the high-contrast mode it stays below MAX_ERROR,
    so the word that stands in for a missing T/H candidate is never the one that is emitted. */
module EtcBound {
  import opened Pixels
  import opened Tables
  import opened EtcAverages
  import opened EtcFit
  import opened ThBlock
  import ThSearch

  /** The weighted value of a colour in the units of the fit. */
  function Weight(r: int, g: int, b: int): int {
    77 * r + 151 * g + 28 * b
  }

  function WeightOf(p: Pixel): int {
    Weight(p.r, p.g, p.b)
  }

  const SPREAD: int := 25147 // 96 * 254 + 253 + 2 * 255

  /** No two pixels of the block are further apart in luma than range. */
  ghost predicate WithinRange(src: Block, range: nat) {
    forall p, q :: 0 <= p < 16 && 0 <= q < 16 ==> LumaOf(src[q]) - LumaOf(src[p]) <= range
  }

  lemma LumaBoundsWeight(p: Pixel, q: Pixel)
    requires -96 <= LumaOf(q) - LumaOf(p) <= 96
    ensures -SPREAD <= WeightOf(q) - WeightOf(p) <= SPREAD
  {
    hide LumaOf, LumaSum;
    LumaSumBounds(p);
    LumaSumBounds(q);
    WeightIsLumaSum(p);
    WeightIsLumaSum(q);
  }

  lemma WeightIsLumaSum(p: Pixel)
    ensures WeightOf(p) == LumaSum(p) + p.r + p.g
  {
  }

  /** The weighted value of the first n pixels of a half, added up. */
  function WeightIn(src: Block, quads: set<nat>, n: nat): int
    requires n <= 16
  {
    if n == 0 then 0
    else WeightIn(src, quads, n - 1) + (if QuadrantOf(n - 1) in quads then WeightOf(src[n - 1]) else 0)
  }

  lemma {:induction false} WeightInIsWeight(src: Block, quads: set<nat>, n: nat)
    requires n <= 16
    ensures WeightIn(src, quads, n) == Weight(SumIn(src, 0, quads, n), SumIn(src, 1, quads, n), SumIn(src, 2, quads, n))
  {
    hide QuadrantOf;
    if n > 0 {
      WeightInIsWeight(src, quads, n - 1);
    }
  }

  /** The pixels of a half against one of them: that one adds nothing to the difference. */
  lemma {:induction false} SumAgainstOne(src: Block, quads: set<nat>, p: nat, n: nat)
    requires p < 16 && n <= 16 && QuadrantOf(p) in quads && WithinRange(src, 96)
    ensures var d := WeightIn(src, quads, n) - Times(CountIn(quads, n), WeightOf(src[p]));
            var c := CountIn(quads, n) - (if p < n then 1 else 0);
            -Times(c, SPREAD) <= d <= Times(c, SPREAD)
  {
    hide QuadrantOf, WeightOf, LumaOf;
    if n > 0 {
      SumAgainstOne(src, quads, p, n - 1);
      if QuadrantOf(n - 1) in quads {
        LumaBoundsWeight(src[p], src[n - 1]);
        TimesNext(CountIn(quads, n - 1), WeightOf(src[p]));
        TimesNext(CountIn(quads, n - 1), SPREAD);
        TimesNext(CountIn(quads, n - 1) - 1, SPREAD);
      }
    }
  }

  function Times(c: int, x: int): int { c * x }

  lemma TimesNext(c: int, x: int)
    ensures Times(c + 1, x) == Times(c, x) + x
  {
  }

  /** Eight times the difference of a half's mean from one of its pixels. */
  lemma MeanAgainstOne(src: Block, k: nat, p: nat)
    requires p < 16 && QuadrantOf(p) in HalfQuadrants(k) && WithinRange(src, 96)
    ensures var d := Weight(HalfSum(src, 0, k), HalfSum(src, 1, k), HalfSum(src, 2, k)) - 8 * WeightOf(src[p]);
            -7 * SPREAD <= d <= 7 * SPREAD
  {
    hide WeightOf, SumIn, QuadrantOf, HalfQuadrants;
    WeightInIsWeight(src, HalfQuadrants(k), 16);
    SumAgainstOne(src, HalfQuadrants(k), p, 16);
    HalfCounts(k);
  }

  // ---------- the base colours against the means ----------

  /** Eight times the deviation of one channel of a candidate from the mean of its half. */
  function Off(src: Block, c: nat, k: nat, a: int): int
    requires c < 3
  {
    8 * a - HalfSum(src, c, k)
  }

  /** Least squares around a mean: eight times the deviations split into a part of the half and the
      squared distance of the candidate from the mean. */
  lemma DeviationAroundMean(src: Block, c: nat, k: nat, a: int)
    requires c < 3
    ensures 8 * DeviationIn(src, c, HalfQuadrants(k), a, 16)
            == 8 * SquaresIn(src, c, HalfQuadrants(k), 16) - Sq(HalfSum(src, c, k)) + Sq(Off(src, c, k, a))
  {
    hide SquaresIn, DeviationIn, SumIn, HalfQuadrants, CountIn;
    DeviationExpands(src, c, HalfQuadrants(k), a, 16);
    HalfCounts(k);
    CompleteSquare(a, HalfSum(src, c, k));
  }

  lemma CompleteSquare(a: int, s: int)
    ensures Sq(8 * a - s) == 64 * Sq(a) - 16 * (a * s) + Sq(s)
  {
  }

  /** The squared distances of a candidate from the mean of half k, over the channels. */
  function OffSquares(src: Block, k: nat, a: Rgb): nat {
    Sq(Off(src, 0, k, a.r)) + Sq(Off(src, 1, k, a.g)) + Sq(Off(src, 2, k, a.b))
  }

  function OwnPart(src: Block, k: nat): int {
    8 * HalfSquares(src, k) - Sq(HalfSum(src, 0, k)) - Sq(HalfSum(src, 1, k)) - Sq(HalfSum(src, 2, k))
  }

  lemma HalfAroundMean(src: Block, k: nat, a: Rgb)
    ensures 8 * HalfDeviation(src, k, a) == OwnPart(src, k) + OffSquares(src, k, a)
  {
    hide SquaresIn, DeviationIn, HalfSum, Sq, Off;
    DeviationAroundMean(src, 0, k, a.r);
    DeviationAroundMean(src, 1, k, a.g);
    DeviationAroundMean(src, 2, k, a.b);
  }

  function LayoutOff(src: Block, layout: nat): nat
    requires layout < 4
  {
    var (k, a) := (2 * layout, Candidates(src));
    OffSquares(src, k, a[k]) + OffSquares(src, k + 1, a[k + 1])
  }

  lemma SameOwnPart(src: Block, k: nat)
    ensures OwnPart(src, k + 4) == OwnPart(src, k)
  {
    hide SquaresIn, SumIn, Sq;
    assert HalfQuadrants(k + 4) == HalfQuadrants(k);
  }

  /** A layout of least deviations is no further from the means than the four-bit layout that
      halves the block the same way. */
  lemma ChosenIsCloser(src: Block, layout: nat)
    requires layout < 4 && PixelDeviations(src, layout, 16) <= PixelDeviations(src, layout % 2, 16)
    ensures LayoutOff(src, layout) <= LayoutOff(src, layout % 2)
  {
    hide PixelDeviations, HalfDeviation, OwnPart, OffSquares, Candidates;
    var (k, m, a) := (2 * layout, 2 * (layout % 2), Candidates(src));
    LayoutDeviationIsPixelDeviations(src, layout);
    LayoutDeviationIsPixelDeviations(src, layout % 2);
    HalfAroundMean(src, k, a[k]);
    HalfAroundMean(src, k + 1, a[k + 1]);
    HalfAroundMean(src, m, a[m]);
    HalfAroundMean(src, m + 1, a[m + 1]);
    if layout >= 2 {
      SameOwnPart(src, m);
      SameOwnPart(src, m + 1);
    }
  }

  lemma FourBitsNear(s: nat)
    requires s <= 2040
    ensures -68 <= 8 * (17 * Mul8Bit((s + 4) / 8, 15)) - s <= 68
  {
    FourBitsNearByte((s + 4) / 8);
  }

  lemma SmallSquare(x: int, m: int)
    requires 0 <= m && -m <= x <= m
    ensures Sq(x) <= m * m
  {
    SquareMonotone(Abs(x), m);
  }

  lemma FourBitOff(src: Block, k: nat)
    requires k < 4
    ensures OffSquares(src, k, Candidates(src)[k]) <= 3 * 4624
  {
    hide HalfSum, Mul8Bit, Sq;
    FourBitsNear(HalfSum(src, 0, k));
    FourBitsNear(HalfSum(src, 1, k));
    FourBitsNear(HalfSum(src, 2, k));
    var a := Candidates(src)[k];
    SmallSquare(Off(src, 0, k, a.r), 68);
    SmallSquare(Off(src, 1, k, a.g), 68);
    SmallSquare(Off(src, 2, k, a.b), 68);
  }

  /** Lagrange's identity for the weights: no weighted sum has a larger square than the weights allow. */
  lemma WeightedSquare(x: int, y: int, z: int)
    ensures Sq(Weight(x, y, z)) + Sq(77 * y - 151 * x) + Sq(77 * z - 28 * x) + Sq(151 * z - 28 * y)
            == 29514 * (Sq(x) + Sq(y) + Sq(z))
  {
  }

  lemma RootBound(v: int)
    requires Sq(v) <= 29514 * 27744
    ensures -28615 <= v <= 28615
  {
    if Abs(v) > 28615 {
      SquareMonotone(28616, Abs(v));
    }
  }

  lemma BaseNearMean(src: Block, layout: nat, k: nat)
    requires layout < 4 && k / 2 == layout && PixelDeviations(src, layout, 16) <= PixelDeviations(src, layout % 2, 16)
    ensures k < 8
    ensures var a := Candidates(src)[k];
            -28615 <= Weight(Off(src, 0, k, a.r), Off(src, 1, k, a.g), Off(src, 2, k, a.b)) <= 28615
  {
    hide PixelDeviations, Candidates, Off, Weight, Sq;
    ChosenIsCloser(src, layout);
    FourBitOff(src, 2 * (layout % 2));
    FourBitOff(src, 2 * (layout % 2) + 1);
    var a := Candidates(src)[k];
    assert OffSquares(src, k, a) <= LayoutOff(src, layout);
    WeightedSquare(Off(src, 0, k, a.r), Off(src, 1, k, a.g), Off(src, 2, k, a.b));
    RootBound(Weight(Off(src, 0, k, a.r), Off(src, 1, k, a.g), Off(src, 2, k, a.b)));
  }

  lemma PixFromMean(src: Block, k: nat, a: Rgb, p: Pixel)
    ensures 8 * Pix(a, p) == Weight(Off(src, 0, k, a.r), Off(src, 1, k, a.g), Off(src, 2, k, a.b))
            + (Weight(HalfSum(src, 0, k), HalfSum(src, 1, k), HalfSum(src, 2, k)) - 8 * WeightOf(p))
  {
    hide HalfSum;
  }

  /** In a block of small luma range every pixel is near its base colour. */
  lemma PixelNearBase(src: Block, layout: nat, p: nat)
    requires layout < 4 && p < 16 && WithinRange(src, 96)
    requires PixelDeviations(src, layout, 16) <= PixelDeviations(src, layout % 2, 16)
    ensures -25580 <= PixAt(src, Candidates(src), layout, p) <= 25580
  {
    hide PixelDeviations, Candidates, Off, Weight, WeightOf, Pix, HalfSum, QuadrantOf, HalfQuadrants, AverageIds,
         WithinRange;
    IdsAreHalves(layout, p);
    var k := AverageIds(layout)[p];
    BaseNearMean(src, layout, k);
    MeanAgainstOne(src, k, p);
    PixFromMean(src, k, Candidates(src)[k], src[p]);
  }

  /** Table 5 has a modifier within 7168 of any such difference. */
  lemma FifthTableFits(pix: int)
    requires -25580 <= pix <= 25580
    ensures FitErr(pix, 5, BestSelector(pix, 5, 4)) <= 7168 * 7168
  {
    hide Sq, BestSelector;
    FifthRow();
    var s := if pix > 13312 then 3 else if pix >= 0 then 2 else if pix >= -13312 then 0 else 1;
    SmallSquare(Modifiers256(5)[s] + pix, 7168);
    assert FitErr(pix, 5, BestSelector(pix, 5, 4)) <= FitErr(pix, 5, s);
  }

  lemma FifthRow()
    ensures Modifiers256(5) == [6144, 20480, -6144, -20480]
  {
  }

  lemma {:induction false} FifthTableError(src: Block, a: seq<Rgb>, layout: nat, n: nat)
    requires |a| == 8 && layout < 4 && n <= 16
    requires forall p :: 0 <= p < 16 ==> -25580 <= PixAt(src, a, layout, p) <= 25580
    ensures TableError(src, a, layout, 0, 5, n) + TableError(src, a, layout, 1, 5, n) <= 51380224 * n
  {
    hide PixAt, FitErr, BestSelector, AverageIds;
    if n > 0 {
      FifthTableError(src, a, layout, n - 1);
      FifthTableFits(PixAt(src, a, layout, n - 1));
    }
  }

  /** The placeholder is never emitted: in a block of luma range at most 96, the best tables of the
      layout of least deviations have an error below MAX_ERROR. */
  lemma EtcErrorBelowMax(src: Block, layout: nat, t0: nat, t1: nat)
    requires layout < 4 && t0 < 8 && t1 < 8 && WithinRange(src, 96)
    requires PixelDeviations(src, layout, 16) <= PixelDeviations(src, layout % 2, 16)
    requires forall t :: 0 <= t < 8 ==>
               && TableError(src, Candidates(src), layout, 0, t0, 16)
                    <= TableError(src, Candidates(src), layout, 0, t, 16)
               && TableError(src, Candidates(src), layout, 1, t1, 16)
                    <= TableError(src, Candidates(src), layout, 1, t, 16)
    ensures TableError(src, Candidates(src), layout, 0, t0, 16) + TableError(src, Candidates(src), layout, 1, t1, 16)
            < ThSearch.MAX_ERROR
  {
    hide PixelDeviations, Candidates, TableError, PixAt, WithinRange;
    forall p | 0 <= p < 16 ensures -25580 <= PixAt(src, Candidates(src), layout, p) <= 25580 {
      PixelNearBase(src, layout, p);
    }
    FifthTableError(src, Candidates(src), layout, 16);
    assert 0 <= 5 < 8;
  }
}
