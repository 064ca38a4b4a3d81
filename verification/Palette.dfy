/** Blocks of four colours, in the order of their lumas: what planning, searching and fitting such a
    block amounts to. */
module Palette {
  import opened Pixels
  import opened Tables
  import opened ThSearch
  import opened ThBlock
  import opened EtcAverages
  import opened EtcFit

  function Grey(v: byte): Pixel { Pixel(v, v, v, 255) }

  lemma LumaOfGrey(v: byte)
    ensures LumaOf(Grey(v)) == v
  {
    assert LumaSum(Grey(v)) == 254 * v;
  }

  /** Four colours, the kind of every pixel, the pixels in the order of their kinds, and the place of
      every pixel in that order. */
  datatype Design = Design(colors: seq<Pixel>, kinds: seq<nat>, order: seq<nat>, rank: seq<nat>)

  predicate IsDesign(d: Design) {
    && HasShape(d)
    && (forall p :: 0 <= p < 16 ==> d.order[d.rank[p]] == p)
    && (forall k :: 0 <= k < 15 ==> Key(d, k) < Key(d, k + 1))
    && LumaOf(d.colors[0]) < LumaOf(d.colors[1]) < LumaOf(d.colors[2]) < LumaOf(d.colors[3])
  }

  predicate HasShape(d: Design) {
    && |d.colors| == 4 && |d.kinds| == |d.order| == |d.rank| == 16
    && (forall p :: 0 <= p < 16 ==> d.kinds[p] < 4)
    && (forall p :: 0 <= p < 16 ==> d.rank[p] < 16)
    && (forall p :: 0 <= p < 16 ==> d.order[p] < 16)
  }

  /** By kind, and within a kind by place. */
  function Key(d: Design, k: nat): nat
    requires HasShape(d) && k < 16
  {
    16 * d.kinds[d.order[k]] + d.order[k]
  }

  function Painted(d: Design): Block
    requires IsDesign(d)
  {
    seq(16, p requires 0 <= p < 16 => d.colors[d.kinds[p]])
  }

  // ---------- the sorted block ----------

  lemma {:induction false} KeysGrow(d: Design, i: nat, j: nat)
    requires IsDesign(d) && i < j < 16
    ensures Key(d, i) < Key(d, j)
    decreases j
  {
    hide LumaOf;
    assert Key(d, j - 1) < Key(d, j - 1 + 1);
    if i < j - 1 {
      KeysGrow(d, i, j - 1);
    }
  }

  lemma LumasGrow(d: Design, a: nat, b: nat)
    requires IsDesign(d) && a < 4 && b < 4
    ensures a < b ==> LumaOf(d.colors[a]) < LumaOf(d.colors[b])
  {
    hide LumaOf;
  }

  lemma SortedPair(d: Design, i: nat, j: nat)
    requires IsDesign(d) && PixelOrder(d.order) && i < j < 16
    ensures var s := SortedLumas(Painted(d), d.order); s[i] <= s[j] && (s[i] == s[j] ==> d.order[i] < d.order[j])
  {
    hide LumaOf;
    KeysGrow(d, i, j);
    LumasGrow(d, d.kinds[d.order[i]], d.kinds[d.order[j]]);
  }

  /** The order of a design is the one insertionSort finds. */
  lemma DesignIsSorted(d: Design)
    requires IsDesign(d)
    ensures PixelOrder(d.order)
    ensures var s := SortedLumas(Painted(d), d.order);
            Sorted(s) && Stable(s, d.order) && Rearranges(s, d.order, Lumas(Painted(d)))
  {
    hide LumaOf;
    var s := SortedLumas(Painted(d), d.order);
    forall i, j | 0 <= i < j < 16
      ensures s[i] <= s[j] && (s[i] == s[j] ==> d.order[i] < d.order[j]) && d.order[i] != d.order[j]
    {
      SortedPair(d, i, j);
      KeysGrow(d, i, j);
    }
    forall v | 0 <= v < 16 ensures v in d.order {
      assert d.order[d.rank[v]] == v;
    }
  }

  // ---------- sums over the block ----------

  function LeastErr(p: Pixel, ps: seq<Rgb>): nat
    requires |ps| == 4
  {
    PixErr(p, ps[BestIndex(p, ps, 4)])
  }

  /** The weighted difference that PixErr squares. */
  function Gap(p: Pixel, c: Rgb): nat {
    38 * Abs(p.r - c.r) + 76 * Abs(p.g - c.g) + 14 * Abs(p.b - c.b)
  }

  lemma GapSquared(p: Pixel, c: Rgb, low: nat, high: nat)
    requires low <= Gap(p, c) <= high
    ensures low * low <= PixErr(p, c) <= high * high
  {
    hide Gap;
    GapIsSquared(p, c);
    SquareMonotone(low, Gap(p, c));
    SquareMonotone(Gap(p, c), high);
  }

  lemma GapIsSquared(p: Pixel, c: Rgb)
    ensures PixErr(p, c) == Gap(p, c) * Gap(p, c)
  {
  }

  /** The least error, from the least of the four weighted differences. */
  lemma LeastErrIs(p: Pixel, ps: seq<Rgb>, k: nat, gap: nat)
    requires |ps| == 4 && k < 4 && Gap(p, ps[k]) == gap
    requires forall j :: 0 <= j < 4 ==> gap <= Gap(p, ps[j])
    ensures LeastErr(p, ps) == gap * gap
  {
    hide Gap, PixErr;
    var best := BestIndex(p, ps, 4);
    GapIsSquared(p, ps[k]);
    GapIsSquared(p, ps[best]);
    SquareMonotone(gap, Gap(p, ps[best]));
  }

  lemma LeastErrAtLeast(p: Pixel, ps: seq<Rgb>, gap: nat)
    requires |ps| == 4 && forall j :: 0 <= j < 4 ==> gap <= Gap(p, ps[j])
    ensures LeastErr(p, ps) >= gap * gap
  {
    hide Gap, PixErr;
    var best := BestIndex(p, ps, 4);
    GapIsSquared(p, ps[best]);
    SquareMonotone(gap, Gap(p, ps[best]));
  }

  lemma RowOfErrors(src: Block, ps: seq<Rgb>, y: nat)
    requires |ps| == 4 && y < 4
    ensures ErrorSum(src, ps, 4 * y + 4)
            == ErrorSum(src, ps, 4 * y)
               + LeastErr(src[y], ps) + LeastErr(src[4 + y], ps) + LeastErr(src[8 + y], ps) + LeastErr(src[12 + y], ps)
  {
    hide PixErr, BestIndex, ErrorSum, IndexWord, Append;
    VisitNext(src, ps, 0, y);
    VisitNext(src, ps, 1, y);
    VisitNext(src, ps, 2, y);
    VisitNext(src, ps, 3, y);
  }

  lemma NoErrors(src: Block, ps: seq<Rgb>)
    requires |ps| == 4
    ensures ErrorSum(src, ps, 0) == 0
  {
  }

  /** The least errors of the four rows. */
  lemma FourRowsOfErrors(src: Block, ps: seq<Rgb>)
    requires |ps| == 4
    ensures ErrorSum(src, ps, 16)
            == LeastErr(src[0], ps) + LeastErr(src[4], ps) + LeastErr(src[8], ps) + LeastErr(src[12], ps)
               + LeastErr(src[1], ps) + LeastErr(src[5], ps) + LeastErr(src[9], ps) + LeastErr(src[13], ps)
               + LeastErr(src[2], ps) + LeastErr(src[6], ps) + LeastErr(src[10], ps) + LeastErr(src[14], ps)
               + LeastErr(src[3], ps) + LeastErr(src[7], ps) + LeastErr(src[11], ps) + LeastErr(src[15], ps)
  {
    hide LeastErr, ErrorSum;
    NoErrors(src, ps);
    RowOfErrors(src, ps, 0);
    RowOfErrors(src, ps, 1);
    RowOfErrors(src, ps, 2);
    RowOfErrors(src, ps, 3);
  }

  lemma SumNext(src: Block, c: nat, quads: set<nat>, n: nat)
    requires c < 3 && n < 16
    ensures SumIn(src, c, quads, n + 1) == SumIn(src, c, quads, n)
              + (if QuadrantOf(n) in quads then Chan(src[n], c) else 0)
  {
    hide QuadrantOf, Chan;
  }

  lemma SumColumn(src: Block, c: nat, quads: set<nat>, m: nat)
    requires c < 3 && m < 4
    ensures SumIn(src, c, quads, 4 * m + 4) == SumIn(src, c, quads, 4 * m)
            + (if 2 * (m / 2) in quads then Chan(src[4 * m], c) + Chan(src[4 * m + 1], c) else 0)
            + (if 2 * (m / 2) + 1 in quads then Chan(src[4 * m + 2], c) + Chan(src[4 * m + 3], c) else 0)
  {
    hide QuadrantOf, Chan, SumIn;
    ColumnQuadrants(m);
    SumNext(src, c, quads, 4 * m);
    SumNext(src, c, quads, 4 * m + 1);
    SumNext(src, c, quads, 4 * m + 2);
    SumNext(src, c, quads, 4 * m + 3);
  }

  lemma NoSum(src: Block, c: nat, quads: set<nat>)
    requires c < 3
    ensures SumIn(src, c, quads, 0) == 0
  {
  }

  // ---------- what a fit costs at least ----------

  lemma SquareAtLeast(x: int, low: nat)
    requires low <= Abs(x)
    ensures Sq(x) >= low * low
  {
    SquareMonotone(low, Abs(x));
  }

  /** The least error of a pixel with one table. */
  function Least(pix: int, t: nat): nat
    requires t < 8
  {
    Min(Min(FitErr(pix, t, 0), FitErr(pix, t, 1)), Min(FitErr(pix, t, 2), FitErr(pix, t, 3)))
  }

  lemma SelectorAboveLeast(pix: int, t: nat, s: nat)
    requires t < 8 && s < 4
    ensures FitErr(pix, t, s) >= Least(pix, t)
  {
    hide FitErr;
  }

  /** The least cost of the first n pixels around one base colour, with tables t0 and t1. */
  function LeastCost(src: Block, base: Rgb, layout: nat, t0: nat, t1: nat, n: nat): nat
    requires layout < 4 && t0 < 8 && t1 < 8 && n <= 16
  {
    if n == 0 then 0
    else LeastCost(src, base, layout, t0, t1, n - 1)
         + Least(Pix(base, src[n - 1]), if AverageIds(layout)[n - 1] % 2 == 0 then t0 else t1)
  }

  /** Both base colours of the layout are base. */
  predicate OneBase(a: seq<Rgb>, layout: nat, base: Rgb) {
    |a| == 8 && layout < 4 && a[2 * layout] == a[2 * layout + 1] == base
  }

  lemma {:induction false} CostAboveLeast(src: Block, a: seq<Rgb>, layout: nat, base: Rgb, f: Fit, n: nat)
    requires OneBase(a, layout, base) && IsFit(f) && n <= 16
    ensures Cost(src, a, layout, f, n) >= LeastCost(src, base, layout, f.tables[0], f.tables[1], n)
  {
    hide Cost, Least, FitErr, Pix, AverageIds;
    if n == 0 {
      CostOfNone(src, a, layout, f);
    } else {
      CostAboveLeast(src, a, layout, base, f, n - 1);
      CostStep(src, a, layout, f, n);
      IdBound(layout, n - 1);
      var id := AverageIds(layout)[n - 1];
      SelectorAboveLeast(Pix(base, src[n - 1]), f.tables[id % 2], f.selectors[n - 1]);
    }
  }

  lemma CostOfNone(src: Block, a: seq<Rgb>, layout: nat, f: Fit)
    requires |a| == 8 && layout < 4 && IsFit(f)
    ensures Cost(src, a, layout, f, 0) == 0
  {
  }

  /** The four pixels of quadrant q, all with one table. */
  function QuadrantCost(src: Block, base: Rgb, q: nat, t: nat): nat
    requires q < 4 && t < 8
  {
    var p := 8 * (q / 2) + 2 * (q % 2);
    Least(Pix(base, src[p]), t) + Least(Pix(base, src[p + 1]), t)
    + Least(Pix(base, src[p + 4]), t) + Least(Pix(base, src[p + 5]), t)
  }

  /** The table of quadrant q: t0 for the second half of the block. */
  function QuadrantTable(layout: nat, t0: nat, t1: nat, q: nat): nat
    requires q < 4
  {
    if (if layout % 2 == 1 then q % 2 else q / 2) == 1 then t0 else t1
  }

  lemma NextCost(src: Block, base: Rgb, layout: nat, t0: nat, t1: nat, m: nat, r: nat)
    requires layout < 4 && t0 < 8 && t1 < 8 && m < 4 && r < 4
    ensures LeastCost(src, base, layout, t0, t1, 4 * m + r + 1) == LeastCost(src, base, layout, t0, t1, 4 * m + r)
            + Least(Pix(base, src[4 * m + r]), QuadrantTable(layout, t0, t1, 2 * (m / 2) + r / 2))
  {
    hide Least, Pix, AverageIds;
    AverageOfHalf(layout, m, r);
  }

  lemma CostOfColumn(src: Block, base: Rgb, layout: nat, t0: nat, t1: nat, m: nat)
    requires layout < 4 && t0 < 8 && t1 < 8 && m < 4
    ensures var tt := QuadrantTable(layout, t0, t1, 2 * (m / 2));
            var tl := QuadrantTable(layout, t0, t1, 2 * (m / 2) + 1);
            LeastCost(src, base, layout, t0, t1, 4 * m + 4) == LeastCost(src, base, layout, t0, t1, 4 * m)
            + Least(Pix(base, src[4 * m]), tt) + Least(Pix(base, src[4 * m + 1]), tt)
            + Least(Pix(base, src[4 * m + 2]), tl) + Least(Pix(base, src[4 * m + 3]), tl)
  {
    hide Least, Pix, LeastCost, QuadrantTable;
    NextCost(src, base, layout, t0, t1, m, 0);
    NextCost(src, base, layout, t0, t1, m, 1);
    NextCost(src, base, layout, t0, t1, m, 2);
    NextCost(src, base, layout, t0, t1, m, 3);
  }

  lemma NoCost(src: Block, base: Rgb, layout: nat, t0: nat, t1: nat)
    requires layout < 4 && t0 < 8 && t1 < 8
    ensures LeastCost(src, base, layout, t0, t1, 0) == 0
  {
  }

  lemma CostOfQuadrants(src: Block, base: Rgb, layout: nat, t0: nat, t1: nat)
    requires layout < 4 && t0 < 8 && t1 < 8
    ensures LeastCost(src, base, layout, t0, t1, 16)
            == QuadrantCost(src, base, 0, QuadrantTable(layout, t0, t1, 0))
               + QuadrantCost(src, base, 1, QuadrantTable(layout, t0, t1, 1))
               + QuadrantCost(src, base, 2, QuadrantTable(layout, t0, t1, 2))
               + QuadrantCost(src, base, 3, QuadrantTable(layout, t0, t1, 3))
  {
    hide Least, Pix, LeastCost, QuadrantTable;
    NoCost(src, base, layout, t0, t1);
    CostOfColumn(src, base, layout, t0, t1, 0);
    CostOfColumn(src, base, layout, t0, t1, 1);
    CostOfColumn(src, base, layout, t0, t1, 2);
    CostOfColumn(src, base, layout, t0, t1, 3);
  }

  // ---------- what a fit costs and shows, pixel by pixel ----------

  /** The cost of one pixel. */
  function PixelCost(src: Block, a: seq<Rgb>, layout: nat, f: Fit, p: nat): nat
    requires |a| == 8 && layout < 4 && IsFit(f) && p < 16
  {
    FitErr(PixAt(src, a, layout, p), f.tables[AverageIds(layout)[p] % 2], f.selectors[p])
  }

  lemma ColumnOfCosts(src: Block, a: seq<Rgb>, layout: nat, f: Fit, m: nat)
    requires |a| == 8 && layout < 4 && IsFit(f) && m < 4
    ensures Cost(src, a, layout, f, 4 * m + 4) == Cost(src, a, layout, f, 4 * m)
            + PixelCost(src, a, layout, f, 4 * m) + PixelCost(src, a, layout, f, 4 * m + 1)
            + PixelCost(src, a, layout, f, 4 * m + 2) + PixelCost(src, a, layout, f, 4 * m + 3)
  {
    hide Cost, FitErr, PixAt, AverageIds;
    CostStep(src, a, layout, f, 4 * m + 1);
    CostStep(src, a, layout, f, 4 * m + 2);
    CostStep(src, a, layout, f, 4 * m + 3);
    CostStep(src, a, layout, f, 4 * m + 4);
  }

  lemma FourColumnsOfCosts(src: Block, a: seq<Rgb>, layout: nat, f: Fit)
    requires |a| == 8 && layout < 4 && IsFit(f)
    ensures Cost(src, a, layout, f, 16)
            == PixelCost(src, a, layout, f, 0) + PixelCost(src, a, layout, f, 1)
               + PixelCost(src, a, layout, f, 2) + PixelCost(src, a, layout, f, 3)
               + PixelCost(src, a, layout, f, 4) + PixelCost(src, a, layout, f, 5)
               + PixelCost(src, a, layout, f, 6) + PixelCost(src, a, layout, f, 7)
               + PixelCost(src, a, layout, f, 8) + PixelCost(src, a, layout, f, 9)
               + PixelCost(src, a, layout, f, 10) + PixelCost(src, a, layout, f, 11)
               + PixelCost(src, a, layout, f, 12) + PixelCost(src, a, layout, f, 13)
               + PixelCost(src, a, layout, f, 14) + PixelCost(src, a, layout, f, 15)
  {
    hide Cost, PixelCost;
    CostOfNone(src, a, layout, f);
    ColumnOfCosts(src, a, layout, f, 0);
    ColumnOfCosts(src, a, layout, f, 1);
    ColumnOfCosts(src, a, layout, f, 2);
    ColumnOfCosts(src, a, layout, f, 3);
  }

  lemma RowOfShown(src: Block, shown: Block, y: nat)
    requires y < 4
    ensures ShownError(src, shown, 4 * y + 4) == ShownError(src, shown, 4 * y)
            + PixErr(src[y], ColorOf(shown[y])) + PixErr(src[4 + y], ColorOf(shown[4 + y]))
            + PixErr(src[8 + y], ColorOf(shown[8 + y])) + PixErr(src[12 + y], ColorOf(shown[12 + y]))
  {
    hide PixErr, Scan, ColorOf;
    ScanAt(0, y);
    ScanAt(1, y);
    ScanAt(2, y);
    ScanAt(3, y);
    assert ShownError(src, shown, 4 * y + 2) == ShownError(src, shown, 4 * y)
           + PixErr(src[y], ColorOf(shown[y])) + PixErr(src[4 + y], ColorOf(shown[4 + y]));
  }

  lemma NothingShown(src: Block, shown: Block)
    ensures ShownError(src, shown, 0) == 0
  {
  }

  /** A block is shown with a multiple of the cost of a fit if every pixel is. */
  lemma ShownScalesWithCost(src: Block, a: seq<Rgb>, layout: nat, f: Fit, shown: Block)
    requires |a| == 8 && layout < 4 && IsFit(f)
    ensures (forall p :: 0 <= p < 16 ==> 4 * PixErr(src[p], ColorOf(shown[p])) <= PixelCost(src, a, layout, f, p)) ==>
              4 * ShownError(src, shown, 16) <= Cost(src, a, layout, f, 16)
    ensures (forall p :: 0 <= p < 16 ==> 4 * PixErr(src[p], ColorOf(shown[p])) == PixelCost(src, a, layout, f, p)) ==>
              4 * ShownError(src, shown, 16) == Cost(src, a, layout, f, 16)
  {
    hide PixErr, ColorOf, ShownError, Cost, PixelCost;
    NothingShown(src, shown);
    RowOfShown(src, shown, 0);
    RowOfShown(src, shown, 1);
    RowOfShown(src, shown, 2);
    RowOfShown(src, shown, 3);
    FourColumnsOfCosts(src, a, layout, f);
  }
}
