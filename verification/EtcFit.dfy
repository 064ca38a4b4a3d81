/** ETC1, second half: the modifier tables and selectors that fit a block best around its two base
    colours (scalar FindBestFit of ProcessRGB.cpp). */
module EtcFit {
  import opened Pixels
  import opened Tables
  import opened EtcAverages

  /** Weighted difference of a base colour from a pixel; the weights add up to 256. */
  function Pix(a: Rgb, p: Pixel): int {
    (a.r - p.r) * 77 + (a.g - p.g) * 151 + (a.b - p.b) * 28
  }

  function FitErr(pix: int, t: nat, s: nat): nat
    requires t < 8 && s < 4
  {
    Sq(Modifiers256(t)[s] + pix)
  }

  /** The error of painting p with the base colour a moved by modifier s of table t: the weighted
      difference of the moved colour from the pixel, squared. */
  function PaintErr(a: Rgb, p: Pixel, t: nat, s: nat): nat
    requires t < 8 && s < 4
  {
    var m := Modifiers(t)[s];
    Sq((a.r + m - p.r) * 77 + (a.g + m - p.g) * 151 + (a.b + m - p.b) * 28)
  }

  lemma FitErrIsPaintErr(a: Rgb, p: Pixel, t: nat, s: nat)
    requires t < 8 && s < 4
    ensures FitErr(Pix(a, p), t, s) == PaintErr(a, p, t, s)
  {
    hide Modifiers, Modifiers256;
    ModifierScale(t, s);
  }

  /** The first of the first n selectors of table t with the least error. */
  function BestSelector(pix: int, t: nat, n: nat): (s: nat)
    requires t < 8 && 1 <= n <= 4
    ensures s < n
    ensures forall j :: 0 <= j < n ==> FitErr(pix, t, s) <= FitErr(pix, t, j)
  {
    if n == 1 then 0
    else
      var s := BestSelector(pix, t, n - 1);
      if FitErr(pix, t, n - 1) < FitErr(pix, t, s) then n - 1 else s
  }

  function PixAt(src: Block, a: seq<Rgb>, layout: nat, i: nat): int
    requires |a| == 8 && layout < 4 && i < 16
  {
    IdBound(layout, i);
    Pix(a[AverageIds(layout)[i]], src[i])
  }

  lemma IdBound(layout: nat, i: nat)
    requires layout < 4 && i < 16
    ensures AverageIds(layout)[i] / 2 == layout && AverageIds(layout)[i] < 8
  {
    hide QuadrantOf, HalfQuadrants;
    IdsAreHalves(layout, i);
  }

  /** Sum over the first n pixels of half h of the least errors with table t. */
  function TableError(src: Block, a: seq<Rgb>, layout: nat, h: nat, t: nat, n: nat): nat
    requires |a| == 8 && layout < 4 && t < 8 && n <= 16
  {
    if n == 0 then 0
    else
      TableError(src, a, layout, h, t, n - 1)
      + (if AverageIds(layout)[n - 1] % 2 == h
         then var pix := PixAt(src, a, layout, n - 1); FitErr(pix, t, BestSelector(pix, t, 4))
         else 0)
  }

  /** The search for one pixel and one table. */
  method BestSelectorOf(pix: int, t: nat) returns (idx: nat, err: nat)
    requires t < 8
    ensures idx == BestSelector(pix, t, 4) && err == FitErr(pix, t, idx)
  {
    hide Sq, Modifiers256;
    idx := 0;
    err := Sq(Modifiers256(t)[0] + pix);
    for j := 1 to 4
      invariant idx == BestSelector(pix, t, j) && err == FitErr(pix, t, idx)
    {
      var local := Sq(Modifiers256(t)[j] + pix);
      if local < err {
        err := local;
        idx := j;
      }
    }
  }

  /** The tables of one pixel: its selectors go to row i, its errors to the row of its half. */
  method FitPixel(src: Block, a: seq<Rgb>, layout: nat, i: nat, terr: array2<nat>, tsel: array2<nat>)
    requires |a| == 8 && layout < 4 && i < 16
    requires terr.Length0 == 2 && terr.Length1 == 8 && tsel.Length0 == 16 && tsel.Length1 == 8 && terr != tsel
    requires forall h, t :: 0 <= h < 2 && 0 <= t < 8 ==> terr[h, t] == TableError(src, a, layout, h, t, i)
    modifies terr, tsel
    ensures forall h, t :: 0 <= h < 2 && 0 <= t < 8 ==> terr[h, t] == TableError(src, a, layout, h, t, i + 1)
    ensures forall t :: 0 <= t < 8 ==> tsel[i, t] == BestSelector(PixAt(src, a, layout, i), t, 4)
    ensures forall k, t :: 0 <= k < 16 && 0 <= t < 8 && k != i ==> tsel[k, t] == old(tsel[k, t])
  {
    hide PixAt, FitErr, BestSelector, AverageIds;
    var half := AverageIds(layout)[i] % 2;
    var pix := PixAt(src, a, layout, i);
    for t := 0 to 8
      invariant forall h, u :: 0 <= h < 2 && 0 <= u < t ==> terr[h, u] == TableError(src, a, layout, h, u, i + 1)
      invariant forall h, u :: 0 <= h < 2 && t <= u < 8 ==> terr[h, u] == TableError(src, a, layout, h, u, i)
      invariant forall u :: 0 <= u < t ==> tsel[i, u] == BestSelector(pix, u, 4)
      invariant forall k, u :: 0 <= k < 16 && 0 <= u < 8 && k != i ==> tsel[k, u] == old(tsel[k, u])
    {
      var idx, err := BestSelectorOf(pix, t);
      tsel[i, t] := idx;
      terr[half, t] := terr[half, t] + err;
    }
  }

  /** FindBestFit: for every table the selector of every pixel and the error of either half. */
  method FindBestFit(src: Block, a: seq<Rgb>, layout: nat) returns (terr: array2<nat>, tsel: array2<nat>)
    requires |a| == 8 && layout < 4
    ensures fresh(terr) && terr.Length0 == 2 && terr.Length1 == 8
    ensures fresh(tsel) && tsel.Length0 == 16 && tsel.Length1 == 8
    ensures forall h, t :: 0 <= h < 2 && 0 <= t < 8 ==> terr[h, t] == TableError(src, a, layout, h, t, 16)
    ensures forall i, t :: 0 <= i < 16 && 0 <= t < 8 ==> tsel[i, t] == BestSelector(PixAt(src, a, layout, i), t, 4)
  {
    hide PixAt, FitErr, BestSelector;
    terr := new nat[2, 8]((_, _) => 0);
    tsel := new nat[16, 8];
    for i := 0 to 16
      invariant forall h, t :: 0 <= h < 2 && 0 <= t < 8 ==> terr[h, t] == TableError(src, a, layout, h, t, i)
      invariant forall k, t :: 0 <= k < i && 0 <= t < 8 ==> tsel[k, t] == BestSelector(PixAt(src, a, layout, k), t, 4)
    {
      FitPixel(src, a, layout, i, terr, tsel);
    }
  }

  // ---------- optimality ----------

  /** Tables for the two halves and a selector for every pixel. */
  datatype Fit = Fit(tables: seq<nat>, selectors: seq<nat>)

  predicate IsFit(f: Fit) {
    && |f.tables| == 2 && f.tables[0] < 8 && f.tables[1] < 8
    && |f.selectors| == 16 && forall i :: 0 <= i < 16 ==> f.selectors[i] < 4
  }

  /** The weighted squared error of the first n pixels under a fit: pixel i is measured against its
      base colour moved by its selected modifier of the table of its half. */
  function Cost(src: Block, a: seq<Rgb>, layout: nat, f: Fit, n: nat): nat
    requires |a| == 8 && layout < 4 && IsFit(f) && n <= 16
  {
    if n == 0 then 0
    else
      IdBound(layout, n - 1);
      var id := AverageIds(layout)[n - 1];
      Cost(src, a, layout, f, n - 1) + PaintErr(a[id], src[n - 1], f.tables[id % 2], f.selectors[n - 1])
  }

  /** The fit of least-error selectors for given tables. */
  function BestFor(src: Block, a: seq<Rgb>, layout: nat, t0: nat, t1: nat): (f: Fit)
    requires |a| == 8 && layout < 4 && t0 < 8 && t1 < 8
    ensures IsFit(f)
  {
    Fit([t0, t1], seq(16, i requires 0 <= i < 16 =>
      BestSelector(PixAt(src, a, layout, i), if AverageIds(layout)[i] % 2 == 0 then t0 else t1, 4)))
  }

  lemma CostStep(src: Block, a: seq<Rgb>, layout: nat, f: Fit, n: nat)
    requires |a| == 8 && layout < 4 && IsFit(f) && 1 <= n <= 16
    ensures Cost(src, a, layout, f, n) == Cost(src, a, layout, f, n - 1)
            + FitErr(PixAt(src, a, layout, n - 1), f.tables[AverageIds(layout)[n - 1] % 2], f.selectors[n - 1])
  {
    hide FitErr, PaintErr, Pix, AverageIds;
    IdBound(layout, n - 1);
    var id := AverageIds(layout)[n - 1];
    FitErrIsPaintErr(a[id], src[n - 1], f.tables[id % 2], f.selectors[n - 1]);
  }

  lemma {:induction false} CostOfBest(src: Block, a: seq<Rgb>, layout: nat, t0: nat, t1: nat, n: nat)
    requires |a| == 8 && layout < 4 && t0 < 8 && t1 < 8 && n <= 16
    ensures Cost(src, a, layout, BestFor(src, a, layout, t0, t1), n)
            == TableError(src, a, layout, 0, t0, n) + TableError(src, a, layout, 1, t1, n)
  {
    hide FitErr, PaintErr, PixAt, BestSelector, AverageIds;
    if n > 0 {
      CostOfBest(src, a, layout, t0, t1, n - 1);
      CostStep(src, a, layout, BestFor(src, a, layout, t0, t1), n);
    }
  }

  lemma {:induction false} BestForIsBest(src: Block, a: seq<Rgb>, layout: nat, f: Fit, n: nat)
    requires |a| == 8 && layout < 4 && IsFit(f) && n <= 16
    ensures Cost(src, a, layout, BestFor(src, a, layout, f.tables[0], f.tables[1]), n) <= Cost(src, a, layout, f, n)
  {
    hide FitErr, PaintErr, PixAt, AverageIds;
    if n > 0 {
      BestForIsBest(src, a, layout, f, n - 1);
      CostStep(src, a, layout, f, n);
      CostStep(src, a, layout, BestFor(src, a, layout, f.tables[0], f.tables[1]), n);
    }
  }

  /** Over all tables of both halves and all 4^16 selector assignments, the tables of least error
      with their least-error selectors minimise the weighted squared error of the block. */
  lemma ChosenFitIsOptimal(src: Block, a: seq<Rgb>, layout: nat, t0: nat, t1: nat, f: Fit)
    requires |a| == 8 && layout < 4 && t0 < 8 && t1 < 8 && IsFit(f)
    requires forall t :: 0 <= t < 8 ==> TableError(src, a, layout, 0, t0, 16) <= TableError(src, a, layout, 0, t, 16)
    requires forall t :: 0 <= t < 8 ==> TableError(src, a, layout, 1, t1, 16) <= TableError(src, a, layout, 1, t, 16)
    ensures Cost(src, a, layout, BestFor(src, a, layout, t0, t1), 16) <= Cost(src, a, layout, f, 16)
    ensures Cost(src, a, layout, BestFor(src, a, layout, t0, t1), 16)
            == TableError(src, a, layout, 0, t0, 16) + TableError(src, a, layout, 1, t1, 16)
  {
    hide TableError, Cost, BestFor;
    CostOfBest(src, a, layout, t0, t1, 16);
    CostOfBest(src, a, layout, f.tables[0], f.tables[1], 16);
    BestForIsBest(src, a, layout, f, 16);
  }
}
