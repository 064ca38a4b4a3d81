/** compressBlockTH: from the pixels of a high-contrast block to a T or H word. The pixels are
    sorted by luma, split in two groups, each group gives a base colour, and the distance search
    does the rest. */
module ThBlock {
  import opened Words
  import opened Pixels
  import opened ThSearch
  import opened IndexBits
  import opened Decoder
  import opened ThWords

  /** The weighted sum behind the luma of a pixel. */
  function LumaSum(p: Pixel): nat {
    p.r * 76 + p.g * 150 + p.b * 28
  }

  function LumaOf(p: Pixel): byte {
    LumaSum(p) / 254
  }

  /** The luma is that of the weights 0.299, 0.587 and 0.114, but for less than two. */
  lemma LumaIsWeighted(p: Pixel)
    ensures -2000 < 1000 * LumaOf(p) - (299 * p.r + 587 * p.g + 114 * p.b) < 1000
  {
  }

  const MODE_TH_RANGE: nat := 97 // the least luma range whose quotient by 255 reaches 0.38

  predicate Sorted(s: seq<int>) {
    forall i, j :: 0 <= i < j < |s| ==> s[i] <= s[j]
  }

  /** s is the start of was, reordered; order says which position each element came from. */
  predicate Rearranges(s: seq<int>, order: seq<nat>, was: seq<int>) {
    && |s| == |order| <= |was|
    && (forall k :: 0 <= k < |order| ==> order[k] < |order| && s[k] == was[order[k]])
    && (forall i, j :: 0 <= i < j < |order| ==> order[i] != order[j])
    && (forall v :: 0 <= v < |order| ==> v in order)
  }

  /** Pixels of equal luma stay in the order they had. */
  predicate Stable(s: seq<int>, order: seq<nat>)
    requires |s| == |order|
  {
    forall i, j :: 0 <= i < j < |s| && s[i] == s[j] ==> order[i] < order[j]
  }

  function InsertAt<T>(s: seq<T>, h: nat, v: T): seq<T>
    requires h <= |s|
  {
    s[..h] + [v] + s[h..]
  }

  lemma InsertSorted(s: seq<int>, h: nat, v: int)
    requires h <= |s| && Sorted(s)
    requires forall k :: 0 <= k < h ==> s[k] <= v
    requires forall k :: h <= k < |s| ==> v < s[k]
    ensures Sorted(InsertAt(s, h, v))
  {
  }

  lemma InsertElement<T>(s: seq<T>, h: nat, v: T, k: nat)
    requires h <= |s| && k <= |s|
    ensures |InsertAt(s, h, v)| == |s| + 1
    ensures InsertAt(s, h, v)[k] == if k < h then s[k] else if k == h then v else s[k - 1]
  {
  }

  lemma InsertRearranges(s: seq<int>, order: seq<nat>, was: seq<int>, h: nat)
    requires Rearranges(s, order, was) && h <= |s| < |was|
    ensures Rearranges(InsertAt(s, h, was[|s|]), InsertAt<nat>(order, h, |s|), was)
  {
    hide InsertAt;
    var (t, o) := (InsertAt(s, h, was[|s|]), InsertAt<nat>(order, h, |s|));
    InsertElement(s, h, was[|s|], h);
    InsertElement<nat>(order, h, |s|, h);
    forall k | 0 <= k < |o| ensures o[k] < |o| && t[k] == was[o[k]] {
      InsertElement(s, h, was[|s|], k);
      InsertElement<nat>(order, h, |s|, k);
    }
    forall i, j | 0 <= i < j < |o| ensures o[i] != o[j] {
      InsertElement<nat>(order, h, |s|, i);
      InsertElement<nat>(order, h, |s|, j);
    }
    forall v | 0 <= v < |o| ensures v in o {
      if v < |order| {
        InsertKeepsMember(order, h, |s|, v);
      } else {
        assert o[h] == v;
      }
    }
  }

  lemma InsertKeepsMember(order: seq<nat>, h: nat, x: nat, v: nat)
    requires h <= |order| && v in order
    ensures v in InsertAt(order, h, x)
  {
    assert v in order[..h] || v in order[h..];
  }

  lemma InsertStable(s: seq<int>, order: seq<nat>, h: nat, v: int)
    requires |s| == |order| && h <= |s| && Stable(s, order)
    requires forall k :: 0 <= k < |order| ==> order[k] < |order|
    requires forall k :: h <= k < |s| ==> v < s[k]
    ensures Stable(InsertAt(s, h, v), InsertAt<nat>(order, h, |s|))
  {
    var (t, o) := (InsertAt(s, h, v), InsertAt<nat>(order, h, |s|));
    forall i, j | 0 <= i < j < |t| && t[i] == t[j] ensures o[i] < o[j] {
      assert o[i] == if i < h then order[i] else if i == h then |s| else order[i - 1];
      assert o[j] == if j < h then order[j] else if j == h then |s| else order[j - 1];
    }
  }

  /** Element by element, v has been put in at h and what stood there moved up. */
  predicate Inserted<T(==)>(now: seq<T>, was: seq<T>, i: nat, h: nat, v: T)
    requires h <= i < |was| == |now|
  {
    && (forall k :: 0 <= k < h ==> now[k] == was[k])
    && now[h] == v
    && (forall k :: h < k <= i ==> now[k] == was[k - 1])
    && (forall k :: i < k < |now| ==> now[k] == was[k])
  }

  lemma InsertedIs<T>(now: seq<T>, was: seq<T>, i: nat, h: nat, v: T)
    requires h <= i < |was| == |now| && Inserted(now, was, i, h, v)
    ensures now[..i + 1] == InsertAt(was[..i], h, v)
    ensures now[i + 1..] == was[i + 1..]
  {
    forall k | 0 <= k <= i ensures now[..i + 1][k] == InsertAt(was[..i], h, v)[k] {
    }
  }

  /** The inner loop of insertionSort: moves element i down to its place among the sorted ones. */
  method Insert(arr1: array<int>, arr2: array<nat>, i: nat) returns (hole: nat)
    requires arr1 != arr2 as object && i < arr1.Length == arr2.Length
    requires Sorted(arr1[..i])
    modifies arr1, arr2
    ensures hole <= i
    ensures forall k :: 0 <= k < hole ==> old(arr1[k]) <= old(arr1[i])
    ensures forall k :: hole <= k < i ==> old(arr1[i]) < old(arr1[k])
    ensures Inserted(arr1[..], old(arr1[..]), i, hole, old(arr1[i]))
    ensures Inserted(arr2[..], old(arr2[..]), i, hole, i)
  {
    ghost var was := arr1[..];
    var value := arr1[i];
    hole := i;
    while hole > 0 && value < arr1[hole - 1]
      invariant 0 <= hole <= i
      invariant forall k :: 0 <= k < hole ==> arr1[k] == old(arr1[k]) && arr2[k] == old(arr2[k])
      invariant forall k :: hole < k <= i ==> arr1[k] == old(arr1[k - 1]) && arr2[k] == old(arr2[k - 1])
      invariant forall k :: hole <= k < i ==> value < old(arr1[k])
      invariant forall k :: i < k < arr1.Length ==> arr1[k] == old(arr1[k]) && arr2[k] == old(arr2[k])
    {
      arr1[hole] := arr1[hole - 1];
      arr2[hole] := arr2[hole - 1];
      hole := hole - 1;
    }
    LowerPart(was, i, hole, value);
    arr1[hole] := value;
    arr2[hole] := i;
  }

  lemma LowerPart(s: seq<int>, i: nat, hole: nat, value: int)
    requires hole <= i < |s| && Sorted(s[..i]) && (hole > 0 ==> s[hole - 1] <= value)
    ensures forall k :: 0 <= k < hole ==> s[k] <= value
  {
    forall k | 0 <= k < hole ensures s[k] <= value {
      assert s[..i][k] == s[k] && s[..i][hole - 1] == s[hole - 1];
    }
  }

  /** insertionSort: sorts the lumas and carries the pixel numbers along. */
  method InsertionSort(arr1: array<int>, arr2: array<nat>)
    requires arr1 != arr2 as object && arr1.Length == arr2.Length == 16
    requires arr2[0] == 0
    modifies arr1, arr2
    ensures Sorted(arr1[..])
    ensures Rearranges(arr1[..], arr2[..], old(arr1[..])) && Stable(arr1[..], arr2[..])
  {
    hide Sorted, Rearranges, Stable, InsertAt, Inserted;
    ghost var was := arr1[..];
    OneIsSorted(arr1[..1], arr2[..1], was);
    for i := 1 to 16
      invariant Sorted(arr1[..i])
      invariant Rearranges(arr1[..i], arr2[..i], was) && Stable(arr1[..i], arr2[..i])
      invariant arr1[i..] == was[i..]
    {
      ghost var (s, o) := (arr1[..], arr2[..]);
      assert arr1[i] == arr1[i..][0] == was[i];
      var hole := Insert(arr1, arr2, i);
      InsertedIs(arr1[..], s, i, hole, was[i]);
      InsertedIs<nat>(arr2[..], o, i, hole, i);
      InsertKeepsOrder(s[..i], o[..i], was, hole, was[i]);
      RestKept(s, was, i);
      assert arr1[..i + 1] == arr1[..][..i + 1] == InsertAt(s[..i], hole, was[i]);
      assert arr2[..i + 1] == arr2[..][..i + 1] == InsertAt<nat>(o[..i], hole, |s[..i]|);
      assert arr1[i + 1..] == arr1[..][i + 1..];
    }
    assert arr1[..16] == arr1[..] && arr2[..16] == arr2[..];
  }

  lemma RestKept(s: seq<int>, was: seq<int>, i: nat)
    requires i < |s| == |was| && s[i..] == was[i..]
    ensures s[i + 1..] == was[i + 1..]
  {
    assert s[i + 1..] == s[i..][1..];
  }

  lemma OneIsSorted(s: seq<int>, order: seq<nat>, was: seq<int>)
    requires |s| == |order| == 1 <= |was| && s[0] == was[0] && order[0] == 0
    ensures Sorted(s) && Rearranges(s, order, was) && Stable(s, order)
  {
  }

  lemma InsertKeepsOrder(s: seq<int>, order: seq<nat>, was: seq<int>, h: nat, v: int)
    requires h <= |s| < |was| && v == was[|s|]
    requires Sorted(s) && Rearranges(s, order, was) && |s| == |order| && Stable(s, order)
    requires forall k :: 0 <= k < h ==> s[k] <= v
    requires forall k :: h <= k < |s| ==> v < s[k]
    ensures var (t, o) := (InsertAt(s, h, v), InsertAt<nat>(order, h, |s|));
            Sorted(t) && Rearranges(t, o, was) && |t| == |o| && Stable(t, o)
  {
    hide Sorted, Stable, InsertAt;
    InsertSorted(s, h, v);
    InsertRearranges(s, order, was, h);
    InsertStable(s, order, h, v);
  }

  // ---------- luma ----------

  datatype LumaRange = LumaRange(max: byte, min: byte, maxIdx: nat, minIdx: nat)

  /** k is the first pixel of least luma, or of greatest luma when the sign is turned round. */
  predicate IsFirstLeast(vals: seq<int>, k: nat) {
    && k < |vals|
    && (forall i :: 0 <= i < |vals| ==> vals[k] <= vals[i])
    && (forall i :: 0 <= i < k ==> vals[k] < vals[i])
  }

  predicate IsFirstGreatest(vals: seq<int>, k: nat) {
    && k < |vals|
    && (forall i :: 0 <= i < |vals| ==> vals[i] <= vals[k])
    && (forall i :: 0 <= i < k ==> vals[i] < vals[k])
  }

  function Lumas(src: Block): (vals: seq<int>)
    ensures |vals| == 16
  {
    seq(16, i requires 0 <= i < 16 => LumaOf(src[i]))
  }

  /** CalculateLuma: the luma of every pixel, and where the extremes are. */
  method CalculateLuma(src: Block) returns (luma: LumaRange, val: array<int>)
    ensures fresh(val) && val[..] == Lumas(src)
    ensures IsFirstLeast(Lumas(src), luma.minIdx) && luma.min == Lumas(src)[luma.minIdx]
    ensures IsFirstGreatest(Lumas(src), luma.maxIdx) && luma.max == Lumas(src)[luma.maxIdx]
  {
    ghost var vals := Lumas(src);
    val := new int[16];
    luma := LumaRange(0, 255, 0, 0);
    for i := 0 to 16
      invariant val[..i] == vals[..i]
      invariant luma.minIdx < 16 && luma.maxIdx < 16
      invariant forall k :: 0 <= k < i ==> luma.min <= vals[k]
      invariant luma.min == 255 ==> luma.minIdx == 0
      invariant luma.min < 255 ==> luma.minIdx < i && vals[luma.minIdx] == luma.min
      invariant forall k :: 0 <= k < luma.minIdx ==> luma.min < vals[k]
      invariant forall k :: 0 <= k < i ==> vals[k] <= luma.max
      invariant luma.max == 0 ==> luma.maxIdx == 0
      invariant luma.max > 0 ==> luma.maxIdx < i && vals[luma.maxIdx] == luma.max
      invariant forall k :: 0 <= k < luma.maxIdx ==> vals[k] < luma.max
    {
      val[i] := LumaOf(src[i]);
      if luma.min > val[i] {
        luma := luma.(min := LumaOf(src[i]), minIdx := i);
      }
      if luma.max < val[i] {
        luma := luma.(max := LumaOf(src[i]), maxIdx := i);
      }
    }
    assert val[..16] == val[..] && vals[0] == LumaOf(src[0]);
  }

  // ---------- the split into two groups ----------

  function DiffBonus(): (bonus: seq<nat>)
    ensures |bonus| == 15
  {
    [8, 4, 2, 0, 0, 0, 0, 0, 0, 0, 0, 0, 2, 4, 8]
  }

  /** What the two groups 0..i and i+1..15 of the sorted lumas cost: their ranges and a bonus
      against very uneven groups. */
  function SplitCost(luma: seq<int>, i: nat): int
    requires |luma| == 16 && i < 15
  {
    (luma[i] - luma[0]) + (luma[15] - luma[i + 1]) + DiffBonus()[i]
  }

  /** Step 2 of compressBlockTH: the first split of least cost. */
  method FindSplit(luma: array<int>) returns (minSumRangeIdx: nat)
    requires luma.Length == 16
    ensures minSumRangeIdx < 15
    ensures forall i :: 0 <= i < 15 ==> SplitCost(luma[..], minSumRangeIdx) <= SplitCost(luma[..], i)
    ensures forall i :: 0 <= i < minSumRangeIdx ==> SplitCost(luma[..], minSumRangeIdx) < SplitCost(luma[..], i)
  {
    hide DiffBonus;
    BonusOfSplit(0);
    BonusOfSplit(14);
    minSumRangeIdx := 0;
    var temp := luma[15] - luma[0];
    var minSumRangeValue := luma[15] - luma[1] + DiffBonus()[0];
    var sum;
    for i := 1 to 14
      invariant minSumRangeIdx < i
      invariant minSumRangeValue == SplitCost(luma[..], minSumRangeIdx)
      invariant forall k :: 0 <= k < i ==> minSumRangeValue <= SplitCost(luma[..], k)
      invariant forall k :: 0 <= k < minSumRangeIdx ==> minSumRangeValue < SplitCost(luma[..], k)
    {
      sum := temp - luma[i + 1] + luma[i] + DiffBonus()[i];
      if minSumRangeValue > sum {
        minSumRangeValue := sum;
        minSumRangeIdx := i;
      }
    }
    sum := luma[14] - luma[0] + DiffBonus()[14];
    assert sum == SplitCost(luma[..], 14);
    if minSumRangeValue > sum {
      minSumRangeValue := sum;
      minSumRangeIdx := 14;
    }
  }

  /** The bonus of a split depends on how many pixels the smaller group has beyond one: 8, 4 and 2 for none,
      one and two, and nothing from there on. */
  lemma BonusOfSplit(i: nat)
    requires i < 15
    ensures var extra := Min(i, 14 - i); DiffBonus()[i] == [8, 4, 2, 0, 0, 0, 0, 0][extra]
  {
  }

  datatype Plan = Plan(tMode: bool, swap: bool)

  /** Step 3: T mode when one group is at least twice as wide as the other. */
  function ChooseMode(lRange: int, rRange: int): Plan {
    if lRange >= rRange then
      if lRange >= rRange * 2 then Plan(true, true) else Plan(false, false)
    else Plan(lRange * 2 <= rRange, false)
  }

  // ---------- base colours ----------

  /** Halfway between two pixels. */
  function Mid(p: Pixel, q: Pixel): Rgb {
    Rgb((p.r + q.r) / 2, (p.g + q.g) / 2, (p.b + q.b) / 2)
  }

  datatype Sums = Sums(r: nat, g: nat, b: nat)

  predicate PixelOrder(order: seq<nat>) {
    |order| == 16 && forall k :: 0 <= k < 16 ==> order[k] < 16
  }

  /** Channel sums of the pixels order[first], ..., order[end - 1]. */
  function SumRange(src: Block, order: seq<nat>, first: nat, end: nat): (s: Sums)
    requires PixelOrder(order) && first <= end <= 16
    ensures s.r <= 255 * (end - first) && s.g <= 255 * (end - first) && s.b <= 255 * (end - first)
    decreases end
  {
    if first == end then Sums(0, 0, 0)
    else
      var s := SumRange(src, order, first, end - 1);
      var p := src[order[end - 1]];
      Sums(s.r + p.r, s.g + p.g, s.b + p.b)
  }

  lemma MeanIsByte(sum: nat, n: nat)
    requires 1 <= n && sum <= 255 * n
    ensures 0 <= sum / n <= 255
  {
  }

  /** The mean colour of the upper group. */
  function MeanAbove(src: Block, order: seq<nat>, split: nat): Rgb
    requires PixelOrder(order) && split < 15
  {
    var s := SumRange(src, order, split + 1, 16);
    MeanIsByte(s.r, 15 - split);
    MeanIsByte(s.g, 15 - split);
    MeanIsByte(s.b, 15 - split);
    Rgb(s.r / (15 - split), s.g / (15 - split), s.b / (15 - split))
  }

  method ComputeMeanAbove(src: Block, order: array<nat>, split: nat) returns (mean: Rgb)
    requires order.Length == 16 && PixelOrder(order[..]) && split < 15
    ensures mean == MeanAbove(src, order[..], split)
  {
    var sumR: nat, sumG: nat, sumB: nat := 0, 0, 0;
    for i := split + 1 to 16
      invariant Sums(sumR, sumG, sumB) == SumRange(src, order[..], split + 1, i)
    {
      var p := src[order[i]];
      sumB := sumB + p.b;
      sumG := sumG + p.g;
      sumR := sumR + p.r;
    }
    var temp := 15 - split;
    MeanIsByte(sumR, temp);
    MeanIsByte(sumG, temp);
    MeanIsByte(sumB, temp);
    mean := Rgb(sumR / temp, sumG / temp, sumB / temp);
  }

  /** Step 4: the two base colours. A group that T mode paints with three colours is represented by
      the middle of its extremes; in T mode the other group is represented by its mean, which is
      always taken over the pixels above the split. */
  function BaseColors(src: Block, order: seq<nat>, split: nat, plan: Plan): (Rgb, Rgb)
    requires PixelOrder(order) && split < 15
  {
    var low := Mid(src[order[0]], src[order[split]]);
    var high := Mid(src[order[split + 1]], src[order[15]]);
    if plan.swap then (MeanAbove(src, order, split), low)
    else if plan.tMode then (low, MeanAbove(src, order, split))
    else (low, high)
  }

  /** One channel of compressColor: four bits, kept off the ends of the scale unless the colour is
      the single colour of T mode. */
  function Quantize(c: byte, full: bool): nib {
    var q := 15 * (c + 8) / 255;
    if full then Min(q, 15) else if q < 1 then 1 else Min(q, 14)
  }

  function QuantizeRgb(c: Rgb, full: bool): Rgb444 {
    Rgb444(Quantize(c.r, full), Quantize(c.g, full), Quantize(c.b, full))
  }

  /** Two bytes of one quantisation class are less than 26 apart. */
  lemma QuantizeClass(x: byte, y: byte)
    requires Quantize(x, false) == Quantize(y, false)
    ensures x - y <= 25
  {
  }

  lemma MidLuma(p: Pixel, q: Pixel)
    ensures var m := Mid(p, q); var l := LumaSum(p) + LumaSum(q);
            l - 254 <= 2 * (m.r * 76 + m.g * 150 + m.b * 28) <= l
  {
  }

  lemma LumaSumBounds(p: Pixel)
    ensures 254 * LumaOf(p) <= LumaSum(p) <= 254 * LumaOf(p) + 253
  {
  }

  /** In a block of luma range 97 or more, the two base colours of H mode never quantise to the same
      colour: whatever the split, the middles of the two groups of the sorted pixels are too far
      apart in luma. So the order of the stored colours is always free to carry the parity. */
  lemma HBasesDiffer(src: Block, order: seq<nat>, split: nat)
    requires PixelOrder(order) && split < 15
    requires LumaOf(src[order[split]]) <= LumaOf(src[order[split + 1]])
    requires LumaOf(src[order[15]]) - LumaOf(src[order[0]]) >= MODE_TH_RANGE
    ensures var (c0, c1) := BaseColors(src, order, split, Plan(false, false));
            QuantizeRgb(c0, false) != QuantizeRgb(c1, false)
  {
    var (p0, p1) := (src[order[0]], src[order[split]]);
    var (p2, p3) := (src[order[split + 1]], src[order[15]]);
    var (c0, c1) := (Mid(p0, p1), Mid(p2, p3));
    hide QuantizeRgb, Quantize, LumaOf, LumaSum, Mid, MeanAbove;
    MidLuma(p0, p1);
    MidLuma(p2, p3);
    LumaSumBounds(p0);
    LumaSumBounds(p1);
    LumaSumBounds(p2);
    LumaSumBounds(p3);
    if QuantizeRgb(c0, false) == QuantizeRgb(c1, false) {
      SameClasses(c0, c1);
      QuantizeClass(c1.r, c0.r);
      QuantizeClass(c1.g, c0.g);
      QuantizeClass(c1.b, c0.b);
      assert false;
    }
  }

  lemma SameClasses(c0: Rgb, c1: Rgb)
    requires QuantizeRgb(c0, false) == QuantizeRgb(c1, false)
    ensures Quantize(c1.r, false) == Quantize(c0.r, false)
    ensures Quantize(c1.g, false) == Quantize(c0.g, false)
    ensures Quantize(c1.b, false) == Quantize(c0.b, false)
  {
  }

  // ---------- the start distance ----------

  /** Division of C, which rounds toward zero. */
  function TruncDiv(x: int, n: int): int
    requires n > 0
  {
    if x >= 0 then x / n else -(-x / n)
  }

  /** Twice (T mode) or four times (H mode) half the spread of the colours at the group ends. */
  function EndSpread(p: Pixel, q: Pixel): int {
    (q.b - p.b) + (q.g - p.g) + (q.r - p.r)
  }

  function AvgDist(src: Block, order: seq<nat>, split: nat, plan: Plan): int
    requires PixelOrder(order) && split < 15
  {
    var low := EndSpread(src[order[0]], src[order[split]]);
    var high := EndSpread(src[order[split + 1]], src[order[15]]);
    if plan.tMode then TruncDiv(if plan.swap then low else high, 6) else TruncDiv(low + high, 12)
  }

  /** Step 5. The average distance is kept as an unsigned number, so a negative one is huge. */
  function StartDist(avgDist: int): (d: nat)
    ensures d <= 4
  {
    if avgDist < 0 then 4
    else if avgDist <= 16 then 0
    else if avgDist <= 23 then 1
    else if avgDist <= 32 then 2
    else if avgDist <= 41 then 3
    else 4
  }

  // ---------- the whole block ----------

  /** What a T or H word is for: the decoder reads it in its mode and paints every pixel of the
      block with the first of its paint colours that has the least error for that pixel, and err is
      what 32 bits keep of the sum of those errors. */
  ghost predicate PaintsBest(src: Block, tMode: bool, q0: Rgb444, q1: Rgb444, dist: nat, lo: bv32, hi: bv32, err: nat)
    requires dist < 8
  {
    && ModeOf(lo) == (if tMode then ModeT else ModeH)
    && err == BlockErr(tMode, src, q0, q1, dist)
    && forall i, j :: 0 <= i < 4 && 0 <= j < 4 ==>
         DecodedPixel(lo, hi, i, j) == Opaque(BestPaint(src[4 * i + j], tMode, q0, q1, dist))
  }

  function BestPaint(p: Pixel, tMode: bool, q0: Rgb444, q1: Rgb444, dist: nat): Rgb
    requires dist < 8
  {
    Paints(tMode, q0, q1, dist)[BestIndex(p, Paints(tMode, q0, q1, dist), 4)]
  }

  /** What the decoder makes of the two halves of a word. */
  function DecodedBlock(lo: bv32, hi: bv32): Block {
    seq(16, p requires 0 <= p < 16 => DecodedPixel(lo, hi, p / 4, p % 4))
  }

  /** The error of a T or H word: in 32 bits, that of the block it decodes to. */
  lemma ErrorOfWord(src: Block, tMode: bool, q0: Rgb444, q1: Rgb444, dist: nat, lo: bv32, hi: bv32, err: nat)
    requires dist < 8 && PaintsBest(src, tMode, q0, q1, dist, lo, hi, err)
    ensures ShownError(src, DecodedBlock(lo, hi), 16) == BlockSum(tMode, src, q0, q1, dist)
    ensures var shown := ShownError(src, DecodedBlock(lo, hi), 16);
            err == Wrap32(shown) && (err == shown <==> shown < FULL)
  {
    hide ShownError, ErrorSum, Paints, DecodedPixel, ModeOf, BestIndex, Wrap32;
    var shown := DecodedBlock(lo, hi);
    forall p | 0 <= p < 16 ensures shown[p] == Opaque(BestPaint(src[p], tMode, q0, q1, dist)) {
      assert 4 * (p / 4) + p % 4 == p;
    }
    ShownErrorIsSum(src, shown, Paints(tMode, q0, q1, dist), 16);
    WrapLowers(ShownError(src, shown, 16));
  }

  /** A search result, packed, stuffed and converted. */
  function StuffedLo(tMode: bool, q0: Rgb444, q1: Rgb444, dist: nat): bv32
    requires dist < 256
  {
    if tMode then Stuff59(PackT(q0, q1, dist)) else HWord(q0, q1, dist)
  }

  function ConvertedHi(tMode: bool, q0: Rgb444, q1: Rgb444, dist: nat, w: bv32): bv32 {
    if tMode then Converted(w, 16) else HIndices(q0, q1, dist, w)
  }

  lemma ChosenIsBest(src: Block, ps: seq<Rgb>, p: nat)
    requires |ps| == 4 && p < 16
    ensures ChosenOf(IndexWord(src, ps, 16), p) == BestIndex(src[p], ps, 4)
  {
    hide IndexWord, BestIndex, ChosenIndex;
    IndexWordChoosesBest(src, ps, p);
    WordToInt(BestIndex(src[p], ps, 4));
  }

  lemma SearchedWordPaintsBest(src: Block, tMode: bool, q0: Rgb444, q1: Rgb444, dist: nat)
    requires dist < 8
    requires !tMode ==> q0 != q1 || dist % 2 == 1
    ensures var w := BlockIndices(tMode, src, q0, q1, dist);
            PaintsBest(src, tMode, q0, q1, dist, StuffedLo(tMode, q0, q1, dist),
                       ConvertedHi(tMode, q0, q1, dist, w), BlockErr(tMode, src, q0, q1, dist))
  {
    hide Stuff59, PackT, HWord, HIndices, Converted, Paints, DecodedPixel, BestIndex, ChosenOf, IndexWord, ModeOf,
         HCodeword, CodewordOf, BlockErr;
    var ps := Paints(tMode, q0, q1, dist);
    var w := BlockIndices(tMode, src, q0, q1, dist);
    ModeOfSearched(tMode, q0, q1, dist, w);
    forall i, j | 0 <= i < 4 && 0 <= j < 4
      ensures DecodedPixel(StuffedLo(tMode, q0, q1, dist), ConvertedHi(tMode, q0, q1, dist, w), i, j)
              == Opaque(BestPaint(src[4 * i + j], tMode, q0, q1, dist))
    {
      ChosenIsBest(src, ps, 4 * i + j);
      if tMode {
        TModeRoundTrip(q0, q1, dist, w, i, j);
      } else {
        HModeRoundTrip(q0, q1, dist, w, i, j);
      }
    }
  }

  lemma ModeOfSearched(tMode: bool, q0: Rgb444, q1: Rgb444, dist: nat, w: bv32)
    requires dist < 8
    requires !tMode ==> q0 != q1 || dist % 2 == 1
    ensures ModeOf(StuffedLo(tMode, q0, q1, dist)) == if tMode then ModeT else ModeH
  {
    hide Stuff59, PackT, HWord, ModeOf, HCodeword, DecodedPixel;
    if tMode {
      TModeRoundTrip(q0, q1, dist, w, 0, 0);
    } else {
      HModeRoundTrip(q0, q1, dist, w, 0, 0);
    }
  }

  /** Step 7: the searched block as the decoder expects it. compressBlockTH packs the colours and
      converts the indices, its caller stuffs the colour word. */
  method OutputTH(tMode: bool, q0: Rgb444, q1: Rgb444, bestDist: nat, bestPixIndices: bv32)
    returns (lo: bv32, hi: bv32)
    requires bestDist < 256
    ensures lo == StuffedLo(tMode, q0, q1, bestDist)
    ensures hi == ConvertedHi(tMode, q0, q1, bestDist, bestPixIndices)
  {
    hide Stuff59, Stuff58, PackT, PackH, Converted, FlipIndices;
    var c0, c1, indices := q0, q1, bestPixIndices;
    if tMode {
      lo := Stuff59(PackT(c0, c1, bestDist));
    } else {
      if (Packed(c0) >= Packed(c1)) != (bestDist % 2 == 1) {
        c0, c1 := c1, c0;
        indices := FlipIndices(indices);
      }
      lo := Stuff58(PackH(c0, c1, bestDist));
    }
    hi := IndexConversion(indices);
  }

  /** Steps 4 and 5: the quantised base colours and the start distance. */
  method PickColors(src: Block, order: array<nat>, split: nat, plan: Plan)
    returns (q0: Rgb444, q1: Rgb444, startDist: nat)
    requires order.Length == 16 && PixelOrder(order[..]) && split < 15
    ensures startDist == StartDist(AvgDist(src, order[..], split, plan))
    ensures var (c0, c1) := BaseColors(src, order[..], split, plan);
            q0 == QuantizeRgb(c0, plan.tMode) && q1 == QuantizeRgb(c1, false)
  {
    hide QuantizeRgb, Mid, MeanAbove, StartDist, AvgDist;
    var low := Mid(src[order[0]], src[order[split]]);
    var high := Mid(src[order[split + 1]], src[order[15]]);
    var mean := ComputeMeanAbove(src, order, split);
    var mid0 := if plan.swap then mean else low;
    var mid1 := if plan.swap then low else if plan.tMode then mean else high;
    q0, q1 := QuantizeRgb(mid0, plan.tMode), QuantizeRgb(mid1, false);
    startDist := StartDist(AvgDist(src, order[..], split, plan));
  }

  /** Steps 1 to 5: the sorted lumas, the mode, the quantised base colours, the start distance. */
  method PlanBlock(src: Block, luma: array<int>) returns (tMode: bool, q0: Rgb444, q1: Rgb444, startDist: nat)
    requires luma.Length == 16 && luma[..] == Lumas(src)
    requires exists i, j :: 0 <= i < 16 && 0 <= j < 16 && luma[j] - luma[i] >= MODE_TH_RANGE
    modifies luma
    ensures startDist < 8
    ensures !tMode ==> q0 != q1
    ensures IsPlan(src, tMode, q0, q1, startDist) && PlanMeans(src, tMode, q0, q1, startDist)
  {
    hide QuantizeRgb, Lumas, SplitCost, BaseColors, StartDist, AvgDist, PlanMeans;
    ghost var was := luma[..];
    ghost var i, j :| 0 <= i < 16 && 0 <= j < 16 && luma[j] - luma[i] >= MODE_TH_RANGE;
    var pixIdx := new nat[16](k => k);
    InsertionSort(luma, pixIdx);
    SortedRange(src, luma[..], pixIdx[..], was, i, j);
    var split := FindSplit(luma);
    var plan := ChooseMode(luma[split] - luma[0], luma[15] - luma[split + 1]);
    tMode := plan.tMode;
    q0, q1, startDist := PickColors(src, pixIdx, split, plan);
    ghost var order := pixIdx[..];
    if !tMode {
      assert plan == Plan(false, false);
      HBasesDiffer(src, order, split);
    }
    assert luma[..] == SortedLumas(src, order);
    assert PlannedBy(src, order, split, plan, tMode, q0, q1, startDist);
    PlanIsMeant(src, tMode, q0, q1, startDist);
  }

  function SortedLumas(src: Block, order: seq<nat>): (s: seq<int>)
    requires PixelOrder(order)
    ensures |s| == 16
  {
    seq(16, k requires 0 <= k < 16 => LumaOf(src[order[k]]))
  }

  /** Steps 1 and 2: the order of the pixels by luma, and the first split of least cost. */
  ghost predicate IsGrouping(src: Block, order: seq<nat>, split: nat) {
    && PixelOrder(order) && split < 15
    && var sorted := SortedLumas(src, order);
    && Sorted(sorted)
    && Rearranges(sorted, order, Lumas(src)) && Stable(sorted, order)
    && (forall i :: 0 <= i < 15 ==> SplitCost(sorted, split) <= SplitCost(sorted, i))
    && (forall i :: 0 <= i < split ==> SplitCost(sorted, split) < SplitCost(sorted, i))
  }

  /** The choices of steps 1 to 5, for an order of the pixels by luma. */
  ghost predicate PlannedBy(src: Block, order: seq<nat>, split: nat, plan: Plan,
                            tMode: bool, q0: Rgb444, q1: Rgb444, startDist: nat)
  {
    && IsGrouping(src, order, split)
    && var sorted := SortedLumas(src, order);
    && plan == ChooseMode(sorted[split] - sorted[0], sorted[15] - sorted[split + 1])
    && tMode == plan.tMode
    && var (c0, c1) := BaseColors(src, order, split, plan);
    && q0 == QuantizeRgb(c0, tMode) && q1 == QuantizeRgb(c1, false)
    && startDist == StartDist(AvgDist(src, order, split, plan))
  }

  // ---------- what the plan means ----------

  /** How far apart in luma the pixels of the lower and of the upper group are. */
  function LowWidth(src: Block, order: seq<nat>, split: nat): int
    requires PixelOrder(order) && split < 15
  {
    LumaOf(src[order[split]]) - LumaOf(src[order[0]])
  }

  function HighWidth(src: Block, order: seq<nat>, split: nat): int
    requires PixelOrder(order) && split < 15
  {
    LumaOf(src[order[15]]) - LumaOf(src[order[split + 1]])
  }

  /** The four bits that come closest to a channel when the decoder repeats them, kept off the ends of the
      scale unless the full scale may be used. */
  predicate IsCode(q: nib, c: byte, full: bool) {
    && (full || 1 <= q <= 14)
    && forall k: nib :: full || 1 <= k <= 14 ==> Abs(17 * q - c) <= Abs(17 * k - c)
  }

  predicate CodesColor(q: Rgb444, c: Rgb, full: bool) {
    IsCode(q.r, c.r, full) && IsCode(q.g, c.g, full) && IsCode(q.b, c.b, full)
  }

  /** q stands for the colour halfway between two pixels. */
  ghost predicate CodesMiddle(q: Rgb444, p1: Pixel, p2: Pixel, full: bool) {
    exists c: Rgb ::
      && CodesColor(q, c, full)
      && 2 * c.r <= p1.r + p2.r <= 2 * c.r + 1
      && 2 * c.g <= p1.g + p2.g <= 2 * c.g + 1
      && 2 * c.b <= p1.b + p2.b <= 2 * c.b + 1
  }

  /** q stands for the mean colour of the pixels order[first], ..., order[15]. */
  ghost predicate CodesMean(q: Rgb444, src: Block, order: seq<nat>, first: nat, full: bool)
    requires PixelOrder(order) && first < 16
  {
    var (s, n) := (SumRange(src, order, first, 16), 16 - first);
    exists c: Rgb ::
      && CodesColor(q, c, full)
      && n * c.r <= s.r < n * c.r + n && n * c.g <= s.g < n * c.g + n && n * c.b <= s.b < n * c.b + n
  }

  /** One group is at least twice as wide as the other. */
  predicate IsUneven(src: Block, order: seq<nat>, split: nat) {
    && PixelOrder(order) && split < 15
    && var (low, high) := (LowWidth(src, order, split), HighWidth(src, order, split));
    low >= 2 * high || high >= 2 * low
  }

  /** The colours of the plan. If the lower group is at least twice as wide as the upper one, the middle of
      its ends is the second colour and the mean of the upper group the first; if it is the other way
      round, the middle of the lower group is the first colour and the mean of the upper group the second;
      and otherwise each group has the middle of its ends. */
  ghost predicate StandForGroups(src: Block, order: seq<nat>, split: nat, q0: Rgb444, q1: Rgb444)
    requires PixelOrder(order) && split < 15
  {
    if LowWidth(src, order, split) >= 2 * HighWidth(src, order, split) then
      && CodesMean(q0, src, order, split + 1, true)
      && CodesMiddle(q1, src[order[0]], src[order[split]], false)
    else if HighWidth(src, order, split) >= 2 * LowWidth(src, order, split) then
      && CodesMiddle(q0, src[order[0]], src[order[split]], true)
      && CodesMean(q1, src, order, split + 1, false)
    else
      && CodesMiddle(q0, src[order[0]], src[order[split]], false)
      && CodesMiddle(q1, src[order[split + 1]], src[order[15]], false)
  }

  function ChannelSum(p: Pixel): nat {
    p.r + p.g + p.b
  }

  /** The search starts three steps before the first distance that reaches the average spread, but at no
      step beyond the fourth, and there if the average is negative. */
  predicate StartsAt(spread: int, n: int, start: nat) {
    && start <= 4
    && (spread <= -n ==> start == 4)
    && (spread > -n ==>
          && (start > 0 ==> spread >= n * (TableTH(start + 2) + 1))
          && (start < 4 ==> spread < n * (TableTH(start + 3) + 1)))
  }

  predicate StartsByGroups(src: Block, order: seq<nat>, split: nat, start: nat)
    requires PixelOrder(order) && split < 15
  {
    var low := ChannelSum(src[order[split]]) - ChannelSum(src[order[0]]);
    var high := ChannelSum(src[order[15]]) - ChannelSum(src[order[split + 1]]);
    if LowWidth(src, order, split) >= 2 * HighWidth(src, order, split) then StartsAt(low, 6, start)
    else if HighWidth(src, order, split) >= 2 * LowWidth(src, order, split) then StartsAt(high, 6, start)
    else StartsAt(low + high, 12, start)
  }

  /** One group of the block is at least twice as wide as the other. */
  ghost predicate IsLopsided(src: Block) {
    exists order, split :: IsGrouping(src, order, split) && IsUneven(src, order, split)
  }

  /** A plan in terms of the two groups. */
  ghost predicate PlanMeans(src: Block, tMode: bool, q0: Rgb444, q1: Rgb444, start: nat) {
    && (tMode <==> IsLopsided(src))
    && exists order, split ::
         && IsGrouping(src, order, split)
         && StandForGroups(src, order, split, q0, q1)
         && StartsByGroups(src, order, split, start)
  }

  lemma QuantizeIsCode(c: byte, full: bool)
    ensures IsCode(Quantize(c, full), c, full)
  {
  }

  lemma QuantizeRgbIsCode(c: Rgb, full: bool)
    ensures CodesColor(QuantizeRgb(c, full), c, full)
  {
    hide Quantize, IsCode;
    QuantizeIsCode(c.r, full);
    QuantizeIsCode(c.g, full);
    QuantizeIsCode(c.b, full);
  }

  lemma MiddleIsCoded(p1: Pixel, p2: Pixel, full: bool)
    ensures CodesMiddle(QuantizeRgb(Mid(p1, p2), full), p1, p2, full)
  {
    hide QuantizeRgb, CodesColor;
    QuantizeRgbIsCode(Mid(p1, p2), full);
  }

  lemma QuotientBounds(sum: nat, n: nat)
    requires n > 0
    ensures n * (sum / n) <= sum < n * (sum / n) + n
  {
  }

  lemma MeanIsCoded(src: Block, order: seq<nat>, split: nat, full: bool)
    requires PixelOrder(order) && split < 15
    ensures CodesMean(QuantizeRgb(MeanAbove(src, order, split), full), src, order, split + 1, full)
  {
    hide QuantizeRgb, CodesColor, SumRange;
    var (c, s) := (MeanAbove(src, order, split), SumRange(src, order, split + 1, 16));
    QuantizeRgbIsCode(c, full);
    QuotientBounds(s.r, 15 - split);
    QuotientBounds(s.g, 15 - split);
    QuotientBounds(s.b, 15 - split);
  }

  lemma StartIs(spread: int, n: nat)
    requires n == 6 || n == 12
    ensures StartsAt(spread, n, StartDist(TruncDiv(spread, n)))
  {
  }

  lemma WidthsAre(src: Block, order: seq<nat>, split: nat)
    requires IsGrouping(src, order, split)
    ensures var s := SortedLumas(src, order);
            LowWidth(src, order, split) == s[split] - s[0] && HighWidth(src, order, split) == s[15] - s[split + 1]
    ensures LowWidth(src, order, split) >= 0 && HighWidth(src, order, split) >= 0
  {
    hide LumaOf, SplitCost, Rearranges, Stable;
  }

  lemma GroupingIsUnique(src: Block, order: seq<nat>, split: nat, order2: seq<nat>, split2: nat)
    requires IsGrouping(src, order, split) && IsGrouping(src, order2, split2)
    ensures order == order2 && split == split2
  {
    hide Sorted, Rearranges, Stable, SplitCost, SortedLumas;
    OrdersAgree(src, order, order2, 16);
    assert order == order2;
    var s := SortedLumas(src, order);
    assert SplitCost(s, split) <= SplitCost(s, split2) && SplitCost(s, split2) <= SplitCost(s, split);
  }

  lemma GroupsAreOrdered(src: Block, order: seq<nat>, split: nat)
    requires IsGrouping(src, order, split)
    ensures PixelOrder(order) && split < 15
  {
    hide Sorted, Rearranges, Stable, SplitCost, SortedLumas;
  }

  /** What the choices of steps 3 to 5 come to. */
  lemma PlannedMeans(src: Block, order: seq<nat>, split: nat, plan: Plan, tMode: bool, q0: Rgb444, q1: Rgb444,
                     start: nat)
    requires PlannedBy(src, order, split, plan, tMode, q0, q1, start) && PixelOrder(order) && split < 15
    ensures tMode <==> IsUneven(src, order, split)
    ensures StandForGroups(src, order, split, q0, q1) && StartsByGroups(src, order, split, start)
  {
    hide IsGrouping, SortedLumas, QuantizeRgb, Mid, MeanAbove, StartDist, TruncDiv, LowWidth, HighWidth, CodesMiddle,
         CodesMean, StartsAt;
    WidthsAre(src, order, split);
    MiddleIsCoded(src[order[0]], src[order[split]], plan.tMode);
    MiddleIsCoded(src[order[0]], src[order[split]], false);
    MiddleIsCoded(src[order[split + 1]], src[order[15]], false);
    MeanIsCoded(src, order, split, plan.tMode);
    MeanIsCoded(src, order, split, false);
    var low := EndSpread(src[order[0]], src[order[split]]);
    var high := EndSpread(src[order[split + 1]], src[order[15]]);
    StartIs(low, 6);
    StartIs(high, 6);
    StartIs(low + high, 12);
  }

  /** Every plan is what the two groups call for. */
  lemma PlanIsMeant(src: Block, tMode: bool, q0: Rgb444, q1: Rgb444, start: nat)
    requires IsPlan(src, tMode, q0, q1, start)
    ensures PlanMeans(src, tMode, q0, q1, start)
  {
    hide PlannedBy, IsGrouping, IsUneven, StandForGroups, StartsByGroups;
    var order: seq<nat>, split: nat, plan: Plan :| PlannedBy(src, order, split, plan, tMode, q0, q1, start);
    PlannedGroups(src, order, split, plan, tMode, q0, q1, start);
    GroupsAreOrdered(src, order, split);
    PlannedMeans(src, order, split, plan, tMode, q0, q1, start);
    if IsLopsided(src) {
      var o2, s2 :| IsGrouping(src, o2, s2) && IsUneven(src, o2, s2);
      GroupingIsUnique(src, order, split, o2, s2);
    }
  }

  lemma PlannedGroups(src: Block, order: seq<nat>, split: nat, plan: Plan, tMode: bool, q0: Rgb444, q1: Rgb444,
                      start: nat)
    requires PlannedBy(src, order, split, plan, tMode, q0, q1, start)
    ensures IsGrouping(src, order, split)
  {
    hide IsGrouping, SortedLumas, QuantizeRgb, BaseColors, StartDist, AvgDist, ChooseMode;
  }

  /** The sorted lumas keep the range of the block, wherever its extremes were. */
  lemma SortedRange(src: Block, s: seq<int>, order: seq<nat>, was: seq<int>, i: nat, j: nat)
    requires |s| == 16 && was == Lumas(src) && Sorted(s) && Rearranges(s, order, was)
    requires i < 16 && j < 16
    ensures PixelOrder(order)
    ensures forall k :: 0 <= k < 16 ==> s[k] == LumaOf(src[order[k]])
    ensures s[15] - s[0] >= was[j] - was[i]
  {
    assert i in order && j in order;
    var a :| 0 <= a < 16 && order[a] == i;
    var b :| 0 <= b < 16 && order[b] == j;
    assert s[0] <= s[a] && s[b] <= s[15];
  }

  ghost predicate IsPlan(src: Block, tMode: bool, q0: Rgb444, q1: Rgb444, startDist: nat) {
    exists order: seq<nat>, split: nat, plan: Plan :: PlannedBy(src, order, split, plan, tMode, q0, q1, startDist)
  }

  /** The outcome of a successful search on a planned block. */
  ghost predicate Searched(src: Block, tMode: bool, q0: Rgb444, q1: Rgb444, start: nat, dist: nat)
  {
    && start <= dist < 8
    && IsPlan(src, tMode, q0, q1, start)
    && (exists f :: start <= f <= dist && FirstLocalMin(Errs(tMode, src, q0, q1), start, f, dist))
  }

  /** The search of a planned block that meets no distance with an error below MAX_ERROR. */
  ghost predicate SearchFails(src: Block) {
    exists tMode: bool, q0: Rgb444, q1: Rgb444, start: nat ::
      && start < 8
      && IsPlan(src, tMode, q0, q1, start)
      && NothingBelow(Errs(tMode, src, q0, q1), start, 8)
  }

  /** The search of a planned block that ends at a distance with error err. */
  ghost predicate SearchFinds(src: Block, err: nat) {
    exists tMode: bool, q0: Rgb444, q1: Rgb444, start: nat, dist: nat ::
      Searched(src, tMode, q0, q1, start, dist) && err == BlockErr(tMode, src, q0, q1, dist)
  }

  ghost predicate IsThWord(src: Block, tMode: bool, lo: bv32, hi: bv32, err: nat) {
    exists q0: Rgb444, q1: Rgb444, start: nat, dist: nat ::
      Searched(src, tMode, q0, q1, start, dist) && PaintsBest(src, tMode, q0, q1, dist, lo, hi, err)
  }

  const NO_DIST: nat := 10 // the distance the search starts with

  /** What is left when the search fails: the planned colours with no distance and the index word as it
      was found. */
  ghost predicate IsGarbage(src: Block, tMode: bool, lo: bv32, hi: bv32, garbage: bv32) {
    exists q0: Rgb444, q1: Rgb444, start: nat ::
      && IsPlan(src, tMode, q0, q1, start)
      && lo == StuffedLo(tMode, q0, q1, NO_DIST) && hi == ConvertedHi(tMode, q0, q1, NO_DIST, garbage)
  }

  /** compressBlockTH with the stuffing its caller applies, for a block of luma range 97 or more.
      garbage is what the uninitialised index word holds. Unless no tested distance has an error
      below MAX_ERROR, the word is one the decoder reads in the chosen mode and every pixel decodes
      to its best paint colour. The returned error is what 32 bits keep of the error of the decoded
      block, and is that error only if it fits. */
  method CompressBlockTH(src: Block, luma: array<int>, garbage: bv32)
    returns (bestErr: nat, lo: bv32, hi: bv32, tMode: bool)
    requires luma.Length == 16 && luma[..] == Lumas(src)
    requires exists i, j :: 0 <= i < 16 && 0 <= j < 16 && luma[j] - luma[i] >= MODE_TH_RANGE
    modifies luma
    ensures bestErr <= MAX_ERROR
    ensures tMode <==> IsLopsided(src)
    ensures bestErr < MAX_ERROR ==> IsThWord(src, tMode, lo, hi, bestErr) && SearchFinds(src, bestErr)
    ensures bestErr < MAX_ERROR ==>
              var shown := ShownError(src, DecodedBlock(lo, hi), 16);
              bestErr == Wrap32(shown) && (bestErr == shown <==> shown < FULL)
    ensures bestErr == MAX_ERROR ==> SearchFails(src) && IsGarbage(src, tMode, lo, hi, garbage)
  {
    hide PlannedBy, FirstLocalMin, PaintsBest, StuffedLo, ConvertedHi, BlockErr, BlockIndices, Lumas, NothingBelow,
         Errs, ShownError, DecodedBlock, IsLopsided, StandForGroups, StartsByGroups, IsGrouping;
    var q0, q1, startDist;
    tMode, q0, q1, startDist := PlanBlock(src, luma);
    var bestDist, bestPixIndices;
    bestErr, bestDist, bestPixIndices := CalculateErrorTH(tMode, src, q0, q1, NO_DIST, garbage, startDist);
    lo, hi := OutputTH(tMode, q0, q1, bestDist, bestPixIndices);
    if bestErr < MAX_ERROR {
      SearchedWordPaintsBest(src, tMode, q0, q1, bestDist);
      assert Searched(src, tMode, q0, q1, startDist, bestDist);
      ErrorOfWord(src, tMode, q0, q1, bestDist, lo, hi, bestErr);
    }
  }

  // ---------- the outcome is determined by the block ----------

  /** Two stable orders of the same block agree: at the first place where they differed, each would
      have to put its pixel before the other's. */
  lemma {:induction false} OrdersAgree(src: Block, o1: seq<nat>, o2: seq<nat>, n: nat)
    requires PixelOrder(o1) && PixelOrder(o2) && n <= 16
    requires Sorted(SortedLumas(src, o1)) && Rearranges(SortedLumas(src, o1), o1, Lumas(src))
              && Stable(SortedLumas(src, o1), o1)
    requires Sorted(SortedLumas(src, o2)) && Rearranges(SortedLumas(src, o2), o2, Lumas(src))
              && Stable(SortedLumas(src, o2), o2)
    ensures forall k :: 0 <= k < n ==> o1[k] == o2[k]
  {
    hide LumaOf;
    if n > 0 {
      OrdersAgree(src, o1, o2, n - 1);
      var k := n - 1;
      if o1[k] != o2[k] {
        StandsBefore(src, o1, o2, k);
        StandsBefore(src, o2, o1, k);
        assert false;
      }
    }
  }

  lemma StandsBefore(src: Block, o1: seq<nat>, o2: seq<nat>, k: nat)
    requires PixelOrder(o1) && PixelOrder(o2) && k < 16 && o1[k] != o2[k]
    requires forall m :: 0 <= m < k ==> o1[m] == o2[m]
    requires Sorted(SortedLumas(src, o1)) && Rearranges(SortedLumas(src, o1), o1, Lumas(src))
              && Stable(SortedLumas(src, o1), o1)
    requires Rearranges(SortedLumas(src, o2), o2, Lumas(src))
    ensures LumaOf(src[o1[k]]) <= LumaOf(src[o2[k]])
    ensures LumaOf(src[o1[k]]) == LumaOf(src[o2[k]]) ==> o1[k] < o2[k]
  {
    hide LumaOf;
    assert o2[k] in o1;
    var m :| 0 <= m < 16 && o1[m] == o2[k];
    assert SortedLumas(src, o1)[k] <= SortedLumas(src, o1)[m] || m < k;
  }

  lemma PlanIsUnique(src: Block, order: seq<nat>, split: nat, plan: Plan, tMode: bool, q0: Rgb444, q1: Rgb444,
                     start: nat,
                     order2: seq<nat>, split2: nat, plan2: Plan, tMode2: bool, p0: Rgb444, p1: Rgb444, start2: nat)
    requires PlannedBy(src, order, split, plan, tMode, q0, q1, start)
    requires PlannedBy(src, order2, split2, plan2, tMode2, p0, p1, start2)
    ensures tMode == tMode2 && q0 == p0 && q1 == p1 && start == start2
  {
    hide IsGrouping, BaseColors, QuantizeRgb, StartDist, AvgDist, ChooseMode, SortedLumas;
    GroupingIsUnique(src, order, split, order2, split2);
  }

  lemma FirstLocalMinIsUnique(errs: seq<nat>, start: nat, f: nat, m: nat, f2: nat, m2: nat)
    requires start <= f <= m < |errs| && start <= f2 <= m2 < |errs|
    requires FirstLocalMin(errs, start, f, m) && FirstLocalMin(errs, start, f2, m2)
    ensures m == m2
  {
    assert f == f2;
  }

  /** A block has one search result. */
  lemma SearchIsUnique(src: Block, tMode: bool, q0: Rgb444, q1: Rgb444, start: nat, dist: nat,
                       t2: bool, p0: Rgb444, p1: Rgb444, s2: nat, d2: nat)
    requires Searched(src, tMode, q0, q1, start, dist) && Searched(src, t2, p0, p1, s2, d2)
    ensures tMode == t2 && q0 == p0 && q1 == p1 && start == s2 && dist == d2
  {
    hide PlannedBy, BlockErr, Errs;
    SamePlan(src, tMode, q0, q1, start, t2, p0, p1, s2);
    var f :| start <= f <= dist && FirstLocalMin(Errs(tMode, src, q0, q1), start, f, dist);
    var f2 :| s2 <= f2 <= d2 && FirstLocalMin(Errs(t2, src, p0, p1), s2, f2, d2);
    FirstLocalMinIsUnique(Errs(tMode, src, q0, q1), start, f, dist, f2, d2);
  }

  lemma SamePlan(src: Block, tMode: bool, q0: Rgb444, q1: Rgb444, start: nat, t2: bool, p0: Rgb444, p1: Rgb444, s2: nat)
    requires IsPlan(src, tMode, q0, q1, start) && IsPlan(src, t2, p0, p1, s2)
    ensures tMode == t2 && q0 == p0 && q1 == p1 && start == s2
  {
    hide PlannedBy;
    var order: seq<nat>, split: nat, plan: Plan :| PlannedBy(src, order, split, plan, tMode, q0, q1, start);
    var o2: seq<nat>, sp2: nat, pl2: Plan :| PlannedBy(src, o2, sp2, pl2, t2, p0, p1, s2);
    PlanIsUnique(src, order, split, plan, tMode, q0, q1, start, o2, sp2, pl2, t2, p0, p1, s2);
  }

  /** The error of the search, or its failure, is a matter of the block alone. */
  lemma SearchIsDetermined(src: Block, err: nat, err2: nat)
    requires SearchFinds(src, err)
    ensures !SearchFails(src)
    ensures SearchFinds(src, err2) ==> err == err2
  {
    hide IsPlan, BlockErr, Errs;
    var tMode: bool, q0: Rgb444, q1: Rgb444, start: nat, dist: nat :|
      Searched(src, tMode, q0, q1, start, dist) && err == BlockErr(tMode, src, q0, q1, dist);
    if SearchFails(src) {
      var t2: bool, p0: Rgb444, p1: Rgb444, s2: nat :|
        && s2 < 8
        && IsPlan(src, t2, p0, p1, s2)
        && NothingBelow(Errs(t2, src, p0, p1), s2, 8);
      SamePlan(src, tMode, q0, q1, start, t2, p0, p1, s2);
      assert false;
    }
    if SearchFinds(src, err2) {
      var t2: bool, p0: Rgb444, p1: Rgb444, s2: nat, d2: nat :|
        Searched(src, t2, p0, p1, s2, d2) && err2 == BlockErr(t2, src, p0, p1, d2);
      SearchIsUnique(src, tMode, q0, q1, start, dist, t2, p0, p1, s2, d2);
    }
  }

  // ---------- the search as it would be on the sums themselves ----------

  /** The search of a planned block on sums that are not cut off at 32 bits. */
  ghost predicate SearchedOnSums(src: Block, tMode: bool, q0: Rgb444, q1: Rgb444, start: nat, dist: nat) {
    dist < 8 && IsPlan(src, tMode, q0, q1, start) && EndsAt(BlockSums(tMode, src, q0, q1), start, dist)
  }

  ghost predicate SearchOnSumsFails(src: Block) {
    exists tMode: bool, q0: Rgb444, q1: Rgb444, start: nat ::
      && start < 8
      && IsPlan(src, tMode, q0, q1, start)
      && NothingBelow(BlockSums(tMode, src, q0, q1), start, 8)
  }

  /** A search that has found f first and ended at dist ends as it would on the sums if and only if
      those of its improvements that had wrapped came first and were overtaken. */
  lemma SearchEndsAsOnSums(src: Block, tMode: bool, q0: Rgb444, q1: Rgb444, start: nat, f: nat, dist: nat)
    requires IsPlan(src, tMode, q0, q1, start)
    requires start <= f <= dist < 8 && FirstLocalMin(Errs(tMode, src, q0, q1), start, f, dist)
    ensures SearchedOnSums(src, tMode, q0, q1, start, dist) <==> WrapsFirst(BlockSums(tMode, src, q0, q1), f, dist)
    ensures SearchedOnSums(src, tMode, q0, q1, start, dist) ==>
              BlockErr(tMode, src, q0, q1, dist) == BlockSum(tMode, src, q0, q1, dist)
  {
    hide IsPlan, FirstLocalMin, BlockSum, EndsAt;
    EndsAlike(BlockSums(tMode, src, q0, q1), start, f, dist);
  }

  /** A search that fails would also fail on the sums. */
  lemma FailureIsReal(src: Block)
    requires SearchFails(src)
    ensures SearchOnSumsFails(src)
  {
    hide IsPlan, BlockSums, NothingBelow;
    var tMode: bool, q0: Rgb444, q1: Rgb444, start: nat :|
      start < 8 && IsPlan(src, tMode, q0, q1, start) && NothingBelow(Errs(tMode, src, q0, q1), start, 8);
    FailsAlike(BlockSums(tMode, src, q0, q1), start, 8);
  }
}
