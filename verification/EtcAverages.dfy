/** ETC1, first half: the averages of the four ways to halve a block, their quantised forms, and
    the choice between the four layouts by least squares (scalar Average, CalcErrorBlock,
    CalcError, ProcessAverages, PrepareAverages of ProcessRGB.cpp, GetLeastError of
    ProcessCommon.hpp). */
module EtcAverages {
  import opened Pixels
  import opened Tables

  /** Channel 0, 1 or 2 of a pixel: red, green or blue. */
  function Chan(p: Pixel, c: nat): byte
    requires c < 3
  {
    if c == 0 then p.r else if c == 1 then p.g else p.b
  }

  function ChanOf(p: Rgb, c: nat): byte
    requires c < 3
  {
    if c == 0 then p.r else if c == 1 then p.g else p.b
  }

  /** The quadrant of buffer pixel p: (column & 2) + (row >> 1). */
  function QuadrantOf(p: nat): nat
    requires p < 16
  {
    2 * (p / 8) + (p % 4) / 2
  }

  /** The two quadrants that average number k mod 4 is taken over. */
  function HalfQuadrants(k: nat): set<nat> {
    if k % 4 == 0 then {2, 3} else if k % 4 == 1 then {0, 1} else if k % 4 == 2 then {1, 3} else {0, 2}
  }

  /** g_id names for every layout and pixel the average whose half the pixel lies in. */
  lemma IdsAreHalves(layout: nat, p: nat)
    requires layout < 4 && p < 16
    ensures var k := AverageIds(layout)[p];
            && k / 2 == layout
            && (QuadrantOf(p) in HalfQuadrants(2 * layout) <==> k == 2 * layout)
            && (QuadrantOf(p) in HalfQuadrants(2 * layout + 1) <==> k == 2 * layout + 1)
  {
    hide AverageIds;
    AverageOfHalf(layout, p / 4, p % 4);
    assert QuadrantOf(p) == 2 * (p / 4 / 2) + p % 4 / 2;
    assert p == 4 * (p / 4) + p % 4;
  }

  // ---------- sums over quadrants ----------

  /** Sum of one channel over those of the first n buffer pixels that lie in the given quadrants. */
  function SumIn(src: Block, c: nat, quads: set<nat>, n: nat): (s: nat)
    requires c < 3 && n <= 16
    ensures s <= 255 * CountIn(quads, n)
  {
    if n == 0 then 0
    else SumIn(src, c, quads, n - 1) + (if QuadrantOf(n - 1) in quads then Chan(src[n - 1], c) else 0)
  }

  function SquaresIn(src: Block, c: nat, quads: set<nat>, n: nat): nat
    requires c < 3 && n <= 16
  {
    if n == 0 then 0
    else SquaresIn(src, c, quads, n - 1) + (if QuadrantOf(n - 1) in quads then Sq(Chan(src[n - 1], c)) else 0)
  }

  function CountIn(quads: set<nat>, n: nat): nat
    requires n <= 16
  {
    if n == 0 then 0 else CountIn(quads, n - 1) + (if QuadrantOf(n - 1) in quads then 1 else 0)
  }

  /** Sum of squared deviations of one channel from a. */
  function DeviationIn(src: Block, c: nat, quads: set<nat>, a: int, n: nat): nat
    requires c < 3 && n <= 16
  {
    if n == 0 then 0
    else DeviationIn(src, c, quads, a, n - 1) + (if QuadrantOf(n - 1) in quads then Sq(Chan(src[n - 1], c) - a) else 0)
  }

  lemma SquareOfDifference(x: int, a: int)
    ensures Sq(x - a) == Sq(x) - 2 * (a * x) + Sq(a)
  {
  }

  lemma {:induction false} DeviationExpands(src: Block, c: nat, quads: set<nat>, a: int, n: nat)
    requires c < 3 && n <= 16
    ensures DeviationIn(src, c, quads, a, n)
            == SquaresIn(src, c, quads, n) - 2 * (a * SumIn(src, c, quads, n)) + Sq(a) * CountIn(quads, n)
  {
    hide Sq, QuadrantOf, Chan;
    if n > 0 {
      DeviationExpands(src, c, quads, a, n - 1);
      if QuadrantOf(n - 1) in quads {
        SquareOfDifference(Chan(src[n - 1], c), a);
        DistributeSum(a, SumIn(src, c, quads, n - 1), Chan(src[n - 1], c));
        DistributeSum(Sq(a), CountIn(quads, n - 1), 1);
      }
    }
  }

  lemma DistributeSum(a: int, x: int, y: int)
    ensures a * (x + y) == a * x + a * y
  {
  }

  lemma {:induction false} DisjointSums(src: Block, c: nat, q: set<nat>, r: set<nat>, n: nat)
    requires c < 3 && n <= 16 && q !! r
    ensures SumIn(src, c, q + r, n) == SumIn(src, c, q, n) + SumIn(src, c, r, n)
    ensures SquaresIn(src, c, q + r, n) == SquaresIn(src, c, q, n) + SquaresIn(src, c, r, n)
  {
    if n > 0 {
      DisjointSums(src, c, q, r, n - 1);
    }
  }

  lemma CountNext(quads: set<nat>, n: nat)
    requires n < 16
    ensures CountIn(quads, n + 1) == CountIn(quads, n) + (if QuadrantOf(n) in quads then 1 else 0)
  {
    hide QuadrantOf;
  }

  lemma ColumnQuadrants(m: nat)
    requires m < 4
    ensures QuadrantOf(4 * m) == QuadrantOf(4 * m + 1) == 2 * (m / 2)
    ensures QuadrantOf(4 * m + 2) == QuadrantOf(4 * m + 3) == 2 * (m / 2) + 1
  {
  }

  /** A column of the block has two pixels in each of its two quadrants. */
  lemma CountColumn(quads: set<nat>, m: nat)
    requires m < 4
    ensures CountIn(quads, 4 * m + 4)
            == CountIn(quads, 4 * m) + (if 2 * (m / 2) in quads then 2 else 0)
                 + (if 2 * (m / 2) + 1 in quads then 2 else 0)
  {
    hide QuadrantOf, CountIn;
    ColumnQuadrants(m);
    CountNext(quads, 4 * m);
    CountNext(quads, 4 * m + 1);
    CountNext(quads, 4 * m + 2);
    CountNext(quads, 4 * m + 3);
  }

  lemma HalfCounts(k: nat)
    ensures CountIn(HalfQuadrants(k), 16) == 8
  {
    CountColumn(HalfQuadrants(k), 0);
    CountColumn(HalfQuadrants(k), 1);
    CountColumn(HalfQuadrants(k), 2);
    CountColumn(HalfQuadrants(k), 3);
  }

  function HalfSum(src: Block, c: nat, k: nat): (s: nat)
    requires c < 3
    ensures s <= 2040
  {
    HalfCounts(k);
    SumIn(src, c, HalfQuadrants(k), 16)
  }

  function QuadSum(src: Block, c: nat, q: nat): nat
    requires c < 3
  {
    SumIn(src, c, {q}, 16)
  }

  lemma HalfIsTwoQuadrants(src: Block, c: nat)
    requires c < 3
    ensures HalfSum(src, c, 0) == QuadSum(src, c, 2) + QuadSum(src, c, 3)
    ensures HalfSum(src, c, 1) == QuadSum(src, c, 0) + QuadSum(src, c, 1)
    ensures HalfSum(src, c, 2) == QuadSum(src, c, 1) + QuadSum(src, c, 3)
    ensures HalfSum(src, c, 3) == QuadSum(src, c, 0) + QuadSum(src, c, 2)
  {
    assert {2, 3} == {2} + {3} && {0, 1} == {0} + {1} && {1, 3} == {1} + {3} && {0, 2} == {0} + {2};
    DisjointSums(src, c, {2}, {3}, 16);
    DisjointSums(src, c, {0}, {1}, 16);
    DisjointSums(src, c, {1}, {3}, 16);
    DisjointSums(src, c, {0}, {2}, 16);
  }

  /** Rounded average of half k. */
  function HalfAverage(src: Block, k: nat): Rgb {
    Rgb((HalfSum(src, 0, k) + 4) / 8, (HalfSum(src, 1, k) + 4) / 8, (HalfSum(src, 2, k) + 4) / 8)
  }

  /** Whether the sums are those of the first n pixels. */
  ghost predicate AreSums(src: Block, c: nat, n: nat, sums: seq<nat>)
    requires c < 3 && n <= 16
  {
    |sums| == 4 && forall q :: 0 <= q < 4 ==> sums[q] == SumIn(src, c, {q}, n)
  }

  lemma SumsNext(src: Block, c: nat, n: nat, sums: seq<nat>)
    requires c < 3 && n < 16 && AreSums(src, c, n, sums)
    ensures QuadrantOf(n) < 4
    ensures AreSums(src, c, n + 1, sums[QuadrantOf(n) := sums[QuadrantOf(n)] + Chan(src[n], c)])
  {
    hide Chan;
  }

  /** The quadrant sums of one channel that Average and CalcErrorBlock accumulate. */
  method SumQuadrants(src: Block, c: nat) returns (sums: seq<nat>)
    requires c < 3
    ensures |sums| == 4 && forall q :: 0 <= q < 4 ==> sums[q] == QuadSum(src, c, q)
  {
    hide AreSums, Chan, QuadSum;
    sums := [0, 0, 0, 0];
    NothingSummed(src, c);
    for j := 0 to 4
      invariant AreSums(src, c, 4 * j, sums)
    {
      for i := 0 to 4
        invariant AreSums(src, c, 4 * j + i, sums)
      {
        var index := 2 * (j / 2) + i / 2;
        QuadrantAt(j, i);
        SumsNext(src, c, 4 * j + i, sums);
        FourSums(src, c, 4 * j + i, sums);
        sums := sums[index := sums[index] + Chan(src[4 * j + i], c)];
      }
    }
    AllSummed(src, c, sums);
  }

  lemma QuadrantAt(j: nat, i: nat)
    requires j < 4 && i < 4
    ensures QuadrantOf(4 * j + i) == 2 * (j / 2) + i / 2
  {
  }

  lemma NothingSummed(src: Block, c: nat)
    requires c < 3
    ensures AreSums(src, c, 0, [0, 0, 0, 0])
  {
  }

  lemma AllSummed(src: Block, c: nat, sums: seq<nat>)
    requires c < 3 && AreSums(src, c, 16, sums)
    ensures |sums| == 4 && forall q :: 0 <= q < 4 ==> sums[q] == QuadSum(src, c, q)
  {
    hide SumIn;
  }

  lemma FourSums(src: Block, c: nat, n: nat, sums: seq<nat>)
    requires c < 3 && n <= 16 && AreSums(src, c, n, sums)
    ensures |sums| == 4
  {
  }

  // ---------- quantised averages ----------

  /** Five bits of a byte. */
  function FiveBits(a: byte): (q: nat)
    ensures q <= 31
  {
    Mul8Bit(a, 31)
  }

  /** Five bits, expanded again, come back to within 4. */
  lemma FiveBitsNear(x: byte)
    ensures -4 <= ExpandFive(FiveBits(x)) - x <= 4
  {
    hide Mul8Bit;
    Mul8BitRounds(x, 31);
  }

  lemma FourBitsNearByte(x: byte)
    ensures -8 <= 17 * Mul8Bit(x, 15) - x <= 8
  {
    hide Mul8Bit;
    Mul8BitRounds(x, 15);
  }

  /** c2 moved into the reach of a three-bit signed difference from c1. */
  function Reach(c1: nat, c2: nat): (co: nat)
    requires c1 <= 31 && c2 <= 31
    ensures co <= 31 && -4 <= co - c1 <= 3
  {
    var diff := if c2 - c1 > 3 then 3 else if c2 - c1 < -4 then -4 else c2 - c1;
    c1 + diff
  }

  /** Of all codes in reach it is the nearest to c2, so c2 itself if that is in reach. */
  lemma ReachIsNearest(c1: nat, c2: nat, c: nat)
    requires c1 <= 31 && c2 <= 31 && c <= 31 && -4 <= c - c1 <= 3
    ensures Abs(Reach(c1, c2) - c2) <= Abs(c - c2)
  {
  }

  /** (c << 3) | (c >> 2) for a five-bit number. */
  function ExpandFive(c: nat): byte
    requires c <= 31
  {
    8 * c + c / 4
  }

  /** The four-bit code of an average and, for the differential layouts, the five-bit code: the odd
      one of a pair is coded as it is, the even one within reach of it. */
  function FourCode(avgs: seq<Rgb>, k: nat, c: nat): (q: nat)
    requires |avgs| == 4 && k < 4 && c < 3
    ensures q <= 15
  {
    Mul8Bit(ChanOf(avgs[k], c), 15)
  }

  function FiveCode(avgs: seq<Rgb>, k: nat, c: nat): (q: nat)
    requires |avgs| == 4 && k < 4 && c < 3
    ensures q <= 31
  {
    if k % 2 == 1 then FiveBits(ChanOf(avgs[k], c))
    else Reach(FiveBits(ChanOf(avgs[k + 1], c)), FiveBits(ChanOf(avgs[k], c)))
  }

  /** Entry k of the eight quantised averages: four of four bits, then four of five bits. */
  function Quantized(avgs: seq<Rgb>, k: nat): Rgb
    requires |avgs| == 4 && k < 8
  {
    if k < 4 then Rgb(17 * FourCode(avgs, k, 0), 17 * FourCode(avgs, k, 1), 17 * FourCode(avgs, k, 2))
    else Rgb(ExpandFive(FiveCode(avgs, k - 4, 0)),
             ExpandFive(FiveCode(avgs, k - 4, 1)),
             ExpandFive(FiveCode(avgs, k - 4, 2)))
  }

  function AveragesOf(src: Block): (avgs: seq<Rgb>)
    ensures |avgs| == 4
  {
    [HalfAverage(src, 0), HalfAverage(src, 1), HalfAverage(src, 2), HalfAverage(src, 3)]
  }

  /** The eight candidate base colours of a block. */
  function Candidates(src: Block): (a: seq<Rgb>)
    ensures |a| == 8
  {
    seq(8, k requires 0 <= k < 8 => Quantized(AveragesOf(src), k))
  }

  /** Half k of one channel from the four quadrant sums, rounded to nearest. */
  function AverageOf(sums: seq<nat>, k: nat): (a: nat)
    requires |sums| == 4 && k < 4
  {
    var sum := if k == 0 then sums[2] + sums[3] else if k == 1 then sums[0] + sums[1]
               else if k == 2 then sums[1] + sums[3] else sums[0] + sums[2];
    (sum + 4) / 8
  }

  lemma AverageOfSums(src: Block, c: nat, sums: seq<nat>, k: nat)
    requires c < 3 && k < 4
    requires |sums| == 4 && forall q :: 0 <= q < 4 ==> sums[q] == QuadSum(src, c, q)
    ensures AverageOf(sums, k) == (HalfSum(src, c, k) + 4) / 8 <= 255
  {
    hide HalfSum, QuadSum;
    HalfIsTwoQuadrants(src, c);
  }

  /** Average. */
  method Average(src: Block, a: array<Rgb>)
    requires a.Length == 8
    modifies a
    ensures a[..4] == AveragesOf(src)
  {
    hide HalfSum, QuadSum, AverageOf;
    var r := SumQuadrants(src, 0);
    var g := SumQuadrants(src, 1);
    var b := SumQuadrants(src, 2);
    forall k | 0 <= k < 4
      ensures var avg := HalfAverage(src, k);
              AverageOf(r, k) == avg.r && AverageOf(g, k) == avg.g && AverageOf(b, k) == avg.b
    {
      AverageOfSums(src, 0, r, k);
      AverageOfSums(src, 1, g, k);
      AverageOfSums(src, 2, b, k);
    }
    a[0] := Rgb(AverageOf(r, 0), AverageOf(g, 0), AverageOf(b, 0));
    a[1] := Rgb(AverageOf(r, 1), AverageOf(g, 1), AverageOf(b, 1));
    a[2] := Rgb(AverageOf(r, 2), AverageOf(g, 2), AverageOf(b, 2));
    a[3] := Rgb(AverageOf(r, 3), AverageOf(g, 3), AverageOf(b, 3));
  }

  // ---------- what the candidates are to the averages ----------

  /** One channel of an individual colour: the nearest four-bit code of the average, repeated. */
  ghost predicate IsFour(four: byte, x: byte) {
    exists q: nat :: IsNearestCode(q, x, 15) && four == 17 * q
  }

  /** One channel of a differential pair: odd shows the five-bit code nearest to the average y; even shows,
      of all codes that a three-bit signed difference reaches from there, the nearest to the code n that is
      nearest to x. */
  ghost predicate IsPair(even: byte, odd: byte, x: byte, y: byte) {
    exists q0: nat, q1: nat, n: nat ::
      && IsNearestCode(q1, y, 31) && odd == ExpandFive(q1)
      && IsNearestCode(n, x, 31) && IsInReach(q0, q1, n) && q0 <= 31 && even == ExpandFive(q0)
  }

  ghost predicate IsInReach(q0: int, q1: int, n: int) {
    && 0 <= q0 <= 31 && -4 <= q0 - q1 <= 3
    && forall c :: 0 <= c <= 31 && -4 <= c - q1 <= 3 ==> Apart(q0, n) <= Apart(c, n)
  }

  function Apart(x: int, y: int): nat {
    Abs(x - y)
  }

  /** The candidates keep close to the averages: an individual colour to within 8, the odd one of a pair to
      within 4, and so does the even one if its code can be reached. */
  lemma CandidatesAreNear(four: byte, even: byte, odd: byte, x: byte, y: byte)
    requires IsFour(four, x) && IsPair(even, odd, x, y)
    ensures -8 <= four - x <= 8 && -4 <= odd - y <= 4
    ensures -24 <= x - y <= 16 ==> -4 <= even - x <= 4
  {
    hide IsNearestCode, IsInReach;
    var q: nat :| IsNearestCode(q, x, 15) && four == 17 * q;
    NearestIs(q, x, 15);
    var q0: nat, q1: nat, n: nat :|
      && IsNearestCode(q1, y, 31) && odd == ExpandFive(q1)
      && IsNearestCode(n, x, 31) && IsInReach(q0, q1, n) && q0 <= 31 && even == ExpandFive(q0);
    NearestIs(q1, y, 31);
    NearestIs(n, x, 31);
    if -24 <= x - y <= 16 {
      ReachedCode(q0, q1, n);
    }
  }

  lemma ReachedCode(q0: int, q1: int, n: int)
    requires IsInReach(q0, q1, n) && 0 <= n <= 31 && -4 <= n - q1 <= 3
    ensures q0 == n
  {
    assert Apart(q0, n) <= Apart(n, n);
  }

  /** The code nearest to a byte is off by at most half a step. */
  lemma NearestIs(q: nat, x: byte, top: nat)
    requires (top == 15 || top == 31) && IsNearestCode(q, x, top)
    ensures q <= top && -127 <= 255 * q - top * x <= 127
  {
    hide Mul8Bit;
    Mul8BitRounds(x, top);
    assert Abs(255 * q - top * x) <= Abs(255 * Mul8Bit(x, top) - top * x);
  }

  lemma QuantizedFour(avgs: seq<Rgb>, k: nat, c: nat)
    requires |avgs| == 4 && k < 4 && c < 3
    ensures IsFour(ChanOf(Quantized(avgs, k), c), ChanOf(avgs[k], c))
  {
    hide Mul8Bit, IsNearestCode;
    Mul8BitIsNearest(ChanOf(avgs[k], c), 15);
    assert ChanOf(Quantized(avgs, k), c) == 17 * FourCode(avgs, k, c);
  }

  lemma QuantizedPair(avgs: seq<Rgb>, i: nat, c: nat)
    requires |avgs| == 4 && i < 2 && c < 3
    ensures IsPair(ChanOf(Quantized(avgs, 4 + 2 * i), c), ChanOf(Quantized(avgs, 5 + 2 * i), c),
                   ChanOf(avgs[2 * i], c), ChanOf(avgs[2 * i + 1], c))
  {
    hide Mul8Bit, IsNearestCode, ExpandFive, Reach, ChanOf;
    var (x, y) := (ChanOf(avgs[2 * i], c), ChanOf(avgs[2 * i + 1], c));
    Mul8BitIsNearest(x, 31);
    Mul8BitIsNearest(y, 31);
    var (q1, n) := (FiveBits(y), FiveBits(x));
    var q0 := Reach(q1, n);
    forall d: int | 0 <= d <= 31 && q1 <= d + 4 && d <= q1 + 3 ensures Apart(q0, n) <= Apart(d, n) {
      ReachIsNearest(q1, n, d);
    }
    assert IsInReach(q0, q1, n);
    QuantizedChannels(avgs, i, c);
  }

  lemma QuantizedChannels(avgs: seq<Rgb>, i: nat, c: nat)
    requires |avgs| == 4 && i < 2 && c < 3
    ensures ChanOf(Quantized(avgs, 4 + 2 * i), c)
            == ExpandFive(Reach(FiveBits(ChanOf(avgs[2 * i + 1], c)), FiveBits(ChanOf(avgs[2 * i], c))))
    ensures ChanOf(Quantized(avgs, 5 + 2 * i), c) == ExpandFive(FiveBits(ChanOf(avgs[2 * i + 1], c)))
  {
    hide FiveBits, Reach, ExpandFive;
  }

  lemma QuantizedLaws(avgs: seq<Rgb>)
    requires |avgs| == 4
    ensures forall k, c :: 0 <= k < 4 && 0 <= c < 3 ==> IsFour(ChanOf(Quantized(avgs, k), c), ChanOf(avgs[k], c))
    ensures forall i, c :: 0 <= i < 2 && 0 <= c < 3 ==>
              IsPair(ChanOf(Quantized(avgs, 4 + 2 * i), c), ChanOf(Quantized(avgs, 5 + 2 * i), c),
                     ChanOf(avgs[2 * i], c), ChanOf(avgs[2 * i + 1], c))
  {
    hide IsFour, IsPair, ChanOf, Quantized;
    forall k, c | 0 <= k < 4 && 0 <= c < 3 ensures IsFour(ChanOf(Quantized(avgs, k), c), ChanOf(avgs[k], c)) {
      QuantizedFour(avgs, k, c);
    }
    forall i, c | 0 <= i < 2 && 0 <= c < 3
      ensures IsPair(ChanOf(Quantized(avgs, 4 + 2 * i), c), ChanOf(Quantized(avgs, 5 + 2 * i), c),
                     ChanOf(avgs[2 * i], c), ChanOf(avgs[2 * i + 1], c))
    {
      QuantizedPair(avgs, i, c);
    }
  }

  /** The averages are rounded to the nearest. */
  lemma AverageIsNearest(src: Block, k: nat, c: nat)
    requires k < 4 && c < 3
    ensures -4 <= 8 * ChanOf(AveragesOf(src)[k], c) - HalfSum(src, c, k) <= 4
  {
    hide HalfSum;
  }

  /** The eight candidates of a block, channel by channel. */
  lemma CandidatesFollowAverages(src: Block, i: nat, c: nat)
    requires i < 2 && c < 3
    ensures var (avgs, a) := (AveragesOf(src), Candidates(src));
            && IsFour(ChanOf(a[2 * i], c), ChanOf(avgs[2 * i], c))
            && IsFour(ChanOf(a[2 * i + 1], c), ChanOf(avgs[2 * i + 1], c))
            && IsPair(ChanOf(a[4 + 2 * i], c), ChanOf(a[5 + 2 * i], c),
                      ChanOf(avgs[2 * i], c), ChanOf(avgs[2 * i + 1], c))
  {
    hide AveragesOf, IsFour, IsPair, ChanOf, Quantized;
    QuantizedFour(AveragesOf(src), 2 * i, c);
    QuantizedFour(AveragesOf(src), 2 * i + 1, c);
    QuantizedPair(AveragesOf(src), i, c);
  }

  /** One pair of ProcessAverages: the differential colours of averages x (even) and y (odd). */
  function PairColors(x: Rgb, y: Rgb): (Rgb, Rgb) {
    (Rgb(ExpandFive(Reach(FiveBits(y.r), FiveBits(x.r))),
         ExpandFive(Reach(FiveBits(y.g), FiveBits(x.g))),
         ExpandFive(Reach(FiveBits(y.b), FiveBits(x.b)))),
     Rgb(ExpandFive(FiveBits(y.r)), ExpandFive(FiveBits(y.g)), ExpandFive(FiveBits(y.b))))
  }

  /** ProcessAverages: the upper four entries are computed from the lower four, which are then
      quantised in place. */
  method ProcessAverages(a: array<Rgb>)
    requires a.Length == 8
    modifies a
    ensures forall k :: 0 <= k < 8 ==> a[k] == Quantized(old(a[..4]), k)
    ensures forall k, c :: 0 <= k < 4 && 0 <= c < 3 ==> IsFour(ChanOf(a[k], c), ChanOf(old(a[..4])[k], c))
    ensures forall i, c :: 0 <= i < 2 && 0 <= c < 3 ==>
              IsPair(ChanOf(a[4 + 2 * i], c), ChanOf(a[5 + 2 * i], c),
                     ChanOf(old(a[..4])[2 * i], c), ChanOf(old(a[..4])[2 * i + 1], c))
  {
    hide FiveBits, Reach, ExpandFive, Mul8Bit, IsFour, IsPair;
    ghost var avgs := a[..4];
    for i := 0 to 2
      invariant a[..4] == avgs
      invariant forall k :: 4 <= k < 4 + 2 * i ==> a[k] == Quantized(avgs, k)
    {
      assert a[i * 2] == avgs[i * 2] && a[i * 2 + 1] == avgs[i * 2 + 1];
      var (co, c1) := PairColors(a[i * 2], a[i * 2 + 1]);
      a[5 + i * 2] := c1;
      a[4 + i * 2] := co;
    }
    for i := 0 to 4
      invariant forall k :: i <= k < 4 ==> a[k] == avgs[k]
      invariant forall k :: 0 <= k < i ==> a[k] == Quantized(avgs, k)
      invariant forall k :: 4 <= k < 8 ==> a[k] == Quantized(avgs, k)
    {
      a[i] := Rgb(17 * Mul8Bit(a[i].r, 15), 17 * Mul8Bit(a[i].g, 15), 17 * Mul8Bit(a[i].b, 15));
    }
    QuantizedLaws(avgs);
  }

  // ---------- least squares ----------

  const BIG: nat := 0x3FFF_FFFF

  /** What an unsigned int keeps. */
  function Unsigned(x: int): nat {
    x % 0x1_0000_0000
  }

  lemma StaysUnsigned(x: int)
    requires 0 <= x < 0x1_0000_0000
    ensures Unsigned(x) == x
  {
  }

  /** sq of a uint16_t is a uint16_t again. */
  function Sq16(x: byte): nat {
    Sq(x) % 0x1_0000
  }

  lemma Sq16Exact(x: byte)
    ensures Sq16(x) == Sq(x) <= 65025
  {
    SquareMonotone(x, 255);
  }

  /** CalcError, step by step in unsigned arithmetic: block holds the blue, green and red sums of a
      half. */
  function CalcError(blue: nat, green: nat, red: nat, average: Rgb): nat {
    var err := Unsigned(BIG - Cross(blue, average.b));
    var err1 := Unsigned(err - Cross(green, average.g));
    var err2 := Unsigned(err1 - Cross(red, average.r));
    Unsigned(err2 + 8 * (Sq16(average.b) + Sq16(average.g) + Sq16(average.r)))
  }

  function Cross(sum: nat, a: byte): int {
    sum * 2 * a
  }

  lemma CrossBound(s: nat, a: byte)
    requires s <= 2040
    ensures 0 <= Cross(s, a) <= 1040400
  {
    assert s * 2 * a == 2 * (s * a);
    assert s * a <= 2040 * a;
  }

  lemma CrossIsProduct(s: nat, a: byte)
    ensures Cross(s, a) == 2 * (a * s)
  {
  }

  /** No step of CalcError wraps. */
  lemma CalcErrorExact(blue: nat, green: nat, red: nat, a: Rgb)
    requires blue <= 2040 && green <= 2040 && red <= 2040
    ensures CalcError(blue, green, red, a)
            == BIG - Cross(blue, a.b) - Cross(green, a.g) - Cross(red, a.r) + 8 * (Sq(a.b) + Sq(a.g) + Sq(a.r))
    ensures CalcError(blue, green, red, a) <= 0x4000_0000 + 1560600
  {
    hide Sq, Sq16, Unsigned, Cross;
    CrossBound(blue, a.b);
    CrossBound(green, a.g);
    CrossBound(red, a.r);
    Sq16Exact(a.b);
    Sq16Exact(a.g);
    Sq16Exact(a.r);
    var err := BIG - Cross(blue, a.b);
    var err1 := err - Cross(green, a.g);
    var err2 := err1 - Cross(red, a.r);
    StaysUnsigned(err);
    StaysUnsigned(err1);
    StaysUnsigned(err2);
    StaysUnsigned(err2 + 8 * (Sq(a.b) + Sq(a.g) + Sq(a.r)));
  }

  /** Sum of squared deviations of half k from the candidate a, over the three channels. */
  function HalfDeviation(src: Block, k: nat, a: Rgb): nat {
    DeviationIn(src, 0, HalfQuadrants(k), a.r, 16)
    + DeviationIn(src, 1, HalfQuadrants(k), a.g, 16)
    + DeviationIn(src, 2, HalfQuadrants(k), a.b, 16)
  }

  function HalfSquares(src: Block, k: nat): nat {
    SquaresIn(src, 0, HalfQuadrants(k), 16)
    + SquaresIn(src, 1, HalfQuadrants(k), 16)
    + SquaresIn(src, 2, HalfQuadrants(k), 16)
  }

  /** The sum of squared deviations of the whole block from the two colours of a layout. */
  function LayoutDeviation(src: Block, layout: nat): nat
    requires layout < 4
  {
    HalfDeviation(src, 2 * layout, Candidates(src)[2 * layout])
    + HalfDeviation(src, 2 * layout + 1, Candidates(src)[2 * layout + 1])
  }

  /** CalcError is the deviation of the half, up to a constant of the half. */
  lemma CalcErrorIsDeviation(src: Block, k: nat, a: Rgb)
    ensures CalcError(HalfSum(src, 2, k), HalfSum(src, 1, k), HalfSum(src, 0, k), a)
            == BIG + HalfDeviation(src, k, a) - HalfSquares(src, k)
  {
    hide CalcError, Cross, Sq, DeviationIn, SquaresIn, SumIn, CountIn;
    CalcErrorExact(HalfSum(src, 2, k), HalfSum(src, 1, k), HalfSum(src, 0, k), a);
    CrossIsProduct(HalfSum(src, 2, k), a.b);
    CrossIsProduct(HalfSum(src, 1, k), a.g);
    CrossIsProduct(HalfSum(src, 0, k), a.r);
    HalfCounts(k);
    DeviationExpands(src, 0, HalfQuadrants(k), a.r, 16);
    DeviationExpands(src, 1, HalfQuadrants(k), a.g, 16);
    DeviationExpands(src, 2, HalfQuadrants(k), a.b, 16);
  }

  /** The two halves of either direction hold all the pixels. */
  lemma HalvesHoldAll(src: Block, c: nat)
    requires c < 3
    ensures SquaresIn(src, c, {2, 3}, 16) + SquaresIn(src, c, {0, 1}, 16) == SquaresIn(src, c, {0, 1, 2, 3}, 16)
    ensures SquaresIn(src, c, {1, 3}, 16) + SquaresIn(src, c, {0, 2}, 16) == SquaresIn(src, c, {0, 1, 2, 3}, 16)
  {
    DisjointSums(src, c, {2, 3}, {0, 1}, 16);
    DisjointSums(src, c, {1, 3}, {0, 2}, 16);
    assert {2, 3} + {0, 1} == {0, 1, 2, 3} && {1, 3} + {0, 2} == {0, 1, 2, 3};
  }

  function AllSquares(src: Block): nat {
    SquaresIn(src, 0, {0, 1, 2, 3}, 16) + SquaresIn(src, 1, {0, 1, 2, 3}, 16) + SquaresIn(src, 2, {0, 1, 2, 3}, 16)
  }

  lemma PairOfSquares(src: Block, layout: nat)
    requires layout < 4
    ensures HalfSquares(src, 2 * layout) + HalfSquares(src, 2 * layout + 1) == AllSquares(src)
  {
    HalvesHoldAll(src, 0);
    HalvesHoldAll(src, 1);
    HalvesHoldAll(src, 2);
    hide SquaresIn;
    assert HalfQuadrants(2 * layout) == if layout % 2 == 0 then {2, 3} else {1, 3};
    assert HalfQuadrants(2 * layout + 1) == if layout % 2 == 0 then {0, 1} else {0, 2};
  }

  /** What PrepareAverages puts in err for a layout. */
  function LayoutError(src: Block, layout: nat): nat
    requires layout < 4
  {
    var (k, a) := (2 * layout, Candidates(src));
    Unsigned(HalfError(src, k, a[k]) + HalfError(src, k + 1, a[k + 1]))
  }

  /** CalcError on the sums of half k. */
  function HalfError(src: Block, k: nat, a: Rgb): nat {
    CalcError(HalfSum(src, 2, k), HalfSum(src, 1, k), HalfSum(src, 0, k), a)
  }

  /** The error of a layout, in spite of the dropped squares, the bias and the unsigned arithmetic,
      is its sum of squared deviations up to a constant of the block. */
  lemma LayoutErrorIsDeviation(src: Block, layout: nat)
    requires layout < 4
    ensures LayoutError(src, layout) == 2 * BIG + LayoutDeviation(src, layout) - AllSquares(src)
  {
    hide HalfError, HalfDeviation, HalfSquares, Candidates, AllSquares, Unsigned;
    var (k, a) := (2 * layout, Candidates(src));
    HalfErrorIsDeviation(src, k, a[k]);
    HalfErrorIsDeviation(src, k + 1, a[k + 1]);
    StaysUnsigned(HalfError(src, k, a[k]) + HalfError(src, k + 1, a[k + 1]));
    PairOfSquares(src, layout);
  }

  lemma HalfErrorIsDeviation(src: Block, k: nat, a: Rgb)
    ensures HalfError(src, k, a) == BIG + HalfDeviation(src, k, a) - HalfSquares(src, k)
    ensures HalfError(src, k, a) <= 0x4000_0000 + 1560600
  {
    hide CalcError, HalfDeviation, HalfSquares, HalfSum, Cross, Sq;
    CalcErrorIsDeviation(src, k, a);
    CalcErrorExact(HalfSum(src, 2, k), HalfSum(src, 1, k), HalfSum(src, 0, k), a);
  }

  /** GetLeastError: the first position of the least value. */
  method GetLeastError(err: seq<nat>) returns (idx: nat)
    ensures err != [] ==> idx < |err|
    ensures forall i :: 0 <= i < |err| ==> err[idx] <= err[i]
    ensures forall i :: 0 <= i < idx && idx < |err| ==> err[idx] < err[i]
  {
    idx := 0;
    var i := 1;
    while i < |err|
      invariant 1 <= i && idx < i && (err != [] ==> idx < |err|)
      invariant forall k :: 0 <= k < i && k < |err| ==> err[idx] <= err[k]
      invariant forall k :: 0 <= k < idx && idx < |err| ==> err[idx] < err[k]
    {
      if err[i] < err[idx] {
        idx := i;
      }
      i := i + 1;
    }
  }

  /** CalcErrorBlock: blue, green and red sums of the four halves. */
  method CalcErrorBlock(src: Block) returns (errblock: seq<(nat, nat, nat)>)
    ensures |errblock| == 4
    ensures forall k :: 0 <= k < 4 ==>
              errblock[k] == (HalfSum(src, 2, k), HalfSum(src, 1, k), HalfSum(src, 0, k))
  {
    hide HalfSum, QuadSum;
    var b := SumQuadrants(src, 2);
    var g := SumQuadrants(src, 1);
    var r := SumQuadrants(src, 0);
    HalfIsTwoQuadrants(src, 0);
    HalfIsTwoQuadrants(src, 1);
    HalfIsTwoQuadrants(src, 2);
    errblock := [(b[2] + b[3], g[2] + g[3], r[2] + r[3]), (b[0] + b[1], g[0] + g[1], r[0] + r[1]),
                 (b[1] + b[3], g[1] + g[3], r[1] + r[3]), (b[0] + b[2], g[0] + g[2], r[0] + r[2])];
  }

  /** What has been added to the error of layout l (counted from 0 within its kind) after i halves. */
  function Partial(src: Block, layout: nat, a: seq<Rgb>, l: nat, i: nat): nat
    requires layout < 4 && |a| == 8
  {
    if i <= 2 * l then 0
    else if i == 2 * l + 1 then HalfError(src, 2 * layout, a[2 * layout])
    else Unsigned(HalfError(src, 2 * layout, a[2 * layout]) + HalfError(src, 2 * layout + 1, a[2 * layout + 1]))
  }

  lemma HalfErrorUnsigned(src: Block, k: nat, a: Rgb)
    ensures Unsigned(HalfError(src, k, a)) == HalfError(src, k, a)
  {
    hide CalcError, HalfSum, Unsigned;
    CalcErrorExact(HalfSum(src, 2, k), HalfSum(src, 1, k), HalfSum(src, 0, k), a);
    StaysUnsigned(HalfError(src, k, a));
  }

  lemma SameHalf(src: Block, k: nat, a: Rgb)
    ensures HalfError(src, k + 4, a) == HalfError(src, k, a)
  {
    hide CalcError, SumIn;
    assert HalfQuadrants(k + 4) == HalfQuadrants(k);
  }

  /** The accumulation loop of PrepareAverages. */
  method AccumulateErrors(src: Block, a: array<Rgb>, errblock: seq<(nat, nat, nat)>) returns (err: array<nat>)
    requires a.Length == 8 && |errblock| == 4
    requires forall k :: 0 <= k < 4 ==>
               errblock[k] == (HalfSum(src, 2, k), HalfSum(src, 1, k), HalfSum(src, 0, k))
    ensures fresh(err) && err.Length == 4
    ensures forall l :: 0 <= l < 4 ==> err[l] == Partial(src, l, a[..], l % 2, 4)
  {
    hide CalcError, HalfSum, Unsigned;
    err := new nat[4](_ => 0);
    for i := 0 to 4
      invariant forall l :: 0 <= l < 4 ==> err[l] == Partial(src, l, a[..], l % 2, i)
    {
      var l := i / 2;
      var (blue, green, red) := errblock[i];
      HalfErrorUnsigned(src, i, a[i]);
      HalfErrorUnsigned(src, i + 4, a[i + 4]);
      SameHalf(src, i, a[i + 4]);
      err[l] := Unsigned(err[l] + CalcError(blue, green, red, a[i]));
      err[2 + l] := Unsigned(err[2 + l] + CalcError(blue, green, red, a[i + 4]));
    }
  }

  /** PrepareAverages, called with the errors set to zero. */
  method PrepareAverages(src: Block) returns (a: array<Rgb>, err: array<nat>)
    ensures fresh(a) && a[..] == Candidates(src)
    ensures fresh(err) && err.Length == 4 && forall l :: 0 <= l < 4 ==> err[l] == LayoutError(src, l)
  {
    hide Quantized, HalfAverage, HalfError, HalfSum;
    a := new Rgb[8](_ => Rgb(0, 0, 0));
    Average(src, a);
    ProcessAverages(a);
    assert a[..] == Candidates(src);
    var errblock := CalcErrorBlock(src);
    err := AccumulateErrors(src, a, errblock);
  }

  /** The layout the encoder picks from err has the least sum of squared deviations from its two
      quantised colours, over all four layouts, and is the first such. */
  method ChooseLayout(src: Block) returns (a: array<Rgb>, layout: nat)
    ensures fresh(a) && a[..] == Candidates(src) && layout < 4
    ensures forall l :: 0 <= l < 4 ==> PixelDeviations(src, layout, 16) <= PixelDeviations(src, l, 16)
    ensures forall l :: 0 <= l < layout ==> PixelDeviations(src, layout, 16) < PixelDeviations(src, l, 16)
  {
    hide LayoutError, LayoutDeviation, AllSquares, Candidates, PixelDeviations;
    var err;
    a, err := PrepareAverages(src);
    layout := GetLeastError(err[..]);
    forall l | 0 <= l < 4 ensures err[l] == 2 * BIG + PixelDeviations(src, l, 16) - AllSquares(src) {
      LayoutErrorIsDeviation(src, l);
      LayoutDeviationIsPixelDeviations(src, l);
    }
  }

  /** Squared deviations of the first n pixels from the colours g_id assigns to them. */
  function PixelDeviations(src: Block, layout: nat, n: nat): nat
    requires layout < 4 && n <= 16
  {
    if n == 0 then 0
    else
      PixelDeviations(src, layout, n - 1)
      + SquaredDistance(src[n - 1], Candidates(src)[AverageIds(layout)[n - 1]])
  }

  function HalfDeviationUpTo(src: Block, k: nat, a: Rgb, n: nat): nat
    requires n <= 16
  {
    DeviationIn(src, 0, HalfQuadrants(k), a.r, n)
    + DeviationIn(src, 1, HalfQuadrants(k), a.g, n)
    + DeviationIn(src, 2, HalfQuadrants(k), a.b, n)
  }

  lemma HalfDeviationStep(src: Block, k: nat, a: Rgb, n: nat)
    requires 1 <= n <= 16
    ensures var p := src[n - 1];
            HalfDeviationUpTo(src, k, a, n) == HalfDeviationUpTo(src, k, a, n - 1)
            + (if QuadrantOf(n - 1) in HalfQuadrants(k) then SquaredDistance(p, a) else 0)
  {
    hide Sq, QuadrantOf, HalfQuadrants;
  }

  function SquaredDistance(p: Pixel, a: Rgb): nat {
    Sq(p.r - a.r) + Sq(p.g - a.g) + Sq(p.b - a.b)
  }

  lemma PixelInOneHalf(src: Block, layout: nat, n: nat)
    requires layout < 4 && 1 <= n <= 16
    ensures var (k, a) := (2 * layout, Candidates(src));
            SquaredDistance(src[n - 1], a[AverageIds(layout)[n - 1]])
            == HalfDeviationUpTo(src, k, a[k], n) - HalfDeviationUpTo(src, k, a[k], n - 1)
             + HalfDeviationUpTo(src, k + 1, a[k + 1], n) - HalfDeviationUpTo(src, k + 1, a[k + 1], n - 1)
  {
    hide SquaredDistance, QuadrantOf, HalfQuadrants, Candidates, AverageIds, HalfDeviationUpTo;
    var (k, a) := (2 * layout, Candidates(src));
    IdsAreHalves(layout, n - 1);
    HalfDeviationStep(src, k, a[k], n);
    HalfDeviationStep(src, k + 1, a[k + 1], n);
  }

  /** The deviation of a layout, half by half, is the sum over the pixels of the squared distance
      to the colour each pixel is measured against. */
  lemma {:induction false} LayoutDeviationByPixel(src: Block, layout: nat, n: nat)
    requires layout < 4 && n <= 16
    ensures var (k, a) := (2 * layout, Candidates(src));
            PixelDeviations(src, layout, n)
            == HalfDeviationUpTo(src, k, a[k], n) + HalfDeviationUpTo(src, k + 1, a[k + 1], n)
  {
    hide SquaredDistance, Candidates, AverageIds, HalfQuadrants, QuadrantOf;
    if n > 0 {
      hide HalfDeviationUpTo;
      LayoutDeviationByPixel(src, layout, n - 1);
      PixelInOneHalf(src, layout, n);
    }
  }

  lemma LayoutDeviationIsPixelDeviations(src: Block, layout: nat)
    requires layout < 4
    ensures LayoutDeviation(src, layout) == PixelDeviations(src, layout, 16)
  {
    hide DeviationIn, Candidates;
    LayoutDeviationByPixel(src, layout, 16);
  }
}
