/** T and H modes, the encoder's side: quantised base colours, paint colours, and the search for
    the distance and the pixel indices (scalar branches of ProcessRGB.cpp). */
module ThSearch {
  import opened Words
  import opened Pixels

  const MAX_ERROR: nat := 1065369600 // ((38 + 76 + 14) * 255)^2

  /** What a uint32_t keeps of a sum. */
  function Wrap32(x: nat): nat {
    x % 0x1_0000_0000
  }

  /** A base colour quantised to four bits a channel. */
  datatype Rgb444 = Rgb444(r: nib, g: nib, b: nib)

  /** tableTH, the distance table common to T and H mode. */
  function TableTH(d: nat): nat
    requires d < 8
  {
    [3, 6, 11, 16, 23, 32, 41, 64][d]
  }

  /** decompressColor: the nibble q becomes the byte (q << 4) | q. */
  function Decompress(q: Rgb444): Rgb {
    Rgb(16 * q.r + q.r, 16 * q.g + q.g, 16 * q.b + q.b)
  }

  function Brighter(c: Rgb, t: nat): Rgb {
    Rgb(Min(c.r + t, 255), Min(c.g + t, 255), Min(c.b + t, 255))
  }

  function Darker(c: Rgb, t: nat): Rgb {
    Rgb(Max(0, c.r - t), Max(0, c.g - t), Max(0, c.b - t))
  }

  /** The four paint colours of distance d: calculatePaintColors59T for T mode and
      calculatePaintColors58H for H mode, on the decompressed base colours. */
  function Paints(tMode: bool, q0: Rgb444, q1: Rgb444, d: nat): (ps: seq<Rgb>)
    requires d < 8
    ensures |ps| == 4
  {
    var (c0, c1, t) := (Decompress(q0), Decompress(q1), TableTH(d));
    if tMode then [c0, Brighter(c1, t), c1, Darker(c1, t)]
    else [Brighter(c0, t), Darker(c0, t), Brighter(c1, t), Darker(c1, t)]
  }

  /** The weighted error of painting a pixel with a colour. */
  function PixErr(p: Pixel, c: Rgb): nat {
    Sq(38 * Abs(p.r - c.r) + 76 * Abs(p.g - c.g) + 14 * Abs(p.b - c.b))
  }

  lemma PixErrBound(p: Pixel, c: Rgb)
    ensures PixErr(p, c) <= MAX_ERROR
  {
    SquareMonotone(38 * Abs(p.r - c.r) + 76 * Abs(p.g - c.g) + 14 * Abs(p.b - c.b), 128 * 255);
  }

  /** The first of the first n colours that paints p with the least error. */
  function BestIndex(p: Pixel, ps: seq<Rgb>, n: nat): (k: nat)
    requires 1 <= n <= |ps|
    ensures k < n
    ensures forall j :: 0 <= j < n ==> PixErr(p, ps[k]) <= PixErr(p, ps[j])
    ensures forall j :: 0 <= j < k ==> PixErr(p, ps[k]) < PixErr(p, ps[j])
  {
    if n == 1 then 0
    else
      var k := BestIndex(p, ps, n - 1);
      if PixErr(p, ps[n - 1]) < PixErr(p, ps[k]) then n - 1 else k
  }

  /** The buffer pixel visited k-th: the search goes row by row through the column-major buffer. */
  function Scan(k: nat): nat
    requires k < 16
    ensures Scan(k) < 16
  {
    4 * (k % 4) + k / 4
  }

  lemma ScanIsAnInvolution(k: nat)
    requires k < 16
    ensures Scan(Scan(k)) == k
  {
  }

  /** Sum of the least pixel errors of the first n visited pixels. */
  function ErrorSum(src: Block, ps: seq<Rgb>, n: nat): nat
    requires |ps| == 4 && n <= 16
  {
    if n == 0 then 0
    else
      var p := src[Scan(n - 1)];
      ErrorSum(src, ps, n - 1) + PixErr(p, ps[BestIndex(p, ps, 4)])
  }

  /** The index word of the first n visited pixels, two bits a pixel, last pixel lowest. */
  function IndexWord(src: Block, ps: seq<Rgb>, n: nat): bv32
    requires |ps| == 4 && n <= 16
  {
    if n == 0 then 0
    else Append(IndexWord(src, ps, n - 1), BestIndex(src[Scan(n - 1)], ps, 4))
  }

  /** Makes room for one more index and puts it in. */
  function Append(w: bv32, k: nat): bv32
    requires k < 4
  {
    (w << 2) | B32(k)
  }

  /** The sum of the least pixel errors at distance d. */
  function BlockSum(tMode: bool, src: Block, q0: Rgb444, q1: Rgb444, d: nat): nat
    requires d < 8
  {
    ErrorSum(src, Paints(tMode, q0, q1, d), 16)
  }

  /** The block error of distance d: what 32 bits keep of that sum. */
  function BlockErr(tMode: bool, src: Block, q0: Rgb444, q1: Rgb444, d: nat): nat
    requires d < 8
  {
    Wrap32(BlockSum(tMode, src, q0, q1, d))
  }

  /** The sums of all eight distances, and the errors the search sees. */
  function BlockSums(tMode: bool, src: Block, q0: Rgb444, q1: Rgb444): (sums: seq<nat>)
    ensures |sums| == 8
  {
    seq(8, d requires 0 <= d < 8 => BlockSum(tMode, src, q0, q1, d))
  }

  function Wrapped(sums: seq<nat>): (errs: seq<nat>)
    ensures |errs| == |sums| && forall d :: 0 <= d < |sums| ==> errs[d] == Wrap32(sums[d])
  {
    seq(|sums|, d requires 0 <= d < |sums| => Wrap32(sums[d]))
  }

  function Errs(tMode: bool, src: Block, q0: Rgb444, q1: Rgb444): (errs: seq<nat>)
    ensures |errs| == 8 && forall d :: 0 <= d < 8 ==> errs[d] == BlockErr(tMode, src, q0, q1, d)
  {
    Wrapped(BlockSums(tMode, src, q0, q1))
  }

  function BlockIndices(tMode: bool, src: Block, q0: Rgb444, q1: Rgb444, d: nat): bv32
    requires d < 8
  {
    IndexWord(src, Paints(tMode, q0, q1, d), 16)
  }

  /** Clears the lowest index and puts k there. */
  function Replace(w: bv32, k: nat): bv32
    requires k < 4
  {
    (w ^ (w & 3)) | B32(k)
  }

  lemma ReplaceLowPair(w: bv32, was: bv32, now: bv32)
    requires was < 4 && now < 4
    ensures var x := (w << 2) | was; (x ^ (x & 3)) | now == (w << 2) | now
  {
  }

  lemma ReplaceAppended(w: bv32, was: nat, now: nat)
    requires was < 4 && now < 4
    ensures Replace(Append(w, was), now) == Append(w, now)
  {
    WordLess(was, 4);
    WordLess(now, 4);
    ReplaceLowPair(w, B32(was), B32(now));
  }

  lemma AppendZero(w: bv32)
    ensures Append(w, 0) == w << 2
  {
  }

  /** The innermost loop: the best of the four paint colours for one pixel. */
  method PaintPixel(p: Pixel, ps: seq<Rgb>, indices: bv32) returns (bestPixErr: nat, pixColors: bv32)
    requires |ps| == 4
    ensures bestPixErr == PixErr(p, ps[BestIndex(p, ps, 4)])
    ensures pixColors == Append(indices, BestIndex(p, ps, 4))
  {
    hide Append, Replace, PixErr;
    bestPixErr := MAX_ERROR;
    pixColors := indices << 2;
    AppendZero(indices);
    ghost var best := 0;
    for c := 0 to 4
      invariant best == if c == 0 then 0 else BestIndex(p, ps, c)
      invariant bestPixErr == if c == 0 then MAX_ERROR else PixErr(p, ps[best])
      invariant pixColors == Append(indices, best)
    {
      PixErrBound(p, ps[c]);
      ReplaceAppended(indices, best, c);
      var pixErr := PixErr(p, ps[c]);
      if pixErr < bestPixErr {
        bestPixErr := pixErr;
        pixColors := Replace(pixColors, c);
        best := c;
      }
    }
  }

  lemma WrapMultiple(x: nat, q: nat)
    ensures Wrap32(x + 0x1_0000_0000 * q) == Wrap32(x)
  {
  }

  lemma WrapStep(x: nat, y: nat)
    ensures Wrap32(Wrap32(x) + y) == Wrap32(x + y)
  {
    WrapMultiple(Wrap32(x) + y, x / 0x1_0000_0000);
  }

  lemma ScanAt(x: nat, y: nat)
    requires x < 4 && y < 4
    ensures 4 * y + x < 16 && Scan(4 * y + x) == 4 * x + y
  {
  }

  lemma NothingVisited(src: Block, ps: seq<Rgb>)
    requires |ps| == 4
    ensures Wrap32(ErrorSum(src, ps, 0)) == 0 && IndexWord(src, ps, 0) == 0
  {
  }

  lemma VisitNext(src: Block, ps: seq<Rgb>, x: nat, y: nat)
    requires |ps| == 4 && x < 4 && y < 4
    ensures 4 * y + x < 16 && 4 * x + y < 16
    ensures var k := 4 * y + x; var p := src[4 * x + y]; var c := BestIndex(p, ps, 4);
            && ErrorSum(src, ps, k + 1) == ErrorSum(src, ps, k) + PixErr(p, ps[c])
            && IndexWord(src, ps, k + 1) == Append(IndexWord(src, ps, k), c)
  {
    ScanAt(x, y);
    hide Append, PixErr, Scan;
  }

  /** The loop along row y of the block. */
  method PaintRow(src: Block, ps: seq<Rgb>, y: nat, errBefore: nat, colorsBefore: bv32)
    returns (blockErr: nat, pixColors: bv32)
    requires |ps| == 4 && y < 4
    requires errBefore == Wrap32(ErrorSum(src, ps, 4 * y)) && colorsBefore == IndexWord(src, ps, 4 * y)
    ensures blockErr == Wrap32(ErrorSum(src, ps, 4 * y + 4)) && pixColors == IndexWord(src, ps, 4 * y + 4)
  {
    hide Append, PixErr, Wrap32, BestIndex, ErrorSum, IndexWord, Scan;
    blockErr, pixColors := errBefore, colorsBefore;
    for x := 0 to 4
      invariant blockErr == Wrap32(ErrorSum(src, ps, 4 * y + x))
      invariant pixColors == IndexWord(src, ps, 4 * y + x)
    {
      VisitNext(src, ps, x, y);
      var bestPixErr;
      bestPixErr, pixColors := PaintPixel(src[x * 4 + y], ps, pixColors);
      WrapStep(ErrorSum(src, ps, 4 * y + x), bestPixErr);
      blockErr := Wrap32(blockErr + bestPixErr);
    }
  }

  method PaintBlock(src: Block, ps: seq<Rgb>) returns (blockErr: nat, pixColors: bv32)
    requires |ps| == 4
    ensures blockErr == Wrap32(ErrorSum(src, ps, 16)) && pixColors == IndexWord(src, ps, 16)
  {
    hide Wrap32, ErrorSum, IndexWord;
    NothingVisited(src, ps);
    blockErr, pixColors := 0, 0;
    for y := 0 to 4
      invariant blockErr == Wrap32(ErrorSum(src, ps, 4 * y))
      invariant pixColors == IndexWord(src, ps, 4 * y)
    {
      blockErr, pixColors := PaintRow(src, ps, y, blockErr, pixColors);
    }
  }

  /** One round of the distance loop: paints the whole block with the colours of distance d. */
  method TestDistance(tMode: bool, src: Block, q0: Rgb444, q1: Rgb444, d: nat)
    returns (blockErr: nat, pixColors: bv32)
    requires d < 8
    ensures blockErr == BlockErr(tMode, src, q0, q1, d)
    ensures pixColors == BlockIndices(tMode, src, q0, q1, d)
  {
    hide Paints, Wrap32, ErrorSum, IndexWord;
    blockErr, pixColors := PaintBlock(src, Paints(tMode, q0, q1, d));
  }

  /** Distance m ends a strictly falling stretch of block errors that begins at f. */
  ghost predicate FallsFromTo(errs: seq<nat>, f: nat, m: nat)
    requires f <= m < |errs|
  {
    forall j :: f <= j < m ==> errs[j + 1] < errs[j]
  }

  ghost predicate NothingBelow(errs: seq<nat>, start: nat, f: nat)
    requires f <= |errs|
  {
    forall j :: start <= j < f ==> errs[j] >= MAX_ERROR
  }

  /** m is the first local minimum the search meets from distance start on: f is the first
      distance with an error below MAX_ERROR, the errors fall from f to m, and then stop falling. */
  ghost predicate FirstLocalMin(errs: seq<nat>, start: nat, f: nat, m: nat)
    requires start <= f <= m < |errs|
  {
    && NothingBelow(errs, start, f)
    && errs[f] < MAX_ERROR
    && FallsFromTo(errs, f, m)
    && (m + 1 < |errs| ==> errs[m + 1] >= errs[m])
  }

  /** calculateErrorTH. The caller passes a distance that is none (it uses 10) and an index word;
      both are replaced when some tested distance has an error below MAX_ERROR. */
  method CalculateErrorTH(tMode: bool, src: Block, q0: Rgb444, q1: Rgb444,
                          noDist: nat, noIndices: bv32, startDist: nat)
    returns (bestBlockErr: nat, dist: nat, pixIndices: bv32)
    requires noDist > 7 && startDist < 8
    ensures bestBlockErr == MAX_ERROR ==>
              dist == noDist && pixIndices == noIndices && NothingBelow(Errs(tMode, src, q0, q1), startDist, 8)
    ensures bestBlockErr != MAX_ERROR ==>
              && bestBlockErr < MAX_ERROR
              && (exists f :: startDist <= f <= dist < 8 && FirstLocalMin(Errs(tMode, src, q0, q1), startDist, f, dist))
              && bestBlockErr == BlockErr(tMode, src, q0, q1, dist)
              && pixIndices == BlockIndices(tMode, src, q0, q1, dist)
  {
    hide BlockErr, BlockIndices, Errs;
    ghost var errs := Errs(tMode, src, q0, q1);
    bestBlockErr, dist, pixIndices := MAX_ERROR, noDist, noIndices;
    ghost var first := startDist;
    var d := startDist;
    while d < 8
      invariant startDist <= first <= d <= 8
      invariant bestBlockErr <= MAX_ERROR
      invariant NothingBelow(errs, startDist, first)
      invariant bestBlockErr == MAX_ERROR ==> first == d && dist == noDist && pixIndices == noIndices
      invariant bestBlockErr < MAX_ERROR ==>
                  && first <= dist < d <= dist + 2
                  && errs[first] < MAX_ERROR
                  && FallsFromTo(errs, first, dist)
                  && (d == dist + 2 ==> errs[dist + 1] >= errs[dist])
                  && bestBlockErr == errs[dist]
                  && pixIndices == BlockIndices(tMode, src, q0, q1, dist)
    {
      if d >= 2 && dist == d - 2 { break; }
      var blockErr, pixColors := TestDistance(tMode, src, q0, q1, d);
      if blockErr < bestBlockErr {
        bestBlockErr := blockErr;
        dist := d;
        pixIndices := pixColors;
      } else if bestBlockErr == MAX_ERROR {
        first := d + 1;
      }
      d := d + 1;
    }
    assert bestBlockErr < MAX_ERROR ==> FirstLocalMin(errs, startDist, first, dist);
  }

  // ---------- what 32 bits do to the search ----------

  const FULL: nat := 0x1_0000_0000

  /** A search over the sums themselves that ends at distance m. */
  ghost predicate EndsAt(errs: seq<nat>, start: nat, m: nat) {
    exists f :: start <= f <= m < |errs| && FirstLocalMin(errs, start, f, m)
  }

  lemma WrapLowers(x: nat)
    ensures Wrap32(x) <= x && (Wrap32(x) == x <==> x < FULL)
  {
  }

  lemma {:induction false} FallsBelow(errs: seq<nat>, f: nat, m: nat, d: nat)
    requires f <= d <= m < |errs| && FallsFromTo(errs, f, m)
    ensures errs[m] <= errs[d] <= errs[f]
    decreases m - f
  {
    if f < m {
      if d < m {
        FallsBelow(errs, f, m - 1, d);
      } else {
        FallsBelow(errs, f, m - 1, m - 1);
      }
    }
  }

  /** A search that fails in 32 bits would fail on the sums. */
  lemma FailsAlike(sums: seq<nat>, start: nat, f: nat)
    requires f <= |sums| && NothingBelow(Wrapped(sums), start, f)
    ensures NothingBelow(sums, start, f)
  {
    hide Wrap32;
    forall j | start <= j < f ensures sums[j] >= MAX_ERROR {
      WrapLowers(sums[j]);
      assert Wrapped(sums)[j] >= MAX_ERROR;
    }
  }

  /** Of the distances from f to m, each better than the one before: the sum of the last fits into 32
      bits, and so do those after the first that does. */
  predicate WrapsFirst(sums: seq<nat>, f: nat, m: nat)
    requires f <= m < |sums|
  {
    sums[m] < FULL && forall d :: f <= d < m && sums[d] < FULL ==> sums[d + 1] < FULL
  }

  /** When the search, having found its first distance f in 32 bits and ended at m, ends as it would
      on the sums: exactly if those of its improvements that had wrapped all came first and were
      overtaken by one that had not. */
  lemma EndsAlike(sums: seq<nat>, start: nat, f: nat, m: nat)
    requires start <= f <= m < |sums| && FirstLocalMin(Wrapped(sums), start, f, m)
    ensures EndsAt(sums, start, m) <==> WrapsFirst(sums, f, m)
  {
    if WrapsFirst(sums, f, m) {
      var g := FirstFit(sums, f, m);
      FitsOn(sums, start, f, g, m);
    }
    if EndsAt(sums, start, m) {
      var g :| start <= g <= m && FirstLocalMin(sums, start, g, m);
      FallsBelow(sums, g, m, m);
      forall d | f <= d < m && sums[d] < FULL ensures sums[d + 1] < FULL {
        FallsBelow(Wrapped(sums), f, m, d);
        assert g <= d;
        FallsBelow(sums, g, m, d + 1);
      }
    }
  }

  /** The first improvement that has not wrapped; all that follow have not either. */
  lemma {:induction false} FirstFit(sums: seq<nat>, f: nat, m: nat) returns (g: nat)
    requires f <= m < |sums| && WrapsFirst(sums, f, m)
    ensures f <= g <= m
    ensures forall d :: f <= d < g ==> sums[d] >= FULL
    ensures forall d :: g <= d <= m ==> sums[d] < FULL
    decreases m - f
  {
    if f < m && sums[f] >= FULL {
      g := FirstFit(sums, f + 1, m);
    } else {
      g := f;
      if f < m {
        var h := FirstFit(sums, f + 1, m);
        assert sums[f + 1] < FULL;
      }
    }
  }

  lemma FitsOn(sums: seq<nat>, start: nat, f: nat, g: nat, m: nat)
    requires start <= f <= g <= m < |sums| && FirstLocalMin(Wrapped(sums), start, f, m)
    requires forall d :: f <= d < g ==> sums[d] >= FULL
    requires forall d :: g <= d <= m ==> sums[d] < FULL
    ensures FirstLocalMin(sums, start, g, m)
  {
    hide Wrap32;
    var errs := Wrapped(sums);
    FailsAlike(sums, start, f);
    forall d | g <= d <= m ensures errs[d] == sums[d] {
      WrapLowers(sums[d]);
    }
    FallsBelow(errs, f, m, g);
    if m + 1 < |sums| {
      WrapLowers(sums[m + 1]);
    }
  }

  // ---------- the error of a block that is shown ----------

  /** The error of showing src as shown, over the first n visited pixels. */
  function ShownError(src: Block, shown: Block, n: nat): nat
    requires n <= 16
  {
    if n == 0 then 0
    else
      var p := Scan(n - 1);
      ShownError(src, shown, n - 1) + PixErr(src[p], ColorOf(shown[p]))
  }

  /** A block shown in its least-error paint colours is off by the sum of the least errors. */
  lemma {:induction false} ShownErrorIsSum(src: Block, shown: Block, ps: seq<Rgb>, n: nat)
    requires |ps| == 4 && n <= 16
    requires forall p :: 0 <= p < 16 ==> shown[p] == Opaque(ps[BestIndex(src[p], ps, 4)])
    ensures ShownError(src, shown, n) == ErrorSum(src, ps, n)
  {
    hide PixErr, BestIndex, Scan;
    if n > 0 {
      ShownErrorIsSum(src, shown, ps, n - 1);
    }
  }

  /** Where the lower index bit of buffer pixel p sits in an index word. */
  function Slot(p: nat): nat
    requires p < 16
    ensures Slot(p) <= 30
  {
    2 * (15 - Scan(p))
  }

  /** The index an index word gives to buffer pixel p. */
  function ChosenIndex(w: bv32, p: nat): bv32
    requires p < 16
  {
    (Bit(w, Slot(p) + 1) << 1) | Bit(w, Slot(p))
  }

  /** The pair of bits m places up in a word. */
  function Pair(w: bv32, m: nat): bv32
    requires m < 16
  {
    (Bit(w, 2 * m + 1) << 1) | Bit(w, 2 * m)
  }

  lemma PairAt(w: bv32, k: bv32, s: bv5)
    requires k < 4 && s < 30
    ensures var x := (w << 2) | k;
            && (x >> (s + 2)) & 1 == (w >> s) & 1
            && (((x >> 1) & 1) << 1) | (x & 1) == k
  {
  }

  lemma AddTwo(s: nat)
    requires s < 30
    ensures ((s + 2) as bv5) == (s as bv5) + 2 && (s as bv5) < 30
  {
    NextShift(s);
    NextShift(s + 1);
    BelowThirty(s as bv5);
  }

  lemma BelowThirty(b: bv5)
    requires b < 31 && b + 1 < 31
    ensures b < 30
  {
  }

  lemma AppendShiftsBit(w: bv32, k: nat, s: nat)
    requires k < 4 && s < 30
    ensures Bit(Append(w, k), s + 2) == Bit(w, s)
  {
    WordLess(k, 4);
    AddTwo(s);
    PairAt(w, B32(k), s as bv5);
  }

  lemma AppendedPair(w: bv32, k: nat)
    requires k < 4
    ensures Pair(Append(w, k), 0) == B32(k)
  {
    WordLess(k, 4);
    PairAt(w, B32(k), 0);
  }

  lemma AppendShiftsPair(w: bv32, k: nat, m: nat)
    requires k < 4 && m < 15
    ensures Pair(Append(w, k), m + 1) == Pair(w, m)
  {
    hide Append, Bit;
    AppendShiftsBit(w, k, 2 * m);
    AppendShiftsBit(w, k, 2 * m + 1);
  }

  lemma IndexWordStep(src: Block, ps: seq<Rgb>, n: nat)
    requires |ps| == 4 && 1 <= n <= 16
    ensures IndexWord(src, ps, n) == Append(IndexWord(src, ps, n - 1), BestIndex(src[Scan(n - 1)], ps, 4))
  {
    hide Append, BestIndex, Scan;
  }

  lemma {:induction false} IndexWordPairs(src: Block, ps: seq<Rgb>, n: nat, k: nat)
    requires |ps| == 4 && k < n <= 16
    ensures Pair(IndexWord(src, ps, n), n - 1 - k) == B32(BestIndex(src[Scan(k)], ps, 4))
    decreases n
  {
    hide Append, Pair, BestIndex, IndexWord, Scan, B32;
    var w := IndexWord(src, ps, n - 1);
    var c := BestIndex(src[Scan(n - 1)], ps, 4);
    IndexWordStep(src, ps, n);
    if k == n - 1 {
      AppendedPair(w, c);
    } else {
      IndexWordPairs(src, ps, n - 1, k);
      AppendShiftsPair(w, c, n - 2 - k);
    }
  }

  /** The index word of a search gives every buffer pixel its first least-error paint colour. */
  lemma IndexWordChoosesBest(src: Block, ps: seq<Rgb>, p: nat)
    requires |ps| == 4 && p < 16
    ensures ChosenIndex(IndexWord(src, ps, 16), p) == B32(BestIndex(src[p], ps, 4))
  {
    ScanIsAnInvolution(p);
    IndexWordPairs(src, ps, 16, Scan(p));
  }
}
