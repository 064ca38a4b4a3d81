/** DXT1 colours and DXT5 alpha: the scalar encoder of ProcessDxtc.cpp against the decoder of
    BlockData.cpp. Fields of words are written as numbers: a shift is a division or a product, an or
    of separate fields a sum. The pixels of a block come row by row. */
module Dxt {
  import opened Pixels

  type Tile = s: seq<Pixel> | |s| == 16 witness seq(16, _ => Pixel(0, 0, 0, 0))

  // ---------- digits ----------

  /** Digits to base b, the first one lowest: data |= digit << (k * bits), digit by digit. */
  function Pack(digits: seq<nat>, b: nat): nat {
    if digits == [] then 0 else PackIsNatural(b, Pack(digits[1..], b)); digits[0] + b * Pack(digits[1..], b)
  }

  lemma PackIsNatural(b: nat, rest: nat)
    ensures b * rest >= 0
  {
  }

  /** The value of digit n: b to the power n. */
  function Weight(b: nat, n: nat): nat {
    if n == 0 then 1 else PackIsNatural(b, Weight(b, n - 1)); b * Weight(b, n - 1)
  }

  lemma NoDigits(b: nat)
    ensures Pack([], b) == 0 && Weight(b, 0) == 1
  {
  }

  lemma {:induction false} PackAppend(digits: seq<nat>, d: nat, b: nat)
    ensures Weight(b, |digits| + 1) == b * Weight(b, |digits|)
    ensures Pack(digits + [d], b) == Pack(digits, b) + d * Weight(b, |digits|)
  {
    if digits == [] {
      assert [d][1..] == [];
    } else {
      var rest := digits[1..];
      PackAppend(rest, d, b);
      assert (digits + [d])[1..] == rest + [d];
      Spread3(b, Pack(rest, b), d, Weight(b, |rest|));
    }
  }

  lemma Spread3(b: nat, p: nat, d: nat, w: nat)
    ensures b * (p + d * w) == b * p + d * (b * w)
  {
    assert d * (b * w) == b * (d * w);
  }

  /** Digit k: the lowest after k shifts. */
  function Digit4(w: nat, k: nat): (d: nat)
    ensures d < 4
    decreases k
  {
    if k == 0 then w % 4 else Digit4(w / 4, k - 1)
  }

  function Digit8(w: nat, k: nat): (d: nat)
    ensures d < 8
    decreases k
  {
    if k == 0 then w % 8 else Digit8(w / 8, k - 1)
  }

  lemma {:induction false} Digit4OfPack(digits: seq<nat>, k: nat)
    requires k < |digits| && forall i :: 0 <= i < |digits| ==> digits[i] < 4
    ensures Digit4(Pack(digits, 4), k) == digits[k]
    decreases k
  {
    if k > 0 {
      Digit4OfPack(digits[1..], k - 1);
    }
  }

  lemma {:induction false} Digit8OfPack(digits: seq<nat>, k: nat)
    requires k < |digits| && forall i :: 0 <= i < |digits| ==> digits[i] < 8
    ensures Digit8(Pack(digits, 8), k) == digits[k]
    decreases k
  {
    if k > 0 {
      Digit8OfPack(digits[1..], k - 1);
    }
  }

  // ---------- 565 colours ----------

  function To565(c: Rgb): (w: nat)
    ensures w < 0x1_0000
  {
    c.r / 8 * 2048 + c.g / 4 * 32 + c.b / 8
  }

  function Expand565(w: nat): Rgb
    requires w < 0x1_0000
  {
    var (r, g, b) := (w / 2048, w / 32 % 64, w % 32);
    Rgb(8 * r + r / 4, 4 * g + g / 16, 8 * b + b / 4)
  }

  /** A colour cut to the bits a 565 colour keeps, and expanded again. */
  function Cut(c: Rgb): Rgb {
    Rgb(Cut5(c.r), Cut6(c.g), Cut5(c.b))
  }

  function Cut5(x: byte): byte { x / 8 * 8 + x / 32 }

  function Cut6(x: byte): byte { x / 4 * 4 + x / 64 }

  lemma Expand565Reads(c: Rgb)
    ensures Expand565(To565(c)) == Cut(c)
  {
    Fields565(c.r / 8, c.g / 4, c.b / 8);
  }

  lemma Fields565(r: nat, g: nat, b: nat)
    requires r < 32 && g < 64 && b < 32
    ensures var w := r * 2048 + g * 32 + b; w / 2048 == r && w / 32 % 64 == g && w % 32 == b
  {
  }

  predicate AtMost(c: Rgb, d: Rgb) {
    c.r <= d.r && c.g <= d.g && c.b <= d.b
  }

  lemma CutKeepsOrder(c: Rgb, d: Rgb)
    requires AtMost(c, d)
    ensures AtMost(Cut(c), Cut(d))
  {
    hide Cut5, Cut6;
    CutChannels(c.r, d.r);
    CutChannels(c.g, d.g);
    CutChannels(c.b, d.b);
  }

  lemma CutChannels(x: byte, y: byte)
    requires x <= y
    ensures Cut5(x) <= Cut5(y) && Cut6(x) <= Cut6(y)
  {
    DivisionGrows(x, y);
  }

  lemma DivisionGrows(x: byte, y: byte)
    requires x <= y
    ensures x / 4 <= y / 4 && x / 8 <= y / 8 && x / 32 <= y / 32 && x / 64 <= y / 64
  {
  }

  /** Whether two pixels agree in the bits that a 565 colour keeps. */
  predicate SameKept(p: Rgb, q: Rgb) {
    p.r / 8 == q.r / 8 && p.g / 4 == q.g / 4 && p.b / 8 == q.b / 8
  }

  lemma LargerColor(c: Rgb, d: Rgb)
    requires AtMost(c, d) && !SameKept(c, d)
    ensures To565(c) < To565(d)
  {
  }

  // ---------- the decoder of a colour block ----------

  function Blend(x: byte, y: byte): byte { (2 * x + y) / 3 }

  function BlendRgb(c: Rgb, d: Rgb): Rgb {
    Rgb(Blend(c.r, d.r), Blend(c.g, d.g), Blend(c.b, d.b))
  }

  function Halfway(c: Rgb, d: Rgb): Rgb {
    Rgb((c.r + d.r) / 2, (c.g + d.g) / 2, (c.b + d.b) / 2)
  }

  /** dict of DecodeDxt1Part. */
  function Dict(c0: nat, c1: nat): (dict: seq<Rgb>)
    requires c0 < 0x1_0000 && c1 < 0x1_0000
    ensures |dict| == 4
  {
    var (x, y) := (Expand565(c0), Expand565(c1));
    if c0 > c1 then [x, y, BlendRgb(x, y), BlendRgb(y, x)] else [x, y, Halfway(x, y), Rgb(0, 0, 0)]
  }

  function Word(c0: nat, c1: nat, data: nat): nat
  {
    c0 + 0x1_0000 * c1 + 0x1_0000_0000 * data
  }

  function Color0(d: nat): (c: nat)
    ensures c < 0x1_0000
  {
    d % 0x1_0000
  }

  function Color1(d: nat): (c: nat)
    ensures c < 0x1_0000
  {
    d / 0x1_0000 % 0x1_0000
  }

  function Indices(d: nat): nat { d / 0x1_0000_0000 }

  lemma WordFields(c0: nat, c1: nat, data: nat)
    requires c0 < 0x1_0000 && c1 < 0x1_0000
    ensures var d := Word(c0, c1, data); Color0(d) == c0 && Color1(d) == c1 && Indices(d) == data
  {
  }

  /** Pixel p of the decoded block. */
  function Dxt1Pixel(d: nat, p: nat): Rgb {
    Dict(Color0(d), Color1(d))[Digit4(Indices(d), p)]
  }

  // ---------- the encoder ----------

  function SumOf(p: Pixel): nat { p.r + p.g + p.b }

  ghost predicate IsSolid(src: Tile) {
    forall i :: 0 <= i < 16 ==> SameKept(ColorOf(src[i]), ColorOf(src[0]))
  }

  /** The smallest and the largest value of every channel. */
  datatype Box = Box(min: Rgb, max: Rgb)

  ghost predicate Bounds(src: Tile, box: Box, n: nat)
    requires n <= 16
  {
    forall i :: 0 <= i < n ==> AtMost(box.min, ColorOf(src[i])) && AtMost(ColorOf(src[i]), box.max)
  }

  /** No smaller box bounds them: in every channel each end is the value of some pixel. */
  ghost predicate IsTight(src: Tile, box: Box, n: nat)
    requires n <= 16
  {
    && (exists i :: 0 <= i < n && src[i].r == box.min.r) && (exists i :: 0 <= i < n && src[i].r == box.max.r)
    && (exists i :: 0 <= i < n && src[i].g == box.min.g) && (exists i :: 0 <= i < n && src[i].g == box.max.g)
    && (exists i :: 0 <= i < n && src[i].b == box.min.b) && (exists i :: 0 <= i < n && src[i].b == box.max.b)
  }

  /** One channel of one turn of the search for the extremes. */
  function Widened(min: byte, max: byte, v: byte): (byte, byte) {
    if v < min then (v, max) else if v > max then (min, v) else (min, max)
  }

  function WidenedBox(box: Box, p: Pixel): Box {
    var (r0, r1) := Widened(box.min.r, box.max.r, p.r);
    var (g0, g1) := Widened(box.min.g, box.max.g, p.g);
    var (b0, b1) := Widened(box.min.b, box.max.b, p.b);
    Box(Rgb(r0, g0, b0), Rgb(r1, g1, b1))
  }

  lemma WidenedBounds(src: Tile, box: Box, i: nat)
    requires i < 16 && Bounds(src, box, i) && AtMost(box.min, box.max)
    ensures var next := WidenedBox(box, src[i]); Bounds(src, next, i + 1) && AtMost(next.min, next.max)
  {
  }

  lemma WidenedIsTight(src: Tile, box: Box, i: nat)
    requires i < 16 && IsTight(src, box, i)
    ensures IsTight(src, WidenedBox(box, src[i]), i + 1)
  {
    var next := WidenedBox(box, src[i]);
    assert next.min.r == box.min.r || next.min.r == src[i].r;
    assert next.min.g == box.min.g || next.min.g == src[i].g;
    assert next.min.b == box.min.b || next.min.b == src[i].b;
  }

  method FindBox(src: Tile) returns (box: Box)
    ensures Bounds(src, box, 16) && IsTight(src, box, 16)
  {
    hide WidenedBox;
    box := Box(ColorOf(src[0]), ColorOf(src[0]));
    assert src[0].r == box.min.r && src[0].g == box.min.g && src[0].b == box.min.b;
    for i := 1 to 16
      invariant Bounds(src, box, i) && AtMost(box.min, box.max) && IsTight(src, box, i)
    {
      WidenedBounds(src, box, i);
      WidenedIsTight(src, box, i);
      box := WidenedBox(box, src[i]);
    }
  }

  /** Entry s of DivTable. */
  function DivEntry(s: nat): (r: nat) {
    Min(0xFFFF, 0x4_0000 / (s + 1))
  }

  /** The box made smaller by a sixteenth of its size on every side. */
  function Inset(min: byte, max: byte): (byte, byte)
    requires min <= max
  {
    (min + (max - min) / 16, max - (max - min) / 16)
  }

  function InsetBox(box: Box): Box
    requires AtMost(box.min, box.max)
  {
    var (r0, r1) := Inset(box.min.r, box.max.r);
    var (g0, g1) := Inset(box.min.g, box.max.g);
    var (b0, b1) := Inset(box.min.b, box.max.b);
    Box(Rgb(r0, g0, b0), Rgb(r1, g1, b1))
  }

  /** However the inset narrows the box, its ends keep different 565 colours unless the pixels agree in
      all the bits a 565 colour keeps. */
  lemma InsetKeepsApart(src: Tile, box: Box)
    requires Bounds(src, box, 16) && !IsSolid(src)
    ensures AtMost(box.min, box.max)
    ensures var b := InsetBox(box); AtMost(b.min, b.max) && To565(b.min) < To565(b.max)
  {
    var i :| 0 <= i < 16 && !SameKept(ColorOf(src[i]), ColorOf(src[0]));
    var b := InsetBox(box);
    assert !SameKept(box.min, box.max) by { BetweenKept(box.min, ColorOf(src[i]), ColorOf(src[0]), box.max); }
    InsetApart(box);
    LargerColor(b.min, b.max);
  }

  lemma BetweenKept(min: Rgb, p: Rgb, q: Rgb, max: Rgb)
    requires AtMost(min, p) && AtMost(p, max) && AtMost(min, q) && AtMost(q, max)
    ensures SameKept(min, max) ==> SameKept(p, q)
  {
  }

  lemma InsetApart(box: Box)
    requires AtMost(box.min, box.max) && !SameKept(box.min, box.max)
    ensures AtMost(InsetBox(box).min, InsetBox(box).max) && !SameKept(InsetBox(box).min, InsetBox(box).max)
  {
    hide Inset;
    InsetChannel(box.min.r, box.max.r);
    InsetChannel(box.min.g, box.max.g);
    InsetChannel(box.min.b, box.max.b);
  }

  lemma InsetChannel(min: byte, max: byte)
    requires min <= max
    ensures var (x, y) := Inset(min, max);
            x <= y && (x / 8 == y / 8 ==> min / 8 == max / 8) && (x / 4 == y / 4 ==> min / 4 == max / 4)
  {
    var n := (max - min) / 16;
    if n > 0 {
      assert (max - n) - (min + n) >= 8;
    }
  }

  /** Which quarter of the range of channel sums a pixel falls into. */
  function Rank(c: nat, range: nat): nat {
    PackIsNatural(c, range);
    c * range / 0x1_0000
  }

  lemma RankFits(c: nat, s: nat)
    requires c <= s <= 765
    ensures Rank(c, DivEntry(s)) < 4
  {
    hide DivEntry;
    DivProduct(s);
    ProductGrows(c, s, DivEntry(s));
  }

  lemma DivProduct(s: nat)
    ensures s * DivEntry(s) < 0x4_0000
  {
    var q := 0x4_0000 / (s + 1);
    DivTimes(0x4_0000, s + 1);
    assert (s + 1) * q == s * q + q;
    if DivEntry(s) == q {
      if s > 0 {
        ProductGrows(s, s + 1, q);
      }
    } else {
      ProductGrows(s, 3, 0xFFFF);
    }
  }

  lemma DivTimes(x: nat, n: nat)
    requires n > 0
    ensures x / n >= 0 && n * (x / n) <= x
  {
  }

  lemma ProductGrows(x: nat, y: nat, z: nat)
    ensures x <= y ==> x * z <= y * z
  {
  }

  /** Larger sums get larger ranks. */
  lemma RankGrows(c: nat, d: nat, range: nat)
    requires c <= d
    ensures Rank(c, range) <= Rank(d, range)
  {
    ProductGrows(c, d, range);
  }

  /** k is the quarter of the range 0..spread that c falls into. Where the reciprocal of the range is rounded, the
      first few values of a quarter may be left with the one below; and a range of less than 4 has no quarters:
      its reciprocal does not fit the table, and every value but 0 is taken for one less. */
  predicate IsQuarter(c: int, spread: int, k: nat) {
    if spread < 4 then k == Max(c - 1, 0)
    else
      var (quarter, past) := (4 * c / (spread + 1), 4 * c % (spread + 1));
      k == if 0x1_0000 * past >= c * (0x4_0000 % (spread + 1)) then quarter else quarter - 1
  }

  lemma RankOfSmall(c: nat, s: nat)
    requires c <= s < 4
    ensures Rank(c, DivEntry(s)) == Max(c - 1, 0)
  {
  }

  lemma LessOfProducts(n: nat, x: int, y: int)
    requires n > 0 && n * x < n * y
    ensures x < y
  {
    if y <= x {
      ProductsGrow(n, y, x);
    }
  }

  lemma ProductsGrow(n: nat, x: int, y: int)
    requires x <= y
    ensures n * x <= n * y
  {
  }

  /** The products behind a rank: n times c by the reciprocal of n. */
  lemma ReciprocalProduct(c: nat, n: nat)
    requires n > 0
    ensures n * (c * (0x4_0000 / n)) == 0x1_0000 * (n * (4 * c / n) + 4 * c % n) - c * (0x4_0000 % n)
  {
    assert n * (0x4_0000 / n) == 0x4_0000 - 0x4_0000 % n;
    assert n * (c * (0x4_0000 / n)) == c * (n * (0x4_0000 / n));
    assert c * (0x4_0000 - 0x4_0000 % n) == 0x1_0000 * (4 * c) - c * (0x4_0000 % n);
    assert n * (4 * c / n) + 4 * c % n == 4 * c;
  }

  lemma LossBound(c: nat, e: nat, s: nat)
    requires c <= s <= 765 && e <= s
    ensures c * e <= 765 * 765 && c * e <= 0x1_0000 * s
  {
    ProductGrows(c, s, e);
    ProductsGrow(s, e, s);
    ProductsGrow(s, s, 765);
  }

  /** The ranks of the encoder are the quarters. */
  lemma RankIsQuarter(c: nat, s: nat)
    requires c <= s <= 765
    ensures IsQuarter(c, s, Rank(c, DivEntry(s)))
  {
    hide Rank, DivEntry;
    if s < 4 {
      RankOfSmall(c, s);
    } else {
      var n := s + 1;
      EntryIs(s);
      DivMod(4 * c, n);
      DivMod(0x4_0000, n);
      ReciprocalProduct(c, n);
      LossBound(c, 0x4_0000 % n, s);
      RankBounds(c, 0x4_0000 / n, n, 4 * c / n, 4 * c % n, c * (0x4_0000 % n));
    }
  }

  lemma EntryIs(s: nat)
    requires s >= 4
    ensures DivEntry(s) == 0x4_0000 / (s + 1)
  {
  }

  lemma RankBounds(c: nat, reciprocal: nat, n: nat, quarter: nat, past: nat, loss: nat)
    requires n > 0 && past < n && loss <= 0x1_0000 * n
    requires n * (c * reciprocal) == 0x1_0000 * (n * quarter + past) - loss
    ensures Rank(c, reciprocal) == if 0x1_0000 * past >= loss then quarter else quarter - 1
  {
    var product := c * reciprocal;
    var k := if 0x1_0000 * past >= loss then quarter else quarter - 1;
    assert n * (0x1_0000 * k) == 0x1_0000 * (n * k) && n * (0x1_0000 * (k + 1)) == 0x1_0000 * (n * k + n);
    assert k == quarter - 1 ==> n * k == n * quarter - n;
    LessOfProducts(n, 0x1_0000 * k - 1, product);
    LessOfProducts(n, product, 0x1_0000 * (k + 1));
  }

  /** Only the first 8 values of 4 * c in a quarter are ever left with the one below. */
  lemma QuarterOrBelow(c: nat, s: nat, k: nat)
    requires c <= s <= 765 && s >= 4 && IsQuarter(c, s, k)
    ensures k == 4 * c / (s + 1) || (k == 4 * c / (s + 1) - 1 && 4 * c % (s + 1) < 9)
  {
    LossBound(c, 0x4_0000 % (s + 1), s);
  }

  /** The edges of a quarter, small ranges included. */
  lemma QuarterEdges(c: nat, s: nat, k: nat)
    requires c <= s <= 765 && IsQuarter(c, s, k)
    ensures k * (s + 1) <= 4 * c <= (k + 1) * (s + 1) + 8
  {
    if s < 4 {
      SmallEdges(c, s, k);
    } else {
      hide IsQuarter;
      QuarterOrBelow(c, s, k);
      DivMod(4 * c, s + 1);
      EdgesOf(4 * c, s + 1, 4 * c / (s + 1), 4 * c % (s + 1), k);
    }
  }

  lemma DivMod(x: nat, n: nat)
    requires n > 0
    ensures 0 <= x / n && 0 <= x % n < n && x == n * (x / n) + x % n
  {
  }

  lemma SmallEdges(c: nat, s: nat, k: nat)
    requires c <= s < 4 && k == Max(c - 1, 0)
    ensures k * (s + 1) <= 4 * c <= (k + 1) * (s + 1) + 8
  {
    ProductsGrow(k, s + 1, 4);
    ProductsGrow(k + 1, c + 1, s + 1);
  }

  lemma EdgesOf(x: nat, n: nat, quarter: nat, past: nat, k: nat)
    requires x == n * quarter + past && past < n
    requires k == quarter || (k == quarter - 1 && past < 9)
    ensures k * n <= x <= (k + 1) * n + 8
  {
    assert (k + 1) * n == k * n + n && k * n == n * k;
    if k == quarter - 1 {
      assert n * quarter == n * k + n;
    }
  }

  /** The least value has rank 0, and the greatest rank 3 if and only if the range is 4 or more. */
  lemma QuarterOfEnds(s: nat, k: nat)
    requires s <= 765
    ensures IsQuarter(0, s, k) ==> k == 0
    ensures s > 0 && IsQuarter(s, s, k) ==> (k == 3 <==> s >= 4)
  {
    if s >= 4 {
      var n := s + 1;
      assert 4 * s == 3 * n + (s - 3);
      QuotientIs(4 * s, n, 3, s - 3);
      LossBound(s, 0x4_0000 % n, s);
      assert s * (0x4_0000 % n) <= s * s by { ProductsGrow(s, 0x4_0000 % n, s); }
      ProductsGrow(s, s, 765);
      assert IsQuarter(0, s, k) ==> k == 0 by { QuotientIs(0, n, 0, 0); }
    }
  }

  lemma QuotientIs(x: nat, n: nat, q: nat, r: nat)
    requires n > 0 && r < n && x == q * n + r
    ensures x / n == q && x % n == r
  {
    assert n * (x / n) + x % n == x;
    if x / n < q {
      ProductsGrow(n, x / n + 1, q);
    } else if x / n > q {
      ProductsGrow(n, q + 1, x / n);
    }
  }

  // ---------- ranks become indices ----------

  /** Ranks 0 to 3 count from the smaller end colour to the larger; the dictionary has the ends first. */
  function IndexOfRank(rank: nat): (k: nat)
    requires rank < 4
    ensures k < 4
  {
    if rank == 0 then 1 else if rank == 1 then 3 else if rank == 2 then 2 else 0
  }

  /** Entry b of DxtcIndexTable: the four ranks of a byte, each turned into its index. */
  function FixByte(b: nat): (f: nat)
    requires b < 256
    ensures f < 256
  {
    IndexOfRank(b % 4) + 4 * IndexOfRank(b / 4 % 4) + 16 * IndexOfRank(b / 16 % 4) + 64 * IndexOfRank(b / 64 % 4)
  }

  /** The table applied to the n lowest bytes of the indices. */
  function FixBytes(data: nat, n: nat): nat {
    if n == 0 then 0 else FixByte(data % 256) + 256 * FixBytes(data / 256, n - 1)
  }

  lemma ByteDigits(b: nat, rest: nat, k: nat)
    requires b < 256 && k < 4
    ensures Digit4(b + 256 * rest, k)
            == (if k == 0 then b % 4 else if k == 1 then b / 4 % 4 else if k == 2 then b / 16 % 4 else b / 64 % 4)
  {
    QuarterOff(b, 64 * rest);
    QuarterOff(b / 4, 16 * rest);
    QuarterOff(b / 16, 4 * rest);
    QuarterOff(b / 64, rest);
    assert Digit4(b + 256 * rest, 2) == Digit4(b / 4 + 64 * rest, 1) == Digit4(b / 16 + 16 * rest, 0);
    assert Digit4(b + 256 * rest, 3) == Digit4(b / 4 + 64 * rest, 2) == Digit4(b / 16 + 16 * rest, 1);
  }

  lemma QuarterOff(b: nat, rest: nat)
    ensures (b + 4 * rest) / 4 == b / 4 + rest && (b + 4 * rest) % 4 == b % 4
    ensures b / 4 / 4 == b / 16 && b / 16 / 4 == b / 64
  {
  }

  lemma FourDigitsOn(w: nat, k: nat)
    ensures Digit4(w, k + 4) == Digit4(w / 256, k)
  {
    assert Digit4(w, k + 4) == Digit4(w / 4 / 4, k + 2) == Digit4(w / 4 / 4 / 4 / 4, k);
    assert w / 4 / 4 / 4 / 4 == w / 256;
  }

  lemma FixedDigits(b: nat)
    requires b < 256
    ensures var f := FixByte(b);
            && f % 4 == IndexOfRank(b % 4) && f / 4 % 4 == IndexOfRank(b / 4 % 4)
            && f / 16 % 4 == IndexOfRank(b / 16 % 4) && f / 64 % 4 == IndexOfRank(b / 64 % 4)
  {
    hide IndexOfRank;
    FourFields(IndexOfRank(b % 4), IndexOfRank(b / 4 % 4), IndexOfRank(b / 16 % 4), IndexOfRank(b / 64 % 4));
  }

  lemma FourFields(d0: nat, d1: nat, d2: nat, d3: nat)
    requires d0 < 4 && d1 < 4 && d2 < 4 && d3 < 4
    ensures var f := d0 + 4 * d1 + 16 * d2 + 64 * d3;
            f % 4 == d0 && f / 4 % 4 == d1 && f / 16 % 4 == d2 && f / 64 % 4 == d3
  {
  }

  /** Byte by byte, the table turns every rank into its index. */
  lemma {:induction false} FixedDigit(data: nat, n: nat, k: nat)
    requires k < 4 * n
    ensures Digit4(FixBytes(data, n), k) == IndexOfRank(Digit4(data, k))
    decreases n
  {
    hide FixByte, IndexOfRank, Digit4;
    var (b, rest) := (data % 256, data / 256);
    assert data == b + 256 * rest;
    FixedDigits(b);
    if k < 4 {
      ByteDigits(b, rest, k);
      ByteDigits(FixByte(b), FixBytes(rest, n - 1), k);
    } else {
      FourDigitsOn(data, k - 4);
      FourDigitsOn(FixBytes(data, n), k - 4);
      FixedDigit(rest, n - 1, k - 4);
    }
  }

  // ---------- a whole colour block ----------

  function MinSum(box: Box): nat { box.min.r + box.min.g + box.min.b }

  /** max[0] - min[0] + max[1] - min[1] + max[2] - min[2]. */
  function Spread(box: Box): int {
    (box.max.r - box.min.r) + (box.max.g - box.min.g) + (box.max.b - box.min.b)
  }

  function RankOf(p: Pixel, box: Box): (rank: nat)
    requires AtMost(box.min, ColorOf(p)) && AtMost(ColorOf(p), box.max)
    ensures rank < 4
  {
    RankFits(SumOf(p) - MinSum(box), Spread(box));
    Rank(SumOf(p) - MinSum(box), DivEntry(Spread(box)))
  }

  function Ranks(src: Tile, box: Box): (ranks: seq<nat>)
    requires Bounds(src, box, 16)
    ensures |ranks| == 16 && forall i :: 0 <= i < 16 ==> ranks[i] < 4
  {
    seq(16, i requires 0 <= i < 16 => RankOf(src[i], box))
  }

  /** The rank loop: data |= rank << (i * 2). */
  method PackRanks(src: Tile, box: Box) returns (data: nat)
    requires Bounds(src, box, 16)
    ensures data == Pack(Ranks(src, box), 4)
  {
    hide RankOf, Pack, Weight;
    data := 0;
    var weight := 1;
    ghost var ranks := Ranks(src, box);
    NoDigits(4);
    assert ranks[..0] == [];
    for i := 0 to 16
      invariant data == Pack(ranks[..i], 4) && weight == Weight(4, i)
    {
      PackAppend(ranks[..i], ranks[i], 4);
      assert ranks[..i + 1] == ranks[..i] + [ranks[i]];
      data := data + RankOf(src[i], box) * weight;
      weight := 4 * weight;
    }
    assert ranks[..16] == ranks;
  }

  /** ProcessRGB. */
  method ProcessRgb(src: Tile) returns (d: nat, ghost box: Box)
    ensures IsSolid(src) ==> d == Word(0, To565(ColorOf(src[0])), 0)
    ensures !IsSolid(src) ==> Bounds(src, box, 16) && IsTight(src, box, 16) && AtMost(box.min, box.max)
    ensures !IsSolid(src) ==>
              d == Word(To565(InsetBox(box).max), To565(InsetBox(box).min), Pack(Ranks(src, box), 4))
    ensures !IsSolid(src) ==> forall i :: 0 <= i < 16 ==>
              IsQuarter(SumOf(src[i]) - MinSum(box), Spread(box), Digit4(Indices(d), i))
  {
    hide Ranks, Pack, To565, Word, InsetBox, SameKept, IsQuarter, Digit4, Indices, SumOf, MinSum, Spread;
    var solid := true;
    SameKeptItself(ColorOf(src[0]));
    for i := 1 to 16
      invariant solid <==> forall k :: 0 <= k < i ==> SameKept(ColorOf(src[k]), ColorOf(src[0]))
    {
      if !SameKept(ColorOf(src[i]), ColorOf(src[0])) {
        solid := false;
        break;
      }
    }
    box := Box(Rgb(0, 0, 0), Rgb(0, 0, 0));
    if solid {
      return Word(0, To565(ColorOf(src[0])), 0), box;
    }
    var found := FindBox(src);
    box := found;
    assert AtMost(box.min, ColorOf(src[0])) && AtMost(ColorOf(src[0]), box.max);
    var data := PackRanks(src, found);
    var b := InsetBox(found);
    d := Word(To565(b.max), To565(b.min), data);
    WordFields(To565(b.max), To565(b.min), data);
    forall i | 0 <= i < 16
      ensures IsQuarter(SumOf(src[i]) - MinSum(found), Spread(found), Digit4(Indices(d), i))
    {
      Digit4OfPack(Ranks(src, found), i);
      RankOfPixel(src, found, i);
    }
  }

  lemma SameKeptItself(c: Rgb)
    ensures SameKept(c, c)
  {
  }

  /** CompressDxt1 on one block: the word with its index bytes put through the table. */
  method CompressDxt1Block(src: Tile) returns (d: nat)
    ensures IsSolid(src) ==> forall p :: 0 <= p < 16 ==> Dxt1Pixel(d, p) == Cut(ColorOf(src[p]))
    ensures !IsSolid(src) ==> Color0(d) > Color1(d)
    ensures !IsSolid(src) ==> forall p, q :: 0 <= p < 16 && 0 <= q < 16 && SumOf(src[p]) <= SumOf(src[q]) ==>
              AtMost(Dxt1Pixel(d, p), Dxt1Pixel(d, q))
    ensures !IsSolid(src) ==> forall box :: IsBoxOf(src, box) ==> forall p :: 0 <= p < 16 ==>
              ShownByQuarter(src[p], box, d, Dxt1Pixel(d, p)) && ShownNear(src[p], box, Dxt1Pixel(d, p))
    ensures !IsSolid(src) ==> forall p :: 0 <= p < 16 && IsLowest(src, p) ==> Dxt1Pixel(d, p) == Expand565(Color1(d))
    ensures !IsSolid(src) ==> forall box, p :: IsBoxOf(src, box) && 0 <= p < 16 && IsHighest(src, p) ==>
              (Dxt1Pixel(d, p) == Expand565(Color0(d)) <==> Spread(box) >= 4)
  {
    hide Pack, To565, Word, InsetBox, Color0, Color1, Indices, FixBytes, IsSolid, Dxt1Pixel, Ranks, Cut, Bounds;
    hide IsTight, ShownByQuarter, ShownNear, IsLowest, IsHighest, Spread, Expand565, SumOf, AtMost;
    ghost var box;
    var c;
    c, box := ProcessRgb(src);
    d := Word(Color0(c), Color1(c), FixBytes(Indices(c), 4));
    WordFields(Color0(c), Color1(c), FixBytes(Indices(c), 4));
    if IsSolid(src) {
      WordFields(0, To565(ColorOf(src[0])), 0);
      forall p | 0 <= p < 16 ensures Dxt1Pixel(d, p) == Cut(ColorOf(src[p])) {
        SolidPixel(ColorOf(src[0]), d, p);
        SolidIsCut(src, p);
      }
    } else {
      var b := InsetBox(box);
      WordFields(To565(b.max), To565(b.min), Pack(Ranks(src, box), 4));
      InsetKeepsApart(src, box);
      forall p, q | 0 <= p < 16 && 0 <= q < 16 && SumOf(src[p]) <= SumOf(src[q])
        ensures AtMost(Dxt1Pixel(d, p), Dxt1Pixel(d, q))
      {
        PixelByRank(src, box, d, p);
        PixelByRank(src, box, d, q);
        RanksFollowSums(src, box, p, q);
        CutKeepsOrder(b.min, b.max);
        RampGrows(Cut(b.min), Cut(b.max), Ranks(src, box)[p], Ranks(src, box)[q]);
      }
      forall other | IsBoxOf(src, other) ensures other == box {
        BoxIsUnique(src, box, other);
      }
      forall p | 0 <= p < 16
        ensures ShownByQuarter(src[p], box, d, Dxt1Pixel(d, p)) && ShownNear(src[p], box, Dxt1Pixel(d, p))
        ensures IsLowest(src, p) ==> Dxt1Pixel(d, p) == Expand565(Color1(d))
        ensures IsHighest(src, p) ==> (Dxt1Pixel(d, p) == Expand565(Color0(d)) <==> Spread(box) >= 4)
      {
        PixelIsShown(src, box, d, p);
      }
    }
  }

  lemma SolidIsCut(src: Tile, p: nat)
    requires IsSolid(src) && p < 16
    ensures Cut(ColorOf(src[p])) == Cut(ColorOf(src[0]))
  {
    hide Cut5, Cut6;
    CutOfKept(src[p].r, src[0].r);
    CutOfKept(src[p].g, src[0].g);
    CutOfKept(src[p].b, src[0].b);
  }

  lemma CutOfKept(x: byte, y: byte)
    ensures x / 8 == y / 8 ==> Cut5(x) == Cut5(y)
    ensures x / 4 == y / 4 ==> Cut6(x) == Cut6(y)
  {
    assert x / 32 == x / 8 / 4 && y / 32 == y / 8 / 4;
    assert x / 64 == x / 4 / 16 && y / 64 == y / 4 / 16;
  }

  lemma SolidPixel(c: Rgb, d: nat, p: nat)
    requires p < 16 && Color0(d) == 0 && Color1(d) == To565(c) && Indices(d) == FixBytes(0, 4)
    ensures Dxt1Pixel(d, p) == Cut(c)
  {
    hide To565, Expand565, Cut, FixBytes, Digit4;
    FixedDigit(0, 4, p);
    ZeroDigit(p);
    Expand565Reads(c);
  }

  lemma {:induction false} ZeroDigit(k: nat)
    ensures Digit4(0, k) == 0
  {
    if k > 0 {
      ZeroDigit(k - 1);
    }
  }

  /** The four colours from the smaller end to the larger. */
  function Ramp(low: Rgb, high: Rgb, rank: nat): Rgb
    requires rank < 4
  {
    if rank == 0 then low
    else if rank == 1 then BlendRgb(low, high)
    else if rank == 2 then BlendRgb(high, low)
    else high
  }

  lemma BlendsBetween(x: byte, y: byte)
    requires x <= y
    ensures x <= Blend(x, y) <= Blend(y, x) <= y
  {
  }

  lemma RampGrows(low: Rgb, high: Rgb, a: nat, b: nat)
    requires AtMost(low, high) && a <= b < 4
    ensures AtMost(Ramp(low, high, a), Ramp(low, high, b))
  {
    hide Blend;
    BlendsBetween(low.r, high.r);
    BlendsBetween(low.g, high.g);
    BlendsBetween(low.b, high.b);
  }

  lemma RanksFollowSums(src: Tile, box: Box, p: nat, q: nat)
    requires Bounds(src, box, 16) && p < 16 && q < 16 && SumOf(src[p]) <= SumOf(src[q])
    ensures Ranks(src, box)[p] <= Ranks(src, box)[q]
  {
    hide Rank, DivEntry;
    RankGrows(SumOf(src[p]) - MinSum(box), SumOf(src[q]) - MinSum(box), DivEntry(Spread(box)));
  }

  /** The decoder shows a pixel as the colour of its rank between the ends. */
  lemma PixelByRank(src: Tile, box: Box, d: nat, p: nat)
    requires Bounds(src, box, 16) && AtMost(box.min, box.max) && p < 16
    requires Color0(d) == To565(InsetBox(box).max) > Color1(d) == To565(InsetBox(box).min)
    requires Indices(d) == FixBytes(Pack(Ranks(src, box), 4), 4)
    ensures Dxt1Pixel(d, p) == Ramp(Cut(InsetBox(box).min), Cut(InsetBox(box).max), Ranks(src, box)[p])
  {
    hide To565, Expand565, Cut, FixBytes, Digit4, Pack, Ranks, Bounds, Color0, Color1, Indices, BlendRgb, InsetBox;
    Digit4OfPack(Ranks(src, box), p);
    FixedDigit(Pack(Ranks(src, box), 4), 4, p);
    Expand565Reads(InsetBox(box).min);
    Expand565Reads(InsetBox(box).max);
  }

  // ---------- what the decoder shows of a block ----------

  ghost predicate IsBoxOf(src: Tile, box: Box) {
    Bounds(src, box, 16) && IsTight(src, box, 16)
  }

  lemma BoxIsUnique(src: Tile, box: Box, other: Box)
    requires IsBoxOf(src, box) && IsBoxOf(src, other)
    ensures box == other
  {
    InnerBox(src, box, other);
    InnerBox(src, other, box);
  }

  lemma InnerBox(src: Tile, box: Box, other: Box)
    requires IsTight(src, box, 16) && Bounds(src, other, 16)
    ensures AtMost(other.min, box.min) && AtMost(box.max, other.max)
  {
  }

  /** A pixel is shown as the colour of its quarter on the ramp between the two colours of the word. */
  ghost predicate ShownByQuarter(p: Pixel, box: Box, d: nat, shown: Rgb) {
    exists k: nat ::
      && k < 4 && IsQuarter(SumOf(p) - MinSum(box), Spread(box), k)
      && shown == Ramp(Expand565(Color1(d)), Expand565(Color0(d)), k)
  }

  /** What is shown is no further from the pixel than three sixteenths of the range and what the colours of the
      word lose: in the sum of the channels, and for grey blocks in every channel. */
  predicate ShownNear(p: Pixel, box: Box, shown: Rgb) {
    && 16 * Abs(SumOf(Opaque(shown)) - SumOf(p)) <= 3 * Spread(box) + 400
    && (IsGrey(p) && IsGrey(Opaque(box.min)) && IsGrey(Opaque(box.max)) ==>
          var width := box.max.r - box.min.r;
          && 16 * Abs(shown.r - p.r) <= 3 * width + 144
          && 16 * Abs(shown.g - p.g) <= 3 * width + 144
          && 16 * Abs(shown.b - p.b) <= 3 * width + 144)
  }

  predicate IsGrey(p: Pixel) { p.r == p.g == p.b }

  ghost predicate IsLowest(src: Tile, p: nat)
    requires p < 16
  {
    forall i :: 0 <= i < 16 ==> AtMost(ColorOf(src[p]), ColorOf(src[i]))
  }

  ghost predicate IsHighest(src: Tile, p: nat)
    requires p < 16
  {
    forall i :: 0 <= i < 16 ==> AtMost(ColorOf(src[i]), ColorOf(src[p]))
  }

  /** The box of a grey block is grey. */
  lemma GreyBox(src: Tile, box: Box)
    requires IsBoxOf(src, box) && forall i :: 0 <= i < 16 ==> IsGrey(src[i])
    ensures IsGrey(Opaque(box.min)) && IsGrey(Opaque(box.max))
  {
  }

  lemma RankOfPixel(src: Tile, box: Box, p: nat)
    requires Bounds(src, box, 16) && p < 16
    ensures AtMost(box.min, ColorOf(src[p])) && AtMost(ColorOf(src[p]), box.max)
    ensures 0 <= SumOf(src[p]) - MinSum(box) <= Spread(box) <= 765
    ensures IsQuarter(SumOf(src[p]) - MinSum(box), Spread(box), Ranks(src, box)[p])
  {
    hide IsQuarter, Rank, DivEntry;
    RankIsQuarter(SumOf(src[p]) - MinSum(box), Spread(box));
  }

  lemma LowestSum(src: Tile, box: Box, p: nat)
    requires IsBoxOf(src, box) && p < 16 && IsLowest(src, p)
    ensures SumOf(src[p]) == MinSum(box)
  {
  }

  lemma HighestSum(src: Tile, box: Box, p: nat)
    requires IsBoxOf(src, box) && p < 16 && IsHighest(src, p)
    ensures SumOf(src[p]) - MinSum(box) == Spread(box)
  {
  }

  lemma SpreadIsPositive(box: Box)
    requires AtMost(box.min, box.max) && To565(InsetBox(box).max) > To565(InsetBox(box).min)
    ensures Spread(box) > 0
  {
    hide To565, Inset;
    if box.min == box.max {
      NothingToInset(box.min.r);
      NothingToInset(box.min.g);
      NothingToInset(box.min.b);
    }
  }

  lemma NothingToInset(x: byte)
    ensures Inset(x, x) == (x, x)
  {
  }

  /** Different colours of 16 bits are at least 4 apart in some channel. */
  lemma ExpandedApart(c: nat, d: nat)
    requires c < 0x1_0000 && d < 0x1_0000 && c != d
    ensures var (x, y) := (Expand565(c), Expand565(d));
            Abs(x.r - y.r) >= 4 || Abs(x.g - y.g) >= 4 || Abs(x.b - y.b) >= 4
  {
    FieldsOf(c);
    FieldsOf(d);
    if c / 2048 != d / 2048 {
      Expanded5(c / 2048, d / 2048);
    } else if c / 32 % 64 != d / 32 % 64 {
      Expanded6(c / 32 % 64, d / 32 % 64);
    } else {
      Expanded5(c % 32, d % 32);
    }
  }

  lemma FieldsOf(c: nat)
    ensures c == 2048 * (c / 2048) + 32 * (c / 32 % 64) + c % 32
  {
  }

  lemma Expanded5(x: nat, y: nat)
    requires x < 32 && y < 32 && x != y
    ensures Abs((8 * x + x / 4) - (8 * y + y / 4)) >= 4
  {
  }

  lemma Expanded6(x: nat, y: nat)
    requires x < 64 && y < 64 && x != y
    ensures Abs((4 * x + x / 16) - (4 * y + y / 16)) >= 4
  {
  }

  /** Only rank 0 is the lower end and only rank 3 the upper one. */
  lemma RampEnds(c: nat, d: nat, k: nat)
    requires c < 0x1_0000 && d < 0x1_0000 && c != d && k < 4
    ensures k == 0 ==> Ramp(Expand565(c), Expand565(d), k) == Expand565(c)
    ensures Ramp(Expand565(c), Expand565(d), k) == Expand565(d) <==> k == 3
  {
    hide Expand565;
    ExpandedApart(c, d);
  }

  // what a colour of the ramp is, channel by channel

  predicate Mixes(x: byte, y: byte, k: nat, m: byte) {
    (3 - k) * x + k * y - 2 <= 3 * m <= (3 - k) * x + k * y
  }

  lemma RampMixes(low: Rgb, high: Rgb, k: nat)
    requires k < 4
    ensures var m := Ramp(low, high, k);
            Mixes(low.r, high.r, k, m.r) && Mixes(low.g, high.g, k, m.g) && Mixes(low.b, high.b, k, m.b)
  {
  }

  /** An end after the inset and the cut: a sixteenth further in, but for the bits lost. */
  predicate NearEnds(min: byte, max: byte, low: byte, high: byte, loss: nat) {
    && 16 * min + (max - min) - 15 - 16 * loss <= 16 * low <= 16 * min + (max - min) + 16 * loss
    && 16 * max - (max - min) - 16 * loss <= 16 * high <= 16 * max - (max - min) + 15 + 16 * loss
  }

  lemma CutIsNear(x: byte)
    ensures Abs(Cut5(x) - x) <= 7 && Abs(Cut6(x) - x) <= 3
  {
  }

  lemma InsetIsNear(min: byte, max: byte)
    requires min <= max
    ensures var (x, y) := Inset(min, max);
            NearEnds(min, max, Cut5(x), Cut5(y), 7) && NearEnds(min, max, Cut6(x), Cut6(y), 3)
  {
    hide Cut5, Cut6;
    var (x, y) := Inset(min, max);
    CutIsNear(x);
    CutIsNear(y);
  }

  /** The place of a value on the ramp of its rank. */
  lemma SumsAreNear(k: nat, c: int, spread: int, mix: int, low: int, high: int)
    requires k < 4 && k * (spread + 1) <= 4 * c <= (k + 1) * (spread + 1) + 8 && spread >= 0
    requires (3 - k) * low + k * high - 6 <= 3 * mix <= (3 - k) * low + k * high
    requires spread - 45 - 16 * 17 <= 16 * low <= spread + 16 * 17
    requires 15 * spread - 16 * 17 <= 16 * high <= 15 * spread + 45 + 16 * 17
    ensures 16 * Abs(mix - c) <= 3 * spread + 400
  {
  }

  lemma GreyIsNear(k: nat, v: int, width: int, mix: int, low: int, high: int)
    requires k < 4 && IsAtEdges(k, v, width) && width >= 0
    requires (3 - k) * low + k * high - 2 <= 3 * mix <= (3 - k) * low + k * high
    requires width - 15 - 16 * 7 <= 16 * low <= width + 16 * 7
    requires 15 * width - 16 * 7 <= 16 * high <= 15 * width + 15 + 16 * 7
    ensures 16 * Abs(mix - v) <= 3 * width + 144
  {
  }

  lemma MixShifts(min: int, x: byte, y: byte, k: nat, m: byte)
    requires k < 4 && Mixes(x, y, k, m)
    ensures (3 - k) * (x - min) + k * (y - min) - 2 <= 3 * (m - min) <= (3 - k) * (x - min) + k * (y - min)
  {
  }

  lemma ShownIsNear(p: Pixel, box: Box, k: nat)
    requires AtMost(box.min, ColorOf(p)) && AtMost(ColorOf(p), box.max) && k < 4
    requires 0 <= SumOf(p) - MinSum(box) <= Spread(box) <= 765 && IsQuarter(SumOf(p) - MinSum(box), Spread(box), k)
    ensures ShownNear(p, box, Ramp(Cut(InsetBox(box).min), Cut(InsetBox(box).max), k))
  {
    hide IsQuarter, Ramp, Inset, Cut5, Cut6, NearEnds, Mixes, SumOf, MinSum, Spread, IsAtEdges;
    var (min, max) := (box.min, box.max);
    var (low, high) := (Cut(InsetBox(box).min), Cut(InsetBox(box).max));
    var m := Ramp(low, high, k);
    QuarterEdges(SumOf(p) - MinSum(box), Spread(box), k);
    InsetIsNear(min.r, max.r);
    InsetIsNear(min.g, max.g);
    InsetIsNear(min.b, max.b);
    RampMixes(low, high, k);
    SumIsNear(p, box, k, low, high, m);
    if IsGrey(p) && IsGrey(Opaque(min)) && IsGrey(Opaque(max)) {
      GreyEdges(p, box, k);
      ChannelIsNear(p.r, min.r, max.r, k, low.r, high.r, m.r, 7);
      ChannelIsNear(p.g, min.g, max.g, k, low.g, high.g, m.g, 3);
      ChannelIsNear(p.b, min.b, max.b, k, low.b, high.b, m.b, 7);
    }
  }

  predicate IsAtEdges(k: nat, v: int, width: int) {
    k * (3 * width + 1) <= 12 * v <= (k + 1) * (3 * width + 1) + 8
  }

  lemma GreyEdges(p: Pixel, box: Box, k: nat)
    requires IsGrey(p) && IsGrey(Opaque(box.min)) && IsGrey(Opaque(box.max))
    requires k * (Spread(box) + 1) <= 4 * (SumOf(p) - MinSum(box)) <= (k + 1) * (Spread(box) + 1) + 8
    ensures IsAtEdges(k, p.r - box.min.r, box.max.r - box.min.r)
  {
    hide SumOf, MinSum, Spread;
    GreySums(p, box);
  }

  lemma GreySums(p: Pixel, box: Box)
    requires IsGrey(p) && IsGrey(Opaque(box.min)) && IsGrey(Opaque(box.max))
    ensures SumOf(p) - MinSum(box) == 3 * (p.r - box.min.r) && Spread(box) == 3 * (box.max.r - box.min.r)
  {
  }

  lemma ChannelIsNear(v: byte, min: byte, max: byte, k: nat, low: byte, high: byte, m: byte, loss: nat)
    requires min <= v <= max && k < 4 && loss <= 7
    requires IsAtEdges(k, v - min, max - min)
    requires NearEnds(min, max, low, high, loss) && Mixes(low, high, k, m)
    ensures 16 * Abs(m - v) <= 3 * (max - min) + 144
  {
    MixShifts(min, low, high, k, m);
    GreyIsNear(k, v - min, max - min, m - min, low - min, high - min);
  }

  lemma SumIsNear(p: Pixel, box: Box, k: nat, low: Rgb, high: Rgb, m: Rgb)
    requires AtMost(box.min, ColorOf(p)) && AtMost(ColorOf(p), box.max) && k < 4
    requires k * (Spread(box) + 1) <= 4 * (SumOf(p) - MinSum(box)) <= (k + 1) * (Spread(box) + 1) + 8
    requires NearEnds(box.min.r, box.max.r, low.r, high.r, 7) && Mixes(low.r, high.r, k, m.r)
    requires NearEnds(box.min.g, box.max.g, low.g, high.g, 3) && Mixes(low.g, high.g, k, m.g)
    requires NearEnds(box.min.b, box.max.b, low.b, high.b, 7) && Mixes(low.b, high.b, k, m.b)
    ensures 16 * Abs(SumOf(Opaque(m)) - SumOf(p)) <= 3 * Spread(box) + 400
  {
    hide SumOf, MinSum, Spread, NearEnds, Mixes;
    EndsOfSums(box, low, high);
    MixOfSums(box, k, low, high, m);
    SpreadIsNatural(p, box);
    SumsAreNear(k, SumOf(p) - MinSum(box), Spread(box), SumOf(Opaque(m)) - MinSum(box),
                SumOf(Opaque(low)) - MinSum(box), SumOf(Opaque(high)) - MinSum(box));
  }

  lemma SpreadIsNatural(p: Pixel, box: Box)
    requires AtMost(box.min, ColorOf(p)) && AtMost(ColorOf(p), box.max)
    ensures Spread(box) >= 0
  {
  }

  lemma EndsOfSums(box: Box, low: Rgb, high: Rgb)
    requires NearEnds(box.min.r, box.max.r, low.r, high.r, 7) && NearEnds(box.min.g, box.max.g, low.g, high.g, 3)
    requires NearEnds(box.min.b, box.max.b, low.b, high.b, 7)
    ensures var (l, h, s) := (SumOf(Opaque(low)) - MinSum(box), SumOf(Opaque(high)) - MinSum(box), Spread(box));
            && s - 45 - 16 * 17 <= 16 * l <= s + 16 * 17
            && 15 * s - 16 * 17 <= 16 * h <= 15 * s + 45 + 16 * 17
  {
  }

  lemma MixOfSums(box: Box, k: nat, low: Rgb, high: Rgb, m: Rgb)
    requires k < 4
    requires Mixes(low.r, high.r, k, m.r) && Mixes(low.g, high.g, k, m.g) && Mixes(low.b, high.b, k, m.b)
    ensures var (l, h) := (SumOf(Opaque(low)) - MinSum(box), SumOf(Opaque(high)) - MinSum(box));
            var mix := SumOf(Opaque(m)) - MinSum(box);
            (3 - k) * l + k * h - 6 <= 3 * mix <= (3 - k) * l + k * h
  {
    hide Mixes;
    MixShifts(box.min.r, low.r, high.r, k, m.r);
    MixShifts(box.min.g, low.g, high.g, k, m.g);
    MixShifts(box.min.b, low.b, high.b, k, m.b);
    AddMixes(k, low.r - box.min.r, low.g - box.min.g, low.b - box.min.b,
             high.r - box.min.r, high.g - box.min.g, high.b - box.min.b,
             m.r - box.min.r, m.g - box.min.g, m.b - box.min.b);
  }

  lemma AddMixes(k: nat, l0: int, l1: int, l2: int, h0: int, h1: int, h2: int, m0: int, m1: int, m2: int)
    requires k < 4
    requires (3 - k) * l0 + k * h0 - 2 <= 3 * m0 <= (3 - k) * l0 + k * h0
    requires (3 - k) * l1 + k * h1 - 2 <= 3 * m1 <= (3 - k) * l1 + k * h1
    requires (3 - k) * l2 + k * h2 - 2 <= 3 * m2 <= (3 - k) * l2 + k * h2
    ensures var (l, h) := (l0 + l1 + l2, h0 + h1 + h2);
            (3 - k) * l + k * h - 6 <= 3 * (m0 + m1 + m2) <= (3 - k) * l + k * h
  {
    AddProducts(3 - k, l0, l1, l2);
    AddProducts(k, h0, h1, h2);
  }

  lemma AddProducts(k: int, x: int, y: int, z: int)
    ensures k * x + k * y + k * z == k * (x + y + z)
  {
  }

  lemma PixelIsShown(src: Tile, box: Box, d: nat, p: nat)
    requires IsBoxOf(src, box) && AtMost(box.min, box.max) && p < 16
    requires Color0(d) == To565(InsetBox(box).max) > Color1(d) == To565(InsetBox(box).min)
    requires Indices(d) == FixBytes(Pack(Ranks(src, box), 4), 4)
    ensures ShownByQuarter(src[p], box, d, Dxt1Pixel(d, p)) && ShownNear(src[p], box, Dxt1Pixel(d, p))
    ensures IsLowest(src, p) ==> Dxt1Pixel(d, p) == Expand565(Color1(d))
    ensures IsHighest(src, p) ==> (Dxt1Pixel(d, p) == Expand565(Color0(d)) <==> Spread(box) >= 4)
  {
    hide To565, Expand565, Cut, FixBytes, Pack, Bounds, IsTight, Color0, Color1, Indices, InsetBox, Dxt1Pixel,
         IsQuarter, IsLowest, IsHighest, Ramp, ShownNear, SumOf, MinSum, Spread, Rank, DivEntry, AtMost;
    PixelByRank(src, box, d, p);
    Expand565Reads(InsetBox(box).min);
    Expand565Reads(InsetBox(box).max);
    var k := Ranks(src, box)[p];
    RankOfPixel(src, box, p);
    ShownIsNear(src[p], box, k);
    SpreadIsPositive(box);
    RampEnds(To565(InsetBox(box).min), To565(InsetBox(box).max), k);
    if IsLowest(src, p) {
      LowestSum(src, box, p);
      QuarterOfEnds(Spread(box), k);
    }
    if IsHighest(src, p) {
      HighestSum(src, box, p);
      QuarterOfEnds(Spread(box), k);
    }
  }

  /** Pixels of two colours that differ in a bit that is kept, but hardly otherwise. */
  function Narrow(): Tile {
    seq(16, p => if p % 2 == 0 then Pixel(7, 0, 0, 255) else Pixel(8, 0, 0, 255))
  }

  /** The word of this block has two colours, but all its pixels are shown as the lower one. */
  lemma NarrowIsFlattened(d: nat)
    requires forall box, p :: IsBoxOf(Narrow(), box) && 0 <= p < 16 ==>
               ShownByQuarter(Narrow()[p], box, d, Dxt1Pixel(d, p))
    ensures !IsSolid(Narrow())
    ensures forall p :: 0 <= p < 16 ==> Dxt1Pixel(d, p) == Expand565(Color1(d))
  {
    hide Expand565, Dxt1Pixel, Color0, Color1;
    var src := Narrow();
    var box := Box(Rgb(7, 0, 0), Rgb(8, 0, 0));
    assert src[0].r == 7 && src[1].r == 8 && src[0].g == src[0].b == 0;
    assert !SameKept(ColorOf(src[1]), ColorOf(src[0]));
    assert IsBoxOf(src, box);
    forall p | 0 <= p < 16 ensures Dxt1Pixel(d, p) == Expand565(Color1(d)) {
      assert ShownByQuarter(src[p], box, d, Dxt1Pixel(d, p));
    }
  }

  // ---------- DXT5 alpha ----------

  /** t parts of one end and 7 - t of the other. */
  function Sevenths(x: byte, y: byte, t: nat): byte
    requires t <= 7
  {
    MixInRange(x, y, t);
    (t * x + (7 - t) * y) / 7
  }

  lemma MixInRange(x: byte, y: byte, t: nat)
    requires t <= 7
    ensures 0 <= t * x + (7 - t) * y <= 7 * 255
  {
    ProductGrows(x, 255, t);
    ProductGrows(y, 255, 7 - t);
    assert 255 * t + 255 * (7 - t) == 255 * 7;
  }

  /** adict of DecodeDxt5Part: between the two ends in sevenths, or in fifths with 0 and 255. */
  function AlphaDict(a0: byte, a1: byte): (dict: seq<byte>)
    ensures |dict| == 8
  {
    if a0 > a1 then
      [a0, a1, Sevenths(a0, a1, 6), Sevenths(a0, a1, 5), Sevenths(a0, a1, 4),
       Sevenths(a0, a1, 3), Sevenths(a0, a1, 2), Sevenths(a0, a1, 1)]
    else
      [a0, a1, (4 * a0 + 1 * a1) / 5, (3 * a0 + 2 * a1) / 5, (2 * a0 + 3 * a1) / 5, (1 * a0 + 4 * a1) / 5, 0, 255]
  }

  function AlphaWord(a0: byte, a1: byte, data: nat): nat {
    a0 + 256 * a1 + 0x1_0000 * data
  }

  function Dxt5Alpha(w: nat, p: nat): byte {
    AlphaDict(w % 256, w / 256 % 256)[Digit8(w / 0x1_0000, p)]
  }

  lemma AlphaFields(a0: byte, a1: byte, data: nat)
    ensures var w := AlphaWord(a0, a1, data); w % 256 == a0 && w / 256 % 256 == a1 && w / 0x1_0000 == data
  {
  }

  /** AlphaIndexTable. */
  function AlphaIndex(t: nat): (k: nat)
    requires t < 8
    ensures k < 8
  {
    if t == 0 then 1 else if t == 7 then 0 else 8 - t
  }

  lemma SeventhsStep(max: byte, min: byte, t: nat)
    requires min < max && t <= 7
    ensures Sevenths(max, min, t) == min + t * (max - min) / 7
  {
    assert t * max + (7 - t) * min == 7 * min + t * (max - min);
    SevenOff(min, t * (max - min));
  }

  lemma SevenOff(x: int, y: int)
    ensures (7 * x + y) / 7 == x + y / 7
  {
  }

  /** What step t between the ends is decoded to. */
  lemma DecodedStep(max: byte, min: byte, t: nat)
    requires min < max && t < 8
    ensures AlphaDict(max, min)[AlphaIndex(t)] == min + t * (max - min) / 7
  {
    hide Sevenths;
    SeventhsStep(max, min, t);
    if t == 0 {
    } else if t == 7 {
      SevenOff(0, 7 * (max - min));
    } else {
      assert AlphaDict(max, min)[8 - t] == Sevenths(max, min, t);
    }
  }

  /** With the smaller end first, the entries in between are fifths, and the last two are 0 and 255. */
  lemma FifthsStep(min: byte, max: byte, t: nat)
    requires min <= max && t <= 4
    ensures AlphaDict(min, max)[if t == 0 then 0 else 1 + t] == min + t * (max - min) / 5
    ensures AlphaDict(min, max)[1] == max && AlphaDict(min, max)[6] == 0 && AlphaDict(min, max)[7] == 255
  {
  }

  function Reciprocal(range: nat): nat {
    DivTimes(0x1_0000, 1 + range);
    0x1_0000 / (1 + range)
  }

  /** ( a * range ) >> 13. */
  function StepOf(a: nat, reciprocal: nat): nat {
    PackIsNatural(a, reciprocal);
    a * reciprocal / 0x2000
  }

  lemma StepFits(a: nat, range: nat)
    requires a <= range <= 255
    ensures StepOf(a, Reciprocal(range)) < 8
  {
    hide Reciprocal;
    ReciprocalBounds(range);
    ProductGrows(a, range, Reciprocal(range));
  }

  lemma ReciprocalBounds(range: nat)
    ensures range * Reciprocal(range) + Reciprocal(range)
              <= 0x1_0000 < range * Reciprocal(range) + Reciprocal(range) + 1 + range
  {
    var r := 0x1_0000 / (1 + range);
    DivBounds(0x1_0000, 1 + range);
    assert (1 + range) * r == range * r + r;
  }

  lemma DivBounds(x: nat, n: nat)
    requires n > 0
    ensures n * (x / n) <= x < n * (x / n) + n
  {
  }

  lemma StepBounds(a: nat, r: nat)
    ensures StepOf(a, r) * 0x2000 <= a * r < (StepOf(a, r) + 1) * 0x2000
  {
  }

  /** A step is at most an eighth too high. */
  lemma StepNotTooHigh(a: nat, range: nat, r: nat, t: nat)
    requires t * 0x2000 <= a * r && range * r <= 0x1_0000
    ensures t * range <= 8 * a
  {
    ProductGrows(t * 0x2000, a * r, range);
    assert t * 0x2000 * range == 0x2000 * (t * range);
    assert a * r * range == (range * r) * a;
    ProductGrows(range * r, 0x1_0000, a);
  }

  /** If seven times a value lay above the next step, its products would be this large. */
  lemma TooLowMeans(a: nat, range: nat, r: nat, t: nat)
    requires a * r < (t + 1) * 0x2000 && 0x1_0000 <= range * r + r + range && 7 * a > t * range + range
    ensures 0x2000 * a + range + 0x2000 <= a * (range + r)
  {
    ProductGrows(a * r + 1, (t + 1) * 0x2000, range);
    assert (a * r + 1) * range == (range * r) * a + range;
    assert (t + 1) * 0x2000 * range == 0x2000 * (t * range + range);
    ProductGrows(0x1_0000, range * r + r + range, a);
    assert (range * r + r + range) * a == (range * r) * a + a * (range + r);
  }

  /** With the reciprocal at most top and the range at most most, that is impossible. */
  lemma NeverTooLow(a: nat, range: nat, r: nat, most: nat, top: nat)
    requires a <= range <= most && r <= top && most * (most + top - 0x2000) < 0x2000 + range
    ensures 0x2000 * a + range + 0x2000 > a * (range + r)
  {
    ProductGrows(range + r, most + top, a);
    assert a * (most + top) == a * (most + top - 0x2000) + 0x2000 * a;
    if most + top >= 0x2000 {
      ProductGrows(a, most, most + top - 0x2000);
    } else {
      ProductGrows(0, a, 0x2000 - (most + top));
    }
  }

  lemma ReciprocalAtMost(range: nat, r: nat, least: nat, top: nat)
    requires least <= range && range * r + r <= 0x1_0000 < (least + 1) * (top + 1)
    ensures r <= top
  {
    ProductGrows(least + 1, range + 1, r);
    ProductGrows(top + 1, r, least + 1);
    assert (range + 1) * r == range * r + r;
    assert (least + 1) * r == r * (least + 1);
  }

  /** Nor is it more than a step too low, unless the range is tiny. */
  lemma StepNotTooLow(a: nat, range: nat, r: nat, t: nat)
    requires 6 <= range <= 255 && a <= range && a * r < (t + 1) * 0x2000
    requires range * r + r <= 0x1_0000 <= range * r + r + range
    ensures 7 * a <= t * range + range
  {
    if 7 * a > t * range + range {
      TooLowMeans(a, range, r, t);
      if range == 6 {
        ReciprocalAtMost(range, r, 6, 9362);
        NeverTooLow(a, range, r, 6, 9362);
      } else if range < 33 {
        ReciprocalAtMost(range, r, 7, 8192);
        NeverTooLow(a, range, r, 32, 8192);
      } else {
        ReciprocalAtMost(range, r, 33, 1927);
        NeverTooLow(a, range, r, 255, 1927);
      }
      assert false;
    }
  }

  /** Steps of tiny ranges, one by one. */
  lemma TinyRange(a: nat, range: nat)
    requires 1 <= range <= 5 && a <= range
    ensures a <= StepOf(a, Reciprocal(range)) * range / 7 + range / 7 + 1
  {
    if range == 1 {
      if a == 0 {} else {}
    } else if range == 2 {
      if a == 0 {} else if a == 1 {} else {}
    } else if range == 3 {
      if a == 0 {} else if a == 1 {} else if a == 2 {} else {}
    } else if range == 4 {
      if a == 0 {} else if a == 1 {} else if a == 2 {} else if a == 3 {} else {}
    } else {
      if a == 0 {} else if a == 1 {} else if a == 2 {} else if a == 3 {} else if a == 4 {} else {}
    }
  }

  /** A value and its decoded step are at most a seventh of the range and one apart. */
  lemma StepIsNear(a: nat, range: nat)
    requires 1 <= range <= 255 && a <= range
    ensures var d := StepOf(a, Reciprocal(range)) * range / 7;
            a <= d + range / 7 + 1 && d <= a + range / 7
  {
    hide Reciprocal, StepOf;
    var r := Reciprocal(range);
    var t := StepOf(a, r);
    ReciprocalBounds(range);
    StepBounds(a, r);
    StepNotTooHigh(a, range, r, t);
    PackIsNatural(t, range);
    if range <= 5 {
      TinyRange(a, range);
    } else {
      StepNotTooLow(a, range, r, t);
    }
    DivideBySeven(t * range, range, a);
  }

  lemma DivideBySeven(x: nat, range: nat, a: nat)
    requires a <= range
    ensures 7 * a <= x + range ==> a <= x / 7 + range / 7 + 1
    ensures x <= 8 * a ==> x / 7 <= a + range / 7
  {
  }

  // ---------- a whole alpha block ----------

  function Steps(src: Alphas, min: byte, range: nat): (codes: seq<nat>)
    requires range <= 255 && forall i :: 0 <= i < 16 ==> min <= src[i] <= min + range
    ensures |codes| == 16 && forall i :: 0 <= i < 16 ==> codes[i] < 8
  {
    seq(16, i requires 0 <= i < 16 =>
      StepFits(src[i] - min, range); AlphaIndex(StepOf(src[i] - min, Reciprocal(range))))
  }

  /** ProcessAlpha. A flat block comes back exactly; in any other no value comes back further away than
      a seventh of the range and one. */
  method ProcessAlpha(src: Alphas) returns (w: nat, ghost range: nat)
    ensures IsFlat(src) ==> forall p :: 0 <= p < 16 ==> Dxt5Alpha(w, p) == src[p]
    ensures !IsFlat(src) ==> exists i, j :: 0 <= i < 16 && 0 <= j < 16 && src[i] + range == src[j]
    ensures !IsFlat(src) ==> forall i, j :: 0 <= i < 16 && 0 <= j < 16 ==> src[j] <= src[i] + range
    ensures !IsFlat(src) ==> forall p :: 0 <= p < 16 ==> Abs(Dxt5Alpha(w, p) - src[p]) <= range / 7 + 1
  {
    hide Dxt5Alpha, Pack, Weight, Reciprocal, StepOf, AlphaIndex, AlphaDict;
    range := 0;
    var solid := true;
    for i := 1 to 16
      invariant solid <==> forall k :: 0 <= k < i ==> src[k] == src[0]
    {
      if src[i] != src[0] {
        solid := false;
        break;
      }
    }
    if solid {
      FlatAlpha(src[0]);
      return src[0], 0;
    }
    var min, max := src[0], src[0];
    ghost var least, most := 0, 0;
    for i := 1 to 16
      invariant least < i && most < i && min == src[least] && max == src[most]
      invariant forall k :: 0 <= k < i ==> min <= src[k] <= max
    {
      var v := src[i];
      if v > max {
        max := v;
        most := i;
      } else if v < min {
        min := v;
        least := i;
      }
    }
    range := src[most] - src[least];
    var data := PackSteps(src, min, max - min);
    w := AlphaWord(max, min, data);
    forall p | 0 <= p < 16 ensures Abs(Dxt5Alpha(w, p) - src[p]) <= (max - min) / 7 + 1 {
      AlphaReadsBack(max, min, Steps(src, min, max - min), p);
      StepFits(src[p] - min, max - min);
      DecodedStep(max, min, StepOf(src[p] - min, Reciprocal(max - min)));
      StepIsNear(src[p] - min, max - min);
    }
  }

  lemma FlatAlpha(v: byte)
    ensures forall p :: 0 <= p < 16 ==> Dxt5Alpha(v, p) == v
  {
    hide Digit8, AlphaDict;
    forall p | 0 <= p < 16 ensures Dxt5Alpha(v, p) == v {
      ZeroDigit8(p);
      FirstAlpha(v);
      assert v / 0x1_0000 == 0 && v % 256 == v && v / 256 % 256 == 0;
    }
  }

  lemma FirstAlpha(v: byte)
    ensures AlphaDict(v, 0)[0] == v
  {
  }

  lemma {:induction false} ZeroDigit8(k: nat)
    ensures Digit8(0, k) == 0
  {
    if k > 0 {
      ZeroDigit8(k - 1);
    }
  }

  /** The decoder looks every packed code up between the ends. */
  lemma AlphaReadsBack(a0: byte, a1: byte, codes: seq<nat>, p: nat)
    requires p < |codes| && forall i :: 0 <= i < |codes| ==> codes[i] < 8
    ensures Dxt5Alpha(AlphaWord(a0, a1, Pack(codes, 8)), p) == AlphaDict(a0, a1)[codes[p]]
  {
    hide AlphaDict, Digit8, Pack, AlphaWord;
    AlphaFields(a0, a1, Pack(codes, 8));
    Digit8OfPack(codes, p);
  }

  /** The code loop: data |= idx << (i * 3). */
  method PackSteps(src: Alphas, min: byte, range: nat) returns (data: nat)
    requires range <= 255 && forall i :: 0 <= i < 16 ==> min <= src[i] <= min + range
    ensures data == Pack(Steps(src, min, range), 8)
  {
    hide Pack, Weight, Reciprocal, StepOf, AlphaIndex;
    var reciprocal := Reciprocal(range);
    data := 0;
    var weight := 1;
    ghost var codes := Steps(src, min, range);
    NoDigits(8);
    assert codes[..0] == [];
    for i := 0 to 16
      invariant data == Pack(codes[..i], 8) && weight == Weight(8, i)
    {
      StepFits(src[i] - min, range);
      PackAppend(codes[..i], codes[i], 8);
      assert codes[..i + 1] == codes[..i] + [codes[i]];
      data := data + AlphaIndex(StepOf(src[i] - min, reciprocal)) * weight;
      weight := 8 * weight;
    }
    assert codes[..16] == codes;
  }
}
